/**
 * The three argument vectors of the repository's own test, each followed
 * through `CmdArgs` token by token. Each token is classified by a lemma of
 * its own, the pass is chained from one token to the next, and every
 * scenario is first proved for any option value with the properties the
 * pass relies on, then for the value the test uses. The proofs split an
 * option value into its pieces (`rodger:44` is `"rodger" + ":" + "44"`) so
 * that the verifier reasons about them piece by piece.
 */
module Scenarios {
  import opened Wrappers
  import opened JsStrings
  import opened OrderedDict
  import opened Patterns
  import opened NameValue
  import opened CommandLine
  import opened ValueExamples
  import opened TestValues

  // ---------------------------------------------------------------------
  // Tokens

  /** `-c`: a single-hyphen option named by one code unit, never a flag list. */
  lemma ShortToken(c: char)
    requires !IsSpace(c) && c != '-'
    ensures Trim(['-', c]) == ['-', c] && !IsFlagList(['-', c])
    ensures StartsWith(['-', c], "-") && !StartsWith(['-', c], "--")
    ensures OptionName(['-', c]) == [c]
  {
  }

  /** `--w`: a double-hyphen option named by a word. */
  lemma LongToken(w: string)
    requires IsWord(w)
    ensures Trim("--" + w) == "--" + w && !IsFlagList("--" + w)
    ensures StartsWith("--" + w, "-") && StartsWith("--" + w, "--")
    ensures OptionName("--" + w) == w
  {
    var v := "--" + w;
    assert v[|v| - 1] == w[|w| - 1];
    assert v[1] == '-';
  }

  /** The words of the test's argument vectors. */
  lemma TestWords()
    ensures IsWord("01") && !IsKeyword("01") && IsWord("12") && !IsKeyword("12")
    ensures IsWord("config") && IsWord("name")
  {
  }

  /** The long option names of the test's argument vectors. */
  lemma LongNames()
    ensures "--" + "config" == "--config" && "--" + "name" == "--name"
  {
  }

  /** `-c v`: a single-hyphen option followed by a plain word that is not a
      keyword takes the word as its text. */
  lemma ShortValueStep(tokens: seq<string>, i: nat, a: Arguments, c: char, v: string)
    requires i + 1 < |tokens| && tokens[i] == ['-', c] && tokens[i + 1] == v
    requires !IsSpace(c) && c != '-' && IsWord(v) && !IsKeyword(v) && v[0] != '-'
    requires !HasKey(a.options, [c])
    ensures Next(tokens, i) == i + 2
    ensures Step(tokens, i, a) == a.(options := a.options + [([c], Text(v))])
  {
    ShortToken(c);
    WordFacts(v);
    OptionToken(tokens, i, a);
  }

  /** `--w c`: a double-hyphen option followed by a trimmed text that does
      not start with a hyphen takes the parsed text as its value. */
  lemma LongValueStep(tokens: seq<string>, i: nat, a: Arguments, w: string, c: string)
    requires i + 1 < |tokens| && tokens[i] == "--" + w && tokens[i + 1] == c
    requires IsWord(w) && IsTrimmed(c) && !StartsWith(c, "-") && !HasKey(a.options, w)
    ensures Next(tokens, i) == i + 2
    ensures Step(tokens, i, a) == a.(options := a.options + [(w, ParseNameValue(Text(c)))])
  {
    LongToken(w);
    OptionToken(tokens, i, a);
  }

  /** `-c` followed by another option, or last: set to `true` and pushed onto
      the flags. */
  lemma BareShortStep(tokens: seq<string>, i: nat, a: Arguments, c: char)
    requires i < |tokens| && tokens[i] == ['-', c] && !IsSpace(c) && c != '-'
    requires i + 1 == |tokens| || StartsWith(tokens[i + 1], "-")
    requires !HasKey(a.options, [c])
    ensures Next(tokens, i) == i + 1
    ensures Step(tokens, i, a) == a.(flags := a.flags + [[c]], options := a.options + [([c], Bool(true))])
  {
    ShortToken(c);
    OptionToken(tokens, i, a);
  }

  /** `-tlRv` pushes its four letters onto the flags. */
  lemma FlagGroupStep(tokens: seq<string>, i: nat, a: Arguments)
    requires i < |tokens| && tokens[i] == "-tlRv"
    ensures Next(tokens, i) == i + 1
    ensures Step(tokens, i, a) == a.(flags := a.flags + ["t", "l", "R", "v"])
  {
    assert Trim("-tlRv") == "-tlRv" && IsFlagList("-tlRv");
    FlagListToken(tokens, i, a);
    FlagGroupLetters();
  }

  /** The letters of the flag list `-tlRv`. */
  lemma FlagGroupLetters()
    ensures Letters("-tlRv"[1..]) == ["t", "l", "R", "v"]
  {
    assert "-tlRv"[1..] == "tlRv";
  }

  /** A trimmed positional token while the command is still unset. */
  lemma FirstPositionalStep(tokens: seq<string>, i: nat, a: Arguments)
    requires i < |tokens| && IsTrimmed(tokens[i]) && !StartsWith(tokens[i], "-")
    requires a.command == None && a.commands == []
    ensures Next(tokens, i) == i + 1
    ensures Step(tokens, i, a) == a.(command := Some(tokens[i]), commands := [tokens[i]])
  {
    PositionalToken(tokens, i, a);
  }

  // ---------------------------------------------------------------------
  // Chaining the pass

  /** The pass over token `i` goes on from the step's result at the next
      index. */
  lemma RunThrough(tokens: seq<string>, i: nat, j: nat, a: Arguments, b: Arguments, r: Arguments)
    requires i < |tokens| && Next(tokens, i) == j && Step(tokens, i, a) == b && Run(tokens, j, b) == r
    ensures Run(tokens, i, a) == r
  {
    RunUnfolds(tokens, i, a);
  }

  /** The pass ends after the last token. */
  lemma RunDone(tokens: seq<string>, a: Arguments)
    ensures Run(tokens, |tokens|, a) == a
  {
  }

  /** The argument vectors of the test: the names `executable` and
      `script`, then the tokens. */
  function Vector(tokens: seq<string>): seq<string> {
    ["executable", "script"] + tokens
  }

  /** `Initial` on a test vector, written out. */
  function Initialised(tokens: seq<string>): (r: Arguments)
    ensures r == Initial(Vector(tokens))
  {
    var args := Vector(tokens);
    assert args[0] == "executable" && args[1] == "script" && args[2..] == tokens;
    Arguments(Some("executable"), Some("script"), tokens, None, [], [], [])
  }

  /** `CmdArgs` on a test vector is the pass over its tokens from the
      initial object. */
  lemma ParseFrom(tokens: seq<string>, r: Arguments)
    requires |tokens| > 0 && Run(tokens, 0, Initialised(tokens)) == r
    ensures Parse(Vector(tokens)) == r
  {
    var args := Vector(tokens);
    assert args[2..] == tokens;
    ParseRuns(args);
  }

  /** A first token that is a trimmed positional becomes the command. */
  lemma CommandRun(tokens: seq<string>, r: Arguments)
    requires |tokens| > 0 && IsTrimmed(tokens[0]) && !StartsWith(tokens[0], "-")
    requires Run(tokens, 1, Initialised(tokens).(command := Some(tokens[0]), commands := [tokens[0]])) == r
    ensures Run(tokens, 0, Initialised(tokens)) == r
  {
    var a := Initialised(tokens);
    FirstPositionalStep(tokens, 0, a);
    RunThrough(tokens, 0, 1, a, a.(command := Some(tokens[0]), commands := [tokens[0]]), r);
  }

  /** A test vector whose first token `cmd` is a trimmed positional: the
      parse is the pass over the other tokens once `cmd` is the command. */
  lemma CommandParse(tokens: seq<string>, cmd: string, r: Arguments)
    requires |tokens| > 0 && tokens[0] == cmd && IsTrimmed(cmd) && !StartsWith(cmd, "-")
    requires Run(tokens, 1, Initialised(tokens).(command := Some(cmd), commands := [cmd])) == r
    ensures Parse(Vector(tokens)) == r
  {
    CommandRun(tokens, r);
    ParseFrom(tokens, r);
  }

  /** The object a pass ends with when it set the command `cmd` and then
      the flags `fs` and the options `os`. */
  lemma Commanded(tokens: seq<string>, cmd: string, fs: seq<string>, os: Dict<Value>)
    ensures Initialised(tokens).(command := Some(cmd), commands := [cmd]).(flags := fs, options := os) ==
      Arguments(Some("executable"), Some("script"), tokens, Some(cmd), [cmd], fs, os)
  {
  }

  /** Two options added one after the other to an object without options. */
  lemma TwoOptions(a: Arguments, b: Arguments, d: Arguments, o1: (string, Value), o2: (string, Value))
    requires a.options == [] && b == a.(options := a.options + [o1]) && d == b.(options := b.options + [o2])
    ensures d == a.(options := [o1, o2])
  {
    assert d.options == [o1, o2];
  }

  // ---------------------------------------------------------------------
  // The first scenario: `-t 01 --config <record>`

  /** `-n v --w c`, from no options: a single-hyphen option with a plain
      word, then a double-hyphen option with a trimmed text, both taken as
      values. */
  lemma ValueOptionsRun(tokens: seq<string>, i: nat, a: Arguments, n: char, v: string, w: string, c: string, r: Arguments)
    requires i + 4 <= |tokens| && tokens[i] == ['-', n] && tokens[i + 1] == v
    requires tokens[i + 2] == "--" + w && tokens[i + 3] == c
    requires !IsSpace(n) && n != '-' && IsWord(v) && !IsKeyword(v) && v[0] != '-'
    requires IsWord(w) && w != [n] && IsTrimmed(c) && !StartsWith(c, "-") && a.options == []
    requires Run(tokens, i + 4, a.(options := [([n], Text(v)), (w, ParseNameValue(Text(c)))])) == r
    ensures Run(tokens, i, a) == r
  {
    var b := a.(options := a.options + [([n], Text(v))]);
    var d := b.(options := b.options + [(w, ParseNameValue(Text(c)))]);
    ShortValueStep(tokens, i, a, n, v);
    assert !HasKey(b.options, w) by {
      assert b.options == [([n], Text(v))];
    }
    LongValueStep(tokens, i + 2, b, w, c);
    TwoOptions(a, b, d, ([n], Text(v)), (w, ParseNameValue(Text(c))));
    RunThrough(tokens, i + 2, i + 4, b, d, r);
    RunThrough(tokens, i, i + 2, a, b, r);
  }

  /** `-t 01 --config c`, from no options. */
  lemma ConfigRun(tokens: seq<string>, a: Arguments, c: string)
    requires |tokens| == 4 && tokens[0] == "-t" && tokens[1] == "01" && tokens[2] == "--config" && tokens[3] == c
    requires IsTrimmed(c) && !StartsWith(c, "-") && a.options == []
    ensures Run(tokens, 0, a) == a.(options := [("t", Text("01")), ("config", ParseNameValue(Text(c)))])
  {
    var d := a.(options := [("t", Text("01")), ("config", ParseNameValue(Text(c)))]);
    TestWords();
    LongNames();
    RunDone(tokens, d);
    ValueOptionsRun(tokens, 0, a, 't', "01", "config", c, d);
  }

  /** The first argument vector, for any option value `c` that is trimmed,
      does not start with a hyphen and parses to `r`: no command, no flags,
      the option `t` and the option `config`. */
  lemma ConfigScenarioWith(c: string, r: Value)
    requires IsTrimmed(c) && !StartsWith(c, "-") && ParseNameValue(Text(c)) == r
    ensures Parse(Vector(["-t", "01", "--config", c])) ==
      Arguments(Some("executable"), Some("script"), ["-t", "01", "--config", c], None, [], [],
        [("t", Text("01")), ("config", r)])
  {
    var tokens := ["-t", "01", "--config", c];
    var a := Initialised(tokens);
    ConfigRun(tokens, a, c);
    ParseFrom(tokens, a.(options := [("t", Text("01")), ("config", ParseNameValue(Text(c)))]));
  }

  /** The first argument vector of the test, with its config value
      `port:3000 ,secure, url:https\://localhost\:3000`. */
  lemma ConfigScenario()
    ensures Parse(Vector(["-t", "01", "--config", ConfigValue()])) ==
      Arguments(Some("executable"), Some("script"), ["-t", "01", "--config", ConfigValue()], None, [], [],
        [("t", Text("01")),
         ("config", Record([("port", Text("3000")), ("secure", Bool(true)), ("url", Text("https://localhost:3000"))]))])
  {
    ConfigValueShape();
    ConfigParses();
    ConfigScenarioWith(ConfigValue(), Record([("port", Text("3000")), ("secure", Bool(true)), ("url", Text("https://localhost:3000"))]));
  }

  // ---------------------------------------------------------------------
  // The second scenario: `command -tlRv --name <record>`

  /** `-tlRv --name c`, from no flags and no options. */
  lemma NameRun(tokens: seq<string>, i: nat, a: Arguments, c: string)
    requires i + 3 == |tokens| && tokens[i] == "-tlRv" && tokens[i + 1] == "--name" && tokens[i + 2] == c
    requires IsTrimmed(c) && !StartsWith(c, "-") && a.flags == [] && a.options == []
    ensures Run(tokens, i, a) == a.(flags := ["t", "l", "R", "v"], options := [("name", ParseNameValue(Text(c)))])
  {
    var b := a.(flags := a.flags + ["t", "l", "R", "v"]);
    var d := b.(options := b.options + [("name", ParseNameValue(Text(c)))]);
    FlagGroupStep(tokens, i, a);
    TestWords();
    LongNames();
    LongValueStep(tokens, i + 1, b, "name", c);
    RunDone(tokens, d);
    RunThrough(tokens, i + 1, i + 3, b, d, d);
    RunThrough(tokens, i, i + 1, a, b, d);
    FlagsThenOption(a, b, d, ["t", "l", "R", "v"], ("name", ParseNameValue(Text(c))));
  }

  /** Flags, then one option, added to an object without either. */
  lemma FlagsThenOption(a: Arguments, b: Arguments, d: Arguments, fs: seq<string>, o: (string, Value))
    requires a.flags == [] && a.options == []
    requires b == a.(flags := a.flags + fs) && d == b.(options := b.options + [o])
    ensures d == a.(flags := fs, options := [o])
  {
    assert d.flags == fs && d.options == [o];
  }

  /** The second argument vector, for any option value `c` that is trimmed,
      does not start with a hyphen and parses to `r`: the command, four
      flags from the flag list, and the option `name`. */
  lemma NameScenarioWith(c: string, r: Value)
    requires IsTrimmed(c) && !StartsWith(c, "-") && ParseNameValue(Text(c)) == r
    ensures Parse(Vector(["command", "-tlRv", "--name", c])) ==
      Arguments(Some("executable"), Some("script"), ["command", "-tlRv", "--name", c],
        Some("command"), ["command"], ["t", "l", "R", "v"], [("name", r)])
  {
    var tokens := ["command", "-tlRv", "--name", c];
    var a := Initialised(tokens).(command := Some("command"), commands := ["command"]);
    NameRun(tokens, 1, a, c);
    Commanded(tokens, "command", ["t", "l", "R", "v"], [("name", r)]);
    CommandParse(tokens, "command", a.(flags := ["t", "l", "R", "v"], options := [("name", r)]));
  }

  /** The second argument vector of the test, with its value `rodger:44`. */
  lemma NameScenario()
    ensures Parse(Vector(["command", "-tlRv", "--name", "rodger:44"])) ==
      Arguments(Some("executable"), Some("script"), ["command", "-tlRv", "--name", "rodger:44"],
        Some("command"), ["command"], ["t", "l", "R", "v"], [("name", Record([("rodger", Text("44"))]))])
  {
    var c := "rodger:44";
    assert c == "rodger" + ":" + "44";
    OneField("rodger", "44");
    assert IsTrimmed(c) && !StartsWith(c, "-") by {
      assert c[0] == 'r' && c[|c| - 1] == '4';
    }
    NameScenarioWith(c, Record([("rodger", Text("44"))]));
  }

  // ---------------------------------------------------------------------
  // The third scenario: `command1 -r 12 --config <record> -q -l`

  /** A key that is neither among the keys of `d` nor the key of `e` is not
      among the keys of `d + [e]`. */
  lemma NotKeyAppend<V>(d: Dict<V>, e: (string, V), k: string)
    requires !HasKey(d, k) && e.0 != k
    ensures !HasKey(d + [e], k)
  {
    forall j | 0 <= j < |d + [e]| ensures (d + [e])[j].0 != k {
      if j < |d| {
        assert (d + [e])[j] == d[j];
      }
    }
  }

  /** `-q -l` at the end, when neither is an option yet. */
  lemma BareOptionsRun(tokens: seq<string>, i: nat, a: Arguments)
    requires i + 2 == |tokens| && tokens[i] == "-q" && tokens[i + 1] == "-l"
    requires !HasKey(a.options, "q") && !HasKey(a.options, "l")
    ensures Run(tokens, i, a) ==
      a.(flags := a.flags + ["q", "l"], options := a.options + [("q", Bool(true)), ("l", Bool(true))])
  {
    var b := a.(flags := a.flags + ["q"], options := a.options + [("q", Bool(true))]);
    var d := b.(flags := b.flags + ["l"], options := b.options + [("l", Bool(true))]);
    assert StartsWith("-l", "-");
    BareShortStep(tokens, i, a, 'q');
    NotKeyAppend(a.options, ("q", Bool(true)), "l");
    BareShortStep(tokens, i + 1, b, 'l');
    RunDone(tokens, d);
    RunThrough(tokens, i + 1, i + 2, b, d, d);
    RunThrough(tokens, i, i + 1, a, b, d);
    TwoBareOptions(a, b, d, "q", "l");
  }

  /** Two options set to `true` and pushed onto the flags one after the other. */
  lemma TwoBareOptions(a: Arguments, b: Arguments, d: Arguments, f1: string, f2: string)
    requires b == a.(flags := a.flags + [f1], options := a.options + [(f1, Bool(true))])
    requires d == b.(flags := b.flags + [f2], options := b.options + [(f2, Bool(true))])
    ensures d == a.(flags := a.flags + [f1, f2], options := a.options + [(f1, Bool(true)), (f2, Bool(true))])
  {
    assert d.flags == a.flags + [f1, f2];
    assert d.options == a.options + [(f1, Bool(true)), (f2, Bool(true))];
  }

  /** The options and flags the third vector ends with, as a function of the
      parsed config value. */
  function ThirdResult(a: Arguments, v: Value): Arguments {
    a.(flags := ["q", "l"], options := [("r", Text("12")), ("config", v), ("q", Bool(true)), ("l", Bool(true))])
  }

  /** The tokens from `i` on are `-r 12 --config c -q -l`. */
  predicate ThirdTokens(tokens: seq<string>, i: nat, c: string) {
    && i + 6 == |tokens| && tokens[i] == "-r" && tokens[i + 1] == "12"
    && tokens[i + 2] == "--config" && tokens[i + 3] == c && tokens[i + 4] == "-q" && tokens[i + 5] == "-l"
  }

  /** The third argument vector holds `-r 12 --config c -q -l` after its
      command. */
  lemma ThirdTokensOf(c: string)
    ensures ThirdTokens(["command1", "-r", "12", "--config", c, "-q", "-l"], 1, c)
  {
  }

  /** `-r 12 --config c -q -l`, from no flags and no options. */
  lemma OptionsRun(tokens: seq<string>, i: nat, a: Arguments, c: string)
    requires ThirdTokens(tokens, i, c)
    requires IsTrimmed(c) && !StartsWith(c, "-") && a.flags == [] && a.options == []
    ensures Run(tokens, i, a) == ThirdResult(a, ParseNameValue(Text(c)))
  {
    var v := ParseNameValue(Text(c));
    var b := a.(options := [("r", Text("12")), ("config", v)]);
    NotKeyOfTwo(b.options, ("r", Text("12")), ("config", v), "q");
    NotKeyOfTwo(b.options, ("r", Text("12")), ("config", v), "l");
    BareOptionsRun(tokens, i + 4, b);
    BareAfterTwo(a, b, ("r", Text("12")), ("config", v), "q", "l");
    TestWords();
    LongNames();
    ValueOptionsRun(tokens, i, a, 'r', "12", "config", c, ThirdResult(a, v));
  }

  /** A key that neither entry of a two-entry dictionary has. */
  lemma NotKeyOfTwo<V>(d: Dict<V>, e0: (string, V), e1: (string, V), k: string)
    requires d == [e0, e1] && k != e0.0 && k != e1.0
    ensures !HasKey(d, k)
  {
  }

  /** Two options with values, then two set to `true` and pushed onto the
      flags, from no flags. */
  lemma BareAfterTwo(a: Arguments, b: Arguments, o1: (string, Value), o2: (string, Value), f1: string, f2: string)
    requires a.flags == [] && b == a.(options := [o1, o2])
    ensures b.(flags := b.flags + [f1, f2], options := b.options + [(f1, Bool(true)), (f2, Bool(true))]) ==
      a.(flags := [f1, f2], options := [o1, o2, (f1, Bool(true)), (f2, Bool(true))])
  {
    assert b.options + [(f1, Bool(true)), (f2, Bool(true))] == [o1, o2, (f1, Bool(true)), (f2, Bool(true))];
  }

  /** The third argument vector, for any option value `c` that is trimmed,
      does not start with a hyphen and parses to `r`: the command, the two
      single-hyphen options without a value as flags, and four options. */
  lemma ConfigFlagsScenarioWith(c: string, r: Value)
    requires IsTrimmed(c) && !StartsWith(c, "-") && ParseNameValue(Text(c)) == r
    ensures Parse(Vector(["command1", "-r", "12", "--config", c, "-q", "-l"])) ==
      Arguments(Some("executable"), Some("script"), ["command1", "-r", "12", "--config", c, "-q", "-l"],
        Some("command1"), ["command1"], ["q", "l"],
        [("r", Text("12")), ("config", r), ("q", Bool(true)), ("l", Bool(true))])
  {
    var tokens := ["command1", "-r", "12", "--config", c, "-q", "-l"];
    var a := Initialised(tokens).(command := Some("command1"), commands := ["command1"]);
    ThirdTokensOf(c);
    OptionsRun(tokens, 1, a, c);
    Commanded(tokens, "command1", ["q", "l"], [("r", Text("12")), ("config", r), ("q", Bool(true)), ("l", Bool(true))]);
    CommandParse(tokens, "command1", ThirdResult(a, r));
  }

  /** The third argument vector of the test, with its value `port:300,secure`. */
  lemma ConfigFlagsScenario()
    ensures Parse(Vector(["command1", "-r", "12", "--config", "port:300,secure", "-q", "-l"])) ==
      Arguments(Some("executable"), Some("script"),
        ["command1", "-r", "12", "--config", "port:300,secure", "-q", "-l"],
        Some("command1"), ["command1"], ["q", "l"],
        [("r", Text("12")), ("config", Record([("port", Text("300")), ("secure", Bool(true))])),
         ("q", Bool(true)), ("l", Bool(true))])
  {
    var c := "port:300,secure";
    assert c == "port" + ":" + "300" + "," + "secure";
    FieldThenFlag("port", "300", "secure");
    assert IsTrimmed(c) && !StartsWith(c, "-") by {
      assert c[0] == 'p' && c[|c| - 1] == 'e';
    }
    ConfigFlagsScenarioWith(c, Record([("port", Text("300")), ("secure", Bool(true))]));
  }

  // ---------------------------------------------------------------------
  // The command is not always the first positional token

  /** An empty positional token sets the command to the empty string, which
      is falsy, so the next positional token replaces it: the command is then
      the second entry of the commands, not the first. */
  lemma EmptyCommandReplaced(v: string)
    requires v != "" && IsTrimmed(v) && !StartsWith(v, "-")
    ensures Parse(Vector(["", v])).commands == ["", v]
    ensures Parse(Vector(["", v])).command == Some(v)
  {
    var tokens := ["", v];
    var a0 := Initialised(tokens);
    var a1 := a0.(command := Some(""), commands := [""]);
    var a2 := a0.(command := Some(v), commands := ["", v]);
    assert Run(tokens, 1, a1) == a2 by {
      PositionalToken(tokens, 1, a1);
      RunUnfolds(tokens, 1, a1);
    }
    assert Run(tokens, 0, a0) == Run(tokens, 1, a1) by {
      assert Trim("") == "";
      PositionalToken(tokens, 0, a0);
      RunUnfolds(tokens, 0, a0);
    }
    ParseFrom(tokens, a2);
  }
}
