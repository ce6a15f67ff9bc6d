/**
 * `CmdArgs` and `processArgs`: the split of the argument vector into the
 * executable, the script and the tokens, and the single left-to-right pass
 * that classifies each token as a flag group, a named option (which may take
 * the next token as its value) or a positional command.
 */
module CommandLine {
  import opened Wrappers
  import opened JsStrings
  import opened OrderedDict
  import opened Patterns
  import opened NameValue

  /** The `cmdArgs` object: `_executable`, `_script`, `tokens`, `command`,
      `commands`, `flags` and `options`. */
  datatype Arguments = Arguments(
    executable: Option<string>,
    script: Option<string>,
    tokens: seq<string>,
    command: Option<string>,
    commands: seq<string>,
    flags: seq<string>,
    options: Dict<Value>)

  /** `cmdArgs.command` is falsy: `null`, or the empty string. */
  predicate IsFalsy(command: Option<string>) {
    command == None || command == Some("")
  }

  /** The option name of a hyphen token: two leading hyphens are dropped when
      it starts with `--`, one otherwise. */
  function OptionName(v: string): (name: string)
    requires StartsWith(v, "-")
    ensures StartsWith(v, "--") ==> v == "--" + name
    ensures !StartsWith(v, "--") ==> v == "-" + name
  {
    if StartsWith(v, "--") then v[2..] else v[1..]
  }

  /** `val.substring(1).split("")`: each code unit as a string of its own. */
  function Letters(s: string): (r: seq<string>)
    ensures |r| == |s|
    ensures forall k :: 0 <= k < |r| ==> r[k] == [s[k]]
  {
    seq(|s|, k requires 0 <= k < |s| => [s[k]])
  }

  /** Token `i` is a named option (it starts with a hyphen once trimmed and
      is not a flag list). */
  predicate IsOptionToken(tokens: seq<string>, i: nat)
    requires i < |tokens|
  {
    var v := Trim(tokens[i]);
    !IsFlagList(v) && StartsWith(v, "-")
  }

  /** Token `i` is a named option that takes token `i + 1` as its value:
      there is a next token and, untrimmed, it does not start with a hyphen. */
  predicate TakesValue(tokens: seq<string>, i: nat)
    requires i < |tokens|
  {
    IsOptionToken(tokens, i) && i + 1 < |tokens| && !StartsWith(tokens[i + 1], "-")
  }

  /** The index the pass moves to after classifying token `i`. */
  function Next(tokens: seq<string>, i: nat): (j: nat)
    requires i < |tokens|
    ensures j == i + 1 || j == i + 2
    ensures j <= |tokens|
  {
    if TakesValue(tokens, i) then i + 2 else i + 1
  }

  /** A token that a named option does not take as its value is never a
      positional command: it starts with a hyphen, also once trimmed, so it
      is classified as an option or a flag list in its turn. */
  lemma UntakenNextIsHyphen(tokens: seq<string>, i: nat)
    requires i + 1 < |tokens| && IsOptionToken(tokens, i) && !TakesValue(tokens, i)
    ensures StartsWith(tokens[i + 1], "-") && StartsWith(Trim(tokens[i + 1]), "-")
  {
    TrimKeepsFirst(tokens[i + 1]);
  }

  /** One iteration of the loop of `processArgs`, on token `i`. */
  function Step(tokens: seq<string>, i: nat, a: Arguments): Arguments
    requires i < |tokens|
  {
    var v := Trim(tokens[i]);
    if IsFlagList(v) then
      a.(flags := a.flags + Letters(v[1..]))
    else if StartsWith(v, "-") then
      var name := OptionName(v);
      var raw := if TakesValue(tokens, i) then Text(Trim(tokens[i + 1])) else Bool(true);
      var flags := if !TakesValue(tokens, i) && !StartsWith(v, "--") then a.flags + [name] else a.flags;
      a.(flags := flags, options := Put(a.options, name, ParseNameValue(raw)))
    else
      a.(command := if IsFalsy(a.command) then Some(v) else a.command,
         commands := a.commands + [v])
  }

  /** A step never duplicates an option name. */
  lemma StepKeepsKeysUnique(tokens: seq<string>, i: nat, a: Arguments)
    requires i < |tokens|
    requires UniqueKeys(a.options)
    ensures UniqueKeys(Step(tokens, i, a).options)
  {
    var v := Trim(tokens[i]);
    if !IsFlagList(v) && StartsWith(v, "-") {
      var raw := if TakesValue(tokens, i) then Text(Trim(tokens[i + 1])) else Bool(true);
      PutKeepsKeysUnique(a.options, OptionName(v), ParseNameValue(raw));
    }
  }

  /** The rest of the pass, from token `i` on: each token classified in turn,
      starting from `a`. */
  function Run(tokens: seq<string>, i: nat, a: Arguments): Arguments
    requires i <= |tokens|
    decreases |tokens| - i
  {
    if i == |tokens| then a else Run(tokens, Next(tokens, i), Step(tokens, i, a))
  }

  /** The pass only appends to `flags` and `commands`, keeps the option
      names unique, and leaves `_executable`, `_script` and `tokens` alone. */
  lemma {:induction false} RunPreserves(tokens: seq<string>, i: nat, a: Arguments)
    requires i <= |tokens|
    ensures var r := Run(tokens, i, a);
      && r.executable == a.executable && r.script == a.script && r.tokens == a.tokens
      && a.flags <= r.flags && a.commands <= r.commands
      && (UniqueKeys(a.options) ==> UniqueKeys(r.options))
    decreases |tokens| - i
  {
    if i < |tokens| {
      var b := Step(tokens, i, a);
      if UniqueKeys(a.options) {
        StepKeepsKeysUnique(tokens, i, a);
      }
      assert a.flags <= b.flags && a.commands <= b.commands;
      RunPreserves(tokens, Next(tokens, i), b);
    }
  }

  /** The pass from a token on is the step on that token followed by the pass
      from the next index. */
  lemma RunUnfolds(tokens: seq<string>, i: nat, a: Arguments)
    requires i < |tokens|
    ensures Run(tokens, i, a) == Run(tokens, Next(tokens, i), Step(tokens, i, a))
  {
  }

  /** A flag-list token pushes each code unit after its hyphen onto the
      flags, in order; it sets no option, touches no command and takes no
      value. */
  lemma FlagListToken(tokens: seq<string>, i: nat, a: Arguments)
    requires i < |tokens| && IsFlagList(Trim(tokens[i]))
    ensures var v := Trim(tokens[i]); var r := Step(tokens, i, a);
      && Next(tokens, i) == i + 1
      && r == a.(flags := a.flags + Letters(v[1..]))
      && |r.flags| == |a.flags| + |v| - 1
      && forall k :: 1 <= k < |v| ==> r.flags[|a.flags| + k - 1] == [v[k]]
  {
    FlagListIsSingleHyphen(Trim(tokens[i]));
  }

  /** A named-option token sets its option to the parsed value of the next
      token when it takes it, and to `true` otherwise; a single-hyphen option
      without a value is also pushed onto the flags. */
  lemma OptionToken(tokens: seq<string>, i: nat, a: Arguments)
    requires i < |tokens| && IsOptionToken(tokens, i)
    ensures var v := Trim(tokens[i]); var name := OptionName(v); var r := Step(tokens, i, a);
      && (Next(tokens, i) == i + 2 <==> i + 1 < |tokens| && !StartsWith(tokens[i + 1], "-"))
      && var value := if Next(tokens, i) == i + 2 then ParseNameValue(Text(Trim(tokens[i + 1]))) else Bool(true);
      && r == a.(
           flags := if Next(tokens, i) == i + 1 && !StartsWith(v, "--") then a.flags + [name] else a.flags,
           options := Put(a.options, name, value))
      && Get(r.options, name) == Some(value)
      && (Next(tokens, i) == i + 1 ==> value == Bool(true))
  {
  }

  /** Any other token is a positional command: it is appended to the
      commands, and becomes the command while the command is still falsy. */
  lemma PositionalToken(tokens: seq<string>, i: nat, a: Arguments)
    requires i < |tokens| && !StartsWith(Trim(tokens[i]), "-")
    ensures var v := Trim(tokens[i]); var r := Step(tokens, i, a);
      && Next(tokens, i) == i + 1
      && r == a.(command := if IsFalsy(a.command) then Some(v) else a.command,
                 commands := a.commands + [v])
  {
    assert !IsFlagList(Trim(tokens[i]));
  }

  /** The `forEach` of a flag list: each code unit of `letters`, in order,
      pushed onto `flags`. */
  method PushLetters(flags: seq<string>, letters: string) returns (result: seq<string>)
    ensures result == flags + Letters(letters)
  {
    result := flags;
    ghost var pushed := Letters(letters);
    var j := 0;
    while j < |letters|
      invariant 0 <= j <= |letters|
      invariant result == flags + pushed[..j]
    {
      result := result + [[letters[j]]];
      assert pushed[..j + 1] == pushed[..j] + [[letters[j]]];
      j := j + 1;
    }
    assert pushed[..j] == pushed;
  }

  /** `processArgs(args, cmdArgs)`: the loop over the tokens, with the index
      advanced a second time when an option takes the next token as its
      value. */
  method ProcessArgs(args: seq<string>, cmdArgs: Arguments) returns (result: Arguments)
    ensures result == Run(args, 0, cmdArgs)
  {
    result := cmdArgs;
    var i, l := 0, |args|;
    while i < l
      invariant 0 <= i <= l
      invariant Run(args, i, result) == Run(args, 0, cmdArgs)
      decreases l - i
    {
      ghost var before, at := result, i;
      RunUnfolds(args, i, result);
      var val := Trim(args[i]);
      if IsFlagList(val) {
        FlagListToken(args, i, result);
        var flags := PushLetters(result.flags, val[1..]);
        result := result.(flags := flags);
      } else if StartsWith(val, "-") {
        OptionToken(args, i, result);
        var name := OptionName(val);
        var raw: Value;
        if i + 1 < l {
          if !StartsWith(args[i + 1], "-") {
            i := i + 1;
            raw := Text(Trim(args[i]));
          } else if !StartsWith(val, "--") {
            result := result.(flags := result.flags + [name]);
            raw := Bool(true);
          } else {
            raw := Bool(true);
          }
        } else {
          if !StartsWith(val, "--") {
            result := result.(flags := result.flags + [name]);
          }
          raw := Bool(true);
        }
        result := result.(options := Put(result.options, name, ParseNameValue(raw)));
      } else {
        PositionalToken(args, i, result);
        if IsFalsy(result.command) {
          result := result.(command := Some(val));
        }
        result := result.(commands := result.commands + [val]);
      }
      i := i + 1;
      assert i == Next(args, at) && result == Step(args, at, before);
    }
  }

  // ---------------------------------------------------------------------
  // Properties of the pass

  /** The command a list of positional tokens leaves behind when each one is
      taken while the command is still falsy: none when there are none, the
      first non-empty one when there is one, and the empty string otherwise. */
  function FirstCommand(cs: seq<string>): (c: Option<string>)
    ensures c == None <==> cs == []
    ensures c.Some? ==> c.value in cs
  {
    if cs == [] then None
    else if cs[0] != "" || |cs| == 1 then Some(cs[0])
    else FirstCommand(cs[1..])
  }

  /** `FirstCommand` picks the first non-empty positional token. */
  lemma {:induction false} FirstCommandIsFirstNonEmpty(cs: seq<string>, j: nat)
    requires j < |cs| && cs[j] != ""
    requires forall k :: 0 <= k < j ==> cs[k] == ""
    ensures FirstCommand(cs) == Some(cs[j])
  {
    if j > 0 {
      FirstCommandIsFirstNonEmpty(cs[1..], j - 1);
    }
  }

  /** Appending a positional token changes the command exactly when the
      command was falsy: the rule of `if (!cmdArgs.command)`. */
  lemma {:induction false} FirstCommandAppend(cs: seq<string>, v: string)
    ensures FirstCommand(cs + [v]) == if IsFalsy(FirstCommand(cs)) then Some(v) else FirstCommand(cs)
  {
    if cs != [] && cs[0] == "" && |cs| > 1 {
      FirstCommandAppend(cs[1..], v);
      assert (cs + [v])[1..] == cs[1..] + [v];
    }
  }

  /** The pass keeps the command equal to the first command of the positional
      tokens collected so far. */
  lemma {:induction false} RunKeepsFirstCommand(tokens: seq<string>, i: nat, a: Arguments)
    requires i <= |tokens|
    requires a.command == FirstCommand(a.commands)
    ensures Run(tokens, i, a).command == FirstCommand(Run(tokens, i, a).commands)
    decreases |tokens| - i
  {
    if i < |tokens| {
      var b := Step(tokens, i, a);
      if !StartsWith(Trim(tokens[i]), "-") {
        PositionalToken(tokens, i, a);
        FirstCommandAppend(a.commands, Trim(tokens[i]));
      } else if IsFlagList(Trim(tokens[i])) {
        FlagListToken(tokens, i, a);
      } else {
        OptionToken(tokens, i, a);
      }
      RunKeepsFirstCommand(tokens, Next(tokens, i), b);
    }
  }

  /** The indices the pass classifies from `i` on, in increasing order. */
  function Visits(tokens: seq<string>, i: nat): (vs: seq<nat>)
    requires i <= |tokens|
    ensures forall k :: 0 <= k < |vs| ==> i <= vs[k] < |tokens|
    ensures forall k, l :: 0 <= k < l < |vs| ==> vs[k] < vs[l]
    decreases |tokens| - i
  {
    if i == |tokens| then [] else [i] + Visits(tokens, Next(tokens, i))
  }

  /** Every token is classified exactly once, or else is the value taken by
      the option classified just before it, never both. */
  lemma {:induction false} EachTokenOnce(tokens: seq<string>, i: nat)
    requires i <= |tokens|
    ensures forall j :: i <= j < |tokens| ==>
      (j in Visits(tokens, i) <==> !(j > i && j - 1 in Visits(tokens, i) && TakesValue(tokens, j - 1)))
    decreases |tokens| - i
  {
    if i < |tokens| {
      var m := Next(tokens, i);
      var rest := Visits(tokens, m);
      assert Visits(tokens, i) == [i] + rest;
      EachTokenOnce(tokens, m);
      forall j | i < j < |tokens|
        ensures j in Visits(tokens, i) <==> !(j - 1 in Visits(tokens, i) && TakesValue(tokens, j - 1))
      {
        assert j in Visits(tokens, i) <==> j in rest;
        if j > m {
          assert j - 1 in Visits(tokens, i) <==> j - 1 in rest;
        } else if j == m {
          assert j in rest;
          assert m == i + 2 ==> j - 1 !in Visits(tokens, i);
        } else {
          assert j !in rest;
        }
      }
    }
  }

  // ---------------------------------------------------------------------
  // The whole parse

  /** The `cmdArgs` object before the pass: `args.shift()` twice (each
      giving `undefined` once the array is empty), and the rest as `tokens`. */
  function Initial(args: seq<string>): (a: Arguments)
    ensures |args| >= 2 ==>
      a.executable.Some? && a.script.Some? && [a.executable.value, a.script.value] + a.tokens == args
    ensures |args| < 2 ==>
      a.script == None && a.tokens == [] && a.executable == (if args == [] then None else Some(args[0]))
    ensures a.command == None && a.commands == [] && a.flags == [] && a.options == []
  {
    Arguments(
      if |args| > 0 then Some(args[0]) else None,
      if |args| > 1 then Some(args[1]) else None,
      if |args| > 2 then args[2..] else [],
      None, [], [], [])
  }

  /** The value `CmdArgs(args)` returns, as a function. */
  function Parse(args: seq<string>): (r: Arguments)
    ensures |args| >= 2 ==>
      r.executable.Some? && r.script.Some? && [r.executable.value, r.script.value] + r.tokens == args
    ensures |args| < 2 ==>
      r.script == None && r.tokens == [] && r.executable == (if args == [] then None else Some(args[0]))
    ensures UniqueKeys(r.options)
    ensures r.command == FirstCommand(r.commands)
  {
    var a := Initial(args);
    RunPreserves(a.tokens, 0, a);
    RunKeepsFirstCommand(a.tokens, 0, a);
    Run(a.tokens, 0, a)
  }

  /** With at least two arguments, the parse is the pass over the tokens
      after them, from the initial object. */
  lemma ParseRuns(args: seq<string>)
    requires |args| >= 2
    ensures Parse(args) == Run(args[2..], 0, Initial(args))
  {
    if |args| == 2 {
      assert args[2..] == [];
    }
  }

  /** `CmdArgs(args)`: split off the executable and the script, then
      classify the remaining tokens. */
  method CmdArgs(args: seq<string>) returns (r: Arguments)
    ensures r == Parse(args)
  {
    var cmdArgs := Initial(args);
    r := ProcessArgs(cmdArgs.tokens, cmdArgs);
  }
}
