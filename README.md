# CmdArgs: the command-line argument parser, in Dafny

This project models the core of the command-line argument parser `_CmdArgs.js`.
The parser has two parts:

- **Classifier** (`CmdArgs` and `processArgs`). It splits the argument vector into `_executable`, `_script` and `tokens`. It then classifies the tokens in one left-to-right pass with one token of lookahead:
  - a flag list (`-tlRv`) pushes its letters onto `flags`;
  - a named option (`-r 12`, `--config x`) may take the next token as its raw value and stores the parsed value in `options`;
  - any other token is a positional command, appended to `commands` and made the `command` while the command is still falsy.
- **Value parser** (`parseNameValue`). It turns a raw option value into a boolean, `null`, `undefined` or text (after unescaping `\:` and `\,`), a path returned verbatim, or a flat record of `name:value` pairs scanned with `NAME_VALUE_PATT`.

Modules, one file each:

- `wrappers.dfy` (`Wrappers`): `Option`, used for `undefined` results and for missing regex groups.
- `js_strings.dfy` (`JsStrings`):
  - `trim` (ASCII white space) and the `indexOf(p) === 0` prefix test;
  - the three escape regexes `ESCP_RES_PATT`, `ESCP_COLON_PATT` and `ESCP_COMMA_PATT` as functions;
  - an `Escape` that inverts `Unescape`.
- `ordered_dict.dfy` (`OrderedDict`): a JavaScript plain object used as a dictionary, as an insertion-ordered sequence of pairs. `Put` replaces in place or appends.
- `patterns.dfy` (`Patterns`): the regexes, written as predicates or a scanner.
  - `FLAG_LIST_PATT` and `PATH_PATT` become predicates.
  - `NAME_VALUE_PATT` under `matchAll` becomes the scanner `ScanFrom`.
  - `Render` writes matches back out, so the scanner's inverse can be stated.
- `name_value.dfy` (`NameValue`): the `Value` datatype, `literalMap`, and `parseNameValue`. The record's `forEach` is the fold `Collect`.
- `command_line.dfy` (`CommandLine`):
  - the `cmdArgs` object as the datatype `Arguments`;
  - one loop iteration as the function `Step`, and the whole pass as `Run`;
  - `processArgs` as the method `ProcessArgs`, a `while` loop proved equal to `Run`;
  - `CmdArgs` as a method proved equal to the function `Parse`.
- `value_examples.dfy` (`ValueExamples`): what `parseNameValue` makes of values built from arbitrary plain words, including the cases where reading a record back from its written form fails.
- `test_values.dfy` (`TestValues`) and `scenarios.dfy` (`Scenarios`): the three argument vectors of `_CmdArgs.test.js`, each followed through the parse. Each vector is proved first for any option value with the needed properties, then for the test's own value.

Where the source's header comment (`_CmdArgs.js:1-21`) describes behaviour the code does not have, the model follows the code:

- A flag list is a hyphen followed by two or more code units of `[A-z]`. Its code units become flags and no option is created (`_CmdArgs.js:111-120`). A single-hyphen token with anything else after the hyphen is a named option: `-a1` is the option `a1`.
- The test for a flag list is the class `[A-z]` (0x41 to 0x7A). This class also takes `[`, `\`, `]`, `^`, `_` and the backtick, not only letters (`_CmdArgs.js:64`).
- No token is dropped. A token that follows an option which does not take it starts with a hyphen, so it is classified as an option or a flag list in its own turn (`CommandLine.UntakenNextIsHyphen`). A token that does not start with a hyphen is taken as a value when a named option stands just before it. Otherwise it is classified by its trimmed text, and is a positional command when that text does not start with a hyphen (`_CmdArgs.js:154-159`).
- No "ordinal" property is added, and the variable `last` is never used (`_CmdArgs.js:74`).
- Only a single-hyphen option without a value is pushed onto `flags`. A double-hyphen one is not (`_CmdArgs.js:133-147`).
- `command` is overwritten while it is falsy (`_CmdArgs.js:155`). So after an empty positional token, the command is the next positional token, not the first entry of `commands` (`Scenarios.EmptyCommandReplaced`). What does hold for every input is `command == FirstCommand(commands)`: the first non-empty positional token, or `""` when all are empty.
- A relative path such as `./my/path` has no unescaped colon or comma. It returns through the scalar branch and would not pass the path test (`ValueExamples.DotPathIsScalar`).
- Reading a record back from its written form gives the record only when the text has a delimiter and is not path-shaped (`NameValue.RecordRoundTrip`). A one-field record `{k: true}` is written `k` and reads back as text (`ValueExamples.BareKeyIsNotRecord`). `{"/a": true, "/b": true}` is written `/a,/b` and reads back verbatim as a path (`ValueExamples.PathShapedRecord`).

## Model

| member | source | states |
|---|---|---|
| JsStrings.Trim | _CmdArgs.js:109 | the result has no white space at either end, and a string already trimmed is returned unchanged |
| JsStrings.TrimRemovesOnlySpace | _CmdArgs.js:109 | `trim` keeps a contiguous middle slice of the input and everything it drops before and after it is white space |
| JsStrings.TrimKeepsFirst | _CmdArgs.js:109 | a token whose first code unit is not white space keeps that code unit first once trimmed |
| JsStrings.Unescape | _CmdArgs.js:44 | the `ESCP_RES_PATT` replacement never lengthens the text; `UnescapePlain` and `UnescapeEscape` give its meaning: it leaves text without a backslash alone and undoes `Escape` |
| JsStrings.UnescapePlain | _CmdArgs.js:44 | a text without a backslash is unchanged by the `ESCP_RES_PATT` replacement |
| JsStrings.UnescapeAppend | _CmdArgs.js:44 | the `ESCP_RES_PATT` replacement works piece by piece when the first piece does not end in a backslash |
| JsStrings.RemoveEscapedKeepsUnescaped | _CmdArgs.js:174-177 | after removing the escaped colons (commas) a colon (comma) is left exactly when the text has one not preceded by a backslash |
| JsStrings.UnescapeEscape | _CmdArgs.js:178 | the `$1` replacement of `ESCP_RES_PATT` undoes escaping every comma and colon, for every text |
| JsStrings.RemoveEscaped | _CmdArgs.js:49-54 | the `ESCP_COLON_PATT` (`ESCP_COMMA_PATT`) removal never lengthens the text; `RemoveEscapedKeepsUnescaped` gives its meaning: a colon (comma) survives it exactly when one is not preceded by a backslash |
| JsStrings.EscapeHidesReserved | _CmdArgs.js:174-177 | an escaped text has no unescaped comma or colon, so the scalar branch takes it |
| OrderedDict.Get | _CmdArgs.js:149-151 | a lookup finds a value exactly when the key is present, and the value found is stored under that key |
| OrderedDict.Put | _CmdArgs.js:198 | after `d[k] = v` the key `k` holds `v`, and a new key is appended after the existing ones |
| OrderedDict.PutSpec | _CmdArgs.js:198 | assignment leaves every other key's value alone, keeps the key order when the key exists, and adds no entry but `(k, v)` |
| OrderedDict.PutOther | _CmdArgs.js:198 | assignment to `k` leaves the value of any other key unchanged |
| OrderedDict.PutKeepsKeysUnique | _CmdArgs.js:198 | assignment never duplicates a key |
| Patterns.AllInAtoz | _CmdArgs.js:64 | `[A-z]*` matches a text exactly when every code unit lies between `A` and `z` |
| Patterns.IsFlagList | _CmdArgs.js:64 | FLAG_LIST_PATT as a predicate: a hyphen then two or more units of `[A-z]`; `FlagListIsSingleHyphen` and `CommandLine.FlagListToken` give its consequences |
| Patterns.FlagListIsSingleHyphen | _CmdArgs.js:64 | a FLAG_LIST_PATT match starts with one hyphen and never with two |
| Patterns.SegmentEnd | _CmdArgs.js:59 | the run `[^\/\\]*` from a position holds no separator and ends at a separator or at the end |
| Patterns.PathGroupsShape | _CmdArgs.js:59 | the groups part of PATH_PATT matches exactly the texts of length at least two that start with a separator and have no two separators in a row |
| Patterns.IsPath | _CmdArgs.js:59 | PATH_PATT as a predicate; `PathShape` states exactly which texts it accepts |
| Patterns.PathShape | _CmdArgs.js:59 | PATH_PATT matches exactly: an `[A-z]:` drive, a separator and a body without double separators; or such a body alone |
| Patterns.RunEnd | _CmdArgs.js:39 | the greedy unit run of NAME_VALUE_PATT is empty exactly at the end or at a comma or colon |
| Patterns.RunEndShape | _CmdArgs.js:39 | every comma or colon inside a run is escaped, and the run stops at the end or at an unescaped comma or colon |
| Patterns.ScanFrom | _CmdArgs.js:39 | the global `NAME_VALUE_PATT` scan from a position; `ScanFromValue`, `ScanFromKey`, `ScanFromSkip`, `ScanFromRuns` and `MatchAllRender` state what it takes and that it inverts `Render` |
| Patterns.ScanFromRuns | _CmdArgs.js:39 | every key and value the `matchAll` scan takes is a run |
| Patterns.MatchAll | _CmdArgs.js:191 | `[...value.matchAll(NAME_VALUE_PATT)]` yields matches whose keys and values are runs |
| Patterns.ScanFromValue | _CmdArgs.js:39 | a key run followed by a colon and a non-empty run is one match with a value |
| Patterns.ScanFromKey | _CmdArgs.js:39 | a key run not followed by a colon and a unit is one match without a value |
| Patterns.ScanFromSkip | _CmdArgs.js:39 | a comma or colon where no match can start is passed over |
| Patterns.ScanRender | _CmdArgs.js:39 | scanning the written form of unambiguous matches gives back those matches |
| Patterns.MatchAllRender | _CmdArgs.js:39 | `matchAll` inverts writing the matches out with colons and commas |
| Patterns.RenderDelimited | _CmdArgs.js:174-177 | the written form of a match with a value, or of two or more matches, has an unescaped colon or comma |
| NameValue.Literal | _CmdArgs.js:68-73 | `literalMap` maps `true`, `false`, `undefined` and `null` to the boolean `true`, the boolean `false`, `undefined` and `null`; any other text stays that text |
| NameValue.FieldValue | _CmdArgs.js:195-197 | a field is text exactly when the value is present and is not empty once unescaped and trimmed, and that text is the unescaped, trimmed value; otherwise it is `true` |
| NameValue.Collect | _CmdArgs.js:189-200 | the `forEach` over the matches builds a record with unique trimmed keys and field values |
| NameValue.CollectLastKey | _CmdArgs.js:198 | the last match decides the value of its own key |
| NameValue.CollectOtherKey | _CmdArgs.js:198 | the last match leaves every other key as the earlier matches left it |
| NameValue.CollectLastWins | _CmdArgs.js:194-198 | a key holds the field value of the last match with that trimmed key: later matches overwrite earlier ones |
| NameValue.CollectKeys | _CmdArgs.js:191-200 | the record's keys are exactly the trimmed keys of the matches |
| NameValue.CollectAppendNew | _CmdArgs.js:198 | a match with a new key adds its field at the end of the record |
| NameValue.PutKeepsRecordFields | _CmdArgs.js:198 | assigning a field value to a trimmed key keeps the record well formed |
| NameValue.ParseNameValue | _CmdArgs.js:169-203 | a non-string value is returned unchanged, and a record result has unique trimmed keys holding field values |
| NameValue.ParseNameValueCases | _CmdArgs.js:174-202 | the decision order stated with unescaped delimiters: no delimiter gives the literal of the unescaped text, a path is returned verbatim, anything else is the record of the matches |
| NameValue.PlainScalar | _CmdArgs.js:174-183 | a text without colon, comma or backslash is looked up in `literalMap` as it stands |
| NameValue.ScalarRoundTrip | _CmdArgs.js:174-183 | a text with its commas and colons escaped parses back to that text, or to the literal it names |
| NameValue.RecordRoundTrip | _CmdArgs.js:189-202 | the written form of unambiguous matches that has a delimiter and is not path-shaped parses to the record of those matches |
| CommandLine.OptionName | _CmdArgs.js:123-126 | the option name drops two leading hyphens from a `--` token and one from any other |
| CommandLine.Letters | _CmdArgs.js:112-114 | `substring(1).split("")` gives each code unit as a string of its own, in order |
| CommandLine.TakesValue | _CmdArgs.js:128-131 | a named option takes the next raw token exactly when there is one that does not start with a hyphen (`OptionToken`); an untaken next token always starts with a hyphen (`UntakenNextIsHyphen`) |
| CommandLine.UntakenNextIsHyphen | _CmdArgs.js:128-131 | a token a named option does not take starts with a hyphen, also once trimmed, so it is never a positional command |
| CommandLine.Next | _CmdArgs.js:128-131 | each iteration advances the index by one or two and never past the end |
| CommandLine.StepKeepsKeysUnique | _CmdArgs.js:149-151 | an iteration never duplicates an option name |
| CommandLine.Step | _CmdArgs.js:109-159 | one iteration of the loop; `FlagListToken`, `OptionToken` and `PositionalToken` state what it does to each kind of token |
| CommandLine.Run | _CmdArgs.js:108-160 | the pass from token `i`; `RunPreserves` states what it keeps and `ProcessArgs` that the loop computes it |
| CommandLine.RunPreserves | _CmdArgs.js:106-161 | the pass keeps `_executable`, `_script` and `tokens`, only appends to `flags` and `commands`, and keeps option names unique |
| CommandLine.FlagListToken | _CmdArgs.js:111-120 | a flag list pushes each code unit after its hyphen onto `flags` in order, sets no option, changes no command and takes no value |
| CommandLine.OptionToken | _CmdArgs.js:122-152 | a named option takes the next token exactly when there is one that does not start with a hyphen; it stores the parsed trimmed value or `true`; only a single-hyphen option without a value also goes onto `flags` |
| CommandLine.PositionalToken | _CmdArgs.js:154-159 | any other token is appended to `commands` and becomes the command exactly when the command is falsy |
| CommandLine.PushLetters | _CmdArgs.js:112-119 | the `forEach` loop pushes the letters of a flag list onto the flags, in order |
| CommandLine.ProcessArgs | _CmdArgs.js:106-161 | the loop with its in-body index bump computes the same object as the pass `Run` over all tokens |
| CommandLine.FirstCommand | _CmdArgs.js:155-158 | the command the falsy rule leaves is none exactly when there are no positional tokens, and is one of them otherwise |
| CommandLine.FirstCommandIsFirstNonEmpty | _CmdArgs.js:155-158 | that command is the first non-empty positional token |
| CommandLine.FirstCommandAppend | _CmdArgs.js:155-157 | appending a positional token changes the command exactly when it was falsy |
| CommandLine.RunKeepsFirstCommand | _CmdArgs.js:106-161 | the pass keeps the command equal to the first non-empty positional token seen so far |
| CommandLine.Visits | _CmdArgs.js:108 | the indices the loop classifies are strictly increasing and within the tokens |
| CommandLine.EachTokenOnce | _CmdArgs.js:108-131 | every token is either classified once or is the value taken by the option just before it, never both |
| CommandLine.Initial | _CmdArgs.js:83-91 | `_executable` and `_script` are the first two arguments, or `undefined` when missing, and `tokens` is the rest; nothing is collected yet |
| CommandLine.Parse | _CmdArgs.js:82-101 | the result keeps the first two arguments and the tokens, has unique option names, and its command is the first non-empty positional token |
| CommandLine.ParseRuns | _CmdArgs.js:93-96 | with two or more arguments, the parse is the pass over the tokens after them |
| CommandLine.CmdArgs | _CmdArgs.js:82-101 | the method computes `Parse(args)` |
| ValueExamples.OneField | _CmdArgs.js:189-202 | `k:v` with plain words is the record with the one text field `k` holding `v` |
| ValueExamples.CollectThree | _CmdArgs.js:191-200 | three matches with different keys give their three fields in order |
| ValueExamples.FieldThenFlag | _CmdArgs.js:189-202 | `k:v,f` is the record where `k` holds `v` and `f` is `true` |
| ValueExamples.ColonAfterValue | _CmdArgs.js:39 | a value stops at the next colon and a colon where no match starts is skipped: `a:b:c` gives `a` the text `b` and makes `c` true |
| ValueExamples.EmptyValue | _CmdArgs.js:39 | a value needs at least one unit: `a::b` makes both `a` and `b` true |
| ValueExamples.DrivePathVerbatim | _CmdArgs.js:185-187 | a drive-prefixed path with an unescaped colon is returned verbatim, not read as a record |
| ValueExamples.KeywordOnlyAtTop | _CmdArgs.js:195-197 | a keyword is a typed literal as a whole value but stays text as a record field |
| ValueExamples.LiteralMapping | _CmdArgs.js:68-73 | the whole values `true`, `false`, `undefined` and `null` become `true`, `false`, `undefined` and `null` |
| ValueExamples.BareKeyIsNotRecord | _CmdArgs.js:189-202 | the record `{k: true}` is written `k`, which reads back as text |
| ValueExamples.DotPathIsScalar | _CmdArgs.js:174-187 | a relative path like `./my/path` is no PATH_PATT match and is returned as text by the scalar branch |
| ValueExamples.PathShapedRecord | _CmdArgs.js:185-187 | the record `{"/a": true, "/b": true}` is written `/a,/b`, which is a path and reads back verbatim |
| TestValues.UrlField | _CmdArgs.js:195-197 | the field value `https\://localhost\:3000` unescapes to `https://localhost:3000` |
| TestValues.ConfigFields | _CmdArgs.test.js:66 | the matches of the first config value build `{port: "3000", secure: true, url: "https://localhost:3000"}` |
| TestValues.ConfigParses | _CmdArgs.test.js:32 | `port:3000 ,secure, url:https\://localhost\:3000` parses to that record |
| Scenarios.FlagGroupStep | _CmdArgs.test.js:40 | the token `-tlRv` pushes `t`, `l`, `R`, `v` onto the flags |
| Scenarios.BareShortStep | _CmdArgs.js:133-147 | a single-hyphen option followed by an option, or last, is set to `true` and pushed onto the flags |
| Scenarios.ConfigScenarioWith | _CmdArgs.test.js:25-34 | the first vector, for any trimmed value not starting with a hyphen, gives no command, no flags, and the options `t` and `config` |
| Scenarios.ConfigScenario | _CmdArgs.test.js:66 | the first vector gives the object the test expects |
| Scenarios.NameScenarioWith | _CmdArgs.test.js:35-44 | the second vector, for any such value, gives the command, four flags from the flag list and the option `name` |
| Scenarios.NameScenario | _CmdArgs.test.js:72 | the second vector gives the object the test expects |
| Scenarios.ConfigFlagsScenarioWith | _CmdArgs.test.js:45-57 | the third vector, for any such value, gives the command, the flags `q` and `l`, and four options in order |
| Scenarios.ConfigFlagsScenario | _CmdArgs.test.js:78 | the third vector gives the object the test expects |
| Scenarios.EmptyCommandReplaced | _CmdArgs.js:155-158 | after an empty positional token the next positional token becomes the command, so the command is not the first entry of `commands` |

## Left out

- `createInterface` (`_CmdArgs.js:207-241`) is left out. It wraps the object in a read-only view. `Parse` returns the immutable `Arguments` value instead.
- CommandLine.CmdArgs: `args.shift()` mutates the caller's array, and `tokens` aliases it (`_CmdArgs.js:84-86`). The model takes slices of an immutable sequence instead, so this aliasing is not captured.
- CommandLine.ProcessArgs: the source updates `cmdArgs` in place. The method takes the object as a value and returns the updated one, so callers that share the object are not modelled.
- JsStrings.Trim: white space is ASCII only (tab to carriage return, and space). The Unicode white space and line terminators of `String.prototype.trim` are not modelled.
- Only the fixed regexes are rewritten. The general regex engine is not part of this model.
- OrderedDict: JavaScript object-key quirks are not modelled. These are integer-like keys enumerating first and `__proto__` as a key.
- `JSON.stringify` dropping `undefined` is also not modelled; it only matters to the test's output.
- The test harness (`controller`, `arrange`, `act`, `assert`, `stringify`) is not part of this model. Its three vectors and expected objects are the `Scenarios` lemmas.
- JavaScript strings are sequences of UTF-16 code units, but a Dafny `char` is a Unicode scalar value. Lone surrogates and the split of a character outside the Basic Multilingual Plane into two code units (which `split("")` would separate) are not modelled. No operation of the parser depends on this: every character class and every character it tests for is ASCII.
