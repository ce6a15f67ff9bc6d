/**
 * `parseNameValue`: the interpretation of the raw value of a named option.
 * In order, first match wins:
 *   1. a value that is not a string (the `true` given to an option without
 *      a value) is returned unchanged;
 *   2. a string without an unescaped `:` or `,` is unescaped and looked up
 *      in `literalMap`, giving `true`, `false`, `undefined`, `null`, or the
 *      unescaped text;
 *   3. a string of the PATH_PATT shape is returned verbatim;
 *   4. otherwise the matches of NAME_VALUE_PATT become a flat record.
 */
module NameValue {
  import opened Wrappers
  import opened JsStrings
  import opened OrderedDict
  import opened Patterns

  /** The JavaScript values an option can end up holding. */
  datatype Value =
    | Bool(b: bool)
    | Null
    | Undefined
    | Text(text: string)
    | Record(fields: Dict<Value>)

  /** The keys of `literalMap`. */
  predicate IsKeyword(t: string) {
    t == "true" || t == "false" || t == "undefined" || t == "null"
  }

  /** `literalMap[t]` when `t` is one of its keys, `t` itself otherwise. */
  function Literal(t: string): (r: Value)
    ensures r.Text? <==> !IsKeyword(t)
    ensures r.Text? ==> r.text == t
    ensures t == "true" ==> r == Bool(true)
    ensures t == "false" ==> r == Bool(false)
    ensures t == "undefined" ==> r == Undefined
    ensures t == "null" ==> r == Null
  {
    if t == "true" then Bool(true)
    else if t == "false" then Bool(false)
    else if t == "undefined" then Undefined
    else if t == "null" then Null
    else Text(t)
  }

  /** What a record field can hold: `true`, or a non-empty trimmed text. */
  predicate IsFieldValue(v: Value) {
    v == Bool(true) || (v.Text? && v.text != [] && IsTrimmed(v.text))
  }

  /** `!!match[2] && match[2].replace(ESCP_RES_PATT, "$1").trim() || true`:
      a missing value, or one that is blank once unescaped and trimmed, is
      `true`; any other value stays text and is never looked up in
      `literalMap`. */
  function FieldValue(value: Option<string>): (r: Value)
    ensures IsFieldValue(r)
    ensures r.Text? <==> value.Some? && Trim(Unescape(value.value)) != []
    ensures r.Text? ==> r.text == Trim(Unescape(value.value))
  {
    match value
    case None => Bool(true)
    case Some(v) =>
      var t := Trim(Unescape(v));
      if t == [] then Bool(true) else Text(t)
  }

  /** A record as `parseNameValue` builds it: keys trimmed and unique, every
      value a field value. */
  predicate IsRecordFields(d: Dict<Value>) {
    && UniqueKeys(d)
    && forall i :: 0 <= i < |d| ==> IsTrimmed(d[i].0) && IsFieldValue(d[i].1)
  }

  /** The `forEach` over the matches: each match in turn assigns its trimmed
      key (not unescaped) to its field value, so a later match overwrites an
      earlier one with the same key. */
  function Collect(ms: seq<Match>): (d: Dict<Value>)
    ensures IsRecordFields(d)
  {
    if ms == [] then []
    else
      var m := ms[|ms| - 1];
      var d := Collect(ms[..|ms| - 1]);
      PutKeepsRecordFields(d, Trim(m.key), FieldValue(m.value));
      Put(d, Trim(m.key), FieldValue(m.value))
  }

  /** The last match is assigned after all the others. */
  lemma CollectLast(ms: seq<Match>)
    requires ms != []
    ensures Collect(ms) == Put(Collect(ms[..|ms| - 1]), Trim(ms[|ms| - 1].key), FieldValue(ms[|ms| - 1].value))
  {
  }

  /** The last match decides the value of its own key. */
  lemma CollectLastKey(ms: seq<Match>)
    requires ms != []
    ensures Get(Collect(ms), Trim(ms[|ms| - 1].key)) == Some(FieldValue(ms[|ms| - 1].value))
  {
    CollectLast(ms);
  }

  /** The last match leaves every other key as the matches before it left it. */
  lemma CollectOtherKey(ms: seq<Match>, k: string)
    requires ms != [] && k != Trim(ms[|ms| - 1].key)
    ensures Get(Collect(ms), k) == Get(Collect(ms[..|ms| - 1]), k)
  {
    CollectLast(ms);
    PutOther(Collect(ms[..|ms| - 1]), Trim(ms[|ms| - 1].key), FieldValue(ms[|ms| - 1].value), k);
  }

  /** Assigning a field value to a trimmed key keeps a record a record. */
  lemma PutKeepsRecordFields(d: Dict<Value>, k: string, v: Value)
    requires IsRecordFields(d) && IsTrimmed(k) && IsFieldValue(v)
    ensures IsRecordFields(Put(d, k, v))
  {
    PutKeepsKeysUnique(d, k, v);
    var r := Put(d, k, v);
    forall i | 0 <= i < |r| ensures IsTrimmed(r[i].0) && IsFieldValue(r[i].1) {
      PutEntry(d, k, v, i);
      if r[i] != (k, v) {
        var j :| 0 <= j < |d| && d[j] == r[i];
      }
    }
  }

  /** `parseNameValue(value)` */
  function ParseNameValue(value: Value): (r: Value)
    ensures !value.Text? ==> r == value
    ensures value.Text? && r.Record? ==> IsRecordFields(r.fields)
  {
    match value
    case Text(s) =>
      if ':' !in RemoveEscaped(s, ':') && ',' !in RemoveEscaped(s, ',') then
        Literal(Unescape(s))
      else if IsPath(s) then
        value
      else
        Record(Collect(MatchAll(s)))
    case _ => value
  }

  /** The decision order of `parseNameValue` on a string, stated with
      unescaped delimiters instead of the removal of escaped ones. */
  lemma ParseNameValueCases(s: string)
    ensures var delimited := HasUnescaped(s, ':') || HasUnescaped(s, ',');
      && (!delimited ==> ParseNameValue(Text(s)) == Literal(Unescape(s)))
      && (delimited && IsPath(s) ==> ParseNameValue(Text(s)) == Text(s))
      && (delimited && !IsPath(s) ==> ParseNameValue(Text(s)) == Record(Collect(MatchAll(s))))
  {
    RemoveEscapedKeepsUnescaped(s, ':');
    RemoveEscapedKeepsUnescaped(s, ',');
  }

  /** A text without a colon, a comma or a backslash is looked up in
      `literalMap` as it stands. */
  lemma PlainScalar(s: string)
    requires ':' !in s && ',' !in s && '\\' !in s
    ensures ParseNameValue(Text(s)) == Literal(s)
  {
    RemoveEscapedPlain(s, ':');
    RemoveEscapedPlain(s, ',');
    UnescapePlain(s);
  }

  /** A text with its commas and colons escaped parses back to that text (or
      to the literal it names). */
  lemma ScalarRoundTrip(t: string)
    ensures ParseNameValue(Text(Escape(t))) == Literal(t)
  {
    EscapeHidesReserved(t, ':');
    EscapeHidesReserved(t, ',');
    ParseNameValueCases(Escape(t));
    UnescapeEscape(t);
  }

  /** No match after the `i`th has the same trimmed key. */
  predicate LastOfKey(ms: seq<Match>, i: nat)
    requires i < |ms|
  {
    forall j :: i < j < |ms| ==> Trim(ms[j].key) != Trim(ms[i].key)
  }

  /** The last match of its key stays the last one when a later match is
      dropped. */
  lemma LastOfKeyFront(ms: seq<Match>, i: nat)
    requires i < |ms| - 1 && LastOfKey(ms, i)
    ensures ms[..|ms| - 1][i] == ms[i] && LastOfKey(ms[..|ms| - 1], i)
  {
    var front := ms[..|ms| - 1];
    forall j | i < j < |front| ensures Trim(front[j].key) != Trim(front[i].key) {
      assert front[j] == ms[j];
    }
  }

  /** The key of the last match whose trimmed key is `k` decides the value of
      `k` in the record. */
  lemma {:induction false} CollectLastWins(ms: seq<Match>, i: nat)
    requires i < |ms| && LastOfKey(ms, i)
    ensures Get(Collect(ms), Trim(ms[i].key)) == Some(FieldValue(ms[i].value))
    decreases |ms|
  {
    if i < |ms| - 1 {
      LastOfKeyFront(ms, i);
      CollectLastWins(ms[..|ms| - 1], i);
      CollectOtherKey(ms, Trim(ms[i].key));
    } else {
      assert i == |ms| - 1;
      CollectLastKey(ms);
    }
  }

  /** Some match has the trimmed key `k`. */
  predicate KeyOccurs(ms: seq<Match>, k: string) {
    exists i :: 0 <= i < |ms| && Trim(ms[i].key) == k
  }

  /** A key occurs in a non-empty list of matches when it occurs in all but
      the last, or is the last one's. */
  lemma {:induction false} KeyOccursSplit(ms: seq<Match>, k: string)
    requires ms != []
    ensures KeyOccurs(ms, k) <==> KeyOccurs(ms[..|ms| - 1], k) || k == Trim(ms[|ms| - 1].key)
  {
    var n := |ms| - 1;
    var front := ms[..n];
    assert KeyOccurs(front, k) ==> KeyOccurs(ms, k) by {
      if KeyOccurs(front, k) {
        var i :| 0 <= i < |front| && Trim(front[i].key) == k;
        assert ms[i] == front[i];
      }
    }
    assert KeyOccurs(ms, k) && k != Trim(ms[n].key) ==> KeyOccurs(front, k) by {
      if KeyOccurs(ms, k) && k != Trim(ms[n].key) {
        var i :| 0 <= i < |ms| && Trim(ms[i].key) == k;
        assert ms[i] == front[i];
      }
    }
    assert k == Trim(ms[n].key) ==> KeyOccurs(ms, k);
  }

  /** The record's keys are exactly the trimmed keys of the matches. */
  lemma {:induction false} CollectKeys(ms: seq<Match>, k: string)
    ensures HasKey(Collect(ms), k) <==> KeyOccurs(ms, k)
    decreases |ms|
  {
    if ms != [] {
      var n := |ms| - 1;
      var last := Trim(ms[n].key);
      var d := Collect(ms[..n]);
      var r := Put(d, last, FieldValue(ms[n].value));
      assert Collect(ms) == r;
      assert Get(r, last).Some?;
      PutSpec(d, last, FieldValue(ms[n].value));
      assert k != last ==> Get(r, k) == Get(d, k);
      CollectKeys(ms[..n], k);
      KeyOccursSplit(ms, k);
    }
  }

  /** A match with a key not seen before adds its field at the end. */
  lemma CollectAppendNew(ms: seq<Match>, m: Match)
    requires !KeyOccurs(ms, Trim(m.key))
    ensures Collect(ms + [m]) == Collect(ms) + [(Trim(m.key), FieldValue(m.value))]
  {
    CollectKeys(ms, Trim(m.key));
    assert (ms + [m])[..|ms|] == ms;
  }

  /** A record written out with colons and commas parses back to the record
      its matches build, when every key and value is a closed run, the text
      holds a delimiter, and it does not have the shape of a path. */
  lemma RecordRoundTrip(ms: seq<Match>)
    requires forall i :: 0 <= i < |ms| ==> IsRenderable(ms[i])
    requires |ms| >= 2 || (|ms| == 1 && ms[0].value.Some?)
    requires !IsPath(Render(ms))
    ensures ParseNameValue(Text(Render(ms))) == Record(Collect(ms))
  {
    MatchAllRender(ms);
    ParseNameValueCases(Render(ms));
    RenderDelimited(ms);
  }
}
