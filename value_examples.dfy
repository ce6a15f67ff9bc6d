/**
 * What `parseNameValue` makes of option values built from plain words and
 * single code units: one lemma per shape of value, each for every choice of
 * the words, and the cases where reading a record back from its written form
 * does not give the record.
 */
module ValueExamples {
  import opened Wrappers
  import opened JsStrings
  import opened OrderedDict
  import opened Patterns
  import opened NameValue

  /** A plain word: non-empty, trimmed, and free of commas, colons and path
      separators (so also of backslashes). */
  predicate IsWord(w: string) {
    && w != [] && IsTrimmed(w)
    && forall k :: 0 <= k < |w| ==> !IsReserved(w[k]) && !IsSeparator(w[k])
  }

  /** A word is written out and read back as itself. */
  lemma WordFacts(w: string)
    requires IsWord(w)
    ensures IsClosedRun(w) && Trim(w) == w
    ensures FieldValue(Some(w)) == Text(w)
    ensures ParseNameValue(Text(w)) == Literal(w)
  {
    assert '\\' !in w by {
      forall k | 0 <= k < |w| ensures w[k] != '\\' {
        assert !IsSeparator(w[k]);
      }
    }
    UnescapePlain(w);
    PlainScalar(w);
  }

  /** `k:v`, with the colon following a word, is not a path. */
  lemma FieldNotPath(k: string, rest: string)
    requires IsWord(k) && rest != [] && !IsSeparator(rest[0])
    ensures !IsPath(k + ":" + rest)
  {
    var s := k + ":" + rest;
    assert s[0] == k[0];
    if |k| == 1 {
      assert s[2] == rest[0];
    } else {
      assert s[1] == k[1];
    }
    PathShape(s);
  }

  /** `k:v` is the record with the one field `k` holding the text `v`. */
  lemma OneField(k: string, v: string)
    requires IsWord(k) && IsWord(v)
    ensures ParseNameValue(Text(k + ":" + v)) == Record([(k, Text(v))])
  {
    var ms := [Match(k, Some(v))];
    assert Render(ms) == k + ":" + v;
    assert ParseNameValue(Text(Render(ms))) == Record(Collect(ms)) by {
      WordFacts(k);
      WordFacts(v);
      FieldNotPath(k, v);
      RecordRoundTrip(ms);
    }
    assert Collect(ms) == [(k, Text(v))] by {
      WordFacts(k);
      WordFacts(v);
      assert ms[..0] == [];
    }
  }

  /** The record of one match. */
  lemma CollectOne(m: Match)
    ensures Collect([m]) == [(Trim(m.key), FieldValue(m.value))]
  {
    assert [m][..0] == [];
  }

  /** The record of two matches with different keys. */
  lemma CollectTwo(m0: Match, m1: Match)
    requires Trim(m0.key) != Trim(m1.key)
    ensures Collect([m0, m1]) == [(Trim(m0.key), FieldValue(m0.value)), (Trim(m1.key), FieldValue(m1.value))]
  {
    var d := Collect([m0]);
    var e := (Trim(m1.key), FieldValue(m1.value));
    assert d == [(Trim(m0.key), FieldValue(m0.value))] by {
      CollectOne(m0);
    }
    assert Collect([m0, m1]) == d + [e] by {
      assert [m0, m1][..1] == [m0];
      assert !HasKey(d, e.0);
    }
  }

  /** The record of three matches with different keys. */
  lemma CollectThree(m0: Match, m1: Match, m2: Match)
    requires Trim(m0.key) != Trim(m1.key) && Trim(m0.key) != Trim(m2.key) && Trim(m1.key) != Trim(m2.key)
    ensures Collect([m0, m1, m2]) ==
      [(Trim(m0.key), FieldValue(m0.value)), (Trim(m1.key), FieldValue(m1.value)), (Trim(m2.key), FieldValue(m2.value))]
  {
    CollectTwo(m0, m1);
    CollectThreeLast(m0, m1, m2);
    PutThird(Collect([m0, m1]), (Trim(m0.key), FieldValue(m0.value)), (Trim(m1.key), FieldValue(m1.value)),
      Trim(m2.key), FieldValue(m2.value));
  }

  /** The third match is assigned after the first two. */
  lemma CollectThreeLast(m0: Match, m1: Match, m2: Match)
    ensures Collect([m0, m1, m2]) == Put(Collect([m0, m1]), Trim(m2.key), FieldValue(m2.value))
  {
    assert [m0, m1, m2][..2] == [m0, m1];
    CollectLast([m0, m1, m2]);
  }

  /** A third key, new to a dictionary of two entries, goes last. */
  lemma PutThird<V>(d: Dict<V>, e0: (string, V), e1: (string, V), k: string, v: V)
    requires d == [e0, e1] && k != e0.0 && k != e1.0
    ensures Put(d, k, v) == [e0, e1, (k, v)]
  {
    assert !HasKey(d, k);
  }

  /** `k:v,f` is the record where `k` holds the text `v` and `f` is `true`. */
  lemma FieldThenFlag(k: string, v: string, f: string)
    requires IsWord(k) && IsWord(v) && IsWord(f) && k != f
    ensures ParseNameValue(Text(k + ":" + v + "," + f)) == Record([(k, Text(v)), (f, Bool(true))])
  {
    FieldThenFlagText(k, v, f);
    FieldThenFlagMatches(k, v, f);
    FieldThenFlagFields(k, v, f);
  }

  /** The matches of `k:v,f`, written out. */
  lemma FieldThenFlagText(k: string, v: string, f: string)
    ensures Render([Match(k, Some(v)), Match(f, None)]) == k + ":" + v + "," + f
  {
    var ms := [Match(k, Some(v)), Match(f, None)];
    assert Render(ms[1..]) == f;
  }

  /** `k:v,f` parses to the record of its two matches. */
  lemma FieldThenFlagMatches(k: string, v: string, f: string)
    requires IsWord(k) && IsWord(v) && IsWord(f)
    ensures ParseNameValue(Text(Render([Match(k, Some(v)), Match(f, None)]))) ==
      Record(Collect([Match(k, Some(v)), Match(f, None)]))
  {
    var ms := [Match(k, Some(v)), Match(f, None)];
    FieldThenFlagNotPath(k, v, f);
    WordFacts(k);
    WordFacts(v);
    WordFacts(f);
    TwoRenderable(ms[0], ms[1]);
    RecordRoundTrip(ms);
  }

  /** Both matches of a pair are written out unambiguously. */
  lemma TwoRenderable(m0: Match, m1: Match)
    requires IsRenderable(m0) && IsRenderable(m1)
    ensures forall i :: 0 <= i < |[m0, m1]| ==> IsRenderable([m0, m1][i])
  {
  }

  /** `k:v,f` is not a path. */
  lemma FieldThenFlagNotPath(k: string, v: string, f: string)
    requires IsWord(k) && IsWord(v) && IsWord(f)
    ensures !IsPath(Render([Match(k, Some(v)), Match(f, None)]))
  {
    FieldThenFlagText(k, v, f);
    FieldNotPath(k, v + "," + f);
    assert k + ":" + (v + "," + f) == k + ":" + v + "," + f;
  }

  /** The record of the matches of `k:v,f`. */
  lemma FieldThenFlagFields(k: string, v: string, f: string)
    requires IsWord(k) && IsWord(v) && IsWord(f) && k != f
    ensures Collect([Match(k, Some(v)), Match(f, None)]) == [(k, Text(v)), (f, Bool(true))]
  {
    WordFacts(k);
    WordFacts(v);
    WordFacts(f);
    CollectTwo(Match(k, Some(v)), Match(f, None));
  }

  /** A code unit that a word can be made of. */
  predicate IsWordChar(c: char) {
    !IsSpace(c) && !IsReserved(c) && !IsSeparator(c)
  }

  /** A text with an unescaped colon that is not a path is a record. */
  lemma ColonRecord(s: string, d: Dict<Value>)
    requires HasUnescaped(s, ':') && !IsPath(s) && Collect(MatchAll(s)) == d
    ensures ParseNameValue(Text(s)) == Record(d)
  {
    ParseNameValueCases(s);
  }

  /** The matches of `a:b:c`. */
  lemma ColonAfterValueScan(a: char, b: char, c: char)
    requires IsWordChar(a) && IsWordChar(b) && IsWordChar(c)
    ensures MatchAll([a, ':', b, ':', c]) == [Match([a], Some([b])), Match([c], None)]
  {
    var s := [a, ':', b, ':', c];
    assert RunEnd(s, 0) == 1 && RunEnd(s, 2) == 3 && RunEnd(s, 4) == 5;
    assert s[0..1] == [a] && s[2..3] == [b] && s[4..5] == [c];
    ScanFromValue(s, 0, 1, 3);
    ScanFromSkip(s, 3);
    ScanFromKey(s, 4, 5);
    assert ScanFrom(s, 5) == [];
  }

  /** The record of the matches of `a:b:c`. */
  lemma ColonAfterValueFields(a: char, b: char, c: char)
    requires IsWordChar(a) && IsWordChar(b) && IsWordChar(c) && a != c
    ensures Collect([Match([a], Some([b])), Match([c], None)]) == [([a], Text([b])), ([c], Bool(true))]
  {
    WordFacts([a]);
    WordFacts([b]);
    WordFacts([c]);
    CollectTwo(Match([a], Some([b])), Match([c], None));
  }

  /** A value stops at the next colon, and a colon where no match can start
      is passed over: `a:b:c` holds the text `b` under `a`, and `c` alone. */
  lemma ColonAfterValue(a: char, b: char, c: char)
    requires IsWordChar(a) && IsWordChar(b) && IsWordChar(c) && a != c
    ensures ParseNameValue(Text([a, ':', b, ':', c])) == Record([([a], Text([b])), ([c], Bool(true))])
  {
    var s := [a, ':', b, ':', c];
    var d := [([a], Text([b])), ([c], Bool(true))];
    ColonAfterValueScan(a, b, c);
    ColonAfterValueFields(a, b, c);
    assert HasUnescaped(s, ':') by {
      assert s[1] == ':' && s[0] != '\\';
    }
    assert !IsPath(s) by {
      PathShape(s);
    }
    ColonRecord(s, d);
  }

  /** The matches of `a::b`. */
  lemma EmptyValueScan(a: char, b: char)
    requires IsWordChar(a) && IsWordChar(b)
    ensures MatchAll([a, ':', ':', b]) == [Match([a], None), Match([b], None)]
  {
    var s := [a, ':', ':', b];
    assert RunEnd(s, 0) == 1 && RunEnd(s, 2) == 2 && RunEnd(s, 3) == 4;
    assert s[0..1] == [a] && s[3..4] == [b];
    ScanFromKey(s, 0, 1);
    ScanFromSkip(s, 1);
    ScanFromSkip(s, 2);
    ScanFromKey(s, 3, 4);
    assert ScanFrom(s, 4) == [];
  }

  /** The record of the matches of `a::b`. */
  lemma EmptyValueFields(a: char, b: char)
    requires IsWordChar(a) && IsWordChar(b) && a != b
    ensures Collect([Match([a], None), Match([b], None)]) == [([a], Bool(true)), ([b], Bool(true))]
  {
    WordFacts([a]);
    WordFacts([b]);
    CollectTwo(Match([a], None), Match([b], None));
  }

  /** A value takes at least one unit: in `a::b` nothing stands between the
      two colons, so `a` and `b` are both `true`. */
  lemma EmptyValue(a: char, b: char)
    requires IsWordChar(a) && IsWordChar(b) && a != b
    ensures ParseNameValue(Text([a, ':', ':', b])) == Record([([a], Bool(true)), ([b], Bool(true))])
  {
    var s := [a, ':', ':', b];
    var d := [([a], Bool(true)), ([b], Bool(true))];
    EmptyValueScan(a, b);
    EmptyValueFields(a, b);
    assert HasUnescaped(s, ':') by {
      assert s[1] == ':' && s[0] != '\\';
    }
    assert !IsPath(s) by {
      PathShape(s);
    }
    ColonRecord(s, d);
  }

  /** A path with a drive prefix holds an unescaped colon, so it is kept
      verbatim, never read as a record. The class `[A-z]` also takes the
      backslash, and a backslash "drive" escapes the colon instead. */
  lemma DrivePathVerbatim(v: string)
    requires |v| >= 4 && InAtoz(v[0]) && v[0] != '\\' && v[1] == ':'
    requires IsSeparator(v[2]) && NoDoubleSeparator(v[2..])
    ensures ParseNameValue(Text(v)) == Text(v)
  {
    assert HasUnescaped(v, ':');
    PathShape(v);
    ParseNameValueCases(v);
  }

  /** The keywords of `literalMap` are looked up only for a whole value: as a
      record field they stay text. */
  lemma KeywordOnlyAtTop(k: string, v: string)
    requires IsWord(k) && IsWord(v) && IsKeyword(v)
    ensures ParseNameValue(Text(v)) != Text(v)
    ensures ParseNameValue(Text(k + ":" + v)) == Record([(k, Text(v))])
  {
    WordFacts(v);
    OneField(k, v);
  }

  /** Reading a record back from its written form can fail: a record whose
      one field is `true` is written as its bare key, and a bare key reads
      back as text. */
  lemma BareKeyIsNotRecord(k: string)
    requires IsWord(k) && !IsKeyword(k)
    ensures Render([Match(k, None)]) == k
    ensures Collect([Match(k, None)]) == [(k, Bool(true))]
    ensures ParseNameValue(Text(k)) == Text(k)
  {
    WordFacts(k);
    CollectOne(Match(k, None));
  }

  /** A relative path such as `./my/path` has no colon or comma, so it is a
      scalar and never reaches the path test, which it would fail. */
  lemma DotPathIsScalar(v: string)
    requires v != [] && v[0] == '.' && ':' !in v && ',' !in v && '\\' !in v
    ensures !IsPath(v)
    ensures ParseNameValue(Text(v)) == Text(v)
  {
    PathShape(v);
    PlainScalar(v);
    assert !IsKeyword(v) by {
      assert v[0] != "true"[0] && v[0] != "false"[0] && v[0] != "undefined"[0] && v[0] != "null"[0];
    }
  }

  /** Reading a record back from its written form also fails when the
      written form has the shape of a path: the record whose keys are `/a`
      and `/b`, both `true`, is written `/a,/b`, which is returned verbatim. */
  lemma PathShapedRecord(a: char, b: char)
    requires IsWordChar(a) && IsWordChar(b)
    ensures Render([Match(['/', a], None), Match(['/', b], None)]) == ['/', a, ',', '/', b]
    ensures IsPath(['/', a, ',', '/', b])
    ensures ParseNameValue(Text(['/', a, ',', '/', b])) == Text(['/', a, ',', '/', b])
  {
    var s := ['/', a, ',', '/', b];
    var ms := [Match(['/', a], None), Match(['/', b], None)];
    assert Render(ms[1..]) == ['/', b];
    PathShape(s);
    assert HasUnescaped(s, ',') by {
      assert s[2] == ',' && s[1] != '\\';
    }
    ParseNameValueCases(s);
  }

  /** The four keys of `literalMap`, given as a whole option value, become
      the values they name. */
  lemma LiteralMapping(t: string)
    requires IsKeyword(t)
    ensures t == "true" ==> ParseNameValue(Text(t)) == Bool(true)
    ensures t == "false" ==> ParseNameValue(Text(t)) == Bool(false)
    ensures t == "undefined" ==> ParseNameValue(Text(t)) == Undefined
    ensures t == "null" ==> ParseNameValue(Text(t)) == Null
  {
    assert ':' !in t && ',' !in t && '\\' !in t;
    PlainScalar(t);
  }
}
