/**
 * The fixed regular expressions of the argument parser, each written out as
 * a predicate or a scanner:
 *   FLAG_LIST_PATT  `^[-][A-z]{2,}$`
 *   PATH_PATT       `^(?:[A-z]:)?(?:[\/\\][^\/\\]+)+(?:[\/\\])?$`
 *   NAME_VALUE_PATT `((?:[\\][,]|[\\][:]|[^,:])+)(?:[:]((?:[\\][,]|[\\][:]|[^,:])+))?`
 *                   used with the global flag by `matchAll`.
 */
module Patterns {
  import opened Wrappers
  import opened JsStrings

  /** The class `[A-z]`: every code unit from 'A' (0x41) to 'z' (0x7A),
      which includes '[', '\', ']', '^', '_' and '`' besides the letters. */
  predicate InAtoz(c: char) {
    'A' <= c <= 'z'
  }

  /** `[A-z]*` matches the whole of `s`. */
  predicate AllInAtoz(s: string)
    ensures AllInAtoz(s) <==> forall k :: 0 <= k < |s| ==> InAtoz(s[k])
  {
    s == [] || (InAtoz(s[0]) && AllInAtoz(s[1..]))
  }

  /** FLAG_LIST_PATT: a hyphen followed by two or more code units of `[A-z]`. */
  predicate IsFlagList(v: string) {
    |v| >= 3 && v[0] == '-' && AllInAtoz(v[1..])
  }

  /** A flag list never has the double-hyphen form, since '-' is not in `[A-z]`. */
  lemma FlagListIsSingleHyphen(v: string)
    requires IsFlagList(v)
    ensures StartsWith(v, "-") && !StartsWith(v, "--")
  {
    assert InAtoz(v[1..][0]);
  }

  /** The class `[\/\\]`. */
  predicate IsSeparator(c: char) {
    c == '/' || c == '\\'
  }

  /** The end of the run `[^\/\\]*` that starts at `p`. */
  function SegmentEnd(t: string, p: nat): (r: nat)
    requires p <= |t|
    ensures p <= r <= |t|
    ensures forall k :: p <= k < r ==> !IsSeparator(t[k])
    ensures r == |t| || IsSeparator(t[r])
    decreases |t| - p
  {
    if p < |t| && !IsSeparator(t[p]) then SegmentEnd(t, p + 1) else p
  }

  /** `(?:[\/\\][^\/\\]+)+(?:[\/\\])?$` matches the whole of `t`. A group's
      run of non-separators can only end at a separator or at the end, so it
      is the longest such run, and what follows is either nothing, the one
      optional trailing separator, or further groups. */
  predicate PathGroups(t: string)
    decreases |t|
  {
    && |t| >= 2 && IsSeparator(t[0]) && !IsSeparator(t[1])
    && var k := SegmentEnd(t, 1);
       k >= |t| - 1 || PathGroups(t[k..])
  }

  /** PATH_PATT: an optional `[A-z]:` drive prefix, then path groups. The
      engine tries the prefix first and, failing that, the whole string. */
  predicate IsPath(v: string) {
    || (|v| >= 2 && InAtoz(v[0]) && v[1] == ':' && PathGroups(v[2..]))
    || PathGroups(v)
  }

  /** No two separators stand next to each other. */
  predicate NoDoubleSeparator(t: string) {
    forall k :: 0 <= k < |t| - 1 ==> !(IsSeparator(t[k]) && IsSeparator(t[k + 1]))
  }

  /** The path body, stated without the regular expression: at least two
      code units, a leading separator, and no two separators in a row. */
  lemma {:induction false} PathGroupsShape(t: string)
    ensures PathGroups(t) <==> |t| >= 2 && IsSeparator(t[0]) && NoDoubleSeparator(t)
    decreases |t|
  {
    if |t| >= 2 && IsSeparator(t[0]) && !IsSeparator(t[1]) {
      var k := SegmentEnd(t, 1);
      if k < |t| - 1 {
        var u := t[k..];
        PathGroupsShape(u);
        if NoDoubleSeparator(u) {
          forall j | 0 <= j < |t| - 1 ensures !(IsSeparator(t[j]) && IsSeparator(t[j + 1])) {
            if j >= k {
              assert t[j] == u[j - k] && t[j + 1] == u[j - k + 1];
            } else {
              assert j == 0 || !IsSeparator(t[j]);
            }
          }
        }
        if NoDoubleSeparator(t) {
          forall j | 0 <= j < |u| - 1 ensures !(IsSeparator(u[j]) && IsSeparator(u[j + 1])) {
            assert u[j] == t[j + k] && u[j + 1] == t[j + k + 1];
          }
        }
      } else {
        forall j | 0 <= j < |t| - 1 ensures !(IsSeparator(t[j]) && IsSeparator(t[j + 1])) {
          assert j == 0 || !IsSeparator(t[j]);
        }
      }
    } else if |t| >= 2 && IsSeparator(t[0]) {
      assert !NoDoubleSeparator(t);
    }
  }

  /** Whether a string is a path, stated without the regular expression. */
  lemma PathShape(v: string)
    ensures IsPath(v) <==>
      || (|v| >= 4 && InAtoz(v[0]) && v[1] == ':' && IsSeparator(v[2]) && NoDoubleSeparator(v[2..]))
      || (|v| >= 2 && IsSeparator(v[0]) && NoDoubleSeparator(v))
  {
    PathGroupsShape(v);
    if |v| >= 2 {
      PathGroupsShape(v[2..]);
    }
  }

  // ---------------------------------------------------------------------
  // NAME_VALUE_PATT

  /** One match of NAME_VALUE_PATT: group 1, and group 2 when it took part. */
  datatype Match = Match(key: string, value: Option<string>)

  /** The end of the greedy run of units `(?:[\\][,]|[\\][:]|[^,:])+`
      starting at `p`; the alternatives are tried in order, so a backslash
      before a comma or colon takes both. The run is empty exactly when `p`
      is at the end or at a comma or colon. */
  function RunEnd(s: string, p: nat): (r: nat)
    requires p <= |s|
    ensures p <= r <= |s|
    ensures r == p <==> p == |s| || IsReserved(s[p])
    decreases |s| - p
  {
    if p == |s| then p
    else if s[p] == '\\' && p + 1 < |s| && IsReserved(s[p + 1]) then RunEnd(s, p + 2)
    else if IsReserved(s[p]) then p
    else RunEnd(s, p + 1)
  }

  /** Inside the run from `p` every reserved character is escaped, and the
      run stops at the end of `s` or at a reserved character it does not
      escape. */
  lemma {:induction false} RunEndShape(s: string, p: nat)
    requires p <= |s|
    ensures forall k :: p <= k < RunEnd(s, p) && IsReserved(s[k]) ==> k > p && s[k - 1] == '\\'
    ensures RunEnd(s, p) == |s| || (IsReserved(s[RunEnd(s, p)]) && (RunEnd(s, p) == p || s[RunEnd(s, p) - 1] != '\\'))
    decreases |s| - p
  {
    if p == |s| {
    } else if s[p] == '\\' && p + 1 < |s| && IsReserved(s[p + 1]) {
      RunEndShape(s, p + 2);
    } else if !IsReserved(s[p]) {
      RunEndShape(s, p + 1);
    }
  }

  /** Conversely, an end that satisfies both facts of `RunEndShape` is the
      end the scanner finds: the run from `p` is unique. */
  lemma {:induction false} RunEndAt(s: string, p: nat, q: nat)
    requires p <= q <= |s|
    requires forall k :: p <= k < q && IsReserved(s[k]) ==> k > p && s[k - 1] == '\\'
    requires q == |s| || (IsReserved(s[q]) && (q == p || s[q - 1] != '\\'))
    ensures RunEnd(s, p) == q
    decreases q - p
  {
    if p < q {
      if s[p] == '\\' && p + 1 < |s| && IsReserved(s[p + 1]) {
        assert p + 1 < q;
        RunEndAt(s, p + 2, q);
      } else {
        RunEndAt(s, p + 1, q);
      }
    }
  }

  /** A piece of text that a run matches as a whole: non-empty, with every
      comma and colon escaped by the code unit before it. */
  predicate IsRun(w: string) {
    && w != []
    && forall k :: 0 <= k < |w| && IsReserved(w[k]) ==> k > 0 && w[k - 1] == '\\'
  }

  /** `[...s.matchAll(NAME_VALUE_PATT)]` from position `p`. A position where
      no match can start (a comma or a colon) is skipped; otherwise the key
      is the longest run, and a value is taken when a colon follows the key
      and at least one unit follows the colon. Matches are never empty, so
      the search resumes where the match ended. */
  function ScanFrom(s: string, p: nat): seq<Match>
    requires p <= |s|
    decreases |s| - p
  {
    if p == |s| then []
    else if IsReserved(s[p]) then ScanFrom(s, p + 1)
    else
      var k := RunEnd(s, p);
      if k < |s| && s[k] == ':' && RunEnd(s, k + 1) > k + 1 then
        var e := RunEnd(s, k + 1);
        [Match(s[p..k], Some(s[k + 1..e]))] + ScanFrom(s, e)
      else
        [Match(s[p..k], None)] + ScanFrom(s, k)
  }

  /** What the scanner takes from a position that is not a comma or colon is
      a run. */
  lemma RunEndIsRun(s: string, p: nat)
    requires p < |s| && !IsReserved(s[p])
    ensures IsRun(s[p..RunEnd(s, p)])
  {
    var w := s[p..RunEnd(s, p)];
    RunEndShape(s, p);
    forall j | 0 <= j < |w| && IsReserved(w[j]) ensures j > 0 && w[j - 1] == '\\' {
      assert w[j] == s[p + j];
    }
  }

  /** Every key and every value the scanner takes is a run. */
  lemma {:induction false} ScanFromRuns(s: string, p: nat)
    requires p <= |s|
    ensures forall i :: 0 <= i < |ScanFrom(s, p)| ==>
      IsRun(ScanFrom(s, p)[i].key) && (ScanFrom(s, p)[i].value.Some? ==> IsRun(ScanFrom(s, p)[i].value.value))
    decreases |s| - p
  {
    if p < |s| {
      if IsReserved(s[p]) {
        ScanFromRuns(s, p + 1);
      } else {
        var k := RunEnd(s, p);
        RunEndIsRun(s, p);
        if k < |s| && s[k] == ':' && RunEnd(s, k + 1) > k + 1 {
          RunEndIsRun(s, k + 1);
          ScanFromRuns(s, RunEnd(s, k + 1));
        } else {
          ScanFromRuns(s, k);
        }
      }
    }
  }

  /** All matches of NAME_VALUE_PATT in `s`, in order; keys and values are
      runs. */
  function MatchAll(s: string): (ms: seq<Match>)
    ensures forall i :: 0 <= i < |ms| ==>
      IsRun(ms[i].key) && (ms[i].value.Some? ==> IsRun(ms[i].value.value))
  {
    ScanFromRuns(s, 0);
    ScanFrom(s, 0)
  }

  /** A run holds no unescaped comma or colon. */
  lemma RunHasNoUnescaped(w: string, c: char)
    requires IsRun(w) && IsReserved(c)
    ensures !HasUnescaped(w, c)
  {
  }

  /** The text a list of matches is read back from: each key, followed by a
      colon and the value when there is one, the matches joined by commas. */
  function RenderMatch(m: Match): string {
    m.key + (if m.value.Some? then ":" + m.value.value else "")
  }

  function Render(ms: seq<Match>): string
    decreases |ms|
  {
    if ms == [] then ""
    else if |ms| == 1 then RenderMatch(ms[0])
    else RenderMatch(ms[0]) + "," + Render(ms[1..])
  }

  /** A run that does not end in a backslash, so that a comma or colon put
      after it stays unescaped. */
  predicate IsClosedRun(w: string) {
    IsRun(w) && w[|w| - 1] != '\\'
  }

  /** A match that `Render` writes out unambiguously. */
  predicate IsRenderable(m: Match) {
    IsClosedRun(m.key) && (m.value.Some? ==> IsClosedRun(m.value.value))
  }

  /** The run of `s` from `p` is exactly `w` when `w` is a closed run that
      `s` holds at `p`, followed by the end or by a comma or colon. */
  lemma RunEndOfClosedRun(s: string, p: nat, w: string)
    requires IsClosedRun(w) && p + |w| <= |s| && s[p..p + |w|] == w
    requires p + |w| == |s| || IsReserved(s[p + |w|])
    ensures RunEnd(s, p) == p + |w|
  {
    var q := p + |w|;
    forall k | p <= k < q && IsReserved(s[k]) ensures k > p && s[k - 1] == '\\' {
      assert s[k] == w[k - p];
      if k > p {
        assert s[k - 1] == w[k - p - 1];
      }
    }
    assert s[q - 1] == w[|w| - 1];
    RunEndAt(s, p, q);
  }

  /** A step of `ScanFrom` that takes a key and a value. */
  lemma ScanFromValue(s: string, p: nat, q: nat, e: nat)
    requires p < q && q + 1 < e <= |s| && !IsReserved(s[p])
    requires RunEnd(s, p) == q && s[q] == ':' && RunEnd(s, q + 1) == e
    ensures ScanFrom(s, p) == [Match(s[p..q], Some(s[q + 1..e]))] + ScanFrom(s, e)
  {
  }

  /** A step of `ScanFrom` that takes a key alone. */
  lemma ScanFromKey(s: string, p: nat, q: nat)
    requires p < q <= |s| && !IsReserved(s[p])
    requires RunEnd(s, p) == q && (q == |s| || s[q] != ':' || RunEnd(s, q + 1) == q + 1)
    ensures ScanFrom(s, p) == [Match(s[p..q], None)] + ScanFrom(s, q)
  {
  }

  /** A step of `ScanFrom` over a comma or colon where no match starts. */
  lemma ScanFromSkip(s: string, p: nat)
    requires p < |s| && IsReserved(s[p])
    ensures ScanFrom(s, p) == ScanFrom(s, p + 1)
  {
  }

  /** A list that starts with the head of `xs` and goes on with the tail of
      `xs` is `xs`. */
  lemma HeadTail<T>(ys: seq<T>, tail: seq<T>, xs: seq<T>)
    requires xs != [] && ys == [xs[0]] + tail && tail == xs[1..]
    ensures ys == xs
  {
  }

  /** Scanning what `Render` wrote gives back the matches, for every list of
      renderable matches: NAME_VALUE_PATT reads the comma and colon syntax
      the way it is written. */
  lemma {:induction false} ScanRender(s: string, p: nat, ms: seq<Match>)
    requires p <= |s| && s[p..] == Render(ms)
    requires forall i :: 0 <= i < |ms| ==> IsRenderable(ms[i])
    ensures ScanFrom(s, p) == ms
    decreases |ms|
  {
    if ms == [] {
      assert |s[p..]| == 0;
    } else {
      var e := ScanRenderFirst(s, p, ms);
      var rest := ms[1..];
      assert ScanFrom(s, e) == rest by {
        if |ms| == 1 {
          assert ScanFrom(s, e) == [];
        } else {
          forall i | 0 <= i < |rest| ensures IsRenderable(rest[i]) {
            assert rest[i] == ms[i + 1];
          }
          ScanFromSkip(s, e);
          assert s[e + 1..] == Render(rest);
          ScanRender(s, e + 1, rest);
        }
      }
      HeadTail(ScanFrom(s, p), ScanFrom(s, e), ms);
    }
  }

  /** Where the first match of rendered text lies: its key from `p` to `q`,
      its value (if any) after the colon at `q` up to `e`, and then either
      the end or a comma and the rest. */
  lemma RenderFirst(s: string, p: nat, ms: seq<Match>) returns (q: nat, e: nat)
    requires p <= |s| && s[p..] == Render(ms) && ms != []
    ensures q == p + |ms[0].key| && e <= |s| && s[p..q] == ms[0].key
    ensures ms[0].value.None? ==> e == q
    ensures ms[0].value.Some? ==>
      q < |s| && s[q] == ':' && e == q + 1 + |ms[0].value.value| && s[q + 1..e] == ms[0].value.value
    ensures |ms| == 1 ==> e == |s|
    ensures |ms| > 1 ==> e < |s| && s[e] == ',' && s[e + 1..] == Render(ms[1..])
  {
    var m := ms[0];
    var key := m.key;
    q := p + |key|;
    e := if m.value.Some? then q + 1 + |m.value.value| else q;
    var tail := if |ms| == 1 then "" else "," + Render(ms[1..]);
    var r := s[p..];
    assert r == RenderMatch(m) + tail;
    assert s[p..q] == r[..|key|];
    assert s[e..] == r[e - p..];
    if m.value.Some? {
      assert s[q] == r[|key|];
      assert s[q + 1..e] == r[|key| + 1..e - p];
    }
    if |ms| > 1 {
      assert s[e] == s[e..][0];
      assert s[e + 1..] == s[e..][1..];
    }
  }

  /** The first match of rendered text, and where the scan goes on. */
  lemma ScanRenderFirst(s: string, p: nat, ms: seq<Match>) returns (e: nat)
    requires p <= |s| && s[p..] == Render(ms) && ms != []
    requires IsRenderable(ms[0])
    ensures p < e <= |s|
    ensures ScanFrom(s, p) == [ms[0]] + ScanFrom(s, e)
    ensures |ms| == 1 ==> e == |s|
    ensures |ms| > 1 ==> e < |s| && s[e] == ',' && s[e + 1..] == Render(ms[1..])
  {
    var q;
    q, e := RenderFirst(s, p, ms);
    var key := ms[0].key;
    assert !IsReserved(s[p]) by {
      assert s[p] == key[0];
    }
    RunEndOfClosedRun(s, p, key);
    if ms[0].value.Some? {
      RunEndOfClosedRun(s, q + 1, ms[0].value.value);
      ScanFromValue(s, p, q, e);
    } else {
      ScanFromKey(s, p, q);
    }
  }

  /** `MatchAll` inverts `Render`. */
  lemma MatchAllRender(ms: seq<Match>)
    requires forall i :: 0 <= i < |ms| ==> IsRenderable(ms[i])
    ensures MatchAll(Render(ms)) == ms
  {
    var s := Render(ms);
    assert s[0..] == s;
    ScanRender(s, 0, ms);
  }

  /** Rendered text with a value or with two matches holds an unescaped
      colon or comma. */
  lemma RenderDelimited(ms: seq<Match>)
    requires forall i :: 0 <= i < |ms| ==> IsRenderable(ms[i])
    requires |ms| >= 2 || (|ms| == 1 && ms[0].value.Some?)
    ensures HasUnescaped(Render(ms), ':') || HasUnescaped(Render(ms), ',')
  {
    var s := Render(ms);
    assert s[0..] == s;
    var q, e := RenderFirst(s, 0, ms);
    var key := ms[0].key;
    assert IsClosedRun(key);
    assert q > 0 && s[q - 1] == key[|key| - 1] by {
      assert s[q - 1] == s[0..q][q - 1];
    }
    if ms[0].value.Some? {
      assert s[q] == ':' && s[q - 1] != '\\';
    } else {
      assert s[q] == ',' && s[q - 1] != '\\';
    }
  }
}
