/**
 * The string operations of JavaScript that the argument parser relies on:
 * `String.prototype.trim`, prefix tests written `s.indexOf(p) === 0`, and the
 * three escape patterns ESCP_RES_PATT (`\\([,:])`, replaced by `$1`),
 * ESCP_COLON_PATT (`\\:`, removed) and ESCP_COMMA_PATT (`\\,`, removed).
 * A string is a `seq<char>`, a sequence of Unicode scalar values; every
 * character the parser tests for is ASCII.
 */
module JsStrings {

  /** The white space `trim` removes, restricted to ASCII: tab, line feed,
      vertical tab, form feed, carriage return (U+0009..U+000D) and space. */
  predicate IsSpace(c: char) {
    c == ' ' || '\t' <= c <= '\r'
  }

  /** `s.indexOf(p) === 0` */
  predicate StartsWith(s: string, p: string) {
    p <= s
  }

  /** Neither end of `s` is white space. */
  predicate IsTrimmed(s: string) {
    s == [] || (!IsSpace(s[0]) && !IsSpace(s[|s| - 1]))
  }

  /** Drops the leading white space. */
  function TrimStart(s: string): (r: string)
    ensures |r| <= |s|
    ensures r == [] || !IsSpace(r[0])
  {
    if s != [] && IsSpace(s[0]) then TrimStart(s[1..]) else s
  }

  /** What `TrimStart` keeps is a suffix of `s`, and what it drops is white space. */
  lemma {:induction false} TrimStartDropsSpace(s: string)
    ensures TrimStart(s) == s[|s| - |TrimStart(s)|..]
    ensures forall k :: 0 <= k < |s| - |TrimStart(s)| ==> IsSpace(s[k])
  {
    if s != [] && IsSpace(s[0]) {
      TrimStartDropsSpace(s[1..]);
      assert s[1..][|s| - 1 - |TrimStart(s)|..] == s[|s| - |TrimStart(s)|..];
      forall k | 1 <= k < |s| - |TrimStart(s)| ensures IsSpace(s[k]) {
        assert s[k] == s[1..][k - 1];
      }
    }
  }

  /** Drops the trailing white space. */
  function TrimEnd(s: string): (r: string)
    ensures |r| <= |s|
    ensures r == [] || !IsSpace(r[|r| - 1])
  {
    if s != [] && IsSpace(s[|s| - 1]) then TrimEnd(s[..|s| - 1]) else s
  }

  /** What `TrimEnd` keeps is a prefix of `s`, and what it drops is white space. */
  lemma {:induction false} TrimEndDropsSpace(s: string)
    ensures TrimEnd(s) == s[..|TrimEnd(s)|]
    ensures forall k :: |TrimEnd(s)| <= k < |s| ==> IsSpace(s[k])
  {
    if s != [] && IsSpace(s[|s| - 1]) {
      TrimEndDropsSpace(s[..|s| - 1]);
      assert s[..|s| - 1][..|TrimEnd(s)|] == s[..|TrimEnd(s)|];
    }
  }

  /** `s.trim()`: the result has no white space at either end, and a string
      that is already trimmed is returned unchanged. */
  function Trim(s: string): (r: string)
    ensures IsTrimmed(r)
    ensures IsTrimmed(s) ==> r == s
    ensures |r| <= |s|
  {
    TrimEndDropsSpace(TrimStart(s));
    TrimEnd(TrimStart(s))
  }

  /** A text that starts with a code unit other than white space keeps that
      code unit first when trimmed. */
  lemma TrimKeepsFirst(s: string)
    requires s != [] && !IsSpace(s[0])
    ensures Trim(s) != [] && Trim(s)[0] == s[0]
  {
    assert TrimStart(s) == s;
    TrimEndDropsSpace(s);
  }

  /** The length of the white space `trim` drops at the start of `s`. */
  function Lead(s: string): nat {
    |s| - |TrimStart(s)|
  }

  /** What `trim` keeps is the part of `s` after the leading white space. */
  lemma TrimIsMiddle(s: string)
    ensures Lead(s) + |Trim(s)| <= |s|
    ensures Trim(s) == s[Lead(s)..Lead(s) + |Trim(s)|]
  {
    TrimStartDropsSpace(s);
    TrimEndDropsSpace(TrimStart(s));
    SliceOfSuffix(s, TrimStart(s), Trim(s), Lead(s));
  }

  /** A prefix of the suffix of `s` from `a` is a slice of `s`. */
  lemma SliceOfSuffix<T>(s: seq<T>, t: seq<T>, r: seq<T>, a: nat)
    requires a <= |s| && t == s[a..] && |r| <= |t| && r == t[..|r|]
    ensures a + |r| <= |s| && r == s[a..a + |r|]
  {
  }

  /** What `trim` drops at the end of `s` is white space. */
  lemma TrimDropsTrailingSpace(s: string)
    ensures Lead(s) + |Trim(s)| <= |s|
    ensures forall k :: Lead(s) + |Trim(s)| <= k < |s| ==> IsSpace(s[k])
  {
    var t := TrimStart(s);
    var a := Lead(s);
    TrimStartDropsSpace(s);
    TrimEndDropsSpace(t);
    forall k | a + |Trim(s)| <= k < |s| ensures IsSpace(s[k]) {
      assert s[k] == t[k - a];
    }
  }

  /** `trim` removes white space and nothing else: its result is the part of
      `s` that is left between a white-space prefix and a white-space suffix. */
  lemma TrimRemovesOnlySpace(s: string)
    ensures Lead(s) + |Trim(s)| <= |s|
    ensures Trim(s) == s[Lead(s)..Lead(s) + |Trim(s)|]
    ensures forall k :: 0 <= k < Lead(s) ==> IsSpace(s[k])
    ensures forall k :: Lead(s) + |Trim(s)| <= k < |s| ==> IsSpace(s[k])
  {
    TrimIsMiddle(s);
    TrimStartDropsSpace(s);
    TrimDropsTrailingSpace(s);
  }

  /** The two characters the option-value syntax reserves. */
  predicate IsReserved(c: char) {
    c == ',' || c == ':'
  }

  /** `s.replace(ESCP_RES_PATT, "$1")`: every backslash that stands before a
      comma or a colon is dropped, scanning left to right; any other
      backslash is kept. */
  function Unescape(s: string): (r: string)
    ensures |r| <= |s|
  {
    if s == [] then []
    else if |s| >= 2 && s[0] == '\\' && IsReserved(s[1]) then [s[1]] + Unescape(s[2..])
    else [s[0]] + Unescape(s[1..])
  }

  /** Text without a backslash is its own unescaping. */
  lemma {:induction false} UnescapePlain(s: string)
    requires '\\' !in s
    ensures Unescape(s) == s
  {
    if s != [] {
      assert s == [s[0]] + s[1..];
      UnescapePlain(s[1..]);
    }
  }

  /** Unescaping works piece by piece, when the first piece does not end in
      a backslash that could pair with the start of the second. */
  lemma {:induction false} UnescapeAppend(a: string, b: string)
    requires a == [] || a[|a| - 1] != '\\'
    ensures Unescape(a + b) == Unescape(a) + Unescape(b)
    decreases |a|
  {
    if a == [] {
      assert a + b == b;
    } else {
      var n := if |a| >= 2 && a[0] == '\\' && IsReserved(a[1]) then 2 else 1;
      var head := if n == 2 then [a[1]] else [a[0]];
      assert (a + b)[n..] == a[n..] + b;
      assert Unescape(a + b) == head + Unescape(a[n..] + b);
      assert Unescape(a) == head + Unescape(a[n..]);
      UnescapeAppend(a[n..], b);
      Regroup(Unescape(a + b), head, Unescape(a[n..] + b), Unescape(a[n..]), Unescape(b), Unescape(a));
    }
  }

  /** Regrouping a concatenation of three pieces. */
  lemma Regroup<T>(r: seq<T>, x: seq<T>, m: seq<T>, y: seq<T>, z: seq<T>, w: seq<T>)
    requires r == x + m && m == y + z && w == x + y
    ensures r == w + z
  {
  }

  /** `s.replace(ESCP_COLON_PATT, "")` for `c == ':'` and
      `s.replace(ESCP_COMMA_PATT, "")` for `c == ','`: every escaped `c` is
      removed together with its backslash. */
  function RemoveEscaped(s: string, c: char): (r: string)
    ensures |r| <= |s|
  {
    if s == [] then []
    else if |s| >= 2 && s[0] == '\\' && s[1] == c then RemoveEscaped(s[2..], c)
    else [s[0]] + RemoveEscaped(s[1..], c)
  }

  /** Without a backslash there is nothing escaped to remove. */
  lemma {:induction false} RemoveEscapedPlain(s: string, c: char)
    requires '\\' !in s
    ensures RemoveEscaped(s, c) == s
  {
    if s != [] {
      assert s == [s[0]] + s[1..];
      RemoveEscapedPlain(s[1..], c);
    }
  }

  /** `s` holds a `c` that is not directly preceded by a backslash. */
  predicate HasUnescaped(s: string, c: char) {
    exists k :: 0 <= k < |s| && s[k] == c && (k == 0 || s[k - 1] != '\\')
  }

  /** The test `s.replace(ESCP_COLON_PATT, "").indexOf(":") === -1` (and its
      comma twin) asks exactly whether `s` holds an unescaped `c`. */
  lemma {:induction false} RemoveEscapedKeepsUnescaped(s: string, c: char)
    requires c != '\\'
    ensures c in RemoveEscaped(s, c) <==> HasUnescaped(s, c)
    decreases |s|
  {
    if s == [] {
    } else if |s| >= 2 && s[0] == '\\' && s[1] == c {
      var t := s[2..];
      RemoveEscapedKeepsUnescaped(t, c);
      if HasUnescaped(t, c) {
        var k :| 0 <= k < |t| && t[k] == c && (k == 0 || t[k - 1] != '\\');
        assert s[k + 2] == c && s[k + 1] != '\\';
      }
      if HasUnescaped(s, c) {
        var k :| 0 <= k < |s| && s[k] == c && (k == 0 || s[k - 1] != '\\');
        assert k >= 2;
        assert t[k - 2] == c && (k - 2 == 0 || t[k - 3] != '\\');
      }
    } else {
      var t := s[1..];
      RemoveEscapedKeepsUnescaped(t, c);
      assert RemoveEscaped(s, c) == [s[0]] + RemoveEscaped(t, c);
      if HasUnescaped(t, c) {
        var k :| 0 <= k < |t| && t[k] == c && (k == 0 || t[k - 1] != '\\');
        assert s[k + 1] == c;
      }
      if HasUnescaped(s, c) && s[0] != c {
        var k :| 0 <= k < |s| && s[k] == c && (k == 0 || s[k - 1] != '\\');
        assert t[k - 1] == c && (k - 1 == 0 || t[k - 2] != '\\');
      }
    }
  }

  /** The inverse of `Unescape` on the reserved characters: a backslash is
      put before every comma and colon. Every reserved character of the
      result is escaped, and the result never starts with one. */
  function Escape(t: string): (r: string)
    ensures r == [] || !IsReserved(r[0])
    ensures forall k :: 0 <= k < |r| && IsReserved(r[k]) ==> k > 0 && r[k - 1] == '\\'
  {
    if t == [] then []
    else if IsReserved(t[0]) then ['\\', t[0]] + Escape(t[1..])
    else [t[0]] + Escape(t[1..])
  }

  /** Unescaping undoes escaping, for every text. */
  lemma {:induction false} UnescapeEscape(t: string)
    ensures Unescape(Escape(t)) == t
  {
    if t != [] {
      UnescapeEscape(t[1..]);
      var rest := Escape(t[1..]);
      if IsReserved(t[0]) {
        assert Escape(t) == ['\\', t[0]] + rest;
        assert (['\\', t[0]] + rest)[2..] == rest;
      } else {
        assert Escape(t) == [t[0]] + rest;
        assert ([t[0]] + rest)[1..] == rest;
      }
    }
  }

  /** An escaped text holds no unescaped reserved character. */
  lemma EscapeHidesReserved(t: string, c: char)
    requires IsReserved(c)
    ensures !HasUnescaped(Escape(t), c)
  {
  }
}
