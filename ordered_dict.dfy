/**
 * A JavaScript plain object used as a dictionary (`{}` written with
 * `obj[name] = value`): its string keys in insertion order, each with one
 * value. Assigning to a key that is already present replaces its value and
 * keeps its position; assigning to a new key appends it.
 */
module OrderedDict {
  import opened Wrappers

  type Dict<V> = seq<(string, V)>

  /** No key occurs twice. */
  predicate UniqueKeys<V>(d: Dict<V>) {
    forall i, j :: 0 <= i < j < |d| ==> d[i].0 != d[j].0
  }

  /** `k in d` */
  predicate HasKey<V>(d: Dict<V>, k: string) {
    exists i :: 0 <= i < |d| && d[i].0 == k
  }

  /** `d[k]`, or None when `k` is not a key. */
  function Get<V>(d: Dict<V>, k: string): (r: Option<V>)
    ensures r.Some? <==> HasKey(d, k)
    ensures r.Some? ==> exists i :: 0 <= i < |d| && d[i] == (k, r.value)
  {
    if d == [] then None
    else if d[0].0 == k then Some(d[0].1)
    else
      var r := Get(d[1..], k);
      assert r.Some? ==> exists i :: 0 <= i < |d[1..]| && d[1..][i] == (k, r.value);
      assert HasKey(d[1..], k) ==> HasKey(d, k);
      assert HasKey(d, k) ==> HasKey(d[1..], k);
      r
  }

  /** `d[k] = v`: afterwards `k` maps to `v`, and a new key goes last. */
  function Put<V>(d: Dict<V>, k: string, v: V): (r: Dict<V>)
    ensures Get(r, k) == Some(v)
    ensures !HasKey(d, k) ==> r == d + [(k, v)]
  {
    if d == [] then [(k, v)]
    else if d[0].0 == k then [(k, v)] + d[1..]
    else
      var t := Put(d[1..], k, v);
      assert HasKey(d, k) <==> HasKey(d[1..], k);
      [d[0]] + t
  }

  /** Assignment leaves every other key with its value, keeps the keys in
      their places when `k` is already present, and adds no entry except
      `(k, v)`. */
  lemma {:induction false} PutSpec<V>(d: Dict<V>, k: string, v: V)
    ensures forall k' :: k' != k ==> Get(Put(d, k, v), k') == Get(d, k')
    ensures HasKey(d, k) ==> |Put(d, k, v)| == |d| && forall i :: 0 <= i < |d| ==> Put(d, k, v)[i].0 == d[i].0
    ensures forall i :: 0 <= i < |Put(d, k, v)| ==> Put(d, k, v)[i] == (k, v) || Put(d, k, v)[i] in d
  {
    if d != [] && d[0].0 != k {
      PutSpec(d[1..], k, v);
      assert HasKey(d, k) <==> HasKey(d[1..], k);
      var t := Put(d[1..], k, v);
      assert Put(d, k, v) == [d[0]] + t;
      forall k' | k' != k ensures Get(Put(d, k, v), k') == Get(d, k') {
        if d[0].0 != k' {
          assert Get(Put(d, k, v), k') == Get(t, k');
        }
      }
      forall i | 0 <= i < |Put(d, k, v)| ensures Put(d, k, v)[i] == (k, v) || Put(d, k, v)[i] in d {
        if i > 0 {
          assert Put(d, k, v)[i] == t[i - 1];
          assert t[i - 1] in d[1..] ==> t[i - 1] in d;
        }
      }
    } else if d != [] {
      forall i | 0 <= i < |Put(d, k, v)| ensures Put(d, k, v)[i] == (k, v) || Put(d, k, v)[i] in d {
        if i > 0 {
          assert Put(d, k, v)[i] == d[i];
        }
      }
    }
  }

  /** Assignment to `k` leaves the value of another key `k'` as it was. */
  lemma PutOther<V>(d: Dict<V>, k: string, v: V, k': string)
    requires k' != k
    ensures Get(Put(d, k, v), k') == Get(d, k')
  {
    PutSpec(d, k, v);
  }

  /** Every entry after assignment is the assigned one or was there before. */
  lemma PutEntry<V>(d: Dict<V>, k: string, v: V, i: nat)
    requires i < |Put(d, k, v)|
    ensures Put(d, k, v)[i] == (k, v) || Put(d, k, v)[i] in d
  {
    PutSpec(d, k, v);
  }

  /** An entry whose key is new can go in front of a dictionary. */
  lemma ConsKeepsKeysUnique<V>(e: (string, V), t: Dict<V>)
    requires UniqueKeys(t) && !HasKey(t, e.0)
    ensures UniqueKeys([e] + t)
  {
    var r := [e] + t;
    forall i, j | 0 <= i < j < |r| ensures r[i].0 != r[j].0 {
      assert r[j] == t[j - 1];
      if i > 0 {
        assert r[i] == t[i - 1];
      }
    }
  }

  /** Assignment never duplicates a key. */
  lemma {:induction false} PutKeepsKeysUnique<V>(d: Dict<V>, k: string, v: V)
    requires UniqueKeys(d)
    ensures UniqueKeys(Put(d, k, v))
  {
    if d != [] && d[0].0 != k {
      var t := Put(d[1..], k, v);
      assert UniqueKeys(t) by {
        PutKeepsKeysUnique(d[1..], k, v);
      }
      assert !HasKey(t, d[0].0) by {
        PutOther(d[1..], k, v, d[0].0);
        assert !HasKey(d[1..], d[0].0);
      }
      ConsKeepsKeysUnique(d[0], t);
    }
  }
}
