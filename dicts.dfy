/** Python's built-in dict as the modelled code uses it: a sequence of
    (key, value) entries whose keys keep their insertion order.  Assigning
    `d[k] = v` overwrites the entry of an existing key in place and appends
    a new key at the end. */
module Dicts {

  type Dict<K, V> = seq<(K, V)>

  function Keys<K, V>(d: Dict<K, V>): seq<K> {
    seq(|d|, i requires 0 <= i < |d| => d[i].0)
  }

  function Values<K, V>(d: Dict<K, V>): seq<V> {
    seq(|d|, i requires 0 <= i < |d| => d[i].1)
  }

  /** No element occurs twice. */
  predicate Distinct<T(==)>(s: seq<T>) {
    forall i, j :: 0 <= i < j < |s| ==> s[i] != s[j]
  }

  /** What every Python dict satisfies: its keys are distinct. */
  predicate IsDict<K(==), V>(d: Dict<K, V>) {
    Distinct(Keys(d))
  }

  /** Position of the first occurrence of `x`. */
  function IndexOf<T(==)>(s: seq<T>, x: T): (i: nat)
    requires x in s
    ensures i < |s| && s[i] == x && x !in s[..i]
  {
    if s[0] == x then 0
    else
      var j := IndexOf(s[1..], x);
      assert s[..j + 1] == [s[0]] + s[1..][..j];
      j + 1
  }

  lemma IndexOfUnique<T>(s: seq<T>, i: nat, x: T)
    requires i < |s| && s[i] == x && x !in s[..i]
    ensures IndexOf(s, x) == i
  {
  }

  /** In a sequence without duplicates an element does not occur before
      its own position. */
  lemma DistinctPrefixExcludes<T>(s: seq<T>, i: nat)
    requires Distinct(s) && i < |s|
    ensures s[i] !in s[..i]
  {
    assert forall j :: 0 <= j < i ==> s[..i][j] != s[i];
  }

  /** `d[k]`, for a key that is present (Python raises KeyError otherwise). */
  function Get<K(==), V>(d: Dict<K, V>, k: K): V
    requires k in Keys(d)
  {
    d[IndexOf(Keys(d), k)].1
  }

  /** `d[k] = v`. */
  function Put<K(==), V>(d: Dict<K, V>, k: K, v: V): (r: Dict<K, V>)
    ensures Keys(r) == if k in Keys(d) then Keys(d) else Keys(d) + [k]
    ensures Get(r, k) == v
    ensures forall k' :: k' in Keys(d) && k' != k ==> Get(r, k') == Get(d, k')
    ensures IsDict(d) ==> IsDict(r)
  {
    if k in Keys(d) then
      var at := IndexOf(Keys(d), k);
      var r := d[at := (k, v)];
      assert Keys(r) == Keys(d);
      PutUpdatedGets(d, at, k, v);
      r
    else
      var r := d + [(k, v)];
      assert Keys(r) == Keys(d) + [k];
      PutAppendedGets(d, k, v);
      r
  }

  lemma PutUpdatedGets<K, V>(d: Dict<K, V>, at: nat, k: K, v: V)
    requires k in Keys(d) && at == IndexOf(Keys(d), k)
    ensures Keys(d[at := (k, v)]) == Keys(d)
    ensures Get(d[at := (k, v)], k) == v
    ensures forall k' :: k' in Keys(d) && k' != k ==> Get(d[at := (k, v)], k') == Get(d, k')
  {
    var r := d[at := (k, v)];
    assert Keys(r) == Keys(d);
  }

  lemma PutAppendedGets<K, V>(d: Dict<K, V>, k: K, v: V)
    requires k !in Keys(d)
    ensures Keys(d + [(k, v)]) == Keys(d) + [k]
    ensures Get(d + [(k, v)], k) == v
    ensures forall k' :: k' in Keys(d) ==> Get(d + [(k, v)], k') == Get(d, k')
  {
    var r := d + [(k, v)];
    assert Keys(r) == Keys(d) + [k];
    assert Keys(r)[..|d|] == Keys(d);
    IndexOfUnique(Keys(r), |d|, k);
    forall k' | k' in Keys(d) ensures Get(r, k') == Get(d, k') {
      var j := IndexOf(Keys(d), k');
      assert Keys(r)[..j] == Keys(d)[..j];
      IndexOfUnique(Keys(r), j, k');
    }
  }

  /** An element other than the last one occurs before it. */
  lemma InFront<T>(s: seq<T>, x: T)
    requires s != [] && x in s && x != s[|s| - 1]
    ensures x in s[..|s| - 1]
  {
    var i :| 0 <= i < |s| && s[i] == x;
    assert s[..|s| - 1][i] == x;
  }

  /** The elements of `s` in order of first occurrence (what Python's
      "append if not already in the list" idiom builds). */
  function Dedup<T(==,!new)>(s: seq<T>): (r: seq<T>)
    ensures Distinct(r)
    ensures forall x :: x in r <==> x in s
  {
    if s == [] then []
    else
      var p := Dedup(s[..|s| - 1]);
      var x := s[|s| - 1];
      assert s == s[..|s| - 1] + [x];
      if x in p then p else p + [x]
  }

  lemma {:induction false} DedupOfDistinct<T(!new)>(s: seq<T>)
    requires Distinct(s)
    ensures Dedup(s) == s
  {
    if s != [] {
      var init := s[..|s| - 1];
      assert Distinct(init);
      DedupOfDistinct(init);
      assert s[|s| - 1] !in init;
      assert s == init + [s[|s| - 1]];
    }
  }
}
