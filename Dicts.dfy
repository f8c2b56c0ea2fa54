/** Python dictionaries as the analyzers use them: the items in insertion order,
    with `defaultdict(int)` and `defaultdict(list)` updates. */
module Dicts {
  import opened Wrappers

  /** A dict as its `(key, value)` items in insertion order. */
  type Dict<K, V> = seq<(K, V)>

  /** `list(d.keys())`. */
  function Keys<K, V>(d: Dict<K, V>): (ks: seq<K>)
    ensures |ks| == |d|
    ensures forall i :: 0 <= i < |d| ==> ks[i] == d[i].0
  {
    seq(|d|, i requires 0 <= i < |d| => d[i].0)
  }

  /** `list(d.values())`. */
  function Values<K, V>(d: Dict<K, V>): (vs: seq<V>)
    ensures |vs| == |d|
    ensures forall i :: 0 <= i < |d| ==> vs[i] == d[i].1
  {
    seq(|d|, i requires 0 <= i < |d| => d[i].1)
  }

  /** No key occurs twice, as in every Python dict. */
  predicate DistinctKeys<K(==), V>(d: Dict<K, V>) {
    forall i, j :: 0 <= i < j < |d| ==> d[i].0 != d[j].0
  }

  /** The position of key `k` among the items, if it is there. */
  function IndexOf<K(==), V>(d: Dict<K, V>, k: K): (r: Option<nat>)
    ensures r.Some? ==> r.value < |d| && d[r.value].0 == k
    ensures r.Some? ==> forall j :: 0 <= j < r.value ==> d[j].0 != k
    ensures r.None? ==> forall j :: 0 <= j < |d| ==> d[j].0 != k
  {
    if d == [] then None
    else if d[0].0 == k then Some(0)
    else
      match IndexOf(d[1..], k)
      case None => None
      case Some(i) => Some(i + 1)
  }

  /** Two item lists that hold `k` at the same positions, the longer one nowhere else, agree on its index. */
  lemma IndexOfAgree<K, V, W>(d: Dict<K, V>, e: Dict<K, W>, k: K)
    requires |d| <= |e|
    requires forall j :: 0 <= j < |d| ==> (d[j].0 == k <==> e[j].0 == k)
    requires forall j :: |d| <= j < |e| ==> e[j].0 != k
    ensures IndexOf(d, k) == IndexOf(e, k)
  {
    var a, b := IndexOf(d, k), IndexOf(e, k);
    if a.Some? {
      assert b.Some? && b.value <= a.value;
    }
  }

  /** `d.get(k)`. */
  function Get<K(==), V>(d: Dict<K, V>, k: K): Option<V> {
    match IndexOf(d, k)
    case None => None
    case Some(i) => Some(d[i].1)
  }

  /** `d.get(k)` finds a value exactly for the keys of `d`, and it is the value stored with `k`. */
  lemma GetSpec<K, V>(d: Dict<K, V>, k: K)
    ensures Get(d, k).None? <==> k !in Keys(d)
    ensures Get(d, k).Some? ==> (k, Get(d, k).value) in d
  {
    if k in Keys(d) {
      var j :| 0 <= j < |d| && Keys(d)[j] == k;
      assert d[j].0 == k;
    }
  }

  /** With distinct keys, `Get` finds the value stored at any position of the key. */
  lemma GetAt<K, V>(d: Dict<K, V>, i: nat)
    requires DistinctKeys(d) && i < |d|
    ensures Get(d, d[i].0) == Some(d[i].1)
  {
    var r := IndexOf(d, d[i].0);
    assert r.Some?;
  }

  /** Looking up a key after one more item has been added at the end. */
  lemma GetSnoc<K, V>(d: Dict<K, V>, x: (K, V), k: K)
    ensures Get(d + [x], k) == if Get(d, k).Some? then Get(d, k) else if x.0 == k then Some(x.1) else None
  {
    var e := d + [x];
    if x.0 != k {
      IndexOfAgree(d, e, k);
    } else if IndexOf(d, k).None? {
      assert e[|d|] == x;
      assert IndexOf(e, k) == Some(|d|);
    } else {
      var i := IndexOf(d, k).value;
      assert e[i] == d[i];
      assert IndexOf(e, k) == Some(i);
    }
  }

  /** `d[k] = v`: an existing key keeps its place, a new key goes last. */
  function Put<K(==), V>(d: Dict<K, V>, k: K, v: V): Dict<K, V> {
    match IndexOf(d, k)
    case None => d + [(k, v)]
    case Some(i) => d[i := (k, v)]
  }

  /** After `d[k] = v`, `k` maps to `v` and every other key to what it mapped to before. */
  lemma PutGet<K, V>(d: Dict<K, V>, k: K, v: V, k': K)
    ensures Get(Put(d, k, v), k') == if k' == k then Some(v) else Get(d, k')
  {
    var r := Put(d, k, v);
    match IndexOf(d, k)
    case None =>
      assert r[|d|] == (k, v);
      if k' == k {
        assert IndexOf(r, k) == Some(|d|);
      } else {
        IndexOfAgree(d, r, k');
      }
    case Some(i) =>
      assert r[i] == (k, v);
      assert forall j :: 0 <= j < |d| && j != i ==> r[j] == d[j];
      IndexOfAgree(d, r, k');
  }

  lemma PutKeys<K, V>(d: Dict<K, V>, k: K, v: V)
    ensures Keys(Put(d, k, v)) == if k in Keys(d) then Keys(d) else Keys(d) + [k]
  {
    if k in Keys(d) {
      var j :| 0 <= j < |d| && Keys(d)[j] == k;
      assert IndexOf(d, k).Some?;
    } else {
      assert IndexOf(d, k).None?;
    }
  }

  /** `d[k] += 1` on a `defaultdict(int)`: a new key goes last with count 1. */
  function Increment<K(==)>(d: Dict<K, int>, k: K): Dict<K, int> {
    Put(d, k, Get(d, k).GetOr(0) + 1)
  }

  /** `d[k] += 1` adds one to the count of `k` (0 when absent) and changes no other key. */
  lemma IncrementGet<K>(d: Dict<K, int>, k: K, k': K)
    ensures Get(Increment(d, k), k').GetOr(0) == Get(d, k').GetOr(0) + if k' == k then 1 else 0
    ensures Get(Increment(d, k), k').Some? <==> Get(d, k').Some? || k' == k
  {
    PutGet(d, k, Get(d, k).GetOr(0) + 1, k');
  }

  /** `d[k].append(v)` on a `defaultdict(list)`: a new key goes last with `[v]`. */
  function AppendTo<K(==), V>(d: Dict<K, seq<V>>, k: K, v: V): Dict<K, seq<V>> {
    Put(d, k, Get(d, k).GetOr([]) + [v])
  }

  /** `d[k].append(v)` extends the list of `k` (empty when absent) by `v` and changes no other key. */
  lemma AppendToGet<K, V>(d: Dict<K, seq<V>>, k: K, v: V, k': K)
    ensures Get(AppendTo(d, k, v), k').GetOr([]) == Get(d, k').GetOr([]) + if k' == k then [v] else []
    ensures Get(AppendTo(d, k, v), k').Some? <==> Get(d, k').Some? || k' == k
  {
    PutGet(d, k, Get(d, k).GetOr([]) + [v], k');
  }

  /** A sequence without repetitions (the key list of a dict, `list(set(...))`). */
  predicate Distinct<T(==)>(s: seq<T>) {
    forall i, j :: 0 <= i < j < |s| ==> s[i] != s[j]
  }

  /** `d[k] = v` keeps the keys distinct. */
  lemma PutDistinct<K, V>(d: Dict<K, V>, k: K, v: V)
    requires DistinctKeys(d)
    ensures DistinctKeys(Put(d, k, v))
  {
    var r := Put(d, k, v);
    PutKeys(d, k, v);
    assert forall i, j :: 0 <= i < j < |r| ==> Keys(r)[i] != Keys(r)[j];
  }

  lemma DistinctKeysOf<K, V>(d: Dict<K, V>)
    ensures DistinctKeys(d) <==> Distinct(Keys(d))
  {
  }

  /** Adding a key the dict does not have keeps the keys distinct. */
  lemma DistinctSnoc<T>(s: seq<T>, x: T)
    requires Distinct(s) && x !in s
    ensures Distinct(s + [x])
  {
  }
}
