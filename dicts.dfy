/**
 * A .NET `Dictionary` that is only ever added to, modelled as its entries
 * in first-insertion order (the order its `Values` and `foreach` walk them
 * when nothing has been removed). Keys are distinct.
 */
module Dicts {

  datatype Entry<K, V> = Entry(key: K, value: V)

  predicate DistinctKeys<K(==), V>(d: seq<Entry<K, V>>) {
    forall i, j :: 0 <= i < j < |d| ==> d[i].key != d[j].key
  }

  /** `TryGetValue`: the position of key `k`, or -1 when it is absent. */
  function Find<K(==), V>(d: seq<Entry<K, V>>, k: K): (i: int)
    ensures -1 <= i < |d|
    ensures 0 <= i ==> d[i].key == k
    ensures i == -1 <==> forall j :: 0 <= j < |d| ==> d[j].key != k
    decreases |d|
  {
    if |d| == 0 then -1
    else if d[|d| - 1].key == k then |d| - 1
    else Find(d[..|d| - 1], k)
  }

  /** The value under `k`, or `absent` when there is none. */
  function GetOr<K(==), V>(d: seq<Entry<K, V>>, k: K, absent: V): V {
    var i := Find(d, k);
    if i < 0 then absent else d[i].value
  }

  /** Replace the value under `k`, or add `k` last when it is absent. */
  function Put<K(==), V>(d: seq<Entry<K, V>>, k: K, v: V): (r: seq<Entry<K, V>>)
    ensures Find(d, k) < 0 ==> |r| == |d| + 1
    ensures Find(d, k) >= 0 ==> |r| == |d|
  {
    var i := Find(d, k);
    if i < 0 then d + [Entry(k, v)] else d[i := Entry(k, v)]
  }

  /** With distinct keys, the lookup finds the one entry with that key. */
  lemma {:induction false} FindDistinct<K, V>(d: seq<Entry<K, V>>, k: K, i: nat)
    requires DistinctKeys(d) && i < |d| && d[i].key == k
    ensures Find(d, k) == i
  {
    var j := Find(d, k);
    assert j != -1;
  }

  /** `Put` keeps keys distinct and the earlier entries' keys in place, and a
    * lookup afterwards sees the new value under `k` and the old one elsewhere. */
  lemma {:induction false} PutGet<K, V>(d: seq<Entry<K, V>>, k: K, v: V, q: K, absent: V)
    requires DistinctKeys(d)
    ensures DistinctKeys(Put(d, k, v))
    ensures forall j :: 0 <= j < |d| ==> Put(d, k, v)[j].key == d[j].key
    ensures Find(Put(d, k, v), q) >= 0 <==> q == k || Find(d, q) >= 0
    ensures GetOr(Put(d, k, v), q, absent) == if q == k then v else GetOr(d, q, absent)
  {
    var r := Put(d, k, v);
    var i := Find(d, k);
    assert forall j :: 0 <= j < |d| ==> r[j].key == d[j].key;
    if i < 0 {
      assert r[|d|].key == k;
    }
    assert DistinctKeys(r);
    if q == k {
      var p := if i < 0 then |d| else i;
      FindDistinct(r, k, p);
    } else {
      var iq := Find(d, q);
      if iq >= 0 {
        FindDistinct(r, q, iq);
      } else {
        assert forall j :: 0 <= j < |r| ==> r[j].key != q;
      }
    }
  }

  /** `Put` leaves every entry under another key where it was, and holds the new one. */
  lemma {:induction false} PutEntries<K, V>(d: seq<Entry<K, V>>, k: K, v: V)
    ensures Entry(k, v) in Put(d, k, v)
    ensures forall e :: e in Put(d, k, v) && e.key != k <==> e in d && e.key != k
  {
    var r := Put(d, k, v);
    var i := Find(d, k);
    if i < 0 {
      assert r == d + [Entry(k, v)];
      assert r[|d|] == Entry(k, v);
    } else {
      assert r[i] == Entry(k, v);
      forall e | e in d && e.key != k
        ensures e in r
      {
        var j :| 0 <= j < |d| && d[j] == e;
        assert r[j] == e;
      }
    }
  }

  /** Two tables with the same keys in the same places find every key in the same place. */
  lemma {:induction false} FindSameKeys<K, V, W>(a: seq<Entry<K, V>>, b: seq<Entry<K, W>>, k: K)
    requires |a| == |b| && forall i :: 0 <= i < |a| ==> a[i].key == b[i].key
    ensures Find(a, k) == Find(b, k)
    decreases |a|
  {
    if |a| > 0 && a[|a| - 1].key != k {
      FindSameKeys(a[..|a| - 1], b[..|b| - 1], k);
    }
  }

  /** Putting under `k` twice: the second value replaces the first in its place. */
  lemma {:induction false} PutAgain<K, V>(d: seq<Entry<K, V>>, k: K, v: V, w: V)
    requires DistinctKeys(d)
    ensures Find(Put(d, k, v), k) >= 0
    ensures Put(Put(d, k, v), k, w) == Put(d, k, v)[Find(Put(d, k, v), k) := Entry(k, w)] == Put(d, k, w)
  {
    var r := Put(d, k, v);
    var i := Find(d, k);
    var p := if i < 0 then |d| else i;
    assert r[p].key == k;
    PutGet(d, k, v, k, v);
    FindDistinct(r, k, p);
    if i < 0 {
      assert r[p := Entry(k, w)] == d + [Entry(k, w)];
    }
  }
}
