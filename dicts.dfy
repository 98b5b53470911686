/**
 * Python dictionaries keep their keys in insertion order, and the core's
 * results depend on that order (the list `compare` returns, the first field
 * bound to an extension, the terms of a query).  A dictionary is therefore
 * an association list whose keys are distinct; `Put` is `d[k] = v`.
 */
module Dicts {
  import opened Wrappers

  type Dict<K, V> = seq<(K, V)>

  ghost predicate KeysDistinct<K, V>(d: Dict<K, V>) {
    forall i, j :: 0 <= i < j < |d| ==> d[i].0 != d[j].0
  }

  ghost predicate Distinct<T>(s: seq<T>) {
    forall i, j :: 0 <= i < j < |s| ==> s[i] != s[j]
  }

  function KeySet<K, V>(d: Dict<K, V>): set<K> {
    set i | 0 <= i < |d| :: d[i].0
  }

  lemma KeySetCons<K, V>(d: Dict<K, V>)
    requires d != []
    ensures KeySet(d) == {d[0].0} + KeySet(d[1..])
  {
    forall k | k in KeySet(d) ensures k in {d[0].0} + KeySet(d[1..]) {
      var i :| 0 <= i < |d| && d[i].0 == k;
      if i > 0 {
        assert d[1..][i - 1].0 == k;
      }
    }
    forall k | k in KeySet(d[1..]) ensures k in KeySet(d) {
      var i :| 0 <= i < |d[1..]| && d[1..][i].0 == k;
      assert d[i + 1].0 == k;
    }
  }

  lemma KeySetAppend<K, V>(a: Dict<K, V>, b: Dict<K, V>)
    ensures KeySet(a + b) == KeySet(a) + KeySet(b)
  {
    forall k | k in KeySet(a + b) ensures k in KeySet(a) + KeySet(b) {
      var i :| 0 <= i < |a + b| && (a + b)[i].0 == k;
      if i >= |a| {
        assert b[i - |a|].0 == k;
      }
    }
    forall k | k in KeySet(b) ensures k in KeySet(a + b) {
      var i :| 0 <= i < |b| && b[i].0 == k;
      assert (a + b)[i + |a|].0 == k;
    }
    forall k | k in KeySet(a) ensures k in KeySet(a + b) {
      var i :| 0 <= i < |a| && a[i].0 == k;
      assert (a + b)[i].0 == k;
    }
  }

  lemma KeySetPrefix<K, V>(d: Dict<K, V>, i: nat)
    requires i < |d|
    ensures KeySet(d[..i + 1]) == KeySet(d[..i]) + {d[i].0}
  {
    KeySetAppend(d[..i], [d[i]]);
    assert d[..i + 1] == d[..i] + [d[i]];
    assert KeySet([d[i]]) == {d[i].0} by { assert [d[i]][0].0 == d[i].0; }
  }

  /** `d.keys()` */
  function Keys<K, V>(d: Dict<K, V>): (ks: seq<K>)
    ensures |ks| == |d| && forall i :: 0 <= i < |d| ==> ks[i] == d[i].0
  {
    seq(|d|, i requires 0 <= i < |d| => d[i].0)
  }

  /** `d.values()` */
  function Values<K, V>(d: Dict<K, V>): (vs: seq<V>)
    ensures |vs| == |d| && forall i :: 0 <= i < |d| ==> vs[i] == d[i].1
  {
    seq(|d|, i requires 0 <= i < |d| => d[i].1)
  }

  function ValueSet<K, V>(d: Dict<K, V>): set<V> {
    set i | 0 <= i < |d| :: d[i].1
  }

  /** `d.get(k)` */
  function Get<K(==), V>(d: Dict<K, V>, k: K): (r: Option<V>)
    ensures r.Some? <==> k in KeySet(d)
    ensures r.Some? ==> exists i :: 0 <= i < |d| && d[i].0 == k && d[i].1 == r.value
  {
    if d == [] then None
    else
      KeySetCons(d);
      if d[0].0 == k then Some(d[0].1)
      else
        var r := Get(d[1..], k);
        assert r.Some? ==> exists i :: 0 <= i < |d| && d[i].0 == k && d[i].1 == r.value by {
          if r.Some? {
            var i :| 0 <= i < |d[1..]| && d[1..][i].0 == k && d[1..][i].1 == r.value;
            assert d[i + 1].0 == k && d[i + 1].1 == r.value;
          }
        }
        r
  }

  /** `d[k] = v`: an existing key keeps its position, a new key goes last. */
  function Put<K(==), V>(d: Dict<K, V>, k: K, v: V): (r: Dict<K, V>)
    ensures KeySet(r) == KeySet(d) + {k}
    ensures |r| == if k in KeySet(d) then |d| else |d| + 1
    ensures k !in KeySet(d) ==> r == d + [(k, v)]
    ensures forall i :: 0 <= i < |d| ==> r[i] == d[i] || (d[i].0 == k && r[i] == (k, v))
  {
    if d == [] then
      assert KeySet([(k, v)]) == {k} by { assert [(k, v)][0].0 == k; }
      [(k, v)]
    else
      KeySetCons(d);
      var r := if d[0].0 == k then [(k, v)] + d[1..] else [d[0]] + Put(d[1..], k, v);
      KeySetCons(r);
      assert r[1..] == if d[0].0 == k then d[1..] else Put(d[1..], k, v);
      r
  }

  lemma {:induction false} PutGet<K, V>(d: Dict<K, V>, k: K, v: V, k': K)
    ensures Get(Put(d, k, v), k') == if k' == k then Some(v) else Get(d, k')
  {
    if d != [] && d[0].0 != k {
      PutGet(d[1..], k, v, k');
    }
  }

  lemma {:induction false} PutKeepsKeysDistinct<K, V>(d: Dict<K, V>, k: K, v: V)
    requires KeysDistinct(d)
    ensures KeysDistinct(Put(d, k, v))
  {
    if d != [] && d[0].0 != k {
      PutKeepsKeysDistinct(d[1..], k, v);
      var r := Put(d, k, v);
      KeySetCons(d);
      assert d[0].0 !in KeySet(d[1..]);
      forall j | 0 < j < |r| ensures r[0].0 != r[j].0 {
        assert r[j].0 in KeySet(Put(d[1..], k, v)) by {
          assert r[j] == Put(d[1..], k, v)[j - 1];
        }
      }
    }
  }

  /** Writing back the value a key already has changes nothing. */
  lemma {:induction false} PutExisting<K, V>(d: Dict<K, V>, k: K)
    requires Get(d, k).Some?
    ensures Put(d, k, Get(d, k).value) == d
  {
    if d[0].0 != k {
      PutExisting(d[1..], k);
    }
  }

  /** `zip(a, b)`: pairs up to the shorter of the two. */
  function Zip<A, B>(a: seq<A>, b: seq<B>): (r: seq<(A, B)>)
    ensures |r| == if |a| < |b| then |a| else |b|
    ensures forall i :: 0 <= i < |r| ==> r[i] == (a[i], b[i])
  {
    if a == [] || b == [] then [] else [(a[0], b[0])] + Zip(a[1..], b[1..])
  }

  /** `for k, v in pairs: d[k] = v`: a later pair overwrites an earlier
      one with the same key. */
  function PutAll<K(==), V>(d: Dict<K, V>, pairs: seq<(K, V)>): (r: Dict<K, V>)
    ensures KeySet(r) == KeySet(d) + KeySet(pairs)
  {
    if pairs == [] then d
    else
      var n := |pairs| - 1;
      KeySetPrefix(pairs, n);
      assert pairs[..n + 1] == pairs;
      Put(PutAll(d, pairs[..n]), pairs[n].0, pairs[n].1)
  }

  /** `dict(pairs)` */
  function DictOf<K(==), V>(pairs: seq<(K, V)>): (d: Dict<K, V>)
    ensures KeySet(d) == KeySet(pairs)
  {
    PutAll([], pairs)
  }

  /** With distinct keys, `dict(pairs)` keeps every pair, in order. */
  lemma {:induction false} DictOfDistinct<K, V>(pairs: seq<(K, V)>)
    requires KeysDistinct(pairs)
    ensures DictOf(pairs) == pairs
  {
    if pairs != [] {
      var n := |pairs| - 1;
      assert KeysDistinct(pairs[..n]);
      DictOfDistinct(pairs[..n]);
      assert pairs[n].0 !in KeySet(pairs[..n]);
      assert pairs[..n] + [pairs[n]] == pairs;
    }
  }

  lemma PutAllSnoc<K, V>(d: Dict<K, V>, pairs: seq<(K, V)>, k: K, v: V)
    ensures PutAll(d, pairs + [(k, v)]) == Put(PutAll(d, pairs), k, v)
  {
    assert (pairs + [(k, v)])[..|pairs|] == pairs;
  }

  /** Two loops in a row are one loop over both sequences. */
  lemma {:induction false} PutAllAppend<K, V>(d: Dict<K, V>, a: seq<(K, V)>, b: seq<(K, V)>)
    ensures PutAll(PutAll(d, a), b) == PutAll(d, a + b)
  {
    if b == [] {
      assert a + b == a;
    } else {
      var n := |b| - 1;
      var x := (b[n].0, b[n].1);
      assert b == b[..n] + [x];
      assert a + b == (a + b[..n]) + [x];
      calc {
        PutAll(PutAll(d, a), b);
        { PutAllSnoc(PutAll(d, a), b[..n], x.0, x.1); }
        Put(PutAll(PutAll(d, a), b[..n]), x.0, x.1);
        { PutAllAppend(d, a, b[..n]); }
        Put(PutAll(d, a + b[..n]), x.0, x.1);
        { PutAllSnoc(d, a + b[..n], x.0, x.1); }
        PutAll(d, a + b);
      }
    }
  }

  /** The value of the last pair with key `k`. */
  ghost function LastValue<K, V>(pairs: seq<(K, V)>, k: K): V
    requires k in KeySet(pairs)
  {
    var n := |pairs| - 1;
    KeySetPrefix(pairs, n);
    assert pairs[..n + 1] == pairs;
    if pairs[n].0 == k then pairs[n].1 else LastValue(pairs[..n], k)
  }

  /** After the loop every written key holds its last value; the others
      hold what they held before. */
  lemma {:induction false} PutAllGet<K, V>(d: Dict<K, V>, pairs: seq<(K, V)>, k: K)
    ensures Get(PutAll(d, pairs), k) == if k in KeySet(pairs) then Some(LastValue(pairs, k)) else Get(d, k)
  {
    if pairs != [] {
      var n := |pairs| - 1;
      KeySetPrefix(pairs, n);
      assert pairs[..n + 1] == pairs;
      PutGet(PutAll(d, pairs[..n]), pairs[n].0, pairs[n].1, k);
      PutAllGet(d, pairs[..n], k);
    }
  }

  lemma {:induction false} PutAllKeepsKeysDistinct<K, V>(d: Dict<K, V>, pairs: seq<(K, V)>)
    requires KeysDistinct(d)
    ensures KeysDistinct(PutAll(d, pairs))
  {
    if pairs != [] {
      var n := |pairs| - 1;
      PutAllKeepsKeysDistinct(d, pairs[..n]);
      PutKeepsKeysDistinct(PutAll(d, pairs[..n]), pairs[n].0, pairs[n].1);
    }
  }

  /** Writing only keys that are already present keeps every key in place. */
  lemma {:induction false} PutAllKeepsOrder<K, V>(d: Dict<K, V>, pairs: seq<(K, V)>)
    requires KeySet(pairs) <= KeySet(d)
    ensures |PutAll(d, pairs)| == |d|
    ensures forall i :: 0 <= i < |d| ==> PutAll(d, pairs)[i].0 == d[i].0
  {
    if pairs != [] {
      var n := |pairs| - 1;
      KeySetPrefix(pairs, n);
      PutAllKeepsOrder(d, pairs[..n]);
      assert pairs[..n + 1] == pairs;
    }
  }

  lemma GetAt<K, V>(d: Dict<K, V>, i: nat)
    requires KeysDistinct(d) && i < |d|
    ensures Get(d, d[i].0) == Some(d[i].1)
  {
    var r := Get(d, d[i].0);
    var j :| 0 <= j < |d| && d[j].0 == d[i].0 && d[j].1 == r.value;
  }

  /** Two dictionaries with the same keys in the same order and the same
      value at every key are equal. */
  lemma DictsEqual<K, V>(a: Dict<K, V>, b: Dict<K, V>)
    requires KeysDistinct(a) && |a| == |b|
    requires forall i :: 0 <= i < |a| ==> a[i].0 == b[i].0
    requires forall k :: Get(a, k) == Get(b, k)
    ensures a == b
  {
    assert KeysDistinct(b);
    forall i | 0 <= i < |a| ensures a[i] == b[i] {
      GetAt(a, i);
      GetAt(b, i);
    }
  }

  /** Running the same sequence of writes twice is the same as running it once. */
  lemma PutAllIdempotent<K, V>(d: Dict<K, V>, pairs: seq<(K, V)>)
    requires KeysDistinct(d)
    ensures PutAll(PutAll(d, pairs), pairs) == PutAll(d, pairs)
  {
    var e := PutAll(d, pairs);
    PutAllKeepsKeysDistinct(d, pairs);
    PutAllKeepsOrder(e, pairs);
    forall k ensures Get(PutAll(e, pairs), k) == Get(e, k) {
      PutAllGet(e, pairs, k);
      PutAllGet(d, pairs, k);
    }
    DictsEqual(PutAll(e, pairs), e);
  }
}
