/**
 Partitioning by key is sound and complete: a history is linearizable against the store
 exactly when, for every key, its operations on that key are linearizable on their own.
 The hard direction merges the per-key orders by linearization points.
 */
module Locality {
  import opened Collections
  import opened Linearizability
  import opened Kv

  /** The ids of the operations on a key, increasing. */
  ghost function IdsOfKey(h: KvOps, key: string): seq<nat> {
    if h == [] then []
    else IdsOfKey(h[..|h| - 1], key) + if h[|h| - 1].input.key == key then [|h| - 1] else []
  }

  lemma {:induction false} IdsOfKeyAre(h: KvOps, key: string)
    ensures |IdsOfKey(h, key)| == |OfKey(h, key)|
    ensures InRange(|h|, IdsOfKey(h, key)) && Distinct(IdsOfKey(h, key))
    ensures forall i, j | 0 <= i < j < |IdsOfKey(h, key)| :: IdsOfKey(h, key)[i] < IdsOfKey(h, key)[j]
    ensures forall j | 0 <= j < |IdsOfKey(h, key)| :: OfKey(h, key)[j] == h[IdsOfKey(h, key)[j]]
    ensures forall x: nat :: x in IdsOfKey(h, key) <==> x < |h| && h[x].input.key == key
  {
    if h != [] { IdsOfKeyAre(h[..|h| - 1], key); }
  }

  /** q orders exactly the operations on a key, in real time and as one key's value allows. */
  ghost predicate KeyOrder(h: KvOps, key: string, q: seq<nat>) {
    && InRange(|h|, q) && Distinct(q)
    && (forall x: nat :: x in q <==> x < |h| && h[x].input.key == key)
    && RespectsRealTime(h, q)
    && Legal(KvModel(), h, "", q)
  }

  lemma {:induction false} LegalSame<S, I, O>(m: Model<S, I, O>, a: seq<Operation<I, O>>, q: seq<nat>,
      b: seq<Operation<I, O>>, r: seq<nat>, s: S)
    requires InRange(|a|, q) && InRange(|b|, r) && |q| == |r|
    requires forall j | 0 <= j < |q| :: a[q[j]] == b[r[j]]
    ensures Legal(m, a, s, q) <==> Legal(m, b, s, r)
  {
    if q != [] {
      assert forall j | 0 <= j < |q| - 1 :: a[q[1..][j]] == b[r[1..][j]] by {
        assert forall j | 0 <= j < |q| - 1 :: q[1..][j] == q[j + 1] && r[1..][j] == r[j + 1];
      }
      LegalSame(m, a, q[1..], b, r[1..], StepOp(m, a, s, q[0]).1);
    }
  }

  lemma SameElements(a: seq<nat>, b: seq<nat>)
    requires Distinct(a) && Distinct(b) && forall x :: x in a <==> x in b
    ensures |a| == |b|
  {
    DistinctSize(a);
    DistinctSize(b);
    assert Elements(a) == Elements(b);
  }

  lemma AllPositions(q: seq<nat>, i: nat)
    requires InRange(|q|, q) && Distinct(q) && i < |q|
    ensures i in q
  {
    DistinctSize(q);
    BelowSize(|q|, Elements(q));
    assert i in Elements(q);
  }

  /** Renaming a permutation of the positions of ids by ids gives the elements of ids, each once. */
  lemma MappedElements(ids: seq<nat>, q: seq<nat>, r: seq<nat>)
    requires Distinct(ids) && |q| == |ids| == |r| && InRange(|ids|, q) && Distinct(q)
    requires forall j | 0 <= j < |q| :: r[j] == ids[q[j]]
    ensures Distinct(r) && forall x :: x in r <==> x in ids
  {
    forall x | x in ids ensures x in r {
      var i :| 0 <= i < |ids| && ids[i] == x;
      AllPositions(q, i);
      var j :| 0 <= j < |q| && q[j] == i;
      assert r[j] == x;
    }
    forall x | x in r ensures x in ids { var j :| 0 <= j < |r| && r[j] == x; }
  }

  lemma PartToKeyOrder(h: KvOps, key: string, q: seq<nat>) returns (r: seq<nat>)
    requires IsLinearization(KvModel(), OfKey(h, key), q)
    ensures KeyOrder(h, key, r)
  {
    hide Legal, OfKey, IdsOfKey;
    var ids := IdsOfKey(h, key);
    var part := OfKey(h, key);
    IdsOfKeyAre(h, key);
    r := seq(|q|, j requires 0 <= j < |q| => ids[q[j]]);
    MappedElements(ids, q, r);
    forall i, j | 0 <= i < j < |r| ensures !Precedes(h, r[j], r[i]) { assert !Precedes(part, q[j], q[i]); }
    LegalSame(KvModel(), part, q, h, r, "");
  }

  ghost function IndexIn(ids: seq<nat>, x: nat): (i: nat)
    requires x in ids
    ensures i < |ids| && ids[i] == x
  {
    var i :| 0 <= i < |ids| && ids[i] == x;
    i
  }

  lemma KeyOrderToPart(h: KvOps, key: string, r: seq<nat>) returns (q: seq<nat>)
    requires KeyOrder(h, key, r)
    ensures IsLinearization(KvModel(), OfKey(h, key), q)
  {
    hide Legal;
    var ids := IdsOfKey(h, key);
    var part := OfKey(h, key);
    IdsOfKeyAre(h, key);
    SameElements(r, ids);
    assert forall j | 0 <= j < |r| :: r[j] in ids by { assert forall j | 0 <= j < |r| :: r[j] in r; }
    q := seq(|r|, j requires 0 <= j < |r| => IndexIn(ids, r[j]));
    forall i, j | 0 <= i < j < |q| ensures !Precedes(part, q[j], q[i]) { assert !Precedes(h, r[j], r[i]); }
    LegalSame(KvModel(), part, q, h, r, "");
  }

  /* ---- projecting an order of all operations onto one key ---- */

  ghost function Sub(h: KvOps, q: seq<nat>, key: string): seq<nat>
    requires InRange(|h|, q)
  {
    if q == [] then [] else (if h[q[0]].input.key == key then [q[0]] else []) + Sub(h, q[1..], key)
  }

  lemma {:induction false} SubElements(h: KvOps, q: seq<nat>, key: string)
    requires InRange(|h|, q)
    ensures InRange(|h|, Sub(h, q, key))
    ensures forall x :: x in Sub(h, q, key) <==> x in q && h[x].input.key == key
  {
    if q != [] {
      SubElements(h, q[1..], key);
      assert forall x :: x in q <==> x == q[0] || x in q[1..];
    }
  }

  ghost predicate Ordered(h: KvOps, q: seq<nat>)
    requires InRange(|h|, q)
  {
    Distinct(q) && RespectsRealTime(h, q)
  }

  lemma OrderedCons(h: KvOps, x: nat, t: seq<nat>)
    requires x < |h| && InRange(|h|, t)
    ensures InRange(|h|, [x] + t)
    ensures Ordered(h, [x] + t) <==> Ordered(h, t) && forall y | y in t :: y != x && !Precedes(h, y, x)
  {
    var q := [x] + t;
    if Ordered(h, q) {
      forall y | y in t ensures y != x && !Precedes(h, y, x) {
        var i :| 0 <= i < |t| && t[i] == y;
        assert q[i + 1] == y && q[0] == x;
      }
      forall i, j | 0 <= i < j < |t| ensures t[i] != t[j] && !Precedes(h, t[j], t[i]) {
        assert q[i + 1] == t[i] && q[j + 1] == t[j];
      }
    }
    if Ordered(h, t) && forall y | y in t :: y != x && !Precedes(h, y, x) {
      forall i, j | 0 <= i < j < |q| ensures q[i] != q[j] && !Precedes(h, q[j], q[i]) {
        assert q[j] == t[j - 1] && t[j - 1] in t;
        if i > 0 { assert q[i] == t[i - 1]; }
      }
    }
  }

  /** The projection keeps the order, so it keeps real time. */
  lemma {:induction false} SubOrdered(h: KvOps, q: seq<nat>, key: string)
    requires InRange(|h|, q) && Ordered(h, q)
    ensures InRange(|h|, Sub(h, q, key)) && Ordered(h, Sub(h, q, key))
  {
    hide Ordered;
    SubElements(h, q, key);
    if q == [] {
      EmptyOrdered(h);
    } else {
      var x, t := q[0], q[1..];
      assert q == [x] + t;
      OrderedCons(h, x, t);
      SubOrdered(h, t, key);
      SubElements(h, t, key);
      OrderedCons(h, x, Sub(h, t, key));
      assert Sub(h, q, key) == if h[x].input.key == key then [x] + Sub(h, t, key) else Sub(h, t, key);
    }
  }

  lemma EmptyOrdered(h: KvOps)
    ensures Ordered(h, [])
  {
  }

  /** Putting x in front changes the order of its own key alone. */
  lemma SubCons(h: KvOps, x: nat, t: seq<nat>, k: string)
    requires x < |h| && InRange(|h|, t)
    ensures InRange(|h|, Sub(h, t, k)) && InRange(|h|, [x] + t)
    ensures Sub(h, [x] + t, k) == if h[x].input.key == k then [x] + Sub(h, t, k) else Sub(h, t, k)
  {
    SubElements(h, t, k);
    assert ([x] + t)[1..] == t;
  }

  /** One step of the store is a step of the value of its key, and leaves the other values alone. */
  lemma StoreByKey(h: KvOps, x: nat, s: Store, k: string)
    requires x < |h|
    ensures var (ok, s') := StepOp(StoreModel(), h, s, x);
            if h[x].input.key == k then StepOp(KvModel(), h, Get(s, k), x) == (ok, Get(s', k))
                else Get(s', k) == Get(s, k)
  {
  }

  lemma LegalCons<S, I, O>(m: Model<S, I, O>, h: seq<Operation<I, O>>, s: S, x: nat, t: seq<nat>)
    requires x < |h| && InRange(|h|, t)
    ensures InRange(|h|, [x] + t)
    ensures Legal(m, h, s, [x] + t) <==> StepOp(m, h, s, x).0 && Legal(m, h, StepOp(m, h, s, x).1, t)
  {
    assert ([x] + t)[1..] == t;
  }

  lemma StepByKey(h: KvOps, x: nat, t: seq<nat>, s: Store, k: string)
    requires x < |h| && InRange(|h|, t)
    ensures InRange(|h|, Sub(h, t, k)) && InRange(|h|, Sub(h, [x] + t, k))
    ensures var (ok, s') := StepOp(StoreModel(), h, s, x);
            Legal(KvModel(), h, Get(s, k), Sub(h, [x] + t, k)) <==>
              (h[x].input.key == k ==> ok) && Legal(KvModel(), h, Get(s', k), Sub(h, t, k))
  {
    hide Sub, Legal, StepOp, Get, StoreModel, KvModel;
    SubCons(h, x, t, k);
    SubElements(h, [x] + t, k);
    StoreByKey(h, x, s, k);
    LegalCons(KvModel(), h, Get(s, k), x, Sub(h, t, k));
  }

  /** The store allows an order exactly when every key's value allows its part of it. */
  lemma {:induction false} LegalByKey(h: KvOps, q: seq<nat>, s: Store)
    requires InRange(|h|, q)
    ensures (forall k :: InRange(|h|, Sub(h, q, k)))
            && (Legal(StoreModel(), h, s, q) <==> forall k :: Legal(KvModel(), h, Get(s, k), Sub(h, q, k)))
    decreases |q|
  {
    forall k ensures InRange(|h|, Sub(h, q, k)) { SubElements(h, q, k); }
    if q == [] {
      assert forall k :: Sub(h, q, k) == [];
    } else {
      var t, x := q[1..], q[0];
      var (ok, s') := StepOp(StoreModel(), h, s, x);
      assert q == [x] + t;
      LegalByKey(h, t, s');
      assert Legal(StoreModel(), h, s, q) <==> ok && Legal(StoreModel(), h, s', t);
      hide Sub, Legal, StepOp, Get, StoreModel, KvModel;
      forall k ensures Legal(KvModel(), h, Get(s, k), Sub(h, q, k)) <==>
                         (h[x].input.key == k ==> ok) && Legal(KvModel(), h, Get(s', k), Sub(h, t, k))
      {
        StepByKey(h, x, t, s, k);
      }
      if forall k :: Legal(KvModel(), h, Get(s, k), Sub(h, q, k)) {
        assert Legal(KvModel(), h, Get(s, h[x].input.key), Sub(h, q, h[x].input.key));
        forall k ensures Legal(KvModel(), h, Get(s', k), Sub(h, t, k)) {
          assert Legal(KvModel(), h, Get(s, k), Sub(h, q, k));
        }
      }
      if ok && Legal(StoreModel(), h, s', t) {
        forall k ensures Legal(KvModel(), h, Get(s, k), Sub(h, q, k)) {
          assert Legal(KvModel(), h, Get(s', k), Sub(h, t, k));
        }
      }
    }
  }

  /** The easy direction: the parts of a linearizable history are linearizable. */
  lemma PartsLinearizable(h: KvOps, q: seq<nat>, key: string)
    requires IsLinearization(StoreModel(), h, q)
    ensures Linearizable(KvModel(), OfKey(h, key))
  {
    DistinctSize(q);
    BelowSize(|h|, Elements(q));
    SubElements(h, q, key);
    SubOrdered(h, q, key);
    LegalByKey(h, q, map[]);
    assert Legal(KvModel(), h, Get(map[], key), Sub(h, q, key));
    forall x: nat | x < |h| ensures x in q { assert x in Elements(q); }
    var r := KeyOrderToPart(h, key, Sub(h, q, key));
  }

  /* ---- merging the orders of the keys by linearization points ---- */

  /** The latest call among the operations of q. */
  ghost function LastCall(h: KvOps, q: seq<nat>): int
    requires q != [] && InRange(|h|, q)
  {
    var c := h[q[|q| - 1]].call;
    if |q| == 1 then c else var r := LastCall(h, q[..|q| - 1]); if c > r then c else r
  }

  /** A point at which x may take effect when q is the order of its key: the latest call up to x. */
  ghost function Point(h: KvOps, q: seq<nat>, x: nat): int
    requires InRange(|h|, q)
  {
    if q == [] then 0
    else if x == q[|q| - 1] then LastCall(h, q)
    else Point(h, q[..|q| - 1], x)
  }

  lemma {:induction false} LastCallBounds(h: KvOps, q: seq<nat>, bound: int)
    requires q != [] && InRange(|h|, q) && forall x | x in q :: h[x].call <= bound
    ensures LastCall(h, q) <= bound
    ensures h[q[|q| - 1]].call <= LastCall(h, q)
  {
    assert q[|q| - 1] in q;
    if |q| > 1 {
      assert forall x | x in q[..|q| - 1] :: x in q;
      LastCallBounds(h, q[..|q| - 1], bound);
    }
  }

  /** Points lie within their operations, and increase along the order. */
  lemma {:induction false} PointsFit(h: KvOps, q: seq<nat>)
    requires InRange(|h|, q) && Ordered(h, q) && WellTimed(h)
    ensures forall x | x in q :: h[x].call <= Point(h, q, x) <= h[x].ret
    ensures forall i, j | 0 <= i <= j < |q| :: Point(h, q, q[i]) <= Point(h, q, q[j])
    ensures q != [] ==> Point(h, q, q[|q| - 1]) == LastCall(h, q)
  {
    if q != [] {
      var t, z := q[..|q| - 1], q[|q| - 1];
      PointsFit(h, t);
      forall x | x in q ensures h[x].call <= h[z].ret {
        var i :| 0 <= i < |q| && q[i] == x;
        if i < |q| - 1 { assert !Precedes(h, q[|q| - 1], q[i]); }
      }
      LastCallBounds(h, q, h[z].ret);
      forall x | x in q ensures h[x].call <= Point(h, q, x) <= h[x].ret {
        if x != z { assert x in t; }
      }
      forall i, j | 0 <= i <= j < |q| ensures Point(h, q, q[i]) <= Point(h, q, q[j]) {
        if j < |q| - 1 {
          assert q[i] == t[i] && q[j] == t[j];
        } else if i < |q| - 1 {
          assert q[i] == t[i] && Point(h, t, t[i]) <= Point(h, t, t[|t| - 1]);
        }
      }
    }
  }

  ghost predicate SortedByPoint(pt: seq<int>, q: seq<nat>)
    requires InRange(|pt|, q)
  {
    forall i, j | 0 <= i <= j < |q| :: pt[q[i]] <= pt[q[j]]
  }

  lemma SortedCons(pt: seq<int>, x: nat, t: seq<nat>)
    requires x < |pt| && InRange(|pt|, t)
    ensures InRange(|pt|, [x] + t)
    ensures SortedByPoint(pt, [x] + t) <==> SortedByPoint(pt, t) && forall y | y in t :: pt[x] <= pt[y]
  {
    var q := [x] + t;
    if SortedByPoint(pt, q) {
      forall y | y in t ensures pt[x] <= pt[y] {
        var i :| 0 <= i < |t| && t[i] == y;
        assert q[i + 1] == y && q[0] == x;
      }
      forall i, j | 0 <= i <= j < |t| ensures pt[t[i]] <= pt[t[j]] { assert q[i + 1] == t[i] && q[j + 1] == t[j]; }
    }
    if SortedByPoint(pt, t) && forall y | y in t :: pt[x] <= pt[y] {
      forall i, j | 0 <= i <= j < |q| ensures pt[q[i]] <= pt[q[j]] {
        if j > 0 { assert q[j] == t[j - 1] && t[j - 1] in t; }
        if i > 0 { assert q[i] == t[i - 1]; }
      }
    }
  }

  ghost function Merge(pt: seq<int>, a: seq<nat>, b: seq<nat>): seq<nat>
    requires InRange(|pt|, a) && InRange(|pt|, b)
    decreases |a| + |b|
  {
    if a == [] then b
    else if b == [] then a
    else if pt[a[0]] <= pt[b[0]] then [a[0]] + Merge(pt, a[1..], b)
    else [b[0]] + Merge(pt, a, b[1..])
  }

  lemma {:induction false} MergeElements(pt: seq<int>, a: seq<nat>, b: seq<nat>)
    requires InRange(|pt|, a) && InRange(|pt|, b)
    ensures InRange(|pt|, Merge(pt, a, b)) && |Merge(pt, a, b)| == |a| + |b|
    ensures forall x :: x in Merge(pt, a, b) <==> x in a || x in b
    decreases |a| + |b|
  {
    if a != [] && b != [] {
      if pt[a[0]] <= pt[b[0]] {
        MergeElements(pt, a[1..], b);
        assert forall x :: x in a <==> x == a[0] || x in a[1..];
      } else {
        MergeElements(pt, a, b[1..]);
        assert forall x :: x in b <==> x == b[0] || x in b[1..];
      }
    }
  }

  lemma {:induction false} MergeSorted(pt: seq<int>, a: seq<nat>, b: seq<nat>)
    requires InRange(|pt|, a) && InRange(|pt|, b) && SortedByPoint(pt, a) && SortedByPoint(pt, b)
    ensures InRange(|pt|, Merge(pt, a, b)) && SortedByPoint(pt, Merge(pt, a, b))
    decreases |a| + |b|
  {
    hide SortedByPoint;
    MergeElements(pt, a, b);
    if a != [] && b != [] {
      var x, ta, y, tb := a[0], a[1..], b[0], b[1..];
      assert a == [x] + ta && b == [y] + tb;
      SortedCons(pt, x, ta);
      SortedCons(pt, y, tb);
      if pt[x] <= pt[y] {
        MergeSorted(pt, ta, b);
        MergeElements(pt, ta, b);
        SortedCons(pt, x, Merge(pt, ta, b));
      } else {
        MergeSorted(pt, a, tb);
        MergeElements(pt, a, tb);
        SortedCons(pt, y, Merge(pt, a, tb));
      }
    }
  }

  lemma {:induction false} SubAll(h: KvOps, q: seq<nat>, key: string)
    requires InRange(|h|, q)
    ensures (forall x | x in q :: h[x].input.key == key) ==> Sub(h, q, key) == q
    ensures (forall x | x in q :: h[x].input.key != key) ==> Sub(h, q, key) == []
  {
    if q != [] {
      assert q[0] in q && forall x | x in q[1..] :: x in q;
      SubAll(h, q[1..], key);
    }
  }

  /** Merging in operations on other keys leaves the projection onto a key alone. */
  lemma {:induction false} MergeSubLeft(h: KvOps, pt: seq<int>, a: seq<nat>, b: seq<nat>, key: string)
    requires |pt| == |h| && InRange(|pt|, a) && InRange(|pt|, b) && Sub(h, b, key) == []
    ensures InRange(|pt|, Merge(pt, a, b)) && Sub(h, Merge(pt, a, b), key) == Sub(h, a, key)
    decreases |a| + |b|
  {
    MergeElements(pt, a, b);
    if a != [] && b != [] {
      var x, ta, y, tb := a[0], a[1..], b[0], b[1..];
      assert a == [x] + ta && b == [y] + tb;
      hide Sub;
      SubCons(h, x, ta, key);
      SubCons(h, y, tb, key);
      if pt[x] <= pt[y] {
        MergeSubLeft(h, pt, ta, b, key);
        SubCons(h, x, Merge(pt, ta, b), key);
      } else {
        MergeSubLeft(h, pt, a, tb, key);
        SubCons(h, y, Merge(pt, a, tb), key);
      }
    }
  }

  /** The same with the sides exchanged. */
  lemma {:induction false} MergeSubRight(h: KvOps, pt: seq<int>, a: seq<nat>, b: seq<nat>, key: string)
    requires |pt| == |h| && InRange(|pt|, a) && InRange(|pt|, b) && Sub(h, a, key) == []
    ensures InRange(|pt|, Merge(pt, a, b)) && Sub(h, Merge(pt, a, b), key) == Sub(h, b, key)
    decreases |a| + |b|
  {
    MergeElements(pt, a, b);
    if a != [] && b != [] {
      var x, ta, y, tb := a[0], a[1..], b[0], b[1..];
      assert a == [x] + ta && b == [y] + tb;
      hide Sub;
      SubCons(h, x, ta, key);
      SubCons(h, y, tb, key);
      if pt[x] <= pt[y] {
        MergeSubRight(h, pt, ta, b, key);
        SubCons(h, x, Merge(pt, ta, b), key);
      } else {
        MergeSubRight(h, pt, a, tb, key);
        SubCons(h, y, Merge(pt, a, tb), key);
      }
    }
  }

  lemma DistinctCons(x: nat, t: seq<nat>)
    ensures Distinct([x] + t) <==> x !in t && Distinct(t)
  {
    var q := [x] + t;
    if x in t {
      var i :| 0 <= i < |t| && t[i] == x;
      assert !Distinct(q) by { assert q[0] == q[i + 1]; }
    } else {
      assert Distinct(q) ==> Distinct(t) by {
        assert forall i | 0 <= i < |t| :: t[i] == q[i + 1];
      }
      if Distinct(t) {
        forall i, j | 0 <= i < j < |q| ensures q[i] != q[j] {
          assert q[j] == t[j - 1] && t[j - 1] in t;
          if i > 0 { assert q[i] == t[i - 1]; }
        }
      }
    }
  }

  lemma {:induction false} MergeDistinct(pt: seq<int>, a: seq<nat>, b: seq<nat>)
    requires InRange(|pt|, a) && InRange(|pt|, b) && Distinct(a) && Distinct(b) && forall x | x in a :: x !in b
    ensures Distinct(Merge(pt, a, b))
    decreases |a| + |b|
  {
    hide Distinct;
    if a != [] && b != [] {
      var x, ta, y, tb := a[0], a[1..], b[0], b[1..];
      assert a == [x] + ta && b == [y] + tb;
      DistinctCons(x, ta);
      DistinctCons(y, tb);
      if pt[x] <= pt[y] {
        MergeDistinct(pt, ta, b);
        MergeElements(pt, ta, b);
        DistinctCons(x, Merge(pt, ta, b));
      } else {
        MergeDistinct(pt, a, tb);
        MergeElements(pt, a, tb);
        DistinctCons(y, Merge(pt, a, tb));
      }
    }
  }

  /** An order for each key, and the points it gives to the operations on it. */
  ghost predicate Pointed(h: KvOps, lin: map<string, seq<nat>>, pt: seq<int>) {
    && |pt| == |h|
    && (forall k | k in lin :: KeyOrder(h, k, lin[k]) && SortedByPoint(pt, lin[k]))
    && (forall x: nat | x < |h| :: h[x].call <= pt[x] <= h[x].ret)
  }

  /** q merges the orders of some of the keys. */
  ghost predicate Merges(h: KvOps, lin: map<string, seq<nat>>, pt: seq<int>, keys: set<string>, q: seq<nat>) {
    && |pt| == |h| && keys <= lin.Keys
    && InRange(|h|, q) && Distinct(q) && SortedByPoint(pt, q)
    && (forall x: nat :: x in q <==> x < |h| && h[x].input.key in keys)
    && (forall k | k in lin :: Sub(h, q, k) == if k in keys then lin[k] else [])
  }

  lemma MergeOneSub(h: KvOps, pt: seq<int>, q: seq<nat>, b: seq<nat>, key: string, k: string)
    requires |pt| == |h| && InRange(|pt|, q) && InRange(|pt|, b)
    requires (forall x | x in b :: h[x].input.key == key) && Sub(h, q, key) == []
    ensures InRange(|pt|, Merge(pt, q, b)) && Sub(h, Merge(pt, q, b), k) == if k == key then b else Sub(h, q, k)
  {
    SubAll(h, b, k);
    if k == key { MergeSubRight(h, pt, q, b, k); } else { MergeSubLeft(h, pt, q, b, k); }
  }

  lemma MergeOne(h: KvOps, lin: map<string, seq<nat>>, pt: seq<int>, keys: set<string>, q: seq<nat>, key: string)
      returns (r: seq<nat>)
    requires Pointed(h, lin, pt) && Merges(h, lin, pt, keys, q) && key in lin && key !in keys
    ensures Merges(h, lin, pt, keys + {key}, r)
  {
    hide Legal, SortedByPoint, RespectsRealTime, Sub, InRange, Distinct;
    var b := lin[key];
    assert KeyOrder(h, key, b);
    r := Merge(pt, q, b);
    MergeElements(pt, q, b);
    MergeSorted(pt, q, b);
    MergeDistinct(pt, q, b);
    forall k | k in lin ensures Sub(h, Merge(pt, q, b), k) == if k in keys + {key} then lin[k] else [] {
      MergeOneSub(h, pt, q, b, key, k);
    }
  }

  lemma MergeNone(h: KvOps, lin: map<string, seq<nat>>, pt: seq<int>)
    requires Pointed(h, lin, pt)
    ensures Merges(h, lin, pt, {}, [])
  {
  }

  lemma {:induction false} MergeKeys(h: KvOps, lin: map<string, seq<nat>>, pt: seq<int>, keys: set<string>)
      returns (q: seq<nat>)
    requires Pointed(h, lin, pt) && keys <= lin.Keys
    ensures Merges(h, lin, pt, keys, q)
    decreases |keys|
  {
    hide Pointed, Merges;
    if keys == {} {
      q := [];
      MergeNone(h, lin, pt);
    } else {
      var key :| key in keys;
      var a := MergeKeys(h, lin, pt, keys - {key});
      q := MergeOne(h, lin, pt, keys - {key}, a, key);
      assert keys - {key} + {key} == keys;
    }
  }

  /** Operations in the order of points that lie within them are in real-time order. */
  lemma SortedRespects(h: KvOps, pt: seq<int>, q: seq<nat>)
    requires |pt| == |h| && InRange(|h|, q) && SortedByPoint(pt, q)
    requires forall x: nat | x < |h| :: h[x].call <= pt[x] <= h[x].ret
    ensures RespectsRealTime(h, q)
  {
  }

  lemma PointsOf(h: KvOps, lin: map<string, seq<nat>>) returns (pt: seq<int>)
    requires WellTimed(h) && Keys(h) <= lin.Keys && forall k | k in lin :: KeyOrder(h, k, lin[k])
    ensures Pointed(h, lin, pt)
  {
    hide Legal, Point;
    pt := seq(|h|, x requires 0 <= x < |h| => Point(h, lin[h[x].input.key], x));
    forall k | k in lin ensures SortedByPoint(pt, lin[k]) {
      PointsFit(h, lin[k]);
      assert forall x | x in lin[k] :: pt[x] == Point(h, lin[k], x);
      assert forall i | 0 <= i < |lin[k]| :: lin[k][i] in lin[k];
    }
    forall x: nat | x < |h| ensures h[x].call <= pt[x] <= h[x].ret {
      assert h[x] in h;
      PointsFit(h, lin[h[x].input.key]);
    }
  }

  lemma MergedLinearizes(h: KvOps, lin: map<string, seq<nat>>, pt: seq<int>, q: seq<nat>)
    requires Pointed(h, lin, pt) && lin.Keys == Keys(h) && Merges(h, lin, pt, lin.Keys, q)
    ensures IsLinearization(StoreModel(), h, q)
  {
    forall x: nat | x < |h| ensures x in q { assert h[x] in h; }
    AllIn(|h|, q);
    SortedRespects(h, pt, q);
    LegalByKey(h, q, map[]);
    hide Legal, Sub, Pointed, Merges, Get;
    forall k ensures Legal(KvModel(), h, Get(map[], k), Sub(h, q, k)) { MergedLegal(h, lin, pt, q, k); }
  }

  lemma MergedLegal(h: KvOps, lin: map<string, seq<nat>>, pt: seq<int>, q: seq<nat>, k: string)
    requires Pointed(h, lin, pt) && lin.Keys == Keys(h) && Merges(h, lin, pt, lin.Keys, q)
    ensures InRange(|h|, Sub(h, q, k)) && Legal(KvModel(), h, Get(map[], k), Sub(h, q, k))
  {
    hide SortedByPoint, Distinct;
    if k in lin {
      assert KeyOrder(h, k, lin[k]);
    } else {
      assert forall x | x in q :: h[x] in h;
      SubAll(h, q, k);
    }
  }

  ghost function OrderOf(h: KvOps, key: string): (q: seq<nat>)
    requires exists q :: KeyOrder(h, key, q)
    ensures KeyOrder(h, key, q)
  {
    var q :| KeyOrder(h, key, q);
    q
  }

  /** The hard direction: linearizable parts make a linearizable whole. */
  lemma WholeLinearizable(h: KvOps)
    requires WellTimed(h) && forall k | k in Keys(h) :: Linearizable(KvModel(), OfKey(h, k))
    ensures Linearizable(StoreModel(), h)
  {
    hide KeyOrder, IsLinearization, OfKey;
    forall k | k in Keys(h) ensures exists q :: KeyOrder(h, k, q) {
      assert Linearizable(KvModel(), OfKey(h, k));
      var q0 :| IsLinearization(KvModel(), OfKey(h, k), q0);
      var q := PartToKeyOrder(h, k, q0);
    }
    var lin := map k | k in Keys(h) :: OrderOf(h, k);
    var pt := PointsOf(h, lin);
    var q := MergeKeys(h, lin, pt, lin.Keys);
    MergedLinearizes(h, lin, pt, q);
  }

  /** What the model promises of Partition: a history is linearizable if and only if each part is. */
  lemma PartitionIsSound(h: KvOps)
    requires WellTimed(h)
    ensures Linearizable(StoreModel(), h) <==> forall k | k in Keys(h) :: Linearizable(KvModel(), OfKey(h, k))
  {
    hide IsLinearization, OfKey;
    if Linearizable(StoreModel(), h) {
      var q :| IsLinearization(StoreModel(), h, q);
      forall k | k in Keys(h) ensures Linearizable(KvModel(), OfKey(h, k)) { PartsLinearizable(h, q, k); }
    }
    if forall k | k in Keys(h) :: Linearizable(KvModel(), OfKey(h, k)) { WholeLinearizable(h); }
  }

  /** The same of the list that Partition returns. */
  lemma PartsDecideHistory(h: KvOps, parts: seq<KvOps>)
    requires WellTimed(h) && IsPartition(h, parts)
    ensures Linearizable(StoreModel(), h) <==> forall i | 0 <= i < |parts| :: Linearizable(KvModel(), parts[i])
  {
    hide OfKey, Linearizable;
    PartitionIsSound(h);
    forall i | 0 <= i < |parts| ensures KeyOf(parts[i]) in Keys(h) { assert KeysOf(parts)[i] in KeysOf(parts); }
    if forall i | 0 <= i < |parts| :: Linearizable(KvModel(), parts[i]) {
      forall k | k in Keys(h) ensures Linearizable(KvModel(), OfKey(h, k)) {
        assert k in KeysOf(parts);
        var i :| 0 <= i < |parts| && KeysOf(parts)[i] == k;
      }
    }
  }
}
