/**
 The doubly linked list of the checker, on values: node x has successor next[x] and
 predecessor prev[x], node 0 is the head, and |next| stands for nil.
 Taking a node out leaves the node's own pointers alone, so it can be put back.
 */
module Links {
  datatype Links = Links(next: seq<nat>, prev: seq<nat>)

  ghost predicate Linked(l: Links, live: set<nat>) {
    && |l.next| == |l.prev|
    && 0 in live
    && (forall x | x in live :: x < |l.next|)
    && (forall x {:trigger l.next[x]} | x in live ::
          && x < l.next[x] <= |l.next|
          && (l.next[x] < |l.next| ==> l.next[x] in live && l.prev[l.next[x]] == x))
    && (forall x, y {:trigger l.next[x], y in live} | x in live && y in live :: y <= x || l.next[x] <= y)
    && (forall x {:trigger l.prev[x]} | x in live && x != 0 :: l.prev[x] in live && l.next[l.prev[x]] == x)
  }

  predicate Removable(l: Links, x: nat) {
    && |l.next| == |l.prev|
    && x < |l.next| && l.prev[x] < |l.next| && l.next[x] <= |l.next|
    && l.prev[x] != x && l.next[x] != x
  }

  function Remove(l: Links, x: nat): Links
    requires Removable(l, x)
  {
    Links(l.next[l.prev[x] := l.next[x]],
          if l.next[x] < |l.next| then l.prev[l.next[x] := l.prev[x]] else l.prev)
  }

  function Restore(l: Links, x: nat): Links
    requires Removable(l, x)
  {
    Links(l.next[l.prev[x] := x],
          if l.next[x] < |l.next| then l.prev[l.next[x] := x] else l.prev)
  }

  lemma RemoveNext(l: Links, live: set<nat>, x: nat, y: nat)
    requires Linked(l, live) && x in live && x != 0 && y in live && y != x
    ensures var n := Remove(l, x).next[y];
            y < n <= |l.next| && (n < |l.next| ==> n in live - {x} && Remove(l, x).prev[n] == y)
  {
    assert l.next[l.prev[x]] == x;
    if y != l.prev[x] { assert l.next[y] != l.next[x]; }
  }

  lemma RemovePrev(l: Links, live: set<nat>, x: nat, y: nat)
    requires Linked(l, live) && x in live && x != 0 && y in live && y != x && y != 0
    ensures var p := Remove(l, x).prev[y]; p in live - {x} && Remove(l, x).next[p] == y
  {
    assert l.next[l.prev[x]] == x && l.next[l.prev[y]] == y;
  }

  lemma RemoveGap(l: Links, live: set<nat>, x: nat, y: nat, z: nat)
    requires Linked(l, live) && x in live && x != 0 && y in live && y != x && z in live && z != x
    ensures z <= y || Remove(l, x).next[y] <= z
  {
    assert z <= y || l.next[y] <= z;
    assert z <= x || l.next[x] <= z;
  }

  lemma RemoveLinked(l: Links, live: set<nat>, x: nat)
    requires Linked(l, live) && x in live && x != 0
    ensures Linked(Remove(l, x), live - {x})
  {
    var r := Remove(l, x);
    forall y | y in live - {x}
      ensures y < r.next[y] <= |l.next| && (r.next[y] < |l.next| ==> r.next[y] in live - {x} && r.prev[r.next[y]] == y)
    {
      RemoveNext(l, live, x, y);
    }
    forall y | y in live - {x} && y != 0 ensures r.prev[y] in live - {x} && r.next[r.prev[y]] == y {
      RemovePrev(l, live, x, y);
    }
    forall y, z | y in live - {x} && z in live - {x} ensures z <= y || r.next[y] <= z {
      RemoveGap(l, live, x, y, z);
    }
    hide Remove;
  }

  lemma RestoreRemove(l: Links, live: set<nat>, x: nat)
    requires Linked(l, live) && x in live && x != 0
    ensures Removable(Remove(l, x), x) && Restore(Remove(l, x), x) == l
  {
    assert l.prev[x] < x;
  }

  /* ---- lift and unlift take out and put back a call together with its return ---- */

  ghost predicate Liftable(l: Links, live: set<nat>, e: nat, m: nat) {
    Linked(l, live) && e in live && m in live && 0 < e < m
  }

  /** lift and unlift as pointer moves, whatever list they are applied to. */
  predicate CanLift(l: Links, e: nat, m: nat) {
    && Removable(l, e) && l.next[e] < |l.next|
    && Removable(Remove(l, e), m)
  }

  function Lifted(l: Links, e: nat, m: nat): Links
    requires CanLift(l, e, m)
  {
    Remove(Remove(l, e), m)
  }

  predicate CanUnlift(l: Links, e: nat, m: nat) {
    && Removable(l, m)
    && Removable(Restore(l, m), e) && Restore(l, m).next[e] < |l.next|
  }

  function Unlifted(l: Links, e: nat, m: nat): Links
    requires CanUnlift(l, e, m)
  {
    Restore(Restore(l, m), e)
  }

  /** Lifting a call and its return leaves the other nodes linked in order. */
  lemma LiftedIsLinked(l: Links, live: set<nat>, e: nat, m: nat)
    requires Liftable(l, live, e, m)
    ensures CanLift(l, e, m)
    ensures Linked(Lifted(l, e, m), live - {e, m}) && |Lifted(l, e, m).next| == |l.next|
  {
    RemoveLinked(l, live, e);
    RestoreRemove(l, live, e);
    assert l.next[e] <= m;
    assert l.prev[e] in live;
    var r := Remove(l, e);
    assert m in live - {e} && r.next[m] > m;
    assert r.prev[m] in live - {e} && r.next[r.prev[m]] == m;
    RemoveLinked(r, live - {e}, m);
    assert live - {e} - {m} == live - {e, m};
  }

  /** unlift exactly undoes lift, every pointer included, also when call and return are neighbours. */
  lemma UnliftUndoesLift(l: Links, live: set<nat>, e: nat, m: nat)
    requires Liftable(l, live, e, m)
    ensures CanLift(l, e, m) && CanUnlift(Lifted(l, e, m), e, m) && Unlifted(Lifted(l, e, m), e, m) == l
  {
    LiftedIsLinked(l, live, e, m);
    RemoveLinked(l, live, e);
    RestoreRemove(Remove(l, e), live - {e}, m);
    RestoreRemove(l, live, e);
  }

  /** The nodes reached from x by following next. */
  ghost function Walk(l: Links, live: set<nat>, x: nat): seq<nat>
    requires Linked(l, live) && x in live
    decreases |l.next| - x
  {
    if l.next[x] == |l.next| then [] else [l.next[x]] + Walk(l, live, l.next[x])
  }

  /** Following next from x visits exactly the live nodes after x, in increasing order. */
  lemma {:induction false} WalkVisitsLive(l: Links, live: set<nat>, x: nat)
    requires Linked(l, live) && x in live
    ensures forall y :: y in Walk(l, live, x) <==> y in live && y > x
    ensures forall i, j | 0 <= i < j < |Walk(l, live, x)| :: Walk(l, live, x)[i] < Walk(l, live, x)[j]
    decreases |l.next| - x
  {
    var n := l.next[x];
    if n < |l.next| {
      WalkVisitsLive(l, live, n);
      var w, t := Walk(l, live, x), Walk(l, live, n);
      forall i, j | 0 <= i < j < |w| ensures w[i] < w[j] {
        assert w[j] == t[j - 1] && t[j - 1] in t;
        if i > 0 { assert w[i] == t[i - 1]; }
      }
    }
    forall y ensures y in Walk(l, live, x) <==> y in live && y > x {
      if y in live && y > x { assert n <= y; }
    }
  }
}
