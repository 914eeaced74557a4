/** Facts about finite sets and sequences. */
module Collections {

  predicate InRange(n: nat, q: seq<nat>) {
    forall i | 0 <= i < |q| :: q[i] < n
  }

  predicate Distinct<T(==)>(q: seq<T>) {
    forall i, j | 0 <= i < j < |q| :: q[i] != q[j]
  }

  ghost function Elements<T>(q: seq<T>): set<T> {
    set x | x in q
  }

  lemma {:induction false} DistinctSize(q: seq<nat>)
    requires Distinct(q)
    ensures |Elements(q)| == |q|
  {
    if q != [] {
      var t := q[..|q| - 1];
      DistinctSize(t);
      assert Elements(q) == Elements(t) + {q[|q| - 1]};
    }
  }

  lemma {:induction false} DistinctCounts<T>(s: seq<T>)
    requires Distinct(s)
    ensures forall e :: multiset(s)[e] <= 1
  {
    if s != [] {
      var t := s[..|s| - 1];
      DistinctCounts(t);
      assert s == t + [s[|s| - 1]];
      assert s[|s| - 1] !in t;
    }
  }

  lemma {:induction false} BelowSize(n: nat, b: set<nat>)
    requires forall x | x in b :: x < n
    ensures |b| <= n
    ensures |b| == n ==> forall x: nat | x < n :: x in b
  {
    if n > 0 {
      var c := b - {n - 1};
      BelowSize(n - 1, c);
      assert n - 1 in b ==> b == c + {n - 1};
      assert n - 1 !in b ==> b == c;
    } else {
      assert b == {};
    }
  }

  lemma {:induction false} FullSize(n: nat, b: set<nat>)
    requires forall x: nat :: x in b <==> x < n
    ensures |b| == n
  {
    if n > 0 {
      FullSize(n - 1, b - {n - 1});
    } else {
      assert b == {};
    }
  }

  lemma AllIn(n: nat, q: seq<nat>)
    requires InRange(n, q) && Distinct(q) && forall x: nat | x < n :: x in q
    ensures |q| == n
  {
    DistinctSize(q);
    FullSize(n, Elements(q));
  }

  lemma {:induction false} SubsetSize(a: set<nat>, b: set<nat>)
    requires a <= b
    ensures |a| <= |b|
  {
    if a != {} {
      var x :| x in a;
      SubsetSize(a - {x}, b - {x});
    }
  }

  lemma ProperSubset<T>(a: set<T>, b: set<T>)
    requires a < b
    ensures |a| < |b|
  {
    assert b == a + (b - a);
    assert b - a != {};
  }
}
