/**
 A history as the checker reads it: one call entry and one return entry for each
 operation, in an order that stands for real time; and how operations become entries.
 */
module Entries {
  import opened Collections
  import opened Linearizability

  datatype Entry<+I, +O> =
    | CallEntry(id: nat, input: I, time: int, clientId: int)
    | ReturnEntry(id: nat, output: O, time: int, clientId: int)

  predicate IsCallOf<I, O>(h: seq<Entry<I, O>>, k: nat, id: nat) {
    k < |h| && h[k].CallEntry? && h[k].id == id
  }

  predicate IsReturnOf<I, O>(h: seq<Entry<I, O>>, k: nat, id: nat) {
    k < |h| && h[k].ReturnEntry? && h[k].id == id
  }

  ghost predicate HasBoth<I, O>(h: seq<Entry<I, O>>, id: nat) {
    (exists k :: IsCallOf(h, k, id)) && (exists k :: IsReturnOf(h, k, id))
  }

  /** Each id below |h|/2 has one call entry, followed later by one return entry. */
  ghost predicate WellFormed<I, O>(h: seq<Entry<I, O>>) {
    && |h| % 2 == 0
    && (forall k | 0 <= k < |h| :: h[k].id < |h| / 2)
    && (forall j, k | 0 <= j < k < |h| && h[j].id == h[k].id :: h[j].CallEntry? && h[k].ReturnEntry?)
    && (forall id: nat | id < |h| / 2 :: HasBoth(h, id))
  }

  ghost function CallAt<I, O>(h: seq<Entry<I, O>>, id: nat): (k: nat)
    requires WellFormed(h) && id < |h| / 2
    ensures IsCallOf(h, k, id)
    ensures forall j | IsCallOf(h, j, id) :: j == k
  {
    assert HasBoth(h, id);
    var k :| IsCallOf(h, k, id);
    k
  }

  ghost function ReturnAt<I, O>(h: seq<Entry<I, O>>, id: nat): (k: nat)
    requires WellFormed(h) && id < |h| / 2
    ensures IsReturnOf(h, k, id)
    ensures forall j | IsReturnOf(h, j, id) :: j == k
    ensures CallAt(h, id) < k
  {
    assert HasBoth(h, id);
    var k :| IsReturnOf(h, k, id);
    k
  }

  ghost function OpOf<I, O>(h: seq<Entry<I, O>>, id: nat): Operation<I, O>
    requires WellFormed(h) && id < |h| / 2
  {
    var c, r := CallAt(h, id), ReturnAt(h, id);
    Operation(h[c].clientId, h[c].input, c, h[r].output, r)
  }

  /** The operations of h, timed by their positions in h. */
  ghost function OpsOf<I, O>(h: seq<Entry<I, O>>): (ops: seq<Operation<I, O>>)
    requires WellFormed(h)
    ensures |ops| == |h| / 2
    ensures forall id: nat | id < |ops| :: ops[id] == OpOf(h, id)
  {
    seq(|h| / 2, id requires 0 <= id < |h| / 2 => OpOf(h, id))
  }

  /* ---- from operations to entries ---- */

  /** Earlier times first; at equal times, calls before returns. */
  predicate Less<I, O>(a: Entry<I, O>, b: Entry<I, O>) {
    if a.time != b.time then a.time < b.time else a.CallEntry? && b.ReturnEntry?
  }

  /** No neighbours are out of order. */
  ghost predicate InTimeOrder<I, O>(entries: seq<Entry<I, O>>) {
    forall i, j | 0 <= i < j < |entries| && j == i + 1 :: !Less(entries[j], entries[i])
  }

  /** What any sort by Less may leave, stable or not: a rearrangement with no neighbours out of order. */
  ghost predicate IsSorting<I, O>(raw: seq<Entry<I, O>>, entries: seq<Entry<I, O>>) {
    multiset(raw) == multiset(entries) && InTimeOrder(entries)
  }

  function CallOf<I, O>(ops: seq<Operation<I, O>>, x: nat): Entry<I, O>
    requires x < |ops|
  {
    CallEntry(x, ops[x].input, ops[x].call, ops[x].clientId)
  }

  function ReturnOf<I, O>(ops: seq<Operation<I, O>>, x: nat): Entry<I, O>
    requires x < |ops|
  {
    ReturnEntry(x, ops[x].output, ops[x].ret, ops[x].clientId)
  }

  ghost predicate IsRaw<I, O>(ops: seq<Operation<I, O>>, raw: seq<Entry<I, O>>) {
    && |raw| == 2 * |ops|
    && forall x: nat | x < |ops| :: raw[2 * x] == CallOf(ops, x) && raw[2 * x + 1] == ReturnOf(ops, x)
  }

  /** The entries of makeEntries before they are sorted. */
  method RawEntries<I, O>(history: seq<Operation<I, O>>) returns (entries: seq<Entry<I, O>>)
    ensures IsRaw(history, entries)
  {
    entries := [];
    var id := 0;
    for i := 0 to |history|
      invariant id == i
      invariant |entries| == 2 * i
      invariant forall x: nat | x < i ::
                entries[2 * x] == CallOf(history, x) && entries[2 * x + 1] == ReturnOf(history, x)
    {
      var elem := history[i];
      entries := entries + [CallEntry(id, elem.input, elem.call, elem.clientId)];
      entries := entries + [ReturnEntry(id, elem.output, elem.ret, elem.clientId)];
      id := id + 1;
    }
  }

  lemma InsertInOrder<I, O>(entries: seq<Entry<I, O>>, x: Entry<I, O>, i: nat)
    requires InTimeOrder(entries) && i <= |entries|
    requires (i > 0 ==> !Less(x, entries[i - 1])) && (i < |entries| ==> Less(x, entries[i]))
    ensures InTimeOrder(entries[..i] + [x] + entries[i..])
  {
    hide Less;
    var r := entries[..i] + [x] + entries[i..];
    forall j, k | 0 <= j < k < |r| && k == j + 1 ensures !Less(r[k], r[j]) {
      if k < i {
        assert r[j] == entries[j] && r[k] == entries[k];
      } else if j > i {
        assert r[j] == entries[j - 1] && r[k] == entries[k - 1];
      } else if j == i {
        LessIsAsymmetric(x, entries[i]);
      }
    }
  }

  lemma LessIsAsymmetric<I, O>(a: Entry<I, O>, b: Entry<I, O>)
    ensures Less(a, b) ==> !Less(b, a)
  {
  }

  method InsertByTime<I, O>(entries: seq<Entry<I, O>>, x: Entry<I, O>) returns (r: seq<Entry<I, O>>)
    requires InTimeOrder(entries)
    ensures InTimeOrder(r) && multiset(r) == multiset(entries) + multiset{x}
  {
    hide InTimeOrder, Less;
    var i := 0;
    while i < |entries| && !Less(x, entries[i])
      invariant i <= |entries| && (i > 0 ==> !Less(x, entries[i - 1]))
    {
      i := i + 1;
    }
    InsertInOrder(entries, x, i);
    assert entries == entries[..i] + entries[i..];
    r := entries[..i] + [x] + entries[i..];
  }

  /** A sort by Less, one insertion at a time. */
  method SortByTime<I, O>(raw: seq<Entry<I, O>>) returns (entries: seq<Entry<I, O>>)
    ensures IsSorting(raw, entries)
  {
    entries := [];
    assert InTimeOrder(entries);
    hide InTimeOrder;
    for n := 0 to |raw|
      invariant InTimeOrder(entries) && multiset(entries) == multiset(raw[..n])
    {
      assert raw[..n + 1] == raw[..n] + [raw[n]];
      entries := InsertByTime(entries, raw[n]);
    }
    assert raw[..|raw|] == raw;
  }

  /** What makeEntries may return for a history. */
  ghost predicate MadeFrom<I(!new), O(!new)>(ops: seq<Operation<I, O>>, entries: seq<Entry<I, O>>) {
    exists raw :: IsRaw(ops, raw) && IsSorting(raw, entries)
  }

  method MakeEntries<I(!new), O(!new)>(history: seq<Operation<I, O>>) returns (entries: seq<Entry<I, O>>)
    ensures MadeFrom(history, entries)
  {
    var raw := RawEntries(history);
    entries := SortByTime(raw);
  }

  lemma {:induction false} SortedPairs<I, O>(entries: seq<Entry<I, O>>, i: nat, j: nat)
    requires InTimeOrder(entries) && i < j < |entries|
    ensures !Less(entries[j], entries[i])
  {
    if i + 1 < j {
      SortedPairs(entries, i, j - 1);
      assert !Less(entries[j], entries[j - 1]);
    }
  }

  lemma RawDistinct<I, O>(ops: seq<Operation<I, O>>, raw: seq<Entry<I, O>>)
    requires IsRaw(ops, raw)
    ensures Distinct(raw)
    ensures forall k | 0 <= k < |raw| ::
            k / 2 < |ops| && raw[k] == if k % 2 == 0 then CallOf(ops, k / 2) else ReturnOf(ops, k / 2)
  {
    forall k | 0 <= k < |raw|
      ensures k / 2 < |ops| && raw[k] == if k % 2 == 0 then CallOf(ops, k / 2) else ReturnOf(ops, k / 2)
    {
      assert k == 2 * (k / 2) + k % 2;
      assert raw[2 * (k / 2)] == CallOf(ops, k / 2);
    }
  }

  lemma RepeatCounts<T>(s: seq<T>, i: nat, j: nat)
    requires i < j < |s| && s[i] == s[j]
    ensures multiset(s)[s[i]] > 1
  {
    assert s == s[..j] + s[j..];
    assert multiset(s) == multiset(s[..j]) + multiset(s[j..]);
    assert s[i] in s[..j] && s[j] in s[j..];
  }

  lemma SortingElements<I, O>(ops: seq<Operation<I, O>>, raw: seq<Entry<I, O>>, entries: seq<Entry<I, O>>)
    requires IsRaw(ops, raw) && multiset(raw) == multiset(entries)
    ensures |entries| == 2 * |ops| && Distinct(entries)
    ensures forall k | 0 <= k < |entries| ::
              entries[k].id < |ops|
                  && (entries[k] == CallOf(ops, entries[k].id) || entries[k] == ReturnOf(ops, entries[k].id))
  {
    assert |multiset(raw)| == |raw| && |multiset(entries)| == |entries|;
    RawDistinct(ops, raw);
    DistinctCounts(raw);
    forall i, j | 0 <= i < j < |entries| ensures entries[i] != entries[j] {
      if entries[i] == entries[j] { RepeatCounts(entries, i, j); }
    }
    forall k | 0 <= k < |entries|
      ensures entries[k].id < |ops|
              && (entries[k] == CallOf(ops, entries[k].id) || entries[k] == ReturnOf(ops, entries[k].id))
    {
      assert entries[k] in multiset(raw);
    }
  }

  lemma SortingHasBoth<I, O>(ops: seq<Operation<I, O>>, raw: seq<Entry<I, O>>, entries: seq<Entry<I, O>>, id: nat)
    requires IsRaw(ops, raw) && multiset(raw) == multiset(entries) && id < |ops|
    ensures HasBoth(entries, id)
  {
    assert raw[2 * id] in multiset(entries) && raw[2 * id + 1] in multiset(entries);
    var c :| 0 <= c < |entries| && entries[c] == raw[2 * id];
    var r :| 0 <= r < |entries| && entries[r] == raw[2 * id + 1];
    assert IsCallOf(entries, c, id) && IsReturnOf(entries, r, id);
  }

  /** Sorting keeps one call and one return per operation, each call before its own return. */
  lemma SortingWellFormed<I, O>(ops: seq<Operation<I, O>>, raw: seq<Entry<I, O>>, entries: seq<Entry<I, O>>)
    requires WellTimed(ops) && IsRaw(ops, raw) && IsSorting(raw, entries)
    ensures |entries| == 2 * |ops| && WellFormed(entries)
    ensures forall k | 0 <= k < |entries| ::
              entries[k].id < |ops|
                  && (entries[k] == CallOf(ops, entries[k].id) || entries[k] == ReturnOf(ops, entries[k].id))
  {
    SortingElements(ops, raw, entries);
    forall id: nat | id < |ops| ensures HasBoth(entries, id) { SortingHasBoth(ops, raw, entries, id); }
    forall j, k | 0 <= j < k < |entries| && entries[j].id == entries[k].id
      ensures entries[j].CallEntry? && entries[k].ReturnEntry?
    {
      SortedPairs(entries, j, k);
    }
  }

  /** The sorted entries put the return of x before the call of y exactly when x.ret < y.call. */
  lemma SortingKeepsRealTime<I, O>(ops: seq<Operation<I, O>>, raw: seq<Entry<I, O>>, entries: seq<Entry<I, O>>, x: nat,
      y: nat)
    requires WellTimed(ops) && IsRaw(ops, raw) && IsSorting(raw, entries)
    requires x < |ops| && y < |ops|
    ensures |entries| == 2 * |ops| && WellFormed(entries)
    ensures Precedes(OpsOf(entries), x, y) <==> Precedes(ops, x, y)
    ensures OpsOf(entries)[x].input == ops[x].input && OpsOf(entries)[x].output == ops[x].output
    ensures OpsOf(entries)[x].clientId == ops[x].clientId
    ensures entries[CallAt(entries, x)].time == ops[x].call && entries[ReturnAt(entries, x)].time == ops[x].ret
  {
    SortingWellFormed(ops, raw, entries);
    var r, c := ReturnAt(entries, x), CallAt(entries, y);
    if r < c { SortedPairs(entries, r, c); } else { SortedPairs(entries, c, r); }
  }

  /* ---- only the order matters ---- */

  /** Same questions and answers in the same real-time order. */
  ghost predicate SameHistory<I, O>(a: seq<Operation<I, O>>, b: seq<Operation<I, O>>) {
    && |a| == |b|
    && (forall x: nat | x < |a| :: a[x].input == b[x].input && a[x].output == b[x].output)
    && (forall x: nat, y: nat | x < |a| && y < |a| :: Precedes(a, x, y) <==> Precedes(b, x, y))
  }

  lemma {:induction false} SameLegal<S, I, O>(m: Model<S, I, O>, a: seq<Operation<I, O>>, b: seq<Operation<I, O>>,
      s: S, q: seq<nat>)
    requires SameHistory(a, b) && InRange(|a|, q)
    ensures Legal(m, a, s, q) <==> Legal(m, b, s, q)
  {
    if q != [] { SameLegal(m, a, b, StepOp(m, a, s, q[0]).1, q[1..]); }
  }

  lemma SameLinearizations<S, I, O>(m: Model<S, I, O>, a: seq<Operation<I, O>>, b: seq<Operation<I, O>>, q: seq<nat>)
    requires SameHistory(a, b)
    ensures IsLinearization(m, a, q) <==> IsLinearization(m, b, q)
    ensures IsPartialLinearization(m, a, q) <==> IsPartialLinearization(m, b, q)
  {
    if InRange(|a|, q) { SameLegal(m, a, b, m.init, q); }
  }

  lemma SameLinearizable<S, I, O>(m: Model<S, I, O>, a: seq<Operation<I, O>>, b: seq<Operation<I, O>>)
    requires SameHistory(a, b)
    ensures Linearizable(m, a) <==> Linearizable(m, b)
  {
    forall q ensures IsLinearization(m, a, q) <==> IsLinearization(m, b, q) { SameLinearizations(m, a, b, q); }
  }

  /** Checking the sorted entries is checking the operations themselves. */
  lemma EntriesFaithful<S, I, O>(m: Model<S, I, O>, ops: seq<Operation<I, O>>, raw: seq<Entry<I, O>>,
      entries: seq<Entry<I, O>>)
    requires WellTimed(ops) && IsRaw(ops, raw) && IsSorting(raw, entries)
    ensures |entries| == 2 * |ops| && WellFormed(entries)
    ensures SameHistory(OpsOf(entries), ops)
    ensures Linearizable(m, OpsOf(entries)) <==> Linearizable(m, ops)
  {
    SortingWellFormed(ops, raw, entries);
    forall x: nat, y: nat | x < |ops| && y < |ops|
      ensures Precedes(OpsOf(entries), x, y) <==> Precedes(ops, x, y)
    {
      SortingKeepsRealTime(ops, raw, entries, x, y);
    }
    forall x: nat | x < |ops|
      ensures OpsOf(entries)[x].input == ops[x].input && OpsOf(entries)[x].output == ops[x].output
    {
      SortingKeepsRealTime(ops, raw, entries, x, x);
    }
    SameLinearizable(m, OpsOf(entries), ops);
  }
}
