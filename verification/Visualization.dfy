/** The replay of partial linearizations for display: it never meets a refused step. */
module Visualization {
  import opened Collections
  import opened Linearizability
  import opened Entries
  import opened Checker
  import opened Search

  datatype Shown = Shown(clientId: int, start: int, end: int, description: string)

  datatype LinearizationStep<+S> = LinearizationStep(index: nat, state: S)

  lemma {:induction false} FinalAppend<S, I, O>(m: Model<S, I, O>, ops: seq<Operation<I, O>>, s: S, q: seq<nat>, j: nat)
    requires InRange(|ops|, q) && j < |q|
    ensures InRange(|ops|, q[..j]) && InRange(|ops|, q[..j + 1])
    ensures Final(m, ops, s, q[..j + 1]) == StepOp(m, ops, Final(m, ops, s, q[..j]), q[j]).1
    ensures Legal(m, ops, s, q) ==> StepOp(m, ops, Final(m, ops, s, q[..j]), q[j]).0
    decreases j
  {
    if j == 0 {
      assert q[..1] == [q[0]];
      assert [q[0]][1..] == [];
    } else {
      FinalAppend(m, ops, StepOp(m, ops, s, q[0]).1, q[1..], j - 1);
      assert q[..j + 1][1..] == q[1..][..j] && q[..j][1..] == q[1..][..j - 1];
    }
  }

  /** The values recorded for an id are those of its call and its return. */
  ghost predicate ValuesOf<I, O>(h: seq<Entry<I, O>>, callValue: map<nat, I>, returnValue: map<nat, O>)
    requires WellFormed(h)
  {
    && callValue.Keys == returnValue.Keys
    && forall id: nat ::
         && (id in callValue <==> id < |h| / 2)
         && (id < |h| / 2 ==> callValue[id] == OpOf(h, id).input && returnValue[id] == OpOf(h, id).output)
  }

  /** What the entries before k say of an id. */
  ghost predicate Read<I, O>(h: seq<Entry<I, O>>, describe: (I, O) -> string, k: nat, id: nat, e: Shown,
      callValue: map<nat, I>, returnValue: map<nat, O>)
    requires WellFormed(h) && id < |h| / 2
  {
    var c, r := CallAt(h, id), ReturnAt(h, id);
    && (c < k ==> id in callValue && callValue[id] == h[c].input && e.clientId == h[c].clientId && e.start == h[c].time)
    && (r < k ==>
          && id in returnValue && returnValue[id] == h[r].output
          && e.end == h[r].time && e.description == describe(h[c].input, h[r].output))
  }

  lemma PositionsOf<I, O>(h: seq<Entry<I, O>>, k: nat, id: nat)
    requires WellFormed(h) && k < |h| && id < |h| / 2
    ensures h[k].id < |h| / 2
    ensures CallAt(h, id) == k <==> h[k].CallEntry? && h[k].id == id
    ensures ReturnAt(h, id) == k <==> h[k].ReturnEntry? && h[k].id == id
  {
    assert IsCallOf(h, k, id) ==> CallAt(h, id) == k;
    assert IsReturnOf(h, k, id) ==> ReturnAt(h, id) == k;
  }

  /** The element shown for display of an operation. */
  ghost function ShownOf<I, O>(h: seq<Entry<I, O>>, describe: (I, O) -> string, id: nat): Shown
    requires WellFormed(h) && id < |h| / 2
  {
    var c, r := h[CallAt(h, id)], h[ReturnAt(h, id)];
    Shown(c.clientId, c.time, r.time, describe(c.input, r.output))
  }

  /** The elements shown have the client, the times and the description of each operation. */
  ghost predicate Shows<I, O>(h: seq<Entry<I, O>>, describe: (I, O) -> string, shown: seq<Shown>)
    requires WellFormed(h)
  {
    && |shown| == |h| / 2
    && forall id: nat | id < |h| / 2 :: shown[id] == ShownOf(h, describe, id)
  }

  /** The first loop: what was asked and answered under each id, and when. */
  method ReadHistory<I, O>(h: seq<Entry<I, O>>, describe: (I, O) -> string)
      returns (shown: array<Shown>, callValue: map<nat, I>, returnValue: map<nat, O>)
    requires WellFormed(h)
    ensures fresh(shown) && Shows(h, describe, shown[..])
    ensures ValuesOf(h, callValue, returnValue)
  {
    shown := new Shown[|h| / 2](i => Shown(0, 0, 0, ""));
    callValue, returnValue := map[], map[];
    hide WellFormed;
    for k := 0 to |h|
      invariant forall id: nat | id < |h| / 2 :: Read(h, describe, k, id, shown[id], callValue, returnValue)
      invariant forall id | id in callValue || id in returnValue :: id < |h| / 2
    {
      forall id: nat | id < |h| / 2
        ensures h[k].id < |h| / 2
        ensures CallAt(h, id) == k <==> h[k].CallEntry? && h[k].id == id
        ensures ReturnAt(h, id) == k <==> h[k].ReturnEntry? && h[k].id == id
      {
        PositionsOf(h, k, id);
      }
      PositionsOf(h, k, 0);
      match h[k]
      case CallEntry(id, input, time, clientId) =>
        shown[id] := shown[id].(clientId := clientId, start := time);
        callValue := callValue[id := input];
      case ReturnEntry(id, output, time, clientId) =>
        assert CallAt(h, id) < k && Read(h, describe, k, id, shown[id], callValue, returnValue);
        shown[id] := shown[id].(end := time, description := describe(callValue[id], output));
        returnValue := returnValue[id := output];
    }
    forall id: nat | id < |h| / 2
      ensures id in callValue && id in returnValue && callValue[id] == OpOf(h, id).input
              && returnValue[id] == OpOf(h, id).output
    {
      assert Read(h, describe, |h|, id, shown[id], callValue, returnValue);
    }
    assert callValue.Keys == returnValue.Keys;
  }

  /** i is the place of the first longest partial among the first n that contains id. */
  ghost predicate IsLargest(partials: seq<seq<nat>>, n: nat, id: nat, i: nat) {
    && i < n <= |partials| && id in partials[i]
    && (forall k | 0 <= k < n && id in partials[k] :: |partials[k]| <= |partials[i]|)
    && (forall k | 0 <= k < i && id in partials[k] :: |partials[k]| < |partials[i]|)
  }

  /** The state the model is in after the first j operations of q. */
  function StateAfter<S, I, O>(m: Model<S, I, O>, ops: seq<Operation<I, O>>, q: seq<nat>, j: nat): S
    requires InRange(|ops|, q) && j <= |q|
  {
    Final(m, ops, m.init, q[..j])
  }

  lemma StateStep<S, I, O>(m: Model<S, I, O>, ops: seq<Operation<I, O>>, q: seq<nat>, j: nat)
    requires InRange(|ops|, q) && j < |q| && Legal(m, ops, m.init, q)
    ensures StateAfter(m, ops, q, 0) == m.init
    ensures StepOp(m, ops, StateAfter(m, ops, q, j), q[j]) == (true, StateAfter(m, ops, q, j + 1))
  {
    FinalAppend(m, ops, m.init, q, j);
  }

  /** steps pair each operation of q with the state it leads to. */
  ghost predicate Replays<S, I, O>(m: Model<S, I, O>, ops: seq<Operation<I, O>>, q: seq<nat>,
      steps: seq<LinearizationStep<S>>) {
    && InRange(|ops|, q) && |steps| == |q|
    && forall j | 0 <= j < |steps| :: steps[j] == LinearizationStep(q[j], StateAfter(m, ops, q, j + 1))
  }

  /** The replay of one partial linearization; a refused step would be the panic. */
  method Replay<S, I, O>(model: Model<S, I, O>, ghost h: seq<Entry<I, O>>, callValue: map<nat, I>,
      returnValue: map<nat, O>, partial: seq<nat>)
    returns (steps: seq<LinearizationStep<S>>)
    requires WellFormed(h) && ValuesOf(h, callValue, returnValue) && IsPartialLinearization(model, OpsOf(h), partial)
    ensures Replays(model, OpsOf(h), partial, steps)
  {
    hide WellFormed, RespectsRealTime, Legal, StateAfter;
    ghost var ops := OpsOf(h);
    steps := [];
    var state := model.init;
    if |partial| > 0 { StateStep(model, ops, partial, 0); }
    for j := 0 to |partial|
      invariant |steps| == j && (|partial| > 0 ==> state == StateAfter(model, ops, partial, j))
      invariant forall i | 0 <= i < j ::
                steps[i] == LinearizationStep(partial[i], StateAfter(model, ops, partial, i + 1))
    {
      StateStep(model, ops, partial, j);
      var histId := partial[j];
      assert histId < |h| / 2 && ops[histId] == OpOf(h, histId);
      var (ok, next) := model.step(state, callValue[histId], returnValue[histId]);
      assert (ok, next) == StepOp(model, ops, state, histId);
      assert ok;  // never the panic
      state := next;
      steps := steps + [LinearizationStep(histId, state)];
    }
  }

  ghost predicate Appears(partials: seq<seq<nat>>, n: nat, id: nat) {
    exists k | 0 <= k < n && k < |partials| :: id in partials[k]
  }

  /** The records say, of the ids in the first n partials, where a longest one is and how long. */
  ghost predicate LargestOk(partials: seq<seq<nat>>, n: nat, index: map<nat, nat>, size: map<nat, nat>) {
    && index.Keys == size.Keys
    && (forall id :: id in index <==> Appears(partials, n, id))
    && (forall id | id in index :: IsLargest(partials, n, id, index[id]) && size[id] == |partials[index[id]]|)
  }

  /** Folds partial number i into the records: an id moves to it if it is strictly longer. */
  method UpdateLargest(partial: seq<nat>, i: nat, index: map<nat, nat>, size: map<nat, nat>)
      returns (index': map<nat, nat>, size': map<nat, nat>)
    requires index.Keys == size.Keys
    ensures index'.Keys == size'.Keys && forall id :: id in index' <==> id in index || id in partial
    ensures forall id | id in index' ::
              if id in partial && (id !in index || size[id] < |partial|) then index'[id] == i && size'[id] == |partial|
              else index'[id] == index[id] && size'[id] == size[id]
  {
    index', size' := index, size;
    for j := 0 to |partial|
      invariant index'.Keys == size'.Keys && forall id :: id in index' <==> id in index || id in partial[..j]
      invariant forall id | id in index' ::
                  if id in partial[..j] && (id !in index || size[id] < |partial|)
                  then index'[id] == i && size'[id] == |partial|
                  else index'[id] == index[id] && size'[id] == size[id]
    {
      var histId := partial[j];
      assert partial[..j + 1] == partial[..j] + [histId];
      var known := if histId in size' then size'[histId] else 0;
      if known < |partial| {
        size' := size'[histId := |partial|];
        index' := index'[histId := i];
      }
    }
    assert partial[..|partial|] == partial;
  }

  lemma AppearsNext(partials: seq<seq<nat>>, i: nat, id: nat)
    requires i < |partials|
    ensures Appears(partials, i + 1, id) <==> Appears(partials, i, id) || id in partials[i]
  {
    if Appears(partials, i, id) { var k :| 0 <= k < i && id in partials[k]; }
  }

  /** With partial i, the longest partial with id is partial i if it is longer than the one known, if any. */
  lemma LargestNext(partials: seq<seq<nat>>, i: nat, id: nat, known: Option<nat>)
    requires i < |partials| && (Appears(partials, i, id) || id in partials[i])
    requires match known case Some(k) => IsLargest(partials, i, id, k) case None => !Appears(partials, i, id)
    ensures known.Some? ==> known.value < |partials|
    ensures var stays := known.Some? && (id !in partials[i] || |partials[i]| <= |partials[known.value]|);
            IsLargest(partials, i + 1, id, if stays then known.value else i)
  {
  }

  lemma LargestStep(partials: seq<seq<nat>>, i: nat, index: map<nat, nat>, size: map<nat, nat>, index': map<nat, nat>,
      size': map<nat, nat>)
    requires i < |partials| && LargestOk(partials, i, index, size)
    requires index'.Keys == size'.Keys && forall id :: id in index' <==> id in index || id in partials[i]
    requires forall id | id in index' ::
               if id in partials[i] && (id !in index || size[id] < |partials[i]|)
               then index'[id] == i && size'[id] == |partials[i]|
               else index'[id] == index[id] && size'[id] == size[id]
    ensures LargestOk(partials, i + 1, index', size')
  {
    hide Appears, IsLargest;
    forall id: nat ensures Appears(partials, i + 1, id) <==> Appears(partials, i, id) || id in partials[i] {
      AppearsNext(partials, i, id);
    }
    forall id | id in index'
      ensures IsLargest(partials, i + 1, id, index'[id]) && index'[id] < |partials|
              && size'[id] == |partials[index'[id]]|
    {
      LargestNext(partials, i, id, if id in index then Some(index[id]) else None);
    }
  }

  lemma LargestMeans(partials: seq<seq<nat>>, n: nat, index: map<nat, nat>, size: map<nat, nat>)
    requires LargestOk(partials, n, index, size)
    ensures index.Keys == size.Keys
    ensures forall id :: id in index <==> Appears(partials, n, id)
    ensures forall id | id in index :: IsLargest(partials, n, id, index[id])
  {
  }

  lemma LargestNone(partials: seq<seq<nat>>)
    ensures LargestOk(partials, 0, map[], map[])
  {
  }

  lemma RecordedIsPartial<S, I, O>(m: Model<S, I, O>, ops: seq<Operation<I, O>>, longest: Partials, p: seq<nat>)
    requires ValidPartials(m, ops, longest) && Some(p) in longest
    ensures IsPartialLinearization(m, ops, p)
  {
  }

  /** Longer partials first. */
  ghost predicate LongestFirst(partials: seq<seq<nat>>) {
    forall i, j | 0 <= i < j < |partials| :: |partials[i]| >= |partials[j]|
  }

  lemma InsertLongestFirst(partials: seq<seq<nat>>, p: seq<nat>, i: nat)
    requires LongestFirst(partials) && i <= |partials|
    requires (i > 0 ==> |partials[i - 1]| >= |p|) && (i < |partials| ==> |partials[i]| < |p|)
    ensures LongestFirst(partials[..i] + [p] + partials[i..])
  {
    var r := partials[..i] + [p] + partials[i..];
    forall j, k | 0 <= j < k < |r| ensures |r[j]| >= |r[k]| {
      assert r[j] == if j < i then partials[j] else if j == i then p else partials[j - 1];
      assert r[k] == if k < i then partials[k] else if k == i then p else partials[k - 1];
    }
  }

  method InsertByLength(partials: seq<seq<nat>>, p: seq<nat>) returns (r: seq<seq<nat>>)
    requires LongestFirst(partials)
    ensures LongestFirst(r) && multiset(r) == multiset(partials) + multiset{p}
  {
    hide LongestFirst;
    var i := 0;
    while i < |partials| && |partials[i]| >= |p|
      invariant i <= |partials| && (i > 0 ==> |partials[i - 1]| >= |p|)
    {
      i := i + 1;
    }
    InsertLongestFirst(partials, p, i);
    assert partials == partials[..i] + partials[i..];
    r := partials[..i] + [p] + partials[i..];
  }

  /** A sort by length, longest first, one insertion at a time. */
  method SortByLength(partials: seq<seq<nat>>) returns (sorted: seq<seq<nat>>)
    ensures LongestFirst(sorted) && multiset(sorted) == multiset(partials)
  {
    sorted := [];
    for i := 0 to |partials|
      invariant LongestFirst(sorted) && multiset(sorted) == multiset(partials[..i])
    {
      hide LongestFirst;
      assert partials[..i + 1] == partials[..i] + [partials[i]];
      sorted := InsertByLength(sorted, partials[i]);
    }
    assert partials[..|partials|] == partials;
  }

  /** With longer partials first, the place of a longest one with an id is the first with it at all. */
  lemma LargestIsFirst(partials: seq<seq<nat>>, id: nat, i: nat)
    requires LongestFirst(partials) && IsLargest(partials, |partials|, id, i)
    ensures forall k | 0 <= k < i :: id !in partials[k]
  {
  }

  /** For the entries of operations, what is shown is the client, the times and the description of each. */
  lemma ShownAreOperations<I(!new), O(!new)>(ops: seq<Operation<I, O>>, h: seq<Entry<I, O>>, describe: (I, O) -> string,
      shown: seq<Shown>)
    requires WellTimed(ops) && MadeFrom(ops, h) && WellFormed(h) && Shows(h, describe, shown)
    ensures |shown| == |ops|
    ensures forall x: nat | x < |ops| ::
              shown[x] == Shown(ops[x].clientId, ops[x].call, ops[x].ret, describe(ops[x].input, ops[x].output))
  {
    hide WellFormed, IsRaw, IsSorting, WellTimed;
    var raw :| IsRaw(ops, raw) && IsSorting(raw, h);
    SortingWellFormed(ops, raw, h);
    forall x: nat | x < |ops|
      ensures shown[x] == Shown(ops[x].clientId, ops[x].call, ops[x].ret, describe(ops[x].input, ops[x].output))
    {
      SortingKeepsRealTime(ops, raw, h, x, x);
    }
  }

  /** The replay of sorted partials, and where a longest one with each id is. */
  method ReplaySorted<S, I, O>(model: Model<S, I, O>, describe: (I, O) -> string, h: seq<Entry<I, O>>,
      ghost longest: Partials, partials: seq<seq<nat>>)
    returns (history: array<Shown>, linearizations: seq<seq<LinearizationStep<S>>>, largest: map<nat, nat>)
    requires WellFormed(h) && ValidPartials(model, OpsOf(h), longest)
    requires forall p | p in partials :: Some(p) in longest
    ensures fresh(history) && Shows(h, describe, history[..])
    ensures |linearizations| == |partials|
    ensures forall i | 0 <= i < |partials| :: Replays(model, OpsOf(h), partials[i], linearizations[i])
    ensures forall id :: id in largest <==> Appears(partials, |partials|, id)
    ensures forall id | id in largest :: IsLargest(partials, |partials|, id, largest[id])
  {
    hide WellFormed, ValidPartials, IsPartialLinearization, LargestOk, IsLargest, Appears, ValuesOf, Replays, Shows;
    var callValue, returnValue;
    history, callValue, returnValue := ReadHistory(h, describe);
    var size: map<nat, nat>;
    linearizations, largest, size := [], map[], map[];
    LargestNone(partials);
    for i := 0 to |partials|
      invariant |linearizations| == i && forall k | 0 <= k < i ::
                Replays(model, OpsOf(h), partials[k], linearizations[k])
      invariant LargestOk(partials, i, largest, size) && Shows(h, describe, history[..])
    {
      assert partials[i] in partials;
      RecordedIsPartial(model, OpsOf(h), longest, partials[i]);
      var steps := Replay(model, h, callValue, returnValue, partials[i]);
      linearizations := linearizations + [steps];
      LargestMeans(partials, i, largest, size);
      var largest', size' := UpdateLargest(partials[i], i, largest, size);
      LargestStep(partials, i, largest, size, largest', size');
      largest, size := largest', size';
    }
    LargestMeans(partials, |partials|, largest, size);
  }
  /** One partition of computeVisualizationData. The partials are those checkSingle recorded, killed or not. */
  method ComputePartition<S, I, O>(model: Model<S, I, O>, describe: (I, O) -> string, h: seq<Entry<I, O>>,
      ghost longest: Partials, recorded: seq<seq<nat>>)
    returns (history: array<Shown>, partials: seq<seq<nat>>, linearizations: seq<seq<LinearizationStep<S>>>,
             largest: map<nat, nat>)
    requires WellFormed(h) && ValidPartials(model, OpsOf(h), longest)
    requires forall p | p in recorded :: Some(p) in longest
    ensures fresh(history) && Shows(h, describe, history[..])
    ensures LongestFirst(partials) && multiset(partials) == multiset(recorded)
    ensures |linearizations| == |partials|
    ensures forall i | 0 <= i < |partials| :: Replays(model, OpsOf(h), partials[i], linearizations[i])
    ensures forall id :: id in largest <==> Appears(partials, |partials|, id)
    ensures forall id | id in largest :: IsLargest(partials, |partials|, id, largest[id])
  {
    hide WellFormed, ValidPartials, IsLargest, Appears, Replays, Shows, LongestFirst;
    partials := SortByLength(recorded);
    forall p | p in partials ensures Some(p) in longest { assert p in multiset(partials); }
    history, linearizations, largest := ReplaySorted(model, describe, h, longest, partials);
  }
}
