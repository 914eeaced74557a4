/**
 What it means for a concurrent history to be linearizable, independently of any way of
 deciding it, and the incremental form that a search extends one operation at a time.
 */
module Linearizability {
  import opened Collections

  datatype Option<+T> = None | Some(value: T)

  /** One completed operation of a history: what was asked and answered, and when. */
  datatype Operation<+I, +O> = Operation(clientId: int, input: I, call: int, output: O, ret: int)

  /** A sequential specification: `step` says whether `output` may answer `input` in a state. */
  datatype Model<!S, !I, !O> = Model(init: S, step: (S, I, O) -> (bool, S), equal: (S, S) -> bool)

  /** Real-time order: x was answered before y was asked. Equal times count as concurrent. */
  predicate Precedes<I, O>(ops: seq<Operation<I, O>>, x: nat, y: nat)
    requires x < |ops| && y < |ops|
  {
    ops[x].ret < ops[y].call
  }

  ghost predicate WellTimed<I, O>(ops: seq<Operation<I, O>>) {
    forall x: nat | x < |ops| :: ops[x].call <= ops[x].ret
  }

  function StepOp<S, I, O>(m: Model<S, I, O>, ops: seq<Operation<I, O>>, s: S, x: nat): (bool, S)
    requires x < |ops|
  {
    m.step(s, ops[x].input, ops[x].output)
  }

  /** Every operation of q, applied in order from s, is allowed by the model. */
  predicate Legal<S, I, O>(m: Model<S, I, O>, ops: seq<Operation<I, O>>, s: S, q: seq<nat>)
    requires InRange(|ops|, q)
  {
    q == [] || (StepOp(m, ops, s, q[0]).0 && Legal(m, ops, StepOp(m, ops, s, q[0]).1, q[1..]))
  }

  /** The state after applying q from s. */
  function Final<S, I, O>(m: Model<S, I, O>, ops: seq<Operation<I, O>>, s: S, q: seq<nat>): S
    requires InRange(|ops|, q)
  {
    if q == [] then s else Final(m, ops, StepOp(m, ops, s, q[0]).1, q[1..])
  }

  ghost predicate RespectsRealTime<I, O>(ops: seq<Operation<I, O>>, q: seq<nat>)
    requires InRange(|ops|, q)
  {
    forall i, j | 0 <= i < j < |q| :: !Precedes(ops, q[j], q[i])
  }

  /** q orders all the operations, respects real time, and is allowed by the model. */
  ghost predicate IsLinearization<S, I, O>(m: Model<S, I, O>, ops: seq<Operation<I, O>>, q: seq<nat>) {
    && |q| == |ops|
    && InRange(|ops|, q)
    && Distinct(q)
    && RespectsRealTime(ops, q)
    && Legal(m, ops, m.init, q)
  }

  ghost predicate Linearizable<S, I, O>(m: Model<S, I, O>, ops: seq<Operation<I, O>>) {
    exists q :: IsLinearization(m, ops, q)
  }

  /** q orders some of the operations, leaving out none that had to come before one of them. */
  ghost predicate IsPartialLinearization<S, I, O>(m: Model<S, I, O>, ops: seq<Operation<I, O>>, q: seq<nat>) {
    && InRange(|ops|, q)
    && Distinct(q)
    && RespectsRealTime(ops, q)
    && (forall x: nat, i | x < |ops| && x !in q && 0 <= i < |q| :: !Precedes(ops, x, q[i]))
    && Legal(m, ops, m.init, q)
  }

  /** Equal states allow the same steps and lead to equal states. */
  ghost predicate EqualIsBisimulation<S(!new), I(!new), O(!new)>(m: Model<S, I, O>) {
    && (forall s :: m.equal(s, s))
    && (forall s, t, i, o | m.equal(s, t) ::
          && m.step(s, i, o).0 == m.step(t, i, o).0
          && (m.step(s, i, o).0 ==> m.equal(m.step(s, i, o).1, m.step(t, i, o).1)))
  }

  /** A (linearized set, state) pair is a given one, up to equality of states. */
  ghost predicate Matches<S, I, O>(m: Model<S, I, O>, members: set<nat>, state: S, p: (set<nat>, S)) {
    p.0 == members && m.equal(state, p.1)
  }

  /* ---- the incremental form ---- */

  /** c can come next once the operations of `done` have been linearized. */
  ghost predicate Enabled<I, O>(ops: seq<Operation<I, O>>, done: set<nat>, c: nat) {
    && c < |ops| && c !in done
    && forall d: nat | d < |ops| && d !in done && d != c :: !Precedes(ops, d, c)
  }

  /** Starting from state s with `done` linearized, q can be linearized next. */
  ghost predicate Extends<S, I, O>(m: Model<S, I, O>, ops: seq<Operation<I, O>>, done: set<nat>, s: S, q: seq<nat>)
    decreases |q|
  {
    q == [] ||
    (&& Enabled(ops, done, q[0])
     && StepOp(m, ops, s, q[0]).0
     && Extends(m, ops, done + {q[0]}, StepOp(m, ops, s, q[0]).1, q[1..]))
  }

  /** The same, said of q as a whole. */
  ghost predicate ValidAfter<S, I, O>(m: Model<S, I, O>, ops: seq<Operation<I, O>>, done: set<nat>, s: S, q: seq<nat>) {
    && InRange(|ops|, q)
    && Distinct(q)
    && (forall i | 0 <= i < |q| :: q[i] !in done)
    && RespectsRealTime(ops, q)
    && (forall x: nat, i | x < |ops| && x !in done && x !in q && 0 <= i < |q| :: !Precedes(ops, x, q[i]))
    && Legal(m, ops, s, q)
  }

  /** What a search may answer: yes only if it is so, and no only if it is not so or the search was killed. */
  predicate Truthful(lin: bool, killed: bool, answer: bool) {
    (answer ==> lin) && (!answer ==> !lin || killed)
  }

  lemma {:induction false} ExtendsIsValid<S, I, O>(m: Model<S, I, O>, ops: seq<Operation<I, O>>, done: set<nat>, s: S,
      q: seq<nat>)
    requires Extends(m, ops, done, s, q)
    ensures ValidAfter(m, ops, done, s, q)
    decreases |q|
  {
    if q != [] {
      var t := q[1..];
      ExtendsIsValid(m, ops, done + {q[0]}, StepOp(m, ops, s, q[0]).1, t);
      assert forall i | 0 < i < |q| :: q[i] == t[i - 1];
      forall i, j | 0 <= i < j < |q| ensures q[i] != q[j] && !Precedes(ops, q[j], q[i]) {
        if i > 0 { assert !Precedes(ops, t[j - 1], t[i - 1]); }
      }
    }
  }

  lemma {:induction false} ValidExtends<S, I, O>(m: Model<S, I, O>, ops: seq<Operation<I, O>>, done: set<nat>, s: S,
      q: seq<nat>)
    requires ValidAfter(m, ops, done, s, q)
    ensures Extends(m, ops, done, s, q)
    decreases |q|
  {
    if q != [] {
      var t := q[1..];
      assert forall i | 0 <= i < |t| :: t[i] == q[i + 1];
      forall d: nat | d < |ops| && d !in done && d != q[0] ensures !Precedes(ops, d, q[0]) {
        if d in q { var j :| 0 <= j < |q| && q[j] == d; }
      }
      forall x: nat, i | x < |ops| && x !in done + {q[0]} && x !in t && 0 <= i < |t| ensures !Precedes(ops, x, t[i]) {
        assert !Precedes(ops, x, q[i + 1]);
      }
      ValidExtends(m, ops, done + {q[0]}, StepOp(m, ops, s, q[0]).1, t);
    }
  }

  /** The reference definition and the incremental one agree on partial linearizations. */
  lemma PartialIff<S, I, O>(m: Model<S, I, O>, ops: seq<Operation<I, O>>, q: seq<nat>)
    ensures IsPartialLinearization(m, ops, q) <==> Extends(m, ops, {}, m.init, q)
  {
    if IsPartialLinearization(m, ops, q) { ValidExtends(m, ops, {}, m.init, q); }
    if Extends(m, ops, {}, m.init, q) { ExtendsIsValid(m, ops, {}, m.init, q); }
  }

  lemma {:induction false} LegalAppend<S, I, O>(m: Model<S, I, O>, ops: seq<Operation<I, O>>, s: S, q: seq<nat>, x: nat)
    requires InRange(|ops|, q) && x < |ops|
    ensures InRange(|ops|, q + [x])
    ensures Legal(m, ops, s, q + [x]) <==> Legal(m, ops, s, q) && StepOp(m, ops, Final(m, ops, s, q), x).0
    ensures Final(m, ops, s, q + [x]) == StepOp(m, ops, Final(m, ops, s, q), x).1
  {
    if q == [] {
      assert [x][1..] == [] && q + [x] == [x];
    } else {
      LegalAppend(m, ops, StepOp(m, ops, s, q[0]).1, q[1..], x);
      assert (q + [x])[1..] == q[1..] + [x];
    }
  }

  /** A partial linearization of every operation is a linearization, and conversely. */
  lemma CompleteIff<S, I, O>(m: Model<S, I, O>, ops: seq<Operation<I, O>>, q: seq<nat>)
    ensures IsLinearization(m, ops, q) <==> |q| == |ops| && Extends(m, ops, {}, m.init, q)
  {
    PartialIff(m, ops, q);
    if |q| == |ops| && InRange(|ops|, q) && Distinct(q) {
      DistinctSize(q);
      BelowSize(|ops|, Elements(q));
      forall x: nat | x < |ops| ensures x in q { assert x in Elements(q); }
    }
  }
}
