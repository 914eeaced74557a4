/**
 What the key-value models accept, said without their steps: an answer that is checked must be
 the value of the last Put before it followed by everything appended since.
 */
module KvLaw {
  import opened Collections
  import opened Linearizability
  import opened Kv

  /** What an operation does to the value of its key. */
  datatype Write = Sets(value: string) | Adds(value: string) | Leaves

  function WriteOf(inp: KvInput): Write {
    if inp.op == 1 then Sets(inp.value) else if inp.op >= 2 then Adds(inp.value) else Leaves
  }

  /** The value w leaves where v was. */
  function Written(w: Write, v: string): string {
    match w
    case Sets(x) => x
    case Adds(x) => v + x
    case Leaves => v
  }

  /** A Get, or an append that returns a value. */
  predicate Answers(inp: KvInput) { inp.op == 0 || inp.op > 2 }

  /** The value of the last Put, or "". */
  function LastSet(ws: seq<Write>): string {
    if ws == [] then ""
    else
      var w := ws[|ws| - 1];
      if w.Sets? then w.value else LastSet(ws[..|ws| - 1])
  }

  /** Everything appended after the last Put, in order. */
  function AddedSince(ws: seq<Write>): string {
    if ws == [] then ""
    else
      var w := ws[|ws| - 1];
      if w.Sets? then "" else if w.Adds? then AddedSince(ws[..|ws| - 1]) + w.value else AddedSince(ws[..|ws| - 1])
  }

  /** The value after ws: that of the last Put, or "", followed by everything appended since. */
  function Value(ws: seq<Write>): string { LastSet(ws) + AddedSince(ws) }

  lemma Regroup(p: string, a: string, v: string)
    ensures p + (a + v) == (p + a) + v
  {
  }

  lemma LastIs(ws: seq<Write>, w: Write)
    ensures LastSet(ws + [w]) == if w.Sets? then w.value else LastSet(ws)
    ensures AddedSince(ws + [w]) ==
            if w.Sets? then "" else if w.Adds? then AddedSince(ws) + w.value else AddedSince(ws)
  {
    assert (ws + [w])[..|ws|] == ws;
  }

  lemma ValueAppend(ws: seq<Write>, w: Write)
    ensures Value(ws + [w]) == Written(w, Value(ws))
  {
    hide LastSet, AddedSince;
    LastIs(ws, w);
    if w.Adds? { Regroup(LastSet(ws), AddedSince(ws), w.value); }
  }

  lemma ValueOfNothing()
    ensures Value([]) == ""
  {
  }

  ghost predicate NoSets(ws: seq<Write>) { forall i | 0 <= i < |ws| :: !ws[i].Sets? }

  /** The values of the appends among ws, in order. */
  function Added(ws: seq<Write>): string {
    if ws == [] then "" else Added(ws[..|ws| - 1]) + if ws[|ws| - 1].Adds? then ws[|ws| - 1].value else ""
  }

  /** After a Put of v and then ws without another Put, the value is v followed by all that ws appends. */
  lemma {:induction false} ValueAfterPut(before: seq<Write>, v: string, ws: seq<Write>)
    requires NoSets(ws)
    ensures Value(before + [Sets(v)] + ws) == v + Added(ws)
  {
    hide Value, Added, NoSets;
    if ws == [] {
      ValueAppend(before, Sets(v));
      assert before + [Sets(v)] + ws == before + [Sets(v)];
      NothingAdded();
    } else {
      var t, w := ws[..|ws| - 1], ws[|ws| - 1];
      ShorterNoSets(ws);
      ValueAfterPut(before, v, t);
      ValueAppend(before + [Sets(v)] + t, w);
      assert before + [Sets(v)] + ws == (before + [Sets(v)] + t) + [w];
      AddedIs(ws);
      Regroup(v, Added(t), if w.Adds? then w.value else "");
    }
  }

  /** Without any Put the value is all that was appended. */
  lemma {:induction false} ValueWithoutPut(ws: seq<Write>)
    requires NoSets(ws)
    ensures Value(ws) == Added(ws)
  {
    hide Value, Added, NoSets;
    if ws == [] {
      ValueOfNothing();
      NothingAdded();
    } else {
      var t, w := ws[..|ws| - 1], ws[|ws| - 1];
      ShorterNoSets(ws);
      ValueWithoutPut(t);
      ValueAppend(t, w);
      assert ws == t + [w];
      AddedIs(ws);
    }
  }

  lemma ShorterNoSets(ws: seq<Write>)
    requires NoSets(ws) && ws != []
    ensures NoSets(ws[..|ws| - 1]) && !ws[|ws| - 1].Sets?
  {
  }

  lemma NothingAdded()
    ensures Added([]) == ""
  {
  }

  lemma AddedIs(ws: seq<Write>)
    requires ws != []
    ensures Added(ws) == Added(ws[..|ws| - 1]) + if ws[|ws| - 1].Adds? then ws[|ws| - 1].value else ""
  {
  }

  /** What the operations of q on a key do to its value, in order. */
  function Writes(h: KvOps, q: seq<nat>, key: string): seq<Write>
    requires InRange(|h|, q)
  {
    if q == [] then []
    else
      var inp := h[q[|q| - 1]].input;
      Writes(h, q[..|q| - 1], key) + if inp.key == key then [WriteOf(inp)] else []
  }

  lemma WritesAppend(h: KvOps, q: seq<nat>, x: nat, key: string)
    requires InRange(|h|, q) && x < |h|
    ensures Writes(h, q + [x], key) == Writes(h, q, key) + if h[x].input.key == key then [WriteOf(h[x].input)] else []
  {
    assert (q + [x])[..|q|] == q;
  }

  /** Every answer that is checked is the value of its key at that point of q. */
  ghost predicate AnswersRight(h: KvOps, q: seq<nat>)
    requires InRange(|h|, q)
  {
    forall j | 0 <= j < |q| && Answers(h[q[j]].input) :: AnswerRight(h, q, j)
  }

  ghost predicate AnswerRight(h: KvOps, q: seq<nat>, j: nat)
    requires InRange(|h|, q) && j < |q|
  {
    h[q[j]].output.value == Value(Writes(h, q[..j], h[q[j]].input.key))
  }

  lemma AnswersAppend(h: KvOps, q: seq<nat>, x: nat)
    requires InRange(|h|, q) && x < |h|
    ensures InRange(|h|, q + [x])
    ensures AnswersRight(h, q + [x]) <==>
              && AnswersRight(h, q)
              && (Answers(h[x].input) ==> h[x].output.value == Value(Writes(h, q, h[x].input.key)))
  {
    var r := q + [x];
    assert r[..|q|] == q;
    forall j: nat | j < |q| ensures AnswerRight(h, r, j) <==> AnswerRight(h, q, j) { assert r[..j] == q[..j]; }
    if AnswersRight(h, r) {
      assert Answers(h[r[|q|]].input) ==> AnswerRight(h, r, |q|);
      forall j | 0 <= j < |q| && Answers(h[q[j]].input) ensures AnswerRight(h, q, j) {
        assert r[j] == q[j] && AnswerRight(h, r, j);
      }
    }
  }

  /** A step of the store does to the value of every key what the operation says, and checks its answer. */
  lemma StoreStepIs(st: Store, inp: KvInput, out: KvOutput, key: string)
    ensures StoreStep(st, inp, out).0 <==> (Answers(inp) ==> out.value == Get(st, inp.key))
    ensures Get(StoreStep(st, inp, out).1, key) ==
            if inp.key == key then Written(WriteOf(inp), Get(st, key)) else Get(st, key)
  {
  }

  lemma StoreStepKeeps(h: KvOps, t: seq<nat>, x: nat, st: Store, key: string)
    requires InRange(|h|, t) && x < |h| && forall k :: Get(st, k) == Value(Writes(h, t, k))
    ensures InRange(|h|, t + [x])
    ensures StepOp(StoreModel(), h, st, x).0 <==>
              (Answers(h[x].input) ==> h[x].output.value == Value(Writes(h, t, h[x].input.key)))
    ensures Get(StepOp(StoreModel(), h, st, x).1, key) == Value(Writes(h, t + [x], key))
  {
    hide Value, Writes, Get, StoreStep, Written, WriteOf, Answers;
    var inp := h[x].input;
    assert StepOp(StoreModel(), h, st, x) == StoreStep(st, inp, h[x].output);
    StoreStepIs(st, inp, h[x].output, key);
    WritesAppend(h, t, x, key);
    ValueAppend(Writes(h, t, key), WriteOf(inp));
    assert Writes(h, t, key) + [] == Writes(h, t, key);
  }

  /** The store accepts an order exactly if every answer is right, and leaves the values that the writes make. */
  lemma {:induction false} StoreLaw(h: KvOps, q: seq<nat>)
    requires InRange(|h|, q)
    ensures Legal(StoreModel(), h, map[], q) <==> AnswersRight(h, q)
    ensures forall key :: Get(Final(StoreModel(), h, map[], q), key) == Value(Writes(h, q, key))
    decreases |q|
  {
    if q == [] {
      hide Value;
      ValueOfNothing();
      assert forall key :: Writes(h, q, key) == [];
    } else {
      hide Value, Writes, Get, StepOp, AnswersRight, Legal, Final, Answers;
      var t, x := q[..|q| - 1], q[|q| - 1];
      assert q == t + [x];
      StoreLaw(h, t);
      LegalAppend(StoreModel(), h, map[], t, x);
      AnswersAppend(h, t, x);
      var st := Final(StoreModel(), h, map[], t);
      forall key
        ensures StepOp(StoreModel(), h, st, x).0 <==>
                  (Answers(h[x].input) ==> h[x].output.value == Value(Writes(h, t, h[x].input.key)))
        ensures Get(Final(StoreModel(), h, map[], q), key) == Value(Writes(h, q, key))
      {
        StoreStepKeeps(h, t, x, st, key);
      }
      StoreStepKeeps(h, t, x, st, "");
    }
  }

  lemma KvStepIs(s: string, inp: KvInput, out: KvOutput)
    ensures KvStep(s, inp, out).0 <==> (Answers(inp) ==> out.value == s)
    ensures KvStep(s, inp, out).1 == Written(WriteOf(inp), s)
  {
  }

  lemma KvStepKeeps(h: KvOps, t: seq<nat>, x: nat, key: string, s: string)
    requires InRange(|h|, t) && x < |h| && h[x].input.key == key && s == Value(Writes(h, t, key))
    ensures InRange(|h|, t + [x])
    ensures StepOp(KvModel(), h, s, x).0 <==>
              (Answers(h[x].input) ==> h[x].output.value == Value(Writes(h, t, h[x].input.key)))
    ensures StepOp(KvModel(), h, s, x).1 == Value(Writes(h, t + [x], key))
  {
    hide Value, Writes, KvStep, Written, WriteOf, Answers;
    assert StepOp(KvModel(), h, s, x) == KvStep(s, h[x].input, h[x].output);
    KvStepIs(s, h[x].input, h[x].output);
    WritesAppend(h, t, x, key);
    ValueAppend(Writes(h, t, key), WriteOf(h[x].input));
  }

  lemma NothingWritten(h: KvOps, key: string)
    ensures Legal(KvModel(), h, KvModel().init, []) && AnswersRight(h, [])
    ensures Final(KvModel(), h, KvModel().init, []) == Value(Writes(h, [], key))
  {
    ValueOfNothing();
    hide Value;
  }

  /** The one-key model accepts an order of operations on one key exactly if every answer is right. */
  lemma {:induction false} KvModelLaw(h: KvOps, q: seq<nat>, key: string)
    requires InRange(|h|, q) && AllOn(h, q, key)
    ensures var m := KvModel(); Legal(m, h, m.init, q) <==> AnswersRight(h, q)
    ensures var m := KvModel(); Final(m, h, m.init, q) == Value(Writes(h, q, key))
    decreases |q|
  {
    hide *;
    if q == [] {
      NothingWritten(h, key);
    } else {
      var t, x, m := q[..|q| - 1], q[|q| - 1], KvModel();
      assert q == t + [x];
      LastOn(h, q, key);
      KvModelLaw(h, t, key);
      LegalAppend(m, h, m.init, t, x);
      AnswersAppend(h, t, x);
      KvStepKeeps(h, t, x, key, Final(m, h, m.init, t));
    }
  }

  ghost predicate AllOn(h: KvOps, q: seq<nat>, key: string)
    requires InRange(|h|, q)
  {
    forall j | 0 <= j < |q| :: h[q[j]].input.key == key
  }

  lemma LastOn(h: KvOps, q: seq<nat>, key: string)
    requires InRange(|h|, q) && q != [] && AllOn(h, q, key)
    ensures InRange(|h|, q[..|q| - 1]) && AllOn(h, q[..|q| - 1], key)
    ensures q[|q| - 1] < |h| && h[q[|q| - 1]].input.key == key
  {
  }

  /** q orders all the operations of h in real time. */
  ghost predicate IsOrder(h: KvOps, q: seq<nat>) {
    |q| == |h| && InRange(|h|, q) && Distinct(q) && RespectsRealTime(h, q)
  }

  /** A history is linearizable exactly if it has a real-time order in which every answer is right. */
  lemma LinearizableIff(h: KvOps)
    ensures Linearizable(StoreModel(), h) <==> exists q :: IsOrder(h, q) && AnswersRight(h, q)
  {
    forall q | IsOrder(h, q) ensures IsLinearization(StoreModel(), h, q) <==> AnswersRight(h, q) { StoreLaw(h, q); }
    hide AnswersRight, RespectsRealTime, Distinct, Legal, InRange;
    if Linearizable(StoreModel(), h) {
      var q :| IsLinearization(StoreModel(), h, q);
      assert IsOrder(h, q);
    }
    if q :| IsOrder(h, q) && AnswersRight(h, q) { assert IsLinearization(StoreModel(), h, q); }
  }
}
