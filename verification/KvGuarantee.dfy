/** The server and the checker together: what the checker says of histories that the server produced. */
module KvGuarantee {
  import opened Collections
  import opened Linearizability
  import opened Kv
  import opened KvLaw
  import opened Locality
  import opened CheckOperations
  import KvSystem
  import P = Parallel

  /** The operations on one key of a complete run are linearizable against the one-key model. */
  lemma KeysAreLinearizable(n: nat, run: seq<KvSystem.Step>, sys: KvSystem.System, key: string)
    requires KvSystem.Runs(n, run, sys) && KvSystem.Complete(sys)
    ensures forall s | 0 <= s < |sys.ops| :: sys.ops[s].answer.Some?
    ensures key in Keys(KvSystem.History(sys.ops)) ==> Linearizable(KvModel(), OfKey(KvSystem.History(sys.ops), key))
  {
    KvSystem.RunsAreLinearizable(n, run, sys);
    assert Linearizable(StoreModel(), KvSystem.History(sys.ops));
    hide *;
    PartitionIsSound(KvSystem.History(sys.ops));
  }

  /** A check of a complete run never answers Illegal, and answers Ok if it finishes without a timeout. */
  lemma CheckedRunsPass(n: nat, run: seq<KvSystem.Step>, sys: KvSystem.System,
                        parts: seq<KvOps>, entries: seq<KvEntries>, k: P.Check, steps: seq<P.Step>, c: P.Collector)
    requires KvSystem.Runs(n, run, sys) && KvSystem.Complete(sys)
    requires forall s | 0 <= s < |sys.ops| :: sys.ops[s].answer.Some?
    requires Prepared(KvSystem.History(sys.ops), parts, entries, k)
    requires P.Runs(k, steps, c) && c.phase == P.Finished
    ensures P.Result(c) != P.Illegal
    ensures !k.timeout ==> P.Result(c) == P.Ok
  {
    KvSystem.RunsAreLinearizable(n, run, sys);
    assert Linearizable(StoreModel(), KvSystem.History(sys.ops));
    hide *;
    CheckIsRight(KvSystem.History(sys.ops), parts, entries, k, steps, c);
  }

  /** Partitioning, sorting and searching the history of a complete run: no search answers no unless it was killed. */
  method SearchRun(ghost n: nat, ghost run: seq<KvSystem.Step>, sys: KvSystem.System, computeInfo: bool, timeout: bool,
      kill: (nat, nat) -> bool)
    returns (answers: seq<bool>, looks: seq<nat>)
    requires KvSystem.Runs(n, run, sys) && KvSystem.Complete(sys)
    ensures |answers| == |looks| && forall i | 0 <= i < |answers| :: answers[i] || kill(i, looks[i])
  {
    KvSystem.RunsAreLinearizable(n, run, sys);
    assert Linearizable(StoreModel(), KvSystem.History(sys.ops));
    hide *;
    ghost var parts, entries, k;
    answers, looks, parts, entries, k := SearchParts(KvSystem.History(sys.ops), computeInfo, timeout, kill);
  }

  function WriteOfOp(op: KvSystem.Op): Write {
    match op
    case GetOp(_) => Leaves
    case PutOp(_, value) => Sets(value)
    case AppendOp(_, value) => Adds(value)
  }

  ghost predicate KnownLog(ops: seq<KvSystem.OpRecord>, log: seq<KvSystem.Effect>) {
    forall i | 0 <= i < |log| :: log[i].serial < |ops|
  }

  /** What the logged operations on a key do to its value, in order. */
  ghost function LogWrites(ops: seq<KvSystem.OpRecord>, log: seq<KvSystem.Effect>, key: string): seq<Write>
    requires KnownLog(ops, log)
  {
    if log == [] then []
    else
      var op := ops[log[|log| - 1].serial].op;
      LogWrites(ops, log[..|log| - 1], key) + if op.key == key then [WriteOfOp(op)] else []
  }

  lemma {:induction false} LogWritesAre(sys: KvSystem.System, i: nat, key: string)
    requires i <= |sys.log| && KnownLog(sys.ops, sys.log)
    ensures InRange(|sys.ops|, KvSystem.Serials(sys.log))
    ensures KnownLog(sys.ops, sys.log[..i])
    ensures LogWrites(sys.ops, sys.log[..i], key)
            == Writes(KvSystem.HistorySoFar(sys), KvSystem.Serials(sys.log)[..i], key)
  {
    hide KvSystem.OutputSoFar;
    if i > 0 {
      LogWritesAre(sys, i - 1, key);
      var q := KvSystem.Serials(sys.log);
      assert sys.log[..i][..i - 1] == sys.log[..i - 1] && q[..i][..i - 1] == q[..i - 1];
    }
  }

  /** Operation s takes effect as the i-th of the log, between its call and its return. */
  ghost predicate TakesEffect(sys: KvSystem.System, s: nat, i: nat)
    requires s < |sys.ops|
  {
    i < |sys.log| && sys.log[i].serial == s && sys.ops[s].call <= sys.log[i].at
    && (sys.ops[s].answer.Some? ==> sys.log[i].at <= sys.ops[s].answer.value.1)
  }

  /**
   In every run, each Get and each Append that was answered was answered with the value of the last Put logged
   before it on its key, followed by everything appended since.
   */
  lemma AnswersAreExact(n: nat, run: seq<KvSystem.Step>, sys: KvSystem.System, s: nat) returns (i: nat)
    requires KvSystem.Runs(n, run, sys) && s < |sys.ops| && sys.ops[s].answer.Some?
    ensures TakesEffect(sys, s, i) && KnownLog(sys.ops, sys.log[..i])
    ensures !sys.ops[s].op.PutOp? ==>
              sys.ops[s].answer.value.0.value == Value(LogWrites(sys.ops, sys.log[..i], sys.ops[s].op.key))
  {
    hide *;
    var h, q := KvSystem.HistorySoFar(sys), KvSystem.Serials(sys.log);
    KvSystem.RunsAreLinearizableSoFar(n, run, sys);
    PartialAnswersRight(h, q);
    LogIsKnown(n, run, sys);
    assert s in q;
    i :| 0 <= i < |q| && q[i] == s;
    LoggedInTime(n, run, sys, i);
    LogWritesAre(sys, i, sys.ops[s].op.key);
    if !sys.ops[s].op.PutOp? {
      OpIs(sys, s);
      AnswerAt(h, q, i);
    }
  }

  lemma PartialAnswersRight(h: KvOps, q: seq<nat>)
    requires IsPartialLinearization(StoreModel(), h, q)
    ensures InRange(|h|, q) && AnswersRight(h, q)
  {
    hide Legal;
    StoreLaw(h, q);
  }

  lemma AnswerAt(h: KvOps, q: seq<nat>, i: nat)
    requires InRange(|h|, q) && AnswersRight(h, q) && i < |q| && Answers(h[q[i]].input)
    ensures h[q[i]].output.value == Value(Writes(h, q[..i], h[q[i]].input.key))
  {
    hide Value, Writes;
    assert AnswerRight(h, q, i);
  }

  lemma OpIs(sys: KvSystem.System, s: nat)
    requires s < |sys.ops| && sys.ops[s].answer.Some? && !sys.ops[s].op.PutOp?
    ensures var h := KvSystem.HistorySoFar(sys);
            && |h| == |sys.ops| && h[s].output == sys.ops[s].answer.value.0
            && h[s].input.key == sys.ops[s].op.key && Answers(h[s].input)
  {
  }

  lemma LogIsKnown(n: nat, run: seq<KvSystem.Step>, sys: KvSystem.System)
    requires KvSystem.Runs(n, run, sys)
    ensures KnownLog(sys.ops, sys.log) && |KvSystem.HistorySoFar(sys)| == |sys.ops|
    ensures var q := KvSystem.Serials(sys.log); |q| == |sys.log| && forall j | 0 <= j < |q| :: q[j] == sys.log[j].serial
  {
    hide KvSystem.Runs;
    forall i: nat | i < |sys.log| ensures sys.log[i].serial < |sys.ops| { LoggedInTime(n, run, sys, i); }
  }

  lemma LoggedInTime(n: nat, run: seq<KvSystem.Step>, sys: KvSystem.System, i: nat)
    requires KvSystem.Runs(n, run, sys) && i < |sys.log|
    ensures sys.log[i].serial < |sys.ops| && TakesEffect(sys, sys.log[i].serial, i)
  {
    hide KvSystem.Runs, KvSystem.LogLegal, KvSystem.LogStore;
    KvSystem.RunKeepsInv(n, run, sys);
    assert KvSystem.EntryOk(sys, sys.log[i]);
  }

  /** In every run the store holds, for each key, the last Put logged on it followed by everything appended since. */
  lemma StoreIsTheLog(n: nat, run: seq<KvSystem.Step>, sys: KvSystem.System, key: string)
    requires KvSystem.Runs(n, run, sys)
    ensures KnownLog(sys.ops, sys.log) && Get(sys.server.store, key) == Value(LogWrites(sys.ops, sys.log, key))
  {
    hide *;
    var h, q := KvSystem.HistorySoFar(sys), KvSystem.Serials(sys.log);
    KvSystem.FinalIsStore(n, run, sys);
    LogIsKnown(n, run, sys);
    StoreLaw(h, q);
    LogWritesAre(sys, |sys.log|, key);
    assert sys.log[..|sys.log|] == sys.log && q[..|q|] == q;
  }
}
