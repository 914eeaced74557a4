/**
 The whole check of a key-value history: partition by key, turn each part into sorted
 entries, search the parts in parallel, collect the verdicts.
 */
module CheckOperations {
  import opened Linearizability
  import opened Entries
  import opened Kv
  import opened Locality
  import opened Checker
  import P = Parallel

  type KvEntries = seq<Entry<KvInput, KvOutput>>

  /** k is the check of the history: its partitions are the parts, as entries in some order the sort may leave. */
  ghost predicate Prepared(ops: KvOps, parts: seq<KvOps>, entries: seq<KvEntries>, k: P.Check) {
    && IsPartition(ops, parts)
    && |parts| == |entries| == |k.lin|
    && (forall i | 0 <= i < |parts| :: MadeFrom(parts[i], entries[i]))
    && (forall i | 0 <= i < |parts| ::
       WellFormed(entries[i]) && (k.lin[i] <==> Linearizable(KvModel(), OpsOf(entries[i]))))
  }

  lemma PartIsTimed(ops: KvOps, key: string)
    requires WellTimed(ops)
    ensures WellTimed(OfKey(ops, key))
  {
    IdsOfKeyAre(ops, key);
  }

  /** What makeEntries returns for a part can be searched, and is linearizable exactly if the part is. */
  lemma MadeIsFaithful(ops: KvOps, part: KvOps, entries: KvEntries)
    requires WellTimed(ops) && part == OfKey(ops, KeyOf(part)) && MadeFrom(part, entries)
    ensures WellFormed(entries) && (Linearizable(KvModel(), OpsOf(entries)) <==> Linearizable(KvModel(), part))
  {
    hide Linearizable, IsRaw, IsSorting, WellFormed, OfKey;
    PartIsTimed(ops, KeyOf(part));
    var raw :| IsRaw(part, raw) && IsSorting(raw, entries);
    EntriesFaithful(KvModel(), part, raw, entries);
  }

  /** Searching every part says exactly whether the history as a whole is linearizable. */
  lemma PartsDecide(ops: KvOps, parts: seq<KvOps>, entries: seq<KvEntries>, k: P.Check)
    requires WellTimed(ops) && Prepared(ops, parts, entries, k)
    ensures P.AllLinearizable(k) <==> Linearizable(StoreModel(), ops)
  {
    hide Linearizable, MadeFrom, WellFormed, WellTimed, OfKey;
    PartsDecideHistory(ops, parts);
    forall i | 0 <= i < |parts| ensures k.lin[i] <==> Linearizable(KvModel(), parts[i]) {
      MadeIsFaithful(ops, parts[i], entries[i]);
    }
  }

  /**
   Partitions a history, makes the entries of every part and searches them; kill(i, j) is what the
   j-th look of search i finds. If every answer is yes the history is linearizable; if one is no
   and its search was not killed, the history is not. k is the check these are the answers of.
   */
  method SearchParts(history: KvOps, computeInfo: bool, timeout: bool, kill: (nat, nat) -> bool)
    returns (answers: seq<bool>, looks: seq<nat>, ghost parts: seq<KvOps>, ghost entries: seq<KvEntries>,
        ghost k: P.Check)
    requires WellTimed(history)
    ensures |answers| == |looks|
    ensures (forall i | 0 <= i < |answers| :: answers[i]) ==> Linearizable(StoreModel(), history)
    ensures (exists i | 0 <= i < |answers| :: !answers[i] && !kill(i, looks[i]))
            ==> !Linearizable(StoreModel(), history)
    ensures Prepared(history, parts, entries, k) && |k.lin| == |answers| && k == P.Check(k.lin, computeInfo, timeout)
    ensures forall i | 0 <= i < |answers| :: Truthful(k.lin[i], kill(i, looks[i]), answers[i])
  {
    ModelsBisimulate();
    hide Linearizable, MadeFrom, WellFormed, WellTimed, OfKey, IsPartition, EqualIsBisimulation, ValidPartials,
        MaximalPartials;
    var ps := Partition(history);
    parts, entries, answers, looks := ps, [], [], [];
    ghost var lin: seq<bool> := [];
    for i := 0 to |ps|
      invariant |entries| == |answers| == |looks| == |lin| == i
      invariant forall j | 0 <= j < i :: MadeFrom(ps[j], entries[j]) && WellFormed(entries[j])
      invariant forall j | 0 <= j < i :: lin[j] <==> Linearizable(KvModel(), OpsOf(entries[j]))
      invariant forall j | 0 <= j < i :: Truthful(lin[j], kill(j, looks[j]), answers[j])
    {
      var e := MakeEntries(ps[i]);
      PartOfHistory(history, ps, i);
      MadeIsFaithful(history, ps[i], e);
      var ok, _, n := CheckSingle(KvModel(), e, computeInfo, (j: nat) => kill(i, j));
      entries, answers, looks := entries + [e], answers + [ok], looks + [n];
      lin := lin + [Linearizable(KvModel(), OpsOf(e))];
    }
    k := P.Check(lin, computeInfo, timeout);
    PartsDecide(history, parts, entries, k);
  }

  lemma PartOfHistory(h: KvOps, parts: seq<KvOps>, i: nat)
    requires IsPartition(h, parts) && i < |parts|
    ensures parts[i] == OfKey(h, KeyOf(parts[i]))
  {
  }

  /** A finished check never misjudges a history, and without a timeout it decides it. */
  lemma CheckIsRight(ops: KvOps, parts: seq<KvOps>, entries: seq<KvEntries>, k: P.Check, run: seq<P.Step>,
      c: P.Collector)
    requires WellTimed(ops) && Prepared(ops, parts, entries, k)
    requires P.Runs(k, run, c) && c.phase == P.Finished
    ensures P.Result(c) == P.Ok ==> Linearizable(StoreModel(), ops)
    ensures P.Result(c) == P.Illegal ==> !Linearizable(StoreModel(), ops)
    ensures !k.timeout ==> (P.Result(c) == P.Ok <==> Linearizable(StoreModel(), ops))
    ensures P.Result(c) == P.Illegal <==> P.FailureReceived(run)
    ensures P.Result(c) == P.Unknown <==> P.TimeOut in run && !P.FailureReceived(run)
  {
    hide Prepared, Linearizable, WellTimed, P.FailureReceived;
    PartsDecide(ops, parts, entries, k);
    P.VerdictIsRight(k, run, c);
    P.VerdictIff(k, run, c);
  }

  /** The empty history, though linearizable, has no partition: its check ends exactly if a timeout was given. */
  lemma EmptyHistoryNeverEnds(parts: seq<KvOps>, entries: seq<KvEntries>, k: P.Check, run: seq<P.Step>, c: P.Collector)
    requires Prepared([], parts, entries, k) && P.Runs(k, run, c)
    ensures Linearizable(StoreModel(), [])
    ensures !k.timeout ==> c.phase == P.Looping && forall s :: !P.CanStep(k, c, s)
    ensures k.timeout && c.phase == P.Looping ==> P.CanStep(k, c, P.TimeOut)
  {
    assert IsLinearization(StoreModel(), [], []);
    assert forall i | 0 <= i < |parts| :: KeysOf(parts)[i] in KeysOf(parts) && KeysOf(parts)[i] in Keys([]);
    P.StuckIff(k, run, c);
  }
}
