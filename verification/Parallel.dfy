/**
 checkParallel as a step system: one search per partition, a channel of results, a collector
 that may stop early, a timeout, and a kill flag shared by all the searches.
 */
module Parallel {
  import opened Collections
  import opened Linearizability

  /** A check to be run: whether each partition is linearizable, and how the check was asked for. */
  datatype Check = Check(lin: seq<bool>, computeInfo: bool, timeout: bool)

  datatype Search = Running | Sent(result: bool) | Received(result: bool)

  datatype Phase = Looping | Draining | Finished

  datatype Collector = Collector(searches: seq<Search>, kill: bool, ok: bool, timedOut: bool, count: nat, phase: Phase)

  datatype CheckResult = Unknown | Ok | Illegal

  function Init(k: Check): Collector {
    Collector(seq(|k.lin|, i => Running), false, true, false, 0, Looping)
  }

  function LeaveLoop(k: Check): Phase { if k.computeInfo then Draining else Finished }

  datatype Step =
    | SearchEnds(i: nat, result: bool)
    | Receive(i: nat)
    | TimeOut
    | Drain(i: nat)
    | StopDraining

  /** A search that ends unkilled tells the truth; a killed one may say false of anything. */
  predicate CanStep(k: Check, c: Collector, s: Step) {
    match s
    case SearchEnds(i, r) =>
      && i < |k.lin| && i < |c.searches| && c.searches[i] == Running
      && Truthful(k.lin[i], c.kill, r)
    case Receive(i) => c.phase == Looping && i < |c.searches| && c.searches[i].Sent?
    case TimeOut => c.phase == Looping && k.timeout
    case Drain(i) => c.phase == Draining && c.count < |k.lin| && i < |c.searches| && c.searches[i].Sent?
    case StopDraining => c.phase == Draining && c.count >= |k.lin|
  }

  function Next(k: Check, c: Collector, s: Step): Collector
    requires CanStep(k, c, s)
  {
    match s
    case SearchEnds(i, r) => c.(searches := c.searches[i := Sent(r)])
    case Receive(i) =>
      var r := c.searches[i].result;
      var d := c.(searches := c.searches[i := Received(r)], count := c.count + 1, ok := c.ok && r);
      if !d.ok && !k.computeInfo then d.(kill := true, phase := LeaveLoop(k))
      else if d.count >= |k.lin| then d.(phase := LeaveLoop(k))
      else d
    case TimeOut => c.(timedOut := true, kill := true, phase := LeaveLoop(k))
    case Drain(i) => c.(searches := c.searches[i := Received(c.searches[i].result)], count := c.count + 1)
    case StopDraining => c.(phase := Finished)
  }

  /** c is where the steps of a run lead. */
  ghost predicate Runs(k: Check, run: seq<Step>, c: Collector)
    decreases |run|
  {
    if run == [] then c == Init(k)
    else
      var before, s := run[..|run| - 1], run[|run| - 1];
      exists b :: Runs(k, before, b) && CanStep(k, b, s) && c == Next(k, b, s)
  }

  function Result(c: Collector): CheckResult {
    if !c.ok then Illegal else if c.timedOut then Unknown else Ok
  }

  /* ---- what every step keeps ---- */

  ghost predicate AllLinearizable(k: Check) { forall i | 0 <= i < |k.lin| :: k.lin[i] }

  ghost function ReceivedSet(c: Collector): set<nat> {
    set i: nat | i < |c.searches| && c.searches[i].Received?
  }

  ghost predicate Inv(k: Check, c: Collector) {
    && |c.searches| == |k.lin|
    && c.count == |ReceivedSet(c)|
    && (forall i | 0 <= i < |c.searches| && !c.searches[i].Running? && c.searches[i].result :: k.lin[i])
    && (c.phase == Looping ==>
          && !c.kill && !c.timedOut
          && (forall i | 0 <= i < |c.searches| && !c.searches[i].Running? && !c.searches[i].result :: !k.lin[i])
          && (c.ok <==> forall i | 0 <= i < |c.searches| && c.searches[i].Received? :: c.searches[i].result)
          && (c.count < |k.lin| || |k.lin| == 0))
    && (!c.ok ==> !AllLinearizable(k))
    && (c.phase != Looping && c.ok && !c.timedOut ==> AllLinearizable(k))
    && (c.phase != Looping && !c.timedOut ==> |k.lin| > 0)
  }

  lemma ReceivedGrows(c: Collector, i: nat)
    requires i < |c.searches| && c.searches[i].Sent?
    ensures |ReceivedSet(c.(searches := c.searches[i := Received(c.searches[i].result)]))| == |ReceivedSet(c)| + 1
  {
    var d := c.(searches := c.searches[i := Received(c.searches[i].result)]);
    assert ReceivedSet(d) == ReceivedSet(c) + {i};
  }

  lemma EndsKeepsInv(k: Check, c: Collector, i: nat, r: bool)
    requires Inv(k, c) && CanStep(k, c, SearchEnds(i, r))
    ensures Inv(k, Next(k, c, SearchEnds(i, r)))
  {
    assert ReceivedSet(Next(k, c, SearchEnds(i, r))) == ReceivedSet(c);
  }

  lemma ReceiveKeepsInv(k: Check, c: Collector, i: nat)
    requires Inv(k, c) && CanStep(k, c, Receive(i))
    ensures Inv(k, Next(k, c, Receive(i)))
  {
    var d := Next(k, c, Receive(i));
    ReceivedGrows(c, i);
    assert ReceivedSet(d) == ReceivedSet(c.(searches := c.searches[i := Received(c.searches[i].result)]));
    if d.count >= |k.lin| {
      BelowSize(|k.lin|, ReceivedSet(d));
      forall j | 0 <= j < |k.lin| ensures d.searches[j].Received? { assert j in ReceivedSet(d); }
    }
  }

  lemma StepKeepsInv(k: Check, c: Collector, s: Step)
    requires Inv(k, c) && CanStep(k, c, s)
    ensures Inv(k, Next(k, c, s))
  {
    match s
    case SearchEnds(i, r) => EndsKeepsInv(k, c, i, r);
    case Receive(i) => ReceiveKeepsInv(k, c, i);
    case Drain(i) =>
      ReceivedGrows(c, i);
      assert ReceivedSet(Next(k, c, s)) == ReceivedSet(c.(searches := c.searches[i := Received(c.searches[i].result)]));
    case TimeOut => assert ReceivedSet(Next(k, c, s)) == ReceivedSet(c);
    case StopDraining => assert ReceivedSet(Next(k, c, s)) == ReceivedSet(c);
  }

  lemma {:induction false} RunKeepsInv(k: Check, run: seq<Step>, c: Collector)
    requires Runs(k, run, c)
    ensures Inv(k, c)
    decreases |run|
  {
    if run == [] {
      assert ReceivedSet(c) == {};
    } else {
      var b :| Runs(k, run[..|run| - 1], b) && CanStep(k, b, run[|run| - 1]) && c == Next(k, b, run[|run| - 1]);
      RunKeepsInv(k, run[..|run| - 1], b);
      StepKeepsInv(k, b, run[|run| - 1]);
    }
  }

  /** The steps lead from b to c. */
  ghost predicate Leads(k: Check, b: Collector, steps: seq<Step>, c: Collector)
    decreases |steps|
  {
    if steps == [] then b == c else CanStep(k, b, steps[0]) && Leads(k, Next(k, b, steps[0]), steps[1..], c)
  }

  /** The kill flag is never cleared. */
  lemma {:induction false} KillStays(k: Check, b: Collector, steps: seq<Step>, c: Collector)
    requires Leads(k, b, steps, c) && b.kill
    ensures c.kill
    decreases |steps|
  {
    if steps != [] { KillStays(k, Next(k, b, steps[0]), steps[1..], c); }
  }

  /** A search whose last look at the flag was in b may end, at any later time c, with what it then answers. */
  lemma AnswerIsAllowed(k: Check, b: Collector, steps: seq<Step>, c: Collector, i: nat, answer: bool)
    requires Leads(k, b, steps, c) && i < |k.lin| && i < |c.searches| && c.searches[i] == Running
    requires Truthful(k.lin[i], b.kill, answer)
    ensures CanStep(k, c, SearchEnds(i, answer))
  {
    if b.kill { KillStays(k, b, steps, c); }
  }

  /** Whatever the interleaving of results and timeout, the verdict is right; without a timeout it is exact. */
  lemma VerdictIsRight(k: Check, run: seq<Step>, c: Collector)
    requires Runs(k, run, c) && c.phase == Finished
    ensures Result(c) == Ok ==> AllLinearizable(k)
    ensures Result(c) == Illegal ==> !AllLinearizable(k)
    ensures Result(c) == Unknown ==> c.timedOut && k.timeout
    ensures !k.timeout ==> (Result(c) == Ok <==> AllLinearizable(k))
  {
    RunKeepsInv(k, run, c);
    TimedOutOnlyIfAsked(k, run, c);
  }

  lemma {:induction false} TimedOutOnlyIfAsked(k: Check, run: seq<Step>, c: Collector)
    requires Runs(k, run, c)
    ensures c.timedOut ==> k.timeout
    decreases |run|
  {
    if run != [] {
      var b :| Runs(k, run[..|run| - 1], b) && CanStep(k, b, run[|run| - 1]) && c == Next(k, b, run[|run| - 1]);
      TimedOutOnlyIfAsked(k, run[..|run| - 1], b);
    }
  }

  /* ---- the verdict, told by what happened ---- */

  /** A search had ended with false, and its result was received before the loop was left. */
  ghost predicate FailureReceived(run: seq<Step>) {
    exists i :: SearchEnds(i, false) in run && Receive(i) in run
  }

  /** What became of search i in a run. */
  ghost predicate Told(run: seq<Step>, c: Collector, i: nat)
    requires i < |c.searches|
  {
    match c.searches[i]
    case Running => SearchEnds(i, true) !in run && SearchEnds(i, false) !in run && Receive(i) !in run
    case Sent(r) => SearchEnds(i, r) in run && SearchEnds(i, !r) !in run && Receive(i) !in run
    case Received(r) => SearchEnds(i, r) in run && SearchEnds(i, !r) !in run
  }

  ghost predicate Chronicle(k: Check, run: seq<Step>, c: Collector) {
    && |c.searches| == |k.lin|
    && (forall i: nat | i < |c.searches| :: Told(run, c, i))
    && (forall i: nat | Receive(i) in run :: i < |c.searches| && c.searches[i].Received?)
    && (!c.ok <==> FailureReceived(run))
    && (c.timedOut <==> TimeOut in run)
    && (c.kill <==> c.timedOut || (!c.ok && !k.computeInfo))
    && (!c.ok && !k.computeInfo ==> c.phase == Finished)
    && (c.timedOut ==> c.phase != Looping)
    && (c.phase == Draining ==> k.computeInfo)
    && (c.phase == Finished && k.computeInfo ==> c.count >= |k.lin|)
  }

  lemma InRun(run: seq<Step>, s: Step, x: Step)
    ensures x in run + [s] <==> x in run || x == s
  {
  }

  lemma EndsKeepsChronicle(k: Check, run: seq<Step>, c: Collector, i: nat, r: bool)
    requires Chronicle(k, run, c) && CanStep(k, c, SearchEnds(i, r))
    ensures Chronicle(k, run + [SearchEnds(i, r)], Next(k, c, SearchEnds(i, r)))
  {
    var s := SearchEnds(i, r);
    forall x ensures x in run + [s] <==> x in run || x == s { InRun(run, s, x); }
    var d := Next(k, c, s);
    forall j: nat | j < |d.searches| ensures Told(run + [s], d, j) { assert Told(run, c, j); }
    assert FailureReceived(run + [s]) <==> FailureReceived(run) by {
      if j :| SearchEnds(j, false) in run + [s] && Receive(j) in run + [s] { assert Receive(j) in run; }
      if j :| SearchEnds(j, false) in run && Receive(j) in run { assert SearchEnds(j, false) in run + [s]; }
    }
  }

  lemma ReceiveKeepsChronicle(k: Check, run: seq<Step>, c: Collector, i: nat)
    requires Chronicle(k, run, c) && CanStep(k, c, Receive(i))
    ensures Chronicle(k, run + [Receive(i)], Next(k, c, Receive(i)))
  {
    var s := Receive(i);
    forall x ensures x in run + [s] <==> x in run || x == s { InRun(run, s, x); }
    var d := Next(k, c, s);
    assert Told(run, c, i);
    forall j: nat | j < |d.searches| ensures Told(run + [s], d, j) { assert Told(run, c, j); }
    assert FailureReceived(run + [s]) <==> FailureReceived(run) || !c.searches[i].result by {
      if j :| SearchEnds(j, false) in run + [s] && Receive(j) in run + [s] { assert SearchEnds(j, false) in run; }
      if j :| SearchEnds(j, false) in run && Receive(j) in run { assert Receive(j) in run + [s]; }
      if !c.searches[i].result { assert SearchEnds(i, false) in run + [s] && Receive(i) in run + [s]; }
    }
  }

  lemma OtherKeepsChronicle(k: Check, run: seq<Step>, c: Collector, s: Step)
    requires Chronicle(k, run, c) && CanStep(k, c, s) && !s.SearchEnds? && !s.Receive?
    ensures Chronicle(k, run + [s], Next(k, c, s))
  {
    forall x ensures x in run + [s] <==> x in run || x == s { InRun(run, s, x); }
    var d := Next(k, c, s);
    forall j: nat | j < |d.searches| ensures Told(run + [s], d, j) { assert Told(run, c, j); }
    assert FailureReceived(run + [s]) <==> FailureReceived(run) by {
      if j :| SearchEnds(j, false) in run + [s] && Receive(j) in run + [s] { assert Receive(j) in run; }
      if j :| SearchEnds(j, false) in run && Receive(j) in run { assert Receive(j) in run + [s]; }
    }
  }

  lemma {:induction false} RunKeepsChronicle(k: Check, run: seq<Step>, c: Collector)
    requires Runs(k, run, c)
    ensures Chronicle(k, run, c)
    decreases |run|
  {
    if run != [] {
      hide Chronicle, Next, CanStep;
      var before, s := run[..|run| - 1], run[|run| - 1];
      var b :| Runs(k, before, b) && CanStep(k, b, s) && c == Next(k, b, s);
      assert run == before + [s];
      RunKeepsChronicle(k, before, b);
      match s
      case SearchEnds(i, r) => EndsKeepsChronicle(k, before, b, i, r);
      case Receive(i) => ReceiveKeepsChronicle(k, before, b, i);
      case _ => OtherKeepsChronicle(k, before, b, s);
    }
  }

  /**
   The verdict of a finished run is Illegal exactly if a failure was received, Unknown exactly if there was a
   timeout and no such failure, and Ok exactly if there was neither. With computeInfo, every search has been
   waited for; without it, a failure stops the searches.
   */
  lemma VerdictIff(k: Check, run: seq<Step>, c: Collector)
    requires Runs(k, run, c) && c.phase == Finished
    ensures Result(c) == Illegal <==> FailureReceived(run)
    ensures Result(c) == Unknown <==> TimeOut in run && !FailureReceived(run)
    ensures Result(c) == Ok <==> TimeOut !in run && !FailureReceived(run)
    ensures k.computeInfo ==> forall i | 0 <= i < |k.lin| :: |c.searches| == |k.lin| && c.searches[i].Received?
    ensures c.kill <==> TimeOut in run || (FailureReceived(run) && !k.computeInfo)
  {
    hide FailureReceived, Told, AllLinearizable;
    RunKeepsChronicle(k, run, c);
    RunKeepsInv(k, run, c);
    if k.computeInfo {
      BelowSize(|k.lin|, ReceivedSet(c));
      forall i | 0 <= i < |k.lin| ensures c.searches[i].Received? { assert i in ReceivedSet(c); }
    }
  }

  /* ---- when the collector comes to an end ---- */

  ghost function Weight(s: Search): nat { match s case Running => 2 case Sent(_) => 1 case Received(_) => 0 }

  ghost function Pending(ss: seq<Search>): nat {
    if ss == [] then 0 else Pending(ss[..|ss| - 1]) + Weight(ss[|ss| - 1])
  }

  ghost function Left(c: Collector): nat {
    Pending(c.searches) + match c.phase case Looping => 2 case Draining => 1 case Finished => 0
  }

  lemma {:induction false} PendingDrops(ss: seq<Search>, i: nat, s: Search)
    requires i < |ss| && Weight(s) < Weight(ss[i])
    ensures Pending(ss[i := s]) < Pending(ss)
  {
    var n := |ss| - 1;
    if i < n {
      PendingDrops(ss[..n], i, s);
      assert ss[i := s][..n] == ss[..n][i := s];
    } else {
      assert ss[i := s][..n] == ss[..n];
    }
  }

  /** Every step brings the end closer, so every run is finite. */
  lemma StepDrops(k: Check, c: Collector, s: Step)
    requires CanStep(k, c, s)
    ensures Left(Next(k, c, s)) < Left(c)
  {
    match s
    case SearchEnds(i, r) => PendingDrops(c.searches, i, Sent(r));
    case Receive(i) => PendingDrops(c.searches, i, Received(c.searches[i].result));
    case Drain(i) => PendingDrops(c.searches, i, Received(c.searches[i].result));
    case TimeOut =>
    case StopDraining =>
  }

  lemma {:induction false} RunIsBounded(k: Check, run: seq<Step>, c: Collector)
    requires Runs(k, run, c)
    ensures |run| + Left(c) <= 2 * |k.lin| + 2
    decreases |run|
  {
    if run == [] {
      AllRunning(c.searches);
    } else {
      var b :| Runs(k, run[..|run| - 1], b) && CanStep(k, b, run[|run| - 1]) && c == Next(k, b, run[|run| - 1]);
      RunIsBounded(k, run[..|run| - 1], b);
      StepDrops(k, b, run[|run| - 1]);
    }
  }

  lemma {:induction false} AllRunning(ss: seq<Search>)
    requires forall i | 0 <= i < |ss| :: ss[i] == Running
    ensures Pending(ss) == 2 * |ss|
  {
    if ss != [] { AllRunning(ss[..|ss| - 1]); }
  }

  /**
   A run can always go on until it is finished, except in one case: with no partition and
   no timeout there is never a result to wait for, and the collector waits forever.
   */
  lemma StuckIff(k: Check, run: seq<Step>, c: Collector)
    requires Runs(k, run, c)
    ensures (forall s :: !CanStep(k, c, s)) <==>
              || (c.phase == Finished && forall i | 0 <= i < |c.searches| :: c.searches[i] != Running)
              || (|k.lin| == 0 && !k.timeout)
    ensures |k.lin| == 0 && !k.timeout ==> c.phase == Looping
  {
    RunKeepsInv(k, run, c);
    if |k.lin| == 0 && !k.timeout {
      TimedOutOnlyIfAsked(k, run, c);
    } else if exists i: nat :: i < |c.searches| && c.searches[i] == Running {
      var i: nat :| i < |c.searches| && c.searches[i] == Running;
      assert CanStep(k, c, SearchEnds(i, k.lin[i]));
    } else if c.phase == Draining && c.count >= |k.lin| {
      assert CanStep(k, c, StopDraining);
    } else if c.phase == Looping && k.timeout {
      assert CanStep(k, c, TimeOut);
    } else if c.phase != Finished {
      SomeSent(k, c);
      var i: nat :| i < |c.searches| && c.searches[i].Sent?;
      assert CanStep(k, c, if c.phase == Looping then Receive(i) else Drain(i));
    }
  }

  lemma SomeSent(k: Check, c: Collector)
    requires Inv(k, c) && c.count < |k.lin| && forall i | 0 <= i < |c.searches| :: c.searches[i] != Running
    ensures exists i: nat :: i < |c.searches| && c.searches[i].Sent?
  {
    if forall i: nat | i < |c.searches| :: c.searches[i].Received? {
      FullSize(|k.lin|, ReceivedSet(c));
    }
  }
}
