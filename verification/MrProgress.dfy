/**
 From wherever a run of a MapReduce job has got to, whatever workers have crashed or stalled, it can go on
 so that the job is done and has the output of the sequential program.
 */
module MrProgress {
  import opened Coordinator
  import opened MapReduce
  import opened MrSystem
  import opened MrOutput
  import opened MrResult
  import opened Strings

  /** The run leads to s. */
  ghost predicate At(job: Job, start: int, run: seq<Step>, s: Sys)
    requires ValidJob(job)
  {
    start > ZERO_TIME && IsRun(job, Init(job, start), run) && After(job, Init(job, start), run) == s
  }

  lemma Goes(job: Job, start: int, run: seq<Step>, s: Sys, x: Step)
    requires ValidJob(job) && At(job, start, run, s) && CanStep(job, s, x)
    ensures At(job, start, run + [x], Next(job, s, x))
  {
    hide CanStep, Next, Init;
    LastStep(job, Init(job, start), run, x);
  }

  lemma AtInv(job: Job, start: int, run: seq<Step>, s: Sys)
    requires ValidJob(job) && At(job, start, run, s)
    ensures Inv(job, s)
  {
    hide Inv, CanStep, Next;
    InitInv(job, start);
    RunKeepsInv(job, Init(job, start), run);
  }

  /* ---- every collection of pairs can be sorted ---- */

  lemma {:induction false} InsertPair(t: seq<KeyValue>, x: KeyValue) returns (r: seq<KeyValue>)
    requires SortedByKey(t)
    ensures SortedByKey(r) && multiset(r) == multiset(t) + multiset{x}
    ensures forall y :: y in r <==> y == x || y in t
  {
    if t == [] {
      r := [x];
    } else if StrLe(x.key, t[0].key) {
      forall j | 0 <= j < |t| ensures StrLe(x.key, t[j].key) {
        if j > 0 { StrLeTransitive(x.key, t[0].key, t[j].key); }
      }
      r := [x] + t;
    } else {
      StrLeTotal(x.key, t[0].key);
      var rest := InsertPair(t[1..], x);
      assert t == [t[0]] + t[1..];
      forall j | 0 <= j < |rest| ensures StrLe(t[0].key, rest[j].key) {
        assert rest[j] in rest;
        if rest[j] in t[1..] { var k :| 0 <= k < |t[1..]| && t[1..][k] == rest[j]; assert t[k + 1] == rest[j]; }
      }
      r := [t[0]] + rest;
    }
  }

  lemma {:induction false} SortExists(kva: seq<KeyValue>) returns (sorted: seq<KeyValue>)
    ensures IsSortOf(sorted, multiset(kva))
  {
    if kva == [] {
      sorted := [];
    } else {
      var n := |kva| - 1;
      sorted := SortExists(kva[..n]);
      sorted := InsertPair(sorted, kva[n]);
      assert kva == kva[..n] + [kva[n]];
    }
  }

  /* ---- outputs opened but not renamed ---- */

  predicate IsOpen(t: Attempt) { t.ReduceAttempt? && t.stage == Created }

  ghost predicate NoneOpen(attempts: seq<Attempt>) { forall a | 0 <= a < |attempts| :: !IsOpen(attempts[a]) }

  lemma {:induction false} WritesFinish(job: Job, start: int, run: seq<Step>, s: Sys, a: nat)
      returns (run': seq<Step>, s': Sys)
    requires ValidJob(job) && At(job, start, run, s) && a <= |s.attempts|
    requires forall b | 0 <= b < a :: !IsOpen(s.attempts[b])
    ensures At(job, start, run', s') && run <= run' && NoneOpen(s'.attempts)
    decreases |s.attempts| - a
  {
    hide At, GroupLines, Flatten, IsSortOf;
    run', s' := run, s;
    if a < |s.attempts| {
      if IsOpen(s.attempts[a]) {
        var sorted := SortExists(Flatten(s.attempts[a].read));
        Goes(job, start, run, s, RenameOut(a, sorted));
        run', s' := run + [RenameOut(a, sorted)], Next(job, s, RenameOut(a, sorted));
      }
      run', s' := WritesFinish(job, start, run', s', a + 1);
    }
  }

  /** A file that was last emptied has a worker that opened it and is still to rename its output. */
  ghost predicate EmptiedIsOpen(attempts: seq<Attempt>, r: nat, at: Touch) {
    at == Emptied ==> exists a :: 0 <= a < |attempts| && IsOpen(attempts[a]) && attempts[a].task == r
  }

  lemma StepKeepsOpen(job: Job, s: Sys, x: Step, r: nat, at: Touch)
    requires ValidJob(job) && CanStep(job, s, x) && EmptiedIsOpen(s.attempts, r, at)
    ensures EmptiedIsOpen(Next(job, s, x).attempts, r, TouchOf(s, x, r, at))
  {
    hide Assign, Finish, GroupLines, IsSortOf, Bucket, Flatten;
    var after, t := Next(job, s, x).attempts, TouchOf(s, x, r, at);
    if t == Emptied {
      if x.CreateOut? && s.attempts[x.a].task == r {
        assert IsOpen(after[x.a]) && after[x.a].task == r;
      } else {
        var a :| 0 <= a < |s.attempts| && IsOpen(s.attempts[a]) && s.attempts[a].task == r;
        assert after[a] == s.attempts[a];
      }
    }
  }

  lemma {:induction false} RunKeepsOpen(job: Job, s: Sys, run: seq<Step>, r: nat, at: Touch)
    requires ValidJob(job) && IsRun(job, s, run) && EmptiedIsOpen(s.attempts, r, at)
    ensures EmptiedIsOpen(After(job, s, run).attempts, r, LastTouch(job, s, run, r, at))
    decreases |run|
  {
    hide CanStep, Next, TouchOf, EmptiedIsOpen;
    if run != [] {
      StepKeepsOpen(job, s, run[0], r, at);
      RunKeepsOpen(job, Next(job, s, run[0]), run[1..], r, TouchOf(s, run[0], r, at));
    }
  }

  /* ---- one round: a task is handed out and carried out ---- */

  ghost function Unfinished(ts: seq<Task>): set<nat> { set i: nat | i < |ts| && ts[i].state != Done }

  lemma OneMoreDone(ts: seq<Task>, i: nat, stamp: int)
    requires i < |ts| && ts[i].state != Done
    ensures |Unfinished(ts[i := Task(Done, stamp)])| < |Unfinished(ts)|
  {
    assert Unfinished(ts) == Unfinished(ts[i := Task(Done, stamp)]) + {i};
  }

  /** When all stamps are old, a task that is not done can be handed out. */
  lemma NoneFreeIsDone(ts: seq<Task>, clock: int, now: int)
    requires TableOk(ts, clock) && now - clock > LIMIT
    ensures FirstFree(ts, now) == |ts| ==> AllDone(ts) && NoneRunning(ts)
    ensures FirstFree(ts, now) < |ts| ==> ts[FirstFree(ts, now)].state != Done
  {
  }

  lemma {:induction false} RenamesFinish(job: Job, start: int, run: seq<Step>, s: Sys, a: nat)
      returns (run': seq<Step>, s': Sys)
    requires ValidJob(job) && At(job, start, run, s) && a < |s.attempts|
    requires s.attempts[a].MapAttempt? && s.attempts[a].renamed <= job.nReduce
    ensures At(job, start, run', s') && run <= run' && s'.coord == s.coord && s'.clock == s.clock
    ensures s'.attempts == s.attempts[a := s.attempts[a].(renamed := job.nReduce)]
    decreases job.nReduce - s.attempts[a].renamed
  {
    hide At, Bucket;
    run', s' := run, s;
    if s.attempts[a].renamed < job.nReduce {
      Goes(job, start, run, s, RenameMap(a));
      run', s' := run + [RenameMap(a)], Next(job, s, RenameMap(a));
      run', s' := RenamesFinish(job, start, run', s', a);
    }
  }

  lemma {:induction false} ReadsFinish(job: Job, start: int, run: seq<Step>, s: Sys, a: nat)
      returns (run': seq<Step>, s': Sys)
    requires ValidJob(job) && At(job, start, run, s) && a < |s.attempts|
    requires s.attempts[a].ReduceAttempt? && s.attempts[a].stage == Reading && |s.attempts[a].read| <= |job.mapped|
    ensures At(job, start, run', s') && run <= run' && s'.coord == s.coord && s'.clock == s.clock
    ensures |s'.attempts| == |s.attempts| && s'.attempts == s.attempts[a := s'.attempts[a]]
    ensures s'.attempts[a].ReduceAttempt? && |s'.attempts[a].read| == |job.mapped|
    ensures s'.attempts[a] == s.attempts[a].(read := s'.attempts[a].read)
    decreases |job.mapped| - |s.attempts[a].read|
  {
    hide At, Inv;
    run', s' := run, s;
    if |s.attempts[a].read| < |job.mapped| {
      AtInv(job, start, run, s);
      ReadsNeverFail(job, s, a);
      Goes(job, start, run, s, ReadFile(a));
      run', s' := run + [ReadFile(a)], Next(job, s, ReadFile(a));
      run', s' := ReadsFinish(job, start, run', s', a);
    }
  }

  /** A map task is handed out, mapped and reported; or all map tasks are found done. */
  lemma MapRound(job: Job, start: int, run: seq<Step>, s: Sys) returns (run': seq<Step>, s': Sys)
    requires ValidJob(job) && At(job, start, run, s) && !s.coord.mapFinish && NoneOpen(s.attempts)
    ensures At(job, start, run', s') && run <= run' && NoneOpen(s'.attempts)
    ensures s'.coord.mapFinish || |Unfinished(s'.coord.maps)| < |Unfinished(s.coord.maps)|
  {
    hide At, Bucket, FirstFree, Unfinished;
    AtInv(job, start, run, s);
    var maps, now := s.coord.maps, s.clock + LIMIT + 1;
    var i := FirstFree(maps, now);
    NoneFreeIsDone(maps, s.clock, now);
    var ask := Ask(now, now, if i < |maps| then job.mapped[i] else []);
    Goes(job, start, run, s, ask);
    run', s' := run + [ask], Next(job, s, ask);
    if i < |maps| {
      var a := |s.attempts|;
      assert s'.attempts[a] == MapAttempt(i, now, job.mapped[i], 0);
      run', s' := RenamesFinish(job, start, run', s', a);
      Goes(job, start, run', s', ReportMap(a));
      run', s' := run' + [ReportMap(a)], Next(job, s', ReportMap(a));
      assert s'.coord.maps == maps[i := Task(Done, now)];
      OneMoreDone(maps, i, now);
    }
  }

  /** A reduce task is handed out, reduced and reported; or all reduce tasks are found done. */
  lemma ReduceRound(job: Job, start: int, run: seq<Step>, s: Sys) returns (run': seq<Step>, s': Sys)
    requires ValidJob(job) && At(job, start, run, s) && s.coord.mapFinish && NoneOpen(s.attempts)
    ensures At(job, start, run', s') && run <= run' && NoneOpen(s'.attempts) && s'.coord.mapFinish
    ensures s'.coord.reduceFinish || |Unfinished(s'.coord.reduces)| < |Unfinished(s.coord.reduces)|
  {
    hide At, Bucket, FirstFree, Unfinished, GroupLines, Flatten, IsSortOf;
    AtInv(job, start, run, s);
    var reduces, now := s.coord.reduces, s.clock + LIMIT + 1;
    var i := FirstFree(reduces, now);
    NoneFreeIsDone(reduces, s.clock, now);
    var ask := Ask(now, now, []);
    Goes(job, start, run, s, ask);
    run', s' := run + [ask], Next(job, s, ask);
    if i < |reduces| {
      var a := |s.attempts|;
      assert s'.attempts[a] == ReduceAttempt(i, now, [], Reading);
      run', s' := ReadsFinish(job, start, run', s', a);
      run', s' := WriteAndReport(job, start, run', s', a);
      assert s'.coord.reduces == reduces[i := Task(Done, now)];
      OneMoreDone(reduces, i, now);
    }
  }

  /** A worker that has read its files writes its output and reports. */
  lemma WriteAndReport(job: Job, start: int, run: seq<Step>, s: Sys, a: nat) returns (run': seq<Step>, s': Sys)
    requires ValidJob(job) && At(job, start, run, s) && a < |s.attempts| && s.attempts[a].ReduceAttempt?
    requires s.attempts[a].stage == Reading && |s.attempts[a].read| == |job.mapped|
    requires s.attempts[a].task < |s.coord.reduces|
    ensures At(job, start, run', s') && run <= run'
    ensures s'.attempts == s.attempts[a := s.attempts[a].(stage := Renamed)]
    ensures s'.coord == s.coord.(reduces := Finish(s.coord.reduces, s.attempts[a].task, s.attempts[a].stamp))
  {
    hide At, GroupLines, Flatten, IsSortOf, Finish;
    var sorted := SortExists(Flatten(s.attempts[a].read));
    Goes(job, start, run, s, CreateOut(a));
    var s1 := Next(job, s, CreateOut(a));
    Goes(job, start, run + [CreateOut(a)], s1, RenameOut(a, sorted));
    var s2 := Next(job, s1, RenameOut(a, sorted));
    Goes(job, start, run + [CreateOut(a)] + [RenameOut(a, sorted)], s2, ReportReduce(a));
    run' := run + [CreateOut(a)] + [RenameOut(a, sorted)] + [ReportReduce(a)];
    s' := Next(job, s2, ReportReduce(a));
  }

  lemma {:induction false} MapsFinish(job: Job, start: int, run: seq<Step>, s: Sys) returns (run': seq<Step>, s': Sys)
    requires ValidJob(job) && At(job, start, run, s) && NoneOpen(s.attempts)
    ensures At(job, start, run', s') && run <= run' && NoneOpen(s'.attempts) && s'.coord.mapFinish
    decreases |Unfinished(s.coord.maps)|
  {
    hide At, NoneOpen, Unfinished;
    run', s' := run, s;
    if !s.coord.mapFinish {
      run', s' := MapRound(job, start, run, s);
      if !s'.coord.mapFinish { run', s' := MapsFinish(job, start, run', s'); }
    }
  }

  lemma {:induction false} ReducesFinish(job: Job, start: int, run: seq<Step>, s: Sys)
      returns (run': seq<Step>, s': Sys)
    requires ValidJob(job) && At(job, start, run, s) && NoneOpen(s.attempts) && s.coord.mapFinish
    ensures At(job, start, run', s') && run <= run' && NoneOpen(s'.attempts) && IsDone(s'.coord)
    decreases |Unfinished(s.coord.reduces)|
  {
    hide At, NoneOpen, Unfinished;
    run', s' := run, s;
    if !s.coord.reduceFinish {
      run', s' := ReduceRound(job, start, run, s);
      if !s'.coord.reduceFinish { run', s' := ReducesFinish(job, start, run', s'); }
    }
  }

  /**
   Every run can go on, whoever has crashed or stalled, until the job is done and its output files together are
   the lines of the sequential program.
   */
  lemma JobCanSucceed(job: Job, start: int, run: seq<Step>, sequential: seq<KeyValue>) returns (run': seq<Step>)
    requires ValidJob(job) && OrderInsensitive(job.reducef) && start > ZERO_TIME
    requires IsRun(job, Init(job, start), run) && IsSortOf(sequential, multiset(Flatten(job.mapped)))
    ensures run <= run' && IsRun(job, Init(job, start), run')
    ensures var s := After(job, Init(job, start), run');
            && IsDone(s.coord)
            && multiset(Flatten(AllOutputs(s, job.nReduce))) == multiset(GroupLines(job.reducef, sequential))
  {
    hide IsRun, MrSystem.After, Init, GroupLines, Flatten, IsSortOf, OrderInsensitive, AllOutputs, TouchIn, Bucket;
    var s;
    run', s := WritesFinish(job, start, run, After(job, Init(job, start), run), 0);
    run', s := MapsFinish(job, start, run', s);
    run', s := ReducesFinish(job, start, run', s);
    forall r ensures TouchIn(job, start, run', r) != Emptied { NotEmptied(job, start, run', s, r); }
    DoneJobIsSequential(job, start, run', sequential);
  }

  lemma NotEmptied(job: Job, start: int, run: seq<Step>, s: Sys, r: nat)
    requires ValidJob(job) && At(job, start, run, s) && NoneOpen(s.attempts)
    ensures IsRun(job, Init(job, start), run) && TouchIn(job, start, run, r) != Emptied
  {
    RunKeepsOpen(job, Init(job, start), run, r, Never);
  }
}
