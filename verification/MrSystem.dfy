/**
 A whole MapReduce job: the coordinator, any number of workers, and the files they share.
 Each assignment starts an attempt; an attempt may stall for any time or crash, which here
 means that it takes no further step. A rename is atomic; mapf may emit its pairs in any order.
 */
module MrSystem {
  import opened Coordinator
  import opened MapReduce

  datatype Stage = Reading | Created | Renamed

  datatype Attempt =
    | MapAttempt(task: nat, stamp: int, kva: seq<KeyValue>, renamed: nat)
    | ReduceAttempt(task: nat, stamp: int, read: seq<seq<KeyValue>>, stage: Stage)

  /** files holds mr-m-r under (m, r), and outs holds mr-out-r under r. */
  datatype Sys = Sys(coord: Coord, clock: int, attempts: seq<Attempt>, files: map<(nat, nat), seq<KeyValue>>,
      outs: map<nat, seq<Line>>)

  datatype Step =
    | Ask(now: int, later: int, kva: seq<KeyValue>)  // a worker asks for work; kva is what its mapf would emit
    | RenameMap(a: nat)
    | ReportMap(a: nat)
    | ReadFile(a: nat)
    | CreateOut(a: nat)                              // opens mr-out-r, emptying it
    | RenameOut(a: nat, sorted: seq<KeyValue>)
    | ReportReduce(a: nat)

  predicate ValidJob(job: Job) { job.nReduce > 0 }

  function Init(job: Job, start: int): Sys {
    Sys(InitCoord(|job.mapped|, job.nReduce), start, [], map[], map[])
  }

  ghost predicate CanStep(job: Job, s: Sys, x: Step)
    requires ValidJob(job)
  {
    match x
    case Ask(now, later, kva) =>
      && s.clock <= now <= later
      && var m := Assign(s.coord, now, later).1;
      (m.MapMission? ==> m.index < |job.mapped| && multiset(kva) == multiset(job.mapped[m.index]))
    case RenameMap(a) => a < |s.attempts| && s.attempts[a].MapAttempt? && s.attempts[a].renamed < job.nReduce
    case ReportMap(a) =>
      && a < |s.attempts| && s.attempts[a].MapAttempt? && s.attempts[a].renamed == job.nReduce
      && s.attempts[a].task < |s.coord.maps|
    case ReadFile(a) =>
      && a < |s.attempts| && s.attempts[a].ReduceAttempt? && s.attempts[a].stage == Reading
         && |s.attempts[a].read| < |job.mapped|
      && (|s.attempts[a].read|, s.attempts[a].task) in s.files
    case CreateOut(a) =>
      && a < |s.attempts| && s.attempts[a].ReduceAttempt? && s.attempts[a].stage == Reading
      && |s.attempts[a].read| == |job.mapped|
    case RenameOut(a, sorted) =>
      && a < |s.attempts| && s.attempts[a].ReduceAttempt? && s.attempts[a].stage == Created
      && IsSortOf(sorted, multiset(Flatten(s.attempts[a].read)))
    case ReportReduce(a) =>
      && a < |s.attempts| && s.attempts[a].ReduceAttempt? && s.attempts[a].stage == Renamed
      && s.attempts[a].task < |s.coord.reduces|
  }

  function NewAttempt(m: Mission, kva: seq<KeyValue>): seq<Attempt> {
    match m
    case MapMission(i, stamp) => [MapAttempt(i, stamp, kva, 0)]
    case ReduceMission(i, stamp) => [ReduceAttempt(i, stamp, [], Reading)]
    case Waiting => []
  }

  ghost function Next(job: Job, s: Sys, x: Step): Sys
    requires ValidJob(job) && CanStep(job, s, x)
  {
    match x
    case Ask(now, later, kva) =>
      var (coord', m) := Assign(s.coord, now, later);
      s.(coord := coord', clock := later, attempts := s.attempts + NewAttempt(m, kva))
    case RenameMap(a) =>
      var t := s.attempts[a];
      s.(files := s.files[(t.task, t.renamed) := Bucket(job, t.kva, t.renamed)],
          attempts := s.attempts[a := t.(renamed := t.renamed + 1)])
    case ReportMap(a) =>
      var t := s.attempts[a];
      s.(coord := s.coord.(maps := Finish(s.coord.maps, t.task, t.stamp)))
    case ReadFile(a) =>
      var t := s.attempts[a];
      s.(attempts := s.attempts[a := t.(read := t.read + [s.files[(|t.read|, t.task)]])])
    case CreateOut(a) =>
      var t := s.attempts[a];
      s.(outs := s.outs[t.task := []], attempts := s.attempts[a := t.(stage := Created)])
    case RenameOut(a, sorted) =>
      var t := s.attempts[a];
      s.(outs := s.outs[t.task := GroupLines(job.reducef, sorted)], attempts := s.attempts[a := t.(stage := Renamed)])
    case ReportReduce(a) =>
      var t := s.attempts[a];
      s.(coord := s.coord.(reduces := Finish(s.coord.reduces, t.task, t.stamp)))
  }

  ghost predicate IsRun(job: Job, s: Sys, run: seq<Step>)
    requires ValidJob(job)
    decreases |run|
  {
    run == [] || (CanStep(job, s, run[0]) && IsRun(job, Next(job, s, run[0]), run[1..]))
  }

  ghost function After(job: Job, s: Sys, run: seq<Step>): Sys
    requires ValidJob(job) && IsRun(job, s, run)
    decreases |run|
  {
    if run == [] then s else After(job, Next(job, s, run[0]), run[1..])
  }

  /* ---- the schedule ---- */

  ghost predicate TableOk(ts: seq<Task>, clock: int) {
    forall i | 0 <= i < |ts| ::
      if ts[i].state == Ready then ts[i].stamp == ZERO_TIME else ZERO_TIME < ts[i].stamp <= clock
  }

  ghost predicate CoordOk(job: Job, c: Coord, clock: int) {
    && |c.maps| == |job.mapped| && |c.reduces| == job.nReduce
    && clock > ZERO_TIME
    && (c.mapFinish ==> AllDone(c.maps))
    && (c.reduceFinish ==> c.mapFinish && AllDone(c.reduces))
    && (forall r | 0 <= r < |c.reduces| && c.reduces[r].state != Ready :: c.mapFinish)
    && TableOk(c.maps, clock) && TableOk(c.reduces, clock)
  }

  function TableOf(c: Coord, t: Attempt): seq<Task> { if t.MapAttempt? then c.maps else c.reduces }

  /** The task of an attempt has been handed out, and last at the stamp of the attempt or later. */
  ghost predicate StampOk(c: Coord, t: Attempt) {
    && t.task < |TableOf(c, t)|
    && TableOf(c, t)[t.task].state != Ready
    && ZERO_TIME < t.stamp <= TableOf(c, t)[t.task].stamp
  }

  predicate SameTask(t: Attempt, u: Attempt) { t.MapAttempt? == u.MapAttempt? && t.task == u.task }

  ghost predicate Spaced(attempts: seq<Attempt>) {
    forall a, b | 0 <= a < b < |attempts| && SameTask(attempts[a], attempts[b]) ::
        attempts[b].stamp - attempts[a].stamp > LIMIT
  }

  ghost predicate AttemptsOk(c: Coord, attempts: seq<Attempt>) {
    (forall a | 0 <= a < |attempts| :: StampOk(c, attempts[a])) && Spaced(attempts)
  }

  ghost predicate Sched(job: Job, s: Sys) { CoordOk(job, s.coord, s.clock) && AttemptsOk(s.coord, s.attempts) }

  lemma AskKeepsCoord(job: Job, c: Coord, clock: int, now: int, later: int)
    requires CoordOk(job, c, clock) && clock <= now <= later
    ensures CoordOk(job, Assign(c, now, later).0, later)
  {
  }

  /** A new attempt is stamped more than LIMIT after the earlier attempts at that task. */
  lemma AskKeepsAttempts(job: Job, c: Coord, attempts: seq<Attempt>, clock: int, now: int, later: int,
      kva: seq<KeyValue>)
    requires CoordOk(job, c, clock) && clock <= now <= later && AttemptsOk(c, attempts)
    ensures AttemptsOk(Assign(c, now, later).0, attempts + NewAttempt(Assign(c, now, later).1, kva))
  {
    hide Spaced;
    var (d, m) := Assign(c, now, later);
    var all := attempts + NewAttempt(m, kva);
    forall a | 0 <= a < |all| ensures StampOk(d, all[a]) {
      if a < |attempts| { assert StampOk(c, attempts[a]); }
    }
    if m.Waiting? {
      assert all == attempts;
    } else {
      var t := all[|attempts|];
      forall a | 0 <= a < |attempts| && SameTask(attempts[a], t) ensures t.stamp - attempts[a].stamp > LIMIT {
        assert StampOk(c, attempts[a]);
      }
      SpacedAppend(attempts, t);
    }
  }

  lemma SpacedAppend(attempts: seq<Attempt>, t: Attempt)
    requires Spaced(attempts) && forall a | 0 <= a < |attempts| && SameTask(attempts[a], t) ::
             t.stamp - attempts[a].stamp > LIMIT
    ensures Spaced(attempts + [t])
  {
  }

  /** Nothing but the progress of the attempt changes. */
  predicate SameRole(t: Attempt, u: Attempt) { SameTask(t, u) && t.stamp == u.stamp }

  lemma WorkKeepsAttempts(c: Coord, attempts: seq<Attempt>, a: nat, t: Attempt)
    requires AttemptsOk(c, attempts) && a < |attempts| && SameRole(attempts[a], t)
    ensures AttemptsOk(c, attempts[a := t])
  {
    assert StampOk(c, attempts[a]);
  }

  /** A report by an attempt keeps the schedule. */
  lemma ReportKeepsSched(job: Job, c: Coord, d: Coord, attempts: seq<Attempt>, clock: int, t: Attempt)
    requires CoordOk(job, c, clock) && AttemptsOk(c, attempts) && StampOk(c, t)
    requires d == if t.MapAttempt? then c.(maps := Finish(c.maps, t.task, t.stamp))
             else c.(reduces := Finish(c.reduces, t.task, t.stamp))
    ensures CoordOk(job, d, clock) && AttemptsOk(d, attempts)
  {
    hide Spaced;
    forall a | 0 <= a < |attempts| ensures StampOk(d, attempts[a]) { assert StampOk(c, attempts[a]); }
  }

  lemma StepKeepsSched(job: Job, s: Sys, x: Step)
    requires ValidJob(job) && Sched(job, s) && CanStep(job, s, x)
    ensures Sched(job, Next(job, s, x))
  {
    hide CoordOk, AttemptsOk, StampOk, Assign, Finish, Bucket, GroupLines, IsSortOf;
    match x
    case Ask(now, later, kva) =>
      AskKeepsCoord(job, s.coord, s.clock, now, later);
      AskKeepsAttempts(job, s.coord, s.attempts, s.clock, now, later, kva);
    case ReportMap(a) =>
      AttemptStamp(s.coord, s.attempts, a);
      ReportKeepsSched(job, s.coord, Next(job, s, x).coord, s.attempts, s.clock, s.attempts[a]);
    case ReportReduce(a) =>
      AttemptStamp(s.coord, s.attempts, a);
      ReportKeepsSched(job, s.coord, Next(job, s, x).coord, s.attempts, s.clock, s.attempts[a]);
    case _ =>
      WorkKeepsAttempts(s.coord, s.attempts, x.a, Next(job, s, x).attempts[x.a]);
  }

  lemma AttemptStamp(c: Coord, attempts: seq<Attempt>, a: nat)
    requires AttemptsOk(c, attempts) && a < |attempts|
    ensures StampOk(c, attempts[a])
  {
  }

  /** A task that is done stays done. */
  lemma DoneStays(job: Job, s: Sys, x: Step)
    requires ValidJob(job) && CanStep(job, s, x)
    ensures |Next(job, s, x).coord.maps| == |s.coord.maps| && |Next(job, s, x).coord.reduces| == |s.coord.reduces|
    ensures forall i | 0 <= i < |s.coord.maps| && s.coord.maps[i].state == Done ::
            Next(job, s, x).coord.maps[i].state == Done
    ensures forall i | 0 <= i < |s.coord.reduces| && s.coord.reduces[i].state == Done ::
            Next(job, s, x).coord.reduces[i].state == Done
  {
    hide Bucket, GroupLines, IsSortOf, Flatten;
  }

  /** The report of an attempt whose task has been handed out again changes nothing. */
  lemma StaleReportIgnored(job: Job, s: Sys, a: nat, b: nat)
    requires ValidJob(job) && Sched(job, s) && a < b < |s.attempts| && SameTask(s.attempts[a], s.attempts[b])
    ensures CanStep(job, s, ReportMap(a)) ==> Next(job, s, ReportMap(a)) == s
    ensures CanStep(job, s, ReportReduce(a)) ==> Next(job, s, ReportReduce(a)) == s
  {
    assert StampOk(s.coord, s.attempts[b]);
  }
}
