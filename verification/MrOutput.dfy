/**
 What the files of a MapReduce job hold over every run: a finished map task has all its
 intermediate files, reduce workers read exactly their bucket, and mr-out-r is at any time
 empty or the whole output of its task. A job can be done and yet have an output emptied.
 */
module MrOutput {
  import opened Coordinator
  import opened MapReduce
  import opened MrSystem

  /* ---- intermediate files ---- */

  ghost predicate HoldsBucket(job: Job, kva: seq<KeyValue>, m: nat, r: nat)
    requires ValidJob(job)
  {
    m < |job.mapped| && multiset(kva) == multiset(Bucket(job, job.mapped[m], r))
  }

  ghost predicate Filed(job: Job, files: map<(nat, nat), seq<KeyValue>>)
    requires ValidJob(job)
  {
    forall f | f in files :: HoldsBucket(job, files[f], f.0, f.1)
  }

  /** Every mr-m-r with r < n exists. */
  ghost predicate HasFiles(files: map<(nat, nat), seq<KeyValue>>, m: nat, n: nat) {
    forall r: nat | r < n :: (m, r) in files
  }

  ghost predicate AttemptOk(job: Job, files: map<(nat, nat), seq<KeyValue>>, t: Attempt)
    requires ValidJob(job)
  {
    match t
    case MapAttempt(m, _, kva, renamed) =>
      m < |job.mapped| && multiset(kva) == multiset(job.mapped[m]) && renamed <= job.nReduce
          && HasFiles(files, m, renamed)
    case ReduceAttempt(r, _, read, stage) =>
      && r < job.nReduce && |read| <= |job.mapped| && (stage != Reading ==> |read| == |job.mapped|)
      && forall m: nat | m < |read| :: HoldsBucket(job, read[m], m, r)
  }

  ghost predicate MapsFiled(job: Job, maps: seq<Task>, files: map<(nat, nat), seq<KeyValue>>) {
    forall m: nat | m < |maps| && maps[m].state == Done :: HasFiles(files, m, job.nReduce)
  }

  ghost predicate Data(job: Job, s: Sys)
    requires ValidJob(job)
  {
    && Filed(job, s.files)
    && (forall a | 0 <= a < |s.attempts| :: AttemptOk(job, s.files, s.attempts[a]))
    && MapsFiled(job, s.coord.maps, s.files)
  }

  ghost predicate Inv(job: Job, s: Sys)
    requires ValidJob(job)
  {
    Sched(job, s) && Data(job, s)
  }

  lemma AskKeepsData(job: Job, s: Sys, now: int, later: int, kva: seq<KeyValue>)
    requires ValidJob(job) && Inv(job, s) && CanStep(job, s, Ask(now, later, kva))
    ensures Data(job, Next(job, s, Ask(now, later, kva)))
  {
    hide Filed, HasFiles, HoldsBucket, AttemptsOk, Bucket, TableOk;
    var (c, m) := Assign(s.coord, now, later);
    var all := s.attempts + NewAttempt(m, kva);
    forall a | 0 <= a < |all| ensures AttemptOk(job, s.files, all[a]) {
      if a == |s.attempts| && m.MapMission? { NoFilesYet(s.files, m.index); }
    }
    assert forall i: nat | i < |c.maps| && c.maps[i].state == Done :: s.coord.maps[i].state == Done;
  }

  lemma NoFilesYet(files: map<(nat, nat), seq<KeyValue>>, m: nat)
    ensures HasFiles(files, m, 0)
  {
  }

  /** A rename replaces a file by another with the same pairs, and takes none away. */
  lemma RenameKeepsData(job: Job, s: Sys, a: nat)
    requires ValidJob(job) && Data(job, s) && CanStep(job, s, RenameMap(a))
    ensures Data(job, Next(job, s, RenameMap(a)))
  {
    hide Bucket;
    var t := s.attempts[a];
    assert AttemptOk(job, s.files, t);
    SameBucket(job, t.kva, job.mapped[t.task], t.renamed);
    var files := Next(job, s, RenameMap(a)).files;
    assert HasFiles(files, t.task, t.renamed + 1);
    forall b | 0 <= b < |s.attempts| && b != a ensures AttemptOk(job, files, s.attempts[b]) {
      assert AttemptOk(job, s.files, s.attempts[b]);
    }
  }

  lemma ReadKeepsData(job: Job, s: Sys, a: nat)
    requires ValidJob(job) && Data(job, s) && CanStep(job, s, ReadFile(a))
    ensures Data(job, Next(job, s, ReadFile(a)))
  {
    hide Bucket, MapsFiled, HasFiles;
    var t := s.attempts[a];
    assert AttemptOk(job, s.files, t);
    assert (|t.read|, t.task) in s.files;
    assert HoldsBucket(job, s.files[(|t.read|, t.task)], |t.read|, t.task);
  }

  lemma StepKeepsData(job: Job, s: Sys, x: Step)
    requires ValidJob(job) && Inv(job, s) && CanStep(job, s, x)
    ensures Data(job, Next(job, s, x))
  {
    hide Sched, Filed, HasFiles, HoldsBucket, Bucket, GroupLines, IsSortOf, Flatten;
    match x
    case Ask(now, later, kva) => AskKeepsData(job, s, now, later, kva);
    case RenameMap(a) => RenameKeepsData(job, s, a);
    case ReadFile(a) => ReadKeepsData(job, s, a);
    case _ => assert AttemptOk(job, s.files, s.attempts[x.a]);
  }

  lemma InitInv(job: Job, start: int)
    requires ValidJob(job) && start > ZERO_TIME
    ensures Inv(job, Init(job, start))
  {
  }

  lemma {:induction false} RunKeepsInv(job: Job, s: Sys, run: seq<Step>)
    requires ValidJob(job) && Inv(job, s) && IsRun(job, s, run)
    ensures Inv(job, After(job, s, run))
    decreases |run|
  {
    hide Sched, Data, CanStep, Next;
    if run != [] {
      StepKeepsSched(job, s, run[0]);
      StepKeepsData(job, s, run[0]);
      RunKeepsInv(job, Next(job, s, run[0]), run[1..]);
    }
  }

  /**
   In every reachable state: no reduce task has been handed out before all map tasks are done;
   a job reported as done has every task done; and assignments of a task are over 40 seconds apart.
   */
  lemma ScheduleIsSafe(job: Job, start: int, run: seq<Step>)
    requires ValidJob(job) && start > ZERO_TIME && IsRun(job, Init(job, start), run)
    ensures var s := After(job, Init(job, start), run);
            && (forall r | 0 <= r < |s.coord.reduces| && s.coord.reduces[r].state != Ready :: AllDone(s.coord.maps))
            && (IsDone(s.coord) ==> AllDone(s.coord.maps) && AllDone(s.coord.reduces))
            && (forall a, b | 0 <= a < b < |s.attempts| && SameTask(s.attempts[a], s.attempts[b]) ::
                  s.attempts[b].stamp - s.attempts[a].stamp > 40_000_000_000)
  {
    InitInv(job, start);
    RunKeepsInv(job, Init(job, start), run);
  }

  /** In every run a task that is done stays done. */
  lemma {:induction false} DoneForever(job: Job, s: Sys, run: seq<Step>)
    requires ValidJob(job) && IsRun(job, s, run)
    ensures var c, d := s.coord, After(job, s, run).coord;
            && |d.maps| == |c.maps| && |d.reduces| == |c.reduces|
            && (forall i | 0 <= i < |c.maps| && c.maps[i].state == Done :: d.maps[i].state == Done)
            && (forall i | 0 <= i < |c.reduces| && c.reduces[i].state == Done :: d.reduces[i].state == Done)
    decreases |run|
  {
    hide CanStep, Next;
    if run != [] {
      DoneStays(job, s, run[0]);
      DoneForever(job, Next(job, s, run[0]), run[1..]);
    }
  }

  /** In every reachable state the report of an attempt whose task was handed out again changes nothing. */
  lemma StaleReportsIgnored(job: Job, start: int, run: seq<Step>, a: nat, b: nat)
    requires ValidJob(job) && start > ZERO_TIME && IsRun(job, Init(job, start), run)
    requires var s := After(job, Init(job, start), run); a < b < |s.attempts| && SameTask(s.attempts[a], s.attempts[b])
    ensures var s := After(job, Init(job, start), run);
            && (CanStep(job, s, ReportMap(a)) ==> Next(job, s, ReportMap(a)) == s)
            && (CanStep(job, s, ReportReduce(a)) ==> Next(job, s, ReportReduce(a)) == s)
  {
    InitInv(job, start);
    RunKeepsInv(job, Init(job, start), run);
    StaleReportIgnored(job, After(job, Init(job, start), run), a, b);
  }

  /** In every reachable state a finished map task has each of its files, holding that bucket of its pairs. */
  lemma FinishedMapHasFiles(job: Job, start: int, run: seq<Step>, m: nat, r: nat)
    requires ValidJob(job) && start > ZERO_TIME && IsRun(job, Init(job, start), run)
    requires var c := After(job, Init(job, start), run).coord;
             m < |c.maps| && c.maps[m].state == Done && r < job.nReduce
    ensures var files := After(job, Init(job, start), run).files;
            && m < |job.mapped| && (m, r) in files
            && multiset(files[(m, r)]) == multiset(Bucket(job, job.mapped[m], r))
            && forall x :: multiset(files[(m, r)])[x]
                 == if job.hash(x.key) % job.nReduce == r then multiset(job.mapped[m])[x] else 0
  {
    hide Bucket, Next, CanStep, Sched;
    InitInv(job, start);
    RunKeepsInv(job, Init(job, start), run);
    var s := After(job, Init(job, start), run);
    assert HasFiles(s.files, m, job.nReduce);
    assert HoldsBucket(job, s.files[(m, r)], m, r);
    forall x
      ensures multiset(s.files[(m, r)])[x]
              == if job.hash(x.key) % job.nReduce == r then multiset(job.mapped[m])[x] else 0
    {
      BucketCounts(job, job.mapped[m], r, x);
    }
  }

  /** A reduce worker never fails to open a file. */
  lemma ReadsNeverFail(job: Job, s: Sys, a: nat)
    requires ValidJob(job) && Inv(job, s) && a < |s.attempts|
    requires s.attempts[a].ReduceAttempt? && s.attempts[a].stage == Reading && |s.attempts[a].read| < |job.mapped|
    ensures CanStep(job, s, ReadFile(a))
  {
    var t := s.attempts[a];
    assert StampOk(s.coord, t) && AttemptOk(job, s.files, t);
    assert s.coord.reduces[t.task].state != Ready;
    assert s.coord.maps[|t.read|].state == Done;
    assert HasFiles(s.files, |t.read|, job.nReduce);
  }

  /* ---- output files ---- */

  /** What reduce task r should write: the lines of its whole bucket, in some sorted order. */
  ghost predicate IsOutput(job: Job, r: nat, lines: seq<Line>)
    requires ValidJob(job)
  {
    exists sorted :: IsSortOf(sorted, multiset(Bucket(job, Flatten(job.mapped), r)))
        && lines == GroupLines(job.reducef, sorted)
  }

  function OutFile(s: Sys, r: nat): seq<Line> { if r in s.outs then s.outs[r] else [] }

  predicate IsPublisher(t: Attempt, r: nat) { t.ReduceAttempt? && t.task == r && t.stage == Renamed }

  /** Some worker has renamed its output to mr-out-r. */
  ghost predicate Published(attempts: seq<Attempt>, r: nat) {
    exists a :: 0 <= a < |attempts| && IsPublisher(attempts[a], r)
  }

  /** What a worker renames to mr-out-r is the output of its reduce task. */
  lemma RenamedIsOutput(job: Job, s: Sys, a: nat, sorted: seq<KeyValue>)
    requires ValidJob(job) && Data(job, s) && CanStep(job, s, RenameOut(a, sorted))
    ensures IsOutput(job, s.attempts[a].task, GroupLines(job.reducef, sorted))
  {
    hide Bucket, GroupLines, Flatten, SortedByKey;
    var t := s.attempts[a];
    assert AttemptOk(job, s.files, t);
    assert forall m: nat | m < |t.read| :: HoldsBucket(job, t.read[m], m, t.task);
    FilesMakeBucket(job, job.mapped, t.read, t.task);
  }

  /** An empty file is the output of a task exactly if its bucket is empty. */
  lemma EmptyOutput(job: Job, r: nat)
    requires ValidJob(job)
    ensures IsOutput(job, r, []) <==> Bucket(job, Flatten(job.mapped), r) == []
  {
    hide Bucket, Flatten;
    var b := Bucket(job, Flatten(job.mapped), r);
    if b == [] {
      assert IsSortOf([], multiset(b)) && GroupLines(job.reducef, []) == [];
    }
    if IsOutput(job, r, []) {
      var sorted :| IsSortOf(sorted, multiset(b)) && [] == GroupLines(job.reducef, sorted);
      assert sorted == [] && |multiset(b)| == |multiset(sorted)| == 0;
    }
  }

  ghost predicate DoneIsPublished(s: Sys) {
    forall r: nat | r < |s.coord.reduces| && s.coord.reduces[r].state == Done :: Published(s.attempts, r)
  }

  lemma PublishedStays(job: Job, s: Sys, x: Step, r: nat)
    requires ValidJob(job) && CanStep(job, s, x)
    ensures Published(s.attempts, r) ==> Published(Next(job, s, x).attempts, r)
    ensures Published(Next(job, s, x).attempts, r) ==>
              Published(s.attempts, r) || (x.RenameOut? && s.attempts[x.a].task == r)
  {
    hide Bucket, GroupLines, Flatten, IsSortOf, Assign, Finish;
    var after := Next(job, s, x).attempts;
    if Published(s.attempts, r) {
      var b :| 0 <= b < |s.attempts| && IsPublisher(s.attempts[b], r);
      assert IsPublisher(after[b], r);
    }
    if Published(after, r) && !(x.RenameOut? && s.attempts[x.a].task == r) {
      var b :| 0 <= b < |after| && IsPublisher(after[b], r);
      assert IsPublisher(s.attempts[b], r);
    }
  }

  lemma StepKeepsPublished(job: Job, s: Sys, x: Step)
    requires ValidJob(job) && CanStep(job, s, x) && DoneIsPublished(s)
    ensures DoneIsPublished(Next(job, s, x))
  {
    hide Bucket, GroupLines, Flatten, IsSortOf, Published;
    var after := Next(job, s, x);
    forall r: nat | r < |after.coord.reduces| && after.coord.reduces[r].state == Done
      ensures Published(after.attempts, r)
    {
      PublishedStays(job, s, x, r);
      if x.ReportReduce? && s.attempts[x.a].task == r { Publisher(s.attempts, x.a); }
    }
  }

  lemma Publisher(attempts: seq<Attempt>, a: nat)
    requires a < |attempts| && attempts[a].ReduceAttempt? && attempts[a].stage == Renamed
    ensures Published(attempts, attempts[a].task)
  {
    assert IsPublisher(attempts[a], attempts[a].task);
  }

  lemma {:induction false} RunKeepsPublished(job: Job, s: Sys, run: seq<Step>)
    requires ValidJob(job) && IsRun(job, s, run) && DoneIsPublished(s)
    ensures DoneIsPublished(After(job, s, run))
    decreases |run|
  {
    hide CanStep, Next, DoneIsPublished;
    if run != [] {
      StepKeepsPublished(job, s, run[0]);
      RunKeepsPublished(job, Next(job, s, run[0]), run[1..]);
    }
  }

  /* ---- over every run ---- */

  ghost predicate NeverWrong(job: Job, s: Sys)
    requires ValidJob(job)
  {
    forall r: nat :: OutFile(s, r) == [] || IsOutput(job, r, OutFile(s, r))
  }

  lemma StepKeepsNeverWrong(job: Job, s: Sys, x: Step)
    requires ValidJob(job) && Data(job, s) && NeverWrong(job, s) && CanStep(job, s, x)
    ensures NeverWrong(job, Next(job, s, x))
  {
    hide Bucket, GroupLines, Flatten, IsSortOf, Assign, Finish, IsOutput, Data;
    var after := Next(job, s, x);
    if x.RenameOut? { RenamedIsOutput(job, s, x.a, x.sorted); }
    forall r: nat ensures OutFile(after, r) == [] || IsOutput(job, r, OutFile(after, r)) {
      assert OutFile(s, r) == [] || IsOutput(job, r, OutFile(s, r));
    }
  }

  lemma {:induction false} RunKeepsNeverWrong(job: Job, s: Sys, run: seq<Step>)
    requires ValidJob(job) && IsRun(job, s, run) && Inv(job, s) && NeverWrong(job, s)
    ensures NeverWrong(job, After(job, s, run))
    decreases |run|
  {
    hide Sched, Data, CanStep, Next, NeverWrong;
    if run != [] {
      StepKeepsSched(job, s, run[0]);
      StepKeepsData(job, s, run[0]);
      StepKeepsNeverWrong(job, s, run[0]);
      RunKeepsNeverWrong(job, Next(job, s, run[0]), run[1..]);
    }
  }

  /** In every reachable state mr-out-r is empty or missing, or it is the whole output of its task. */
  lemma OutputIsAllOrNothing(job: Job, start: int, run: seq<Step>, r: nat)
    requires ValidJob(job) && start > ZERO_TIME && IsRun(job, Init(job, start), run)
    ensures var lines := OutFile(After(job, Init(job, start), run), r); lines == [] || IsOutput(job, r, lines)
  {
    InitInv(job, start);
    assert NeverWrong(job, Init(job, start));
    RunKeepsNeverWrong(job, Init(job, start), run);
    assert NeverWrong(job, After(job, Init(job, start), run));
  }

  /* ---- a run that loses an output ---- */

  lemma {:induction false} LastStep(job: Job, s: Sys, run: seq<Step>, x: Step)
    requires ValidJob(job) && IsRun(job, s, run) && CanStep(job, After(job, s, run), x)
    ensures IsRun(job, s, run + [x]) && After(job, s, run + [x]) == Next(job, After(job, s, run), x)
    decreases |run|
  {
    hide CanStep, Next;
    if run == [] {
      assert [x][1..] == [];
    } else {
      assert (run + [x])[1..] == run[1..] + [x];
      LastStep(job, Next(job, s, run[0]), run[1..], x);
    }
  }

  function Pair(): KeyValue { KeyValue("a", "1") }

  /** One input file with one pair, and one reduce task. */
  function OnePair(): Job { Job([[Pair()]], 1, key => 0, (key, values) => "1") }

  /** The first worker maps the file, and the coordinator notices that all map tasks are done. */
  lemma MapPhase() returns (run: seq<Step>)
    ensures ValidJob(OnePair()) && IsRun(OnePair(), Init(OnePair(), 1), run)
    ensures After(OnePair(), Init(OnePair(), 1), run) ==
              Sys(Coord([Task(Done, 1)], [Task(Ready, 0)], true, false), 2, [MapAttempt(0, 1, [Pair()], 1)],
                  map[(0, 0) := [Pair()]], map[])
  {
    var job := OnePair();
    var s0 := Init(job, 1);
    assert s0.coord.maps == [Task(Ready, 0)] && s0.coord.reduces == [Task(Ready, 0)];
    LastStep(job, s0, [], Ask(1, 1, [Pair()]));
    var s1 := Sys(Coord([Task(Running, 1)], [Task(Ready, 0)], false, false), 1, [MapAttempt(0, 1, [Pair()], 0)], map[],
        map[]);
    run := [] + [Ask(1, 1, [Pair()])];
    assert After(job, s0, run) == s1;
    assert Bucket(job, [Pair()], 0) == [Pair()];
    LastStep(job, s0, run, RenameMap(0));
    run := run + [RenameMap(0)];
    var s2 := s1.(attempts := [MapAttempt(0, 1, [Pair()], 1)], files := map[(0, 0) := [Pair()]]);
    assert After(job, s0, run) == s2;
    LastStep(job, s0, run, ReportMap(0));
    run := run + [ReportMap(0)];
    LastStep(job, s0, run, Ask(2, 2, []));
    run := run + [Ask(2, 2, [])];
  }

  /** Some run of the job leads to s. */
  ghost predicate Reachable(job: Job, start: int, s: Sys)
    requires ValidJob(job)
  {
    exists run :: IsRun(job, Init(job, start), run) && After(job, Init(job, start), run) == s
  }

  lemma Reach(job: Job, start: int, s: Sys, x: Step, t: Sys)
    requires ValidJob(job) && Reachable(job, start, s) && CanStep(job, s, x) && Next(job, s, x) == t
    ensures Reachable(job, start, t)
  {
    hide CanStep, Next, Init;
    var run :| IsRun(job, Init(job, start), run) && After(job, Init(job, start), run) == s;
    LastStep(job, Init(job, start), run, x);
  }

  const LATE := 4 + LIMIT

  /** A state of the reduce phase: the reduce task, the attempts at it, and the output. */
  function ReducePhase(clock: int, task: Task, finish: bool, attempts: seq<Attempt>, outs: map<nat, seq<Line>>): Sys {
    Sys(Coord([Task(Done, 1)], [task], true, finish), clock, [MapAttempt(0, 1, [Pair()], 1)] + attempts,
        map[(0, 0) := [Pair()]], outs)
  }

  function AttemptAt(stamp: int, read: seq<seq<KeyValue>>, stage: Stage): Attempt {
    ReduceAttempt(0, stamp, read, stage)
  }

  /** The reduce task is handed out, at first or after the timeout, and its worker reads the file. */
  lemma HandedOutAndRead(clock: int, now: int, task: Task, earlier: seq<Attempt>)
    requires clock <= now && Free(task, now) && Reachable(OnePair(), 1, ReducePhase(clock, task, false, earlier, map[]))
    ensures Reachable(OnePair(), 1,
            ReducePhase(now, Task(Running, now), false, earlier + [AttemptAt(now, [[Pair()]], Reading)], map[]))
  {
    hide Reachable, Bucket, GroupLines, Flatten, IsSortOf;
    var s := ReducePhase(clock, task, false, earlier, map[]);
    var asked := ReducePhase(now, Task(Running, now), false, earlier + [AttemptAt(now, [], Reading)], map[]);
    assert FirstFree([task], now) == 0;
    assert Next(OnePair(), s, Ask(now, now, [])) == asked;
    Reach(OnePair(), 1, s, Ask(now, now, []), asked);
    var a := 1 + |earlier|;
    assert asked.attempts[a] == AttemptAt(now, [], Reading);
    var read := ReducePhase(now, Task(Running, now), false, earlier + [AttemptAt(now, [[Pair()]], Reading)], map[]);
    assert asked.attempts[a := AttemptAt(now, [[Pair()]], Reading)] == read.attempts;
    assert [] + [asked.files[(0, 0)]] == [[Pair()]];
    Reach(OnePair(), 1, asked, ReadFile(a), read);
  }

  function Lines(): seq<Line> { GroupLines(OnePair().reducef, [Pair()]) }

  /** The second of two workers opens the output file. */
  lemma SecondOpens(first: Attempt)
    requires Reachable(OnePair(), 1,
             ReducePhase(LATE, Task(Running, LATE), false, [first, AttemptAt(LATE, [[Pair()]], Reading)], map[]))
    ensures Reachable(OnePair(), 1,
            ReducePhase(LATE, Task(Running, LATE), false, [first, AttemptAt(LATE, [[Pair()]], Created)], map[0 := []]))
  {
    hide Reachable;
    var s := ReducePhase(LATE, Task(Running, LATE), false, [first, AttemptAt(LATE, [[Pair()]], Reading)], map[]);
    var created := ReducePhase(LATE, Task(Running, LATE), false, [first, AttemptAt(LATE, [[Pair()]], Created)],
        map[0 := []]);
    assert s.attempts[2 := AttemptAt(LATE, [[Pair()]], Created)] == created.attempts;
    Reach(OnePair(), 1, s, CreateOut(2), created);
  }

  lemma PairIsSorted()
    ensures IsSortOf([Pair()], multiset(Flatten([[Pair()]])))
  {
    assert Flatten([[Pair()]]) == [Pair()];
  }

  lemma SecondRenames(first: Attempt)
    requires Reachable(OnePair(), 1,
             ReducePhase(LATE, Task(Running, LATE), false, [first, AttemptAt(LATE, [[Pair()]], Created)], map[0 := []]))
    ensures Reachable(OnePair(), 1,
            ReducePhase(LATE, Task(Running, LATE), false, [first, AttemptAt(LATE, [[Pair()]], Renamed)],
                map[0 := Lines()]))
  {
    PairIsSorted();
    assert Lines() == GroupLines(OnePair().reducef, [Pair()]);
    hide Reachable, GroupLines, Flatten, IsSortOf, Lines, Assign, Finish, Bucket;
    var created := ReducePhase(LATE, Task(Running, LATE), false, [first, AttemptAt(LATE, [[Pair()]], Created)],
        map[0 := []]);
    var renamed := ReducePhase(LATE, Task(Running, LATE), false, [first, AttemptAt(LATE, [[Pair()]], Renamed)],
        map[0 := Lines()]);
    assert created.attempts[2 := AttemptAt(LATE, [[Pair()]], Renamed)] == renamed.attempts;
    assert created.outs[0 := Lines()] == renamed.outs;
    Reach(OnePair(), 1, created, RenameOut(2, [Pair()]), renamed);
  }

  /** The job is done; then the first worker goes on and empties the output. */
  lemma FirstEmpties(outs: map<nat, seq<Line>>)
    requires Reachable(OnePair(), 1,
             ReducePhase(LATE, Task(Running, LATE), false,
                 [AttemptAt(3, [[Pair()]], Reading), AttemptAt(LATE, [[Pair()]], Renamed)], outs))
    ensures Reachable(OnePair(), 1,
            ReducePhase(LATE, Task(Done, LATE), true,
                [AttemptAt(3, [[Pair()]], Created), AttemptAt(LATE, [[Pair()]], Renamed)], outs[0 := []]))
  {
    hide Reachable, Bucket, GroupLines, Flatten, IsSortOf;
    var both := [AttemptAt(3, [[Pair()]], Reading), AttemptAt(LATE, [[Pair()]], Renamed)];
    var reported := ReducePhase(LATE, Task(Done, LATE), false, both, outs);
    Reach(OnePair(), 1, ReducePhase(LATE, Task(Running, LATE), false, both, outs), ReportReduce(2), reported);
    var finished := ReducePhase(LATE, Task(Done, LATE), true, both, outs);
    Reach(OnePair(), 1, reported, Ask(LATE, LATE, []), finished);
    var emptied := ReducePhase(LATE, Task(Done, LATE), true, both[0 := AttemptAt(3, [[Pair()]], Created)],
        outs[0 := []]);
    assert finished.attempts[1 := AttemptAt(3, [[Pair()]], Created)] == emptied.attempts;
    Reach(OnePair(), 1, finished, CreateOut(1), emptied);
    assert both[0 := AttemptAt(3, [[Pair()]], Created)]
        == [AttemptAt(3, [[Pair()]], Created), AttemptAt(LATE, [[Pair()]], Renamed)];
  }

  /** A job can be done and yet have lost an output: a worker that stalled before opening mr-out-0 empties it. */
  lemma DoneJobCanLoseOutput() returns (s: Sys)
    ensures Reachable(OnePair(), 1, s) && IsDone(s.coord) && OutFile(s, 0) == [] && !IsOutput(OnePair(), 0, [])
  {
    assert Flatten(OnePair().mapped) == Flatten([]) + [Pair()] == [Pair()];
    assert Bucket(OnePair(), [Pair()], 0) == [Pair()];
    EmptyOutput(OnePair(), 0);
    var run := MapPhase();
    hide Bucket, GroupLines, Flatten, Init, MrSystem.After, IsRun, IsOutput;
    assert ReducePhase(2, Task(Ready, 0), false, [], map[]) == After(OnePair(), Init(OnePair(), 1), run);
    var first := AttemptAt(3, [[Pair()]], Reading);
    HandedOutAndRead(2, 3, Task(Ready, 0), []);
    assert [] + [first] == [first];
    HandedOutAndRead(3, LATE, Task(Running, 3), [first]);
    assert [first] + [AttemptAt(LATE, [[Pair()]], Reading)] == [first, AttemptAt(LATE, [[Pair()]], Reading)];
    SecondOpens(first);
    SecondRenames(first);
    FirstEmpties(map[0 := Lines()]);
    s := ReducePhase(LATE, Task(Done, LATE), true,
        [AttemptAt(3, [[Pair()]], Created), AttemptAt(LATE, [[Pair()]], Renamed)], map[0 := Lines()][0 := []]);
  }
}
