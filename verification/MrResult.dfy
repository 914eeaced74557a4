/**
 When the output of a MapReduce job is that of the sequential program: for every run, exactly
 if the last thing done to mr-out-r was a rename, for every reduce task with anything to write.
 */
module MrResult {
  import opened Coordinator
  import opened MapReduce
  import opened MrSystem
  import opened MrOutput

  /** What was last done to an output file. */
  datatype Touch = Never | Emptied | Filled

  function TouchOf(s: Sys, x: Step, r: nat, at: Touch): Touch {
    match x
    case CreateOut(a) => if a < |s.attempts| && s.attempts[a].task == r then Emptied else at
    case RenameOut(a, _) => if a < |s.attempts| && s.attempts[a].task == r then Filled else at
    case _ => at
  }

  ghost function LastTouch(job: Job, s: Sys, run: seq<Step>, r: nat, at: Touch): Touch
    requires ValidJob(job) && IsRun(job, s, run)
    decreases |run|
  {
    if run == [] then at else LastTouch(job, Next(job, s, run[0]), run[1..], r, TouchOf(s, run[0], r, at))
  }

  /** What was last done to mr-out-r in a run from the start. */
  ghost function TouchIn(job: Job, start: int, run: seq<Step>, r: nat): Touch
    requires ValidJob(job) && IsRun(job, Init(job, start), run)
  {
    LastTouch(job, Init(job, start), run, r, Never)
  }

  ghost predicate TouchOk(job: Job, s: Sys, r: nat, at: Touch)
    requires ValidJob(job)
  {
    && (at == Filled ==> IsOutput(job, r, OutFile(s, r)))
    && (at != Filled ==> OutFile(s, r) == [])
    && (Published(s.attempts, r) ==> at != Never)
  }

  lemma StepKeepsTouch(job: Job, s: Sys, x: Step, r: nat, at: Touch)
    requires ValidJob(job) && Data(job, s) && CanStep(job, s, x) && TouchOk(job, s, r, at)
    ensures TouchOk(job, Next(job, s, x), r, TouchOf(s, x, r, at))
  {
    hide Bucket, GroupLines, Flatten, IsSortOf, Assign, Finish, IsOutput, Published, Data;
    PublishedStays(job, s, x, r);
    if x.RenameOut? { RenamedIsOutput(job, s, x.a, x.sorted); }
  }

  lemma {:induction false} RunKeepsTouch(job: Job, s: Sys, run: seq<Step>, r: nat, at: Touch)
    requires ValidJob(job) && IsRun(job, s, run) && Inv(job, s) && TouchOk(job, s, r, at)
    ensures TouchOk(job, After(job, s, run), r, LastTouch(job, s, run, r, at))
    decreases |run|
  {
    hide Sched, Data, CanStep, Next, TouchOk, TouchOf;
    if run != [] {
      StepKeepsSched(job, s, run[0]);
      StepKeepsData(job, s, run[0]);
      StepKeepsTouch(job, s, run[0], r, at);
      RunKeepsTouch(job, Next(job, s, run[0]), run[1..], r, TouchOf(s, run[0], r, at));
    }
  }

  lemma TouchInOk(job: Job, start: int, run: seq<Step>, r: nat)
    requires ValidJob(job) && start > ZERO_TIME && IsRun(job, Init(job, start), run)
    ensures TouchOk(job, After(job, Init(job, start), run), r, TouchIn(job, start, run, r))
  {
    InitInv(job, start);
    assert TouchOk(job, Init(job, start), r, Never);
    RunKeepsTouch(job, Init(job, start), run, r, Never);
  }

  /** After every run mr-out-r is the output of its task exactly if it was last filled, or has nothing to hold. */
  lemma OutputIff(job: Job, start: int, run: seq<Step>, r: nat)
    requires ValidJob(job) && start > ZERO_TIME && IsRun(job, Init(job, start), run)
    ensures IsOutput(job, r, OutFile(After(job, Init(job, start), run), r))
            <==> Bucket(job, Flatten(job.mapped), r) == [] || TouchIn(job, start, run, r) == Filled
  {
    hide Bucket, Flatten, IsOutput, IsRun, MrSystem.After, Init, TouchIn;
    TouchInOk(job, start, run, r);
    EmptyOutput(job, r);
    if Bucket(job, Flatten(job.mapped), r) == [] { OutputIsAllOrNothing(job, start, run, r); }
  }

  /* ---- all the outputs together ---- */

  /** The order in which the worker that wrote lines had sorted its pairs. */
  ghost function PartOf(job: Job, r: nat, lines: seq<Line>): (sorted: seq<KeyValue>)
    requires ValidJob(job) && IsOutput(job, r, lines)
    ensures IsSortOf(sorted, multiset(Bucket(job, Flatten(job.mapped), r))) && lines == GroupLines(job.reducef, sorted)
  {
    var sorted :| IsSortOf(sorted, multiset(Bucket(job, Flatten(job.mapped), r)))
        && lines == GroupLines(job.reducef, sorted);
    sorted
  }

  lemma OutputsOfParts(job: Job, parts: seq<seq<KeyValue>>, outs: seq<seq<Line>>)
    requires ValidJob(job) && |parts| == |outs| == job.nReduce
    requires forall r: nat | r < |outs| :: IsOutput(job, r, outs[r]) && parts[r] == PartOf(job, r, outs[r])
    ensures ReduceOutputs(job, parts, outs)
  {
    hide Bucket, IsSortOf, GroupLines;
  }

  /** Right outputs make the sequential lines. */
  lemma RightOutputs(job: Job, outs: seq<seq<Line>>, sequential: seq<KeyValue>)
    requires ValidJob(job) && OrderInsensitive(job.reducef) && IsSortOf(sequential, multiset(Flatten(job.mapped)))
    requires |outs| == job.nReduce && forall r: nat | r < |outs| :: IsOutput(job, r, outs[r])
    ensures multiset(Flatten(outs)) == multiset(GroupLines(job.reducef, sequential))
  {
    assert job.nReduce > 0;
    hide *;
    var parts := seq(|outs|, r requires 0 <= r < |outs| && ValidJob(job) && IsOutput(job, r, outs[r]) =>
      PartOf(job, r, outs[r]));
    OutputsOfParts(job, parts, outs);
    DistributedIsSequential(job, parts, outs, sequential);
  }

  /** The lines of a right output have keys of its bucket only. */
  lemma OutputHasOwnKeys(job: Job, r: nat, lines: seq<Line>, sequential: seq<KeyValue>, l: Line)
    requires ValidJob(job) && OrderInsensitive(job.reducef) && IsSortOf(sequential, multiset(Flatten(job.mapped)))
    requires IsOutput(job, r, lines) && l in lines
    ensures BucketNumber(job, l.key) == r
  {
    hide Bucket, GroupLines, Flatten, OrderInsensitive, SortedByKey, BucketNumber;
    var part := PartOf(job, r, lines);
    SameBucket(job, Flatten(job.mapped), sequential, r);
    LineIsSequential(job, part, sequential, r, l);
  }

  /** A bucket with anything in it has a sequential line. */
  lemma BucketHasLine(job: Job, r: nat, sequential: seq<KeyValue>) returns (l: Line)
    requires ValidJob(job) && IsSortOf(sequential, multiset(Flatten(job.mapped)))
             && Bucket(job, Flatten(job.mapped), r) != []
    ensures l in GroupLines(job.reducef, sequential) && BucketNumber(job, l.key) == r
  {
    hide GroupLines, Flatten, SortedByKey, Values, BucketNumber, Bucket;
    var b := Bucket(job, Flatten(job.mapped), r);
    var kv := b[0];
    assert kv in multiset(b);
    BucketCounts(job, Flatten(job.mapped), r, kv);
    BucketNumberIs(job, kv.key);
    assert kv in multiset(sequential);
    var i :| 0 <= i < |sequential| && sequential[i] == kv;
    assert HasKey(sequential, kv.key);
    GroupingReduces(job.reducef, sequential);
    l := Line(kv.key, job.reducef(kv.key, Values(sequential, kv.key)));
    LineIff(job.reducef, sequential, GroupLines(job.reducef, sequential), l);
  }

  /** If all the sequential lines are there, every bucket with anything in it has an output that is not empty. */
  lemma NoneMissing(job: Job, outs: seq<seq<Line>>, sequential: seq<KeyValue>, r: nat)
    requires ValidJob(job) && OrderInsensitive(job.reducef) && IsSortOf(sequential, multiset(Flatten(job.mapped)))
    requires |outs| == job.nReduce && forall i: nat | i < |outs| :: outs[i] == [] || IsOutput(job, i, outs[i])
    requires multiset(Flatten(outs)) == multiset(GroupLines(job.reducef, sequential))
    requires r < |outs| && Bucket(job, Flatten(job.mapped), r) != []
    ensures outs[r] != []
  {
    hide *;
    var l := BucketHasLine(job, r, sequential);
    assert l in multiset(Flatten(outs)) && l in Flatten(outs);
    FlattenElements(outs);
    var i :| 0 <= i < |outs| && l in outs[i];
    OutputHasOwnKeys(job, i, outs[i], sequential, l);
  }

  ghost function AllOutputs(s: Sys, n: nat): seq<seq<Line>> { seq(n, r requires 0 <= r => OutFile(s, r)) }

  /** mr-out-r is there whenever task r has anything to write: it was filled last. */
  ghost predicate IsSettled(job: Job, start: int, run: seq<Step>, r: nat)
    requires ValidJob(job) && IsRun(job, Init(job, start), run)
  {
    Bucket(job, Flatten(job.mapped), r) == [] || TouchIn(job, start, run, r) == Filled
  }

  /**
   After every run, finished or not, the outputs together are the sequential lines exactly if every task is
   settled.
   */
  lemma OutputsAreSequentialIff(job: Job, start: int, run: seq<Step>, sequential: seq<KeyValue>)
    requires ValidJob(job) && OrderInsensitive(job.reducef) && start > ZERO_TIME
    requires IsRun(job, Init(job, start), run) && IsSortOf(sequential, multiset(Flatten(job.mapped)))
    ensures multiset(Flatten(AllOutputs(After(job, Init(job, start), run), job.nReduce)))
              == multiset(GroupLines(job.reducef, sequential))
            <==> forall r: nat | r < job.nReduce :: IsSettled(job, start, run, r)
  {
    hide Bucket, Flatten, IsOutput, IsRun, MrSystem.After, Init, TouchIn, GroupLines, IsSortOf, OrderInsensitive,
        OutFile;
    var s := After(job, Init(job, start), run);
    var outs := AllOutputs(s, job.nReduce);
    forall r: nat | r < job.nReduce
      ensures IsOutput(job, r, outs[r]) <==> IsSettled(job, start, run, r)
      ensures outs[r] == [] || IsOutput(job, r, outs[r])
    {
      OutputIff(job, start, run, r);
      OutputIsAllOrNothing(job, start, run, r);
    }
    if forall r: nat | r < job.nReduce :: IsSettled(job, start, run, r) {
      RightOutputs(job, outs, sequential);
    }
    if multiset(Flatten(outs)) == multiset(GroupLines(job.reducef, sequential)) {
      forall r: nat | r < job.nReduce ensures IsSettled(job, start, run, r) {
        if Bucket(job, Flatten(job.mapped), r) != [] { NoneMissing(job, outs, sequential, r); }
      }
    }
  }

  /** In a finished job every output was filled at some time. */
  lemma DoneIsTouched(job: Job, start: int, run: seq<Step>, r: nat)
    requires ValidJob(job) && start > ZERO_TIME && IsRun(job, Init(job, start), run)
    requires IsDone(After(job, Init(job, start), run).coord) && r < job.nReduce
    ensures TouchIn(job, start, run, r) != Never
  {
    hide Bucket, Flatten, IsOutput, CanStep, Next, TouchIn, Published, Data;
    InitInv(job, start);
    RunKeepsInv(job, Init(job, start), run);
    RunKeepsPublished(job, Init(job, start), run);
    var s := After(job, Init(job, start), run);
    assert s.coord.reduces[r].state == Done;
    assert Published(s.attempts, r);
    TouchInOk(job, start, run, r);
  }

  /**
   A finished job has the output of the sequential program exactly if no worker, opening mr-out-r and
   then stalling, was the last to touch it, for any r with anything to write.
   */
  lemma DoneJobIsSequential(job: Job, start: int, run: seq<Step>, sequential: seq<KeyValue>)
    requires ValidJob(job) && OrderInsensitive(job.reducef) && start > ZERO_TIME
    requires IsRun(job, Init(job, start), run) && IsSortOf(sequential, multiset(Flatten(job.mapped)))
    requires IsDone(After(job, Init(job, start), run).coord)
    ensures multiset(Flatten(AllOutputs(After(job, Init(job, start), run), job.nReduce)))
              == multiset(GroupLines(job.reducef, sequential))
            <==> forall r: nat | r < job.nReduce && Bucket(job, Flatten(job.mapped), r) != [] ::
                TouchIn(job, start, run, r) != Emptied
  {
    hide Bucket, Flatten, IsRun, MrSystem.After, Init, TouchIn, GroupLines, IsSortOf, OrderInsensitive, AllOutputs,
        IsDone;
    OutputsAreSequentialIff(job, start, run, sequential);
    forall r: nat | r < job.nReduce ensures TouchIn(job, start, run, r) != Never { DoneIsTouched(job, start, run, r); }
    assert forall r: nat | r < job.nReduce ::
        IsSettled(job, start, run, r) <==>
          (Bucket(job, Flatten(job.mapped), r) != [] ==> TouchIn(job, start, run, r) != Emptied);
  }
}
