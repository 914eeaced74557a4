/** The MapReduce coordinator: two task tables, handed out in order and again after a timeout. */
module Coordinator {

  datatype TaskState = Ready | Running | Done

  /** The state of a task, and when it was last handed out (in nanoseconds). */
  datatype Task = Task(state: TaskState, stamp: int)

  const ZERO_TIME := 0
  const LIMIT := 40_000_000_000  // 40 seconds

  datatype Coord = Coord(maps: seq<Task>, reduces: seq<Task>, mapFinish: bool, reduceFinish: bool)

  datatype Mission = MapMission(index: nat, stamp: int) | ReduceMission(index: nat, stamp: int) | Waiting

  /** A task that may be handed out: never before, or too long ago. */
  predicate Free(t: Task, now: int) {
    t.state == Ready || (t.state == Running && now - t.stamp > LIMIT)
  }

  /** The first task that may be handed out, or the number of tasks if there is none. */
  function FirstFree(ts: seq<Task>, now: int): (i: nat)
    ensures i <= |ts|
    ensures forall k | 0 <= k < i :: !Free(ts[k], now)
    ensures i < |ts| ==> Free(ts[i], now)
  {
    if ts == [] then 0 else if Free(ts[0], now) then 0 else 1 + FirstFree(ts[1..], now)
  }

  predicate NoneRunning(ts: seq<Task>) { forall i | 0 <= i < |ts| :: ts[i].state != Running }

  ghost predicate AllDone(ts: seq<Task>) { forall i | 0 <= i < |ts| :: ts[i].state == Done }

  /** One request for work; the clock is read once on entry and, for a reduce task, once more. */
  function Assign(c: Coord, now: int, later: int): (Coord, Mission) {
    if !c.mapFinish then
      var i := FirstFree(c.maps, now);
      if i < |c.maps| then (c.(maps := c.maps[i := Task(Running, now)]), MapMission(i, now))
      else (c.(mapFinish := NoneRunning(c.maps)), Waiting)
    else
      var i := FirstFree(c.reduces, now);
      if i < |c.reduces| then
        (c.(reduces := c.reduces[i := Task(Running, later)], reduceFinish := false), ReduceMission(i, later))
      else (c.(reduceFinish := NoneRunning(c.reduces)), Waiting)
  }

  /** A report counts only if it carries the stamp of the latest assignment. */
  function Finish(ts: seq<Task>, index: nat, stamp: int): seq<Task>
    requires index < |ts|
  {
    if ts[index].stamp == stamp then ts[index := ts[index].(state := Done)] else ts
  }

  function Fresh(n: nat): seq<Task> { seq(n, i => Task(Ready, ZERO_TIME)) }

  function InitCoord(files: nat, nReduce: nat): Coord { Coord(Fresh(files), Fresh(nReduce), false, false) }

  predicate IsDone(c: Coord) { c.mapFinish && c.reduceFinish }

  /** Never handed out, or handed out more than 40 seconds ago and not done. */
  predicate IsDue(t: Task, now: int) {
    t.state == Ready || (t.state == Running && now - t.stamp > 40_000_000_000)
  }

  /**
   The first task of the table that is due, if there is one, and no other, is handed out and stamped; else the
   worker is to wait.
   */
  ghost predicate HandsOut(before: seq<Task>, after: seq<Task>, now: int, stamp: int, given: bool, m: Mission) {
    && (given <==> exists i :: 0 <= i < |before| && IsDue(before[i], now))
    && (given ==>
          && !m.Waiting? && m.index < |before| && m.stamp == stamp
          && IsDue(before[m.index], now) && (forall i | 0 <= i < m.index :: !IsDue(before[i], now))
          && after == before[m.index := Task(Running, stamp)])
    && (!given ==> m == Waiting && after == before)
  }

  class CoordinatorServer {
    const maptask: array<Task>
    const reducetask: array<Task>
    var maptaskfinish: bool
    var reducetaskfinish: bool

    ghost function View(): Coord
      reads this, maptask, reducetask
    {
      Coord(maptask[..], reducetask[..], maptaskfinish, reducetaskfinish)
    }

    constructor (files: nat, nReduce: nat)
      ensures View() == InitCoord(files, nReduce) && maptask != reducetask
      ensures fresh(maptask) && fresh(reducetask)
    {
      maptask := new Task[files](i => Task(Ready, ZERO_TIME));
      reducetask := new Task[nReduce](i => Task(Ready, ZERO_TIME));
      maptaskfinish, reducetaskfinish := false, false;
    }

    /** Looks through a table for a task to hand out; notes whether any task it passed is running. */
    static method Scan(ts: array<Task>, now: int) returns (i: nat, noneRunning: bool)
      ensures i == FirstFree(ts[..], now)
      ensures i == ts.Length ==> noneRunning == NoneRunning(ts[..])
    {
      i, noneRunning := 0, true;
      while i < ts.Length
        invariant i <= ts.Length
        invariant i + FirstFree(ts[i..], now) == FirstFree(ts[..], now)
        invariant noneRunning == NoneRunning(ts[..i])
      {
        assert ts[i..][1..] == ts[i + 1..] && ts[i..][0] == ts[i];
        assert ts[..i + 1] == ts[..i] + [ts[i]];
        if Free(ts[i], now) { return; }
        if ts[i].state == Running { noneRunning := false; }
        i := i + 1;
      }
      assert ts[..ts.Length] == ts[..];
    }

    method AssignMission(now: int, later: int) returns (m: Mission)
      requires maptask != reducetask
      modifies this, maptask, reducetask
      ensures (View(), m) == Assign(old(View()), now, later)
      ensures !old(maptaskfinish) ==> HandsOut(old(maptask[..]), maptask[..], now, now, m.MapMission?, m)
      ensures !old(maptaskfinish) ==> reducetask[..] == old(reducetask[..]) && reducetaskfinish == old(reducetaskfinish)
      ensures !old(maptaskfinish) ==>
                (maptaskfinish <==> forall i | 0 <= i < maptask.Length :: maptask[i].state == Done)
      ensures old(maptaskfinish) ==> HandsOut(old(reducetask[..]), reducetask[..], now, later, m.ReduceMission?, m)
      ensures old(maptaskfinish) ==> maptask[..] == old(maptask[..]) && maptaskfinish
      ensures old(maptaskfinish) ==>
                (reducetaskfinish <==> forall i | 0 <= i < reducetask.Length :: reducetask[i].state == Done)
    {
      if !maptaskfinish {
        var i, noneRunning := Scan(maptask, now);
        if i < maptask.Length {
          maptask[i] := Task(Running, now);
          maptaskfinish := false;
          return MapMission(i, now);
        }
        maptaskfinish := noneRunning;
        return Waiting;
      } else {
        var i, noneRunning := Scan(reducetask, now);
        if i < reducetask.Length {
          reducetask[i] := Task(Running, later);
          reducetaskfinish := false;
          return ReduceMission(i, later);
        }
        reducetaskfinish := noneRunning;
        return Waiting;
      }
    }

    method HandleMapFinish(index: nat, stamp: int)
      requires index < maptask.Length && maptask != reducetask
      modifies maptask
      ensures View() == old(View()).(maps := Finish(old(maptask[..]), index, stamp))
      ensures maptask[index].stamp == old(maptask[index].stamp)
      ensures maptask[index].state ==
                if stamp == old(maptask[index].stamp) then Done else old(maptask[index].state)
      ensures forall i | 0 <= i < maptask.Length && i != index :: maptask[i] == old(maptask[i])
    {
      if stamp == maptask[index].stamp { maptask[index] := maptask[index].(state := Done); }
    }

    method HandleReduceFinish(index: nat, stamp: int)
      requires index < reducetask.Length && maptask != reducetask
      modifies reducetask
      ensures View() == old(View()).(reduces := Finish(old(reducetask[..]), index, stamp))
      ensures reducetask[index].stamp == old(reducetask[index].stamp)
      ensures reducetask[index].state ==
                if stamp == old(reducetask[index].stamp) then Done else old(reducetask[index].state)
      ensures forall i | 0 <= i < reducetask.Length && i != index :: reducetask[i] == old(reducetask[i])
    {
      if stamp == reducetask[index].stamp { reducetask[index] := reducetask[index].(state := Done); }
    }

    method JobDone() returns (ret: bool)
      ensures ret == IsDone(View()) == (maptaskfinish && reducetaskfinish)
    {
      ret := false;
      if maptaskfinish && reducetaskfinish { ret := true; }
    }
  }
}
