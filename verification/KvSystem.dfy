/**
 Any number of clerks calling one server over a network that may drop a request before it
 is executed, or lose the reply after. A clerk has one call outstanding at a time and
 retries until it gets a reply; a modification is then acknowledged in the same way.
 */
module KvSystem {
  import opened Collections
  import opened Linearizability
  import opened Kv
  import opened KvServer

  datatype Op = GetOp(key: string) | PutOp(key: string, value: string) | AppendOp(key: string, value: string)

  datatype Phase = Modifying | Acking

  /** A clerk at work: reply holds the answer of an executed request until it is delivered or lost. */
  datatype Clerk =
    | Idle
    | Busy(serial: nat, op: Op, id: int, phase: Phase, reply: Option<string>, result: string)

  /**
   What has been observed of an operation: when it was called and answered, how often it changed the
   store and what was there before, and the replies to a modification, delivered or not.
   */
  datatype OpRecord = OpRecord(
    clerk: nat, op: Op, id: int, call: nat, answer: Option<(KvOutput, nat)>, applied: nat, before: string,
        replies: seq<string>)

  /** The moment an operation takes effect, with the answer that effect gives. */
  datatype Effect = Effect(serial: nat, input: KvInput, output: KvOutput, at: nat)

  datatype System = System(server: Server, clerks: seq<Clerk>, now: nat, ops: seq<OpRecord>, log: seq<Effect>)

  function InputOf(op: Op): KvInput {
    match op
    case GetOp(key) => KvInput(0, key, "")
    case PutOp(key, value) => KvInput(1, key, value)
    case AppendOp(key, value) => KvInput(3, key, value)
  }

  /** The answer recorded for an operation: a clerk's Put returns nothing. */
  function OutputOf(op: Op, reply: string): KvOutput {
    KvOutput(if op.PutOp? then "" else reply)
  }

  function RequestOf(c: Clerk): Request
    requires c.Busy?
  {
    var state := if c.phase == Modifying then Modify else Ack;
    match c.op
    case GetOp(key) => GetRequest(key)
    case PutOp(key, value) => PutRequest(PutAppendArgs(key, value, c.id, state))
    case AppendOp(key, value) => AppendRequest(PutAppendArgs(key, value, c.id, state))
  }

  function Init(n: nat): System {
    System(Server(map[], map[]), seq(n, i => Idle), 0, [], [])
  }

  datatype Step =
    | Invoke(c: nat, op: Op, id: int)
    | DropRequest(c: nat)
    | Execute(c: nat)
    | LoseReply(c: nat)
    | Deliver(c: nat)

  /** Ids come from a random source and are taken to be distinct; a Get uses none. */
  predicate FreshId(sys: System, id: int) {
    forall s | 0 <= s < |sys.ops| && !sys.ops[s].op.GetOp? :: sys.ops[s].id != id
  }

  predicate CanStep(sys: System, s: Step) {
    && s.c < |sys.clerks|
    && match s
       case Invoke(c, op, id) => sys.clerks[c].Idle? && (op.GetOp? || FreshId(sys, id))
       case DropRequest(c) => sys.clerks[c].Busy? && sys.clerks[c].reply.None?
       case Execute(c) => sys.clerks[c].Busy? && sys.clerks[c].reply.None? && sys.clerks[c].serial < |sys.ops|
       case LoseReply(c) => sys.clerks[c].Busy? && sys.clerks[c].reply.Some?
       case Deliver(c) => sys.clerks[c].Busy? && sys.clerks[c].reply.Some? && sys.clerks[c].serial < |sys.ops|
  }

  /** The log without the effects of one operation. */
  function Without(log: seq<Effect>, serial: nat): seq<Effect> {
    if log == [] then []
    else
      var rest := Without(log[..|log| - 1], serial);
      if log[|log| - 1].serial == serial then rest else rest + [log[|log| - 1]]
  }

  /** The handler changes the store on behalf of clerk c. */
  predicate Changes(sys: System, c: Clerk)
    requires c.Busy?
  {
    !c.op.GetOp? && NeedsChange(sys.server, RequestOf(c).args)
  }

  function DoExecute(sys: System, c: nat): System
    requires CanStep(sys, Execute(c))
  {
    var k := sys.clerks[c];
    var (server', value) := Handle(sys.server, RequestOf(k));
    var clerks' := sys.clerks[c := k.(reply := Some(value))];
    var effect := Effect(k.serial, InputOf(k.op), OutputOf(k.op, value), sys.now);
    var rec := sys.ops[k.serial];
    var heard := if k.phase == Modifying then rec.(replies := rec.replies + [value]) else rec;
    if k.op.GetOp? then
      System(server', clerks', sys.now + 1, sys.ops, Without(sys.log, k.serial) + [effect])
    else if Changes(sys, k) then
      System(server', clerks', sys.now + 1,
             sys.ops[k.serial := heard.(applied := rec.applied + 1, before := Get(sys.server.store, k.op.key))],
                 sys.log + [effect])
    else
      System(server', clerks', sys.now + 1, sys.ops[k.serial := heard], sys.log)
  }

  function DoDeliver(sys: System, c: nat): System
    requires CanStep(sys, Deliver(c))
  {
    var k := sys.clerks[c];
    if !k.op.GetOp? && k.phase == Modifying then
      sys.(clerks := sys.clerks[c := k.(phase := Acking, reply := None, result := k.reply.value)], now := sys.now + 1)
    else
      var result := if k.op.GetOp? then k.reply.value else k.result;
      sys.(clerks := sys.clerks[c := Idle],
           ops := sys.ops[k.serial := sys.ops[k.serial].(answer := Some((OutputOf(k.op, result), sys.now)))],
           now := sys.now + 1)
  }

  function Next(sys: System, s: Step): System
    requires CanStep(sys, s)
  {
    match s
    case Invoke(c, op, id) =>
      sys.(clerks := sys.clerks[c := Busy(|sys.ops|, op, id, Modifying, None, "")],
           ops := sys.ops + [OpRecord(c, op, id, sys.now, None, 0, "", [])],
           now := sys.now + 1)
    case DropRequest(c) => sys.(now := sys.now + 1)
    case Execute(c) => DoExecute(sys, c)
    case LoseReply(c) => sys.(clerks := sys.clerks[c := sys.clerks[c].(reply := None)], now := sys.now + 1)
    case Deliver(c) => DoDeliver(sys, c)
  }

  ghost predicate Runs(n: nat, run: seq<Step>, sys: System)
    decreases |run|
  {
    if run == [] then sys == Init(n)
    else
      var before, s := run[..|run| - 1], run[|run| - 1];
      exists b :: Runs(n, before, b) && CanStep(b, s) && sys == Next(b, s)
  }

  /* ---- the log as a run of the store ---- */

  function LogStore(log: seq<Effect>): Store {
    if log == [] then map[]
    else var e := log[|log| - 1]; StoreStep(LogStore(log[..|log| - 1]), e.input, e.output).1
  }

  predicate LogLegal(log: seq<Effect>) {
    log == [] ||
    var e := log[|log| - 1];
    LogLegal(log[..|log| - 1]) && StoreStep(LogStore(log[..|log| - 1]), e.input, e.output).0
  }

  /** Taking out a read leaves every other effect allowed and the store as it was. */
  lemma {:induction false} WithoutRead(log: seq<Effect>, serial: nat)
    requires LogLegal(log) && forall d | d in log && d.serial == serial :: d.input.op == 0
    ensures LogLegal(Without(log, serial)) && LogStore(Without(log, serial)) == LogStore(log)
  {
    if log != [] {
      var rest := Without(log[..|log| - 1], serial);
      WithoutRead(log[..|log| - 1], serial);
      if log[|log| - 1].serial != serial {
        assert (rest + [log[|log| - 1]])[..|rest|] == rest;
      }
    }
  }

  ghost predicate Logged(log: seq<Effect>, serial: nat) {
    exists e | e in log :: e.serial == serial
  }

  ghost predicate LoggedAs(log: seq<Effect>, serial: nat, output: KvOutput) {
    exists e | e in log :: e.serial == serial && e.output == output
  }

  /** Effects are in order of time, one for each operation. */
  ghost predicate InOrder(log: seq<Effect>) {
    forall i, j | 0 <= i < j < |log| :: log[i].at < log[j].at && log[i].serial != log[j].serial
  }

  lemma {:induction false} WithoutElements(log: seq<Effect>, serial: nat)
    ensures forall e :: e in Without(log, serial) <==> e in log && e.serial != serial
  {
    if log != [] { WithoutElements(log[..|log| - 1], serial); }
  }

  lemma InOrderAppend(log: seq<Effect>, e: Effect)
    requires InOrder(log) && forall d | d in log :: d.at < e.at && d.serial != e.serial
    ensures InOrder(log + [e])
  {
    forall i | 0 <= i < |log| ensures log[i] in log {}
  }

  lemma {:induction false} WithoutInOrder(log: seq<Effect>, serial: nat)
    requires InOrder(log)
    ensures InOrder(Without(log, serial))
  {
    if log != [] {
      var n := |log| - 1;
      WithoutInOrder(log[..n], serial);
      WithoutElements(log[..n], serial);
      forall d | d in Without(log[..n], serial) ensures d.at < log[n].at && d.serial != log[n].serial {
        assert d in log[..n];
        var i :| 0 <= i < n && log[i] == d;
      }
      InOrderAppend(Without(log[..n], serial), log[n]);
    }
  }

  /* ---- what every step keeps ---- */

  ghost predicate EntryOk(sys: System, e: Effect) {
    && e.serial < |sys.ops|
    && e.input == InputOf(sys.ops[e.serial].op)
    && sys.ops[e.serial].call <= e.at < sys.now
    && (sys.ops[e.serial].answer.Some? ==> e.at <= sys.ops[e.serial].answer.value.1)
  }

  ghost predicate LogInv(sys: System) {
    && InOrder(sys.log)
    && (forall e | e in sys.log :: EntryOk(sys, e))
    && LogLegal(sys.log) && LogStore(sys.log) == sys.server.store
  }

  /** A modification has changed the store once if it is in the log, else not at all. */
  ghost predicate RecordOk(sys: System, s: nat)
    requires s < |sys.ops|
  {
    var r := sys.ops[s];
    && r.call < sys.now
    && (r.answer.Some? ==> r.answer.value.1 < sys.now && LoggedAs(sys.log, s, r.answer.value.0))
    && (r.answer.None? ==> r.clerk < |sys.clerks| && sys.clerks[r.clerk].Busy? && sys.clerks[r.clerk].serial == s)
    && r.applied == (if !r.op.GetOp? && Logged(sys.log, s) then 1 else 0)
    && (!r.op.GetOp? && Logged(sys.log, s) ==> LoggedAs(sys.log, s, OutputOf(r.op, r.before)))
  }

  ghost predicate ClerkOk(sys: System, c: nat)
    requires c < |sys.clerks|
  {
    var k := sys.clerks[c];
    k.Busy? ==>
      && k.serial < |sys.ops|
      && var r := sys.ops[k.serial];
      && r.clerk == c && r.op == k.op && r.id == k.id && r.answer.None?
      && (k.op.GetOp? ==>
            && k.phase == Modifying
            && (k.reply.Some? ==> LoggedAs(sys.log, k.serial, OutputOf(k.op, k.reply.value))))
      && (!k.op.GetOp? && k.phase == Modifying ==>
            && (Logged(sys.log, k.serial) <==> k.id in sys.server.ids)
            && (k.id in sys.server.ids ==> LoggedAs(sys.log, k.serial, OutputOf(k.op, sys.server.ids[k.id])))
            && (k.reply.Some? ==> LoggedAs(sys.log, k.serial, OutputOf(k.op, k.reply.value))))
      && (!k.op.GetOp? && k.phase == Acking ==>
            && LoggedAs(sys.log, k.serial, OutputOf(k.op, k.result))
            && (k.reply.Some? ==> k.id !in sys.server.ids))
  }

  /** id belongs to a modification some clerk is still at work on. */
  ghost predicate Unfinished(sys: System, id: int) {
    exists c :: 0 <= c < |sys.clerks| && sys.clerks[c].Busy? && !sys.clerks[c].op.GetOp? && sys.clerks[c].id == id
  }

  ghost predicate Inv(sys: System) {
    && LogInv(sys)
    && (forall s: nat | s < |sys.ops| :: RecordOk(sys, s))
    && (forall c: nat | c < |sys.clerks| :: ClerkOk(sys, c))
    && (forall id | id in sys.server.ids :: Unfinished(sys, id))
    && (forall s, t | 0 <= s < t < |sys.ops| && !sys.ops[s].op.GetOp? && !sys.ops[t].op.GetOp? ::
       sys.ops[s].id != sys.ops[t].id)
  }

  lemma InvokeKeepsInv(sys: System, c: nat, op: Op, id: int)
    requires Inv(sys) && CanStep(sys, Invoke(c, op, id))
    ensures Inv(Next(sys, Invoke(c, op, id)))
  {
    hide LoggedAs, InOrder, LogLegal, LogStore;
    var r := Next(sys, Invoke(c, op, id));
    forall e | e in r.log ensures EntryOk(r, e) { assert EntryOk(sys, e); }
    assert !Logged(sys.log, |sys.ops|);
    forall i | i in sys.server.ids ensures !FreshId(sys, i) { MemoizedIsKnown(sys, i); }
    forall s: nat | s < |r.ops| ensures RecordOk(r, s) { if s < |sys.ops| { assert RecordOk(sys, s); } }
    forall d: nat | d < |r.clerks| ensures ClerkOk(r, d) { assert ClerkOk(sys, d); }
    forall i | i in r.server.ids ensures Unfinished(r, i) {
      assert Unfinished(sys, i);
      var d :| 0 <= d < |sys.clerks| && sys.clerks[d].Busy? && !sys.clerks[d].op.GetOp? && sys.clerks[d].id == i;
      assert r.clerks[d] == sys.clerks[d];
    }
  }

  lemma MemoizedIsKnown(sys: System, id: int)
    requires Inv(sys) && id in sys.server.ids
    ensures !FreshId(sys, id)
  {
    assert Unfinished(sys, id);
    var d :| 0 <= d < |sys.clerks| && sys.clerks[d].Busy? && !sys.clerks[d].op.GetOp? && sys.clerks[d].id == id;
    assert ClerkOk(sys, d);
  }

  lemma LoseKeepsInv(sys: System, c: nat)
    requires Inv(sys) && CanStep(sys, LoseReply(c))
    ensures Inv(Next(sys, LoseReply(c)))
  {
    hide Logged, LoggedAs, InOrder, LogLegal, LogStore;
    var r := Next(sys, LoseReply(c));
    forall e | e in r.log ensures EntryOk(r, e) { assert EntryOk(sys, e); }
    forall s: nat | s < |r.ops| ensures RecordOk(r, s) { assert RecordOk(sys, s); }
    forall d: nat | d < |r.clerks| ensures ClerkOk(r, d) { assert ClerkOk(sys, d); }
    forall i | i in r.server.ids ensures Unfinished(r, i) { SameUnfinished(sys, r, i); }
  }

  lemma DropKeepsInv(sys: System, c: nat)
    requires Inv(sys) && CanStep(sys, DropRequest(c))
    ensures Inv(Next(sys, DropRequest(c)))
  {
    var r := Next(sys, DropRequest(c));
    forall e | e in r.log ensures EntryOk(r, e) { assert EntryOk(sys, e); }
    forall s: nat | s < |r.ops| ensures RecordOk(r, s) { assert RecordOk(sys, s); }
    forall d: nat | d < |r.clerks| ensures ClerkOk(r, d) { assert ClerkOk(sys, d); }
    forall i | i in r.server.ids ensures Unfinished(r, i) { SameUnfinished(sys, r, i); }
  }

  /** Clerks that keep their operation and id keep an id unfinished. */
  lemma SameUnfinished(sys: System, r: System, id: int)
    requires Unfinished(sys, id) && |r.clerks| == |sys.clerks|
    requires forall d | 0 <= d < |sys.clerks| && sys.clerks[d].Busy? && sys.clerks[d].id == id
             && !sys.clerks[d].op.GetOp? ::
               r.clerks[d].Busy? && r.clerks[d].id == sys.clerks[d].id && r.clerks[d].op == sys.clerks[d].op
    ensures Unfinished(r, id)
  {
    var d :| 0 <= d < |sys.clerks| && sys.clerks[d].Busy? && !sys.clerks[d].op.GetOp? && sys.clerks[d].id == id;
    assert r.clerks[d].Busy?;
  }

  /* ---- delivery ---- */

  lemma StartAckKeepsInv(sys: System, c: nat)
    requires Inv(sys) && CanStep(sys, Deliver(c)) && !sys.clerks[c].op.GetOp? && sys.clerks[c].phase == Modifying
    ensures Inv(Next(sys, Deliver(c)))
  {
    hide Logged, LoggedAs, InOrder, LogLegal, LogStore;
    var r := Next(sys, Deliver(c));
    assert ClerkOk(sys, c);
    forall e | e in r.log ensures EntryOk(r, e) { assert EntryOk(sys, e); }
    forall s: nat | s < |r.ops| ensures RecordOk(r, s) { assert RecordOk(sys, s); }
    forall d: nat | d < |r.clerks| ensures ClerkOk(r, d) { assert ClerkOk(sys, d); }
    forall i | i in r.server.ids ensures Unfinished(r, i) { SameUnfinished(sys, r, i); }
  }

  lemma AnswerKeepsInv(sys: System, c: nat)
    requires Inv(sys) && CanStep(sys, Deliver(c)) && (sys.clerks[c].op.GetOp? || sys.clerks[c].phase == Acking)
    ensures Inv(Next(sys, Deliver(c)))
  {
    hide Logged, LoggedAs, InOrder, LogLegal, LogStore;
    var r := Next(sys, Deliver(c));
    assert ClerkOk(sys, c);
    forall e | e in r.log ensures EntryOk(r, e) { assert EntryOk(sys, e); }
    forall s: nat | s < |r.ops| ensures RecordOk(r, s) { assert RecordOk(sys, s); }
    forall d: nat | d < |r.clerks| ensures ClerkOk(r, d) { assert ClerkOk(sys, d); }
    forall i | i in r.server.ids ensures Unfinished(r, i) { SameUnfinished(sys, r, i); }
  }

  /* ---- execution ---- */

  /** Two logs that agree on an operation. */
  ghost predicate AgreeOn(a: seq<Effect>, b: seq<Effect>, serial: nat) {
    forall e: Effect | e.serial == serial :: e in a <==> e in b
  }

  lemma AgreeSame(a: seq<Effect>, b: seq<Effect>, serial: nat)
    requires AgreeOn(a, b, serial)
    ensures Logged(a, serial) <==> Logged(b, serial)
    ensures forall o :: LoggedAs(a, serial, o) <==> LoggedAs(b, serial, o)
  {
  }

  /** A step of clerk c that leaves what the others see of the log and of the memo alone leaves the others in order. */
  lemma OthersKept(sys: System, r: System, c: nat)
    requires Inv(sys) && c < |sys.clerks| && sys.clerks[c].Busy? && |r.clerks| == |sys.clerks| && |r.ops| == |sys.ops|
             && r.now == sys.now + 1
    requires forall d | 0 <= d < |sys.clerks| && d != c :: r.clerks[d] == sys.clerks[d]
    requires r.clerks[c].Busy? && r.clerks[c].serial == sys.clerks[c].serial
    requires forall s | 0 <= s < |sys.ops| && s != sys.clerks[c].serial ::
             r.ops[s] == sys.ops[s] && AgreeOn(sys.log, r.log, s)
    requires forall id | id != sys.clerks[c].id || sys.clerks[c].op.GetOp? ::
               (id in r.server.ids <==> id in sys.server.ids)
                   && (id in sys.server.ids ==> r.server.ids[id] == sys.server.ids[id])
    ensures forall s: nat | s < |r.ops| && s != sys.clerks[c].serial :: RecordOk(r, s)
    ensures forall d: nat | d < |r.clerks| && d != c :: ClerkOk(r, d)
  {
    assert ClerkOk(sys, c);
    forall s: nat | s < |r.ops| && s != sys.clerks[c].serial ensures RecordOk(r, s) {
      assert RecordOk(sys, s);
      AgreeSame(sys.log, r.log, s);
    }
    forall d: nat | d < |r.clerks| && d != c ensures ClerkOk(r, d) {
      assert ClerkOk(sys, d);
      if sys.clerks[d].Busy? { AgreeSame(sys.log, r.log, sys.clerks[d].serial); }
    }
  }

  /** A read that is executed again takes effect at its last execution instead. */
  lemma MoveRead(log: seq<Effect>, e: Effect)
    requires InOrder(log) && LogLegal(log) && e.input.op == 0 && StoreStep(LogStore(log), e.input, e.output).0
    requires forall d | d in log && d.serial == e.serial :: d.input.op == 0
    requires forall d | d in log :: d.at < e.at
    ensures var log' := Without(log, e.serial) + [e];
            && InOrder(log') && LogLegal(log') && LogStore(log') == LogStore(log)
            && (forall d :: d in log' <==> (d in log && d.serial != e.serial) || d == e)
  {
    hide InOrder, LogLegal, LogStore, Without;
    WithoutRead(log, e.serial);
    WithoutInOrder(log, e.serial);
    WithoutElements(log, e.serial);
    LogAppend(Without(log, e.serial), e);
  }

  lemma ReadLogInv(sys: System, c: nat)
    requires LogInv(sys) && CanStep(sys, Execute(c)) && sys.clerks[c].op.GetOp?
    requires var rec := sys.ops[sys.clerks[c].serial];
             rec.op == sys.clerks[c].op && rec.call < sys.now && rec.answer.None?
    ensures LogInv(Next(sys, Execute(c)))
  {
    hide LogLegal, LogStore, InOrder, Without;
    var k, r := sys.clerks[c], Next(sys, Execute(c));
    var e := r.log[|r.log| - 1];
    assert r.log == Without(sys.log, k.serial) + [e];
    assert forall d | d in sys.log :: EntryOk(sys, d);
    MoveRead(sys.log, e);
    forall d | d in r.log ensures EntryOk(r, d) {}
  }

  lemma ReadKeepsInv(sys: System, c: nat)
    requires Inv(sys) && CanStep(sys, Execute(c)) && sys.clerks[c].op.GetOp?
    ensures Inv(Next(sys, Execute(c)))
  {
    hide LogInv, Without;
    var k, r := sys.clerks[c], Next(sys, Execute(c));
    assert ClerkOk(sys, c) && RecordOk(sys, k.serial);
    ReadLogInv(sys, c);
    WithoutElements(sys.log, k.serial);
    var e := r.log[|r.log| - 1];
    OthersKept(sys, r, c);
    assert LoggedAs(r.log, k.serial, e.output) by { assert e in r.log; }
    forall i | i in r.server.ids ensures Unfinished(r, i) { SameUnfinished(sys, r, i); }
  }

  lemma LogAppend(log: seq<Effect>, e: Effect)
    requires InOrder(log) && LogLegal(log) && (forall d | d in log :: d.at < e.at && d.serial != e.serial)
    requires StoreStep(LogStore(log), e.input, e.output).0
    ensures InOrder(log + [e]) && LogLegal(log + [e])
    ensures LogStore(log + [e]) == StoreStep(LogStore(log), e.input, e.output).1
  {
    hide InOrder, StoreStep;
    InOrderAppend(log, e);
    assert (log + [e])[..|log|] == log;
  }

  /** What the handler does to the store is the step of the store model, with the answer it gives. */
  lemma ChangeIsStep(sys: System, c: nat)
    requires CanStep(sys, Execute(c)) && Changes(sys, sys.clerks[c])
    ensures var r, k := Next(sys, Execute(c)), sys.clerks[c];
            && r.log == sys.log
                        + [Effect(k.serial, InputOf(k.op), OutputOf(k.op, Get(sys.server.store, k.op.key)), sys.now)]
            && StoreStep(sys.server.store, InputOf(k.op), OutputOf(k.op, Get(sys.server.store, k.op.key)))
               == (true, r.server.store)
            && (forall id | id != k.id ::
               (id in r.server.ids <==> id in sys.server.ids)
                   && (id in sys.server.ids ==> r.server.ids[id] == sys.server.ids[id]))
            && k.id in r.server.ids
               && OutputOf(k.op, r.server.ids[k.id]) == OutputOf(k.op, Get(sys.server.store, k.op.key))
            && r.clerks == sys.clerks[c := k.(reply := Some(Get(sys.server.store, k.op.key)))]
            && k.phase == Modifying && k.id !in sys.server.ids
  {
  }

  lemma ChangeLogInv(sys: System, c: nat)
    requires Inv(sys) && CanStep(sys, Execute(c)) && Changes(sys, sys.clerks[c])
    ensures LogInv(Next(sys, Execute(c))) && !Logged(sys.log, sys.clerks[c].serial)
  {
    hide LogLegal, LogStore, InOrder, Handle;
    var k, r := sys.clerks[c], Next(sys, Execute(c));
    ChangeIsStep(sys, c);
    assert ClerkOk(sys, c) && RecordOk(sys, k.serial);
    var e := r.log[|r.log| - 1];
    forall d | d in sys.log ensures EntryOk(sys, d) && d.serial != k.serial {}
    LogAppend(sys.log, e);
    forall d | d in r.log ensures EntryOk(r, d) { assert d in sys.log || d == e; }
  }

  lemma ChangeKeepsInv(sys: System, c: nat)
    requires Inv(sys) && CanStep(sys, Execute(c)) && Changes(sys, sys.clerks[c])
    ensures Inv(Next(sys, Execute(c)))
  {
    hide LogInv, Handle, NeedsChange;
    var k, r := sys.clerks[c], Next(sys, Execute(c));
    ChangeIsStep(sys, c);
    ChangeLogInv(sys, c);
    assert ClerkOk(sys, c) && RecordOk(sys, k.serial);
    var e := r.log[|r.log| - 1];
    OthersKept(sys, r, c);
    assert LoggedAs(r.log, k.serial, e.output) && Logged(r.log, k.serial) by { assert e in r.log; }
    forall i | i in r.server.ids ensures Unfinished(r, i) {
      if i == k.id { assert r.clerks[c].id == i; } else { SameUnfinished(sys, r, i); }
    }
  }

  lemma NoChangeKeepsInv(sys: System, c: nat)
    requires Inv(sys) && CanStep(sys, Execute(c)) && !sys.clerks[c].op.GetOp? && !Changes(sys, sys.clerks[c])
    ensures Inv(Next(sys, Execute(c)))
  {
    hide LogLegal, LogStore, InOrder, Logged, LoggedAs;
    var k, r := sys.clerks[c], Next(sys, Execute(c));
    assert ClerkOk(sys, c) && RecordOk(sys, k.serial);
    forall e | e in r.log ensures EntryOk(r, e) { assert EntryOk(sys, e); }
    OthersKept(sys, r, c);
    forall i | i in r.server.ids ensures Unfinished(r, i) { SameUnfinished(sys, r, i); }
  }

  lemma StepKeepsInv(sys: System, s: Step)
    requires Inv(sys) && CanStep(sys, s)
    ensures Inv(Next(sys, s))
  {
    hide Inv;
    match s
    case Invoke(c, op, id) => InvokeKeepsInv(sys, c, op, id);
    case DropRequest(c) => DropKeepsInv(sys, c);
    case LoseReply(c) => LoseKeepsInv(sys, c);
    case Execute(c) =>
      if sys.clerks[c].op.GetOp? { ReadKeepsInv(sys, c); }
      else if Changes(sys, sys.clerks[c]) { ChangeKeepsInv(sys, c); }
      else { NoChangeKeepsInv(sys, c); }
    case Deliver(c) =>
      if !sys.clerks[c].op.GetOp? && sys.clerks[c].phase == Modifying {
        StartAckKeepsInv(sys, c);
      } else {
        AnswerKeepsInv(sys, c);
      }
  }

  lemma SameClerks(sys: System, s: Step)
    requires CanStep(sys, s)
    ensures |Next(sys, s).clerks| == |sys.clerks|
  {
  }

  lemma {:induction false} RunKeepsInv(n: nat, run: seq<Step>, sys: System)
    requires Runs(n, run, sys)
    ensures Inv(sys) && |sys.clerks| == n
    decreases |run|
  {
    if run == [] {
      assert Inv(sys);
    } else {
      hide Inv, CanStep, Next;
      var before, s := run[..|run| - 1], run[|run| - 1];
      var b :| Runs(n, before, b) && CanStep(b, s) && sys == Next(b, s);
      RunKeepsInv(n, before, b);
      StepKeepsInv(b, s);
      SameClerks(b, s);
    }
  }

  /* ---- exactly once ---- */

  /**
   In every run, a modification is applied at most once, exactly once by the time it is
   answered, and an Append is answered with the value just before; the memo holds only the
   ids of operations still under way; and the store is what the logged effects, one for each
   operation, make of the empty store, those of modifications being the ones applied.
   */
  lemma ExactlyOnce(n: nat, run: seq<Step>, sys: System, s: nat)
    requires Runs(n, run, sys) && s < |sys.ops|
    ensures var r := sys.ops[s];
            && r.applied <= 1
            && (!r.op.GetOp? ==> (r.applied == 1 <==> Logged(sys.log, s)))
            && (r.answer.Some? && !r.op.GetOp? ==> r.applied == 1)
            && (r.answer.Some? && r.op.AppendOp? ==> r.answer.value.0 == KvOutput(r.before))
    ensures forall id | id in sys.server.ids :: Unfinished(sys, id)
    ensures sys.server.store == LogStore(sys.log) && InOrder(sys.log)
  {
    hide LogLegal, LogStore;
    RunKeepsInv(n, run, sys);
    assert RecordOk(sys, s);
    var r := sys.ops[s];
    if r.answer.Some? && !r.op.GetOp? {
      var a :| a in sys.log && a.serial == s && a.output == r.answer.value.0;
      assert Logged(sys.log, s);
      var b :| b in sys.log && b.serial == s && b.output == OutputOf(r.op, r.before);
      SameEffect(sys.log, a, b);
    }
  }

  lemma SameEffect(log: seq<Effect>, a: Effect, b: Effect)
    requires InOrder(log) && a in log && b in log && a.serial == b.serial
    ensures a == b
  {
    var i :| 0 <= i < |log| && log[i] == a;
    var j :| 0 <= j < |log| && log[j] == b;
    if i < j { assert log[i].serial != log[j].serial; }
  }

  /* ---- replies to a modification ---- */

  /**
   What the server memoizes of a modification that was applied: the value written by a Put, the value before
   an Append.
   */
  function Memo(r: OpRecord): string { if r.op.PutOp? then r.op.value else r.before }

  /** The first reply is the value before the modification, every later one what was memoized. */
  ghost predicate RepliesOk(r: OpRecord) {
    !r.op.GetOp? ==>
      && (r.replies != [] <==> r.applied > 0)
      && forall i | 0 <= i < |r.replies| :: r.replies[i] == if i == 0 then r.before else Memo(r)
  }

  /** While a clerk asks for its modification, the memo of its id is kept. */
  ghost predicate MemoOk(sys: System, c: nat)
    requires c < |sys.clerks|
  {
    var k := sys.clerks[c];
    k.Busy? && !k.op.GetOp? && k.phase == Modifying && k.serial < |sys.ops| && k.id in sys.server.ids ==>
      sys.server.ids[k.id] == Memo(sys.ops[k.serial])
  }

  ghost predicate RepliesInv(sys: System) {
    && (forall s: nat | s < |sys.ops| :: RepliesOk(sys.ops[s]))
    && (forall c: nat | c < |sys.clerks| :: MemoOk(sys, c))
  }

  /** Execution on behalf of clerk c: the replies of its operation stay in order, and its memo is kept. */
  lemma ExecuteKeepsOwnReplies(sys: System, c: nat)
    requires Inv(sys) && RepliesInv(sys) && CanStep(sys, Execute(c))
    ensures var r, k := Next(sys, Execute(c)), sys.clerks[c]; RepliesOk(r.ops[k.serial]) && MemoOk(r, c)
  {
    hide LogInv, LoggedAs, Without, RepliesOk;
    var k, r := sys.clerks[c], Next(sys, Execute(c));
    assert ClerkOk(sys, c) && RecordOk(sys, k.serial) && MemoOk(sys, c) && RepliesOk(sys.ops[k.serial]);
    if !k.op.GetOp? && k.phase == Modifying {
      var old_, new_ := sys.ops[k.serial], r.ops[k.serial];
      assert new_.replies == old_.replies + [r.clerks[c].reply.value];
      ReplyAdds(old_, new_);
    }
  }

  lemma ReplyAdds(o: OpRecord, r: OpRecord)
    requires RepliesOk(o) && !o.op.GetOp? && r.op == o.op && |r.replies| == |o.replies| + 1
             && r.replies[..|o.replies|] == o.replies
    requires o.applied == 0 ==> r.applied == 1 && r.replies[|o.replies|] == r.before
    requires o.applied > 0 ==> r.applied == o.applied && r.before == o.before && r.replies[|o.replies|] == Memo(o)
    ensures RepliesOk(r)
  {
    assert forall i | 0 <= i < |o.replies| :: r.replies[i] == r.replies[..|o.replies|][i];
  }

  lemma ExecuteKeepsReplies(sys: System, c: nat)
    requires Inv(sys) && RepliesInv(sys) && CanStep(sys, Execute(c))
    ensures RepliesInv(Next(sys, Execute(c)))
  {
    hide LogInv, RecordOk, Without, RepliesOk, LoggedAs, Logged;
    var k, r := sys.clerks[c], Next(sys, Execute(c));
    ExecuteKeepsOwnReplies(sys, c);
    assert ClerkOk(sys, c);
    forall s: nat | s < |r.ops| ensures RepliesOk(r.ops[s]) { assert RepliesOk(sys.ops[s]); }
    forall d: nat | d < |r.clerks| && d != c ensures MemoOk(r, d) { assert MemoOk(sys, d) && ClerkOk(sys, d); }
  }

  lemma StepKeepsReplies(sys: System, s: Step)
    requires Inv(sys) && RepliesInv(sys) && CanStep(sys, s)
    ensures RepliesInv(Next(sys, s))
  {
    if s.Execute? {
      ExecuteKeepsReplies(sys, s.c);
    } else {
      hide LogInv, RecordOk, LoggedAs, Logged, DoExecute;
      var r := Next(sys, s);
      forall i: nat | i < |r.ops| ensures RepliesOk(r.ops[i]) { if i < |sys.ops| { assert RepliesOk(sys.ops[i]); } }
      forall i | i in sys.server.ids ensures !FreshId(sys, i) { MemoizedIsKnown(sys, i); }
      forall d: nat | d < |r.clerks| ensures MemoOk(r, d) { assert MemoOk(sys, d) && ClerkOk(sys, d); }
    }
  }

  lemma {:induction false} RunKeepsReplies(n: nat, run: seq<Step>, sys: System)
    requires Runs(n, run, sys)
    ensures RepliesInv(sys)
    decreases |run|
  {
    hide Inv, Next, CanStep;
    if run != [] {
      var before, s := run[..|run| - 1], run[|run| - 1];
      var b :| Runs(n, before, b) && CanStep(b, s) && sys == Next(b, s);
      RunKeepsInv(n, before, b);
      RunKeepsReplies(n, before, b);
      StepKeepsReplies(b, s);
    }
  }

  /**
   In every run the first reply to a modification is the value before it. Every later reply to an Append
   is the same; every later one to a Put is the value it wrote. So the replies to a modification all agree
   exactly if there was only one, or it was an Append, or a Put of the value that was there.
   */
  lemma RepliesAgreeIff(n: nat, run: seq<Step>, sys: System, s: nat)
    requires Runs(n, run, sys) && s < |sys.ops| && !sys.ops[s].op.GetOp?
    ensures var r := sys.ops[s];
            && (forall i | 0 <= i < |r.replies| ::
               r.replies[i] == if i == 0 || r.op.AppendOp? then r.before else r.op.value)
            && ((forall i, j | 0 <= i < j < |r.replies| :: r.replies[i] == r.replies[j])
                <==> |r.replies| <= 1 || r.op.AppendOp? || r.before == r.op.value)
  {
    RunKeepsReplies(n, run, sys);
    var r := sys.ops[s];
    assert RepliesOk(r);
    if |r.replies| > 1 { assert r.replies[0] == r.before && r.replies[1] == Memo(r); }
  }

  lemma LastStep(n: nat, run: seq<Step>, sys: System, s: Step)
    requires Runs(n, run, sys) && CanStep(sys, s)
    ensures Runs(n, run + [s], Next(sys, s))
  {
    assert (run + [s])[..|run|] == run;
  }

  lemma PutInvoked() returns (run: seq<Step>, sys: System)
    ensures Runs(1, run, sys) && sys.server == Server(map[], map[]) && |sys.ops| == 1 && sys.ops[0].replies == []
    ensures sys.clerks == [Busy(0, PutOp("k", "v"), 7, Modifying, None, "")]
  {
    var s0 := Init(1);
    LastStep(1, [], s0, Invoke(0, PutOp("k", "v"), 7));
    run, sys := [] + [Invoke(0, PutOp("k", "v"), 7)], Next(s0, Invoke(0, PutOp("k", "v"), 7));
  }

  lemma PutLosesReply() returns (run: seq<Step>, sys: System)
    ensures Runs(1, run, sys) && sys.server.ids == map[7 := "v"] && |sys.ops| == 1 && sys.ops[0].replies == [""]
    ensures sys.clerks == [Busy(0, PutOp("k", "v"), 7, Modifying, None, "")]
  {
    hide Runs, LogLegal, LogStore, Without;
    var s1;
    run, s1 := PutInvoked();
    LastStep(1, run, s1, Execute(0));
    var s2 := Next(s1, Execute(0));
    assert s2.clerks[0].reply == Some("");
    LastStep(1, run + [Execute(0)], s2, LoseReply(0));
    run, sys := run + [Execute(0)] + [LoseReply(0)], Next(s2, LoseReply(0));
  }

  /** A Put whose first reply is lost is answered differently when it is sent again. */
  lemma RetriedPutMayDiffer() returns (run: seq<Step>, sys: System)
    ensures Runs(1, run, sys) && |sys.ops| == 1 && sys.ops[0].replies == ["", "v"]
  {
    hide Runs, LogLegal, LogStore, Without;
    var s3;
    run, s3 := PutLosesReply();
    LastStep(1, run, s3, Execute(0));
    run, sys := run + [Execute(0)], Next(s3, Execute(0));
  }

  /* ---- linearizability ---- */

  ghost predicate Complete(sys: System) {
    forall c | 0 <= c < |sys.clerks| :: sys.clerks[c].Idle?
  }

  lemma CompleteIsAnswered(n: nat, run: seq<Step>, sys: System)
    requires Runs(n, run, sys) && Complete(sys)
    ensures forall s | 0 <= s < |sys.ops| :: sys.ops[s].answer.Some?
  {
    RunKeepsInv(n, run, sys);
    forall s: nat | s < |sys.ops| ensures sys.ops[s].answer.Some? { assert RecordOk(sys, s); }
  }

  /** The history the clerks saw. */
  function History(ops: seq<OpRecord>): KvOps
    requires forall s | 0 <= s < |ops| :: ops[s].answer.Some?
  {
    seq(|ops|, s requires 0 <= s < |ops| =>
      Operation(ops[s].clerk, InputOf(ops[s].op), ops[s].call, ops[s].answer.value.0, ops[s].answer.value.1))
  }

  function Serials(log: seq<Effect>): seq<nat> {
    seq(|log|, i requires 0 <= i < |log| => log[i].serial)
  }

  lemma {:induction false} LogIsLegal(h: KvOps, log: seq<Effect>)
    requires forall i | 0 <= i < |log| ::
             log[i].serial < |h| && log[i].input == h[log[i].serial].input && log[i].output == h[log[i].serial].output
    requires LogLegal(log)
    ensures InRange(|h|, Serials(log)) && Legal(StoreModel(), h, map[], Serials(log))
    ensures Final(StoreModel(), h, map[], Serials(log)) == LogStore(log)
  {
    if log != [] {
      var rest := log[..|log| - 1];
      LogIsLegal(h, rest);
      LegalAppend(StoreModel(), h, map[], Serials(rest), log[|log| - 1].serial);
      assert Serials(log) == Serials(rest) + [log[|log| - 1].serial];
    }
  }

  /** What an operation is or will be answered: once it has taken effect, that is settled. */
  ghost function OutputSoFar(sys: System, s: nat): KvOutput
    requires s < |sys.ops|
  {
    if sys.ops[s].answer.Some? then sys.ops[s].answer.value.0
    else if Logged(sys.log, s) then var e :| e in sys.log && e.serial == s; e.output
    else KvOutput("")
  }

  ghost function OpSoFar(sys: System, s: nat): Operation<KvInput, KvOutput>
    requires s < |sys.ops|
  {
    var r := sys.ops[s];
    Operation(r.clerk, InputOf(r.op), r.call, OutputSoFar(sys, s), if r.answer.Some? then r.answer.value.1 else sys.now)
  }

  /** The history up to now: operations still under way are taken to last until now. */
  ghost function HistorySoFar(sys: System): KvOps {
    seq(|sys.ops|, s requires 0 <= s < |sys.ops| => OpSoFar(sys, s))
  }

  lemma LogMatchesHistory(sys: System, i: nat)
    requires Inv(sys) && i < |sys.log|
    ensures var e, h := sys.log[i], HistorySoFar(sys);
            && e.serial < |h| && e.input == h[e.serial].input && e.output == h[e.serial].output
            && h[e.serial].call <= e.at <= h[e.serial].ret
  {
    hide LogLegal, LogStore, ClerkOk;
    var e := sys.log[i];
    assert EntryOk(sys, e) && RecordOk(sys, e.serial);
    assert Logged(sys.log, e.serial);
    var a :| a in sys.log && a.serial == e.serial && a.output == OutputSoFar(sys, e.serial);
    SameEffect(sys.log, a, e);
  }

  lemma EveryOpLogged(sys: System, s: nat)
    requires Inv(sys) && s < |sys.ops| && sys.ops[s].answer.Some?
    ensures s in Serials(sys.log)
  {
    hide LogLegal, LogStore;
    assert RecordOk(sys, s);
    var a :| a in sys.log && a.serial == s && a.output == sys.ops[s].answer.value.0;
    var i :| 0 <= i < |sys.log| && sys.log[i] == a;
    assert Serials(sys.log)[i] == s;
  }

  /**
   After every run the log orders the history so far: a partial linearization with every answered operation
   in it, each operation taking effect between its call and its return, or now.
   */
  lemma RunsAreLinearizableSoFar(n: nat, run: seq<Step>, sys: System)
    requires Runs(n, run, sys)
    ensures IsPartialLinearization(StoreModel(), HistorySoFar(sys), Serials(sys.log)) && WellTimed(HistorySoFar(sys))
    ensures forall s: nat | s < |sys.ops| && sys.ops[s].answer.Some? :: s in Serials(sys.log)
  {
    hide Inv;
    RunKeepsInv(n, run, sys);
    LogOrders(sys, HistorySoFar(sys), Serials(sys.log));
  }

  /** The store is what the log leaves of the empty store. */
  lemma FinalIsStore(n: nat, run: seq<Step>, sys: System)
    requires Runs(n, run, sys)
    ensures var h, q := HistorySoFar(sys), Serials(sys.log);
            InRange(|h|, q) && Final(StoreModel(), h, map[], q) == sys.server.store
  {
    hide Runs, ClerkOk, RecordOk, OutputSoFar;
    RunKeepsInv(n, run, sys);
    forall i: nat | i < |sys.log|
      ensures var e, h := sys.log[i], HistorySoFar(sys);
              e.serial < |h| && e.input == h[e.serial].input && e.output == h[e.serial].output
    {
      LogMatchesHistory(sys, i);
    }
    LogIsLegal(HistorySoFar(sys), sys.log);
  }

  /** Every complete run is linearizable, each operation taking effect between its call and its return. */
  lemma RunsAreLinearizable(n: nat, run: seq<Step>, sys: System)
    requires Runs(n, run, sys) && Complete(sys)
    ensures forall s | 0 <= s < |sys.ops| :: sys.ops[s].answer.Some?
    ensures IsLinearization(StoreModel(), History(sys.ops), Serials(sys.log))
    ensures WellTimed(History(sys.ops))
  {
    RunsAreLinearizableSoFar(n, run, sys);
    CompleteIsAnswered(n, run, sys);
    assert HistorySoFar(sys) == History(sys.ops);
    AllIn(|sys.ops|, Serials(sys.log));
  }

  lemma LogOrders(sys: System, h: KvOps, q: seq<nat>)
    requires Inv(sys) && h == HistorySoFar(sys) && q == Serials(sys.log)
    ensures IsPartialLinearization(StoreModel(), h, q) && WellTimed(h)
    ensures forall s: nat | s < |sys.ops| && sys.ops[s].answer.Some? :: s in q
  {
    hide ClerkOk, LogLegal, LogStore, OutputSoFar, LoggedAs, Logged, Legal;
    forall i: nat | i < |sys.log|
      ensures var e := sys.log[i];
              && e.serial < |h| && e.input == h[e.serial].input && e.output == h[e.serial].output
              && h[e.serial].call <= e.at <= h[e.serial].ret
    {
      LogMatchesHistory(sys, i);
    }
    LogIsLegal(h, sys.log);
    forall s: nat | s < |h| && sys.ops[s].answer.Some? ensures s in q { EveryOpLogged(sys, s); }
    forall i, j | 0 <= i < j < |q| ensures !Precedes(h, q[j], q[i]) {
      assert sys.log[i].at < sys.log[j].at;
    }
    forall s: nat | s < |h|
      ensures h[s].call <= h[s].ret && (sys.ops[s].answer.None? ==> h[s].ret == sys.now) && h[s].call < sys.now
    {
      assert RecordOk(sys, s);
      if s in q {
        var i :| 0 <= i < |q| && q[i] == s;
        assert sys.log[i].serial == s;
      }
    }
  }

  /* ---- every run can be completed ---- */

  /** One more call of clerk c is executed and answered. */
  lemma CallAnswered(n: nat, run: seq<Step>, sys: System, c: nat) returns (run': seq<Step>, sys': System)
    requires Runs(n, run, sys) && c < |sys.clerks| && sys.clerks[c].Busy?
    ensures Runs(n, run', sys') && run <= run' && |sys'.ops| == |sys.ops|
    ensures var k := sys.clerks[c];
            if k.op.GetOp? || k.phase == Acking then sys'.clerks == sys.clerks[c := Idle]
            else exists r :: sys'.clerks == sys.clerks[c := k.(phase := Acking, reply := None, result := r)]
  {
    hide Runs, Inv, Handle, Without, Changes;
    RunKeepsInv(n, run, sys);
    SerialKnown(sys, c);
    run', sys' := run, sys;
    if sys.clerks[c].reply.None? {
      LastStep(n, run', sys', Execute(c));
      run', sys' := run' + [Execute(c)], Next(sys', Execute(c));
    }
    var k := sys'.clerks[c];
    assert sys'.clerks == sys.clerks[c := sys.clerks[c].(reply := k.reply)];
    LastStep(n, run', sys', Deliver(c));
    run', sys' := run' + [Deliver(c)], Next(sys', Deliver(c));
    if !k.op.GetOp? && k.phase == Modifying {
      assert sys'.clerks == sys.clerks[c := sys.clerks[c].(phase := Acking, reply := None, result := k.reply.value)];
    } else {
      assert sys'.clerks == sys.clerks[c := Idle];
    }
  }

  lemma SerialKnown(sys: System, c: nat)
    requires Inv(sys) && c < |sys.clerks| && sys.clerks[c].Busy?
    ensures sys.clerks[c].serial < |sys.ops|
  {
    assert ClerkOk(sys, c);
  }

  /**
   In every run each outcome of a call is possible: a request under way may be dropped or executed, and a reply
   lost or delivered; dropping and losing change nothing but the clerk's reply and the time.
   */
  lemma AnyOutcome(n: nat, run: seq<Step>, sys: System, c: nat)
    requires Runs(n, run, sys) && c < |sys.clerks| && sys.clerks[c].Busy?
    ensures sys.clerks[c].reply.None? ==>
              && CanStep(sys, DropRequest(c)) && CanStep(sys, Execute(c))
              && Next(sys, DropRequest(c)) == sys.(now := sys.now + 1)
    ensures sys.clerks[c].reply.Some? ==>
              && CanStep(sys, LoseReply(c)) && CanStep(sys, Deliver(c))
              && Next(sys, LoseReply(c)).(clerks := sys.clerks) == sys.(now := sys.now + 1)
              && Next(sys, LoseReply(c)).clerks == sys.clerks[c := sys.clerks[c].(reply := None)]
  {
    hide Runs;
    RunKeepsInv(n, run, sys);
    SerialKnown(sys, c);
  }

  /** Clerk c returns from its operation. */
  lemma ClerkFinishes(n: nat, run: seq<Step>, sys: System, c: nat) returns (run': seq<Step>, sys': System)
    requires Runs(n, run, sys) && c < |sys.clerks|
    ensures Runs(n, run', sys') && run <= run' && |sys'.ops| == |sys.ops| && sys'.clerks == sys.clerks[c := Idle]
  {
    hide Runs;
    run', sys' := run, sys;
    if sys.clerks[c].Busy? {
      run', sys' := CallAnswered(n, run, sys, c);
      if sys'.clerks[c].Busy? {
        var r, s := CallAnswered(n, run', sys', c);
        run', sys' := r, s;
      }
    }
    assert sys'.clerks == sys.clerks[c := Idle];
  }

  lemma {:induction false} ClerksFinish(n: nat, run: seq<Step>, sys: System, c: nat)
      returns (run': seq<Step>, sys': System)
    requires Runs(n, run, sys) && c <= |sys.clerks| && forall d | 0 <= d < c :: sys.clerks[d].Idle?
    ensures Runs(n, run', sys') && run <= run' && |sys'.ops| == |sys.ops| && Complete(sys')
    decreases |sys.clerks| - c
  {
    hide Runs;
    if c == |sys.clerks| {
      run', sys' := run, sys;
    } else {
      run', sys' := ClerkFinishes(n, run, sys, c);
      run', sys' := ClerksFinish(n, run', sys', c + 1);
    }
  }

  /** From wherever a run has got to, all its operations can return. */
  lemma RunsCanComplete(n: nat, run: seq<Step>, sys: System) returns (run': seq<Step>, sys': System)
    requires Runs(n, run, sys)
    ensures Runs(n, run', sys') && run <= run' && |sys'.ops| == |sys.ops| && Complete(sys')
    ensures forall s | 0 <= s < |sys'.ops| :: sys'.ops[s].answer.Some?
  {
    hide Runs;
    run', sys' := ClerksFinish(n, run, sys, 0);
    CompleteIsAnswered(n, run', sys');
  }

  /* ---- times are steps of the run ---- */

  ghost predicate CalledAt(run: seq<Step>, r: OpRecord) {
    r.call < |run| && run[r.call] == Invoke(r.clerk, r.op, r.id)
  }

  ghost predicate AnsweredAt(run: seq<Step>, r: OpRecord) {
    r.answer.Some? ==> r.answer.value.1 < |run| && run[r.answer.value.1] == Deliver(r.clerk)
  }

  ghost predicate EffectAt(run: seq<Step>, ops: seq<OpRecord>, e: Effect) {
    e.serial < |ops| && e.at < |run| && run[e.at] == Execute(ops[e.serial].clerk)
  }

  ghost predicate Timed(run: seq<Step>, sys: System) {
    && sys.now == |run|
    && (forall s: nat | s < |sys.ops| :: CalledAt(run, sys.ops[s]) && AnsweredAt(run, sys.ops[s]))
    && (forall e | e in sys.log :: EffectAt(run, sys.ops, e))
    && (forall c: nat | c < |sys.clerks| :: OwnsRecord(sys, c))
  }

  ghost predicate OwnsRecord(sys: System, c: nat)
    requires c < |sys.clerks|
  {
    sys.clerks[c].Busy? ==> sys.clerks[c].serial < |sys.ops| && sys.ops[sys.clerks[c].serial].clerk == c
  }

  lemma StepKeepsTimed(run: seq<Step>, sys: System, s: Step)
    requires Timed(run, sys) && CanStep(sys, s)
    ensures Timed(run + [s], Next(sys, s))
  {
    hide Handle, Without, Changes;
    var all, r := run + [s], Next(sys, s);
    assert OwnsRecord(sys, s.c);
    forall i: nat | i < |r.ops| ensures CalledAt(all, r.ops[i]) && AnsweredAt(all, r.ops[i]) {
      if i < |sys.ops| { assert CalledAt(run, sys.ops[i]) && AnsweredAt(run, sys.ops[i]); }
    }
    forall e | e in r.log ensures EffectAt(all, r.ops, e) {
      if s.Execute? { WithoutElements(sys.log, sys.clerks[s.c].serial); }
      if e in sys.log { assert EffectAt(run, sys.ops, e); }
    }
    forall c: nat | c < |r.clerks| ensures OwnsRecord(r, c) { assert OwnsRecord(sys, c); }
  }

  /**
   In every run an operation is called at the step that invokes it, takes effect at a step that executes its
   request, and is answered at the step that delivers its last reply.
   */
  lemma {:induction false} TimesAreSteps(n: nat, run: seq<Step>, sys: System)
    requires Runs(n, run, sys)
    ensures Timed(run, sys)
    decreases |run|
  {
    hide CanStep, Next, Timed;
    if run == [] {
      StartTimed(n);
    } else {
      var before, s := run[..|run| - 1], run[|run| - 1];
      var b :| Runs(n, before, b) && CanStep(b, s) && sys == Next(b, s);
      assert run == before + [s];
      TimesAreSteps(n, before, b);
      StepKeepsTimed(before, b, s);
    }
  }

  lemma StartTimed(n: nat)
    ensures Timed([], Init(n))
  {
  }
}
