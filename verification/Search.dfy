/**
 The depth-first search of the checker, on values: a stack of linearized calls, a cursor
 into the list of remaining entries, and a cache of the (linearized set, state) pairs seen.
 Each move of the search keeps `Inv`, from which soundness, completeness, maximality of the
 recorded partial linearizations and termination follow.
 */
module Search {
  import opened Collections
  import opened Linearizability
  import opened Links

  /** A history to search: its operations, and the list nodes that hold their calls and returns. */
  datatype Task<!S, !I, !O> = Task(
    m: Model<S, I, O>, ops: seq<Operation<I, O>>, callNode: seq<nat>, retNode: seq<nat>, computePartial: bool)

  predicate Sized<S, I, O>(t: Task<S, I, O>) { |t.callNode| == |t.retNode| == |t.ops| }

  ghost predicate Placed<S, I, O>(t: Task<S, I, O>) {
    && Sized(t)
    && (forall x: nat | x < |t.ops| :: 0 < t.callNode[x] < t.retNode[x])
    && (forall x: nat, y: nat | x < |t.ops| && y < |t.ops| ::
          && t.callNode[x] != t.retNode[y]
          && (x != y ==> t.callNode[x] != t.callNode[y] && t.retNode[x] != t.retNode[y]))
    && (forall x: nat, y: nat | x < |t.ops| && y < |t.ops| ::
          Precedes(t.ops, x, y) <==> t.retNode[x] < t.callNode[y])
  }

  /** A linearized call, and the state and the list before it was linearized. */
  datatype Frame<+S> = Frame(id: nat, state: S, links: Links)

  type Partials = seq<Option<seq<nat>>>

  datatype Search<+S> = Search(
    links: Links, cursor: nat, calls: seq<Frame<S>>, state: S,
    lin: set<nat>, cache: seq<(set<nat>, S)>, longest: Partials)

  /* ---- what it means for a pair to be done with ---- */

  ghost predicate Recorded(longest: Partials, i: nat, len: nat) {
    i < |longest| && longest[i].Some? && |longest[i].value| >= len
  }

  /** No linearization goes through (lin, s), and every partial one that does is no longer than recorded. */
  ghost predicate Resolved<S, I, O>(t: Task<S, I, O>, longest: Partials, lin: set<nat>, s: S) {
    forall q | Extends(t.m, t.ops, lin, s, q) ::
      && |lin| + |q| < |t.ops|
      && (t.computePartial ==> forall i | i in lin || i in q :: Recorded(longest, i, |lin| + |q|))
  }

  ghost predicate Tried<S, I, O>(t: Task<S, I, O>, longest: Partials, lin: set<nat>, s: S, c: nat)
    requires c < |t.ops|
  {
    StepOp(t.m, t.ops, s, c).0 ==> Resolved(t, longest, lin + {c}, StepOp(t.m, t.ops, s, c).1)
  }

  lemma {:induction false} ResolveStep<S, I, O>(t: Task<S, I, O>, longest: Partials, lin: set<nat>, s: S)
    requires |lin| < |t.ops|
    requires forall c | Enabled(t.ops, lin, c) :: Tried(t, longest, lin, s, c)
    requires t.computePartial ==> forall i | i in lin :: Recorded(longest, i, |lin|)
    ensures Resolved(t, longest, lin, s)
  {
    forall q | Extends(t.m, t.ops, lin, s, q)
      ensures |lin| + |q| < |t.ops|
      ensures t.computePartial ==> forall i | i in lin || i in q :: Recorded(longest, i, |lin| + |q|)
    {
      if q != [] {
        var c := q[0];
        assert Tried(t, longest, lin, s, c);
        assert Extends(t.m, t.ops, lin + {c}, StepOp(t.m, t.ops, s, c).1, q[1..]);
        assert |lin + {c}| == |lin| + 1;
        assert forall i | i in q :: i in lin + {c} || i in q[1..];
      }
    }
  }

  lemma {:induction false} ExtendsEqual<S(!new), I(!new), O(!new)>(t: Task<S, I, O>, lin: set<nat>, a: S, b: S,
      q: seq<nat>)
    requires EqualIsBisimulation(t.m) && t.m.equal(a, b)
    requires Extends(t.m, t.ops, lin, a, q)
    ensures Extends(t.m, t.ops, lin, b, q)
    decreases |q|
  {
    if q != [] {
      var c := q[0];
      assert t.m.equal(StepOp(t.m, t.ops, a, c).1, StepOp(t.m, t.ops, b, c).1);
      ExtendsEqual(t, lin + {c}, StepOp(t.m, t.ops, a, c).1, StepOp(t.m, t.ops, b, c).1, q[1..]);
    }
  }

  /** A pair equal to a resolved pair is resolved. */
  lemma ResolvedEqual<S(!new), I(!new), O(!new)>(t: Task<S, I, O>, longest: Partials, lin: set<nat>, a: S, b: S)
    requires EqualIsBisimulation(t.m) && t.m.equal(a, b) && Resolved(t, longest, lin, b)
    ensures Resolved(t, longest, lin, a)
  {
    forall q | Extends(t.m, t.ops, lin, a, q) ensures Extends(t.m, t.ops, lin, b, q) {
      ExtendsEqual(t, lin, a, b, q);
    }
  }

  ghost predicate Grows(before: Partials, after: Partials) {
    forall i: nat, len: nat | Recorded(before, i, len) :: Recorded(after, i, len)
  }

  /* ---- the stack ---- */

  /** Before the cursor, the list holds only calls, each already tried. */
  ghost predicate Explored<S, I, O>(t: Task<S, I, O>, longest: Partials, lin: set<nat>, s: S, cursor: nat)
    requires Sized(t)
  {
    forall c: nat | c < |t.ops| && c !in lin ::
      cursor <= t.retNode[c] && (t.callNode[c] < cursor ==> Tried(t, longest, lin, s, c))
  }

  /** The nodes still in the list once `lin` is linearized. */
  ghost function Live<S, I, O>(t: Task<S, I, O>, lin: set<nat>): set<nat>
    requires Sized(t)
  {
    {0}
    + (set c: nat | c < |t.ops| && c !in lin :: t.callNode[c])
    + (set c: nat | c < |t.ops| && c !in lin :: t.retNode[c])
  }

  function InitialLinks(len: nat): Links {
    Links(seq(len + 1, i => i + 1), seq(len + 1, i => if i <= 0 then len + 1 else i - 1))
  }

  /** Each frame linearized an operation that could come next, with a step the model allows. */
  ghost predicate Stack<S, I, O>(t: Task<S, I, O>, calls: seq<Frame<S>>, state: S, lin: set<nat>)
    decreases |calls|
  {
    if calls == [] then state == t.m.init && lin == {}
    else
      var f := calls[|calls| - 1];
      && f.id in lin
      && Enabled(t.ops, lin - {f.id}, f.id)
      && StepOp(t.m, t.ops, f.state, f.id) == (true, state)
      && Stack(t, calls[..|calls| - 1], f.state, lin - {f.id})
  }

  /** The list is the original one with the operations of the stack lifted out, in stack order. */
  ghost predicate Lists<S, I, O>(t: Task<S, I, O>, calls: seq<Frame<S>>, lin: set<nat>, links: Links)
    requires Sized(t)
    decreases |calls|
  {
    if calls == [] then lin == {} && links == InitialLinks(2 * |t.ops|)
    else
      var f := calls[|calls| - 1];
      && f.id in lin && f.id < |t.ops|
      && Liftable(f.links, Live(t, lin - {f.id}), t.callNode[f.id], t.retNode[f.id])
      && CanLift(f.links, t.callNode[f.id], t.retNode[f.id])
         && links == Lifted(f.links, t.callNode[f.id], t.retNode[f.id])
      && Lists(t, calls[..|calls| - 1], lin - {f.id}, f.links)
  }

  /** At every level of the stack, what lies before that level's cursor has been tried. */
  ghost predicate Searched<S, I, O>(t: Task<S, I, O>, longest: Partials, calls: seq<Frame<S>>, state: S, lin: set<nat>,
      cursor: nat)
    requires Sized(t)
    decreases |calls|
  {
    && Explored(t, longest, lin, state, cursor)
    && (calls != [] ==>
          var f := calls[|calls| - 1];
          && f.id < |t.ops|
          && Searched(t, longest, calls[..|calls| - 1], f.state, lin - {f.id}, t.callNode[f.id]))
  }

  ghost predicate OnPath<S>(calls: seq<Frame<S>>, state: S, lin: set<nat>, p: (set<nat>, S))
    decreases |calls|
  {
    && calls != []
    && var f := calls[|calls| - 1];
    (p == (lin, state) || OnPath(calls[..|calls| - 1], f.state, lin - {f.id}, p))
  }

  function Ids<S>(calls: seq<Frame<S>>): seq<nat> {
    seq(|calls|, i requires 0 <= i < |calls| => calls[i].id)
  }

  /** All sequences of at most k numbers below n. */
  ghost function Sequences(n: nat, k: nat): set<seq<nat>> {
    if k == 0 then {[]}
    else Sequences(n, k - 1) + set q, i: nat | q in Sequences(n, k - 1) && i < n :: q + [i]
  }

  /** The finite space in which the cache grows. */
  ghost function Space<S, I, O>(t: Task<S, I, O>): set<(set<nat>, S)> {
    set q | q in Sequences(|t.ops|, |t.ops|) && InRange(|t.ops|, q) :: (Elements(q), Final(t.m, t.ops, t.m.init, q))
  }

  ghost predicate CacheOk<S, I, O>(t: Task<S, I, O>, st: Search<S>) {
    forall p | p in st.cache ::
      && p in Space(t)
      && (OnPath(st.calls, st.state, st.lin, p) || Resolved(t, st.longest, p.0, p.1))
  }

  ghost predicate LongestOk<S, I, O>(t: Task<S, I, O>, longest: Partials) {
    && |longest| == |t.ops|
    && forall i | 0 <= i < |longest| && longest[i].Some? ::
         Extends(t.m, t.ops, {}, t.m.init, longest[i].value) && i in longest[i].value
  }

  /* ---- facts about the stack ---- */

  lemma {:induction false} ExtendsAppend<S, I, O>(m: Model<S, I, O>, ops: seq<Operation<I, O>>, done: set<nat>, s: S,
      q: seq<nat>, c: nat)
    requires Extends(m, ops, done, s, q) && InRange(|ops|, q)
    requires Enabled(ops, done + Elements(q), c) && StepOp(m, ops, Final(m, ops, s, q), c).0
    ensures Extends(m, ops, done, s, q + [c])
    ensures InRange(|ops|, q + [c])
    ensures Final(m, ops, s, q + [c]) == StepOp(m, ops, Final(m, ops, s, q), c).1
    decreases |q|
  {
    if q == [] {
      assert done + Elements(q) == done;
      assert q + [c] == [c];
    } else {
      assert done + {q[0]} + Elements(q[1..]) == done + Elements(q);
      ExtendsAppend(m, ops, done + {q[0]}, StepOp(m, ops, s, q[0]).1, q[1..], c);
      assert (q + [c])[1..] == q[1..] + [c];
    }
  }

  /** The stack spells out a partial linearization of exactly the linearized operations. */
  lemma {:induction false} StackIsPartial<S, I, O>(t: Task<S, I, O>, calls: seq<Frame<S>>, state: S, lin: set<nat>)
    requires Stack(t, calls, state, lin)
    ensures var q := Ids(calls);
            && Extends(t.m, t.ops, {}, t.m.init, q)
            && InRange(|t.ops|, q) && Elements(q) == lin
            && Final(t.m, t.ops, t.m.init, q) == state
    decreases |calls|
  {
    var q := Ids(calls);
    if calls != [] {
      var f, rest := calls[|calls| - 1], calls[..|calls| - 1];
      StackIsPartial(t, rest, f.state, lin - {f.id});
      assert q == Ids(rest) + [f.id];
      assert {} + Elements(Ids(rest)) == lin - {f.id};
      ExtendsAppend(t.m, t.ops, {}, t.m.init, Ids(rest), f.id);
      assert Elements(q) == Elements(Ids(rest)) + {f.id};
    }
  }

  lemma PartialSize<S, I, O>(t: Task<S, I, O>, q: seq<nat>)
    requires Extends(t.m, t.ops, {}, t.m.init, q)
    ensures InRange(|t.ops|, q) && |Elements(q)| == |q| <= |t.ops|
    ensures |q| == |t.ops| ==> forall x: nat | x < |t.ops| :: x in Elements(q)
  {
    ExtendsIsValid(t.m, t.ops, {}, t.m.init, q);
    DistinctSize(q);
    BelowSize(|t.ops|, Elements(q));
  }

  lemma {:induction false} InSequences(n: nat, k: nat, q: seq<nat>)
    requires InRange(n, q) && |q| <= k
    ensures q in Sequences(n, k)
  {
    if q == [] {
      if k > 0 { InSequences(n, k - 1, q); }
    } else {
      var r := q[..|q| - 1];
      InSequences(n, k - 1, r);
      assert q == r + [q[|q| - 1]];
    }
  }

  lemma InSpace<S, I, O>(t: Task<S, I, O>, q: seq<nat>)
    requires InRange(|t.ops|, q) && |q| <= |t.ops|
    ensures (Elements(q), Final(t.m, t.ops, t.m.init, q)) in Space(t)
  {
    InSequences(|t.ops|, |t.ops|, q);
  }

  lemma {:induction false} OnPathSmaller<S>(calls: seq<Frame<S>>, state: S, lin: set<nat>, p: (set<nat>, S))
    requires OnPath(calls, state, lin, p)
    ensures |p.0| <= |lin|
    decreases |calls|
  {
    var f := calls[|calls| - 1];
    if p != (lin, state) {
      OnPathSmaller(calls[..|calls| - 1], f.state, lin - {f.id}, p);
    }
  }

  lemma ExploredGrows<S, I, O>(t: Task<S, I, O>, a: Partials, b: Partials, lin: set<nat>, s: S, cursor: nat)
    requires Placed(t) && Explored(t, a, lin, s, cursor) && Grows(a, b)
    ensures Explored(t, b, lin, s, cursor)
  {
  }

  lemma {:induction false} SearchedGrows<S, I, O>(t: Task<S, I, O>, a: Partials, b: Partials, calls: seq<Frame<S>>,
      state: S, lin: set<nat>, cursor: nat)
    requires Placed(t) && Searched(t, a, calls, state, lin, cursor) && Grows(a, b)
    ensures Searched(t, b, calls, state, lin, cursor)
    decreases |calls|
  {
    ExploredGrows(t, a, b, lin, state, cursor);
    if calls != [] {
      var f := calls[|calls| - 1];
      SearchedGrows(t, a, b, calls[..|calls| - 1], f.state, lin - {f.id}, t.callNode[f.id]);
    }
  }

  /** Linearizing an operation takes out exactly its two nodes. */
  lemma LiveMinus<S, I, O>(t: Task<S, I, O>, lin: set<nat>, c: nat)
    requires Placed(t) && c < |t.ops| && c !in lin
    ensures Live(t, lin + {c}) == Live(t, lin) - {t.callNode[c], t.retNode[c]}
    ensures t.callNode[c] in Live(t, lin) && t.retNode[c] in Live(t, lin)
  {
  }

  /* ---- the search and its moves ---- */

  ghost predicate AtNode<S, I, O>(t: Task<S, I, O>, st: Search<S>, c: nat)
    requires Sized(t)
  {
    c < |t.ops| && c !in st.lin && (st.cursor == t.callNode[c] || st.cursor == t.retNode[c])
  }

  ghost predicate Inv<S, I, O>(t: Task<S, I, O>, st: Search<S>) {
    && Placed(t)
    && Stack(t, st.calls, st.state, st.lin)
    && Lists(t, st.calls, st.lin, st.links)
    && Linked(st.links, Live(t, st.lin)) && |st.links.next| == 2 * |t.ops| + 1
    && Searched(t, st.longest, st.calls, st.state, st.lin, st.cursor)
    && (|st.lin| < |t.ops| ==> exists c :: AtNode(t, st, c))
    && CacheOk(t, st)
    && LongestOk(t, st.longest)
  }

  function Skip<S>(st: Search<S>): Search<S>
    requires st.cursor < |st.links.next|
  {
    st.(cursor := st.links.next[st.cursor])
  }

  predicate CanPushLinks<S, I, O>(t: Task<S, I, O>, st: Search<S>, c: nat)
    requires Sized(t)
  {
    c < |t.ops| && CanLift(st.links, t.callNode[c], t.retNode[c])
  }

  function Push<S, I, O>(t: Task<S, I, O>, st: Search<S>, c: nat): Search<S>
    requires Sized(t) && CanPushLinks(t, st, c)
  {
    var s' := StepOp(t.m, t.ops, st.state, c).1;
    var links' := Lifted(st.links, t.callNode[c], t.retNode[c]);
    Search(links', links'.next[0], st.calls + [Frame(c, st.state, st.links)], s',
           st.lin + {c}, st.cache + [(st.lin + {c}, s')], st.longest)
  }

  /** longest after the stack q has been abandoned. */
  function Record(longest: Partials, q: seq<nat>): Partials {
    seq(|longest|, i requires 0 <= i < |longest| =>
      if i in q && (longest[i].None? || |q| > |longest[i].value|) then Some(q) else longest[i])
  }

  function Pop<S, I, O>(t: Task<S, I, O>, st: Search<S>): Search<S>
    requires st.calls != []
    requires var f := st.calls[|st.calls| - 1]; f.id < |t.callNode| && t.callNode[f.id] < |f.links.next|
  {
    var f := st.calls[|st.calls| - 1];
    Search(f.links, f.links.next[t.callNode[f.id]], st.calls[..|st.calls| - 1], f.state,
           st.lin - {f.id}, st.cache, if t.computePartial then Record(st.longest, Ids(st.calls)) else st.longest)
  }

  /** With only calls before the cursor, the call at the cursor can come next. */
  lemma CursorEnabled<S, I, O>(t: Task<S, I, O>, st: Search<S>, c: nat)
    requires Inv(t, st) && AtNode(t, st, c) && st.cursor == t.callNode[c]
    ensures Enabled(t.ops, st.lin, c)
  {
    assert Explored(t, st.longest, st.lin, st.state, st.cursor);
  }

  /** At a return, every operation that could come next has been tried. */
  lemma ReturnExhausts<S, I, O>(t: Task<S, I, O>, st: Search<S>, d: nat, c: nat)
    requires Inv(t, st) && AtNode(t, st, d) && st.cursor == t.retNode[d]
    requires Enabled(t.ops, st.lin, c)
    ensures Tried(t, st.longest, st.lin, st.state, c)
  {
    assert Explored(t, st.longest, st.lin, st.state, st.cursor);
    assert d != c ==> !Precedes(t.ops, d, c);
  }

  lemma LinSize<S, I, O>(t: Task<S, I, O>, st: Search<S>)
    requires Stack(t, st.calls, st.state, st.lin)
    ensures |st.lin| == |st.calls| <= |t.ops|
    ensures |st.lin| == |t.ops| ==> forall x: nat | x < |t.ops| :: x in st.lin
    ensures forall x | x in st.lin :: x < |t.ops|
  {
    StackIsPartial(t, st.calls, st.state, st.lin);
    PartialSize(t, Ids(st.calls));
  }

  /** A call whose pair equals a cached one has been tried: the cached pair is not on the stack. */
  lemma CacheHitTried<S(!new), I(!new), O(!new)>(t: Task<S, I, O>, st: Search<S>, c: nat, p: (set<nat>, S))
    requires Inv(t, st) && EqualIsBisimulation(t.m) && c < |t.ops| && c !in st.lin
    requires p in st.cache && p.0 == st.lin + {c} && t.m.equal(StepOp(t.m, t.ops, st.state, c).1, p.1)
    ensures Tried(t, st.longest, st.lin, st.state, c)
  {
    assert Stack(t, st.calls, st.state, st.lin)
        && (OnPath(st.calls, st.state, st.lin, p) || Resolved(t, st.longest, p.0, p.1));
    hide Inv, CacheOk, OnPath, EqualIsBisimulation, Resolved;
    if OnPath(st.calls, st.state, st.lin, p) {
      OnPathSmaller(st.calls, st.state, st.lin, p);
      assert false;
    }
    ResolvedEqual(t, st.longest, p.0, StepOp(t.m, t.ops, st.state, c).1, p.1);
  }

  lemma LiveNode<S, I, O>(t: Task<S, I, O>, lin: set<nat>, x: nat)
    requires Placed(t) && x in Live(t, lin) && x != 0
    ensures exists c: nat | c < |t.ops| && c !in lin :: x == t.callNode[c] || x == t.retNode[c]
  {
  }

  /** Moving the cursor to the next node of the list passes over one tried call and nothing else. */
  lemma ExploredNext<S, I, O>(t: Task<S, I, O>, longest: Partials, links: Links, lin: set<nat>, s: S, c: nat)
    requires Placed(t) && Linked(links, Live(t, lin)) && c < |t.ops| && c !in lin
    requires Explored(t, longest, lin, s, t.callNode[c]) && Tried(t, longest, lin, s, c)
    ensures t.callNode[c] < |links.next| && links.next[t.callNode[c]] <= t.retNode[c]
    ensures Explored(t, longest, lin, s, links.next[t.callNode[c]])
  {
    var x := t.callNode[c];
    assert x in Live(t, lin) && t.retNode[c] in Live(t, lin);
    var n := links.next[x];
    assert n <= t.retNode[c];
    forall b: nat | b < |t.ops| && b !in lin
      ensures n <= t.retNode[b] && (t.callNode[b] < n ==> Tried(t, longest, lin, s, b))
    {
      assert t.callNode[b] in Live(t, lin) && t.retNode[b] in Live(t, lin);
      assert t.callNode[b] <= x || n <= t.callNode[b];
    }
  }

  lemma SkipKeepsInv<S, I, O>(t: Task<S, I, O>, st: Search<S>, c: nat)
    requires Inv(t, st) && AtNode(t, st, c) && st.cursor == t.callNode[c]
    requires Tried(t, st.longest, st.lin, st.state, c)
    ensures st.cursor < |st.links.next| && Inv(t, Skip(st)) && st.cursor < Skip(st).cursor <= 2 * |t.ops|
  {
    ExploredNext(t, st.longest, st.links, st.lin, st.state, c);
    var n := st.links.next[st.cursor];
    assert st.cursor in Live(t, st.lin) && t.retNode[c] in Live(t, st.lin);
    LiveNode(t, st.lin, n);
    var d: nat :| d < |t.ops| && d !in st.lin && (n == t.callNode[d] || n == t.retNode[d]);
    assert AtNode(t, Skip(st), d);
  }

  ghost predicate CanPush<S, I, O>(t: Task<S, I, O>, st: Search<S>, c: nat) {
    && Inv(t, st) && AtNode(t, st, c) && st.cursor == t.callNode[c]
    && StepOp(t.m, t.ops, st.state, c).0
  }

  lemma LiftLive<S, I, O>(t: Task<S, I, O>, lin: set<nat>, links: Links, c: nat)
    requires Placed(t) && Linked(links, Live(t, lin)) && c < |t.ops| && c !in lin
    ensures Liftable(links, Live(t, lin), t.callNode[c], t.retNode[c]) && CanLift(links, t.callNode[c], t.retNode[c])
    ensures var links' := Lifted(links, t.callNode[c], t.retNode[c]);
            Linked(links', Live(t, lin + {c})) && |links'.next| == |links.next|
  {
    LiveMinus(t, lin, c);
    LiftedIsLinked(links, Live(t, lin), t.callNode[c], t.retNode[c]);
  }

  lemma ListsPush<S, I, O>(t: Task<S, I, O>, calls: seq<Frame<S>>, lin: set<nat>, links: Links, f: Frame<S>)
    requires Placed(t) && Lists(t, calls, lin, links) && f.id < |t.ops| && f.id !in lin && f.links == links
    requires Liftable(links, Live(t, lin), t.callNode[f.id], t.retNode[f.id])
             && CanLift(links, t.callNode[f.id], t.retNode[f.id])
    ensures Lists(t, calls + [f], lin + {f.id}, Lifted(links, t.callNode[f.id], t.retNode[f.id]))
  {
    hide Liftable, CanLift, Lifted, Placed, Live;
    assert lin + {f.id} - {f.id} == lin;
    assert (calls + [f])[..|calls + [f]| - 1] == calls;
  }

  lemma PushLists<S, I, O>(t: Task<S, I, O>, st: Search<S>, c: nat)
    requires CanPush(t, st, c)
    ensures CanPushLinks(t, st, c)
    ensures var r := Push(t, st, c);
            && Lists(t, r.calls, r.lin, r.links)
            && Linked(r.links, Live(t, r.lin)) && |r.links.next| == 2 * |t.ops| + 1
  {
    LiftLive(t, st.lin, st.links, c);
    ListsPush(t, st.calls, st.lin, st.links, Frame(c, st.state, st.links));
  }

  lemma StackPush<S, I, O>(t: Task<S, I, O>, calls: seq<Frame<S>>, state: S, lin: set<nat>, f: Frame<S>)
    requires Stack(t, calls, state, lin) && f.state == state && Enabled(t.ops, lin, f.id)
             && StepOp(t.m, t.ops, state, f.id).0
    ensures Stack(t, calls + [f], StepOp(t.m, t.ops, state, f.id).1, lin + {f.id})
  {
    assert lin + {f.id} - {f.id} == lin;
    assert (calls + [f])[..|calls + [f]| - 1] == calls;
  }

  lemma PushStack<S, I, O>(t: Task<S, I, O>, st: Search<S>, c: nat)
    requires CanPush(t, st, c) && CanPushLinks(t, st, c)
    ensures var r := Push(t, st, c); Stack(t, r.calls, r.state, r.lin)
  {
    CursorEnabled(t, st, c);
    StackPush(t, st.calls, st.state, st.lin, Frame(c, st.state, st.links));
  }

  /** With the cursor at the front of the list nothing lies before it. */
  lemma FrontExplored<S, I, O>(t: Task<S, I, O>, longest: Partials, links: Links, lin: set<nat>, s: S)
    requires Placed(t) && Linked(links, Live(t, lin))
    ensures Explored(t, longest, lin, s, links.next[0])
    ensures forall c: nat | c < |t.ops| && c !in lin :: links.next[0] < |links.next|
  {
    forall b: nat | b < |t.ops| && b !in lin
      ensures links.next[0] <= t.callNode[b] < |links.next|
    {
      assert t.callNode[b] in Live(t, lin);
    }
  }

  lemma SearchedPush<S, I, O>(t: Task<S, I, O>, longest: Partials, calls: seq<Frame<S>>, state: S, lin: set<nat>,
      f: Frame<S>, state': S, cursor': nat)
    requires Placed(t) && f.id < |t.ops| && f.id !in lin && f.state == state
    requires Searched(t, longest, calls, state, lin, t.callNode[f.id])
    requires Explored(t, longest, lin + {f.id}, state', cursor')
    ensures Searched(t, longest, calls + [f], state', lin + {f.id}, cursor')
  {
    assert lin + {f.id} - {f.id} == lin;
    assert (calls + [f])[..|calls + [f]| - 1] == calls;
  }

  /** If something is left in the list, the front of the list holds an entry of it. */
  lemma FrontNode<S, I, O>(t: Task<S, I, O>, r: Search<S>)
    requires Placed(t) && Linked(r.links, Live(t, r.lin)) && r.cursor == r.links.next[0]
    requires |r.lin| < |t.ops| && forall x | x in r.lin :: x < |t.ops|
    ensures exists d :: AtNode(t, r, d)
  {
    FrontExplored(t, r.longest, r.links, r.lin, r.state);
    SomeLeft(|t.ops|, r.lin);
    LiveNode(t, r.lin, r.links.next[0]);
    var d: nat :| d < |t.ops| && d !in r.lin && (r.cursor == t.callNode[d] || r.cursor == t.retNode[d]);
    assert AtNode(t, r, d);
  }

  lemma PushSearched<S, I, O>(t: Task<S, I, O>, st: Search<S>, c: nat)
    requires CanPush(t, st, c)
    ensures CanPushLinks(t, st, c)
    ensures var r := Push(t, st, c);
            && Searched(t, r.longest, r.calls, r.state, r.lin, r.cursor)
            && (|r.lin| < |t.ops| ==> exists d :: AtNode(t, r, d))
  {
    PushLists(t, st, c);
    PushStack(t, st, c);
    var r := Push(t, st, c);
    FrontExplored(t, r.longest, r.links, r.lin, r.state);
    SearchedPush(t, st.longest, st.calls, st.state, st.lin, Frame(c, st.state, st.links), r.state, r.cursor);
    LinSize(t, r);
    if |r.lin| < |t.ops| { FrontNode(t, r); }
  }

  lemma {:induction false} SomeLeft(n: nat, lin: set<nat>)
    requires |lin| < n && forall x | x in lin :: x < n
    ensures exists c: nat | c < n :: c !in lin
  {
    if n - 1 in lin {
      SomeLeft(n - 1, lin - {n - 1});
      var c: nat :| c < n - 1 && c !in lin - {n - 1};
      assert c !in lin;
    }
  }

  lemma StackInSpace<S, I, O>(t: Task<S, I, O>, calls: seq<Frame<S>>, state: S, lin: set<nat>)
    requires Stack(t, calls, state, lin)
    ensures (lin, state) in Space(t)
  {
    StackIsPartial(t, calls, state, lin);
    PartialSize(t, Ids(calls));
    InSpace(t, Ids(calls));
  }

  lemma CachePush<S, I, O>(t: Task<S, I, O>, st: Search<S>, r: Search<S>, f: Frame<S>)
    requires CacheOk(t, st) && (r.lin, r.state) in Space(t)
    requires r.calls == st.calls + [f] && f.state == st.state && r.lin == st.lin + {f.id} && f.id !in st.lin
    requires r.cache == st.cache + [(r.lin, r.state)] && r.longest == st.longest
    ensures CacheOk(t, r)
  {
    assert r.lin - {f.id} == st.lin;
    assert r.calls[..|r.calls| - 1] == st.calls;
    forall p | p in r.cache
      ensures p in Space(t) && (OnPath(r.calls, r.state, r.lin, p) || Resolved(t, r.longest, p.0, p.1))
    {
      assert OnPath(st.calls, st.state, st.lin, p) ==> OnPath(r.calls, r.state, r.lin, p);
    }
  }

  lemma PushCache<S, I, O>(t: Task<S, I, O>, st: Search<S>, c: nat)
    requires CanPush(t, st, c) && CanPushLinks(t, st, c)
    ensures CacheOk(t, Push(t, st, c))
    ensures (Push(t, st, c).lin, Push(t, st, c).state) in Space(t)
  {
    PushStack(t, st, c);
    var r := Push(t, st, c);
    StackInSpace(t, r.calls, r.state, r.lin);
    CachePush(t, st, r, Frame(c, st.state, st.links));
  }

  /** How many pairs the cache has still to gain. */
  ghost function Unseen<S, I, O>(t: Task<S, I, O>, st: Search<S>): nat {
    |Space(t) - Elements(st.cache)|
  }

  lemma PushKeepsInv<S, I, O>(t: Task<S, I, O>, st: Search<S>, c: nat)
    requires CanPush(t, st, c)
    ensures CanPushLinks(t, st, c) && Inv(t, Push(t, st, c))
  {
    PushLists(t, st, c);
    PushStack(t, st, c);
    PushSearched(t, st, c);
    PushCache(t, st, c);
  }

  lemma UnseenShrinks<T>(space: set<T>, cache: seq<T>, p: T)
    requires p in space && p !in cache
    ensures |space - Elements(cache + [p])| < |space - Elements(cache)|
  {
    assert space - Elements(cache) == (space - Elements(cache + [p])) + {p};
  }

  lemma PushShrinksUnseen<S, I, O>(t: Task<S, I, O>, st: Search<S>, c: nat)
    requires CanPush(t, st, c) && CanPushLinks(t, st, c)
    requires (st.lin + {c}, StepOp(t.m, t.ops, st.state, c).1) !in st.cache
    ensures Unseen(t, Push(t, st, c)) < Unseen(t, st)
  {
    PushCache(t, st, c);
    var r := Push(t, st, c);
    UnseenShrinks(Space(t), st.cache, (r.lin, r.state));
  }

  /* ---- backtracking ---- */

  lemma RecordGrows(longest: Partials, q: seq<nat>)
    ensures Grows(longest, Record(longest, q))
    ensures forall i | i in q && i < |longest| :: Recorded(Record(longest, q), i, |q|)
  {
  }

  ghost predicate CanPop<S, I, O>(t: Task<S, I, O>, st: Search<S>, d: nat) {
    && Inv(t, st) && AtNode(t, st, d) && st.cursor == t.retNode[d] && st.calls != []
  }

  ghost function Longest'<S, I, O>(t: Task<S, I, O>, st: Search<S>): Partials {
    if t.computePartial then Record(st.longest, Ids(st.calls)) else st.longest
  }

  /** When the search reaches a return, the pair on top of the stack is done with. */
  lemma TopResolved<S, I, O>(t: Task<S, I, O>, st: Search<S>, d: nat)
    requires Inv(t, st) && AtNode(t, st, d) && st.cursor == t.retNode[d]
    ensures Resolved(t, Longest'(t, st), st.lin, st.state)
    ensures Grows(st.longest, Longest'(t, st))
  {
    LinSize(t, st);
    StackIsPartial(t, st.calls, st.state, st.lin);
    RecordGrows(st.longest, Ids(st.calls));
    assert |st.lin| < |t.ops|;
    ExploredGrows(t, st.longest, Longest'(t, st), st.lin, st.state, st.cursor);
    forall c | Enabled(t.ops, st.lin, c) ensures Tried(t, Longest'(t, st), st.lin, st.state, c) {
      ReturnExhausts(t, st, d, c);
    }
    forall i | i in st.lin ensures t.computePartial ==> Recorded(Longest'(t, st), i, |st.lin|) {
      assert i in Elements(Ids(st.calls));
    }
    ResolveStep(t, Longest'(t, st), st.lin, st.state);
  }

  lemma PopLists<S, I, O>(t: Task<S, I, O>, calls: seq<Frame<S>>, lin: set<nat>, links: Links)
    requires Placed(t) && calls != [] && Lists(t, calls, lin, links)
    ensures var f := calls[|calls| - 1];
            && f.id in lin && f.id < |t.ops| && |f.links.next| == |links.next|
            && Lists(t, calls[..|calls| - 1], lin - {f.id}, f.links)
            && Linked(f.links, Live(t, lin - {f.id}))
            && t.callNode[f.id] < |f.links.next|
  {
    var f := calls[|calls| - 1];
  }

  lemma PopSearched<S, I, O>(t: Task<S, I, O>, longest: Partials, calls: seq<Frame<S>>, state: S, lin: set<nat>,
      cursor: nat)
    requires Placed(t) && calls != [] && Stack(t, calls, state, lin) && Searched(t, longest, calls, state, lin, cursor)
    requires Resolved(t, longest, lin, state)
    requires var f := calls[|calls| - 1]; Linked(f.links, Live(t, lin - {f.id}))
    ensures var f := calls[|calls| - 1];
            && t.callNode[f.id] < |f.links.next| && f.links.next[t.callNode[f.id]] <= t.retNode[f.id]
            && Searched(t, longest, calls[..|calls| - 1], f.state, lin - {f.id}, f.links.next[t.callNode[f.id]])
  {
    var f := calls[|calls| - 1];
    assert lin - {f.id} + {f.id} == lin;
    assert Tried(t, longest, lin - {f.id}, f.state, f.id);
    ExploredNext(t, longest, f.links, lin - {f.id}, f.state, f.id);
  }

  lemma PopCache<S, I, O>(t: Task<S, I, O>, st: Search<S>, r: Search<S>)
    requires CacheOk(t, st) && st.calls != []
    requires Resolved(t, r.longest, st.lin, st.state) && Grows(st.longest, r.longest)
    requires r.cache == st.cache && r.calls == st.calls[..|st.calls| - 1]
    requires var f := st.calls[|st.calls| - 1]; r.state == f.state && r.lin == st.lin - {f.id}
    ensures CacheOk(t, r)
  {
    forall p | p in r.cache
      ensures p in Space(t) && (OnPath(r.calls, r.state, r.lin, p) || Resolved(t, r.longest, p.0, p.1))
    {
      assert OnPath(st.calls, st.state, st.lin, p) ==> p == (st.lin, st.state) || OnPath(r.calls, r.state, r.lin, p);
    }
  }

  lemma PopKeepsInv<S, I, O>(t: Task<S, I, O>, st: Search<S>, d: nat)
    requires CanPop(t, st, d)
    ensures var f := st.calls[|st.calls| - 1]; f.id < |t.ops| && t.callNode[f.id] < |f.links.next|
    ensures Inv(t, Pop(t, st))
  {
    TopResolved(t, st, d);
    PopLists(t, st.calls, st.lin, st.links);
    SearchedGrows(t, st.longest, Longest'(t, st), st.calls, st.state, st.lin, st.cursor);
    PopSearched(t, Longest'(t, st), st.calls, st.state, st.lin, st.cursor);
    var r := Pop(t, st);
    PopCursor(t, r, st.calls[|st.calls| - 1].id);
    PopCache(t, st, r);
    PopLongest(t, st);
  }

  lemma PopCursor<S, I, O>(t: Task<S, I, O>, r: Search<S>, c: nat)
    requires Placed(t) && Linked(r.links, Live(t, r.lin)) && c < |t.ops| && c !in r.lin
    requires t.callNode[c] < |r.links.next| && r.cursor == r.links.next[t.callNode[c]] <= t.retNode[c]
    ensures exists e :: AtNode(t, r, e)
  {
    assert t.callNode[c] in Live(t, r.lin) && t.retNode[c] in Live(t, r.lin);
    LiveNode(t, r.lin, r.cursor);
    var e: nat :| e < |t.ops| && e !in r.lin && (r.cursor == t.callNode[e] || r.cursor == t.retNode[e]);
    assert AtNode(t, r, e);
  }

  lemma PopLongest<S, I, O>(t: Task<S, I, O>, st: Search<S>)
    requires Stack(t, st.calls, st.state, st.lin) && LongestOk(t, st.longest)
    ensures LongestOk(t, Longest'(t, st))
  {
    StackIsPartial(t, st.calls, st.state, st.lin);
  }

  /* ---- beginning and end ---- */

  function Start<S, I, O>(t: Task<S, I, O>): Search<S> {
    Search(InitialLinks(2 * |t.ops|), 1, [], t.m.init, {}, [], seq(|t.ops|, i => None))
  }

  lemma InitialLinked(len: nat, live: set<nat>)
    requires forall x: nat :: x in live <==> x <= len
    ensures Linked(InitialLinks(len), live)
  {
  }

  lemma StartInv<S, I, O>(t: Task<S, I, O>)
    requires Placed(t) && forall x: nat :: x in Live(t, {}) <==> x <= 2 * |t.ops|
    ensures Inv(t, Start(t))
  {
    var st := Start(t);
    InitialLinked(2 * |t.ops|, Live(t, {}));
    FrontExplored(t, st.longest, st.links, {}, st.state);
    if |t.ops| > 0 { FrontNode(t, st); }
  }

  /** An empty list means that the stack is a linearization; otherwise the cursor is in the list. */
  lemma EmptyListIff<S, I, O>(t: Task<S, I, O>, st: Search<S>)
    requires Inv(t, st)
    ensures st.links.next[0] == |st.links.next| <==> |st.lin| == |t.ops|
    ensures |st.lin| == |t.ops| ==> IsLinearization(t.m, t.ops, Ids(st.calls))
  {
    hide Searched, Lists, CacheOk, LongestOk, IsLinearization, Extends, Stack;
    LinSize(t, st);
    StackIsPartial(t, st.calls, st.state, st.lin);
    CompleteIff(t.m, t.ops, Ids(st.calls));
    if |st.lin| < |t.ops| {
      SomeLeft(|t.ops|, st.lin);
      FrontExplored(t, st.longest, st.links, st.lin, st.state);
    } else if st.links.next[0] < |st.links.next| {
      LiveNode(t, st.lin, st.links.next[0]);
    }
  }

  /** Backing out of the empty stack: no linearization exists, and the longest partial ones are recorded. */
  lemma ExhaustedIsIllegal<S, I, O>(t: Task<S, I, O>, st: Search<S>, d: nat)
    requires Inv(t, st) && AtNode(t, st, d) && st.cursor == t.retNode[d] && st.calls == []
    ensures !Linearizable(t.m, t.ops)
    ensures t.computePartial ==> forall q, i: nat | IsPartialLinearization(t.m, t.ops, q) && i in q ::
            Recorded(st.longest, i, |q|)
  {
    TopResolved(t, st, d);
    assert Ids(st.calls) == [];
    assert Longest'(t, st) == st.longest;
    forall q ensures !IsLinearization(t.m, t.ops, q) { CompleteIff(t.m, t.ops, q); }
    forall q, i: nat | IsPartialLinearization(t.m, t.ops, q) && i in q && t.computePartial
      ensures Recorded(st.longest, i, |q|)
    {
      PartialIff(t.m, t.ops, q);
    }
  }

  /* ---- runs of the search ---- */

  /** The pair that linearizing c leads to has been seen before. */
  ghost predicate Seen<S, I, O>(t: Task<S, I, O>, st: Search<S>, c: nat)
    requires c < |t.ops|
  {
    exists p | p in st.cache :: Matches(t.m, st.lin + {c}, StepOp(t.m, t.ops, st.state, c).1, p)
  }

  /** One turn of the loop, with the cursor at an entry of operation c. */
  ghost predicate IsTurn<S, I, O>(t: Task<S, I, O>, st: Search<S>, c: nat, r: Search<S>)
    requires Sized(t)
  {
    && AtNode(t, st, c)
    && if st.cursor == t.callNode[c] then
         if StepOp(t.m, t.ops, st.state, c).0 && !Seen(t, st, c) then CanPushLinks(t, st, c) && r == Push(t, st, c)
         else st.cursor < |st.links.next| && r == Skip(st)
       else
         && st.calls != []
         && var f := st.calls[|st.calls| - 1];
         && f.id < |t.callNode| && t.callNode[f.id] < |f.links.next| && r == Pop(t, st)
  }

  /** The nodes of t are exactly those of a list of its entries, and equal states are interchangeable. */
  ghost predicate Ready<S(!new), I(!new), O(!new)>(t: Task<S, I, O>) {
    Placed(t) && (forall x: nat :: x in Live(t, {}) <==> x <= 2 * |t.ops|) && EqualIsBisimulation(t.m)
  }

  /** st is what k turns may lead to. */
  ghost predicate Reached<S(!new), I(!new), O(!new)>(t: Task<S, I, O>, k: nat, st: Search<S>)
    requires Sized(t)
  {
    if k == 0 then Ready(t) && st == Start(t)
    else exists prev: Search<S>, c: nat :: Reached(t, k - 1, prev) && IsTurn(t, prev, c, st)
  }

  ghost predicate Progress<S, I, O>(t: Task<S, I, O>, st: Search<S>, r: Search<S>) {
    || Unseen(t, r) < Unseen(t, st)
    || (Unseen(t, r) == Unseen(t, st) && |r.calls| < |st.calls|)
    || (Unseen(t, r) == Unseen(t, st) && |r.calls| == |st.calls| && st.cursor < r.cursor <= 2 * |t.ops|)
  }

  lemma SkipAdvances<S(!new), I(!new), O(!new)>(t: Task<S, I, O>, st: Search<S>, c: nat)
    requires Inv(t, st) && EqualIsBisimulation(t.m) && AtNode(t, st, c) && st.cursor == t.callNode[c]
    requires StepOp(t.m, t.ops, st.state, c).0 ==> Seen(t, st, c)
    ensures st.cursor < |st.links.next| && Inv(t, Skip(st)) && Progress(t, st, Skip(st))
  {
    if StepOp(t.m, t.ops, st.state, c).0 {
      var p :| p in st.cache && Matches(t.m, st.lin + {c}, StepOp(t.m, t.ops, st.state, c).1, p);
      CacheHitTried(t, st, c, p);
    }
    SkipKeepsInv(t, st, c);
  }

  lemma PushAdvances<S(!new), I(!new), O(!new)>(t: Task<S, I, O>, st: Search<S>, c: nat)
    requires Inv(t, st) && EqualIsBisimulation(t.m) && AtNode(t, st, c) && st.cursor == t.callNode[c]
    requires StepOp(t.m, t.ops, st.state, c).0 && !Seen(t, st, c)
    ensures CanPushLinks(t, st, c) && Inv(t, Push(t, st, c)) && Progress(t, st, Push(t, st, c))
  {
    var s' := StepOp(t.m, t.ops, st.state, c).1;
    assert Matches(t.m, st.lin + {c}, s', (st.lin + {c}, s'));
    PushKeepsInv(t, st, c);
    PushShrinksUnseen(t, st, c);
  }

  /** Every turn keeps the invariant and comes closer to the end. */
  lemma TurnKeepsInv<S(!new), I(!new), O(!new)>(t: Task<S, I, O>, st: Search<S>, c: nat, r: Search<S>)
    requires Inv(t, st) && EqualIsBisimulation(t.m) && IsTurn(t, st, c, r)
    ensures Inv(t, r) && Progress(t, st, r)
  {
    if st.cursor == t.callNode[c] {
      if StepOp(t.m, t.ops, st.state, c).0 && !Seen(t, st, c) {
        PushAdvances(t, st, c);
      } else {
        SkipAdvances(t, st, c);
      }
    } else {
      PopKeepsInv(t, st, c);
    }
  }

  lemma {:induction false} ReachedInv<S(!new), I(!new), O(!new)>(t: Task<S, I, O>, k: nat, st: Search<S>)
    requires Sized(t) && Reached(t, k, st)
    ensures Inv(t, st) && EqualIsBisimulation(t.m)
  {
    hide Inv, IsTurn, Placed, EqualIsBisimulation, Live, Start;
    if k == 0 {
      StartInv(t);
    } else {
      var prev: Search<S>, c: nat :| Reached(t, k - 1, prev) && IsTurn(t, prev, c, st);
      ReachedInv(t, k - 1, prev);
      TurnKeepsInv(t, prev, c, st);
    }
  }

  /** The calls lifted last can be put back where they were. */
  predicate TopLifted<S, I, O>(t: Task<S, I, O>, st: Search<S>)
    requires Sized(t) && st.calls != []
  {
    var f := st.calls[|st.calls| - 1];
    && f.id < |t.ops|
    && CanUnlift(st.links, t.callNode[f.id], t.retNode[f.id])
    && f.links == Unlifted(st.links, t.callNode[f.id], t.retNode[f.id])
  }

  lemma PopReady<S, I, O>(t: Task<S, I, O>, st: Search<S>)
    requires Placed(t) && Lists(t, st.calls, st.lin, st.links) && Stack(t, st.calls, st.state, st.lin) && st.calls != []
    ensures TopLifted(t, st) && InRange(|t.ops|, Ids(st.calls))
  {
    PopLists(t, st.calls, st.lin, st.links);
    var f := st.calls[|st.calls| - 1];
    UnliftUndoesLift(f.links, Live(t, st.lin - {f.id}), t.callNode[f.id], t.retNode[f.id]);
    StackIsPartial(t, st.calls, st.state, st.lin);
  }

  /** What the next turn needs of the state it starts from. */
  lemma TurnReady<S(!new), I(!new), O(!new)>(t: Task<S, I, O>, k: nat, st: Search<S>, c: nat)
    requires Sized(t) && Reached(t, k, st) && AtNode(t, st, c)
    ensures st.cursor == t.callNode[c] ==> st.cursor < |st.links.next|
    ensures st.cursor == t.callNode[c] && StepOp(t.m, t.ops, st.state, c).0 && !Seen(t, st, c)
            ==> CanPushLinks(t, st, c)
    ensures st.cursor != t.callNode[c] && st.calls != [] ==> TopLifted(t, st) && InRange(|t.ops|, Ids(st.calls))
  {
    ReachedInv(t, k, st);
    if st.cursor == t.callNode[c] {
      if StepOp(t.m, t.ops, st.state, c).0 && !Seen(t, st, c) { PushAdvances(t, st, c); }
      assert t.callNode[c] in Live(t, st.lin);
    } else if st.calls != [] {
      PopReady(t, st);
    }
  }

  lemma TurnReaches<S(!new), I(!new), O(!new)>(t: Task<S, I, O>, k: nat, st: Search<S>, c: nat, r: Search<S>)
    requires Sized(t) && Reached(t, k, st) && IsTurn(t, st, c, r)
    ensures Reached(t, k + 1, r) && Progress(t, st, r)
  {
    ReachedInv(t, k, st);
    TurnKeepsInv(t, st, c, r);
  }

  /** When the list runs empty the stack is a linearization; until then the cursor is at an entry. */
  lemma LoopHead<S(!new), I(!new), O(!new)>(t: Task<S, I, O>, k: nat, st: Search<S>)
    requires Sized(t) && Reached(t, k, st)
    ensures |st.links.next| == 2 * |t.ops| + 1 && st.links.next[0] <= |st.links.next|
    ensures st.links.next[0] == |st.links.next| ==> IsLinearization(t.m, t.ops, Ids(st.calls))
    ensures st.links.next[0] < |st.links.next| ==> exists c :: AtNode(t, st, c)
    ensures LongestOk(t, st.longest)
  {
    ReachedInv(t, k, st);
    EmptyListIff(t, st);
    LinSize(t, st);
  }

  /** Stuck at a return with an empty stack: there is no linearization, and nothing longer than recorded. */
  lemma StuckIsIllegal<S(!new), I(!new), O(!new)>(t: Task<S, I, O>, k: nat, st: Search<S>, d: nat)
    requires Sized(t) && Reached(t, k, st)
    requires AtNode(t, st, d) && st.cursor == t.retNode[d] && st.calls == []
    ensures !Linearizable(t.m, t.ops)
    ensures t.computePartial ==> forall q, i: nat | IsPartialLinearization(t.m, t.ops, q) && i in q ::
            Recorded(st.longest, i, |q|)
  {
    ReachedInv(t, k, st);
    ExhaustedIsIllegal(t, st, d);
  }

  /** At every turn the list is the original one without the linearized operations, in order. */
  lemma ListIsWhatIsLeft<S(!new), I(!new), O(!new)>(t: Task<S, I, O>, k: nat, st: Search<S>)
    requires Sized(t) && Reached(t, k, st)
    ensures Linked(st.links, Live(t, st.lin))
    ensures forall y :: y in Walk(st.links, Live(t, st.lin), 0) <==> y in Live(t, st.lin) && y > 0
    ensures var w := Walk(st.links, Live(t, st.lin), 0); forall i, j | 0 <= i < j < |w| :: w[i] < w[j]
    ensures st.calls == [] ==> st.links == InitialLinks(2 * |t.ops|)
  {
    ReachedInv(t, k, st);
    WalkVisitsLive(st.links, Live(t, st.lin), 0);
  }

  /* ---- the stacks given up on the way ---- */

  /** st is what k turns lead to, and stacks are the ones given up on the way, in order. */
  ghost predicate Abandons<S(!new), I(!new), O(!new)>(t: Task<S, I, O>, k: nat, st: Search<S>, stacks: seq<seq<nat>>)
    requires Sized(t)
  {
    if k == 0 then Ready(t) && st == Start(t) && stacks == []
    else
      exists prev: Search<S>, c: nat, before: seq<seq<nat>> ::
        && Abandons(t, k - 1, prev, before) && IsTurn(t, prev, c, st)
        && stacks == GivenUp(t, prev, c, before)
  }

  /** A turn at a return gives up the stack. */
  ghost function GivenUp<S, I, O>(t: Task<S, I, O>, st: Search<S>, c: nat, before: seq<seq<nat>>): seq<seq<nat>>
    requires Sized(t)
  {
    if c < |t.ops| && st.cursor != t.callNode[c] then before + [Ids(st.calls)] else before
  }

  lemma {:induction false} ReachedAbandons<S(!new), I(!new), O(!new)>(t: Task<S, I, O>, k: nat, st: Search<S>)
      returns (stacks: seq<seq<nat>>)
    requires Sized(t) && Reached(t, k, st)
    ensures Abandons(t, k, st, stacks)
  {
    hide IsTurn, Ready, Start, GivenUp;
    if k == 0 {
      stacks := [];
    } else {
      var prev: Search<S>, c: nat :| Reached(t, k - 1, prev) && IsTurn(t, prev, c, st);
      var before := ReachedAbandons(t, k - 1, prev);
      stacks := GivenUp(t, prev, c, before);
    }
  }

  lemma {:induction false} AbandonsReached<S(!new), I(!new), O(!new)>(
      t: Task<S, I, O>, k: nat, st: Search<S>, stacks: seq<seq<nat>>)
    requires Sized(t) && Abandons(t, k, st, stacks)
    ensures Reached(t, k, st)
  {
    hide IsTurn, Ready, Start, GivenUp;
    if k > 0 {
      var prev: Search<S>, c: nat, before: seq<seq<nat>> :|
        && Abandons(t, k - 1, prev, before) && IsTurn(t, prev, c, st)
        && stacks == GivenUp(t, prev, c, before);
      AbandonsReached(t, k - 1, prev, before);
    }
  }

  lemma SameNode<S, I, O>(t: Task<S, I, O>, st: Search<S>, c: nat, d: nat)
    requires Placed(t) && AtNode(t, st, c) && AtNode(t, st, d)
    ensures c == d
  {
  }

  /** The search is deterministic: k turns lead to one state, and give up the same stacks. */
  lemma {:induction false} TurnsAreDeterministic<S(!new), I(!new), O(!new)>(
      t: Task<S, I, O>, k: nat, a: Search<S>, b: Search<S>, p: seq<seq<nat>>, q: seq<seq<nat>>)
    requires Sized(t) && Abandons(t, k, a, p) && Abandons(t, k, b, q)
    ensures a == b && p == q
  {
    hide IsTurn, GivenUp, Ready, Start;
    if k > 0 {
      var u: Search<S>, c: nat, before: seq<seq<nat>> :|
        && Abandons(t, k - 1, u, before) && IsTurn(t, u, c, a)
        && p == GivenUp(t, u, c, before);
      var v: Search<S>, d: nat, before': seq<seq<nat>> :|
        && Abandons(t, k - 1, v, before') && IsTurn(t, v, d, b)
        && q == GivenUp(t, v, d, before');
      TurnsAreDeterministic(t, k - 1, u, v, before, before');
      AbandonsReached(t, k - 1, u, before);
      ReachedPlaced(t, k - 1, u);
      OneTurn(t, u, c, a, d, b);
    }
  }

  lemma ReachedPlaced<S(!new), I(!new), O(!new)>(t: Task<S, I, O>, k: nat, st: Search<S>)
    requires Sized(t) && Reached(t, k, st)
    ensures Placed(t)
  {
    hide Reached;
    ReachedInv(t, k, st);
  }

  lemma OneTurn<S, I, O>(t: Task<S, I, O>, st: Search<S>, c: nat, a: Search<S>, d: nat, b: Search<S>)
    requires Placed(t) && IsTurn(t, st, c, a) && IsTurn(t, st, d, b)
    ensures c == d && a == b
  {
    SameNode(t, st, c, d);
    hide Placed, Seen, Push, Pop, Skip;
  }

  /** p is the first of the longest among stacks that contain i. */
  ghost predicate IsFirstLongest(stacks: seq<seq<nat>>, i: nat, p: seq<nat>) {
    exists n :: IsFirstLongestAt(stacks, i, p, n)
  }

  ghost predicate IsFirstLongestAt(stacks: seq<seq<nat>>, i: nat, p: seq<nat>, n: nat) {
    && n < |stacks| && stacks[n] == p && i in p
    && (forall m | 0 <= m < |stacks| && i in stacks[m] :: |stacks[m]| <= |p|)
    && (forall m | 0 <= m < n && i in stacks[m] :: |stacks[m]| < |p|)
  }

  /** What is recorded for each operation is the first of the longest stacks with it that were given up, if any. */
  ghost predicate RecordsBest(stacks: seq<seq<nat>>, longest: Partials) {
    forall i: nat | i < |longest| ::
      match longest[i]
      case None => forall m | 0 <= m < |stacks| :: i !in stacks[m]
      case Some(p) => IsFirstLongest(stacks, i, p)
  }

  lemma RecordKeepsBest(stacks: seq<seq<nat>>, longest: Partials, q: seq<nat>)
    requires RecordsBest(stacks, longest)
    ensures RecordsBest(stacks + [q], Record(longest, q))
  {
    var all, r := stacks + [q], Record(longest, q);
    forall i: nat | i < |r|
      ensures r[i].None? ==> forall m | 0 <= m < |all| :: i !in all[m]
      ensures r[i].Some? ==> IsFirstLongest(all, i, r[i].value)
    {
      if r[i].Some? {
        if r[i] == longest[i] {
          var n: nat :| IsFirstLongestAt(stacks, i, r[i].value, n);
          assert IsFirstLongestAt(all, i, r[i].value, n);
        } else {
          if longest[i].Some? { var n: nat :| IsFirstLongestAt(stacks, i, longest[i].value, n); }
          assert IsFirstLongestAt(all, i, q, |stacks|);
        }
      }
    }
  }

  /** What is recorded after any number of turns: the best of what was given up, or nothing if not asked for. */
  lemma {:induction false} AbandonedAreRecorded<S(!new), I(!new), O(!new)>(
      t: Task<S, I, O>, k: nat, st: Search<S>, stacks: seq<seq<nat>>)
    requires Sized(t) && Abandons(t, k, st, stacks)
    ensures |st.longest| == |t.ops|
    ensures RecordsBest(if t.computePartial then stacks else [], st.longest)
  {
    hide RecordsBest, IsTurn, GivenUp, Ready, Start;
    if k == 0 {
      StartRecords(t);
    } else {
      var prev: Search<S>, c: nat, before: seq<seq<nat>> :|
        && Abandons(t, k - 1, prev, before) && IsTurn(t, prev, c, st)
        && stacks == GivenUp(t, prev, c, before);
      AbandonedAreRecorded(t, k - 1, prev, before);
      TurnRecords(t, prev, c, st, before);
    }
  }

  lemma StartRecords<S, I, O>(t: Task<S, I, O>)
    ensures |Start(t).longest| == |t.ops| && RecordsBest([], Start(t).longest)
  {
  }

  lemma TurnRecords<S, I, O>(t: Task<S, I, O>, st: Search<S>, c: nat, r: Search<S>, before: seq<seq<nat>>)
    requires Sized(t) && IsTurn(t, st, c, r) && |st.longest| == |t.ops|
    requires RecordsBest(if t.computePartial then before else [], st.longest)
    ensures |r.longest| == |t.ops|
    ensures RecordsBest(if t.computePartial then GivenUp(t, st, c, before) else [], r.longest)
  {
    hide RecordsBest;
    if st.cursor != t.callNode[c] && t.computePartial { RecordKeepsBest(before, st.longest, Ids(st.calls)); }
  }
}
