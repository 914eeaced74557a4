/**
 checkSingle on the heap: linked nodes whose pointers are rewritten in place, a bitset of
 linearized operations, and a cache of bitset clones bucketed by hash.
 */
module Checker {
  import opened Collections
  import opened Linearizability
  import opened Entries
  import L = Links
  import opened Search
  import B = Bitset
  import C = Cache

  /* ---- the linked list ---- */

  datatype Value<+I, +O> = Input(input: I) | Output(output: O) | NoValue

  class Node<I, O> {
    const value: Value<I, O>
    const match_: Node?<I, O>  // for a call, its return; for a return, null
    const id: int
    ghost const pos: nat  // the node's place in the list as first made, the head being 0
    var next: Node?<I, O>
    var prev: Node?<I, O>

    constructor (value: Value<I, O>, match_: Node?<I, O>, id: int, ghost pos: nat)
      ensures this.value == value && this.match_ == match_ && this.id == id && this.pos == pos
      ensures next == null && prev == null
    {
      this.value, this.match_, this.id, this.pos := value, match_, id, pos;
      next, prev := null, null;
    }
  }

  /** Puts n in front of mark, linking it to what was there before. */
  method InsertBefore<I, O>(n: Node<I, O>, mark: Node?<I, O>) returns (r: Node<I, O>)
    requires n != mark && (mark != null ==> mark.prev != n && mark.prev != mark)
    modifies n, mark, if mark != null then {mark.prev} else {}
    ensures r == n
    ensures mark == null ==> n.next == old(n.next) && n.prev == old(n.prev)
    ensures mark != null ==>
              && mark.prev == n && n.next == mark && mark.next == old(mark.next)
              && (old(mark.prev) == null ==> n.prev == old(n.prev))
              && (old(mark.prev) != null ==>
                    n.prev == old(mark.prev) && old(mark.prev).next == n && old(mark.prev).prev == old(mark.prev.prev))
  {
    if mark != null {
      var beforeMark := mark.prev;
      mark.prev := n;
      n.next := mark;
      if beforeMark != null {
        n.prev := beforeMark;
        beforeMark.next := n;
      }
    }
    return n;
  }

  /** ns are the nodes numbered from `at` on, so distinct. */
  ghost predicate Numbered<I, O>(ns: seq<Node<I, O>>, at: nat) {
    forall k | 0 <= k < |ns| :: ns[k].pos == at + k
  }

  /** ns are linked to one another in order, ending in null both ways. */
  ghost predicate Chain<I, O>(ns: seq<Node<I, O>>, at: nat)
    reads ns
  {
    && Numbered(ns, at)
    && (ns != [] ==> ns[0].prev == null && ns[|ns| - 1].next == null)
    && (forall k {:trigger ns[k].next} | 0 <= k < |ns| - 1 :: ns[k].next == ns[k + 1])
    && (forall k {:trigger ns[k].prev} | 0 < k < |ns| :: ns[k].prev == ns[k - 1])
  }

  ghost predicate HoldsEntry<I, O>(x: Node<I, O>, e: Entry<I, O>) {
    && x.id == e.id
    && x.value == (match e case CallEntry(_, i, _, _) => Input(i) case ReturnEntry(_, o, _, _) => Output(o))
  }

  /** ns hold the entries of h from i on, and calls point to their returns. */
  ghost predicate HoldsFrom<I, O>(h: seq<Entry<I, O>>, i: nat, ns: seq<Node<I, O>>)
    requires WellFormed(h)
  {
    && |ns| + i == |h|
    && forall k | i <= k < |h| ::
         && HoldsEntry(ns[k - i], h[k])
         && ns[k - i].match_ == (if h[k].CallEntry? then ns[ReturnAt(h, h[k].id) - i] else null)
  }

  lemma HoldsPrepend<I, O>(h: seq<Entry<I, O>>, i: nat, ns: seq<Node<I, O>>, x: Node<I, O>)
    requires WellFormed(h) && i < |h| && HoldsFrom(h, i + 1, ns) && HoldsEntry(x, h[i])
    requires h[i].CallEntry? ==> i < ReturnAt(h, h[i].id) && x.match_ == ns[ReturnAt(h, h[i].id) - (i + 1)]
    requires h[i].ReturnEntry? ==> x.match_ == null
    ensures HoldsFrom(h, i, [x] + ns)
  {
    var r := [x] + ns;
    forall k | i <= k < |h|
      ensures HoldsEntry(r[k - i], h[k])
              && r[k - i].match_ == (if h[k].CallEntry? then r[ReturnAt(h, h[k].id) - i] else null)
    {
      if h[k].CallEntry? { assert IsCallOf(h, k, h[k].id); }
      if k > i { assert r[k - i] == ns[k - (i + 1)]; }
    }
  }

  ghost predicate MatchesFrom<I, O>(h: seq<Entry<I, O>>, i: nat, ns: seq<Node<I, O>>, matches: map<int, Node<I, O>>) {
    && |ns| + i == |h|
    && forall k | i <= k < |h| && h[k].ReturnEntry? :: h[k].id in matches && matches[h[k].id] == ns[k - i]
  }

  lemma MatchesPrepend<I, O>(h: seq<Entry<I, O>>, i: nat, ns: seq<Node<I, O>>, x: Node<I, O>,
      matches: map<int, Node<I, O>>)
    requires WellFormed(h) && i < |h| && MatchesFrom(h, i + 1, ns, matches)
    ensures MatchesFrom(h, i, [x] + ns, if h[i].ReturnEntry? then matches[h[i].id := x] else matches)
  {
    var m := if h[i].ReturnEntry? then matches[h[i].id := x] else matches;
    forall k | i <= k < |h| && h[k].ReturnEntry? ensures h[k].id in m && m[h[k].id] == ([x] + ns)[k - i] {
      if k > i { assert ([x] + ns)[k - i] == ns[k - (i + 1)]; }
    }
  }

  /** When a call is reached from the back, its return has been met already. */
  lemma MatchIsKnown<I, O>(h: seq<Entry<I, O>>, i: nat, ns: seq<Node<I, O>>, matches: map<int, Node<I, O>>)
    requires WellFormed(h) && i < |h| && h[i].CallEntry? && MatchesFrom(h, i + 1, ns, matches)
    ensures i < ReturnAt(h, h[i].id) && h[i].id in matches && matches[h[i].id] == ns[ReturnAt(h, h[i].id) - (i + 1)]
  {
    assert IsCallOf(h, i, h[i].id);
  }

  /** Inserting a fresh node before the first node of a chain lengthens the chain by one. */
  method Prepend<I, O>(n: Node<I, O>, root: Node?<I, O>, ghost ns: seq<Node<I, O>>)
    requires Chain(ns, n.pos + 1) && n.next == null && n.prev == null
    requires root == if ns == [] then null else ns[0]
    modifies n, root
    ensures Chain([n] + ns, n.pos)
  {
    var _ := InsertBefore(n, root);
    ghost var r := [n] + ns;
    forall k | 0 <= k < |r| ensures k > 0 ==> r[k] == ns[k - 1] {}
  }

  /** Makes the node of entry i and puts it in front of the nodes of the later entries. */
  method AddNode<I, O>(entries: seq<Entry<I, O>>, ghost i: nat, value: Value<I, O>, match_: Node?<I, O>, id: int,
      root: Node?<I, O>, ghost ns: seq<Node<I, O>>)
    returns (entry: Node<I, O>)
    requires WellFormed(entries) && i < |entries| && HoldsFrom(entries, i + 1, ns) && id == entries[i].id
    requires entries[i].CallEntry? ==>
               && value == Input(entries[i].input)
               && i < ReturnAt(entries, id) && match_ == ns[ReturnAt(entries, id) - (i + 1)]
    requires entries[i].ReturnEntry? ==> value == Output(entries[i].output) && match_ == null
    requires Chain(ns, i + 2) && root == if ns == [] then null else ns[0]
    modifies root
    ensures fresh(entry) && Chain([entry] + ns, i + 1) && HoldsFrom(entries, i, [entry] + ns)
  {
    hide Chain, WellFormed;
    entry := new Node(value, match_, id, i + 1);
    HoldsPrepend(entries, i, ns, entry);
    hide HoldsFrom;
    Prepend(entry, root, ns);
  }

  method MakeLinkedEntries<I, O>(entries: seq<Entry<I, O>>) returns (root: Node?<I, O>, ghost ns: seq<Node<I, O>>)
    requires WellFormed(entries)
    ensures forall i | 0 <= i < |ns| :: fresh(ns[i])
    ensures Chain(ns, 1) && HoldsFrom(entries, 0, ns)
    ensures root == if ns == [] then null else ns[0]
  {
    root, ns := null, [];
    var matches: map<int, Node<I, O>> := map[];
    var i := |entries|;
    assert Chain(ns, i + 1) && HoldsFrom(entries, i, ns) && MatchesFrom(entries, i, ns, matches);
    hide Chain, HoldsFrom, MatchesFrom, WellFormed;
    while i > 0
      invariant 0 <= i <= |entries|
      invariant (forall i | 0 <= i < |ns| :: fresh(ns[i])) && (root == null || fresh(root))
      invariant Chain(ns, i + 1) && root == if ns == [] then null else ns[0]
      invariant HoldsFrom(entries, i, ns) && MatchesFrom(entries, i, ns, matches)
    {
      i := i - 1;
      var elem := entries[i];
      if elem.ReturnEntry? {
        var entry := AddNode(entries, i, Output(elem.output), null, elem.id, root, ns);
        MatchesPrepend(entries, i, ns, entry, matches);
        matches := matches[elem.id := entry];
        root, ns := entry, [entry] + ns;
      } else {
        MatchIsKnown(entries, i, ns, matches);
        var match_ := if elem.id in matches then matches[elem.id] else null;
        var entry := AddNode(entries, i, Input(elem.input), match_, elem.id, root, ns);
        MatchesPrepend(entries, i, ns, entry, matches);
        root, ns := entry, [entry] + ns;
      }
    }
  }

  method Length<I, O>(n: Node?<I, O>, ghost ns: seq<Node<I, O>>) returns (l: nat)
    requires Chain(ns, 1) && n == if ns == [] then null else ns[0]
    ensures l == |ns|
  {
    var x := n;
    l := 0;
    while x != null
      invariant l <= |ns| && x == if l < |ns| then ns[l] else null
      decreases |ns| - l
    {
      assert l < |ns| - 1 ==> ns[l].next == ns[l + 1];
      x := x.next;
      l := l + 1;
    }
  }

  ghost function Ptr<I, O>(nodes: seq<Node<I, O>>, x: nat): Node?<I, O> {
    if x < |nodes| then nodes[x] else null
  }

  /** The pointers of the nodes are the ones of links. */
  ghost predicate Shape<I, O>(nodes: seq<Node<I, O>>, links: L.Links)
    reads nodes
  {
    && |links.next| == |links.prev| == |nodes|
    && (forall x {:trigger nodes[x].next} | 0 <= x < |nodes| :: nodes[x].next == Ptr(nodes, links.next[x]))
    && (forall x {:trigger nodes[x].prev} | 0 <= x < |nodes| :: nodes[x].prev == Ptr(nodes, links.prev[x]))
  }

  /** One half of lift: the neighbours of x come to point past it. */
  method Detach<I, O>(x: Node<I, O>, ghost nodes: seq<Node<I, O>>, ghost links: L.Links, ghost k: nat)
    requires Numbered(nodes, 0) && Shape(nodes, links) && L.Removable(links, k) && x == nodes[k]
    modifies nodes
    ensures Shape(nodes, L.Remove(links, k))
  {
    assert x.prev == nodes[links.prev[k]];
    x.prev.next := x.next;
    if x.next != null {
      assert x.next == nodes[links.next[k]];
      x.next.prev := x.prev;
    }
  }

  /** One half of unlift: the neighbours x still points to come to point back at it. */
  method Reattach<I, O>(x: Node<I, O>, ghost nodes: seq<Node<I, O>>, ghost links: L.Links, ghost k: nat)
    requires Numbered(nodes, 0) && Shape(nodes, links) && L.Removable(links, k) && x == nodes[k]
    modifies nodes
    ensures Shape(nodes, L.Restore(links, k))
  {
    assert x.prev == nodes[links.prev[k]];
    x.prev.next := x;
    if x.next != null {
      assert x.next == nodes[links.next[k]];
      x.next.prev := x;
    }
  }

  /** Takes a call and its return out of the list, leaving their own pointers as they were. */
  method Lift<I, O>(entry: Node<I, O>, ghost nodes: seq<Node<I, O>>, ghost links: L.Links, ghost e: nat, ghost m: nat)
    requires Numbered(nodes, 0) && Shape(nodes, links) && L.CanLift(links, e, m)
    requires entry == nodes[e] && entry.match_ == nodes[m]
    modifies nodes
    ensures Shape(nodes, L.Lifted(links, e, m))
  {
    assert entry.next != null;  // a call is never last, so lift need not test for it
    Detach(entry, nodes, links, e);
    Detach(entry.match_, nodes, L.Remove(links, e), m);
  }

  /** Puts a call and its return back where their own pointers say they were. */
  method Unlift<I, O>(entry: Node<I, O>, ghost nodes: seq<Node<I, O>>, ghost links: L.Links, ghost e: nat, ghost m: nat)
    requires Numbered(nodes, 0) && Shape(nodes, links) && L.CanUnlift(links, e, m)
    requires entry == nodes[e] && entry.match_ == nodes[m]
    modifies nodes
    ensures Shape(nodes, L.Unlifted(links, e, m))
  {
    Reattach(entry.match_, nodes, links, m);
    assert entry.next != null;
    Reattach(entry, nodes, L.Restore(links, m), e);
  }

  /* ---- from entries to the searched task ---- */

  ghost function TaskOf<S, I, O>(m: Model<S, I, O>, h: seq<Entry<I, O>>, computePartial: bool): Task<S, I, O>
    requires WellFormed(h)
  {
    var n := |h| / 2;
    Task(m, OpsOf(h),
         seq(n, id requires 0 <= id < n => CallAt(h, id) + 1),
         seq(n, id requires 0 <= id < n => ReturnAt(h, id) + 1), computePartial)
  }

  lemma EntriesApart<I, O>(h: seq<Entry<I, O>>, x: nat, y: nat)
    requires WellFormed(h) && x < |h| / 2 && y < |h| / 2
    ensures CallAt(h, x) != ReturnAt(h, y)
    ensures x != y ==> CallAt(h, x) != CallAt(h, y) && ReturnAt(h, x) != ReturnAt(h, y)
    ensures Precedes(OpsOf(h), x, y) <==> ReturnAt(h, x) < CallAt(h, y)
  {
  }

  lemma TaskPlaced<S, I, O>(m: Model<S, I, O>, h: seq<Entry<I, O>>, computePartial: bool)
    requires WellFormed(h)
    ensures Placed(TaskOf(m, h, computePartial))
  {
    hide WellFormed, IsCallOf, IsReturnOf, Precedes;
    var t := TaskOf(m, h, computePartial);
    forall x: nat, y: nat | x < |t.ops| && y < |t.ops|
      ensures t.callNode[x] != t.retNode[y]
      ensures x != y ==> t.callNode[x] != t.callNode[y] && t.retNode[x] != t.retNode[y]
      ensures Precedes(t.ops, x, y) <==> t.retNode[x] < t.callNode[y]
    {
      EntriesApart(h, x, y);
    }
  }

  lemma TaskLive<S, I, O>(m: Model<S, I, O>, h: seq<Entry<I, O>>, computePartial: bool, x: nat)
    requires WellFormed(h) && Placed(TaskOf(m, h, computePartial))
    ensures x in Live(TaskOf(m, h, computePartial), {}) <==> x <= |h|
  {
    var t := TaskOf(m, h, computePartial);
    if 0 < x <= |h| {
      var id := h[x - 1].id;
      if h[x - 1].CallEntry? {
        assert IsCallOf(h, x - 1, id);
        assert t.callNode[id] == x;
      } else {
        assert IsReturnOf(h, x - 1, id);
        assert t.retNode[id] == x;
      }
    }
  }

  /** The nodes carry the operations at the places t says. */
  ghost predicate Carries<S, I, O>(t: Task<S, I, O>, nodes: seq<Node<I, O>>)
    requires Sized(t)
  {
    && |nodes| == 2 * |t.ops| + 1
    && forall c: nat | c < |t.ops| ::
         && t.callNode[c] < |nodes| && t.retNode[c] < |nodes|
         && nodes[t.callNode[c]].id == c
         && nodes[t.callNode[c]].value == Input(t.ops[c].input)
         && nodes[t.callNode[c]].match_ == nodes[t.retNode[c]]
         && nodes[t.retNode[c]].value == Output(t.ops[c].output)
         && nodes[t.retNode[c]].match_ == null
  }

  lemma HoldsCarries<S, I, O>(m: Model<S, I, O>, h: seq<Entry<I, O>>, computePartial: bool, head: Node<I, O>,
      ns: seq<Node<I, O>>)
    requires WellFormed(h) && HoldsFrom(h, 0, ns) && Placed(TaskOf(m, h, computePartial))
    ensures Carries(TaskOf(m, h, computePartial), [head] + ns)
  {
    var t := TaskOf(m, h, computePartial);
    forall c: nat | c < |t.ops|
      ensures ([head] + ns)[t.callNode[c]] == ns[CallAt(h, c)] && ([head] + ns)[t.retNode[c]] == ns[ReturnAt(h, c)]
      ensures HoldsEntry(ns[CallAt(h, c)], h[CallAt(h, c)]) && HoldsEntry(ns[ReturnAt(h, c)], h[ReturnAt(h, c)])
      ensures ns[CallAt(h, c)].match_ == ns[ReturnAt(h, c)] && ns[ReturnAt(h, c)].match_ == null
    {
      assert ns[CallAt(h, c) - 0] == ns[CallAt(h, c)] && ns[ReturnAt(h, c) - 0] == ns[ReturnAt(h, c)];
    }
  }

  lemma ChainShape<I, O>(nodes: seq<Node<I, O>>)
    requires Chain(nodes, 0) && nodes != []
    ensures Shape(nodes, InitialLinks(|nodes| - 1)) && Numbered(nodes, 0)
  {
  }

  /* ---- the search ---- */

  datatype CallsEntry<S, I, O> = CallsEntry(entry: Node<I, O>, state: S)

  ghost predicate CallsOk<S, I, O>(t: Task<S, I, O>, nodes: seq<Node<I, O>>, calls: seq<CallsEntry<S, I, O>>,
      frames: seq<Frame<S>>)
    requires Sized(t) && Carries(t, nodes)
  {
    && |calls| == |frames|
    && forall k | 0 <= k < |frames| ::
         && frames[k].id < |t.ops|
         && calls[k].entry == nodes[t.callNode[frames[k].id]]
         && calls[k].state == frames[k].state
  }

  /** The ids on the stack, bottom first. */
  method IdsOf<S, I, O>(calls: seq<CallsEntry<S, I, O>>) returns (q: seq<nat>)
    requires forall k | 0 <= k < |calls| :: calls[k].entry.id >= 0
    ensures |q| == |calls| && forall k | 0 <= k < |q| :: q[k] == calls[k].entry.id
  {
    q := [];
    for i := 0 to |calls|
      invariant |q| == i && forall k | 0 <= k < i :: q[k] == calls[k].entry.id
    {
      q := q + [calls[i].entry.id];
    }
  }

  /** Records the abandoned stack for each of its operations that has no longer one. */
  method RecordLongest<S, I, O>(longest: array<Option<seq<nat>>>, calls: seq<CallsEntry<S, I, O>>, ghost q: seq<nat>)
    requires |q| == |calls| && InRange(longest.Length, q)
    requires forall k | 0 <= k < |q| :: q[k] == calls[k].entry.id
    modifies longest
    ensures longest[..] == Record(old(longest[..]), q)
  {
    var callsLen := |calls|;
    var made: Option<seq<nat>> := None;
    for k := 0 to |calls|
      invariant made.Some? ==> made.value == q
      invariant forall i | 0 <= i < longest.Length ::
                  longest[i] == if i in q[..k] && (old(longest[i]).None? || |q| > |old(longest[i]).value|)
                      then Some(q) else old(longest[i])
    {
      var id := calls[k].entry.id;
      assert id == q[k] && q[..k + 1] == q[..k] + [q[k]];
      if longest[id].None? || callsLen > |longest[id].value| {
        if made.None? {
          var ids := IdsOf(calls);
          assert ids == q;
          made := Some(ids);
        }
        longest[id] := made;
      }
    }
    assert q[..|calls|] == q;
  }

  /** Puts a new head in front of the list. */
  method AddHead<I, O>(entry: Node?<I, O>, ghost ns: seq<Node<I, O>>) returns (headEntry: Node<I, O>)
    requires Chain(ns, 1) && entry == if ns == [] then null else ns[0]
    modifies entry
    ensures fresh(headEntry) && Chain([headEntry] + ns, 0)
  {
    hide Chain;
    headEntry := new Node(NoValue, null, -1, 0);
    Prepend(headEntry, entry, ns);
  }

  method MakeList<S, I, O>(ghost model: Model<S, I, O>, history: seq<Entry<I, O>>, ghost computePartial: bool)
    returns (headEntry: Node<I, O>, entry: Node?<I, O>, n: nat, ghost nodes: seq<Node<I, O>>)
    requires WellFormed(history) && Placed(TaskOf(model, history, computePartial))
    ensures forall i | 0 <= i < |nodes| :: fresh(nodes[i])
    ensures n == |history| / 2 && |nodes| == |history| + 1
    ensures headEntry == nodes[0] && entry == Ptr(nodes, 1)
    ensures Numbered(nodes, 0) && Carries(TaskOf(model, history, computePartial), nodes)
    ensures Shape(nodes, InitialLinks(|history|))
  {
    ghost var ns;
    entry, ns := MakeLinkedEntries(history);
    assert |ns| == |history| && (entry != null ==> fresh(ns[0]));
    hide Chain, HoldsFrom, WellFormed, Placed, Carries, Shape, Numbered, InitialLinks, TaskOf;
    var len := Length(entry, ns);
    n := len / 2;
    headEntry := AddHead(entry, ns);
    nodes := [headEntry] + ns;
    HoldsCarries(model, history, computePartial, headEntry, ns);
    ChainShape(nodes);
  }

  /** The bitset and the cache hold the linearized set and the pairs seen, without sharing words. */
  ghost predicate Remembers<S>(lin: set<nat>, pairs: seq<(set<nat>, S)>, linearized: array<B.Word>, cache: C.Buckets<S>)
    reads linearized, C.Arrays(cache)
  {
    && B.Members(linearized[..]) == lin
    && C.Refines(cache, linearized.Length, pairs)
    && linearized !in C.Arrays(cache)
  }

  /** Whether the pair is in the cache, up to equality of states. */
  method LookUp<S, I, O>(
    model: Model<S, I, O>, id: nat, newState: S, linearized: array<B.Word>, cache: C.Buckets<S>,
    ghost lin: set<nat>, ghost pairs: seq<(set<nat>, S)>)
    returns (seen: bool, newLinearized: array<B.Word>)
    requires Remembers(lin, pairs, linearized, cache) && id < 64 * linearized.Length
    ensures fresh(newLinearized) && newLinearized.Length == linearized.Length
    ensures B.Members(newLinearized[..]) == lin + {id}
    ensures seen <==> exists p | p in pairs :: Matches(model, lin + {id}, newState, p)
  {
    newLinearized := B.Clone(linearized);
    B.Set(newLinearized, id);
    seen := C.CacheContains(model, cache, C.CacheEntry(newLinearized, newState), pairs);
  }

  method Remember<S>(
    id: nat, newState: S, newLinearized: array<B.Word>, linearized: array<B.Word>, cache: C.Buckets<S>,
    ghost lin: set<nat>, ghost pairs: seq<(set<nat>, S)>)
    returns (cache': C.Buckets<S>)
    requires Remembers(lin, pairs, linearized, cache) && id < 64 * linearized.Length
    requires newLinearized != linearized && newLinearized.Length == linearized.Length
    requires B.Members(newLinearized[..]) == lin + {id}
    modifies linearized
    ensures Remembers(lin + {id}, pairs + [(lin + {id}, newState)], linearized, cache')
  {
    hide B.Members, B.HashOf, C.Inserted, C.Refines;
    var newCacheEntry := C.CacheEntry(newLinearized, newState);
    var hash := B.Hash(newLinearized);
    C.InsertRefines(cache, hash, newCacheEntry, pairs);
    C.InsertArrays(cache, hash, newCacheEntry);
    cache' := C.Inserted(cache, hash, newCacheEntry);
    B.Set(linearized, id);
  }

  /** The nodes, the cursor and the stack of checkSingle are those of the search on values. */
  ghost predicate ListAgrees<S, I, O>(t: Task<S, I, O>, nodes: seq<Node<I, O>>, links: L.Links, cursor: nat,
      entry: Node?<I, O>,
                                      calls: seq<CallsEntry<S, I, O>>, frames: seq<Frame<S>>)
    requires Sized(t)
    reads nodes
  {
    && Numbered(nodes, 0) && Carries(t, nodes) && Shape(nodes, links)
    && entry == Ptr(nodes, cursor)
    && CallsOk(t, nodes, calls, frames)
  }

  method LiftCall<S, I, O>(
    headEntry: Node<I, O>, entry: Node<I, O>, calls: seq<CallsEntry<S, I, O>>, state: S,
    ghost t: Task<S, I, O>, ghost nodes: seq<Node<I, O>>, ghost links: L.Links, ghost frames: seq<Frame<S>>,
        ghost c: nat)
    returns (entry': Node?<I, O>, calls': seq<CallsEntry<S, I, O>>)
    requires Sized(t) && c < |t.ops| && L.CanLift(links, t.callNode[c], t.retNode[c])
    requires ListAgrees(t, nodes, links, t.callNode[c], entry, calls, frames) && headEntry == nodes[0]
    modifies nodes
    ensures var r := L.Lifted(links, t.callNode[c], t.retNode[c]);
            ListAgrees(t, nodes, r, r.next[0], entry', calls', frames + [Frame(c, state, links)])
  {
    calls' := calls + [CallsEntry(entry, state)];
    Lift(entry, nodes, links, t.callNode[c], t.retNode[c]);
    entry' := headEntry.next;
  }

  method UnliftCall<S, I, O>(
    calls: seq<CallsEntry<S, I, O>>,
    ghost t: Task<S, I, O>, ghost nodes: seq<Node<I, O>>, ghost links: L.Links, ghost cursor: nat,
        ghost entry: Node?<I, O>, ghost frames: seq<Frame<S>>)
    returns (entry': Node?<I, O>, state': S, id: nat, calls': seq<CallsEntry<S, I, O>>)
    requires Sized(t) && calls != [] && ListAgrees(t, nodes, links, cursor, entry, calls, frames)
    requires var f := frames[|frames| - 1];
             && L.CanUnlift(links, t.callNode[f.id], t.retNode[f.id])
             && f.links == L.Unlifted(links, t.callNode[f.id], t.retNode[f.id])
    modifies nodes
    ensures var f := frames[|frames| - 1];
            && id == f.id && state' == f.state
            && ListAgrees(t, nodes, f.links, f.links.next[t.callNode[f.id]], entry', calls', frames[..|frames| - 1])
  {
    ghost var f := frames[|frames| - 1];
    var callsTop := calls[|calls| - 1];
    var top := callsTop.entry;
    id, state' := top.id, callsTop.state;
    calls' := calls[..|calls| - 1];
    Unlift(top, nodes, links, t.callNode[f.id], t.retNode[f.id]);
    entry' := top.next;
  }

  ghost predicate Agrees<S, I, O>(t: Task<S, I, O>, st: Search<S>, nodes: seq<Node<I, O>>, entry: Node?<I, O>,
                                  calls: seq<CallsEntry<S, I, O>>, state: S, linearized: array<B.Word>,
                                      cache: C.Buckets<S>)
    requires Sized(t)
    reads nodes, linearized, C.Arrays(cache)
  {
    && ListAgrees(t, nodes, st.links, st.cursor, entry, calls, st.calls)
    && state == st.state
    && |t.ops| <= 64 * linearized.Length
    && Remembers(st.lin, st.cache, linearized, cache)
  }

  /** Decides whether the call at the cursor is to be linearized next. */
  method Consider<S, I, O>(
    model: Model<S, I, O>, entry: Node<I, O>, state: S, linearized: array<B.Word>, cache: C.Buckets<S>,
    ghost t: Task<S, I, O>, ghost st: Search<S>, ghost nodes: seq<Node<I, O>>, ghost c: nat)
    returns (take: bool, newState: S, newLinearized: array<B.Word>)
    requires Sized(t) && t.m == model && c < |t.ops|
    requires Carries(t, nodes) && entry == nodes[t.callNode[c]] && state == st.state
    requires Remembers(st.lin, st.cache, linearized, cache) && |t.ops| <= 64 * linearized.Length
    ensures take <==> StepOp(t.m, t.ops, st.state, c).0 && !Seen(t, st, c)
    ensures take ==>
              && fresh(newLinearized) && newLinearized.Length == linearized.Length
              && newState == StepOp(t.m, t.ops, st.state, c).1
              && B.Members(newLinearized[..]) == st.lin + {c}
  {
    var matching := entry.match_;
    var (ok, s') := model.step(state, entry.value.input, matching.value.output);
    assert (ok, s') == StepOp(t.m, t.ops, st.state, c);
    take, newState, newLinearized := false, s', linearized;
    if ok {
      var seen;
      seen, newLinearized := LookUp(model, entry.id, s', linearized, cache, st.lin, st.cache);
      take := !seen;
    }
  }

  /** Linearizes the call at the cursor: caches the pair, pushes the call, marks it and lifts it out. */
  method Linearize<S, I, O>(
    headEntry: Node<I, O>, entry: Node<I, O>, newState: S, newLinearized: array<B.Word>,
    calls: seq<CallsEntry<S, I, O>>, state: S, linearized: array<B.Word>, cache: C.Buckets<S>,
    ghost t: Task<S, I, O>, ghost st: Search<S>, ghost nodes: seq<Node<I, O>>, ghost c: nat)
    returns (entry': Node?<I, O>, calls': seq<CallsEntry<S, I, O>>, cache': C.Buckets<S>)
    requires Sized(t) && CanPushLinks(t, st, c)
    requires Agrees(t, st, nodes, entry, calls, state, linearized, cache)
    requires st.cursor == t.callNode[c] && headEntry == nodes[0] && entry == nodes[t.callNode[c]]
    requires newLinearized != linearized && newLinearized.Length == linearized.Length
    requires newState == StepOp(t.m, t.ops, st.state, c).1 && B.Members(newLinearized[..]) == st.lin + {c}
    modifies nodes, linearized
    ensures Agrees(t, Push(t, st, c), nodes, entry', calls', newState, linearized, cache')
  {
    cache' := Remember(entry.id, newState, newLinearized, linearized, cache, st.lin, st.cache);
    entry', calls' := LiftCall(headEntry, entry, calls, state, t, nodes, st.links, st.calls, c);
  }

  method Forget<S>(id: nat, linearized: array<B.Word>, ghost cache: C.Buckets<S>, ghost lin: set<nat>,
      ghost pairs: seq<(set<nat>, S)>)
    requires Remembers(lin, pairs, linearized, cache) && id < 64 * linearized.Length
    modifies linearized
    ensures Remembers(lin - {id}, pairs, linearized, cache)
  {
    B.Clear(linearized, id);
  }

  /** Pops the top call, unmarks it and puts it back into the list. */
  method Backtrack<S, I, O>(
    calls: seq<CallsEntry<S, I, O>>, linearized: array<B.Word>,
    ghost entry: Node?<I, O>, ghost state: S, ghost cache: C.Buckets<S>,
    ghost t: Task<S, I, O>, ghost st: Search<S>, ghost nodes: seq<Node<I, O>>)
    returns (entry': Node?<I, O>, calls': seq<CallsEntry<S, I, O>>, state': S)
    requires Sized(t) && st.calls != [] && TopLifted(t, st)
    requires Agrees(t, st, nodes, entry, calls, state, linearized, cache)
    modifies nodes, linearized
    ensures Agrees(t, Pop(t, st), nodes, entry', calls', state', linearized, cache)
  {
    var id: nat;
    entry', state', id, calls' := UnliftCall(calls, t, nodes, st.links, st.cursor, entry, st.calls);
    Forget(id, linearized, cache, st.lin, st.cache);
  }

  /* ---- checkSingle ---- */

  /** What is recorded for an operation is a partial linearization containing it. */
  ghost predicate ValidPartials<S, I, O>(m: Model<S, I, O>, ops: seq<Operation<I, O>>, partials: Partials) {
    && |partials| == |ops|
    && forall i | 0 <= i < |partials| && partials[i].Some? ::
         IsPartialLinearization(m, ops, partials[i].value) && i in partials[i].value
  }

  /** No partial linearization is longer than what is recorded for an operation it contains. */
  ghost predicate MaximalPartials<S, I, O>(m: Model<S, I, O>, ops: seq<Operation<I, O>>, partials: Partials) {
    forall q, i: nat | IsPartialLinearization(m, ops, q) && i in q :: Recorded(partials, i, |q|)
  }

  lemma LongestIsValid<S(!new), I(!new), O(!new)>(t: Task<S, I, O>, k: nat, st: Search<S>)
    requires Sized(t) && Reached(t, k, st)
    ensures ValidPartials(t.m, t.ops, st.longest)
  {
    LoopHead(t, k, st);
    forall i | 0 <= i < |st.longest| && st.longest[i].Some?
      ensures IsPartialLinearization(t.m, t.ops, st.longest[i].value)
    {
      PartialIff(t.m, t.ops, st.longest[i].value);
    }
  }

  /**
   The partials are what k turns of the search leave: for each operation the first of the longest stacks with
   it that were given up, if they are asked for and there is one.
   */
  ghost predicate GaveUp<S(!new), I(!new), O(!new)>(t: Task<S, I, O>, k: nat, partials: Partials)
    requires Sized(t)
  {
    exists st, stacks :: Abandons(t, k, st, stacks) && RecordsBest(if t.computePartial then stacks else [], partials)
  }

  lemma LongestIsBest<S(!new), I(!new), O(!new)>(t: Task<S, I, O>, k: nat, st: Search<S>)
    requires Sized(t) && Reached(t, k, st)
    ensures GaveUp(t, k, st.longest)
  {
    hide Reached, Abandons, RecordsBest;
    var stacks := ReachedAbandons(t, k, st);
    AbandonedAreRecorded(t, k, st, stacks);
  }

  ghost predicate AllRecord(partials: Partials, q: seq<nat>) {
    forall i | 0 <= i < |partials| :: partials[i] == Some(q)
  }

  lemma AllRecordValid<S, I, O>(m: Model<S, I, O>, ops: seq<Operation<I, O>>, partials: Partials, q: seq<nat>)
    requires |partials| == |ops| && AllRecord(partials, q) && IsLinearization(m, ops, q)
    ensures ValidPartials(m, ops, partials)
  {
    CompleteIff(m, ops, q);
    PartialIff(m, ops, q);
    DistinctSize(q);
    BelowSize(|ops|, Elements(q));
    forall i | 0 <= i < |partials| ensures i in q { assert i in Elements(q); }
  }

  /** The list is empty: the whole stack is recorded for every operation. */
  method RecordAll<S, I, O>(calls: seq<CallsEntry<S, I, O>>, longest: array<Option<seq<nat>>>,
                            ghost t: Task<S, I, O>, ghost nodes: seq<Node<I, O>>, ghost frames: seq<Frame<S>>)
                                returns (partials: Partials)
    requires Sized(t) && Carries(t, nodes) && CallsOk(t, nodes, calls, frames) && longest.Length == |t.ops|
    requires IsLinearization(t.m, t.ops, Ids(frames))
    modifies longest
    ensures AllRecord(partials, Ids(frames)) && ValidPartials(t.m, t.ops, partials)
  {
    var ids := IdsOf(calls);
    assert ids == Ids(frames);
    for i := 0 to longest.Length
      invariant forall k | 0 <= k < i :: longest[k] == Some(ids)
    {
      longest[i] := Some(ids);
    }
    partials := longest[..];
    AllRecordValid(t.m, t.ops, partials, ids);
  }

  /** The cursor is at a call: linearize it if the model allows it and the result is new, else move on. */
  method TurnAtCall<S, I, O>(
    model: Model<S, I, O>, headEntry: Node<I, O>, entry: Node<I, O>, calls: seq<CallsEntry<S, I, O>>, state: S,
    linearized: array<B.Word>, cache: C.Buckets<S>,
    ghost t: Task<S, I, O>, ghost st: Search<S>, ghost nodes: seq<Node<I, O>>, ghost c: nat)
    returns (entry': Node?<I, O>, calls': seq<CallsEntry<S, I, O>>, state': S, cache': C.Buckets<S>,
        ghost st': Search<S>)
    requires Sized(t) && t.m == model && AtNode(t, st, c) && st.cursor == t.callNode[c] < |st.links.next|
    requires StepOp(t.m, t.ops, st.state, c).0 && !Seen(t, st, c) ==> CanPushLinks(t, st, c)
    requires Agrees(t, st, nodes, entry, calls, state, linearized, cache) && headEntry == nodes[0]
    modifies nodes, linearized
    ensures IsTurn(t, st, c, st') && st'.longest == st.longest
    ensures Agrees(t, st', nodes, entry', calls', state', linearized, cache')
  {
    var take, newState, newLinearized := Consider(model, entry, state, linearized, cache, t, st, nodes, c);
    if take {
      entry', calls', cache' :=
        Linearize(headEntry, entry, newState, newLinearized, calls, state, linearized, cache, t, st, nodes, c);
      state', st' := newState, Push(t, st, c);
    } else {
      entry', calls', state', cache', st' := entry.next, calls, state, cache, Skip(st);
    }
  }

  /** The cursor is at a return and the stack is not empty: record the stack and undo its top. */
  method TurnAtReturn<S, I, O>(
    calls: seq<CallsEntry<S, I, O>>, linearized: array<B.Word>, longest: array<Option<seq<nat>>>, computePartial: bool,
    ghost entry: Node?<I, O>, ghost state: S, ghost cache: C.Buckets<S>,
    ghost t: Task<S, I, O>, ghost st: Search<S>, ghost nodes: seq<Node<I, O>>)
    returns (entry': Node?<I, O>, calls': seq<CallsEntry<S, I, O>>, state': S)
    requires Sized(t) && st.calls != [] && TopLifted(t, st) && InRange(|t.ops|, Ids(st.calls))
             && computePartial == t.computePartial
    requires Agrees(t, st, nodes, entry, calls, state, linearized, cache)
    requires longest[..] == st.longest && longest.Length == |t.ops|
    modifies nodes, linearized, longest
    ensures Agrees(t, Pop(t, st), nodes, entry', calls', state', linearized, cache)
    ensures longest[..] == Pop(t, st).longest
  {
    if computePartial { RecordLongest(longest, calls, Ids(st.calls)); }
    entry', calls', state' := Backtrack(calls, linearized, entry, state, cache, t, st, nodes);
  }

  lemma StartReached<S(!new), I(!new), O(!new)>(model: Model<S, I, O>, history: seq<Entry<I, O>>, computePartial: bool)
    requires WellFormed(history) && EqualIsBisimulation(model)
    ensures var t := TaskOf(model, history, computePartial); Placed(t) && Reached(t, 0, Start(t))
  {
    var t := TaskOf(model, history, computePartial);
    TaskPlaced(model, history, computePartial);
    forall x: nat ensures x in Live(t, {}) <==> x <= 2 * |t.ops| { TaskLive(model, history, computePartial, x); }
  }

  lemma NodeKind<S, I, O>(t: Task<S, I, O>, st: Search<S>, nodes: seq<Node<I, O>>, c: nat)
    requires Sized(t) && Carries(t, nodes) && AtNode(t, st, c)
    ensures st.cursor < |nodes|
    ensures nodes[st.cursor].match_ != null ==> st.cursor == t.callNode[c]
    ensures nodes[st.cursor].match_ == null ==> st.cursor == t.retNode[c]
  {
  }

  /** The end of the loop: with the head last in the list, the stack is a linearization. */
  lemma LoopEnd<S(!new), I(!new), O(!new)>(t: Task<S, I, O>, k: nat, st: Search<S>, nodes: seq<Node<I, O>>)
    requires Sized(t) && Reached(t, k, st) && Shape(nodes, st.links) && nodes != []
    ensures |st.longest| == |t.ops|
    ensures nodes[0].next == null ==> IsLinearization(t.m, t.ops, Ids(st.calls))
    ensures nodes[0].next != null ==> exists c :: AtNode(t, st, c)
  {
    LoopHead(t, k, st);
    assert nodes[0].next == Ptr(nodes, st.links.next[0]);
  }

  datatype Outcome = Done | Failed | Killed

  /** The search is at a return with an empty stack. */
  ghost predicate Stuck<S, I, O>(t: Task<S, I, O>, st: Search<S>)
    requires Sized(t)
  {
    st.calls == [] && exists c: nat :: AtNode(t, st, c) && st.cursor == t.retNode[c]
  }

  /** One turn of the loop; it may find that the search has failed. */
  method Turn<S(!new), I(!new), O(!new)>(
    model: Model<S, I, O>, headEntry: Node<I, O>, entry: Node?<I, O>, calls: seq<CallsEntry<S, I, O>>, state: S,
    linearized: array<B.Word>, cache: C.Buckets<S>, longest: array<Option<seq<nat>>>, computePartial: bool,
    ghost t: Task<S, I, O>, ghost k: nat, ghost st: Search<S>, ghost nodes: seq<Node<I, O>>, ghost c: nat)
    returns (failed: bool, entry': Node?<I, O>, calls': seq<CallsEntry<S, I, O>>, state': S, cache': C.Buckets<S>,
        ghost st': Search<S>)
    requires Sized(t) && t.m == model && computePartial == t.computePartial && Reached(t, k, st) && AtNode(t, st, c)
    requires Agrees(t, st, nodes, entry, calls, state, linearized, cache) && headEntry == nodes[0]
    requires longest[..] == st.longest && longest.Length == |t.ops|
    modifies nodes, linearized, longest
    ensures failed ==> longest[..] == st.longest && Stuck(t, st)
    ensures !failed ==>
              && Reached(t, k + 1, st') && Progress(t, st, st')
              && Agrees(t, st', nodes, entry', calls', state', linearized, cache') && longest[..] == st'.longest
  {
    hide Reached, Numbered, Remembers, Shape, IsTurn, Seen, Progress;
    NodeKind(t, st, nodes, c);
    TurnReady(t, k, st, c);
    failed, entry', calls', state', cache', st' := false, entry, calls, state, cache, st;
    if entry.match_ != null {
      entry', calls', state', cache', st' :=
        TurnAtCall(model, headEntry, entry, calls, state, linearized, cache, t, st, nodes, c);
      TurnReaches(t, k, st, c, st');
    } else if |calls| == 0 {
      failed := true;
    } else {
      entry', calls', state' :=
        TurnAtReturn(calls, linearized, longest, computePartial, entry, state, cache, t, st, nodes);
      st' := Pop(t, st);
      TurnReaches(t, k, st, c, st');
    }
  }

  /** The loop of checkSingle. */
  method RunSearch<S(!new), I(!new), O(!new)>(
    model: Model<S, I, O>, headEntry: Node<I, O>, first: Node?<I, O>, linearized: array<B.Word>,
        longest: array<Option<seq<nat>>>,
    computePartial: bool, kill: nat -> bool, ghost t: Task<S, I, O>, ghost nodes: seq<Node<I, O>>)
    returns (outcome: Outcome, calls: seq<CallsEntry<S, I, O>>, k: nat, ghost st: Search<S>)
    requires Sized(t) && Reached(t, 0, Start(t)) && t.m == model && computePartial == t.computePartial
    requires Agrees(t, Start(t), nodes, first, [], model.init, linearized, map[])
    requires longest[..] == Start(t).longest && headEntry == nodes[0]
    modifies nodes, linearized, longest
    ensures Reached(t, k, st) && longest[..] == st.longest && longest.Length == |t.ops|
    ensures outcome == Done ==>
              IsLinearization(t.m, t.ops, Ids(st.calls)) && Carries(t, nodes) && CallsOk(t, nodes, calls, st.calls)
    ensures outcome == Failed ==> Stuck(t, st)
    ensures outcome == Killed <==> outcome != Done && kill(k)
    ensures forall j | 0 <= j < k :: !kill(j)
  {
    hide Reached, Carries, Numbered, CallsOk, Remembers, Unseen, Linearizability.IsLinearization;
    var entry, cache, state := first, map[], model.init;
    calls, st, k := [], Start(t), 0;
    while headEntry.next != null
      invariant Reached(t, k, st) && forall j | 0 <= j < k :: !kill(j)
      invariant Agrees(t, st, nodes, entry, calls, state, linearized, cache)
      invariant longest[..] == st.longest && longest.Length == |t.ops|
      decreases Unseen(t, st), |st.calls|, 2 * |t.ops| + 1 - st.cursor
    {
      LoopEnd(t, k, st, nodes);
      if kill(k) { return Killed, calls, k, st; }
      ghost var c :| AtNode(t, st, c);
      ghost var before := st;
      var failed;
      failed, entry, calls, state, cache, st :=
        Turn(model, headEntry, entry, calls, state, linearized, cache, longest, computePartial, t, k, st, nodes, c);
      if failed { return Failed, calls, k, before; }
      k := k + 1;
    }
    LoopEnd(t, k, st, nodes);
    outcome := Done;
  }

  /** The variables of checkSingle before its loop. */
  method SetUp<S, I, O>(model: Model<S, I, O>, history: seq<Entry<I, O>>, computePartial: bool)
    returns (headEntry: Node<I, O>, entry: Node?<I, O>, linearized: array<B.Word>, longest: array<Option<seq<nat>>>,
        ghost nodes: seq<Node<I, O>>)
    requires WellFormed(history) && Placed(TaskOf(model, history, computePartial))
    ensures fresh(linearized) && fresh(longest) && (forall i | 0 <= i < |nodes| :: fresh(nodes[i]))
    ensures var t := TaskOf(model, history, computePartial);
            && Agrees(t, Start(t), nodes, entry, [], model.init, linearized, map[])
            && longest[..] == Start(t).longest
    ensures nodes != [] && headEntry == nodes[0]
  {
    assert |history| % 2 == 0;
    hide Numbered, Carries, WellFormed, Placed, Shape;
    var n: nat;
    headEntry, entry, n, nodes := MakeList(model, history, computePartial);
    linearized := B.NewBitset(n);
    longest := new Option<seq<nat>>[n](i => None);
  }

  /**
   Decides linearizability of a history, looking for a kill request before each turn;
   kill(k) is what the k-th look finds, and looks is the number of the last one.
   */
  method CheckSingle<S(!new), I(!new), O(!new)>(model: Model<S, I, O>, history: seq<Entry<I, O>>, computePartial: bool,
      kill: nat -> bool)
    returns (ok: bool, partials: Partials, looks: nat)
    requires WellFormed(history) && EqualIsBisimulation(model)
    ensures Truthful(Linearizable(model, OpsOf(history)), kill(looks), ok)
    ensures ok ==> exists q :: IsLinearization(model, OpsOf(history), q) && AllRecord(partials, q)
    ensures !ok && !kill(looks) && computePartial ==> MaximalPartials(model, OpsOf(history), partials)
    ensures ValidPartials(model, OpsOf(history), partials)
    ensures forall j | 0 <= j < looks :: !kill(j)
    ensures !ok ==> GaveUp(TaskOf(model, history, computePartial), looks, partials)
  {
    hide Reached, Agrees, Carries, CallsOk, IsLinearization, EqualIsBisimulation, WellFormed, Placed;
    ghost var t := TaskOf(model, history, computePartial);
    StartReached(model, history, computePartial);
    var headEntry, entry, linearized, longest, nodes := SetUp(model, history, computePartial);
    var outcome, calls, k, st :=
      RunSearch(model, headEntry, entry, linearized, longest, computePartial, kill, t, nodes);
    ok, looks := outcome == Done, k;
    if ok {
      partials := RecordAll(calls, longest, t, nodes, st.calls);
    } else {
      partials := longest[..];
      LongestIsValid(t, k, st);
      LongestIsBest(t, k, st);
      if outcome == Failed {
        ghost var c: nat :| AtNode(t, st, c) && st.cursor == t.retNode[c];
        StuckIsIllegal(t, k, st, c);
      }
    }
  }
}
