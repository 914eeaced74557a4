/** Histories given as events: renumbering arbitrary ids to 0, 1, 2, ... and turning events into entries. */
module Events {
  import opened Collections
  import opened Entries

  datatype Event<+I, +O> =
    | CallEvent(clientId: int, input: I, id: int)
    | ReturnEvent(clientId: int, output: O, id: int)

  function Ids<I, O>(events: seq<Event<I, O>>): seq<int> {
    seq(|events|, k requires 0 <= k < |events| => events[k].id)
  }

  /* ---- numbering by first appearance ---- */

  function Seen(ids: seq<int>, k: nat): set<int>
    requires k <= |ids|
  {
    set j | 0 <= j < k :: ids[j]
  }

  predicate IsFirst(ids: seq<int>, k: nat) { k < |ids| && ids[k] !in Seen(ids, k) }

  function First(ids: seq<int>, v: int): (k: nat)
    requires v in ids
    ensures IsFirst(ids, k) && ids[k] == v
  {
    if ids[0] == v then 0 else
      assert v in ids[1..];
      var k := 1 + First(ids[1..], v);
      assert ids[k] !in Seen(ids, k) by {
        assert forall j | 0 < j < k :: ids[j] == ids[1..][j - 1] && ids[1..][j - 1] in Seen(ids[1..], k - 1);
      }
      k
  }

  /** An id is renumbered to the number of ids that appeared before it. */
  function Number(ids: seq<int>, v: int): nat
    requires v in ids
  {
    |Seen(ids, First(ids, v))|
  }

  function Renamed<I, O>(ids: seq<int>, v: Event<I, O>): Event<I, O>
    requires v.id in ids
  {
    v.(id := Number(ids, v.id))
  }

  ghost predicate Renumbers<I, O>(events: seq<Event<I, O>>, e: seq<Event<I, O>>) {
    && |e| == |events|
    && forall k | 0 <= k < |e| :: events[k].id in Ids(events) && e[k] == Renamed(Ids(events), events[k])
  }

  /** m numbers the ids seen before position i, and id is the next number. */
  ghost predicate Numbering(ids: seq<int>, i: nat, m: map<int, nat>, id: nat) {
    && i <= |ids| && m.Keys == Seen(ids, i) && id == |Seen(ids, i)|
    && forall v | v in m :: v in ids && m[v] == Number(ids, v)
  }

  lemma NumberingStarts(ids: seq<int>)
    ensures Numbering(ids, 0, map[], 0)
  {
  }

  /** An id met before keeps its number; a new one gets the next. */
  lemma NumberingStep(ids: seq<int>, i: nat, m: map<int, nat>, id: nat)
    requires i < |ids| && Numbering(ids, i, m, id)
    ensures ids[i] in ids && (if ids[i] in m then m[ids[i]] else id) == Number(ids, ids[i])
    ensures if ids[i] in m then Numbering(ids, i + 1, m, id) else Numbering(ids, i + 1, m[ids[i] := id], id + 1)
  {
    hide Seen, Number;
    SeenNext(ids, i);
    if ids[i] !in m { FirstIsUnique(ids, i); }
  }

  lemma RenamedIs<I, O>(ids: seq<int>, v: Event<I, O>, id: nat)
    requires v.id in ids && id == Number(ids, v.id)
    ensures v.(id := id) == Renamed(ids, v)
  {
  }

  method Renumber<I, O>(events: seq<Event<I, O>>) returns (e: seq<Event<I, O>>)
    ensures Renumbers(events, e)
  {
    hide Number, Ids, Numbering, Renamed;
    ghost var ids := Ids(events);
    IdsAre(events);
    NumberingStarts(ids);
    e := [];
    var m: map<int, nat> := map[];
    var id := 0;
    for i := 0 to |events|
      invariant |e| == i && Numbering(ids, i, m, id)
      invariant forall k | 0 <= k < i :: events[k].id in ids && e[k] == Renamed(ids, events[k])
    {
      var v := events[i];
      NumberingStep(ids, i, m, id);
      if v.id in m {
        RenamedIs(ids, v, m[v.id]);
        e := e + [v.(id := m[v.id])];
      } else {
        RenamedIs(ids, v, id);
        e := e + [v.(id := id)];
        m := m[v.id := id];
        id := id + 1;
      }
    }
  }

  lemma IdsAre<I, O>(events: seq<Event<I, O>>)
    ensures |Ids(events)| == |events| && forall k | 0 <= k < |events| :: Ids(events)[k] == events[k].id
  {
  }

  lemma SeenNext(ids: seq<int>, k: nat)
    requires k < |ids|
    ensures Seen(ids, k + 1) == Seen(ids, k) + {ids[k]}
  {
  }

  lemma FirstIsUnique(ids: seq<int>, k: nat)
    requires IsFirst(ids, k)
    ensures ids[k] in ids && First(ids, ids[k]) == k && Number(ids, ids[k]) == |Seen(ids, k)|
  {
    var f := First(ids, ids[k]);
    assert forall j | 0 <= j < k :: ids[j] in Seen(ids, k);
    assert forall j | 0 <= j < f :: ids[j] in Seen(ids, f);
  }

  lemma SeenGrows(ids: seq<int>, j: nat, k: nat)
    requires j < k <= |ids| && IsFirst(ids, j)
    ensures |Seen(ids, j)| < |Seen(ids, k)|
  {
    assert ids[j] in Seen(ids, k);
    assert Seen(ids, j) < Seen(ids, k);
    ProperSubset(Seen(ids, j), Seen(ids, k));
  }

  /** Different ids get different numbers, all below the number of ids. */
  lemma NumbersDiffer(ids: seq<int>, u: int, v: int)
    requires u in ids && v in ids
    ensures Number(ids, u) == Number(ids, v) <==> u == v
    ensures Number(ids, u) < Number(ids, v) <==> First(ids, u) < First(ids, v)
    ensures Number(ids, u) < |Seen(ids, |ids|)|
  {
    var i, j := First(ids, u), First(ids, v);
    SeenGrows(ids, i, |ids|);
    if i < j { SeenGrows(ids, i, j); }
    if j < i { SeenGrows(ids, j, i); }
  }

  /** Every number below that is used. */
  lemma {:induction false} NumbersDense(ids: seq<int>, k: nat, n: nat) returns (j: nat)
    requires k <= |ids| && n < |Seen(ids, k)|
    ensures j < k && IsFirst(ids, j) && |Seen(ids, j)| == n
  {
    assert Seen(ids, 0) == {};
    SeenNext(ids, k - 1);
    if n < |Seen(ids, k - 1)| { j := NumbersDense(ids, k - 1, n); } else { j := k - 1; }
  }

  /* ---- counting the ids of a balanced history ---- */

  ghost predicate Partner<I, O>(events: seq<Event<I, O>>, j: nat, k: nat) {
    j < |events| && k < |events| && j != k && events[j].id == events[k].id
  }

  ghost predicate HasPartner<I, O>(events: seq<Event<I, O>>, k: nat) { exists j :: Partner(events, j, k) }

  /** Every id that appears is called once and returns once, later. */
  ghost predicate Balanced<I, O>(events: seq<Event<I, O>>) {
    && (forall j, k | 0 <= j < k < |events| && events[j].id == events[k].id ::
       events[j].CallEvent? && events[k].ReturnEvent?)
    && (forall k: nat | k < |events| :: HasPartner(events, k))
  }

  ghost function IdsAt(ids: seq<int>, at: set<nat>): set<int> { set k | k in at && k < |ids| :: ids[k] }

  lemma {:induction false} IdsAtSize(ids: seq<int>, at: set<nat>)
    requires forall k | k in at :: k < |ids|
    requires forall j, k | j in at && k in at && ids[j] == ids[k] :: j == k
    ensures |IdsAt(ids, at)| == |at|
    decreases |at|
  {
    if at == {} {
      assert IdsAt(ids, at) == {};
    } else {
      var k :| k in at;
      IdsAtSize(ids, at - {k});
      assert IdsAt(ids, at) == IdsAt(ids, at - {k}) + {ids[k]};
    }
  }

  ghost function Calls<I, O>(events: seq<Event<I, O>>): set<nat> { set k: nat | k < |events| && events[k].CallEvent? }

  ghost function Returns<I, O>(events: seq<Event<I, O>>): set<nat> {
    set k: nat | k < |events| && events[k].ReturnEvent?
  }

  lemma IdIsBoth<I, O>(events: seq<Event<I, O>>, k: nat)
    requires Balanced(events) && k < |events|
    ensures var ids := Ids(events); ids[k] in IdsAt(ids, Calls(events)) && ids[k] in IdsAt(ids, Returns(events))
  {
    var ids := Ids(events);
    assert HasPartner(events, k);
    var j: nat :| Partner(events, j, k);
    assert ids[j] == ids[k];
    if j < k {
      assert j in Calls(events) && k in Returns(events);
    } else {
      assert k in Calls(events) && j in Returns(events);
    }
  }

  /** Half as many ids as events. */
  lemma HalfAsManyIds<I, O>(events: seq<Event<I, O>>)
    requires Balanced(events)
    ensures |events| == 2 * |Seen(Ids(events), |events|)|
  {
    var ids := Ids(events);
    forall k: nat | k < |events| ensures ids[k] in IdsAt(ids, Calls(events)) && ids[k] in IdsAt(ids, Returns(events)) {
      IdIsBoth(events, k);
    }
    assert IdsAt(ids, Calls(events)) == Seen(ids, |ids|) == IdsAt(ids, Returns(events));
    IdsAtSize(ids, Calls(events));
    IdsAtSize(ids, Returns(events));
    FullSize(|events|, Calls(events) + Returns(events));
    assert Calls(events) * Returns(events) == {};
  }

  /* ---- from events to entries ---- */

  function EntryOf<I, O>(e: Event<I, O>, time: int): Entry<I, O>
    requires e.id >= 0
  {
    match e
    case CallEvent(client, input, id) => CallEntry(id, input, time, client)
    case ReturnEvent(client, output, id) => ReturnEntry(id, output, time, client)
  }

  /** Entry k is event k, timed by its position. */
  ghost predicate Converts<I, O>(events: seq<Event<I, O>>, entries: seq<Entry<I, O>>)
    requires forall k | 0 <= k < |events| :: events[k].id >= 0
  {
    && |entries| == |events|
    && forall k | 0 <= k < |entries| :: entries[k] == EntryOf(events[k], k)
  }

  method ConvertEntries<I, O>(events: seq<Event<I, O>>) returns (entries: seq<Entry<I, O>>)
    requires forall k | 0 <= k < |events| :: events[k].id >= 0
    ensures Converts(events, entries)
  {
    entries := [];
    for i := 0 to |events|
      invariant |entries| == i
      invariant Converts(events[..i], entries)
    {
      var elem := events[i];
      if elem.ReturnEvent? {
        entries := entries + [ReturnEntry(elem.id, elem.output, i, elem.clientId)];
      } else {
        entries := entries + [CallEntry(elem.id, elem.input, i, elem.clientId)];
      }
    }
    assert events[..|events|] == events;
  }

  /** The entry has the kind, the value and the client of the event, and its position as time. */
  ghost predicate Keeps<I, O>(v: Event<I, O>, e: Entry<I, O>, k: nat) {
    && e.time == k && e.clientId == v.clientId && (e.CallEntry? <==> v.CallEvent?)
    && (v.CallEvent? ==> e.input == v.input) && (v.ReturnEvent? ==> e.output == v.output)
  }

  /** Two entries have the same id exactly if their events had. */
  lemma SameIds<I, O>(events: seq<Event<I, O>>, e: seq<Event<I, O>>, entries: seq<Entry<I, O>>, j: nat, k: nat)
    requires Renumbers(events, e) && Converts(e, entries) && j < |events| && k < |events|
    ensures entries[j].id == entries[k].id <==> events[j].id == events[k].id
    ensures entries[j].id < |Seen(Ids(events), |events|)|
  {
    hide Seen, Number;
    var ids := Ids(events);
    assert ids[j] in ids && ids[k] in ids;
    NumbersDiffer(ids, ids[j], ids[k]);
  }

  /**
   Events with any ids become well-formed entries exactly if every id is called once and then
   returns once. Positions, kinds, values and clients are kept, and so is which events belong together.
   */
  lemma EventsWellFormed<I, O>(events: seq<Event<I, O>>, e: seq<Event<I, O>>, entries: seq<Entry<I, O>>)
    requires Renumbers(events, e) && Converts(e, entries)
    ensures WellFormed(entries) <==> Balanced(events)
    ensures forall j: nat, k: nat | j < |events| && k < |events| ::
            entries[j].id == entries[k].id <==> events[j].id == events[k].id
    ensures |entries| == |events| && forall k: nat | k < |events| :: Keeps(events[k], entries[k], k)
  {
    hide Seen, Number, HasBoth, HasPartner;
    forall j: nat, k: nat | j < |events| && k < |events|
      ensures entries[j].id == entries[k].id <==> events[j].id == events[k].id
      ensures entries[j].id < |Seen(Ids(events), |events|)|
    {
      SameIds(events, e, entries, j, k);
    }
    if Balanced(events) {
      HalfAsManyIds(events);
      forall n: nat | n < |entries| / 2 ensures HasBoth(entries, n) { NumberHasBoth(events, e, entries, n); }
    }
    if WellFormed(entries) {
      forall k: nat | k < |events| ensures HasPartner(events, k) { EntryHasPartner(events, e, entries, k); }
    }
  }

  lemma EntryHasPartner<I, O>(events: seq<Event<I, O>>, e: seq<Event<I, O>>, entries: seq<Entry<I, O>>, k: nat)
    requires Renumbers(events, e) && Converts(e, entries) && k < |events| && HasBoth(entries, entries[k].id)
    ensures HasPartner(events, k)
  {
    var c: nat :| IsCallOf(entries, c, entries[k].id);
    var r: nat :| IsReturnOf(entries, r, entries[k].id);
    SameIds(events, e, entries, c, k);
    SameIds(events, e, entries, r, k);
    assert Partner(events, if c == k then r else c, k);
  }

  lemma NumberHasBoth<I, O>(events: seq<Event<I, O>>, e: seq<Event<I, O>>, entries: seq<Entry<I, O>>, n: nat)
    requires Balanced(events) && Renumbers(events, e) && Converts(e, entries) && n < |Seen(Ids(events), |events|)|
    ensures HasBoth(entries, n)
  {
    var ids := Ids(events);
    var f := NumbersDense(ids, |ids|, n);
    FirstIsUnique(ids, f);
    assert HasPartner(events, f);
    var j: nat :| Partner(events, j, f);
    assert ids[j] == ids[f];
    assert forall i | 0 <= i < f :: ids[i] in Seen(ids, f);
    assert IsCallOf(entries, f, n) && IsReturnOf(entries, j, n);
  }
}
