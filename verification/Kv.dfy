/** The key-value model handed to the checker, and the key-value store it stands for. */
module Kv {
  import opened Linearizability
  import opened Strings

  /** op is 0 for get, 1 for put, 2 for append, and anything else for append returning the old value. */
  datatype KvInput = KvInput(op: nat, key: string, value: string)
  datatype KvOutput = KvOutput(value: string)

  type KvOps = seq<Operation<KvInput, KvOutput>>

  /** The value of one key: what an operation may answer, and the value it leaves. */
  function KvStep(st: string, inp: KvInput, out: KvOutput): (bool, string) {
    if inp.op == 0 then (out.value == st, st)
    else if inp.op == 1 then (true, inp.value)
    else if inp.op == 2 then (true, st + inp.value)
    else (out.value == st, st + inp.value)
  }

  function KvModel(): Model<string, KvInput, KvOutput> {
    Model("", (s, i, o) => KvStep(s, i, o), (a, b) => a == b)
  }

  /** A store of many keys; a key never written holds the empty string. */
  type Store = map<string, string>

  function Get(st: Store, key: string): string { if key in st then st[key] else "" }

  function StoreStep(st: Store, inp: KvInput, out: KvOutput): (bool, Store) {
    var (ok, v) := KvStep(Get(st, inp.key), inp, out);
    (ok, if inp.op == 0 then st else st[inp.key := v])
  }

  function StoreModel(): Model<Store, KvInput, KvOutput> {
    Model(map[], (s, i, o) => StoreStep(s, i, o), (a, b) => a == b)
  }

  lemma ModelsBisimulate()
    ensures EqualIsBisimulation(KvModel()) && EqualIsBisimulation(StoreModel())
  {
  }

  /** The operations of a history on one key, in history order. */
  function OfKey(h: KvOps, key: string): KvOps {
    if h == [] then []
    else OfKey(h[..|h| - 1], key) + if h[|h| - 1].input.key == key then [h[|h| - 1]] else []
  }

  ghost function Keys(h: KvOps): set<string> { set x | x in h :: x.input.key }

  lemma OfKeyStep(h: KvOps, v: Operation<KvInput, KvOutput>)
    ensures Keys(h + [v]) == Keys(h) + {v.input.key}
    ensures forall k :: OfKey(h + [v], k) == OfKey(h, k) + if v.input.key == k then [v] else []
  {
    assert (h + [v])[..|h|] == h;
    assert v in h + [v];
    assert forall x | x in h :: x in h + [v];
  }

  /** The first loop of Partition. */
  method GroupByKey(history: KvOps) returns (m: map<string, KvOps>)
    ensures m.Keys == Keys(history)
    ensures forall k | k in m :: m[k] == OfKey(history, k)
  {
    m := map[];
    for i := 0 to |history|
      invariant m.Keys == Keys(history[..i])
      invariant forall k | k in m :: m[k] == OfKey(history[..i], k)
    {
      hide OfKey;
      var v := history[i];
      var key := v.input.key;
      OfKeyStep(history[..i], v);
      assert history[..i + 1] == history[..i] + [v];
      if key !in m { NoneOfKey(history[..i], key); }
      m := m[key := (if key in m then m[key] else []) + [v]];
    }
    assert history[..|history|] == history;
  }

  /** The keys of a map in increasing order, whatever order they are met in. */
  method SortedKeys(m: map<string, KvOps>) returns (keys: seq<string>)
    ensures StrictlySorted(keys) && forall k :: k in keys <==> k in m
  {
    keys := [];
    var rest := m.Keys;
    while rest != {}
      invariant StrictlySorted(keys) && rest <= m.Keys
      invariant forall k :: k in keys <==> k in m && k !in rest
      decreases |rest|
    {
      hide StrictlySorted;
      var k :| k in rest;
      keys := InsertSorted(keys, k);
      rest := rest - {k};
    }
  }

  lemma {:induction false} OfKeyHasKey(h: KvOps, key: string)
    requires key in Keys(h)
    ensures OfKey(h, key) != [] && OfKey(h, key)[0].input.key == key
  {
    var t, v := h[..|h| - 1], h[|h| - 1];
    assert h == t + [v];
    OfKeyStep(t, v);
    if key in Keys(t) { OfKeyHasKey(t, key); } else { NoneOfKey(t, key); }
  }

  /** The key that a part is about. */
  function KeyOf(part: KvOps): string { if part == [] then "" else part[0].input.key }

  function KeysOf(parts: seq<KvOps>): seq<string> { seq(|parts|, i requires 0 <= i < |parts| => KeyOf(parts[i])) }

  /** The parts are the operations on each key of the history, keys in increasing order. */
  ghost predicate IsPartition(history: KvOps, parts: seq<KvOps>) {
    && (forall i | 0 <= i < |parts| :: parts[i] != [] && parts[i] == OfKey(history, KeyOf(parts[i])))
    && StrictlySorted(KeysOf(parts))
    && (forall k :: k in KeysOf(parts) <==> k in Keys(history))
  }

  method Partition(history: KvOps) returns (parts: seq<KvOps>)
    ensures IsPartition(history, parts)
  {
    var m := GroupByKey(history);
    var keys := SortedKeys(m);
    hide OfKey, StrictlySorted;
    parts := [];
    for i := 0 to |keys|
      invariant |parts| == i
      invariant forall j | 0 <= j < i ::
                parts[j] != [] && KeyOf(parts[j]) == keys[j] && parts[j] == OfKey(history, keys[j])
    {
      assert keys[i] in m;
      OfKeyHasKey(history, keys[i]);
      parts := parts + [m[keys[i]]];
    }
    assert KeysOf(parts) == keys;
  }

  lemma {:induction false} NoneOfKey(h: KvOps, key: string)
    requires key !in Keys(h)
    ensures OfKey(h, key) == []
  {
    if h != [] {
      var t := h[..|h| - 1];
      assert forall x | x in t :: x in h;
      assert h[|h| - 1] in h;
      NoneOfKey(t, key);
    }
  }
}
