/**
 What MapReduce computes: the sequential run sorts all pairs and reduces each key once; the
 distributed run does the same to each bucket. A file is a sequence of pairs.
 */
module MapReduce {
  import opened Collections
  import opened Strings

  datatype KeyValue = KeyValue(key: string, value: string)

  /** A line of output: a key and what reducef made of its values. */
  datatype Line = Line(key: string, output: string)

  type Reducer = (string, seq<string>) -> string

  /** reducef does not depend on the order of the values. */
  ghost predicate OrderInsensitive(reducef: Reducer) {
    forall k, a, b | multiset(a) == multiset(b) :: reducef(k, a) == reducef(k, b)
  }

  ghost predicate SortedByKey(kva: seq<KeyValue>) {
    forall i, j | 0 <= i < j < |kva| :: StrLe(kva[i].key, kva[j].key)
  }

  /** What a sort by key may leave. */
  ghost predicate IsSortOf(kva: seq<KeyValue>, pairs: multiset<KeyValue>) {
    SortedByKey(kva) && multiset(kva) == pairs
  }

  /* ---- grouping ---- */

  /** Where the run of pairs with the key of the first ends, looking from j on. */
  function RunEnd(kva: seq<KeyValue>, j: nat): (e: nat)
    requires 1 <= j <= |kva|
    ensures j <= e <= |kva|
    ensures forall i | j <= i < e :: kva[i].key == kva[0].key
    ensures e < |kva| ==> kva[e].key != kva[0].key
    decreases |kva| - j
  {
    if j < |kva| && kva[j].key == kva[0].key then RunEnd(kva, j + 1) else j
  }

  function ValuesOf(kva: seq<KeyValue>): seq<string> {
    seq(|kva|, i requires 0 <= i < |kva| => kva[i].value)
  }

  /** One line for each run of equal keys. */
  function GroupLines(reducef: Reducer, kva: seq<KeyValue>): seq<Line>
    decreases |kva|
  {
    if kva == [] then []
    else
      var j := RunEnd(kva, 1);
      [Line(kva[0].key, reducef(kva[0].key, ValuesOf(kva[..j])))] + GroupLines(reducef, kva[j..])
  }

  method CollectValues(kva: seq<KeyValue>, i: nat, j: nat) returns (values: seq<string>)
    requires i <= j <= |kva|
    ensures values == ValuesOf(kva[i..j])
  {
    values := [];
    for k := i to j
      invariant values == ValuesOf(kva[i..k])
    {
      values := values + [kva[k].value];
    }
  }

  /** The inner loop: where the run of pairs with the key at i ends. */
  method FindRunEnd(kva: seq<KeyValue>, i: nat) returns (j: nat)
    requires i < |kva|
    ensures i < j <= |kva| && j - i == RunEnd(kva[i..], 1)
  {
    j := i + 1;
    while j < |kva| && kva[j].key == kva[i].key
      invariant i < j <= |kva|
      invariant RunEnd(kva[i..], j - i) == RunEnd(kva[i..], 1)
    {
      j := j + 1;
    }
  }

  lemma GroupFirst(reducef: Reducer, kva: seq<KeyValue>, i: nat, j: nat)
    requires i < j <= |kva| && j - i == RunEnd(kva[i..], 1)
    ensures GroupLines(reducef, kva[i..])
            == [Line(kva[i].key, reducef(kva[i].key, ValuesOf(kva[i..j])))] + GroupLines(reducef, kva[j..])
  {
    assert kva[i..][..j - i] == kva[i..j] && kva[i..][j - i..] == kva[j..];
  }

  /** The loop shared by the sequential run and the reduce worker. */
  method GroupReduce(reducef: Reducer, kva: seq<KeyValue>) returns (lines: seq<Line>)
    ensures lines == GroupLines(reducef, kva)
  {
    lines := [];
    var i := 0;
    assert kva[0..] == kva;
    while i < |kva|
      invariant 0 <= i <= |kva|
      invariant lines + GroupLines(reducef, kva[i..]) == GroupLines(reducef, kva)
    {
      hide GroupLines, ValuesOf, RunEnd;
      var j := FindRunEnd(kva, i);
      var values := CollectValues(kva, i, j);
      var output := reducef(kva[i].key, values);
      GroupFirst(reducef, kva, i, j);
      var line := Line(kva[i].key, output);
      ghost var rest := GroupLines(reducef, kva[j..]);
      assert lines + ([line] + rest) == (lines + [line]) + rest;
      lines := lines + [line];
      i := j;
    }
    assert kva[i..] == [];
  }

  /* ---- what grouping means on sorted pairs ---- */

  /** The values of one key, in order. */
  function Values(kva: seq<KeyValue>, key: string): seq<string> {
    if kva == [] then []
    else Values(kva[..|kva| - 1], key) + if kva[|kva| - 1].key == key then [kva[|kva| - 1].value] else []
  }

  ghost predicate HasKey(kva: seq<KeyValue>, key: string) {
    exists i :: 0 <= i < |kva| && kva[i].key == key
  }

  lemma {:induction false} ValuesConcat(a: seq<KeyValue>, b: seq<KeyValue>, key: string)
    ensures Values(a + b, key) == Values(a, key) + Values(b, key)
  {
    if b == [] {
      assert a + b == a;
    } else {
      hide Values;
      var t, v := b[..|b| - 1], b[|b| - 1];
      ValuesConcat(a, t, key);
      ValuesAppend(t, v, key);
      ValuesAppend(a + t, v, key);
      assert t + [v] == b;
      ConcatAssociates(a, t, [v]);
      ConcatAssociates(Values(a, key), Values(t, key), if v.key == key then [v.value] else []);
    }
  }

  lemma ConcatAssociates<T>(a: seq<T>, b: seq<T>, c: seq<T>)
    ensures (a + b) + c == a + (b + c)
  {
  }

  lemma ValuesAppend(a: seq<KeyValue>, v: KeyValue, key: string)
    ensures Values(a + [v], key) == Values(a, key) + if v.key == key then [v.value] else []
  {
    assert (a + [v])[..|a|] == a;
  }

  lemma {:induction false} ValuesAll(a: seq<KeyValue>, key: string)
    ensures (forall i | 0 <= i < |a| :: a[i].key == key) ==> Values(a, key) == ValuesOf(a)
    ensures (forall i | 0 <= i < |a| :: a[i].key != key) ==> Values(a, key) == []
  {
    if a != [] { ValuesAll(a[..|a| - 1], key); }
  }

  /** In sorted pairs, the keys after the first run are greater than its key. */
  lemma RunSplits(kva: seq<KeyValue>)
    requires kva != [] && SortedByKey(kva)
    ensures var j := RunEnd(kva, 1);
            && (forall i | 0 <= i < j :: kva[i].key == kva[0].key)
            && (forall i | j <= i < |kva| :: StrLe(kva[0].key, kva[i].key) && kva[i].key != kva[0].key)
            && SortedByKey(kva[j..])
  {
    var j := RunEnd(kva, 1);
    forall i | j <= i < |kva| ensures StrLe(kva[0].key, kva[i].key) && kva[i].key != kva[0].key {
      if kva[i].key == kva[0].key {
        assert StrLe(kva[0].key, kva[j].key);
        assert i > j ==> StrLe(kva[j].key, kva[i].key);
        StrLeTotal(kva[0].key, kva[j].key);
      }
    }
  }

  lemma HasKeySplit(a: seq<KeyValue>, b: seq<KeyValue>, key: string)
    ensures HasKey(a + b, key) <==> HasKey(a, key) || HasKey(b, key)
  {
    if HasKey(a, key) { var i :| 0 <= i < |a| && a[i].key == key; assert (a + b)[i].key == key; }
    if HasKey(b, key) { var i :| 0 <= i < |b| && b[i].key == key; assert (a + b)[|a| + i].key == key; }
    if HasKey(a + b, key) {
      var i :| 0 <= i < |a + b| && (a + b)[i].key == key;
      if i < |a| { assert a[i].key == key; } else { assert b[i - |a|].key == key; }
    }
  }

  lemma RunValues(kva: seq<KeyValue>, key: string)
    requires kva != [] && SortedByKey(kva)
    ensures var j := RunEnd(kva, 1);
            && Values(kva, key) == (if key == kva[0].key then ValuesOf(kva[..j]) else Values(kva[j..], key))
            && (HasKey(kva, key) <==> key == kva[0].key || HasKey(kva[j..], key))
            && !HasKey(kva[j..], kva[0].key)
  {
    hide SortedByKey;
    var j := RunEnd(kva, 1);
    RunSplits(kva);
    var a, b := kva[..j], kva[j..];
    assert kva == a + b;
    assert forall i | 0 <= i < |b| :: b[i] == kva[j + i];
    assert forall i | 0 <= i < |a| :: a[i].key == kva[0].key;
    PrefixValues(a, b, kva[0].key, key);
  }

  /** If all of a has key k and none of b has, the values of a key are all in a or all in b. */
  lemma PrefixValues(a: seq<KeyValue>, b: seq<KeyValue>, k: string, key: string)
    requires a != [] && (forall i | 0 <= i < |a| :: a[i].key == k) && (forall i | 0 <= i < |b| :: b[i].key != k)
    ensures Values(a + b, key) == if key == k then ValuesOf(a) else Values(b, key)
    ensures HasKey(a + b, key) <==> key == k || HasKey(b, key)
    ensures !HasKey(b, k)
  {
    hide Values, ValuesOf;
    ValuesConcat(a, b, key);
    ValuesAll(a, key);
    ValuesAll(b, k);
    HasKeySplit(a, b, key);
    assert HasKey(a, k) by { assert a[0].key == k; }
    assert ValuesOf(a) + [] == ValuesOf(a) && [] + Values(b, key) == Values(b, key);
  }

  /** lines are one for each key of kva, in increasing order, made of all the key's values. */
  ghost predicate Reduces(reducef: Reducer, kva: seq<KeyValue>, lines: seq<Line>) {
    && (forall n | 0 <= n < |lines| ::
       HasKey(kva, lines[n].key) && lines[n].output == reducef(lines[n].key, Values(kva, lines[n].key)))
    && (forall key | HasKey(kva, key) :: exists n :: 0 <= n < |lines| && lines[n].key == key)
    && (forall m, n | 0 <= m < n < |lines| :: StrLe(lines[m].key, lines[n].key) && lines[m].key != lines[n].key)
  }

  /** Grouping sorted pairs reduces every key exactly once, with all its values. */
  lemma {:induction false} GroupingReduces(reducef: Reducer, kva: seq<KeyValue>)
    requires SortedByKey(kva)
    ensures Reduces(reducef, kva, GroupLines(reducef, kva))
    decreases |kva|
  {
    if kva != [] {
      var j := RunEnd(kva, 1);
      RunSplits(kva);
      GroupingReduces(reducef, kva[j..]);
      GroupStep(reducef, kva, GroupLines(reducef, kva[j..]));
    }
  }

  lemma GroupStep(reducef: Reducer, kva: seq<KeyValue>, rest: seq<Line>)
    requires kva != [] && SortedByKey(kva) && Reduces(reducef, kva[RunEnd(kva, 1)..], rest)
    ensures Reduces(reducef, kva, [Line(kva[0].key, reducef(kva[0].key, ValuesOf(kva[..RunEnd(kva, 1)])))] + rest)
  {
    hide SortedByKey, Values, ValuesOf, HasKey, StrLe;
    var j := RunEnd(kva, 1);
    var lines := [Line(kva[0].key, reducef(kva[0].key, ValuesOf(kva[..j])))] + rest;
    forall n | 0 <= n < |lines|
      ensures HasKey(kva, lines[n].key) && lines[n].output == reducef(lines[n].key, Values(kva, lines[n].key))
    {
      RunValues(kva, lines[n].key);
      if n > 0 { assert lines[n] == rest[n - 1]; }
    }
    forall key | HasKey(kva, key) ensures exists n :: 0 <= n < |lines| && lines[n].key == key {
      RunValues(kva, key);
      if key == kva[0].key { assert lines[0].key == key; }
      else { var n :| 0 <= n < |rest| && rest[n].key == key; assert lines[n + 1].key == key; }
    }
    forall m, n | 0 <= m < n < |lines| ensures StrLe(lines[m].key, lines[n].key) && lines[m].key != lines[n].key {
      assert lines[n] == rest[n - 1];
      if m > 0 { assert lines[m] == rest[m - 1]; } else { LaterKey(kva, rest[n - 1].key); }
    }
  }

  lemma LaterKey(kva: seq<KeyValue>, key: string)
    requires kva != [] && SortedByKey(kva) && HasKey(kva[RunEnd(kva, 1)..], key)
    ensures StrLe(kva[0].key, key) && key != kva[0].key
  {
    var j := RunEnd(kva, 1);
    RunSplits(kva);
    var i :| 0 <= i < |kva[j..]| && kva[j..][i].key == key;
    assert kva[j + i].key == key;
  }

  /* ---- buckets ---- */

  /** A job: the pairs mapf makes of each file, and how they are spread and reduced. */
  datatype Job = Job(mapped: seq<seq<KeyValue>>, nReduce: nat, hash: string -> nat, reducef: Reducer)

  function BucketNumber(job: Job, key: string): (r: nat)
    requires job.nReduce > 0
    ensures r < job.nReduce
  {
    job.hash(key) % job.nReduce
  }

  lemma BucketNumberIs(job: Job, key: string)
    requires job.nReduce > 0
    ensures BucketNumber(job, key) == job.hash(key) % job.nReduce
  {
  }

  /** The pairs that go to reduce task r. */
  function Bucket(job: Job, kva: seq<KeyValue>, r: nat): seq<KeyValue>
    requires job.nReduce > 0
  {
    if kva == [] then []
    else Bucket(job, kva[..|kva| - 1], r) + if BucketNumber(job, kva[|kva| - 1].key) == r then [kva[|kva| - 1]] else []
  }

  /** The write loop of a map worker: each pair goes to the temporary file of its bucket. */
  method Bucketize(job: Job, kva: seq<KeyValue>) returns (files: array<seq<KeyValue>>)
    requires job.nReduce > 0
    ensures fresh(files) && files.Length == job.nReduce
    ensures forall r: nat | r < job.nReduce :: files[r] == Bucket(job, kva, r)
    ensures forall r: nat, x: KeyValue | r < job.nReduce ::
              multiset(files[r])[x] == if job.hash(x.key) % job.nReduce == r then multiset(kva)[x] else 0
  {
    files := new seq<KeyValue>[job.nReduce](i => []);
    for i := 0 to |kva|
      invariant forall r: nat | r < job.nReduce :: files[r] == Bucket(job, kva[..i], r)
    {
      var onekv := kva[i];
      var n := BucketNumber(job, onekv.key);
      assert kva[..i + 1][..i] == kva[..i];
      files[n] := files[n] + [onekv];
    }
    assert kva[..|kva|] == kva;
    forall r: nat, x: KeyValue | r < job.nReduce
      ensures multiset(files[r])[x] == if job.hash(x.key) % job.nReduce == r then multiset(kva)[x] else 0
    {
      BucketCounts(job, kva, r, x);
    }
  }

  function Flatten<T>(ss: seq<seq<T>>): seq<T> {
    if ss == [] then [] else Flatten(ss[..|ss| - 1]) + ss[|ss| - 1]
  }

  lemma {:induction false} BucketCounts(job: Job, kva: seq<KeyValue>, r: nat, x: KeyValue)
    requires job.nReduce > 0
    ensures multiset(Bucket(job, kva, r))[x] == if job.hash(x.key) % job.nReduce == r then multiset(kva)[x] else 0
  {
    if kva != [] {
      BucketCounts(job, kva[..|kva| - 1], r, x);
      assert kva == kva[..|kva| - 1] + [kva[|kva| - 1]];
    }
  }

  lemma {:induction false} ValueCounts(kva: seq<KeyValue>, key: string, v: string)
    ensures multiset(Values(kva, key))[v] == multiset(kva)[KeyValue(key, v)]
  {
    if kva != [] {
      ValueCounts(kva[..|kva| - 1], key, v);
      assert kva == kva[..|kva| - 1] + [kva[|kva| - 1]];
    }
  }

  /** Buckets depend on the pairs, not on their order. */
  lemma SameBucket(job: Job, a: seq<KeyValue>, b: seq<KeyValue>, r: nat)
    requires job.nReduce > 0 && multiset(a) == multiset(b)
    ensures multiset(Bucket(job, a, r)) == multiset(Bucket(job, b, r))
  {
    forall x ensures multiset(Bucket(job, a, r))[x] == multiset(Bucket(job, b, r))[x] {
      BucketCounts(job, a, r, x);
      BucketCounts(job, b, r, x);
    }
  }

  lemma {:induction false} BucketConcat(job: Job, a: seq<KeyValue>, b: seq<KeyValue>, r: nat)
    requires job.nReduce > 0
    ensures Bucket(job, a + b, r) == Bucket(job, a, r) + Bucket(job, b, r)
  {
    if b == [] {
      assert a + b == a;
    } else {
      BucketConcat(job, a, b[..|b| - 1], r);
      assert (a + b)[..|a + b| - 1] == a + b[..|b| - 1];
    }
  }

  /** Reading bucket r of every file gives, in some order, bucket r of all the pairs. */
  lemma {:induction false} FilesMakeBucket(job: Job, mapped: seq<seq<KeyValue>>, read: seq<seq<KeyValue>>, r: nat)
    requires job.nReduce > 0 && |read| == |mapped|
    requires forall m | 0 <= m < |read| :: multiset(read[m]) == multiset(Bucket(job, mapped[m], r))
    ensures multiset(Flatten(read)) == multiset(Bucket(job, Flatten(mapped), r))
  {
    if read != [] {
      var n := |read| - 1;
      FilesMakeBucket(job, mapped[..n], read[..n], r);
      BucketConcat(job, Flatten(mapped[..n]), mapped[n], r);
    }
  }

  /* ---- the distributed run refines the sequential one ---- */

  lemma HasKeyIffPair(kva: seq<KeyValue>, key: string)
    ensures HasKey(kva, key) <==> exists v :: KeyValue(key, v) in multiset(kva)
  {
    if HasKey(kva, key) {
      var i :| 0 <= i < |kva| && kva[i].key == key;
      assert kva[i] == KeyValue(key, kva[i].value);
      assert KeyValue(key, kva[i].value) in multiset(kva);
    }
    if exists v :: KeyValue(key, v) in multiset(kva) {
      var v :| KeyValue(key, v) in multiset(kva);
      var i :| 0 <= i < |kva| && kva[i] == KeyValue(key, v);
    }
  }

  /** A key's values meet again, all of them, in the one bucket the key belongs to, and nowhere else. */
  lemma BucketHasAllValues(job: Job, whole: seq<KeyValue>, part: seq<KeyValue>, r: nat, key: string)
    requires job.nReduce > 0 && multiset(part) == multiset(Bucket(job, whole, r))
    ensures BucketNumber(job, key) == r ==> multiset(Values(part, key)) == multiset(Values(whole, key))
    ensures HasKey(part, key) <==> HasKey(whole, key) && BucketNumber(job, key) == r
  {
    hide Values, HasKey, Bucket, BucketNumber;
    BucketNumberIs(job, key);
    forall v
      ensures multiset(part)[KeyValue(key, v)]
              == if BucketNumber(job, key) == r then multiset(whole)[KeyValue(key, v)] else 0
    {
      BucketCounts(job, whole, r, KeyValue(key, v));
    }
    if BucketNumber(job, key) == r {
      forall v ensures multiset(Values(part, key))[v] == multiset(Values(whole, key))[v] {
        ValueCounts(part, key, v);
        ValueCounts(whole, key, v);
      }
    }
    HasKeyIffPair(part, key);
    HasKeyIffPair(whole, key);
    if HasKey(whole, key) && BucketNumber(job, key) == r {
      var v :| KeyValue(key, v) in multiset(whole);
      assert KeyValue(key, v) in multiset(part);
    }
    if HasKey(part, key) {
      var v :| KeyValue(key, v) in multiset(part);
      assert multiset(part)[KeyValue(key, v)] > 0;
    }
  }

  lemma {:induction false} FlattenElements<T>(ss: seq<seq<T>>)
    ensures forall x :: x in Flatten(ss) <==> exists i :: 0 <= i < |ss| && x in ss[i]
  {
    if ss != [] {
      var n := |ss| - 1;
      FlattenElements(ss[..n]);
      forall x ensures x in Flatten(ss) <==> exists i :: 0 <= i < |ss| && x in ss[i] {
        if x in Flatten(ss[..n]) { var i :| 0 <= i < n && x in ss[..n][i]; assert x in ss[i]; }
        if i :| 0 <= i < |ss| && x in ss[i] { if i < n { assert x in ss[..n][i]; } }
      }
    }
  }

  lemma DistinctConcat<T>(a: seq<T>, b: seq<T>)
    requires Distinct(a) && Distinct(b) && forall x | x in a :: x !in b
    ensures Distinct(a + b)
  {
    forall i, j | 0 <= i < j < |a + b| ensures (a + b)[i] != (a + b)[j] {
      if i < |a| <= j { assert (a + b)[i] in a && (a + b)[j] in b; }
    }
  }

  lemma {:induction false} FlattenDistinct<T>(ss: seq<seq<T>>)
    requires forall i | 0 <= i < |ss| :: Distinct(ss[i])
    requires forall i, j, x | 0 <= i < j < |ss| && x in ss[i] :: x !in ss[j]
    ensures Distinct(Flatten(ss))
  {
    if ss != [] {
      var n := |ss| - 1;
      FlattenDistinct(ss[..n]);
      FlattenElements(ss[..n]);
      DistinctConcat(Flatten(ss[..n]), ss[n]);
    }
  }

  lemma SameMultiset<T>(a: seq<T>, b: seq<T>)
    requires Distinct(a) && Distinct(b) && forall x :: x in a <==> x in b
    ensures multiset(a) == multiset(b)
  {
    DistinctCounts(a);
    DistinctCounts(b);
    forall x ensures multiset(a)[x] == multiset(b)[x] {
      assert x in a <==> x in multiset(a);
      assert x in b <==> x in multiset(b);
    }
  }

  /** outs are the outputs of the reduce tasks, each from some sorted order of its bucket. */
  ghost predicate ReduceOutputs(job: Job, parts: seq<seq<KeyValue>>, outs: seq<seq<Line>>)
    requires job.nReduce > 0
  {
    && |parts| == |outs| == job.nReduce
    && forall r | 0 <= r < |outs| ::
       IsSortOf(parts[r], multiset(Bucket(job, Flatten(job.mapped), r))) && outs[r] == GroupLines(job.reducef, parts[r])
  }

  /** A line of reduce task r is a line of the sequential run, and it has the keys of bucket r. */
  lemma LineIsSequential(job: Job, part: seq<KeyValue>, whole: seq<KeyValue>, r: nat, l: Line)
    requires job.nReduce > 0 && OrderInsensitive(job.reducef) && SortedByKey(part) && SortedByKey(whole)
    requires multiset(part) == multiset(Bucket(job, whole, r))
    ensures l in GroupLines(job.reducef, part) <==> l in GroupLines(job.reducef, whole) && BucketNumber(job, l.key) == r
  {
    hide GroupLines, SortedByKey, Values, HasKey;
    GroupingReduces(job.reducef, part);
    GroupingReduces(job.reducef, whole);
    BucketHasAllValues(job, whole, part, r, l.key);
    LineIff(job.reducef, part, GroupLines(job.reducef, part), l);
    LineIff(job.reducef, whole, GroupLines(job.reducef, whole), l);
  }

  lemma LineIff(reducef: Reducer, kva: seq<KeyValue>, lines: seq<Line>, l: Line)
    requires Reduces(reducef, kva, lines)
    ensures l in lines <==> HasKey(kva, l.key) && l.output == reducef(l.key, Values(kva, l.key))
  {
    if HasKey(kva, l.key) {
      var n :| 0 <= n < |lines| && lines[n].key == l.key;
      assert lines[n] in lines;
    }
  }

  lemma LinesDistinct(reducef: Reducer, kva: seq<KeyValue>)
    requires SortedByKey(kva)
    ensures Distinct(GroupLines(reducef, kva))
  {
    GroupingReduces(reducef, kva);
  }

  lemma OutMembers(job: Job, parts: seq<seq<KeyValue>>, outs: seq<seq<Line>>, sequential: seq<KeyValue>, r: nat)
    requires job.nReduce > 0 && OrderInsensitive(job.reducef) && ReduceOutputs(job, parts, outs) && r < job.nReduce
    requires IsSortOf(sequential, multiset(Flatten(job.mapped)))
    ensures r < |outs| && Distinct(outs[r])
    ensures forall l :: l in outs[r] <==> l in GroupLines(job.reducef, sequential) && BucketNumber(job, l.key) == r
  {
    hide GroupLines, OrderInsensitive, SortedByKey, Bucket;
    SameBucket(job, Flatten(job.mapped), sequential, r);
    forall l ensures l in outs[r] <==> l in GroupLines(job.reducef, sequential) && BucketNumber(job, l.key) == r {
      LineIsSequential(job, parts[r], sequential, r, l);
    }
    LinesDistinct(job.reducef, parts[r]);
  }

  /** The outputs of the reduce tasks, put together, are the lines of the sequential run, up to order. */
  lemma DistributedIsSequential(job: Job, parts: seq<seq<KeyValue>>, outs: seq<seq<Line>>, sequential: seq<KeyValue>)
    requires job.nReduce > 0 && OrderInsensitive(job.reducef) && ReduceOutputs(job, parts, outs)
    requires IsSortOf(sequential, multiset(Flatten(job.mapped)))
    ensures multiset(Flatten(outs)) == multiset(GroupLines(job.reducef, sequential))
    ensures forall l, r | l in GroupLines(job.reducef, sequential) && 0 <= r < |outs| ::
            l in outs[r] <==> r == job.hash(l.key) % job.nReduce
  {
    var lines := GroupLines(job.reducef, sequential);
    assert |outs| == job.nReduce;
    LinesDistinct(job.reducef, sequential);
    hide *;
    forall r: nat | r < |outs|
      ensures Distinct(outs[r])
      ensures forall l :: l in outs[r] <==> l in lines && BucketNumber(job, l.key) == r
    {
      OutMembers(job, parts, outs, sequential, r);
    }
    forall i, j, x | 0 <= i < j < |outs| && x in outs[i] ensures x !in outs[j] {}
    FlattenDistinct(outs);
    FlattenElements(outs);
    forall l | l in lines
      ensures l in Flatten(outs) && BucketNumber(job, l.key) == job.hash(l.key) % job.nReduce
    {
      assert l in outs[BucketNumber(job, l.key)];
      BucketNumberIs(job, l.key);
    }
    SameMultiset(Flatten(outs), lines);
  }
}
