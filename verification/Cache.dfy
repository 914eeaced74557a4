/**
 The memo cache of the checker: (bitset, state) entries bucketed by the bitset's hash,
 as a refinement of a plain collection of (set, state) pairs.
 */
module Cache {
  import opened Bitset
  import opened Linearizability

  datatype CacheEntry<S> = CacheEntry(linearized: array<Word>, state: S)

  type Buckets<S> = map<Word, seq<CacheEntry<S>>>

  ghost function Arrays<S>(cache: Buckets<S>): set<array<Word>> {
    set h, k: nat | h in cache && k < |cache[h]| :: cache[h][k].linearized
  }

  ghost function PairOf<S>(e: CacheEntry<S>): (set<nat>, S)
    reads e.linearized
  {
    (Members(e.linearized[..]), e.state)
  }

  /** Entry k of bucket h is the pair p. */
  ghost predicate Stored<S>(cache: Buckets<S>, h: Word, k: nat, p: (set<nat>, S))
    reads Arrays(cache)
  {
    h in cache && k < |cache[h]| && PairOf(cache[h][k]) == p
  }

  /** The buckets hold exactly the pairs, every entry in the bucket of its own hash. */
  ghost predicate Refines<S>(cache: Buckets<S>, len: nat, pairs: seq<(set<nat>, S)>)
    reads Arrays(cache)
  {
    && (forall h, k: nat | h in cache && k < |cache[h]| ::
          && cache[h][k].linearized.Length == len
          && HashOf(cache[h][k].linearized[..]) == h
          && PairOf(cache[h][k]) in pairs)
    && (forall p | p in pairs :: exists h: Word, k: nat :: Stored(cache, h, k, p))
  }

  /** A pair with the same positions as a word array is stored in the bucket of that array's hash. */
  lemma SameBucket<S>(cache: Buckets<S>, len: nat, pairs: seq<(set<nat>, S)>, ws: seq<Word>, p: (set<nat>, S))
    requires Refines(cache, len, pairs) && |ws| == len && p in pairs && p.0 == Members(ws)
    ensures HashOf(ws) in cache && exists k: nat :: Stored(cache, HashOf(ws), k, p)
  {
    var h: Word, k: nat :| Stored(cache, h, k, p);
    MembersInjective(cache[h][k].linearized[..], ws);
  }

  lemma BucketDecides<S, I, O>(model: Model<S, I, O>, cache: Buckets<S>, entry: CacheEntry<S>,
      pairs: seq<(set<nat>, S)>, bucket: seq<CacheEntry<S>>)
    requires Refines(cache, entry.linearized.Length, pairs)
    requires bucket == if HashOf(entry.linearized[..]) in cache then cache[HashOf(entry.linearized[..])] else []
    ensures (exists k | 0 <= k < |bucket| ::
            Matches(model, Members(entry.linearized[..]), entry.state, PairOf(bucket[k])))
            <==> exists p | p in pairs :: Matches(model, Members(entry.linearized[..]), entry.state, p)
  {
    var members := Members(entry.linearized[..]);
    forall p | p in pairs && Matches(model, members, entry.state, p)
      ensures exists k | 0 <= k < |bucket| :: Matches(model, members, entry.state, PairOf(bucket[k]))
    {
      SameBucket(cache, entry.linearized.Length, pairs, entry.linearized[..], p);
      var k: nat :| Stored(cache, HashOf(entry.linearized[..]), k, p);
      assert Matches(model, members, entry.state, PairOf(bucket[k]));
    }
    forall k | 0 <= k < |bucket| ensures PairOf(bucket[k]) in pairs {
      assert bucket[k] == cache[HashOf(entry.linearized[..])][k];
    }
  }

  method BucketContains<S, I, O>(model: Model<S, I, O>, bucket: seq<CacheEntry<S>>, entry: CacheEntry<S>)
      returns (r: bool)
    requires forall k | 0 <= k < |bucket| :: bucket[k].linearized.Length == entry.linearized.Length
    ensures r <==> exists k | 0 <= k < |bucket| ::
            Matches(model, Members(entry.linearized[..]), entry.state, PairOf(bucket[k]))
  {
    for i := 0 to |bucket|
      invariant forall k | 0 <= k < i :: !Matches(model, Members(entry.linearized[..]), entry.state, PairOf(bucket[k]))
    {
      var elem := bucket[i];
      var same := Equals(entry.linearized, elem.linearized);
      if same && model.equal(entry.state, elem.state) {
        assert Matches(model, Members(entry.linearized[..]), entry.state, PairOf(bucket[i]));
        return true;
      }
    }
    return false;
  }

  /** True exactly when an equal pair was put in before. */
  method CacheContains<S, I, O>(model: Model<S, I, O>, cache: Buckets<S>, entry: CacheEntry<S>,
      ghost pairs: seq<(set<nat>, S)>) returns (r: bool)
    requires Refines(cache, entry.linearized.Length, pairs)
    ensures r <==> exists p | p in pairs :: Matches(model, Members(entry.linearized[..]), entry.state, p)
  {
    ghost var h0 := HashOf(entry.linearized[..]);
    BucketDecides(model, cache, entry, pairs, if h0 in cache then cache[h0] else []);
    var h := Hash(entry.linearized);
    var bucket := if h in cache then cache[h] else [];
    r := BucketContains(model, bucket, entry);
  }

  function Inserted<S>(cache: Buckets<S>, h: Word, e: CacheEntry<S>): Buckets<S> {
    cache[h := (if h in cache then cache[h] else []) + [e]]
  }

  lemma InsertArrays<S>(cache: Buckets<S>, h: Word, e: CacheEntry<S>)
    ensures Arrays(Inserted(cache, h, e)) == Arrays(cache) + {e.linearized}
  {
    var c := Inserted(cache, h, e);
    assert c[h][|c[h]| - 1] == e;
    forall a | a in Arrays(cache) ensures a in Arrays(c) {
      var g, k: nat :| g in cache && k < |cache[g]| && cache[g][k].linearized == a;
      assert c[g][k].linearized == a;
    }
  }

  /** Appending an entry to the bucket of its hash adds one pair and loses none. */
  lemma InsertRefines<S>(cache: Buckets<S>, h: Word, e: CacheEntry<S>, pairs: seq<(set<nat>, S)>)
    requires Refines(cache, e.linearized.Length, pairs) && HashOf(e.linearized[..]) == h
    ensures Refines(Inserted(cache, h, e), e.linearized.Length, pairs + [PairOf(e)])
  {
    var c := Inserted(cache, h, e);
    var n := |c[h]| - 1;
    assert c[h][n] == e;
    forall g, k: nat | g in c && k < |c[g]| && (g != h || k != n)
      ensures g in cache && k < |cache[g]| && c[g][k] == cache[g][k] {}
    forall p | p in pairs + [PairOf(e)] ensures exists g: Word, k: nat :: Stored(c, g, k, p) {
      if p in pairs {
        var g: Word, k: nat :| Stored(cache, g, k, p);
        assert Stored(c, g, k, p);
      } else {
        assert Stored(c, h, n, p);
      }
    }
  }
}
