/**
 Leader election among n peers as a step system: elections may start at any time, requests,
 grants and heartbeats may be delayed without bound or lost, and no peer restarts.
 */
module RaftElection {
  import opened Collections
  import opened RaftPeer

  /** A vote asked of, and possibly given by, voter for cand in a term. */
  datatype Ballot = Ballot(cand: nat, term: nat, voter: nat)

  /**
   asks and grants are messages under way. cast, counted and elected record the past: all
   votes ever given, all votes ever counted, and all (peer, term) that ever were leader.
   */
  datatype Cluster = Cluster(
    peers: seq<Peer>, asks: set<Ballot>, grants: set<Ballot>, beats: set<nat>, beating: set<nat>,
    cast: set<Ballot>, counted: set<Ballot>, elected: set<(nat, nat)>)

  function Init(n: nat): Cluster {
    Cluster(seq(n, i => Fresh()), {}, {}, {}, {}, {}, {}, {})
  }

  datatype Step =
    | Elect(s: nat)            // the election timer fires
    | Vote(b: Ballot)          // a request for a vote is handled
    | Count(b: Ballot)         // a granted vote arrives
    | SendBeat(s: nat)         // a heartbeat loop sends its peer's current term
    | StopBeat(s: nat)         // a heartbeat loop finds its peer no longer leader
    | HearBeat(s: nat, term: nat)
    | BeatAnswered(s: nat)

  predicate CanStep(g: Cluster, x: Step) {
    match x
    case Elect(s) => s < |g.peers|
    case Vote(b) => b in g.asks && b.voter < |g.peers|
    case Count(b) => b in g.grants && b.cand < |g.peers|
    case SendBeat(s) => s < |g.peers| && s in g.beating
    case StopBeat(s) => s < |g.peers| && g.peers[s].role != Leader
    case HearBeat(s, term) => s < |g.peers| && term in g.beats
    case BeatAnswered(s) => s < |g.peers|
  }

  function Next(g: Cluster, x: Step): Cluster
    requires CanStep(g, x)
  {
    match x
    case Elect(s) =>
      var p := StartElection(g.peers[s], s);
      g.(peers := g.peers[s := p],
         asks := g.asks + set v: nat | v < |g.peers| && v != s :: Ballot(s, p.term, v),
         cast := g.cast + {Ballot(s, p.term, s)},
         counted := g.counted + {Ballot(s, p.term, s)})
    case Vote(b) =>
      var (p, granted) := HandleVote(g.peers[b.voter], b.term, b.cand);
      g.(peers := g.peers[b.voter := p],
         asks := g.asks - {b},
         grants := if granted then g.grants + {b} else g.grants,
         cast := if granted then g.cast + {b} else g.cast)
    case Count(b) =>
      var p := CountVote(g.peers[b.cand], |g.peers|);
      var won := g.peers[b.cand].role != Leader && p.role == Leader;
      g.(peers := g.peers[b.cand := p],
         grants := g.grants - {b},
         counted := g.counted + {b},
         beating := if won then g.beating + {b.cand} else g.beating,
         elected := if won then g.elected + {(b.cand, p.term)} else g.elected)
    case SendBeat(s) => g.(beats := g.beats + {g.peers[s].term})
    case StopBeat(s) => g.(beating := g.beating - {s})
    case HearBeat(s, term) => g.(peers := g.peers[s := HandleHeartbeat(g.peers[s], term).0])
    case BeatAnswered(s) => g.(peers := g.peers[s := HandleHeartbeatReply(g.peers[s], 0)])
  }

  predicate IsRun(g: Cluster, run: seq<Step>)
    decreases |run|
  {
    run == [] || (CanStep(g, run[0]) && IsRun(Next(g, run[0]), run[1..]))
  }

  function After(g: Cluster, run: seq<Step>): Cluster
    requires IsRun(g, run)
    decreases |run|
  {
    if run == [] then g else After(Next(g, run[0]), run[1..])
  }

  /* ---- what holds of every run ---- */

  lemma StepRaisesTerms(g: Cluster, x: Step, s: nat)
    requires CanStep(g, x) && s < |g.peers|
    ensures |Next(g, x).peers| == |g.peers| && g.peers[s].term <= Next(g, x).peers[s].term
  {
  }

  /** A peer's term never decreases. */
  lemma {:induction false} TermsNeverDecrease(g: Cluster, run: seq<Step>, s: nat)
    requires IsRun(g, run) && s < |g.peers|
    ensures |After(g, run).peers| == |g.peers| && g.peers[s].term <= After(g, run).peers[s].term
    decreases |run|
  {
    if run != [] {
      StepRaisesTerms(g, run[0], s);
      TermsNeverDecrease(Next(g, run[0]), run[1..], s);
    }
  }

  /** A peer's votes in its current term all went to the one it says it voted for. */
  ghost predicate VoteOk(g: Cluster, b: Ballot) {
    && b.voter < |g.peers|
    && b.term <= g.peers[b.voter].term
    && (b.term == g.peers[b.voter].term ==> g.peers[b.voter].votedFor == b.cand)
  }

  ghost predicate OneVotePerTerm(g: Cluster) {
    forall a, b | a in g.cast && b in g.cast && a.voter == b.voter && a.term == b.term :: a.cand == b.cand
  }

  ghost predicate VotesInv(g: Cluster) {
    (forall b | b in g.cast :: VoteOk(g, b)) && OneVotePerTerm(g)
  }

  lemma StepKeepsVotes(g: Cluster, x: Step)
    requires VotesInv(g) && CanStep(g, x)
    ensures VotesInv(Next(g, x))
  {
    var r := Next(g, x);
    forall b | b in r.cast ensures VoteOk(r, b) {
      if b in g.cast { assert VoteOk(g, b); }
    }
  }

  /** In every run all the votes a peer gives in one term, its own included, go to one candidate. */
  lemma {:induction false} RunKeepsVotes(g: Cluster, run: seq<Step>)
    requires IsRun(g, run) && VotesInv(g)
    ensures VotesInv(After(g, run))
    decreases |run|
  {
    if run != [] {
      StepKeepsVotes(g, run[0]);
      RunKeepsVotes(Next(g, run[0]), run[1..]);
    }
  }

  lemma VotesAreSingle(n: nat, run: seq<Step>)
    requires IsRun(Init(n), run)
    ensures OneVotePerTerm(After(Init(n), run))
  {
    RunKeepsVotes(Init(n), run);
  }

  /* ---- counting votes ---- */

  /** The voters whose votes for s in term t have been counted. */
  ghost function Voters(counted: set<Ballot>, s: nat, t: nat): set<nat> {
    set b | b in counted && b.cand == s && b.term == t :: b.voter
  }

  /** Every ballot is in one place, and belongs to an election its candidate has opened. */
  ghost predicate BallotsOk(g: Cluster) {
    && g.asks !! g.grants && g.asks !! g.counted && g.grants !! g.counted
    && g.grants <= g.cast && g.counted <= g.cast
    && (forall b | b in g.asks || b in g.grants || b in g.counted ::
          b.cand < |g.peers| && b.voter < |g.peers| && b.term <= g.peers[b.cand].term)
    && (forall b | b in g.asks || b in g.grants :: b.voter != b.cand)
  }

  /** A candidate's counter is the number of votes counted in its own election, and not yet a majority. */
  ghost predicate CountExact(g: Cluster, s: nat)
    requires s < |g.peers|
  {
    g.peers[s].role == Candidate ==>
      && g.peers[s].votes == |Voters(g.counted, s, g.peers[s].term)|
      && (g.peers[s].votes <= |g.peers| / 2 || |g.peers| <= 1)
  }

  ghost predicate WonByMajority(g: Cluster, s: nat, t: nat) {
    s < |g.peers| && |Voters(g.counted, s, t)| > |g.peers| / 2
  }

  /** Votes are single, whoever was elected had a majority, and whoever leads was elected. */
  ghost predicate SafeInv(g: Cluster) {
    && VotesInv(g)
    && BallotsOk(g)
    && (forall s: nat, t: nat | (s, t) in g.elected :: WonByMajority(g, s, t))
    && (forall s: nat | s < |g.peers| && g.peers[s].role == Leader :: (s, g.peers[s].term) in g.elected)
  }

  ghost predicate Inv(g: Cluster) {
    SafeInv(g) && forall s: nat | s < |g.peers| :: CountExact(g, s)
  }

  /** The vote reaches the election that asked for it, or a peer that is no candidate and ignores it. */
  predicate InOwnElection(g: Cluster, b: Ballot) {
    b.cand < |g.peers| && (g.peers[b.cand].role != Candidate || g.peers[b.cand].term == b.term)
  }

  lemma VotersGrow(a: set<Ballot>, b: set<Ballot>, s: nat, t: nat)
    requires a <= b
    ensures |Voters(a, s, t)| <= |Voters(b, s, t)|
  {
    SubsetSize(Voters(a, s, t), Voters(b, s, t));
  }

  lemma VotersAdd(counted: set<Ballot>, b: Ballot, s: nat, t: nat)
    requires b !in counted
    ensures |Voters(counted + {b}, s, t)| == |Voters(counted, s, t)| + if b.cand == s && b.term == t then 1 else 0
  {
    var old_, new_ := Voters(counted, s, t), Voters(counted + {b}, s, t);
    if b.cand == s && b.term == t {
      forall a | a in counted && a.cand == s && a.term == t ensures a.voter != b.voter {}
      assert new_ == old_ + {b.voter} by {
        forall v | v in old_ ensures v in new_ {
          var a :| a in counted && a.cand == s && a.term == t && a.voter == v;
          assert a in counted + {b};
        }
        assert b in counted + {b};
      }
      assert b.voter !in old_;
    } else {
      assert new_ == old_ by {
        forall v | v in old_ ensures v in new_ {
          var a :| a in counted && a.cand == s && a.term == t && a.voter == v;
          assert a in counted + {b};
        }
      }
    }
  }

  lemma NoVotersYet(counted: set<Ballot>, s: nat, t: nat)
    requires forall b | b in counted :: b.cand != s || b.term != t
    ensures Voters(counted, s, t) == {}
  {
  }

  lemma ElectKeepsInv(g: Cluster, s: nat)
    requires Inv(g) && CanStep(g, Elect(s))
    ensures Inv(Next(g, Elect(s)))
  {
    hide VotesInv, Voters;
    var r := Next(g, Elect(s));
    StepKeepsVotes(g, Elect(s));
    var own := Ballot(s, r.peers[s].term, s);
    assert own !in g.counted;
    NoVotersYet(g.counted, s, own.term);
    forall i: nat | i < |r.peers| ensures CountExact(r, i) {
      assert CountExact(g, i);
      VotersAdd(g.counted, own, i, r.peers[i].term);
    }
    forall i: nat, t: nat | (i, t) in r.elected ensures WonByMajority(r, i, t) {
      assert WonByMajority(g, i, t);
      VotersGrow(g.counted, r.counted, i, t);
    }
  }

  lemma VoteKeepsInv(g: Cluster, b: Ballot)
    requires Inv(g) && CanStep(g, Vote(b))
    ensures Inv(Next(g, Vote(b)))
  {
    hide VotesInv, Voters;
    var r := Next(g, Vote(b));
    StepKeepsVotes(g, Vote(b));
    forall i: nat | i < |r.peers| ensures CountExact(r, i) { assert CountExact(g, i); }
    forall i: nat, t: nat | (i, t) in r.elected ensures WonByMajority(r, i, t) { assert WonByMajority(g, i, t); }
  }

  lemma BeatKeepsInv(g: Cluster, x: Step)
    requires Inv(g) && CanStep(g, x) && (x.SendBeat? || x.StopBeat? || x.HearBeat? || x.BeatAnswered?)
    ensures Inv(Next(g, x))
  {
    hide VotesInv, Voters;
    var r := Next(g, x);
    StepKeepsVotes(g, x);
    forall i: nat | i < |r.peers| ensures CountExact(r, i) { assert CountExact(g, i); }
    forall i: nat, t: nat | (i, t) in r.elected ensures WonByMajority(r, i, t) { assert WonByMajority(g, i, t); }
  }

  lemma CountKeepsInv(g: Cluster, b: Ballot)
    requires Inv(g) && CanStep(g, Count(b)) && InOwnElection(g, b)
    ensures Inv(Next(g, Count(b)))
  {
    hide VotesInv, Voters;
    var r := Next(g, Count(b));
    StepKeepsVotes(g, Count(b));
    forall i: nat | i < |r.peers| ensures CountExact(r, i) {
      assert CountExact(g, i);
      VotersAdd(g.counted, b, i, r.peers[i].term);
    }
    forall i: nat, t: nat | (i, t) in r.elected ensures WonByMajority(r, i, t) {
      VotersAdd(g.counted, b, i, t);
      if (i, t) in g.elected { assert WonByMajority(g, i, t); } else { assert CountExact(g, b.cand); }
    }
  }

  /** Peer s is leader of its term without a majority of votes for it there. */
  ghost predicate IsWrongLeader(g: Cluster, s: nat) {
    s < |g.peers| && g.peers[s].role == Leader && !WonByMajority(g, s, g.peers[s].term)
  }

  /** Counting a vote makes a wrong leader exactly if it belongs to another election and fills the majority. */
  lemma WrongLeaderIff(g: Cluster, b: Ballot)
    requires Inv(g) && CanStep(g, Count(b))
    ensures IsWrongLeader(Next(g, Count(b)), b.cand) <==>
              !InOwnElection(g, b) && g.peers[b.cand].votes + 1 > |g.peers| / 2
  {
    hide VotesInv, Voters;
    var r := Next(g, Count(b));
    assert CountExact(g, b.cand);
    VotersAdd(g.counted, b, b.cand, r.peers[b.cand].term);
    if InOwnElection(g, b) { CountKeepsInv(g, b); }
  }

  /* ---- election safety ---- */

  /** A run in which no vote is counted by the candidate of another election. */
  predicate IsOrderly(g: Cluster, run: seq<Step>)
    decreases |run|
  {
    run == [] ||
    (&& CanStep(g, run[0])
     && (run[0].Count? ==> InOwnElection(g, run[0].b))
     && IsOrderly(Next(g, run[0]), run[1..]))
  }

  lemma StepKeepsInv(g: Cluster, x: Step)
    requires Inv(g) && CanStep(g, x) && (x.Count? ==> InOwnElection(g, x.b))
    ensures Inv(Next(g, x))
  {
    hide Inv;
    match x
    case Elect(s) => ElectKeepsInv(g, s);
    case Vote(b) => VoteKeepsInv(g, b);
    case Count(b) => CountKeepsInv(g, b);
    case SendBeat(_) => BeatKeepsInv(g, x);
    case StopBeat(_) => BeatKeepsInv(g, x);
    case HearBeat(_, _) => BeatKeepsInv(g, x);
    case BeatAnswered(_) => BeatKeepsInv(g, x);
  }

  lemma {:induction false} OrderlyKeepsInv(g: Cluster, run: seq<Step>)
    requires Inv(g) && IsOrderly(g, run)
    ensures IsRun(g, run) && Inv(After(g, run))
    decreases |run|
  {
    if run != [] {
      StepKeepsInv(g, run[0]);
      OrderlyKeepsInv(Next(g, run[0]), run[1..]);
    }
  }

  /** Two majorities of n share a member. */
  lemma MajoritiesMeet(n: nat, a: set<nat>, b: set<nat>)
    requires (forall x | x in a :: x < n) && (forall x | x in b :: x < n)
    requires |a| > n / 2 && |b| > n / 2
    ensures exists x :: x in a && x in b
  {
    BelowSize(n, a + b);
    assert |a + b| + |a * b| == |a| + |b|;
    var x :| x in a * b;
  }

  lemma OneLeader(g: Cluster, s: nat, s': nat, t: nat)
    requires SafeInv(g) && (s, t) in g.elected && (s', t) in g.elected
    ensures s == s'
  {
    assert WonByMajority(g, s, t) && WonByMajority(g, s', t);
    MajoritiesMeet(|g.peers|, Voters(g.counted, s, t), Voters(g.counted, s', t));
    var v :| v in Voters(g.counted, s, t) && v in Voters(g.counted, s', t);
    var a :| a in g.counted && a.cand == s && a.term == t && a.voter == v;
    var b :| b in g.counted && b.cand == s' && b.term == t && b.voter == v;
  }

  /** A run in which no vote makes its candidate leader without a majority. */
  ghost predicate IsFair(g: Cluster, run: seq<Step>)
    decreases |run|
  {
    run == [] ||
    (&& CanStep(g, run[0])
     && (run[0].Count? ==> !IsWrongLeader(Next(g, run[0]), run[0].b.cand))
     && IsFair(Next(g, run[0]), run[1..]))
  }

  lemma StepKeepsSafe(g: Cluster, x: Step)
    requires SafeInv(g) && CanStep(g, x) && (x.Count? ==> !IsWrongLeader(Next(g, x), x.b.cand))
    ensures SafeInv(Next(g, x))
  {
    hide VotesInv, BallotsOk, Voters;
    var r := Next(g, x);
    StepKeepsVotes(g, x);
    StepKeepsBallots(g, x);
    forall i: nat, t: nat | (i, t) in r.elected ensures WonByMajority(r, i, t) {
      if (i, t) in g.elected {
        assert WonByMajority(g, i, t);
        VotersGrow(g.counted, r.counted, i, t);
      }
    }
  }

  lemma StepKeepsBallots(g: Cluster, x: Step)
    requires VotesInv(g) && BallotsOk(g) && CanStep(g, x)
    ensures BallotsOk(Next(g, x))
  {
    hide OneVotePerTerm;
  }

  lemma {:induction false} FairKeepsSafe(g: Cluster, run: seq<Step>)
    requires SafeInv(g) && IsFair(g, run)
    ensures IsRun(g, run) && SafeInv(After(g, run))
    decreases |run|
  {
    hide SafeInv, CanStep, Next, IsWrongLeader;
    if run != [] {
      StepKeepsSafe(g, run[0]);
      FairKeepsSafe(Next(g, run[0]), run[1..]);
    }
  }

  /** An orderly run is fair. */
  lemma {:induction false} OrderlyIsFair(g: Cluster, run: seq<Step>)
    requires Inv(g) && IsOrderly(g, run)
    ensures IsFair(g, run)
    decreases |run|
  {
    hide Inv, CanStep, Next, InOwnElection;
    if run != [] {
      StepKeepsInv(g, run[0]);
      NoWrongLeader(Next(g, run[0]));
      OrderlyIsFair(Next(g, run[0]), run[1..]);
    }
  }

  lemma NoWrongLeader(g: Cluster)
    requires Inv(g)
    ensures forall s :: !IsWrongLeader(g, s)
  {
  }

  /** In a fair run at most one peer is elected in a term, and every leader was elected. */
  lemma OneElectedPerTerm(n: nat, run: seq<Step>)
    requires IsFair(Init(n), run)
    ensures IsRun(Init(n), run)
    ensures var g := After(Init(n), run);
            && (forall s: nat, s': nat, t: nat | (s, t) in g.elected && (s', t) in g.elected :: s == s')
            && (forall s: nat | s < |g.peers| && g.peers[s].role == Leader :: (s, g.peers[s].term) in g.elected)
  {
    InitInv(n);
    hide SafeInv;
    FairKeepsSafe(Init(n), run);
    var g := After(Init(n), run);
    forall s: nat, s': nat, t: nat | (s, t) in g.elected && (s', t) in g.elected ensures s == s' {
      OneLeader(g, s, s', t);
    }
    LeadersAreElected(g);
  }

  lemma InitInv(n: nat)
    ensures Inv(Init(n))
  {
  }

  lemma LeadersAreElected(g: Cluster)
    requires SafeInv(g)
    ensures forall s: nat | s < |g.peers| && g.peers[s].role == Leader :: (s, g.peers[s].term) in g.elected
  {
  }

  /** elected only grows, so a leader of any earlier moment is in it at the end. */
  lemma {:induction false} ElectedGrows(g: Cluster, run: seq<Step>)
    requires IsRun(g, run)
    ensures g.elected <= After(g, run).elected
    decreases |run|
  {
    if run != [] { ElectedGrows(Next(g, run[0]), run[1..]); }
  }

  lemma {:induction false} Split(g: Cluster, run: seq<Step>, i: nat)
    requires IsFair(g, run) && i <= |run|
    ensures IsRun(g, run) && IsFair(g, run[..i]) && IsRun(g, run[..i])
    ensures IsRun(After(g, run[..i]), run[i..]) && After(After(g, run[..i]), run[i..]) == After(g, run)
    decreases |run|
  {
    hide CanStep, Next, IsWrongLeader;
    if i > 0 {
      Split(Next(g, run[0]), run[1..], i - 1);
      assert run[..i][1..] == run[1..][..i - 1] && run[i..] == run[1..][i - 1..];
    } else {
      if run != [] { Split(Next(g, run[0]), run[1..], 0); }
      assert run[..0] == [] && run[0..] == run;
    }
  }

  lemma LeaderOnRecord(n: nat, run: seq<Step>, i: nat, s: nat)
    requires IsFair(Init(n), run) && i <= |run|
    ensures IsRun(Init(n), run) && IsRun(Init(n), run[..i])
    ensures var g := After(Init(n), run[..i]);
            s < |g.peers| && g.peers[s].role == Leader ==> (s, g.peers[s].term) in After(Init(n), run).elected
  {
    hide IsFair, IsRun, After, Init;
    Split(Init(n), run, i);
    OneElectedPerTerm(n, run[..i]);
    ElectedGrows(After(Init(n), run[..i]), run[i..]);
  }

  /** Election safety: two peers that are leader of one term, each at any moment of a fair run, are the same. */
  lemma ElectionSafety(n: nat, run: seq<Step>, i: nat, j: nat, s: nat, s': nat)
    requires IsFair(Init(n), run) && i <= |run| && j <= |run|
    ensures IsRun(Init(n), run[..i]) && IsRun(Init(n), run[..j])
    ensures var g, h := After(Init(n), run[..i]), After(Init(n), run[..j]);
            && s < |g.peers| && g.peers[s].role == Leader && s' < |h.peers| && h.peers[s'].role == Leader
            && g.peers[s].term == h.peers[s'].term
            ==> s == s'
  {
    hide IsFair, IsRun, After, Init;
    LeaderOnRecord(n, run, i, s);
    LeaderOnRecord(n, run, j, s');
    OneElectedPerTerm(n, run);
  }

  /** In particular it holds of every run in which votes reach the election that asked for them. */
  lemma OrderlyElectionSafety(n: nat, run: seq<Step>, i: nat, j: nat, s: nat, s': nat)
    requires IsOrderly(Init(n), run) && i <= |run| && j <= |run|
    ensures IsRun(Init(n), run[..i]) && IsRun(Init(n), run[..j])
    ensures var g, h := After(Init(n), run[..i]), After(Init(n), run[..j]);
            && s < |g.peers| && g.peers[s].role == Leader && s' < |h.peers| && h.peers[s'].role == Leader
            && g.peers[s].term == h.peers[s'].term
            ==> s == s'
  {
    hide IsFair, IsOrderly, IsRun, After, Init, Inv;
    InitInv(n);
    OrderlyIsFair(Init(n), run);
    ElectionSafety(n, run, i, j, s, s');
  }

  /* ---- what can happen in a run that is not orderly ---- */

  /**
   After an orderly run, one more vote makes a wrong leader exactly if it is of another election and fills
   the majority.
   */
  lemma FirstWrongLeaderIff(n: nat, run: seq<Step>, b: Ballot)
    requires IsOrderly(Init(n), run) && IsRun(Init(n), run) && CanStep(After(Init(n), run), Count(b))
    ensures var g := After(Init(n), run);
            IsWrongLeader(Next(g, Count(b)), b.cand) <==>
              g.peers[b.cand].role == Candidate && g.peers[b.cand].term != b.term
                  && g.peers[b.cand].votes + 1 > |g.peers| / 2
  {
    InitInv(n);
    OrderlyKeepsInv(Init(n), run);
    WrongLeaderIff(After(Init(n), run), b);
  }

  /** How many votes of other elections s has counted since it last stood, x being the next step. */
  function StrayStep(g: Cluster, x: Step, s: nat, strays: nat): nat
    requires s < |g.peers|
  {
    match x
    case Elect(c) => if c == s then 0 else strays
    case Count(b) => if b.cand == s && g.peers[s].role == Candidate && b.term != g.peers[s].term then strays + 1
        else strays
    case _ => strays
  }

  /** The same after a run. */
  function Strays(g: Cluster, run: seq<Step>, s: nat, strays: nat): nat
    requires IsRun(g, run) && s < |g.peers|
    decreases |run|
  {
    if run == [] then strays else Strays(Next(g, run[0]), run[1..], s, StrayStep(g, run[0], s, strays))
  }

  /** A candidate's counter is the number of votes of its own election plus the strays. */
  ghost predicate CountSplit(g: Cluster, s: nat, strays: nat) {
    && VotesInv(g) && BallotsOk(g) && s < |g.peers|
    && (g.peers[s].role == Candidate ==> g.peers[s].votes == |Voters(g.counted, s, g.peers[s].term)| + strays)
  }

  lemma StepKeepsSplit(g: Cluster, x: Step, s: nat, strays: nat)
    requires CountSplit(g, s, strays) && CanStep(g, x)
    ensures CountSplit(Next(g, x), s, StrayStep(g, x, s, strays))
  {
    hide Voters, VotesInv;
    var r := Next(g, x);
    StepKeepsVotes(g, x);
    StepKeepsBallots(g, x);
    match x
    case Elect(c) =>
      var own := Ballot(c, r.peers[c].term, c);
      NoVotersYet(g.counted, c, own.term);
      VotersAdd(g.counted, own, s, r.peers[s].term);
    case Count(b) => VotersAdd(g.counted, b, s, r.peers[s].term);
    case _ =>
  }

  lemma {:induction false} RunKeepsSplit(g: Cluster, run: seq<Step>, s: nat, strays: nat)
    requires IsRun(g, run) && CountSplit(g, s, strays)
    ensures CountSplit(After(g, run), s, Strays(g, run, s, strays))
    decreases |run|
  {
    hide VotesInv, BallotsOk, Voters, CanStep, Next, StrayStep;
    if run != [] {
      StepKeepsSplit(g, run[0], s, strays);
      RunKeepsSplit(Next(g, run[0]), run[1..], s, StrayStep(g, run[0], s, strays));
    }
  }

  /**
   After every run, orderly or not, a vote makes its candidate a leader without a majority of its term
   exactly if it fills the count, but would not without the strays, this vote being one if its term is another.
   */
  lemma AnyWrongLeaderIff(n: nat, run: seq<Step>, b: Ballot)
    requires IsRun(Init(n), run) && CanStep(After(Init(n), run), Count(b)) && b.cand < n
    requires After(Init(n), run).peers[b.cand].role == Candidate
    ensures var g := After(Init(n), run);
            var p := g.peers[b.cand];
            var strays := Strays(Init(n), run, b.cand, 0) + if b.term != p.term then 1 else 0;
            IsWrongLeader(Next(g, Count(b)), b.cand) <==> p.votes + 1 > |g.peers| / 2 >= p.votes + 1 - strays
  {
    hide Voters;
    assert CountSplit(Init(n), b.cand, 0);
    RunKeepsSplit(Init(n), run, b.cand, 0);
    var g := After(Init(n), run);
    VotersAdd(g.counted, b, b.cand, g.peers[b.cand].term);
  }

  ghost predicate Reachable(n: nat, g: Cluster) {
    exists run :: IsRun(Init(n), run) && After(Init(n), run) == g
  }

  lemma {:induction false} LastStep(g: Cluster, run: seq<Step>, x: Step)
    requires IsRun(g, run) && CanStep(After(g, run), x)
    ensures IsRun(g, run + [x]) && After(g, run + [x]) == Next(After(g, run), x)
    decreases |run|
  {
    hide CanStep, Next;
    if run == [] {
      assert [x][1..] == [];
    } else {
      assert (run + [x])[1..] == run[1..] + [x];
      LastStep(Next(g, run[0]), run[1..], x);
    }
  }

  lemma Reach(n: nat, g: Cluster, x: Step)
    requires Reachable(n, g) && CanStep(g, x)
    ensures Reachable(n, Next(g, x))
  {
    hide CanStep, Next, Init;
    var run :| IsRun(Init(n), run) && After(Init(n), run) == g;
    LastStep(Init(n), run, x);
  }

  /** Peer 1 grants its vote to peer 0 in term 1. */
  lemma EarlyVote() returns (g: Cluster)
    ensures Reachable(3, g) && Ballot(0, 1, 1) in g.grants
    ensures g.peers == [Peer(Candidate, 1, 0, 1), Peer(Follower, 1, 0, 0), Fresh()]
  {
    var a := Ballot(0, 1, 1);
    assert IsRun(Init(3), []) && After(Init(3), []) == Init(3);
    hide Reachable;
    Reach(3, Init(3), Elect(0));
    var g1 := Next(Init(3), Elect(0));
    assert a in g1.asks;
    Reach(3, g1, Vote(a));
    g := Next(g1, Vote(a));
  }

  /** A peer that stands again keeps the votes under way. */
  lemma StandAgain(g: Cluster, s: nat) returns (h: Cluster)
    requires Reachable(3, g) && s < |g.peers|
    ensures Reachable(3, h) && h.peers == g.peers[s := StartElection(g.peers[s], s)] && g.grants <= h.grants
    ensures s != 1 && 1 < |g.peers| ==> Ballot(s, g.peers[s].term + 1, 1) in h.asks
  {
    hide Reachable;
    Reach(3, g, Elect(s));
    h := Next(g, Elect(s));
  }

  /** A granted vote makes its candidate leader. */
  lemma ElectedBy(g: Cluster, b: Ballot) returns (h: Cluster)
    requires Reachable(3, g) && |g.peers| == 3 && b in g.grants && b.cand < 3
    requires g.peers[b.cand].role == Candidate && g.peers[b.cand].votes == 1
    ensures Reachable(3, h) && h.peers == g.peers[b.cand := g.peers[b.cand].(role := Leader, votes := 2)]
            && g.grants - {b} == h.grants
  {
    hide Reachable;
    Reach(3, g, Count(b));
    h := Next(g, Count(b));
  }

  /**
   Peer 0 is granted peer 1's vote in term 1, stands again in term 2, and then counts the
   old vote: with peer 2 elected in term 2 by peer 1's new vote, term 2 has two leaders.
   */
  lemma StaleVoteElectsTwice() returns (g: Cluster)
    ensures Reachable(3, g) && |g.peers| == 3
    ensures g.peers[0].role == Leader && g.peers[2].role == Leader && g.peers[0].term == g.peers[2].term == 2
  {
    hide Reachable, Next;
    var a, b := Ballot(0, 1, 1), Ballot(2, 2, 1);
    g := EarlyVote();
    g := StandAgain(g, 0);
    g := StandAgain(g, 2);
    g := StandAgain(g, 2);
    g := NewVote(g);
    g := ElectedBy(g, b);
    g := ElectedBy(g, a);
  }

  /** Peer 1 grants its vote to peer 2 in term 2. */
  lemma NewVote(g: Cluster) returns (h: Cluster)
    requires Reachable(3, g) && |g.peers| == 3 && g.peers[1] == Peer(Follower, 1, 0, 0) && Ballot(2, 2, 1) in g.asks
    ensures Reachable(3, h) && h.peers == g.peers[1 := Peer(Follower, 2, 2, 0)]
            && h.grants == g.grants + {Ballot(2, 2, 1)}
  {
    hide Reachable;
    Reach(3, g, Vote(Ballot(2, 2, 1)));
    h := Next(g, Vote(Ballot(2, 2, 1)));
  }

  /* ---- when votes are granted, and that elections can succeed ---- */

  lemma {:induction false} RunKeepsBallots(g: Cluster, run: seq<Step>)
    requires IsRun(g, run) && VotesInv(g) && BallotsOk(g)
    ensures VotesInv(After(g, run)) && BallotsOk(After(g, run))
    decreases |run|
  {
    hide VotesInv, BallotsOk, CanStep, Next;
    if run != [] {
      StepKeepsVotes(g, run[0]);
      StepKeepsBallots(g, run[0]);
      RunKeepsBallots(Next(g, run[0]), run[1..]);
    }
  }

  /**
   After every run, a vote that is asked for is granted exactly if it is of a higher term than the voter's, whatever
   the voter's role, or of the same term and the voter's last vote went to nobody or to this candidate. A higher
   term makes the voter a follower.
   */
  lemma VoteGrantedIff(n: nat, run: seq<Step>, b: Ballot)
    requires IsRun(Init(n), run) && CanStep(After(Init(n), run), Vote(b))
    ensures var g := After(Init(n), run);
            var p, h := g.peers[b.voter], Next(g, Vote(b));
            && (b in h.grants <==>
                  b.term > p.term || (b.term == p.term && (p.votedFor == NOBODY || p.votedFor == b.cand)))
            && |h.peers| == |g.peers|
            && (b.term > p.term ==> h.peers[b.voter] == p.(role := Follower, term := b.term, votedFor := b.cand))
  {
    RunKeepsBallots(Init(n), run);
  }

  function HighestTerm(peers: seq<Peer>): (t: nat)
    ensures forall s | 0 <= s < |peers| :: peers[s].term <= t
  {
    if peers == [] then 0
    else
      var t, last := HighestTerm(peers[..|peers| - 1]), peers[|peers| - 1].term;
      if last > t then last else t
  }

  /** s stands in term t with its own vote only, and has asked every other peer for its vote. */
  ghost predicate Stands(g: Cluster, s: nat, t: nat) {
    && s < |g.peers| && g.peers[s].role == Candidate && g.peers[s].term == t && g.peers[s].votes == 1
    && forall v: nat | v < |g.peers| && v != s :: Asked(g, s, t, v)
  }

  ghost predicate Asked(g: Cluster, s: nat, t: nat, v: nat) {
    v < |g.peers| && Ballot(s, t, v) in g.asks && g.peers[v].term < t
  }

  /** Standing again and again, s gets to a term above all others. */
  lemma {:induction false} StandsAlone(g: Cluster, run: seq<Step>, s: nat, top: nat) returns (run': seq<Step>)
    requires IsRun(g, run) && s < |After(g, run).peers|
    requires forall v | 0 <= v < |After(g, run).peers| && v != s :: After(g, run).peers[v].term <= top
    ensures IsRun(g, run') && run <= run' && |After(g, run').peers| == |After(g, run).peers|
    ensures Stands(After(g, run'), s, After(g, run').peers[s].term)
    decreases top - After(g, run).peers[s].term
  {
    hide IsRun, After;
    var b := After(g, run);
    LastStep(g, run, Elect(s));
    run' := run + [Elect(s)];
    var c := After(g, run');
    assert forall v: nat | v < |c.peers| && v != s :: Ballot(s, c.peers[s].term, v) in c.asks;
    if c.peers[s].term > top {
      assert forall v: nat | v < |c.peers| && v != s :: Asked(c, s, c.peers[s].term, v);
    } else {
      run' := StandsAlone(g, run', s, top);
    }
  }

  /** s has the votes of the peers below v other than itself, and the others are still to be asked. */
  ghost predicate Collecting(g: Cluster, s: nat, t: nat, v: nat) {
    && s < |g.peers| && v <= |g.peers| && g.peers[s].role == Candidate && g.peers[s].term == t
    && g.peers[s].votes == v + (if s < v then 0 else 1) <= |g.peers| / 2
    && forall u: nat | v <= u < |g.peers| && u != s :: Asked(g, s, t, u)
  }

  /** The vote of v is asked for, granted and counted. */
  lemma VoteCollected(g: Cluster, run: seq<Step>, s: nat, t: nat, v: nat) returns (run': seq<Step>)
    requires IsRun(g, run) && Collecting(After(g, run), s, t, v) && v < |After(g, run).peers| && v != s
    ensures IsRun(g, run') && run <= run' && |After(g, run').peers| == |After(g, run).peers|
    ensures After(g, run').peers[s].role == Leader || Collecting(After(g, run'), s, t, v + 1)
  {
    hide IsRun, After;
    var a, b := After(g, run), Ballot(s, t, v);
    assert Asked(a, s, t, v);
    LastStep(g, run, Vote(b));
    var c := Next(a, Vote(b));
    LastStep(g, run + [Vote(b)], Count(b));
    run' := run + [Vote(b)] + [Count(b)];
    var d := Next(c, Count(b));
    forall u: nat | v < u < |d.peers| && u != s ensures Asked(d, s, t, u) { assert Asked(a, s, t, u); }
  }

  lemma {:induction false} VotesCollected(g: Cluster, run: seq<Step>, s: nat, t: nat, v: nat) returns (run': seq<Step>)
    requires IsRun(g, run) && Collecting(After(g, run), s, t, v) && |After(g, run).peers| >= 2
    ensures IsRun(g, run') && run <= run' && s < |After(g, run').peers| && After(g, run').peers[s].role == Leader
    decreases |After(g, run).peers| - v
  {
    hide IsRun, After, Asked;
    assert v < |After(g, run).peers|;
    if v == s {
      run' := VotesCollected(g, run, s, t, v + 1);
    } else {
      run' := VoteCollected(g, run, s, t, v);
      if After(g, run').peers[s].role != Leader { run' := VotesCollected(g, run', s, t, v + 1); }
    }
  }

  /** From any state of two or more peers, whatever is under way, any of them can still become leader. */
  lemma CanBeElected(g: Cluster, s: nat) returns (run: seq<Step>)
    requires s < |g.peers| && |g.peers| >= 2
    ensures IsRun(g, run) && s < |After(g, run).peers| && After(g, run).peers[s].role == Leader
  {
    hide Asked;
    run := StandsAlone(g, [], s, HighestTerm(g.peers));
    var h := After(g, run);
    assert Collecting(h, s, h.peers[s].term, 0);
    run := VotesCollected(g, run, s, h.peers[s].term, 0);
  }

  ghost predicate Alone(g: Cluster) {
    |g.peers| == 1 && g.peers[0].role != Leader && g.asks == {} && g.grants == {}
  }

  lemma {:induction false} StaysAlone(g: Cluster, run: seq<Step>)
    requires IsRun(g, run) && Alone(g)
    ensures Alone(After(g, run))
    decreases |run|
  {
    if run != [] {
      StaysAlone(Next(g, run[0]), run[1..]);
    }
  }

  /** A peer without others never becomes leader: votes are only counted when an answer arrives. */
  lemma SolePeerNeverLeads(run: seq<Step>)
    requires IsRun(Init(1), run)
    ensures |After(Init(1), run).peers| == 1 && After(Init(1), run).peers[0].role != Leader
  {
    StaysAlone(Init(1), run);
  }

  /* ---- heartbeats ---- */

  ghost predicate LeadersBeat(g: Cluster) {
    forall s: nat | s < |g.peers| && g.peers[s].role == Leader :: s in g.beating
  }

  lemma {:induction false} RunKeepsBeating(g: Cluster, run: seq<Step>)
    requires IsRun(g, run) && LeadersBeat(g)
    ensures LeadersBeat(After(g, run))
    decreases |run|
  {
    if run != [] { RunKeepsBeating(Next(g, run[0]), run[1..]); }
  }

  /**
   After every run, a leader can still send a heartbeat, and any peer that hears it follows in the leader's term,
   its vote untouched, unless it has got to a higher term.
   */
  lemma LeaderIsFollowed(n: nat, run: seq<Step>, s: nat, v: nat)
    requires IsRun(Init(n), run)
    requires var g := After(Init(n), run); s < |g.peers| && g.peers[s].role == Leader && v < |g.peers|
    ensures var g := After(Init(n), run);
            var t, p := g.peers[s].term, g.peers[v];
            && CanStep(g, SendBeat(s))
            && var h := Next(g, SendBeat(s));
            && CanStep(h, HearBeat(v, t))
            && Next(h, HearBeat(v, t)).peers == g.peers[v := if p.term <= t then p.(role := Follower, term := t) else p]
  {
    RunKeepsBeating(Init(n), run);
  }
}
