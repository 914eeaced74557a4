/** One Raft peer: what its handlers do to its term, its vote and its role. */
module RaftPeer {

  datatype Role = Follower | Candidate | Leader

  datatype Peer = Peer(role: Role, term: nat, votedFor: int, votes: nat)

  const NOBODY := -1

  /** The peer a new server starts as; nothing is read back from stable storage. */
  function Fresh(): Peer { Peer(Follower, 0, NOBODY, 0) }

  /** Answer to a request for a vote: the new state and whether the vote is granted. */
  function HandleVote(p: Peer, term: nat, candidate: nat): (Peer, bool) {
    if term < p.term then (p, false)
    else
      var q := if p.term < term then p.(term := term, votedFor := NOBODY, role := Follower) else p;
      if q.votedFor == NOBODY || q.votedFor == candidate then (q.(votedFor := candidate), true) else (q, false)
  }

  /** A peer opens an election for the next term with its own vote. */
  function StartElection(p: Peer, me: nat): Peer { Peer(Candidate, p.term + 1, me, 1) }

  /** A granted vote arrives; the term it was granted in is not looked at. */
  function CountVote(p: Peer, peers: nat): Peer {
    var q := p.(votes := p.votes + 1);
    if q.role == Candidate && q.votes > peers / 2 then q.(role := Leader) else q
  }

  /** A heartbeat raises the term but leaves the vote as it is. */
  function HandleHeartbeat(p: Peer, term: nat): (Peer, bool) {
    if p.term > term then (p, false) else (p.(role := Follower, term := term), true)
  }

  /** A heartbeat is answered; the answering peer never fills in its term. */
  function HandleHeartbeatReply(p: Peer, replyTerm: nat): Peer {
    if p.term < replyTerm then p.(role := Follower) else p
  }

  class Raft {
    const me: nat
    const peers: nat
    var state: Role
    var currentTerm: nat
    var votedFor: int
    var votednumber: nat

    ghost function View(): Peer
      reads this
    {
      Peer(state, currentTerm, votedFor, votednumber)
    }

    constructor (peers: nat, me: nat)
      ensures View() == Fresh() && this.peers == peers && this.me == me
    {
      this.peers, this.me := peers, me;
      state, currentTerm, votedFor, votednumber := Follower, 0, NOBODY, 0;
    }

    method RequestVote(term: nat, candidateId: nat) returns (replyTerm: nat, voteGranted: bool)
      modifies this
      ensures (View(), voteGranted) == HandleVote(old(View()), term, candidateId)
      ensures replyTerm == old(currentTerm) <= currentTerm
      ensures voteGranted ==> votedFor == candidateId && currentTerm == term
      ensures voteGranted <==>
                || term > old(currentTerm)
                || (term == old(currentTerm) && (old(votedFor) == NOBODY || old(votedFor) == candidateId))
      ensures term > old(currentTerm) ==> state == Follower && currentTerm == term
      ensures term <= old(currentTerm) ==> state == old(state) && currentTerm == old(currentTerm)
      ensures !voteGranted ==> votedFor == old(votedFor)
      ensures votednumber == old(votednumber)
    {
      replyTerm := currentTerm;
      if term < replyTerm {
        voteGranted := false;
      } else {
        if currentTerm < term {
          currentTerm := term;
          votedFor := NOBODY;
          state := Follower;
        }
        if votedFor == NOBODY || votedFor == candidateId {
          voteGranted := true;
          votedFor := candidateId;
        } else {
          voteGranted := false;
        }
      }
    }

    /** The locked part of emitElection; the term is sent to every other peer. */
    method OpenElection() returns (term: nat)
      modifies this
      ensures View() == StartElection(old(View()), me)
      ensures term == currentTerm == old(currentTerm) + 1 && state == Candidate && votedFor == me && votednumber == 1
    {
      currentTerm := currentTerm + 1;
      state := Candidate;
      votedFor := me;
      votednumber := 1;
      term := currentTerm;
    }

    /** The reply handler of emitElection, for a reply that grants the vote. */
    method VoteReceived() returns (won: bool)
      modifies this
      ensures View() == CountVote(old(View()), peers)
      ensures won <==> old(state) == Candidate && state == Leader
      ensures votednumber == old(votednumber) + 1 && currentTerm == old(currentTerm) && votedFor == old(votedFor)
      ensures won <==> old(state) == Candidate && votednumber > peers / 2
      ensures !won ==> state == old(state)
    {
      votednumber := votednumber + 1;
      won := false;
      if state == Candidate && votednumber > peers / 2 {
        state := Leader;
        won := true;
      }
    }

    method GetHeartbeat(term: nat) returns (success: bool)
      modifies this
      ensures (View(), success) == HandleHeartbeat(old(View()), term)
      ensures success <==> term >= old(currentTerm)
      ensures success ==> state == Follower && currentTerm == term
      ensures !success ==> state == old(state) && currentTerm == old(currentTerm)
      ensures votedFor == old(votedFor) && votednumber == old(votednumber)
    {
      if currentTerm > term {
        success := false;
      } else {
        state := Follower;
        currentTerm := term;
        success := true;
      }
    }

    /** The reply handler of a heartbeat. */
    method HeartbeatAnswered(replyTerm: nat)
      modifies this
      ensures View() == HandleHeartbeatReply(old(View()), replyTerm)
      ensures state == if replyTerm > currentTerm then Follower else old(state)
      ensures currentTerm == old(currentTerm) && votedFor == old(votedFor) && votednumber == old(votednumber)
    {
      if currentTerm < replyTerm { state := Follower; }
    }
  }
}
