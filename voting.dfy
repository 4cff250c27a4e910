/** The voting engine: yes/no ballots keyed by an identifier, each open until its
    expiry height inclusive, and a replay guard recording who voted on what. */
module VotingEngine {
  import opened Common
  import JudgePool

  /** Blocks a ballot stays open after the block that created it. */
  const VOTE_DURATION: nat := 1


  datatype Vote = Vote(yay: nat, nay: nat, expiresAt: Height)

  /** A ballot still accepts votes at its expiry height, and no later. */
  predicate IsOpen(v: Vote, height: Height): (open: bool)
    ensures open <==> height <= v.expiresAt
  {
    !(height > v.expiresAt)
  }

  /** The ballot a fresh credential gets at block `height`: no votes yet, and open
      from that block through VOTE_DURATION more blocks, but not one block longer. */
  function NewVote(height: Height): (v: Vote)
    ensures v.yay == 0 && v.nay == 0
    ensures IsOpen(v, height) && IsOpen(v, height + VOTE_DURATION)
    ensures !IsOpen(v, height + VOTE_DURATION + 1)
  {
    Vote(0, 0, height + VOTE_DURATION)
  }

  /** The ballot after one vote: the chosen side grows by one, the other side and
      the expiry stay as they were. */
  function Tallied(v: Vote, choice: bool): (r: Vote)
    ensures r.expiresAt == v.expiresAt
    ensures r.yay + r.nay == v.yay + v.nay + 1
    ensures v.yay <= r.yay && v.nay <= r.nay
    ensures choice <==> r.yay > v.yay
  {
    if choice then v.(yay := v.yay + 1) else v.(nay := v.nay + 1)
  }

  /** The outcome of a vote, from what the engine knows when it arrives: whether the
      sender is a judge, the ballot stored at the id if any, and whether this sender
      has already voted on it. The checks run in the source's order and the first
      that fails gives the reason. */
  function CastVoteStatus(isJudge: bool, vote: Option<Vote>, alreadyCast: bool, height: Height): (s: Status)
    ensures !isJudge ==> s == Err(NotJudge)
    ensures isJudge && vote.None? ==> s == Err(VoteMissing)
    ensures isJudge && vote.Some? && !IsOpen(vote.value, height) ==> s == Err(VoteExpired)
    ensures isJudge && vote.Some? && IsOpen(vote.value, height) && alreadyCast ==> s == Err(AlreadyCast)
    ensures s.Ok? <==> isJudge && vote.Some? && IsOpen(vote.value, height) && !alreadyCast
  {
    if !isJudge then Err(NotJudge)
    else if vote.None? then Err(VoteMissing)
    else if height > vote.value.expiresAt then Err(VoteExpired)
    else if alreadyCast then Err(AlreadyCast)
    else Ok
  }

  /** The ballot stored at `id`, if any. */
  function Lookup(votes: map<Id, Vote>, id: Id): (r: Option<Vote>)
    ensures r.Some? <==> id in votes
    ensures r.Some? ==> r.value == votes[id]
  {
    if id in votes then Some(votes[id]) else None
  }

  /** The replay-guard records that concern ballot `id`. */
  ghost function CastsOn(cast: set<(Key, Id)>, id: Id): set<(Key, Id)>
  {
    set p | p in cast && p.1 == id
  }

  /** Recording a new (voter, id) pair adds one cast to ballot `id` and none to any other. */
  lemma CastsOnAdd(cast: set<(Key, Id)>, voter: Key, id: Id, other: Id)
    requires (voter, id) !in cast
    ensures |CastsOn(cast + {(voter, id)}, other)| == |CastsOn(cast, other)| + (if other == id then 1 else 0)
  {
    if other == id {
      assert CastsOn(cast + {(voter, id)}, other) == CastsOn(cast, other) + {(voter, id)};
    } else {
      assert CastsOn(cast + {(voter, id)}, other) == CastsOn(cast, other);
    }
  }

  /** A ballot no record refers to has no casts. */
  lemma CastsOnAbsent(cast: set<(Key, Id)>, id: Id)
    requires forall p :: p in cast ==> p.1 != id
    ensures |CastsOn(cast, id)| == 0
  {
    assert CastsOn(cast, id) == {};
  }

  class Voting {
    /** The judge pool this module asks whether the sender is a judge. */
    const judges: JudgePool.Judges
    var votes: map<Id, Vote>
    /** The replay guard: (voter, ballot) pairs that have voted. */
    var votesCast: set<(Key, Id)>

    /** Every record of the replay guard names an existing ballot, and every ballot's
        tally counts exactly the records that name it. */
    ghost predicate Valid()
      reads this
    {
      (forall p :: p in votesCast ==> p.1 in votes) &&
      (forall id :: id in votes ==> votes[id].yay + votes[id].nay == |CastsOn(votesCast, id)|)
    }

    constructor (judges: JudgePool.Judges)
      ensures this.judges == judges
      ensures votes == map[] && votesCast == {}
      ensures Valid()
    {
      this.judges := judges;
      votes := map[];
      votesCast := {};
    }

    /** Opens a ballot at `voteId` with zero tallies, expiring VOTE_DURATION blocks
        after `height`; an existing ballot is never overwritten. */
    method CreateVote(voteId: Id, height: Height) returns (s: Status)
      requires Valid()
      modifies this
      ensures Valid()
      ensures s.Ok? <==> voteId !in old(votes)
      ensures s.Err? ==> s == Err(VoteExists) && votes == old(votes)
      ensures s.Ok? ==> votes == old(votes)[voteId := NewVote(height)]
      ensures votesCast == old(votesCast)
    {
      if voteId in votes {
        return Err(VoteExists);
      }
      CastsOnAbsent(votesCast, voteId);
      votes := votes[voteId := NewVote(height)];
      s := Ok;
    }

    /** Runs the judge, existence, expiry and replay checks in that order; the first
        that fails names the rejection. When all pass, the pair (sender, voteId) is
        recorded and exactly one side of the ballot grows by one. */
    method CastVote(sender: Key, height: Height, voteId: Id, choice: bool) returns (s: Status)
      requires Valid()
      modifies this
      ensures Valid()
      ensures !judges.IsJudge(sender) ==> s == Err(NotJudge)
      ensures judges.IsJudge(sender) && voteId !in old(votes) ==> s == Err(VoteMissing)
      ensures (judges.IsJudge(sender) && voteId in old(votes) && !IsOpen(old(votes)[voteId], height))
                ==> s == Err(VoteExpired)
      ensures (judges.IsJudge(sender) && voteId in old(votes) && IsOpen(old(votes)[voteId], height)
               && (sender, voteId) in old(votesCast)) ==> s == Err(AlreadyCast)
      ensures s.Ok? <==> judges.IsJudge(sender) && voteId in old(votes)
                         && IsOpen(old(votes)[voteId], height) && (sender, voteId) !in old(votesCast)
      ensures s == CastVoteStatus(judges.IsJudge(sender), Lookup(old(votes), voteId), (sender, voteId) in old(votesCast), height)
      ensures s.Err? ==> votes == old(votes) && votesCast == old(votesCast)
      ensures s.Ok? ==> votesCast == old(votesCast) + {(sender, voteId)}
      ensures s.Ok? ==> votes == old(votes)[voteId := Tallied(old(votes)[voteId], choice)]
    {
      s := judges.AssertSenderIsJudge(sender);
      if s.Err? {
        return;
      }
      if voteId !in votes {
        return Err(VoteMissing);
      }
      var vote := votes[voteId];
      var isVoteExpired := height > vote.expiresAt;
      if isVoteExpired {
        return Err(VoteExpired);
      }
      if (sender, voteId) in votesCast {
        return Err(AlreadyCast);
      }
      forall id | id in votes
        ensures |CastsOn(votesCast + {(sender, voteId)}, id)| == |CastsOn(votesCast, id)| + (if id == voteId then 1 else 0)
      {
        CastsOnAdd(votesCast, sender, voteId, id);
      }
      votesCast := votesCast + {(sender, voteId)};
      votes := votes[voteId := Tallied(vote, choice)];
    }
  }
}
