/** The runtime that composes the four modules: the admin module is given to the
    judge pool, the judge pool to the voting engine and the voting engine to the
    credential store. Each entry point runs one transaction to completion. */
module AppChain {
  import opened Common
  import AdminRegistry
  import JudgePool
  import VotingEngine
  import CredentialStore

  /** The whole keyed state of the runtime at one moment. */
  datatype World = World(
    admin: Option<Key>,
    judges: map<Key, bool>,
    judgeCount: nat,
    votes: map<Id, VotingEngine.Vote>,
    votesCast: set<(Key, Id)>,
    credentials: map<Id, CredentialStore.Credential>)

  /** How the state may evolve from `w` to `w2`: the admin is never unset, accredited
      judges stay accredited, the counter, the tallies and the replay guard never
      shrink, expiry heights never move, and no credential is removed or overwritten. */
  ghost predicate Grows(w: World, w2: World)
  {
    (w.admin.Some? ==> w2.admin.Some?) &&
    (forall k :: k in w.judges && w.judges[k] ==> k in w2.judges && w2.judges[k]) &&
    w.judgeCount <= w2.judgeCount &&
    (forall id :: id in w.votes ==>
       id in w2.votes &&
       w.votes[id].yay <= w2.votes[id].yay &&
       w.votes[id].nay <= w2.votes[id].nay &&
       w2.votes[id].expiresAt == w.votes[id].expiresAt) &&
    w.votesCast <= w2.votesCast &&
    (forall id :: id in w.credentials ==> id in w2.credentials && w2.credentials[id] == w.credentials[id])
  }

  /** What holds across one transaction holds across any sequence of them. */
  lemma GrowsTransitive(w1: World, w2: World, w3: World)
    requires Grows(w1, w2) && Grows(w2, w3)
    ensures Grows(w1, w3)
  {
  }

  class Runtime {
    const admin: AdminRegistry.Admin
    const judges: JudgePool.Judges
    const voting: VotingEngine.Voting
    const credentials: CredentialStore.Credentials

    ghost function Snapshot(): World
      reads admin, judges, voting, credentials
    {
      World(admin.admin, judges.judges, judges.judgeCount, voting.votes, voting.votesCast,
            credentials.credentials)
    }

    /** The modules are wired to one another, each keeps its own invariant, and
        credentials and ballots share one key space. */
    ghost predicate Valid()
      reads admin, judges, voting, credentials
    {
      judges.admin == admin && voting.judges == judges && credentials.voting == voting &&
      judges.Valid() && voting.Valid() &&
      credentials.credentials.Keys == voting.votes.Keys
    }

    constructor ()
      ensures Valid()
      ensures fresh(admin) && fresh(judges) && fresh(voting) && fresh(credentials)
      ensures judges.admin == admin && voting.judges == judges && credentials.voting == voting
      ensures Snapshot() == World(None, map[], 0, map[], {}, map[])
    {
      var a := new AdminRegistry.Admin();
      var j := new JudgePool.Judges(a);
      var v := new VotingEngine.Voting(j);
      var c := new CredentialStore.Credentials(v);
      admin, judges, voting, credentials := a, j, v, c;
    }

    /** The setAdmin transaction: see AdminRegistry.Admin.SetAdmin. */
    method SetAdmin(sender: Key, newAdmin: Key) returns (s: Status)
      requires Valid()
      modifies admin
      ensures Valid()
      ensures Grows(old(Snapshot()), Snapshot())
      ensures s.Ok? <==> old(admin.admin).None? || old(admin.admin) == Some(sender)
      ensures s.Err? ==> s == Err(CannotSetAdmin) && Snapshot() == old(Snapshot())
      ensures s.Ok? ==> Snapshot() == old(Snapshot()).(admin := Some(newAdmin))
    {
      s := admin.SetAdmin(sender, newAdmin);
    }

    /** The addJudge transaction: see JudgePool.Judges.AddJudge. */
    method AddJudge(sender: Key, judge: Key) returns (s: Status)
      requires Valid()
      modifies judges
      ensures Valid()
      ensures Grows(old(Snapshot()), Snapshot())
      ensures s.Ok? <==> admin.admin == Some(sender)
      ensures s.Err? ==> s == Err(NotAdmin) && Snapshot() == old(Snapshot())
      ensures s.Ok? ==> Snapshot() == old(Snapshot()).(
        judges := old(judges.judges)[judge := true],
        judgeCount := old(judges.judgeCount) + 1)
    {
      s := judges.AddJudge(sender, judge);
    }

    /** The addCredential transaction: see CredentialStore.Credentials.AddCredential.
        Because credentials and ballots share their keys, a claim that passes the
        duplicate check always gets its ballot: "Vote already exists" cannot occur. */
    method AddCredential(sender: Key, height: Height, claim: CredentialStore.Claim) returns (s: Status)
      requires Valid()
      modifies credentials, voting
      ensures Valid()
      ensures Grows(old(Snapshot()), Snapshot())
      ensures var id := CredentialStore.CredId(CredentialStore.Credential(claim, sender));
        s == if id in old(credentials.credentials) then Err(CredentialExists) else Ok
      ensures s.Err? ==> Snapshot() == old(Snapshot())
      ensures var id := CredentialStore.CredId(CredentialStore.Credential(claim, sender));
        s.Ok? ==> Snapshot() == old(Snapshot()).(
          credentials := old(credentials.credentials)[id := CredentialStore.Credential(claim, sender)],
          votes := old(voting.votes)[id := VotingEngine.NewVote(height)])
      ensures s != Err(VoteExists)
    {
      s := credentials.AddCredential(sender, height, claim);
    }

    /** The castVote transaction: see VotingEngine.Voting.CastVote. */
    method CastVote(sender: Key, height: Height, voteId: Id, choice: bool) returns (s: Status)
      requires Valid()
      modifies voting
      ensures Valid()
      ensures Grows(old(Snapshot()), Snapshot())
      ensures s == VotingEngine.CastVoteStatus(judges.IsJudge(sender), VotingEngine.Lookup(old(voting.votes), voteId),
                                               (sender, voteId) in old(voting.votesCast), height)
      ensures s.Err? ==> Snapshot() == old(Snapshot())
      ensures s.Ok? ==> Snapshot() == old(Snapshot()).(
        votes := old(voting.votes)[voteId := VotingEngine.Tallied(old(voting.votes)[voteId], choice)],
        votesCast := old(voting.votesCast) + {(sender, voteId)})
    {
      s := voting.CastVote(sender, height, voteId, choice);
    }
  }

  /** The verdict a caller reads off a ballot, as the integration test computes it:
      the ballot exists, its expiry height has been reached and yes outnumbers no. */
  predicate IsCredentialValidAsWritten(vote: Option<VotingEngine.Vote>, height: Height): (valid: bool)
    ensures valid ==> vote.Some? && vote.value.yay > vote.value.nay
    ensures IsCredentialValid(vote, height) ==> valid
  {
    vote.Some? && vote.value.expiresAt <= height && vote.value.yay > vote.value.nay
  }

  /** The verdict once the ballot has closed, that is once it no longer accepts votes. */
  predicate IsCredentialValid(vote: Option<VotingEngine.Vote>, height: Height)
  {
    vote.Some? && !VotingEngine.IsOpen(vote.value, height) && vote.value.yay > vote.value.nay
  }

  /** At its expiry height a ballot is judged valid by the test's rule and yet still
      accepts a vote, which can turn the verdict around. */
  lemma AsWrittenVerdictNotFinal()
    ensures var v := VotingEngine.Vote(1, 0, 5);
      IsCredentialValidAsWritten(Some(v), 5) && VotingEngine.IsOpen(v, 5) &&
      !IsCredentialValidAsWritten(Some(VotingEngine.Tallied(v, false)), 5)
  {
  }

  /** The two rules differ only at the expiry height itself. */
  lemma VerdictsDifferOnlyAtExpiry(vote: VotingEngine.Vote, height: Height)
    ensures IsCredentialValid(Some(vote), height)
      <==> IsCredentialValidAsWritten(Some(vote), height) && height != vote.expiresAt
  {
  }

  /** A valid verdict is final. Voting.CastVote's outcome is CastVoteStatus of the
      stored ballot, and a rejected vote changes nothing; so once a ballot is valid
      under the closed-ballot rule at `height`, every later vote on it, from anyone,
      is rejected, the ballot keeps its tallies and the credential stays valid. */
  lemma VerdictIsFinal(vote: VotingEngine.Vote, height: Height, later: Height, isJudge: bool, alreadyCast: bool)
    requires IsCredentialValid(Some(vote), height) && height <= later
    ensures VotingEngine.CastVoteStatus(isJudge, Some(vote), alreadyCast, later).Err?
    ensures IsCredentialValid(Some(vote), later)
  {
  }

  /** The first four blocks of the integration scenario, one transaction per block
      from `height` on, all through the runtime's entry points: the admin sets itself
      and accredits a judge, the judge fails to accredit itself, and the owner
      submits claim 0, which opens its ballot. */
  method Onboard(adminKey: Key, judgeKey: Key, ownerKey: Key, height: Height)
    returns (rt: Runtime, statuses: seq<Status>)
    requires judgeKey != adminKey && ownerKey != judgeKey
    ensures fresh(rt.admin) && fresh(rt.judges) && fresh(rt.voting) && fresh(rt.credentials)
    ensures rt.Valid()
    ensures statuses == [Ok, Ok, Err(NotAdmin), Ok]
    ensures rt.judges.IsJudge(judgeKey) && !rt.judges.IsJudge(ownerKey)
    ensures var voteId := CredentialStore.CredId(CredentialStore.Credential(0, ownerKey));
      voteId in rt.credentials.credentials &&
      rt.voting.votes == map[voteId := VotingEngine.Vote(0, 0, height + 4)] &&
      rt.voting.votesCast == {}
  {
    rt := new Runtime();
    var s0 := rt.SetAdmin(adminKey, adminKey);
    var s1 := rt.AddJudge(adminKey, judgeKey);
    var s2 := rt.AddJudge(judgeKey, judgeKey);
    var s3 := rt.AddCredential(ownerKey, height + 3, 0);
    statuses := [s0, s1, s2, s3];
  }

  /** The next block of the integration scenario, J's yes vote at the ballot's expiry
      height, followed by four transactions that the test itself does not send: a vote
      from a non-judge, J's second vote, J's vote one block late and the same claim
      again, each rejected with its own reason. */
  method Deliberate(rt: Runtime, judgeKey: Key, ownerKey: Key, height: Height)
    returns (statuses: seq<Status>)
    requires rt.Valid()
    requires rt.judges.IsJudge(judgeKey) && !rt.judges.IsJudge(ownerKey)
    requires var voteId := CredentialStore.CredId(CredentialStore.Credential(0, ownerKey));
      voteId in rt.credentials.credentials &&
      rt.voting.votes == map[voteId := VotingEngine.Vote(0, 0, height + 4)] &&
      rt.voting.votesCast == {}
    modifies rt.voting, rt.credentials
    ensures rt.Valid()
    ensures statuses == [Ok, Err(NotJudge), Err(AlreadyCast), Err(VoteExpired), Err(CredentialExists)]
    ensures var voteId := CredentialStore.CredId(CredentialStore.Credential(0, ownerKey));
      rt.voting.votes == map[voteId := VotingEngine.Vote(1, 0, height + 4)]
  {
    var voteId := CredentialStore.CredId(CredentialStore.Credential(0, ownerKey));
    var s4 := rt.CastVote(judgeKey, height + 4, voteId, true);
    assert s4 == Ok;
    ghost var voted := rt.Snapshot();
    assert voted.votes == map[voteId := VotingEngine.Vote(1, 0, height + 4)];
    assert voted.votesCast == {(judgeKey, voteId)};
    var s5 := rt.CastVote(ownerKey, height + 4, voteId, false);
    assert rt.Snapshot() == voted;
    var s6 := rt.CastVote(judgeKey, height + 4, voteId, false);
    assert rt.Snapshot() == voted;
    var s7 := rt.CastVote(judgeKey, height + 5, voteId, false);
    assert rt.Snapshot() == voted;
    var s8 := rt.AddCredential(ownerKey, height + 5, 0);
    statuses := [s4, s5, s6, s7, s8];
  }

  /** The integration scenario end to end, extended by the four rejections of
      Deliberate: every transaction gets the expected status, the ballot ends with
      one yes and no no, the test's own rule finds the credential valid from the
      expiry height on, and the closed-ballot rule finds it valid once the ballot
      has closed. */
  method EndToEnd(adminKey: Key, judgeKey: Key, ownerKey: Key, height: Height)
    returns (statuses: seq<Status>, vote: VotingEngine.Vote, valid: bool)
    requires judgeKey != adminKey && ownerKey != judgeKey
    ensures statuses == [
      Ok, Ok, Err(NotAdmin), Ok, Ok, Err(NotJudge), Err(AlreadyCast), Err(VoteExpired), Err(CredentialExists)]
    ensures vote == VotingEngine.Vote(1, 0, height + 4)
    ensures IsCredentialValidAsWritten(Some(vote), height + 4)
    ensures valid
  {
    var rt, onboarding := Onboard(adminKey, judgeKey, ownerKey, height);
    var deliberation := Deliberate(rt, judgeKey, ownerKey, height);
    statuses := onboarding + deliberation;
    vote := rt.voting.votes[CredentialStore.CredId(CredentialStore.Credential(0, ownerKey))];
    valid := IsCredentialValid(Some(vote), height + 5);
  }
}
