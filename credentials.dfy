/** The credential store: claims stored under an identifier derived from their
    content, each opening its ballot in the voting engine in the same transaction. */
module CredentialStore {
  import opened Common
  import VotingEngine


  /** A claim is a single field element. */
  type Claim = nat

  datatype Credential = Credential(claim: Claim, owner: Key)

  /** The triangular numbers 0, 1, 3, 6, ... */
  function Tri(n: nat): nat
  {
    n * (n + 1) / 2
  }

  /** Each triangular number exceeds the previous one by its index. */
  lemma TriStep(n: nat)
    ensures Tri(n + 1) == Tri(n) + n + 1
  {
    assert (n + 1) * (n + 2) == n * (n + 1) + 2 * (n + 1);
  }

  /** Consecutive diagonals of the pairing do not overlap: the last identifier on
      diagonal `a` lies below the first one on any later diagonal `b`. */
  lemma {:induction false} TriGap(a: nat, b: nat)
    requires a < b
    ensures Tri(a) + a < Tri(b)
  {
    TriStep(b - 1);
    if b > a + 1 {
      TriGap(a, b - 1);
    }
  }

  /** The identifier of a credential, a deterministic function of its claim and its
      owner (the Cantor pairing of the two, standing in for the hash). It lies on the
      diagonal claim + owner, at the position given by the owner. */
  function CredId(c: Credential): (id: Id)
    ensures Tri(c.claim + c.owner) <= id < Tri(c.claim + c.owner + 1)
  {
    TriStep(c.claim + c.owner);
    Tri(c.claim + c.owner) + c.owner
  }

  /** Distinct credentials get distinct identifiers: the same claim from another
      owner is an independent credential. */
  lemma CredIdInjective(c1: Credential, c2: Credential)
    requires CredId(c1) == CredId(c2)
    ensures c1 == c2
  {
    var d1, d2 := c1.claim + c1.owner, c2.claim + c2.owner;
    if d1 < d2 {
      TriGap(d1, d2);
    } else if d2 < d1 {
      TriGap(d2, d1);
    }
  }

  class Credentials {
    /** The voting engine that receives a ballot for every stored credential. */
    const voting: VotingEngine.Voting
    var credentials: map<Id, Credential>

    constructor (voting: VotingEngine.Voting)
      ensures this.voting == voting
      ensures credentials == map[]
    {
      this.voting := voting;
      credentials := map[];
    }

    /** Stores the sender's claim under its identifier and opens a ballot under the
        same identifier. Either both writes happen or neither does: a duplicate
        credential, or a ballot already present, rejects the whole call. */
    method AddCredential(sender: Key, height: Height, claim: Claim) returns (s: Status)
      requires voting.Valid()
      modifies this, voting
      ensures voting.Valid()
      ensures var id := CredId(Credential(claim, sender));
        s == if id in old(credentials) then Err(CredentialExists)
             else if id in old(voting.votes) then Err(VoteExists)
             else Ok
      ensures s.Err? ==> credentials == old(credentials) && voting.votes == old(voting.votes)
      ensures var id := CredId(Credential(claim, sender));
        s.Ok? ==> credentials == old(credentials)[id := Credential(claim, sender)]
                  && voting.votes == old(voting.votes)[id := VotingEngine.NewVote(height)]
      ensures voting.votesCast == old(voting.votesCast)
    {
      var credential := Credential(claim, sender);
      var credentialId := CredId(credential);
      if credentialId in credentials {
        return Err(CredentialExists);
      }
      var before := credentials;
      credentials := credentials[credentialId := credential];
      s := voting.CreateVote(credentialId, height);
      // a rejected ballot reverts the credential write with the rest of the transaction
      credentials := if s.Ok? then credentials else before;
    }
  }
}
