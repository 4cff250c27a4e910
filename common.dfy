/** Vocabulary shared by the four runtime modules of the chain: identities,
    identifiers, block heights and the outcome of a runtime method. */
module Common {

  /** A public key: the identity of a transaction sender, an admin or a judge. */
  type Key = nat

  /** A field element used as the identifier of a credential and of its ballot. */
  type Id = nat

  /** A block height, the only clock the runtime knows. */
  type Height = nat

  /** A possibly absent stored value. */
  datatype Option<+T> = None | Some(value: T)

  /** Why a transaction was rejected: one reason per assertion of the runtime. */
  datatype Reason =
    | CannotSetAdmin
    | NotAdmin
    | NotJudge
    | VoteExists
    | VoteMissing
    | VoteExpired
    | AlreadyCast
    | CredentialExists

  /** The status message a rejected transaction carries. */
  function Message(r: Reason): string
  {
    match r
    case CannotSetAdmin => "Only the current admin can set the admin, or if there is no admin yet"
    case NotAdmin => "Sender is not admin"
    case NotJudge => "Sender is not a judge"
    case VoteExists => "Vote already exists"
    case VoteMissing => "Vote does not exist"
    case VoteExpired => "Vote has expired"
    case AlreadyCast => "Vote has already been cast"
    case CredentialExists => "Credential already exists"
  }

  /** Distinct reasons carry distinct messages, so a caller reading the status
      message knows which check failed. */
  lemma MessageInjective(r1: Reason, r2: Reason)
    requires Message(r1) == Message(r2)
    ensures r1 == r2
  {
    match r1
    case CannotSetAdmin =>
    case NotAdmin =>
    case NotJudge =>
    case VoteExists =>
    case VoteMissing =>
    case VoteExpired =>
    case AlreadyCast =>
    case CredentialExists =>
  }

  /** What a runtime method does with its transaction: commit every write it made,
      or reject it, writing nothing, with the reason of the first failing assertion. */
  datatype Status = Ok | Err(reason: Reason)
}
