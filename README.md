# Credential attestation chain — a Dafny model

This project models the runtime of a small credential-attestation chain built on
Protokit: four runtime modules whose keyed state is updated one transaction at a
time.

- **Admin** holds at most one admin key. The first caller may set it. After that only
  the current admin may replace it.
- **Judges** is an append-only map from key to "accredited", plus a counter of
  accreditations. Only the admin may add a judge.
- **Voting** holds yes/no ballots `{yay, nay, expiresAt}` keyed by an identifier, and a
  replay guard of (voter, ballot) pairs. A judge may vote once on a ballot, up to and
  including its expiry height.
- **Credentials** stores `{claim, owner}` under an identifier derived from that
  content. Storing a credential opens a ballot under the same identifier in the same
  transaction.

Each module is a Dafny class with the source's fields. The injected module references
are `const` fields (`Judges.admin`, `Voting.judges`, `Credentials.voting`). Every
runtime method takes the transaction's sender and the block height as explicit
parameters. It returns `Ok`, or `Err(reason)` with the reason of the first failing
assertion. `Common.Message` maps each reason to the source's status message. Every
method states its whole new state, and on `Err` that nothing changed.

`AppChain.Runtime` wires the four modules together as the runtime does. Its
invariant `Valid` says four things:

- the judge count never falls below the number of accredited keys;
- every replay-guard record names an existing ballot;
- each ballot's `yay + nay` equals the number of records naming it;
- credentials and ballots have exactly the same identifiers.

Its entry points keep that invariant. They also keep `Grows` from the old state to
the new one:

- the admin is never unset;
- judges stay accredited;
- tallies, the counter and the replay guard never shrink;
- expiry heights never move;
- credentials are never overwritten.

The integration test's scenario is stated, and proved, as `AppChain.EndToEnd`. It runs
through the runtime's entry points. It extends the test with four transactions that
the test does not send: a vote from a non-judge, the judge's second vote, the judge's
vote one block late, and the same claim again.

The Poseidon hash behind a credential identifier is modelled by `CredentialStore.CredId`.
It is the Cantor pairing of claim and owner, which is deterministic and provably
injective. The replay-guard key, a hash of (voter, ballot), is modelled by the pair
itself.

## Model

| member | source | states |
|---|---|---|
| `AdminRegistry.Admin.constructor` | packages/chain/src/admin.ts:12 | no admin is stored initially |
| `AdminRegistry.Admin.SetAdmin` | packages/chain/src/admin.ts:15-27 | succeeds iff no admin is stored or the sender is the admin; on success the stored admin is the argument (a hand-over to any key, itself included); on failure the reason is CannotSetAdmin and the admin is unchanged; a stored admin is never unset |
| `AdminRegistry.Admin.AssertSenderIsAdmin` | packages/chain/src/admin.ts:29-33 | succeeds iff the sender equals the stored admin (no admin: nobody passes), otherwise fails with NotAdmin; writes nothing |
| `JudgePool.Judges.constructor` | packages/chain/src/judges.ts:14-19 | the pool is wired to the admin module, starts empty with count 0, and satisfies its invariant |
| `JudgePool.Judges.AddJudge` | packages/chain/src/judges.ts:22-27 | succeeds iff the sender is the admin, else fails with NotAdmin and changes neither map nor count; on success the entry for the judge is true, no other entry changes, the count grows by exactly 1 even for a judge already accredited; the accredited set only grows and never outnumbers the count |
| `JudgePool.Judges.AssertSenderIsJudge` | packages/chain/src/judges.ts:30-33 | succeeds iff the sender's entry is present and true; an absent entry fails with NotJudge |
| `VotingEngine.NewVote` | packages/chain/src/voting.ts:36-44 | a new ballot has zero tallies and accepts votes from its creation height through VOTE_DURATION more blocks, and not one block later |
| `VotingEngine.Tallied` | packages/chain/src/voting.ts:74-84 | one vote raises the chosen side by exactly one and leaves the other side and the expiry unchanged |
| `VotingEngine.IsOpen` | packages/chain/src/voting.ts:57-60 | a ballot is open iff the height is at most its expiry height, so a vote at the expiry height itself is still accepted |
| `VotingEngine.CastVoteStatus` | packages/chain/src/voting.ts:50-69 | the judge, existence, expiry and replay checks in that order; the first failing one gives the reason, and the vote is accepted iff all four pass |
| `VotingEngine.CastsOnAdd` | packages/chain/src/voting.ts:63-71 | recording a new (voter, ballot) pair adds exactly one cast to that ballot and none to any other |
| `VotingEngine.CastsOnAbsent` | packages/chain/src/voting.ts:32-34 | a ballot that no replay-guard record names has no casts, so a new ballot's zero tallies match |
| `VotingEngine.Voting.constructor` | packages/chain/src/voting.ts:24-30 | the engine is wired to the judge pool and starts with no ballots and no casts |
| `VotingEngine.Voting.CreateVote` | packages/chain/src/voting.ts:32-45 | fails with VoteExists, changing nothing, iff a ballot exists at the id; otherwise stores the new ballot at the id, touches no other ballot and the replay guard not at all, and keeps the tally invariant |
| `VotingEngine.Voting.CastVote` | packages/chain/src/voting.ts:48-87 | the judge, existence, expiry (inclusive: voting at the expiry height is allowed) and replay checks run in that order and the first failing one gives the reason; on failure nothing changes; on success the pair (sender, id) is recorded and the ballot is tallied, with every other ballot unchanged; yay + nay stays equal to the number of recorded casts |
| `CredentialStore.TriGap` | packages/chain/src/credentials.ts:35 | diagonals of the identifier pairing do not overlap |
| `CredentialStore.CredId` | packages/chain/src/credentials.ts:35 | the credential id is computed from the claim and the owner alone, and lies on the diagonal of claim + owner: at least Tri(claim + owner) and below Tri(claim + owner + 1) |
| `CredentialStore.CredIdInjective` | packages/chain/src/credentials.ts:30-35 | the credential id is a deterministic function of (claim, owner) and distinct credentials get distinct ids |
| `CredentialStore.Credentials.constructor` | packages/chain/src/credentials.ts:19-26 | the store is wired to the voting engine and starts empty |
| `CredentialStore.Credentials.AddCredential` | packages/chain/src/credentials.ts:29-42 | the credential is owned by the sender and stored under CredId(claim, sender); fails with CredentialExists if that id is stored, or with VoteExists if a ballot already has it, and then changes nothing at all; on success it stores the credential and opens a fresh ballot at the same id, all or nothing |
| `Common.MessageInjective` | packages/chain/src/voting.ts:34-69 | distinct rejection reasons carry distinct status messages; the messages are those of voting.ts:34, 54, 60 and 69, admin.ts:23 and 32, judges.ts:32 and credentials.ts:38 |
| `AppChain.Runtime.constructor` | packages/chain/test/integration.test.ts:30-44 | the four modules are created fresh and wired admin to judges to voting to credentials, with empty state satisfying the invariant |
| `AppChain.Runtime.SetAdmin` | packages/chain/src/admin.ts:15-27 | succeeds iff no admin is stored or the sender is the admin; on success the new state is the old one with the admin set to the argument; otherwise the reason is CannotSetAdmin and the whole state is unchanged; keeps the invariant and Grows, so the admin, once set, is never absent again |
| `AppChain.Runtime.AddJudge` | packages/chain/src/judges.ts:22-27 | succeeds iff the sender is the admin; on success the new state is the old one with the judge's entry set to true and the count one higher, even on a re-add; otherwise the reason is NotAdmin and the whole state is unchanged; keeps the invariant (accredited keys never outnumber the count) and Grows |
| `AppChain.Runtime.AddCredential` | packages/chain/src/credentials.ts:29-42 | fails with CredentialExists, changing nothing, iff CredId(claim, sender) is already stored, and otherwise succeeds; on success the new state is the old one plus the credential {claim, sender} and a fresh ballot, both at that id; keeps the credential and ballot identifiers equal, so VoteExists is never the outcome; credentials are never overwritten |
| `AppChain.Runtime.CastVote` | packages/chain/src/voting.ts:48-87 | the outcome is CastVoteStatus of (sender is a judge, the stored ballot, already voted, height), so the checks run in the source's order; on success the new state is the old one with (sender, id) recorded and the ballot tallied on the chosen side; otherwise the whole state is unchanged; keeps yay + nay equal to the recorded casts per ballot, tallies never decrease and expiry never changes |
| `AppChain.IsCredentialValidAsWritten` | packages/chain/test/integration.test.ts:142-145 | the test's rule: a valid credential has a ballot on which yes outnumbers no, and every credential valid under the closed-ballot rule is valid under it |
| `AppChain.AsWrittenVerdictNotFinal` | packages/chain/test/integration.test.ts:142-147 | under the test's rule a ballot at its expiry height is already judged valid while it still accepts a vote that reverses the verdict |
| `AppChain.VerdictsDifferOnlyAtExpiry` | packages/chain/test/integration.test.ts:142-147 | the closed-ballot verdict agrees with the test's rule at every height except the expiry height itself |
| `AppChain.VerdictIsFinal` | packages/chain/test/integration.test.ts:142-147 | once a ballot is valid under the closed-ballot rule, every later vote on it is rejected whoever sends it (CastVoteStatus is an Err, so CastVote changes nothing) and the credential stays valid at every later height |
| `AppChain.Onboard` | packages/chain/test/integration.test.ts:54-107 | through the runtime's entry points: admin sets itself, adds judge J; J cannot add a judge (NotAdmin); the owner's claim 0 is stored and opens a ballot expiring one block after its creation; the runtime invariant holds |
| `AppChain.Deliberate` | packages/chain/test/integration.test.ts:109-129 | J's yes vote at the expiry height succeeds, as in the test; then four transactions the test does not send are rejected: a non-judge (NotJudge), J again (AlreadyCast), J one block late (VoteExpired) and the same claim again (CredentialExists); the ballot ends at yay 1, nay 0 and the runtime invariant holds |
| `AppChain.EndToEnd` | packages/chain/test/integration.test.ts:54-147 | the test's scenario, extended by the four rejections of Deliberate, yields exactly the expected statuses and the ballot yay 1, nay 0; the test's own rule finds the credential valid from the expiry height on, and the closed-ballot rule once the ballot has closed |

## Left out

- Poseidon hashing and field encoding are not modelled. `CredId` is an injective pairing, and the replay-guard key is the pair (voter, ballot) itself. Hash collisions are therefore excluded.
- o1js circuit types are not modelled. `UInt64` and `Field` become `nat`. Range checks, overflow of `height + VOTE_DURATION` and of the tallies, and arithmetic modulo the field prime are not modelled. `Provable.if` becomes an ordinary conditional.
- The Protokit runtime plumbing is not modelled: decorators, `State`/`StateMap` persistence and dependency injection. State lives in class fields, and injected modules are constructor arguments.
- The sender and the block height are ambient in the source. Here they are parameters. Block production, signing and the query API are not modelled.
- A failed `assert` in the source keeps executing the circuit, and the transaction's writes are discarded at the end. The model returns at the first failing check. The outcome is the same: the first failing assertion's message, and no write persists.
- `AdminRegistry.Admin.AssertSenderIsAdmin`: with no admin stored, the source compares the sender with the default key of the empty option. The model fails closed instead: nobody is admin. It does not model a sender that happens to equal that default key.
- `VOTE_DURATION` is the constant 1, as in the source. It is not a configuration value.
- The replay guard is a set of pairs, not a map to `true`. The source only ever writes `true` and only tests for presence, so the two are equivalent.

## Findings

| source | as written | input that shows it | evidently intended | confidence | as-written member | corrected member |
|---|---|---|---|---|---|---|
| packages/chain/test/integration.test.ts:142-147 | a credential counts as valid once `expiresAt <= height` and `yay > nay`, but `castVote` still accepts votes at `height == expiresAt` (packages/chain/src/voting.ts:57-60) | ballot `{yay 1, nay 0, expiresAt 5}` read at height 5 is valid; a second judge's "no" vote at height 5 is accepted and makes it `{1, 1, 5}`, invalid | a verdict is read only after the ballot has closed, `height > expiresAt` | low: the test's query height may already lie past the expiry; not executed | `AppChain.AsWrittenVerdictNotFinal` | `AppChain.VerdictIsFinal` |
