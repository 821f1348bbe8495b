# Verification of Revoked

A Dafny model of the parts of Revoked that hold its promises together, with
proofs of those promises. `dafny verify dfyconfig.toml` checks all of it.

| files | what they model |
|---|---|
| Encoding, EncodingShapes, Statements | the byte strings a sealed device signs |
| SealedChain, SealedChainTheorems | a person's signed, append-only device list |
| PairwiseSubject | the input of the pairwise-subject MAC |
| RateLimiter, RateLimiterTheorems | the sliding-window rate limiter |
| Attestations, AttestationsTheorems, StatusList | accepting, moving, editing and deleting attestations, and the list of revoked positions |
| AttestationChecks | asking someone to show an attestation, and the one verdict |
| Filter, ScopeList, Rules, Access, AccessDiagnosis, AccessTheorems, AccessPreflight | one access declaration, printed as a rule and interpreted as a diagnosis, and the preflight that asks for one |
| Catalogue, Grants, Surfaces, KeyReach | the permission catalogue, its expansion and its inverse |
| Membership, MembershipStore, MembershipTheorems, Governance, Delegation, MembershipRuns | members, invites and keys, who is left to administer, and what may be handed on |
| Records, RecordsTheorems | vault entries: files, aliases and sealed values |
| Identities, IdentitiesTheorems, IdentitiesRows | identities, their revocation and their tombstones |
| Results, Sorting | what may be missing or refused, and sorting under a linear order |
| LoadStats, Receiver | the load test's measurements and the example webhook receiver |

Code that changes state is a class or a method in the source's own form, and its
contract equates the new state with a function of the old; the theorems are
about that function. A run is a sequence of steps, each one transaction or one
critical section, and what a request read before its transaction is of any age:
a parameter, an index into the states the run has passed, or, for identities, a
request under way whose hooks and save are steps of their own.

## What the proofs rest on

- Hashes, signatures, MACs and presentations are uninterpreted functions. Where
  a theorem needs one not to collide, its `requires` says so for the values at
  hand (`HashBinds`, `AnchorsBind`).
- Clock readings, random draws and new ids are parameters. The rate limiter's
  theorems ask that attempts come with ordered times: the source reads the clock
  before it takes its lock.
- A fingerprint is never generated twice, nor one that a request has sent before;
  a check id is never generated twice. Attestation, record, identity, member,
  invite and key ids may be reused.
- A save writes back every column of the row it loaded
  (cmd/revoked/hooks/sealed.go:86-89), and writes nothing where that row is gone.

## Where the code and its documentation part

The model follows the code. Each promise below is stated with the exact condition
on which it holds, both ways; the runs and cases named with it are on the failing
side.

- "No two different contexts encode alike" (util/sealedchain.go:21-23) holds for
  one shape of parts; two shapes can share bytes exactly when they meet:
  `ContextsShareExactly`, `ShapeMatters`.
- A standing credential names the present subject (attestationReissue.go) unless
  an edit writes a stale row back over it: `StandingMeansSubject`,
  `StaleEditSharesAPosition`.
- Nothing comes back from revoked (hooks/attestations.go:190-205) unless an edit
  that loaded the row otherwise asks for another status: `NothingComesBack`,
  `RevokedRowIsFixed`, `StaleEditReopens`.
- Rule and diagnosis "must never disagree" (util/access.go:32-34) holds exactly
  when a key has both scopes the two ask for or neither. They ask for different
  ones in a split-origin spec without a vault scope, which no collection declares,
  and on every response row of one reached through the preflight, which never says
  that a row is a response: `RuleAgreesWithDiagnosis`, `PreflightAgreesWithRule`,
  `SplitWithoutVaultScopeDisagrees`, `ResponseUpdateIsRefused`. For members:
  `PreflightAsksThePermission`, `VaultPermissionReachesResponse`.
- "A grant can never exceed what the granter holds" (services/invites.go:12-14)
  holds of what was read of the granter, but for a row stored without permissions
  under the admin role, which reads as the full set: `StoredRowWithinGranter`,
  `EmptyGrantOfTheAdminRole`, `StaleGrantRegains`.
- "A workspace must always keep someone who can manage membership"
  (hooks/workspaceMembers.go:44-45) holds exactly when each write that removes or
  demotes an administrator finds another where it commits; two concurrent removals
  need not, nor an update that moves the row away: `GovernedThroughout`,
  `BothLeave`, `MovedFounder`.
- "A workspace must always retain a member holding both" administering permissions
  (util/permissions.go:163-165): the guard keeps the first of them only:
  `BothThroughout`, `NarrowedFounder`.
- At most fifty members (hooks/workspaceMembers.go:159-176) unless an update moves
  a row into a full workspace: `SizeThroughout`.
- A stale save never undoes a seal (hooks/sealed.go:86-91) within one life of an
  entry; a deleted id that is sealed anew can repeat a version:
  `SaveChangesSealingExactly`, `ReusedIdTakesStaleSave`.
- An identity goes from active to revoked, never back (hooks/identities.go:181-187)
  unless a save whose hook read it active lands after it was revoked:
  `RevokedThroughout`, `RevocationIsFinal`, `StaleEditReinstates`.
- A fingerprint is unknown only if it was never issued (services/identities.go:79-83)
  unless a save or delete meets a row of another fingerprint: `AnswersAreDefinite`,
  `ReusedIdTakesStaleEdit`.
- At most one identity stays primary (hooks/identities.go:241-244) unless two
  requests demote before either saves: `OnePrimaryThroughout`, `TwoPrimaries`.
- A revoked identity holds no copy of its key (hooks/identities.go:216-218)
  unless it was revoked by the end of a membership, or its update's hook found no
  row: `RevokedKeepNothing`, `LeavingKeepsTheKey`, `ReusedIdTakesStaleEdit`.

## Model

| member | source | states |
|---|---|---|
| Encoding.SealedContext | util/sealedchain.go:24-44 | the buffer the loop builds is the label and each part in order, each string or byte slice after its 32-bit length, each integer in eight bytes |
| Encoding.U32Wraps | util/sealedchain.go:26-29 | a length is four bytes, and two lengths are written alike if and only if they are equal modulo 2^32 |
| Encoding.U64Injective | util/sealedchain.go:37-38 | two 64-bit integers with the same eight bytes are the same, negative ones included |
| Encoding.BigEndianRoundTrip | util/sealedchain.go:27-38 | a number that fits k bytes is read back from its k bytes |
| Encoding.FromBigEndianRoundTrip | util/sealedchain.go:27-38 | k bytes are read back from the number they spell |
| Encoding.LabelUnique | util/sealedchain.go:21-30 | whatever the parts and whatever follows, a context names one label |
| Encoding.PartsUnique | util/sealedchain.go:31-42 | the bytes of a list of parts of a known shape split only one way, whatever follows |
| Encoding.ContextUnique | util/sealedchain.go:21-44 | for one part shape a context is self-delimiting: bytes that begin with a context begin with only that one |
| Encoding.ShapeMatters | util/sealedchain.go:21-23 | across shapes the documented claim fails: under any label every four-byte string encodes as some integer does |
| EncodingShapes.ShapesShareExactly | util/sealedchain.go:21-44 | some parts of one shape are encoded as some of another if and only if, where the shapes first differ, one has a blob and the other a number, and the side with the number has a blob further on or room for what the other side still takes |
| EncodingShapes.ContextsShareExactly | util/sealedchain.go:21-44 | some contexts of two labels and shapes are the same bytes if and only if the labels are one and the shapes meet so |
| Statements.TagsDistinct | util/sealedchain.go:95-143 | the six labels are pairwise different |
| Statements.PayloadUnique | util/sealedchain.go:94-143 | no two signed statements, of one kind or of two, share their bytes, even when other bytes follow |
| Statements.PayloadInjective | util/sealedchain.go:94-143 | a signature over one statement is over no other |
| Statements.AccountWrapsApart | util/sealedchain.go:120-138 | a wrap of an account key never has the bytes of a wrap of a workspace key, ids being free of colons |
| SealedChain.Chain.Load | util/sealedchain.go:157-165 | appends the entry and keeps the removed map equal to the set of removal targets |
| SealedChain.Chain.Append | util/sealedchain.go:169-175 | appends exactly the acceptable entries, leaves the list alone otherwise, and keeps it one that Append alone can build |
| SealedChain.Chain.IsAcceptable | util/sealedchain.go:177-219 | decides acceptance: numbering, previous hash, valid keys, a live signer, the signature, the cap, and the anchors of recovery keys and passkeys |
| SealedChain.Chain.IsLiveSeq | util/sealedchain.go:244-247 | an added entry that nothing removed |
| SealedChain.Chain.ListLive | util/sealedchain.go:250-258 | the live numbers in order |
| SealedChain.Chain.LivePasskey | util/sealedchain.go:261-268 | finds a live entry of the credential exactly when there is one |
| SealedChain.Chain.LiveRecovery | util/sealedchain.go:271-278 | finds a live recovery entry exactly when there is one |
| SealedChain.Rebuild | util/sealedchain.go:156-165 | reading a stored list back entry by entry gives the same state that Append left |
| SealedChain.AppendAll | util/sealedchain.go:167-175 | whatever entries are offered in whatever order, what is kept is a list Append can build |
| SealedChainTheorems.AcceptableFacts | util/sealedchain.go:177-219 | what every acceptance establishes |
| SealedChainTheorems.AcceptedPrefix | util/sealedchain.go:169-219 | every prefix of an accepted list is accepted, and accepts the entry after it |
| SealedChainTheorems.Numbered | util/sealedchain.go:178-222 | entry i carries the number i + 1 |
| SealedChainTheorems.LiveListsLiveSet | util/sealedchain.go:243-258 | Live lists exactly the live numbers, each once |
| SealedChainTheorems.LiveStep | util/sealedchain.go:156-165 | an accepted add makes exactly its number live, an accepted removal ends exactly its target |
| SealedChainTheorems.LiveCount | util/sealedchain.go:16-19 | the live count is adds minus removals and never passes 32 |
| SealedChainTheorems.RemovalsTargetDistinctAdds | util/sealedchain.go:195-197 | each removal ends an earlier add, no two the same one |
| SealedChainTheorems.LiveRivalsAreOne | util/sealedchain.go:205-215 | at most one recovery key is live, and one entry for any passkey |
| SealedChainTheorems.TrustPath | util/sealedchain.go:189-194 | from any entry a path of signers leads back to entry 1 |
| SealedChainTheorems.TrustDerivation | util/sealedchain.go:185-194 | along that path each signer is earlier, was live when it signed, and its key verifies the signature; entry 1 signed itself |
| SealedChainTheorems.RemovedForever | util/sealedchain.go:162-164 | a removed entry is live in no later prefix and signs nothing later |
| SealedChainTheorems.AddsAreProven | util/sealedchain.go:181-215 | every added entry has two valid keys, and one that joins by anchor signed the first entry's hash with its own key |
| SealedChainTheorems.DeadListAcceptsNothing | util/sealedchain.go:189-191 | a non-empty list with no live entry accepts nothing |
| SealedChainTheorems.SharedHashSharesPrefix | util/sealedchain.go:101-105 | two accepted lists that share one hash agree up to it, at the same place |
| SealedChainTheorems.HeadHashCommits | util/sealedchain.go:228-233 | two accepted lists have equal head hashes if and only if they have equal length and agree on every field but CredentialID |
| SealedChainTheorems.HeadHashCommitsPasskeys | util/sealedchain.go:82-84 | CredentialID, outside the hash, is fixed by it all the same, through the anchor signature |
| PairwiseSubject.FeedMac | util/oidc.go:77-88 | what the MAC is fed: client, user and workspace between NUL bytes, and a version above zero |
| PairwiseSubject.MacInputUnique | util/oidc.go:71-88 | for NUL-free ids two inputs are equal if and only if client, user and workspace are, and the versions are equal or both below one |
| RateLimiter.Compact | util/ratelimit.go:48-53 | filtering a history into the front of the very array it is read from is a filter |
| RateLimiter.Append | util/ratelimit.go:58 | append in place or into a larger array |
| RateLimiter.Limiter.AllowAt | util/ratelimit.go:37-60 | one attempt: the new state and the answer, with no two keys ever sharing a backing array |
| RateLimiter.Limiter.ResetKey | util/ratelimit.go:63-70 | forgets one key and nothing else |
| RateLimiter.Limiter.CollectLocked | util/ratelimit.go:74-91 | drops the expired keys once a window has passed, and only those |
| RateLimiterTheorems.Replay | util/ratelimit.go:11-70 | the object, driven through any sequence of attempts and resets, answers as the model |
| RateLimiterTheorems.AllowStep | util/ratelimit.go:37-60 | an attempt passes exactly when its key has fewer than the limit in its window; other keys keep what counts |
| RateLimiterTheorems.LimiterIsExact | util/ratelimit.go:34-60 | with ordered times an attempt passes if and only if fewer than limit attempts on its key were accepted in its window since the key's last reset, counted over the whole history |
| RateLimiterTheorems.WindowBound | util/ratelimit.go:11-12 | no window of that length, wherever it lies, holds more than limit accepts of one key |
| RateLimiterTheorems.RefusalChangesNoAnswer | util/ratelimit.go:34-36 | erasing a refused attempt changes no later answer, for that key or any other |
| RateLimiterTheorems.CollectionLeavesOnlyLiveKeys | util/ratelimit.go:72-91 | after a collection a key remains if and only if it has a hit inside the window |
| Attestations.Store.RevokeAttestationStatus | cmd/revoked/services/attestations.go:195-212 | sets the bit and the time of every unrevoked position of the attestation, and of no other |
| Attestations.Store.AllocateStatusPosition | cmd/revoked/services/attestations.go:150-189 | saves the first of at most 64 draws that no position has |
| Attestations.Store.AllocateAttestationStatus | cmd/revoked/services/attestations.go:99-123 | the unrevoked position, failing that the last, failing that a fresh one |
| Attestations.Store.RenewAttestationStatus | cmd/revoked/services/attestations.go:125-134 | revokes every position of the attestation and adds a fresh one |
| Attestations.PositionAt | cmd/revoked/services/attestations.go:136-148 | the row of a position, or none when nothing was issued there |
| Attestations.Store.ClaimOffer | cmd/revoked/routes/attestations.go:314-359 | the accepting transaction, its refusals and its roll-back |
| Attestations.Store.StandingAttestation | cmd/revoked/routes/attestationReissue.go:231-253 | the look: the attestation a credential stands for, and whether it was moved to the asker before |
| Attestations.Store.ReissueCredential | cmd/revoked/routes/attestationReissue.go:141-209 | the commit: read again, move or hand out again, or refuse, and roll back when no position is free |
| Attestations.RequestRecord.ApplyTransition | cmd/revoked/hooks/attestations.go:194-216 | what an update makes of the row it loaded: nothing comes back from revoked, only accepting makes active |
| Attestations.Store.UpdateAttestation | cmd/revoked/hooks/attestations.go:84-114 | an update request, and the bits of a revoked row set with it |
| Attestations.Store.DeleteAttestation | cmd/revoked/hooks/attestations.go:116-125 | a deletion revokes every position of the row |
| AttestationsTheorems.StepKeeps | cmd/revoked/routes/attestationReissue.go:141-209 | every accept, move, repeat, edit and deletion keeps the invariant of the list and only extends it |
| AttestationsTheorems.RunKeeps | cmd/revoked/services/attestations.go:191-212 | over every interleaving, looks and loads of any age included: positions keep their place and attestation, a set bit and its time never change |
| AttestationsTheorems.StatusListSafety | cmd/revoked/services/attestations.go:99-134 | in every reachable state: no position is shared, at most one per attestation is unrevoked, a revoked or deleted attestation has none, no position is moved from twice |
| AttestationsTheorems.DeadStaysDead | cmd/revoked/services/attestations.go:104-107 | an issued attestation without a standing position never has one again, over every run, even with stale edits and a reused id |
| AttestationsTheorems.RevocationIsForever | cmd/revoked/hooks/attestations.go:103-125 | deleting or revoking an issued attestation ends it for good |
| AttestationsTheorems.StandingMeansSubject | cmd/revoked/routes/attestationReissue.go:211-220 | over a whole run, every credential at a standing position names the present subject in every state passed, if and only if no edit wrote another subject or status back over a standing credential |
| AttestationsTheorems.AgreeStep | cmd/revoked/hooks/attestations.go:84-101 | one step keeps that agreement exactly when it is not such an edit |
| AttestationsTheorems.EditAgrees | cmd/revoked/hooks/attestations.go:197-216 | the exact condition on an edit |
| AttestationsTheorems.StaleEditSharesAPosition | cmd/revoked/hooks/attestations.go:84-101 | an offer loaded before it was accepted and saved after it: two identities hold credentials at one position |
| AttestationsTheorems.CommitAgreesWithLook | cmd/revoked/routes/attestationReissue.go:142-174 | after any interleaving a commit goes through exactly when a look taken now would allow it, but for draws running out |
| AttestationsTheorems.OneHandover | cmd/revoked/routes/attestationReissue.go:42-48 | after a move from a credential no second move from it commits, though its subject may have come back |
| AttestationsTheorems.AgainChangesNothing | cmd/revoked/routes/attestationReissue.go:153-162 | a repeat hands out the current position and changes nothing |
| AttestationsTheorems.LostAnswer | cmd/revoked/routes/attestationReissue.go:222-230 | after a move the same request is looked at as a repeat and returns exactly the credential the move issued; the old one is refused to anyone else and the new one stands |
| AttestationsTheorems.RevokedRowStep | cmd/revoked/hooks/attestations.go:190-216 | one step on a revoked row: it stays revoked exactly when the step is no edit that loaded it otherwise and asks for another status, and stays wholly as it was exactly when what an edit makes of its load is the stored row |
| AttestationsTheorems.NothingComesBack | cmd/revoked/hooks/attestations.go:190-205 | over every run, a revoked row is revoked in every state passed while it exists, if and only if every edit of it loaded a revoked row or asks for revoked |
| AttestationsTheorems.RevokedRowIsFixed | cmd/revoked/hooks/attestations.go:202-205 | over every run it keeps time and reason too if and only if the transition of what each edit loaded is the stored row, whatever was loaded |
| AttestationsTheorems.StaleEditReopens | cmd/revoked/hooks/attestations.go:84-101 | loaded while active, revoked by another request, then saved: the row is active again |
| StatusList.List.Revoke | cmd/revoked/server/sdjwt.go:650-656 | sets one bit, packed from the least significant, and no other |
| StatusList.List.Revoked | cmd/revoked/server/sdjwt.go:658-665 | reads a bit, and says when the list does not reach it |
| StatusList.SetBit | cmd/revoked/server/sdjwt.go:652-664 | setting one bit of a byte leaves the other seven |
| StatusList.StatusListSize | cmd/revoked/services/attestations.go:90-97 | the smallest doubling of 1024 with twice the count and past the highest position |
| StatusList.ListSize | cmd/revoked/services/attestations.go:44-47 | at least half the published positions are free, whole bytes, and no more than four times too large |
| StatusList.AttestationStatusList | cmd/revoked/services/attestations.go:215-232 | the published list reaches every position given out, and a bit is set exactly where the position is revoked |
| StatusList.PublishedGrows | cmd/revoked/services/attestations.go:191-194 | a list published later reaches at least as far and repeats every set bit |
| StatusList.UnsetBitMeansStanding | cmd/revoked/routes/attestationReissue.go:211-220 | every credential issued is reached by the list; one whose bit is unset names the present subject of an attestation in force |
| AttestationChecks.OpenCheck | cmd/revoked/routes/attestationChecks.go:168-179 | a check can be answered exactly while it is open and has not expired |
| AttestationChecks.Store.LookUp | cmd/revoked/routes/attestationChecks.go:227-243 | the look of an answer: refused unless open, refused when what was shown is no presentation |
| AttestationChecks.Store.Update | cmd/revoked/routes/attestationChecks.go:249-267 | the guarded update: one verdict, only while open and before expiry |
| AttestationChecks.OneVerdict | cmd/revoked/routes/attestationChecks.go:212-216 | in every reachable state a stored verdict was earned by a presentation for this very check, landed before expiry, and is the only one ever stored |
| AttestationChecks.VerdictNeverChanges | cmd/revoked/routes/attestationChecks.go:249-267 | an answered check keeps its verdict until deleted, and a deleted one never reads as anything again |
| AttestationChecks.RaceHasOneWinner | cmd/revoked/routes/attestationChecks.go:212-216 | of two answers that looked while the check was open the first update lands and the second is refused |
| AttestationChecks.UnreadableLeavesOpen | cmd/revoked/routes/attestationChecks.go:239-243 | what is no presentation leaves every check as it was |
| Filter.ParsePrint | migrations/000039_fix_workspace_type_immutability.go:11-15 | every rule reads back as it was written, && binding tighter than \|\| |
| Filter.LexPrint | util/rules.go:13-55 | a printed rule splits into its words, whatever follows it |
| Filter.AttachPrints | util/access.go:43-46 | the parenthesised rule with a further clause, as a tree |
| Filter.AttachMeans | util/access.go:43-46 | the clause holds of the whole rule exactly when it has no alternative of its own that holds where the rule does not |
| Filter.UnparenthesizedClauseReachesLastBranch | migrations/000039_fix_workspace_type_immutability.go:11-15 | without the parentheses the clause reaches the last branch only |
| Rules.SelfPrints | util/rules.go:58-60 | the owner rule is the text of its tree |
| Rules.MemberPrints | util/rules.go:64-88 | the member rules are the text of one tree |
| Rules.SplitPrints | util/rules.go:94-106 | the split-origin rule is the text of its tree |
| Rules.AdminPrints | util/rules.go:114-121 | the permission rule is the text of its tree |
| Rules.AdminSelfPrints | util/rules.go:125-133 | the owning-admin rule is the text of its tree |
| ScopeList.QuotedTestIsMembership | util/rules.go:43-50 | for clean scopes the substring test on the stored list is exact membership, but that a lone comma is found in any list of two |
| Access.RuleReadsBack | util/access.go:60-80 | for every kind the rule, read back, is the declared tree, and an extra clause is joined to the whole of it |
| AccessTheorems.RuleMeansDeclared | util/rules.go:13-26 | the rule, every comparison seeing one joined membership row, admits exactly whom the spec declares |
| AccessTheorems.ExtraNarrowsEveryBranch | util/access.go:43-46 | an extra clause without alternatives narrows people and keys alike |
| AccessDiagnosis.Diagnosis.constructor | util/access.go:110-128 | the errors of one diagnosis: none for a superuser, one for nobody, else those of a key or a person |
| AccessDiagnosis.Diagnosis.DiagnoseApiKey | util/access.go:130-150 | the errors of a key |
| AccessDiagnosis.Diagnosis.DiagnoseUser | util/access.go:152-206 | the errors of a person, checked in order |
| AccessDiagnosis.Diagnosis.DiagnoseGrant | util/access.go:207-233 | the errors of the membership row |
| AccessDiagnosis.MemberOf | util/access.go:237-247 | a person's row in a workspace, found exactly when there is one |
| AccessTheorems.KeyErrorsMatchDeclared | util/access.go:130-150 | for keys an empty diagnosis and the declaration are the same if and only if the scope the diagnosis asks for and the one the rule asks for are both held or both missing |
| AccessTheorems.UserErrorsMatchDeclared | util/access.go:152-234 | for people the declaration admits exactly those whose errors are the member's permission or, on a legacy row, role |
| AccessTheorems.RuleAgreesWithDiagnosis | util/access.go:32-34 | for every spec, caller and existing row, whatever the subject says of its being a response: the printed rule, read back and evaluated, holds exactly when the diagnosis finds nothing but what no rule is written to see, if and only if a key has both scopes the two ask for or neither |
| AccessTheorems.NothingToReport | util/access.go:197-233 | an empty diagnosis means the rule admits the person and their row holds the permission, owns the record or predates permissions, and conversely |
| AccessTheorems.SplitWithoutVaultScopeDisagrees | util/access.go:131-134 | a family where the two disagree: a split-origin spec without a vault scope |
| AccessPreflight.DiagnoseAccess | cmd/revoked/hooks/preflight.go:99-130 | the diagnosis of a request: the subject it builds, never said to be a response, and nothing told to an outsider |
| AccessPreflight.PreflightAgreesWithRule | cmd/revoked/hooks/preflight.go:99-130 | the preflight lets a request past exactly when the rule would, apart from a member's permission, if and only if the row is no response of a split-origin spec or the key holds both scopes or neither |
| AccessPreflight.OutsidersAreLeftToTheRule | cmd/revoked/hooks/preflight.go:119-124 | who is outside the row's workspace gets no diagnosis, and the rule admits them to nothing of it |
| AccessPreflight.ResponseKeyIsRefused | util/accessregistry.go:30-41 | a key with the response scope alone: the rule admits it to a response, the preflight refuses it |
| AccessPreflight.ResponseUpdateIsRefused | util/accessregistry.go:30-34 | the same at the declaration for updating a record |
| AccessPreflight.PreflightAsksThePermission | cmd/revoked/routes/sealed.go:1163-1180 | for a member the preflight decides as the sealed routes do if and only if their row holds both permissions or neither, or needs none |
| AccessPreflight.VaultPermissionReachesResponse | util/access.go:207-233 | a member with the vault permission and not the response permission passes rule and preflight on a response |
| Grants.ExpandPermissions | util/permissions.go:207-224 | the expansion of a list of keys, and the unknown ones, reported in order |
| Grants.ExpandHolds | util/permissions.go:205-224 | an expansion is sorted, without repetition, and holds exactly the scopes of the known keys |
| Grants.PermissionByKey | util/permissions.go:196-203 | the catalogue entry of a key |
| Grants.SortedUnique | util/permissions.go:222 | a sorted list without repetition is fixed by what it holds |
| Catalogue.KeysAreDistinct | util/permissions.go:45-161 | no key occurs twice in the catalogue |
| Catalogue.OtherEntriesHoldNoVaultScope | util/permissions.go:45-161 | outside the vault entries no permission stands for a scope of the vault |
| Surfaces.SurfacesFor | util/permissions.go:226-246 | the keys whose scopes a set holds in full, in catalogue order |
| Surfaces.HeldMeansScopes | util/permissions.go:226-246 | a key is among them exactly when it is known and all its scopes are held |
| Surfaces.ExpansionIsAdjoint | util/permissions.go:205-246 | expansion and its inverse are a Galois connection |
| Surfaces.ExpandSurfacesExpand | util/permissions.go:226-227 | reading an expansion back and expanding again gives the same list |
| Surfaces.IsAdminScopeSet | util/permissions.go:248-263 | true exactly when the set satisfies both administering permissions |
| Surfaces.KnownScopes | util/permissions.go:265-275 | the values that are scopes, in order |
| Surfaces.UnknownScopes | util/permissions.go:277-290 | the values that are neither a permission nor a scope, in order, repeats included |
| Surfaces.MissingScopes | util/permissions.go:292-302 | what the granter does not hold |
| Surfaces.HasAllScopes | util/reach.go:90-98 | whether every wanted scope is held |
| KeyReach.SplitVaultPermissions | util/reach.go:48-64 | the keys outside the vault, and the access asked for, write over read in any order |
| KeyReach.HeldPermissions | util/reach.go:66-88 | the keys a grant holds in full, with the vault keys of its access |
| KeyReach.HeldMeans | util/reach.go:66-88 | which keys those are |
| KeyReach.RestExpands | util/reach.go:48-64 | what is left after the split expands to exactly the scopes outside the vault |
| KeyReach.SplitReadsBack | util/reach.go:48-88 | a split grant reads back every key asked for, write with read, and beyond the vault just what its expansion satisfies |
| KeyReach.MembersOnlyScopes | util/permissions.go:167-184 | exactly the vault scopes of a set, each once, in the order of the catalogue |
| MembershipStore.Store.GranterScopes | cmd/revoked/services/invites.go:15-39 | what a person or key may pass on in a workspace |
| MembershipStore.Store.NormalizePermissionGrant | cmd/revoked/hooks/invites.go:122-154 | keys and raw scopes expanded, unknown ones and ones the granter lacks refused |
| MembershipStore.Store.WorkspaceAdminCount | cmd/revoked/services/invites.go:115-131 | the members who can bring people in, but for one row |
| MembershipStore.Store.SaveMember | cmd/revoked/hooks/workspaceMembers.go:124-178 | a new row: no second one for a person, within the limit, the role following the permissions |
| MembershipStore.Store.SaveOver | migrations/000001_add_workspaces_and_members.go:73-81 | a save over a row: every column, the role following, refused beside another row of the person in the workspace, lost where the row is gone |
| MembershipStore.Store.OnCreateRequest | cmd/revoked/hooks/workspaceMembers.go:17-42 | what the hook of a direct add lets past |
| MembershipStore.Store.OnUpdateRequest | cmd/revoked/hooks/workspaceMembers.go:46-64 | what the hook of an update lets past, of what it reads |
| MembershipStore.Store.OnDeleteRequest | cmd/revoked/hooks/workspaceMembers.go:66-80 | what the hook of a removal lets past, of what it loaded and reads |
| MembershipStore.Store.Delete | cmd/revoked/hooks/workspaceMembers.go:90-94 | the delete itself |
| MembershipStore.Store.BindInviteGrant | cmd/revoked/hooks/invites.go:82-95 | an invite with a normalised grant, never an empty one |
| MembershipStore.Store.SaveInvite | cmd/revoked/hooks/invites.go:19-71 | an invite put where there is a workspace for it |
| MembershipStore.Store.InviteGrantedScopes | cmd/revoked/services/invites.go:146-156 | an invite's scopes, each once |
| MembershipStore.Store.AcceptInvite | cmd/revoked/routes/publicInvites.go:38-83 | what accepting checks before it saves: no membership yet, an inviter who can still invite, a use left |
| MembershipStore.Store.ApplyKeyReach | cmd/revoked/hooks/apiKeys.go:113-151 | a key reaches sections of its creator's own, within the access its creator holds |
| MembershipStore.Store.OnCreateKeyRequest | cmd/revoked/hooks/apiKeys.go:58-107 | the key pipeline, in order: no repeated value, split, reach, expand, refuse the vault |
| MembershipStore.Store.SaveKey | cmd/revoked/hooks/apiKeys.go:106 | the save of a key |
| MembershipStore.Store.SaveWorkspace | cmd/revoked/hooks/workspaces.go:37-40 | the first save of a workspace's creation |
| MembershipStore.Store.SaveFounder | cmd/revoked/hooks/workspaces.go:42-61 | the second: its creator as a member holding every permission |
| MembershipStore.Store.AllPermissionKeys | util/permissions.go:186-193 | every key, in catalogue order |
| MembershipTheorems.NormalizeGrants | cmd/revoked/hooks/invites.go:122-154 | what is granted is within the granter's scopes, and empty only when nothing was asked |
| MembershipTheorems.StoredRowWithinGranter | cmd/revoked/services/invites.go:41-49 | a stored row grants within its granter if and only if it is not an empty grant with the admin role by someone short of the full set |
| MembershipTheorems.StepKeeps | cmd/revoked/hooks/workspaceMembers.go:16-178 | every step keeps the invariant of members, invites and keys, however old the states its hooks read |
| MembershipTheorems.EveryRunKeeps | cmd/revoked/hooks/workspaceMembers.go:122-178 | in every reachable state a person has one row in a workspace, roles follow permissions, rows and invites are of workspaces that exist, no invite is empty and no key holds a vault scope |
| Governance.SizeThroughout | cmd/revoked/hooks/workspaceMembers.go:159-176 | a workspace is within fifty rows in every state of a run if and only if no update moves another's row into it while it is full |
| Governance.GovernedThroughout | cmd/revoked/hooks/workspaceMembers.go:44-80 | a workspace with an administrator has one in every later state if and only if every write that removes or demotes one finds another in the state it commits to |
| Governance.PromptRunsGovern | cmd/revoked/hooks/workspaceMembers.go:44-45 | it always has one where each guard counted in the state its write commits to and no update moves a row to another workspace |
| Governance.BothThroughout | util/permissions.go:163-165 | a workspace with a member holding both administering permissions retains one if and only if no write takes the last away |
| Governance.HasThroughout | cmd/revoked/hooks/workspaceMembers.go:44-80 | the same for members of any kind |
| Delegation.NoEscalation | cmd/revoked/hooks/invites.go:122-154 | for any set of people and keys: where all that any of them is given over a run is given by one of them, their rows, keys and granted invites together never come to hold a scope they had not held before, whatever the age of what each grant was checked against |
| Delegation.StepWithin | cmd/revoked/hooks/invites.go:122-154 | the same for one step |
| Delegation.CommitAdds | cmd/revoked/services/invites.go:12-14 | a save adds to what the set holds only what it writes |
| MembershipRuns.EmptyGrantOfTheAdminRole | cmd/revoked/services/invites.go:41-49 | a row stored without permissions under the admin role passes whoever asks and reads as the full set |
| MembershipRuns.BothLeave | cmd/revoked/hooks/workspaceMembers.go:66-80 | two removals that each saw the other administrator both land: nobody administers |
| MembershipRuns.MovedFounder | cmd/revoked/hooks/workspaceMembers.go:46-64 | an update moves the only administrator's row to another workspace: nobody administers the first |
| MembershipRuns.NarrowedFounder | util/permissions.go:163-165 | the founder gives up members:remove: the guard passes and nobody holds both permissions |
| MembershipRuns.StaleGrantRegains | cmd/revoked/hooks/invites.go:122-154 | a permission given up comes back by a grant checked before: the bound is by what was held, not by what is |
| MembershipRuns.CreatorAdministers | cmd/revoked/hooks/workspaces.go:48-61 | the creator's full set lets them bring people in and take them out |
| MembershipRuns.FoundedIsReachable | cmd/revoked/hooks/workspaces.go:37-61 | a workspace and its founder come of two saves |
| Membership.AdminCount | cmd/revoked/services/invites.go:115-131 | the count is above zero exactly when another row can bring people in |
| Records.Draft.ValidateSealedRecord | cmd/revoked/hooks/sealed.go:65-84 | a sealed entry has no plain value, a ciphertext and a wrap, and is neither file nor alias |
| Records.Draft.ValidateAliasRecord | cmd/revoked/hooks/records.go:193-219 | an alias names another entry of the workspace that is no alias and not sealed, and keeps no value |
| Records.Draft.ValidateFileRecord | cmd/revoked/hooks/records.go:63-158 | files and the file type are coupled, within the limits on size and storage; an upload is stamped with its salt, the digest of salt and content, and the type of its first 512 bytes |
| Records.Draft.ValidateFilename | cmd/revoked/hooks/records.go:160-176 | a name is cleaned, and only one never set is filled in |
| Records.Draft.ValidateAll | cmd/revoked/hooks/records.go:33-60 | the validators in the order of the hooks |
| Records.WorkspaceFileBytes | cmd/revoked/hooks/records.go:178-191 | the sum of the file sizes of a workspace but for one entry |
| RecordsTheorems.ValidateStores | cmd/revoked/hooks/records.go:33-60 | what passes has the shape of an entry, a sound alias, and the sealing it came with |
| RecordsTheorems.ApplyStores | cmd/revoked/hooks/records.go:33-60 | every request writes one validated row or nothing |
| RecordsTheorems.RunKeepsRows | cmd/revoked/hooks/sealed.go:65-84 | in every reachable state every entry has its shape, every alias names an existing entry, and following aliases ends |
| RecordsTheorems.AliasesNeverCycle | cmd/revoked/hooks/records.go:193-219 | no alias leads back to itself, in any reachable state |
| RecordsTheorems.EndsAfterWrite | cmd/revoked/hooks/records.go:210-212 | writing an alias to an entry that is none lengthens a path by one step at most |
| RecordsTheorems.ChainsOfTwoAreReachable | cmd/revoked/hooks/records.go:210-212 | chains longer than one are reachable |
| RecordsTheorems.SealIsNeverLost | cmd/revoked/hooks/sealed.go:86-105 | in one life of an entry its version never falls, and while it is the same so is everything sealed |
| RecordsTheorems.StaleSaveIsRefused | cmd/revoked/hooks/sealed.go:86-105 | a save loaded before a seal, in the same life of the entry, is refused after it |
| RecordsTheorems.SealingMoves | cmd/revoked/routes/sealed.go:1181-1239 | only the sealed routes change what is sealed, and they raise the version |
| RecordsTheorems.SaveChangesSealingExactly | cmd/revoked/hooks/sealed.go:86-105 | a save that lands changes what is sealed exactly when its load agreed on the version and on nothing else |
| RecordsTheorems.ReusedIdTakesStaleSave | cmd/revoked/routes/sealed.go:1095-1145 | an id sealed, deleted and sealed again: a save loaded in the first life writes the first ciphertext over the second |
| RecordsTheorems.UploadWithinStorage | cmd/revoked/hooks/records.go:97-109 | after an upload the files of the workspace are within the limit |
| Identities.Record.ApplyRevocationTransition | cmd/revoked/hooks/identities.go:181-222 | active to revoked and never back, with time and reason pinned and the key cleared |
| Identities.Store.DemotePrimaryIdentities | cmd/revoked/hooks/identities.go:241-269 | clears the primary mark of the person's other identities in the workspace |
| Identities.Store.OnCreateRequest | cmd/revoked/hooks/identities.go:115-135 | an identity is made active, without a key, and the others are demoted before it is saved |
| Identities.Store.SettleUpdate | cmd/revoked/hooks/identities.go:188-222 | the update hook reads the stored row and settles the columns sent against it |
| Identities.Store.SaveNew | cmd/revoked/hooks/identities.go:135 | the save of a create, refused beside a row of its id or fingerprint |
| Identities.Store.SaveOver | cmd/revoked/hooks/identities.go:145 | the save of an update: every column, lost where the row is gone |
| Identities.Store.DeleteIdentity | cmd/revoked/hooks/identities.go:148-161 | a deletion removes the row of the id and buries the fingerprint it loaded |
| Identities.Store.WriteIdentityTombstone | cmd/revoked/services/identities.go:132-166 | the first tombstone wins |
| Identities.Store.RevokeWorkspaceIdentities | cmd/revoked/services/identities.go:36-66 | one guarded update revokes what is not revoked, and leaves the sealed key |
| Identities.Store.LookupIdentityStatus | cmd/revoked/services/identities.go:85-130 | the row answers while it exists, the tombstone after it |
| IdentitiesTheorems.AnswersAreDefinite | cmd/revoked/services/identities.go:68-88 | over every interleaving, an issued fingerprint is never unknown and no other ever known, in every state passed, if and only if no save and no delete meets a row of another fingerprint than it carries |
| IdentitiesTheorems.CarefulIsDefinite | cmd/revoked/hooks/identities.go:119-122 | so it is where no id is used twice and no update sends another fingerprint |
| IdentitiesTheorems.RevokedThroughout | cmd/revoked/hooks/identities.go:181-187 | over every interleaving, a fingerprint answered revoked is answered so in every later state if and only if no save lands an active row under it and no step takes its row away unburied |
| IdentitiesTheorems.RevokedStep | cmd/revoked/hooks/identities.go:188-222 | the same for one step |
| IdentitiesTheorems.RevocationIsFinal | cmd/revoked/hooks/identities.go:196-206 | once every update under way has read the row revoked, the answer is revoked for good, and its time and reason stand while the row does and from its removal on |
| IdentitiesRows.ReinstatingHookSawActive | cmd/revoked/hooks/identities.go:188-206 | a save that makes a revoked fingerprint stand is of an update whose hook read an active row, or none |
| IdentitiesRows.OnePrimaryThroughout | cmd/revoked/hooks/identities.go:241-244 | a person has at most one primary identity in a workspace in every state of a run if and only if no save lands a primary one beside another stored so |
| IdentitiesRows.DemotingThenSaving | cmd/revoked/hooks/identities.go:241-269 | a save that follows its own demotion at once keeps it so |
| IdentitiesRows.RevokedKeepNothing | cmd/revoked/hooks/identities.go:209-222 | over every run: a revoked identity is primary somewhere along it if and only if a save lands one whose hook found no row, and keeps a copy of its key if and only if such a save lands one or someone leaves with a key stored |
| IdentitiesRows.StaleEditReinstates | cmd/revoked/hooks/identities.go:138-146 | an edit reads the row while it stands, the person leaves and the identity is revoked, the edit is saved: the fingerprint stands again |
| IdentitiesRows.TwoPrimaries | cmd/revoked/hooks/identities.go:131-135 | two creates that both demote before either saves leave two primary identities |
| IdentitiesRows.ReusedIdTakesStaleEdit | cmd/revoked/hooks/identities.go:138-161 | an id deleted and used again while an edit of it is under way: the newcomer's fingerprint becomes unknown |
| IdentitiesRows.LeavingKeepsTheKey | cmd/revoked/services/identities.go:43-66 | a member leaves with a key stored: the identity is revoked and the copy stays |
| LoadStats.Stats.Record | tools/loadtest/stats.go:40-52 | one sample counted |
| LoadStats.Stats.Merge | tools/loadtest/stats.go:27-38 | totals added, counts by status and error added, samples appended |
| LoadStats.Stats.Seal | tools/loadtest/stats.go:54-56 | the samples sorted |
| LoadStats.Stats.Percentile | tools/loadtest/stats.go:82-91 | a sample that those before it do not exceed and those after it are not below |
| LoadStats.Rank | tools/loadtest/stats.go:86-89 | the index of the share asked for, or the last |
| LoadStats.SplitAndMergeIsOneRecorder | tools/loadtest/stats.go:23-56 | a stream of samples dealt out among any workers in any way merges to exactly what one recorder measures |
| Receiver.Server.Post | examples/webhook_receiver.py:120-160 | a delivery is handled unless its id is among the last thousand handled |
| Receiver.HandledApart | examples/webhook_receiver.py:96-99 | an event is handled again only after a thousand different ones in between |
| Receiver.AgreesWithUnbounded | examples/webhook_receiver.py:96-99 | it handles what one that forgets nothing would, exactly when it handled none twice |
| Receiver.FewEventsForgetNothing | examples/webhook_receiver.py:96-99 | up to a thousand deliveries it forgets none |

## Left out

- PocketBase, SQL, HTTP, JSON bodies, page templates, mail, DNS and peer fetches: rows are maps or sequences, a transaction is one step.
- The cryptography itself, and X.509 and SD-JWT formats.
- Consistency of User along a device chain: the source does not compare it between entries.
- HeadSeq of a device chain: it is the length of the list.
- The MAC of the pairwise subject: only its input is modelled, with OIDCIssuer left out as branching only.
- nil receivers of the rate limiter, LimitFromEnv, and two readings of the clock that overtake one another.
- LimiterIsExact: asks for ordered times, which the source does not enforce across its lock.
- What an attestation states, its expiry and its workspace: a row keeps its status, subject, revocation time and reason.
- The identity proofs, vouchers and challenges before a claim or a move: a move needs a credential this server signed, and another identity; anyone may accept an offer.
- The draws of a free position: any numbers, which includes those below the list's size.
- The encoding of a status list as a token, its signature and its caches.
- Attestation share links: unguarded read-then-save steps, of which only atomic ones would be final.
- The wording of an attestation check and its notifications.
- The rules of API-key expiry, and rate limits on routes.
- Case folding of the database's substring operator, and JSON escapes: scopes are compared as written, and are strings JSON writes unchanged.
- RuleAgreesWithDiagnosis: covers existing rows with a workspace, and specs without an extra clause, which ExtraNarrowsEveryBranch covers; not rows being created.
- Who may call a route or a write, and the checks of the active workspace: membership steps are open to any principal, which only widens what the theorems cover.
- Superuser bypasses and operator switches.
- The number of uses, the expiry and the address of an invite: whether it can be spent is a parameter.
- Deleting accounts and workspaces, and the limit on workspaces per person.
- NoEscalation: counts the scopes of keys, not the sections they reach; ApplyKeyReach states what those need.
- How a file name is cleaned, the digest, and how a media type is told from a content: parameters.
- ShapesShareExactly: takes shapes of up to 2^24 parts, few enough for all their numbers to fit into one blob.
- The key epoch, the live links and the device signature a sealed write needs: whether it is allowed is a parameter.
- UploadWithinStorage: says what holds after an upload; sizes changed by other writes are not followed.
- Links, grants and answers that name a record, and the snapshots they hold.
- Certificates of identities: a fingerprint is given, and fresh; what an identity's domain proves.
- Percentile: works on reals, without the rounding of float64.
- Rates and JSON export of the load test.
- Signature and header checks of the webhook receiver: a refused delivery is given with its status; deliveries are handled one at a time.
- Migrations, schemas, error texts, feature presets, the app, the documentation and the MCP client.
