# Proofs about tamper

This project models the stateful core of the tamper framework in Dafny and proves
what its documentation promises. `dafny verify dfyconfig.toml` checks all of it.

- **Audit log** (`AuditEvent`, `AuditRedaction`, `AuditChain`, `AuditLog`, `AuditReplicas`,
  `AuditPages`, `AuditPaging`, `AuditReading`, over `Bytes`). The hashed byte encoding, the commitments
  that stand in for personal data, the two chain verifiers, the append protocol run by any number of
  replicas in any interleaving while rows are pruned and redacted, and cursor pagination beside it.
- **Authorization** (`Authz`, `AuthzStore`, `AuthzRBAC`, `AuthzBridge`). The rank engine over any
  binding store, the reference store, the reverse queries, and the set engine run over the rank model.
- **Identity** (`Tokens`, `Identity`, `IdentityStore`, `IdentityOps`, `IdentityCore`, `IdentityRuns`,
  `IdentityVerdicts`, `IdentityActors`, `IdentityLaws`, `IdentityRaces`, `IdentityAlone`, `CheckThenAct`).
  Users, sessions, invitations, linked identities and access tokens: each operation as a sequence of store
  calls and exactly what it decides, whole runs of operations and who is behind their tokens, the two
  operations that are designed to survive concurrent callers, one store call at a time, and two that are not.
- **Limits, caches, keys** (`TokenBucket`, `ReplayLedger`, `KeySet`, `SecretRotation`, `RegistryCache`,
  `RegistryThreads`, `RegistryConvergence`, over `Eviction`).

How the model is put together:

- Code that updates state is a class or a method with loops, proved against a function on values; the
  properties are lemmas about those functions and about runs of a step machine. A map is visited in an
  order the method does not choose, so what is proved holds for every order.
- SHA-256 is any function from byte strings to 32 bytes, with no claim that it is injective. Theorems
  read "... or these two inputs, which the log contains, collide". AES-GCM is any cipher that opens what
  it sealed. Password hashing, random draws, fresh ids, clocks and policies are arguments. A signature
  cannot be forged: a session presented to an operation is one that was handed out before.
- A time is an integer number of nanoseconds; Go's zero time is the constant `ZERO_TIME`. Lengths that
  are hashed are below 2^32 and times that are hashed fit in 64 bits (`Encodable`), because the source
  truncates beyond that; the first row of a log names a 32-byte predecessor.
- A tenant is `Unset`, `Single` or a non-empty name; the conversion from storage and the one from
  untrusted text differ on the empty string, as in `tenant/id.go`.

Where the code and its documentation differ, the model follows the code:

- No chaining and "attribution is never the impersonated user" (`identity/impersonation.go:62`,
  `docs/phases/PHASE11-IMPERSONATION-SKETCH.md`) fail when an impersonated session enters a tenant:
  `EnterTenant` refuses an entered session and not an impersonated one (`identity/membership.go:143`), so
  what it mints is the impersonated user's own token, without an actor, and can be impersonated from again
  (`IdentityActors.ImpersonatesAgain`). `IdentityActors.ActorIsLostSomewhere` is a run that does it; tokens name their human in exactly the runs in which nobody does
  (`IdentityActors.TokensNameTheirHuman`).
- "Converge within the TTL" (`oidc/manager.go:64-68`) counts from the moment a registry is stored, after its
  rows were read and its discovery done. A write of another process that falls in between can be missed for
  the full ttl and more (`RegistryConvergence.LateWhenever`), and no other write can
  (`RegistryConvergence.LateExactly`); the delay is always less than the ttl and the building time together
  (`RegistryConvergence.LateAnswer`).
- `authz/rbacpermissionstore.go:10-27` promises that the set engine decides identically to the rank
  engine. It evaluates every action of the policy before answering about one, so a store failure met by
  another action fails this question too. `AuthzBridge.EnginesAgree` gives the exact condition and
  `AuthzBridge.PartsSomewhere` an input; the verdicts never differ.
- A rotated refresh token is not single use between concurrent callers, and two unlinks can take a user's
  last way to sign in, since neither operation compares and sets. `CheckThenAct` has the runs and says exactly
  when. `RotateSealedSecrets` can likewise undo a secret set while it runs (`SecretRotation.EditDuringRotation`).
- The replay ledger lets a live assertion in again when the clock steps back past a sweep, and only then
  (`ReplayLedger.SteppingBackReplays`, `ReplayLedger.SweptIsExact`).
- The documentation of erasure speaks of an all-zero salt. In memory `Redact` zeroes it; the statement
  that persists the erasure stores an empty one (`audit/internal/sqlitestore/queries/events.sql:101-107`).
  Both read as erased.
- `retryAfter` is rounded down to a whole nanosecond, so waiting exactly that long can be one
  nanosecond short (`TokenBucket.AnnouncedWaitTooShort`).
- A cursor cannot be read back exactly when the event id contains a bar (`AuditPages.CursorRoundTrip`).
  A reading also needs new rows to be later than all rows of the first page. Whatever the replicas do, they are,
  unless a prune empties the log (`AuditReading.ReadingDuringChanges`); then the next row may step back
  (`AuditReading.EmptiedLogStepsBack`).
- The bump takes Go's zero time for "no watermark", so it orders rows exactly when that is not the watermark or
  the event is later anyway (`AuditLog.BumpedIsLaterIff`).

## Model

| member | source | states |
|---|---|---|
| Bytes.EncodeRoundTrip | audit/audit.go:528-560 | a sequence of length-prefixed fields is recovered from its encoding, so no value can pass for a field boundary |
| Bytes.Int64RoundTrip | audit/audit.go:540-548 | the eight big-endian bytes of any 64-bit integer, negative ones included, give the integer back |
| AuditEvent.CanonicalPayloadV4 | audit/canonical_v4.go:41-66 | the buffer grown field by field is the encoding of the sixteen fields in their fixed order |
| AuditEvent.AppendField | audit/audit.go:528-560 | appending one field extends the encoding of the fields before it |
| AuditEvent.PayloadRoundTrip | audit/canonical_v4.go:41-66 | every hashed field of an event, up to the actor-type default, is decoded back from its payload |
| AuditEvent.LinkInputInjective | audit/audit.go:565-570 | with 32-byte predecessors, equal hash inputs mean equal predecessor and equal hashed fields |
| AuditRedaction.MatchesIff | audit/redaction.go:149-178 | the check passes exactly when every stored commitment is the commitment to the stored value |
| AuditRedaction.CommitInputInjective | audit/redaction.go:91-99 | salt, field and value are determined by what a commitment hashes |
| AuditRedaction.CommitmentsBindPii | audit/redaction.go:91-118 | two rows that check with one set of commitments hold the same personal data under the same salt, or collide |
| AuditRedaction.EditedPiiIsReported | audit/redaction.go:149-178 | editing one value of a row that checked is reported at that field, or collides |
| AuditRedaction.AnyPiiEditIsReported | audit/redaction.go:149-178 | any edit of the values, several at once or swapped, is reported, or collides |
| AuditRedaction.MovedCommitmentIsReported | audit/redaction.go:91-99 | a commitment moved to another field does not check there, or collides |
| AuditRedaction.RedactionIsInvisibleToTheChain | audit/redaction.go:185-234 | erasure, in memory or in the table, changes no hashed field, reads as not checkable, and is idempotent |
| AuditRedaction.CommitmentsAreNamed | audit/redaction.go:69-75 | the payload carries each commitment under the name it was computed with |
| AuditRedaction.ErasedSalt | audit/redaction.go:117-131 | a salt reads as erased exactly when no byte of it is other than zero |
| AuditRedaction.ErasureIsExact | audit/redaction.go:185-234 | both forms of erasure leave no personal data and every other field; rows of another version are left alone |
| AuditRedaction.MutableEvent.Redact | audit/redaction.go:185-199 | the in-place erasure leaves no personal data, the salt bytes zeroed where they are, and every other field as it was |
| AuditChain.FromRowPayload | audit/audit_sqlite.go:559-594 | reading a row back changes nothing that is hashed |
| AuditChain.WalkChain | audit/audit_sqlite.go:468-492 | reports tampering exactly when some row is bad, and then the first bad row |
| AuditChain.VerifyChainPostMigration | audit/verify_boot.go:49-112 | clean only on a good log, a mismatch at the first bad row with the reason the walk meets first, cancelled exactly when a poll before any mismatch says so |
| AuditChain.BothVerifiers | audit/verify_boot.go:49-112 | both verifiers accept and reject the same logs, at the same index |
| AuditChain.SameHashSameFields | audit/audit.go:565-570 | rows with one hash agree on every hashed field, or rows of the two logs collide |
| AuditChain.TamperEvidence | audit/audit_sqlite.go:468-492 | two verified logs that end in one hash agree on all hashed fields all the way back along the shorter one, or rows of the two collide |
| AuditChain.EditIsReportedInPlace | audit/audit_sqlite.go:474-491 | changing a hashed field or the version of row i of a verified log is reported at i, or collides |
| AuditChain.RehashedEditIsReportedNext | audit/audit_sqlite.go:474-491 | a row replaced together with its hash is reported at itself or at the next row, and passes only as a well-formed last row |
| AuditChain.DeletionIsReported | audit/audit_sqlite.go:474-491 | deleting an interior row is reported at its index, or collides; deleting the first or the last row is not noticed |
| AuditChain.SuffixVerified | audit/audit_sqlite.go:501-507 | any suffix of a verified log verifies, which is what retention leaves |
| AuditChain.NoFork | audit/audit_sqlite.go:157-181 | no two rows of a verified log share a predecessor, or rows collide |
| AuditChain.RedactionKeepsTheVerdict | audit/redaction.go:217-234 | erasing any row of any log changes the verdict at no index |
| AuditLog.InsertIsAppend | audit/audit_sqlite.go:259-296 | a row later than all others is last in walking order too |
| AuditLog.InsertSorts | audit/audit_sqlite.go:449-466 | a row put in keeps the walking order: by time, then version, then id |
| AuditLog.PruneIsSuffix | audit/audit_sqlite.go:501-507 | on a table in time order pruning removes rows from the front and only those before the cutoff |
| AuditLog.BumpedIsLater | audit/audit_sqlite.go:212-229 | after the bump a row is later than every row in the table and than everything this process wrote |
| AuditLog.BumpedIsLaterIff | audit/audit_sqlite.go:212-229 | for any dates, those before year 1 included: the row comes behind the latest one exactly when it is later already or the watermark is not the zero time |
| AuditLog.LoggedRowChecks | audit/audit_sqlite.go:231-251 | whatever event Log accepts, the row it writes passes the commitment check, unless the random salt is all zero, which reads as erased |
| AuditLog.PrepareAccepts | audit/audit.go:575-586 | an event is taken exactly with an id, a time, an action and version 0 or 4, and which refusal comes first |
| AuditLog.LoggedFacts | audit/audit_sqlite.go:126-280 | every fact of an accepted event is in its own column of the row, with the actor's type and address filled in and the time settled |
| AuditLog.BumpSettlesTime | audit/audit_sqlite.go:212-229 | the event's own time when it is later than all before, otherwise one nanosecond after the latest of them |
| AuditLog.AppendKeepsGood | audit/audit_sqlite.go:157-296 | appending a row chained onto the latest hash keeps the table verified, in strictly increasing time, ids distinct |
| AuditLog.SQLiteLogger.constructor | audit/audit_sqlite.go:64-112 | opening a good table primes the watermark with its latest time |
| AuditLog.SQLiteLogger.BuildRow | audit/audit_sqlite.go:212-258 | the reading half of the transaction yields the bumped, salted, chained row, or fails with nothing written |
| AuditLog.SQLiteLogger.Log | audit/audit_sqlite.go:126-298 | which events are accepted and what is said of the others; the row added behind all others has the event's facts column by column, actor type and address filled in, its own time or the nanosecond after the latest, the last hash and a salt; on a refusal the table is as before; the watermark never falls |
| AuditLog.SQLiteLogger.Verify | audit/audit_sqlite.go:449-466 | the verdict on the stored table |
| AuditLog.SQLiteLogger.PruneOlderThan | audit/audit_sqlite.go:501-507 | removes and counts exactly the rows before the cutoff, and what is left verifies |
| AuditLog.SQLiteLogger.RedactEvent | audit/redaction.go:217-234 | in the rows with the id no personal data and no salt is left and all else is as it was, the other rows are not touched, whether there were any is said, and the table still verifies |
| AuditReplicas.StepKeeps | audit/audit_sqlite.go:157-298 | each stage of any replica's append, each failure, crash, open, prune and erasure keeps the invariant of the table, the lock and every replica in flight |
| AuditReplicas.CommitKeeps | audit/audit_sqlite.go:259-296 | a commit under the lock extends the table with the row that was chained onto its end |
| AuditReplicas.PruneKeeps | audit/audit_sqlite.go:501-507 | a prune, to empty included, keeps the invariant |
| AuditReplicas.EveryRunVerifies | audit/audit_sqlite.go:157-298 | after any interleaving both verifiers pass, times strictly increase, ids are distinct, no row's personal data is reported as edited, and the table is the list of commits less what was pruned and erased |
| AuditReplicas.UninterruptedLog | audit/audit_sqlite.go:126-298 | a call nobody interrupts is the run of its stages, so the class and the machine describe one protocol |
| AuditPages.CursorRoundTrip | audit/audit_sqlite.go:596-616 | for a time of 64 bits, a cursor gives its key back exactly when the id has no bar in it |
| AuditPages.ParseCursor | audit/audit_sqlite.go:597-610 | the scan from the end agrees with the definition by the last bar |
| AuditPages.AddTenant | audit/audit_sqlite.go:702-761 | a tenant term, with its extra index predicate, admits exactly the rows of that tenant |
| AuditPages.FilterWhere | audit/audit_sqlite.go:702-761 | the conditions together admit exactly the rows every set filter field admits, below the cursor if there is one |
| AuditPages.RunQuery | audit/audit_sqlite.go:370-412 | the first rows, newest first, that the conditions admit: none skipped, none beyond the limit |
| AuditPages.PageFromRows | audit/audit_sqlite.go:424-436 | each row comes back column by column, an empty actor type as "user"; a cursor comes exactly with a full page and names its last row |
| AuditPages.List | audit/audit_sqlite.go:341-412 | a page is what the filter, the cluster scope and the cursor select, fifty rows where no limit is given, read back column by column; or the cursor's error |
| AuditPaging.ReadPages | audit/audit_sqlite.go:370-436 | a reader that passes NextCursor back gets pages each of which starts below the one before, and stops exactly at a short page |
| AuditPaging.PagesDescend | audit/audit_sqlite.go:370-436 | whatever happens between the pages, the reading as a whole is newest first with no row twice |
| AuditPaging.PagesMissNothing | audit/audit_sqlite.go:370-436 | a matching row that stays in the table until the reading is over is in it |
| AuditPaging.ReadingTerminates | audit/audit_sqlite.go:370-436 | when new rows are later than the first page's table, full pages number at most its length divided by the limit |
| AuditPaging.ReadingIsExact | audit/audit_sqlite.go:370-436 | over tables that only grow by later rows a finished reading is exactly the matching rows of the first |
| AuditReading.ReadingDuringLogging | audit/audit_sqlite.go:370-436 | with any number of replicas logging between the pages, a finished reading is the matching rows of the first page's table, each once, newest first |
| AuditReading.ReadingDuringLoggingEnds | audit/audit_sqlite.go:370-436 | and such a reading does finish |
| AuditReading.RunKeepsNewRowsLater | audit/audit_sqlite.go:212-229 | over any run in which no prune empties the table, rows that are new are later than all that were there |
| AuditReading.ReadingDuringChanges | audit/audit_sqlite.go:370-436 | whatever replicas log, prune, erase or fail at between the pages, short of a prune that empties the table: the reading is newest first, repeats nothing, returns only keys of the first page's table, ends, and then has every row of that table that still matches at the last page |
| AuditReading.FilterErasureOnlyHides | audit/audit_sqlite.go:702-761 | a filter that shows an erased row showed it before, which the reading relies on |
| AuditReading.EmptiedLogStepsBack | audit/audit_sqlite.go:212-229 | wherever a run has come to, a prune that empties the table lets a replica opened afterwards log a row that is not later |
| Authz.Position | authz/policy.go:19-26 | the 1-based first position of a role in a ladder, 0 exactly when it is not there |
| Authz.RanksFollowLadders | authz/policy.go:13-26 | ladders go from lowest to highest: a rank reaches another exactly when its role stands at the other's place in the ladder or above |
| Authz.Validate | authz/policy.go:57-93 | accepts exactly the configurations whose ladders are non-empty without blanks or repeats and whose requirements name a role of their ladder |
| Authz.NewRBAC | authz/rbac.go:32-40 | an engine exactly for a valid configuration |
| Authz.BestRankIsReached | authz/rbac.go:226-242 | the effective rank reaches n exactly when some binding of exactly this scope, subject and resource does |
| Authz.AllowRestsOnABinding | authz/rbac.go:49-76 | over any store, leaking or failing, an allow rests on a returned binding of exactly the scope, subject and target, of sufficient rank |
| Authz.DecideOnBindings | authz/rbac.go:49-76 | over a fixed set of bindings the decision is whether some requirement is met; order plays no part |
| AuthzStore.MemStore.Grant | authz/memstore.go:46-59 | adds the binding unless it is there or names no tenant |
| AuthzStore.MemStore.Revoke | authz/memstore.go:66-80 | the in-place compaction leaves the other bindings in order, in the same array |
| AuthzStore.MemStore.Compact | authz/memstore.go:72-79 | moving the kept bindings forward in place is filtering |
| AuthzStore.MemStore.BindingsFor | authz/memstore.go:83-96 | the stored bindings of exactly this scope, subject and resource |
| AuthzStore.MemStore.BindingsForSubject | authz/memstore.go:99-112 | the stored bindings of this scope and subject on instances of the type |
| AuthzStore.MemStore.BindingsOnResource | authz/memstore.go:115-128 | the stored bindings of this scope on exactly this resource |
| AuthzStore.RevokeUndoesGrant | authz/memstore.go:46-80 | revoking a new grant restores the list |
| AuthzRBAC.Effective | authz/rbac.go:226-242 | the loop finds the best rank of the exactly matching bindings, or the store's failure |
| AuthzRBAC.Check | authz/rbac.go:49-76 | the loop decides as the OR over the requirements, up to the first failure; what that means is CheckReadsLadders and CheckFailsExactly |
| AuthzRBAC.CheckBulk | authz/rbac.go:80-94 | aligned with the questions, and fails exactly when one of them fails or no scope is given |
| AuthzRBAC.Unbounded | authz/rbac.go:113-132 | a global alternative is met, or the first failure among those that are looked up |
| AuthzRBAC.ListResources | authz/rbac.go:100-154 | sorted, duplicate-free, and exactly the instances some same-type requirement is met on; each error in its place |
| AuthzRBAC.ListSubjects | authz/rbac.go:160-202 | sorted, duplicate-free, and exactly the subjects that qualify; an error for the first failing or homeless one |
| AuthzRBAC.SubjectLessIsStrict | authz/rbac.go:206-216 | the sort key of subjects leaves no ties between subjects with a home |
| AuthzRBAC.CheckOnMemStore | authz/rbac.go:49-76 | over the reference store Check says whether a stored binding meets a requirement |
| AuthzRBAC.CheckReadsLadders | authz/rbac.go:49-76 | over the reference store an action is allowed exactly when, for one of its requirements, a stored binding of exactly this scope and subject, on the instance or on the requirement's singleton, has a role at the required one or higher up in that type's ladder |
| AuthzRBAC.CheckFailsExactly | authz/rbac.go:49-76 | over any store, when Check refuses for want of a tenant, denies an unknown action, and fails: where a failing lookup comes before any requirement was met |
| AuthzRBAC.ListResourcesAgrees | authz/rbac.go:100-154 | for every instance: allowed by Check exactly if the listing is unbounded or names it |
| AuthzRBAC.ListSubjectsAgrees | authz/rbac.go:160-202 | for every subject with a home: allowed by Check exactly if listed |
| AuthzRBAC.ScopesAreSeparate | authz/store.go:23-38 | bindings of other scopes or subjects never change an answer |
| AuthzBridge.MemoDecide | authz/rbacpermissionstore.go:58-87 | deciding with remembered ranks is deciding |
| AuthzBridge.PermissionsFor | authz/rbacpermissionstore.go:48-89 | exactly the actions the rank engine allows, or an error exactly when some action cannot be evaluated, for every order of the policy |
| AuthzBridge.PermissionSetCheck | authz/permissionset.go:124-142 | the set engine answers as the rank engine in every case but one, and in that one it does not answer |
| AuthzBridge.EnginesAgree | authz/rbacpermissionstore.go:10-27 | verdicts never differ, and answers differ exactly when the store fails on another action of the policy and not on this one |
| AuthzBridge.PartsSomewhere | authz/rbacpermissionstore.go:10-27 | an input on which the two engines do not answer alike |
| AuthzBridge.PermissionSetCheckBulk | authz/permissionset.go:146-159 | aligned answers of the rank engine, or an error exactly when one question fails or parts |
| AuthzBridge.PermissionSetListResources | authz/permissionset.go:167-189 | filtering, deduplicating and sorting once more gives the rank engine's own listing |
| AuthzBridge.PermissionSetListSubjects | authz/permissionset.go:194-222 | likewise for subjects |
| Tokens.IssueAccessWithActor | crypto/jwt.go:551-592 | claims exactly when subject, time, strength and every method are given |
| Tokens.MintedParses | crypto/jwt.go:378-395 | what any of the three mints returns parses and verifies for its tenant until it expires, which is no later than the service's lifetime |
| Tokens.EnteredClaims | crypto/jwt.go:528-539 | an entered token is minted exactly for two different named tenants and a subject who authenticated, and each of its claims, the shortened lifetime included |
| Tokens.ImpersonatedClaims | crypto/jwt.go:378-395 | likewise an impersonated one, which needs two different users |
| Tokens.ParsesIffMinted | crypto/jwt.go:772-805 | an unexpired token parses exactly if one of this service's mints could have made it, except that the parser does not look at the two things only a mint checks (an empty method, a fraction of a second) |
| Tokens.OthersRefuse | crypto/jwt.go:772-805 | a minted token parses exactly for services of its issuer, until it expires, and as an access token; it verifies for its own tenant alone |
| Tokens.FitsIff | espresso/tenantgate.go:77-93 | a route takes tokens of its own tenant: ordinary ones always, entered ones with guests, impersonated ones with impersonators |
| Tenant.TextIsNeverSingle | tenant/id.go:47-52 | untrusted text never names the single tenant |
| Tenant.StoredComesBack | tenant/id.go:83-88 | stored text names the tenant it was stored for, unless that was unset |
| Identity.NormaliseIsIdempotent | identity/core.go:615-625 | a normalised address normalises to itself |
| Identity.NormaliseIff | identity/core.go:615-625 | exactly which text is an address: what stands between the blanks around it, in lower case, with one @ that is not first and a dot somewhere behind it |
| IdentityStore.MemStore.CreateUser | identity/memstore.go:65-81 | the row and its address entry, or taken and nothing |
| IdentityStore.MemStore.CountUsers | identity/memstore.go:144-154 | the number of users stored in the tenant |
| IdentityStore.MemStore.CreateRefreshSession | identity/memstore.go:170-176 | the row and its hash entry |
| IdentityStore.MemStore.RevokeRefreshSession | identity/memstore.go:190-200 | ends the session once; again changes nothing |
| IdentityStore.MemStore.RevokeAllRefreshSessionsForUser | identity/memstore.go:203-213 | ends exactly the user's live sessions |
| IdentityStore.MemStore.RevokeAllRefreshSessionsForTenant | identity/memstore.go:157-167 | ends exactly the tenant's live sessions |
| IdentityStore.MemStore.IdentityByProviderSubject | identity/memstore.go:130-139 | a stored identity with the credential exactly when there is one |
| IdentityStore.MemStore.InsertIdentity | identity/memstore.go:307-337 | inserted, or taken exactly when the tenant already has the credential |
| IdentityStore.MemStore.CountIdentitiesByUserID | identity/memstore.go:362-372 | the number of identities of the user |
| IdentityStore.MemStore.ProvisionUserWithIdentity | identity/memstore.go:376-399 | both rows or neither |
| IdentityStore.MemStore.CreateInvitation | identity/memstore.go:417-429 | stored under id and hash, or refused for a known hash |
| IdentityStore.MemStore.MarkAccepted | identity/memstore.go:462-475 | a compare-and-set: consumes a pending invitation, refuses any other |
| IdentityStore.MemStore.MembershipsFor | identity/memstore.go:506-514 | exactly the tenants the user may enter |
| IdentityStore.MemStore.AddMembership | identity/memstore.go:480-487 | the tenant is added to the user's memberships |
| IdentityStore.MemStore.RemoveMembership | identity/memstore.go:491-495 | the tenant is taken out again; a missing one changes nothing |
| IdentityCore.Core.IssueTokens | identity/core.go:573-610 | one token, and one session where sessions are on; nothing on a refusal |
| IdentityCore.Core.Register | identity/core.go:184-234 | the store calls in sequence are the operation on the store's value, first-user signal included |
| IdentityCore.Core.Login | identity/core.go:250-302 | likewise; IdentityVerdicts.LoginOutcome says what the operation decides |
| IdentityCore.Core.IssueTokensForUser | identity/core.go:345-367 | likewise; see IdentityVerdicts.IssueForUserOutcome |
| IdentityCore.Core.Refresh | identity/core.go:382-458 | likewise; see IdentityVerdicts.RefreshOutcome and RefreshWrites |
| IdentityCore.Core.Logout | identity/core.go:464-490 | likewise |
| IdentityCore.Core.RevokeAllSessions | identity/core.go:506-519 | likewise |
| IdentityCore.Core.RevokeAllSessionsForTenant | identity/core.go:532-540 | likewise |
| IdentityCore.Core.Invite | identity/invitation.go:170-212 | likewise |
| IdentityCore.Core.AcceptInvitation | identity/invitation.go:230-291 | likewise: consume first, then register |
| IdentityCore.Core.ProvisionUserWithIdentity | identity/linking.go:60-86 | likewise; user and identity get one tenant |
| IdentityCore.Core.Link | identity/linking.go:97-146 | alone, the credential is the caller's user's afterwards exactly if the call succeeds; it writes only when the credential was free, and a conflict means another user holds it |
| IdentityCore.Core.Unlink | identity/linking.go:154-184 | likewise on the store's value, with the last-method guard |
| IdentityCore.Core.EnterableTenants | identity/membership.go:195-231 | the named tenants other than home the user is a member of, sorted, each once; refused for an inactive user who has some |
| IdentityVerdicts.IssueTokensOutcome | identity/core.go:542-610 | on any store: when a mint succeeds, which refusal comes first, every claim of the token and every column of the one session row |
| IdentityVerdicts.LoginOutcome | identity/core.go:250-302 | on any store: tokens exactly for a normal address, let through by the throttle, of an active user stored under the tenant, with the password and without a second factor due; exactly when a second factor is asked for, and every other refusal; none of them writes |
| IdentityVerdicts.IssueForUserOutcome | identity/core.go:345-367 | tokens exactly for an active user stored in the tenant; inactivity is said only of the tenant's own users |
| IdentityVerdicts.RegisterOutcome | identity/core.go:184-234 | when an account is made, with what row and index entry, when it is the tenant's first, and every refusal |
| IdentityVerdicts.RefreshOutcome | identity/core.go:382-458 | on any store: rotated exactly if the token leads to a session of this tenant, not ended and not expired, with its context, of an active user stored there; an expired, ended, foreign or unknown one changes nothing |
| IdentityVerdicts.RefreshWrites | identity/core.go:440-457 | the old session ends now, the new one is of the same user, tenant, time and strength and lasts the full refresh lifetime from now |
| IdentityVerdicts.LogoutOutcome | identity/core.go:464-490 | ends this tenant's live session and nothing else; only another tenant's session is an error |
| IdentityVerdicts.RevokeUserOutcome | identity/core.go:506-519 | signing a user out everywhere succeeds exactly in the tenant the user is stored in, ends exactly that user's live sessions, and otherwise says which of the two refusals and changes nothing |
| IdentityVerdicts.RevokeTenantOutcome | identity/core.go:532-540 | locking a tenant out needs a set tenant and ends exactly that tenant's live sessions |
| IdentityVerdicts.InviteOutcome | identity/invitation.go:170-212 | every column of the invitation, seven days where no lifetime is given, and every refusal |
| IdentityVerdicts.AcceptOutcome | identity/invitation.go:230-291 | one error and nothing written unless the token leads to a pending, unexpired invitation of this tenant; then it is consumed and its address registered |
| IdentityVerdicts.ProvisionOutcome | identity/linking.go:60-86 | both rows, column by column, exactly if address and credential are free |
| IdentityVerdicts.UnlinkOutcome | identity/linking.go:154-184 | the caller's own identity in the caller's own tenant goes exactly if a password or another identity is left |
| IdentityVerdicts.MembershipsAreSingle | identity/memstore.go:480-503 | adding and removing a membership changes the answer for that user and tenant alone |
| IdentityVerdicts.EnterOutcome | identity/membership.go:123-182 | from any session: when a tenant is entered, with which claims, and which refusal comes first; inactivity is said only where all else is right |
| IdentityVerdicts.ImpersonateOutcome | identity/impersonation.go:76-133 | from any session: who may be taken before the policy is asked, and what follows from its answer |
| IdentityRuns.IssueTokensEffect | identity/core.go:573-610 | minting for a user in the tenant the user is stored in keeps every stored session in its user's tenant, and the token is confined |
| IdentityRuns.EnterEffect | identity/membership.go:123-182 | an entered token names its user's stored tenant as home and another, named one as target |
| IdentityRuns.ImpersonateEffect | identity/impersonation.go:76-133 | from a confined session, an impersonated token's actor is stored in the home it names and its target in the tenant acted in |
| IdentityRuns.StepKeeps | identity/core.go:184-540 | every operation, and every edit outside it that leaves who users are alone, keeps the invariant of users, sessions, tokens and refresh chains |
| IdentityRuns.TokensStayConfined | espresso/tenantgate.go:77-93 | after any run, the users a token that verifies for a tenant names are stored where it says, and on a route without guests its subject is stored in that tenant |
| IdentityRuns.EveryTokenParses | crypto/jwt.go:772-805 | after any run, every token ever handed out parses exactly until it expires |
| IdentityRuns.ChainsStaySingle | identity/core.go:382-458 | sessions of one refresh chain share user, tenant, time and strength of authentication, and at most one is live |
| IdentityRuns.RefreshSucceeds | identity/core.go:382-458 | a successful refresh ends its session, starts one live successor of the same origin, and says the same in the token |
| IdentityRuns.RefreshExtendsChain | identity/core.go:445-457 | the successor joins the chain of the session it succeeds |
| IdentityRuns.SessionsOnlyEnd | identity/memstore.go:157-213 | over any run a session is never lost, rewritten or brought back; revoked stays revoked |
| IdentityRuns.WrongTenantRefreshChangesNothing | identity/tenantcheck.go:56-68 | a session presented on another tenant's route is refused by refresh and logout, and nothing is written |
| IdentityRuns.ForeignRowIsEnded | identity/core.go:412-437 | a row this package would not have written is refused and ended, before the user's state is disclosed |
| IdentityRuns.TenantRevokeIsExact | identity/core.go:532-540 | a tenant-wide revoke ends exactly the sessions of the users stored in the tenant |
| IdentityRuns.UserRevokeIsExact | identity/core.go:506-519 | signing a user out everywhere ends exactly that user's sessions, if the user is the tenant's own |
| IdentityActors.StepNames | identity/membership.go:140-182 | a step keeps every token naming its human exactly when it does not enter a tenant from an impersonated session |
| IdentityActors.TokensNameTheirHuman | identity/impersonation.go:53-74 | over any run, every token handed out names the human it was handed to if and only if nobody entered a tenant from an impersonated session |
| IdentityActors.EnteringLosesTheActor | identity/membership.go:143-172 | wherever a run has an impersonated session whose user is a member elsewhere, entering there is possible and hands out a token in that user's name alone |
| IdentityActors.ImpersonatesAgain | identity/impersonation.go:76-133 | from that token any active user of the tenant entered whom the policy allows can be impersonated, with the first user named as the actor |
| IdentityActors.ActorIsLostSomewhere | identity/membership.go:143-172 | a run from the start in which an administrator ends up holding another user's token with no trace of the administrator |
| IdentityLaws.RegisterThenLogin | identity/core.go:184-302 | who registered can log in under any spelling of the address and with no other password; the address was free in that tenant |
| IdentityLaws.InvitedAccount | identity/invitation.go:230-291 | on any later store that still has the invitation, its token makes only the invited address an account, in the inviting tenant, on its route and before it expires |
| IdentityLaws.InvitationRefused | identity/invitation.go:250-263 | on any such store, another tenant's route or a late try does nothing |
| IdentityLaws.InvitationIsSpent | identity/invitation.go:265-284 | once redeemed, whatever came of the account, it is refused from then on |
| IdentityLaws.RefreshTokenIsSpent | identity/core.go:393-403 | a refresh token that was used is refused afterwards and nothing is written |
| IdentityLaws.LogoutEndsRefresh | identity/core.go:464-490 | after a logout the token refreshes nothing |
| IdentityLaws.EntersWhereMember | identity/membership.go:123-182 | from a session that was handed out: enters exactly the named tenants other than the subject's own that the active subject is a member of, and not from an entered session; an impersonated one counts as its subject's, and is the one kind whose actor is lost |
| IdentityLaws.ImpersonatesFromInside | identity/impersonation.go:76-133 | from a session that was handed out: exactly an active user of the entered tenant whom the policy allows, and not oneself |
| IdentityLaws.MissAndMismatchAlike | identity/core.go:351-361 | a user of another tenant and a user that does not exist get one answer and no session |
| IdentityRaces.PendingIsFree | identity/memstore.go:450-475 | while an invitation is pending no caller is past consuming it and no account came of it |
| IdentityRaces.MarkKeeps | identity/invitation.go:279-284 | the compare-and-set lets one caller through: nobody else holds the invitation and no account came of it |
| IdentityRaces.DeleteKeepsMethods | identity/linking.go:171-183 | the last-method guard never leaves a user without a way to sign in |
| IdentityRaces.StepKeeps | identity/linking.go:97-184 | every store call of every caller keeps users, identities, sign-in methods, invitations and callers in flight consistent |
| IdentityRaces.OneAccountPerInvitation | identity/invitation.go:230-291 | under any interleaving an invitation comes to at most one account, with exactly the invited address and tenant |
| IdentityRaces.OneUserPerCredential | identity/linking.go:60-184 | under any interleaving a credential of a tenant belongs to at most one user, who is stored in that tenant, and every user keeps a password or an identity |
| IdentityRaces.OneUserPerAddress | identity/memstore.go:65-81 | under any interleaving no two users of a tenant share an address |
| IdentityRaces.LinkedIsOwn | identity/linking.go:110-145 | a link that succeeds, at first sight, by inserting or after a lost race, names the caller's own user and is stored at that moment |
| IdentityAlone.UninterruptedAccept | identity/invitation.go:230-291 | store call by store call with nobody in between, AcceptInvitation is the operation IdentityCore performs, less the tokens |
| IdentityAlone.UninterruptedLink | identity/linking.go:97-146 | and so is Link, whichever identity the lookup finds |
| CheckThenAct.StepKeepsAMethodIff | identity/linking.go:171-183 | a check or a delete by any caller leaves a user a way to sign in exactly when it does not clear a caller for the one identity that deletes under way leave |
| CheckThenAct.RunKeepsAMethodIff | identity/linking.go:154-184 | the same over any interleaving of any number of unlinks |
| CheckThenAct.AloneTakesNoLast | identity/linking.go:171-180 | with no other delete under way the guard is enough |
| CheckThenAct.UninterruptedUnlink | identity/linking.go:154-184 | a check and a delete with nobody in between are Unlink |
| CheckThenAct.TwoUnlinksLoseTheLast | identity/linking.go:171-183 | any user with two identities and no password can lose both to two unlinks |
| CheckThenAct.ForksIffRotatedBetween | identity/core.go:393-457 | among any number of callers, a session gets a second successor exactly when another caller rotates it between this caller's read and write |
| CheckThenAct.TwoRefreshesFork | identity/core.go:393-457 | every refresh that succeeds can be made to fork, with two live successors, by a second caller that reads before it writes |
| Eviction.FindOldest | crypto/throttle.go:141-153 | the scan finds a key, the oldest one when no stamp is the zero time |
| Eviction.InsertedEffect | oidc/manager.go:587-599 | inserting within the bound changes no other entry that stays and keeps the bound |
| TokenBucket.Throttle.EvictIfFull | crypto/throttle.go:141-153 | drops the least recently touched key exactly at capacity |
| TokenBucket.Throttle.Allow | crypto/throttle.go:110-137 | touches one bucket and says what it may; a limiter without rate or capacity allows everything; contents stay between 0 and burst and keys within the bound |
| TokenBucket.Take | crypto/throttle.go:124-136 | refilling and taking in place is the function on values |
| TokenBucket.LimitsIff | crypto/throttle.go:81-91 | a limiter without rate, period or capacity limits nothing, any other refills at its rate |
| TokenBucket.FreshBurst | crypto/throttle.go:118-137 | a new key starts full: of its polls at one moment exactly the first burst are let through |
| TokenBucket.IdleRefills | crypto/throttle.go:124-126 | a key is full again exactly once the missing tokens have had their time |
| TokenBucket.RefusedPollIsInvisible | crypto/throttle.go:120-136 | a refused poll changes no later outcome, so polling never postpones an allow |
| TokenBucket.AllowedAgain | crypto/throttle.go:130-136 | a refused key is allowed again exactly once the missing part of a token has been refilled |
| TokenBucket.WaitingSuffices | crypto/throttle.go:134-136 | the announced wait and one nanosecond suffices, less than the wait does not, and the wait itself does exactly when nothing was rounded off |
| TokenBucket.AnnouncedWaitTooShort | crypto/throttle.go:134-136 | a limit and a state for which the announced wait is too short |
| TokenBucket.RateBound | crypto/throttle.go:51-53 | over any stretch of any run on a clock that does not step back, a key that keeps its bucket is let through at most burst plus elapsed time times rate |
| ReplayLedger.MemAssertionReplayStore.ConsumeAssertion | saml/memstore.go:144-160 | accepts exactly what is not live, and the sweep drops exactly what has expired |
| ReplayLedger.SweepForgetsNothingLive | saml/memstore.go:144-160 | from the last call on, a key is live in the map exactly when some acceptance of it has not expired |
| ReplayLedger.SweptAcceptsLikeHistory | saml/memstore.go:135-160 | on a clock that does not step back the swept ledger accepts exactly what one that never forgets accepts |
| ReplayLedger.AcceptedOncePerWindow | saml/memstore.go:135-160 | a key is accepted again only after the acceptance before has expired |
| ReplayLedger.SteppingBackReplays | saml/memstore.go:144-160 | a clock stepping back past a sweep lets a live assertion in again |
| ReplayLedger.LiveIff | saml/memstore.go:144-160 | for any clock, a key is live in the map exactly when a call that took it is unexpired and no later call swept it out |
| ReplayLedger.SweptIsExact | saml/memstore.go:144-160 | for any clock, the swept ledger accepts what one that never forgets accepts exactly when no call is made at a time for which its key was taken by calls that have all been swept out |
| KeySet.NewKeySet | crypto/keyset.go:76-116 | a keyset exactly when every entry is good, ids differ and the write key is listed; by default the highest id writes |
| KeySet.BuildKeys | crypto/keyset.go:80-108 | the loop keeps exactly the listed keys under their ids, and the highest id |
| KeySet.KeysAreFullLength | crypto/keyset.go:89-95 | every key in a keyset has 32 bytes |
| KeySet.HexDecodeIff | crypto/keyset.go:89-95 | a key's text decodes exactly to the bytes it is the hexadecimal form of, in either case |
| KeySet.EnvelopeIff | crypto/keyset.go:143-190 | an envelope is key id, nonce and ciphertext, and opens with the key of that id alone |
| KeySet.SealedOpens | crypto/keyset.go:143-190 | what was sealed opens under any later keyset that still holds that key |
| SecretRotation.Manager.RotateOne | oidc/manager.go:458-469 | what is written back for a listed record, whatever the store holds by then, and nothing else; success exactly when it opens, nothing fails and the record is still there |
| SecretRotation.ResealedIsSame | oidc/manager.go:448-469 | a record still as it was listed keeps its envelope or gets one under the write key that opens to the same secret |
| SecretRotation.EditDuringRotation | oidc/manager.go:443-469 | a secret set after the listing stays exactly when nothing is written back for the record or it is the listed secret; something is written back exactly for records listed under an older key |
| SecretRotation.Manager.RotateSealedSecrets | oidc/manager.go:439-473 | stopped anywhere, every secret opens as before; it finishes exactly when nothing fails, and then no record is left under another key and the counts are right |
| SecretRotation.SecondRunIsIdle | oidc/manager.go:436-438 | a run after a finished one has nothing to rotate and changes nothing |
| SecretRotation.OlderKeysCanGo | crypto/keyset.go:8-16 | after a finished run every secret opens with the write key alone to what it opened to before |
| RegistryCache.Manager.Store | oidc/manager.go:587-599 | the entry is stored within the bound, the least recently rebuilt one giving way |
| RegistryCache.Manager.Rebuild | oidc/manager.go:505-558 | what can be built is cached, an empty tenant's nothing included; what cannot is not |
| RegistryCache.OutcomeIff | oidc/manager.go:505-558 | a failed listing, a failed build, no records and a registry are told apart |
| RegistryCache.ServesIff | oidc/manager.go:481-492 | an entry is served within the ttl of being cached, and a pinned one always |
| RegistryCache.Manager.GetRegistry | oidc/manager.go:370-387 | a fresh entry is returned unchanged; otherwise the rebuilt answer, cached only if it was built |
| RegistryCache.Manager.Reload | oidc/manager.go:413-420 | a failed reload leaves nothing cached for the tenant, a successful one the new answer |
| RegistryCache.Manager.InvalidateTenant | oidc/manager.go:619-634 | drops the tenant's entry and no other |
| RegistryThreads.StepKeeps | oidc/manager.go:370-420 | every step of every thread keeps the cache no older than the finished invalidations, within its bound, and the lock with one holder |
| RegistryThreads.EveryRun | oidc/manager.go:370-420 | in every interleaving an answer is no older than the invalidations finished when the call was made and holds exactly the writes made before its rows were read, what the cache serves is younger than the ttl, and the map keeps its bound |
| RegistryThreads.InvalidationIsSeen | oidc/manager.go:610-634 | once a write and its invalidation are done, no call made later returns a registry built from older rows |
| RegistryThreads.UninterruptedGet | oidc/manager.go:370-387 | a call nobody interrupts does what the class's GetRegistry does |
| RegistryConvergence.LateAnswer | oidc/manager.go:64-68 | in every run a cached answer misses another process's write for less than the ttl and the building time, and for the full ttl only if the write fell between the reading of the rows and their storing |
| RegistryConvergence.LateExactly | oidc/manager.go:64-68 | an entry that misses a write can still be served a full ttl after it exactly when it is fresh and the write fell between the reading of its rows and their storing |
| RegistryConvergence.LateWhenever | oidc/manager.go:481-492 | the runs that do it: rows read, then a write, then the storing, then any call within the ttl of that |

## Left out

- HTTP routes, cookies, wire formats, SCIM, the OIDC, SAML and social login flows, and the audit middleware.
- Signing, bcrypt, TOTP, base64, AES and SHA-256 themselves; TOTP enrolment appears only as an edit of a user.
- SQLite and its driver. What is kept is one write lock, an ordered table and the primary key on event ids.
- Rows of another canonical version than 4, except that both verifiers refuse them; `DeleteEventByID`, which breaks a chain by design.
- AuditLog.SQLiteLogger.Log: takes no event dated before year 1, which the logger does not refuse; `AuditLog.BumpedIsLaterIff` says when such a row would be out of order.
- AuditReading.RunKeepsNewRowsLater: excludes runs in which a prune empties the table, for which `AuditReading.EmptiedLogStepsBack` shows it false.
- Registry inheritance (`oidc/manager.go:389-404`), whose walk reads another store; without it the strong invalidation statement is the one proved. Pinned registries are excluded from the thread machine by its clock.
- SecretRotation.Manager.RotateSealedSecrets: runs with no edit of a provider in between; what one edit in between comes to is `SecretRotation.EditDuringRotation`.
- IdentityRaces.StepKeeps: takes Unlink as one step; `CheckThenAct` takes it apart, where the sign-in-method clause fails.
- IdentityRaces.OneUserPerCredential: its sign-in-method clause holds with Unlink as one step, for the same reason.
- IdentityRuns.ChainsStaySingle: takes Refresh as one step; `CheckThenAct.ForksIffRotatedBetween` says when two of them fork a chain.
- IdentityCore.Core.Link: runs alone, so the branch after a lost race is in IdentityRaces only.
- Identity.NormaliseIsIdempotent: speaks of ASCII text, since case folding beyond it is not modelled.
- `ResolveByIdentity`, `ListIdentities`, recovery codes and the hooks of the identity core; `MemPermissionStore`.
- A NUL byte in a tenant or an address, which the source's joined index key assumes away.
- Rounding in the rate limiter's floating-point arithmetic, and the process-wide nature of its map.
- Log text, `Reason` strings and wrapped error messages; errors are kept by kind. Where several store failures are possible the authorization engines report one kind.
- Which of two equal-ranked roles `effective` names; only the rank decides.
