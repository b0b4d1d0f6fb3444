# Realmroot: what an Agent may do

A Dafny model of how Realmroot decides what an Agent may do, with proofs of what it promises. A
controller approves scopes in an authorization context, approvals become entitlements (permissions),
and entitlements become short-lived tokens (leases). Beside that protocol the model covers the
complete example OAuth server, the recursive document transformers, and several pairs of functions
that have to agree with each other.

The model follows the code. Where a promise does not hold in full, the model keeps what the code does
and proves exactly when the promise holds, with a concrete case in which it does not.

## How it is laid out

| Subject | Files |
|---|---|
| Strings, sorting, listings | `Options`, `Texts`, `Listings`, `ScopeTexts` |
| Canonical JSON and context matching | `CanonicalJson`, `AuthorizationDetails`, `Assignments`, `AuthorizationMatching`, `ContextScopes` |
| Access protocol: tables and statements | `Lifetimes`, `AccessDatabase`, `ApprovalBatch` |
| Access protocol: operations | `AccessDecisions`, `AccessRequests`, `DirectGrants`, `TokenLeases`, `AccessStores` |
| Access protocol: overlapping runs | `RecordChanges`, `ApprovalEvolution`, `AccessRuns`, `AccessSafety`, `StaleWrites`, `OverlapExamples`, `PermissionRevocation` |
| Example OAuth server | `DpopReplay`, `ResourceServers`, `ServerRuns`, `TokenChains` |
| OpenAPI snapshots | `OpenApiDocuments`, `OpenApiExpansion`, `OpenApiOrder`, `OpenApiIdempotence`, `OpenApiSnapshots` |
| Functions that must agree | `ClientRotations`, `AuthorizationContexts`, `EffectiveScopes`, `AgentCreation` |
| Scope registries of Resource Servers | `ScopeRegistries`, `ResourceUpdates`, `RegistryRuns` |
| Loops and codecs | `ActivityStreaks`, `RoleScopes` |

Code that changes records is a class whose methods are proved against a function of the old state
(`AccessStores.Store`, `ResourceServers.ResourceServer`, `DpopReplay.ReplayCache`,
`ClientRotations.ConnectorRecord`, `AgentCreation.AgentIdentities`, `ResourceUpdates.ResourceRecord`).
What holds over whole runs is proved about that function, with operations split into the steps
between which others can run: a read in one step and a write, guarded by just the conditions the SQL
statement has, in a later one. A write is called timely if it finds what it depends on as it was read.

## Choices

- A D1 batch or a single SQL statement is one atomic step; its `where` clauses, unique indexes and
  `on conflict do nothing` are part of it.
- Hashes and signatures are ideal: a hash stands for what was hashed, and a token verifies exactly
  if the server signed it. Identifiers drawn at random are new.
- `localeCompare` is a parameter. Results that need it to order strings, or never to call two different
  ones equal, say so; `CanonicalJsonIdentifiesMeanings` proves that without the latter, and only then,
  one meaning can have two texts.
- `mode` and `expiresAt` of a permission are one value, because the table's check constraint allows
  an expiry only with `until`.
- Sorting object entries before or after printing their values is the same thing, since sorting
  looks at keys only. A JSON number carries the text that JSON.stringify prints.
- In an expanded OpenAPI document the collation parameter is the order in which members end up:
  localeCompare, behind any integer-like keys, which JavaScript objects list first.
- Reading a property that objects inherit (`constructor`, `toString`) is treated as finding nothing.

## What the proofs found

- A time-limited permission that ran out but was never ended keeps its place in the unique index, so
  approving the same scope in the same context is refused (`ExpiredRowBlocksApproval`); the retry is
  refused too (`RetryRefused`), and the other scopes of the refused approval are granted all the same
  (`RefusedApprovalStillGrants`).
- Contexts are compared without regard to the order of their details, but a token compares them in
  order. A request answered from permissions already held may therefore never yield a token
  (`AnsweredRequestYieldsToken`, `AnsweredRequestRefused`).
- Approvals and direct grants compute a lifetime from what they read and store it without looking again.
  Two that overlap can shorten a permission below what one of them granted (`OverlappingApprovals`), and
  below leases already issued on it (`LateGrantOutlived`, `LateApprovalOutlived`); no other step can
  (`StepShortensExactly`, `OutlivedExactly`).
- A grant that finds a row to raise may raise one that has been used up in the meantime, and report it as
  granted (`LateGrantIsVoid`, `EndedRewrittenExactly`).
- A token stored between listing the leases of a permission and ending it survives the revocation
  (`RevocationExact`, `TokenEscapesRevocation`).
- A DPoP proof is accepted again exactly 300 seconds after it was issued, if that is a whole second
  (`ReplayedExactlyAtTheEnd`).
- In the example server revoking an access token takes nothing from whoever holds it: until it expires
  it can be exchanged for another, and that again, without end (`OpensExactlyUntilExpiry`,
  `ChainWithoutEnd`, `RevokedTokenReturns`).
- A client can revoke the access credential of any other client there (`RevocableExactly`).
- A failed refresh of a scope registry writes back the registry it read and so takes back an edit stored
  in the meantime (`FailedRefreshTakesEditBack`, `StaleRefreshExactly`). A first refresh, which read no
  registry, makes the scopes assigned that became automatic in the meantime (`FirstRefreshResets`,
  `FirstRefreshTakesEditBack`).
- A resource moved to a new URL while it is disabled carries the automatic scopes of its old server over
  to the new one (`MovedWhileDisabled`, `ModesAreOwnExactly`).
- If a catalogue lists a requested detail again behind the page that completes the request, the later
  entry is not read, and the scopes it takes away are kept (`StoppingEarlyExactly`, `ListedAgainUnread`).
  That can happen exactly if some detail is listed on two pages (`StoppingEarlyAlwaysExactly`).
- Greedy matching of approved details misses no assignable approval exactly when, of any two requirements
  that one detail could meet, the later asks for no more than the earlier
  (`MatchIsCompleteExactlyWhenSpecificFirst`).
- Comparing client generations alone misses a reset that has come back to the same number
  (`ResetClientLost`) and an in-place update of a client that has since been rotated
  (`UpdateFitsExactly`, `UpdateMixesClients`).
- `organization:` with no name, and an organization's bare name, are accepted when a token is issued
  although consent never offers them (`UnofferedReferencesPass`).
- A permission from an organization that the user has left gives its scope as long as no context is
  chosen, and in no context (`ContextsAddUpExactly`, `StrayPermissionHeld`).
- Expanding an expanded OpenAPI value again changes it exactly if some reference met leads back to itself
  other than through references alone (`IdempotentExactlyOnDocument`): an object that refers back to
  itself expands one level further (`CyclicExpandsFurther`), a reference to itself stays as it is
  (`SelfReferenceStays`).

## Model

| member | source | states |
|---|---|---|
| CanonicalJson.CanonicalJsonInjective | server/usecases/external-resources.ts:3221-3230 | two values with the same canonical text mean the same (members as maps), whatever the collation: the text is uniquely decodable |
| CanonicalJson.CanonicalJsonIgnoresMemberOrder | server/usecases/external-resources.ts:3221-3230 | values that mean the same print the same text if the collation ties no two keys |
| CanonicalJson.CanonicalJsonIdentifiesMeanings | server/usecases/agent-identities.ts:976-985 | canonical text identifies meanings if and only if the collation never ties two different keys |
| CanonicalJson.TiedKeysPrintTwice | server/usecases/agent-identities.ts:976-985 | two keys that the collation ties give one meaning two texts |
| AuthorizationDetails.StrikeOff | server/usecases/external-resources.ts:3133-3141 | striking forms off by index and splice succeeds exactly on multiset inclusion |
| AuthorizationDetails.IsAuthorizationDetailsSubset | server/usecases/external-resources.ts:3133-3141 | true exactly when the requested canonical forms are included in the allowed ones, counting repetitions |
| AuthorizationDetails.ExactIsMultisetEquality | server/usecases/external-resources.ts:3143-3148 | sort-and-compare decides equality of the canonical forms as multisets |
| AuthorizationDetails.FormsCompareAsMeanings | server/usecases/external-resources.ts:3133-3148 | inclusion and equality of forms are inclusion and equality of what the details mean |
| AuthorizationMatching.FitsIsServes | server/usecases/external-resources.ts:3217-3219 | a candidate equals or instantiates a requirement exactly if it has every member of it with an equal value |
| AuthorizationMatching.AuthorizationDetailsMatchRequest | server/usecases/external-resources.ts:3150-3164 | the find-and-splice loop accepts exactly lists of equal length without repetition on which the greedy run succeeds |
| AuthorizationMatching.MatchIsSound | server/usecases/external-resources.ts:3150-3164 | acceptance gives, whatever the collation, a one-to-one assignment of all approved details to all requirements they serve; no two of them mean the same if the collation ties no keys |
| AuthorizationMatching.MatchIsCompleteExactlyWhenSpecificFirst | server/usecases/external-resources.ts:3150-3164 | every assignable duplicate-free list is accepted if and only if, of any two requirements that one detail could meet, the later asks for no more than the earlier |
| AuthorizationMatching.ExchangeableApprovalAccepted | server/usecases/external-resources.ts:3150-3164 | one assignable duplicate-free list is accepted if, wherever one of its details meets two requirements, all of its details that meet the earlier meet the later |
| AuthorizationMatching.UnambiguousApprovalAccepted | server/usecases/external-resources.ts:3150-3164 | so it is if none of its details meets two requirements, whatever their order |
| AuthorizationMatching.TemptingFails | server/usecases/external-resources.ts:3150-3164 | where the order is wrong, an assignable list is constructed that the greedy run rejects |
| ContextScopes.AccountScopes | server/usecases/external-resources.ts:502-527 | reading page by page gives the outcome of the entries up to the first page with which every requested detail has been met, or of the whole catalogue |
| ContextScopes.StoppingEarlyExactly | server/usecases/external-resources.ts:509-519 | for given pages and request: whatever scopes the entries have, stopping early returns what the whole catalogue would, exactly if no requested detail is listed again behind the entries read |
| ContextScopes.StoppingEarlyAlwaysExactly | server/usecases/external-resources.ts:509-519 | for every request and all scopes it does, exactly if no detail is listed on two pages |
| ContextScopes.NoRepeatsReadWhole | server/usecases/external-resources.ts:502-527 | for a catalogue that lists no detail twice, what is returned is the outcome of the whole catalogue |
| ContextScopes.ListedAgainUnread | server/usecases/external-resources.ts:509-519 | a requested detail with a scope, a full page behind it, and the detail again without: the scope is returned, the whole catalogue has none |
| ContextScopes.OutcomeMeans | server/usecases/external-resources.ts:520-526 | for any entries: no scopes if a requested detail is missing, null exactly if the last entry of one has no scope list, else exactly the scopes that the last entries of all requested details have |
| Lifetimes.ExtendedIsLeastUpperBound | server/usecases/external-resources.ts:1533-1546 | approving takes the least upper bound in once < until(t) < persistent |
| Lifetimes.ApprovalOrderIrrelevant | server/usecases/external-resources.ts:1533-1546 | approvals give the same lifetime in any order and repetition |
| Lifetimes.GrantsAgree | server/adapters/repos/authorization.ts:1072-1082 | a direct grant combines lifetimes as an approval does, and leaves the row alone exactly when it adds nothing |
| Lifetimes.OverlappingApprovals | server/usecases/external-resources.ts:1533-1546 | an approval stored over another that read the same row loses it exactly if it writes at all and the other was longer |
| Lifetimes.PermanentApprovalLost | server/usecases/external-resources.ts:1533-1546 | a permanent approval lost to a time-limited one decided at the same moment |
| ApprovalBatch.InsertAllFacts | server/adapters/repos/external-resources.ts:978-1030 | the inserts store exactly the rows the database alone would accept, and all are stored exactly if all are acceptable |
| ApprovalBatch.UpdateAllFacts | server/adapters/repos/external-resources.ts:597-609 | the updates revise exactly the named rows, and the batch fails exactly if one of them alone would conflict |
| AccessDecisions.PlanApproval | server/usecases/external-resources.ts:1516-1570 | the planning loop inserts for each scope without a row and updates each row whose lifetime grows or whose hash changes, in the order of the scopes |
| AccessDecisions.ApprovalOutcome | server/usecases/external-resources.ts:1513-1612 | an undisturbed approval succeeds exactly when no other open row holds the key of a requested scope; each way of failing, and what stays stored, is exact |
| AccessDecisions.ApprovalGrants | server/usecases/external-resources.ts:1513-1570 | after an approval every requested scope has an open row under the approved context with at least the approved lifetime, and no lifetime has shrunk |
| AccessDecisions.ExpiredRowBlocksApproval | server/adapters/repos/external-resources.ts:978-1030 | a permission that ran out but was not ended refuses every later approval of its key |
| AccessDecisions.RetryRefused | server/usecases/external-resources.ts:1602-1609 | the retry after a refused approval is refused as well unless something else changed |
| AccessDecisions.RefusedApprovalStillGrants | server/adapters/repos/external-resources.ts:594-625 | a refused approval grants every scope whose key was free although its request stays pending |
| AccessDecisions.RefusedApprovalExample | server/adapters/repos/external-resources.ts:594-625 | a concrete database and approval in which this happens |
| AccessRequests.Reuse | server/usecases/external-resources.ts:1002-1015 | collects a permission already held for each scope; the request counts as authorized exactly if every scope has one |
| AccessRequests.FindPending | server/usecases/external-resources.ts:1039-1045 | finds a pending, unexpired request for the same context and scopes, or there is none |
| AccessRequests.AnsweredRequestYieldsToken | server/usecases/external-resources.ts:1002-1083 | a request answered from held permissions yields a token at once exactly if all active permissions of the context carry the details in the order asked |
| AccessRequests.AnsweredRequestRefused | server/usecases/external-resources.ts:1002-1083 | a permission granted for two details in one order answers a request for them in the other, and the token for it is refused |
| TokenLeases.EarliestExpiry | server/usecases/external-resources.ts:3475-3478 | the least expiry among the permissions, if any has one |
| TokenLeases.IssueAccepted | server/adapters/repos/external-resources.ts:1032-1135 | an undisturbed issue is stored exactly if the target is available and every active permission of the context stayed active and carries the details in the request's order |
| TokenLeases.IssueStores | server/usecases/external-resources.ts:1627-1660 | the lease has exactly the active permissions of the context and exactly their scopes, outlives none of them, and uses up exactly those good for one use |
| AccessStores.Store.ApproveAccessRequestWithEntitlements | server/adapters/repos/external-resources.ts:594-625 | the batch, statement by statement with rollback on a key conflict, has the effect and result of the specified approval |
| AccessStores.Store.IssueTokenLeaseWithAudit | server/adapters/repos/external-resources.ts:800-845 | stores the lease, settles the request and ends the used permissions exactly if the lease may be inserted |
| AccessStores.Store.EndEntitlementWithAudit | server/adapters/repos/external-resources.ts:768-793 | ends an open permission and revokes the named leases; reports whether it was open |
| AccessStores.Store.CreateScopeEntitlement | server/adapters/repos/authorization.ts:563-603 | undisturbed: the specified grant, returning the row that carries it, or failing exactly if another open row holds the key |
| AccessStores.Store.CreateAgentAccessRequest | server/usecases/external-resources.ts:986-1101 | refused exactly if the resource is unavailable; else answers from held permissions exactly if all scopes are held, else returns the same pending request, else files one |
| AccessStores.Store.DecideAgentAccessRequest | server/usecases/external-resources.ts:1461-1612 | reads, plans and stores an approval and, if permissions had changed, does so once more |
| AccessStores.Store.IssueAccessToken | server/usecases/external-resources.ts:1627-1839 | drafts a lease from the active permissions of the request's context and stores it; refused before that exactly for the request, its permissions, the resource, the connection or the lifetime of the other server's token |
| AccessStores.Store.RevokeAgentPermission | server/usecases/external-resources.ts:2020-2043 | ends an open, sourced permission with the leases active on it, after which none is active then or later; otherwise changes nothing |
| AccessStores.Store.RevokeUncoveredEntitlements | server/usecases/external-resources.ts:2977-3004 | ends exactly the active permissions of the connection that the new grant does not cover, and exactly the leases active on them |
| AccessStores.OnlyCoveredRemain | server/usecases/external-resources.ts:2977-3004 | afterwards every active permission of the connection is covered, no covered one was touched, and no lease of an ended one is active |
| ApprovalEvolution.ApprovalEvolves | server/usecases/external-resources.ts:1513-1612 | an approval stored late keeps permissions unique, reopens no ended row, and if timely shortens no lifetime |
| DirectGrants.GrantOutcome | server/adapters/repos/authorization.ts:563-603 | an undisturbed grant succeeds exactly if no other open row holds its key; then one holds it with the greater of both lifetimes, an expired row has given way, and nothing else changed |
| DirectGrants.GrantShortensExactly | server/adapters/repos/authorization.ts:590-602 | a grant stored over a changed row shortens it exactly if it extends what it read and what is stored is longer than what it grants |
| DirectGrants.GrantOverEnded | server/adapters/repos/authorization.ts:578-602 | a row that has ended since it was read is rewritten exactly if the write differs from it; it stays ended, and no open row comes of the grant |
| AccessRuns.GrantKeeps | server/adapters/repos/authorization.ts:563-603 | a grant written late keeps permissions unique and reopens none; if it finds its row open and as long as it was read, it shortens none |
| AccessRuns.StepEvolves | server/usecases/external-resources.ts:1461-2043 | no step, unguarded ends and late grants included, forgets a row, revives an ended permission, a revoked lease or a decided request, or breaks uniqueness |
| AccessRuns.StepMovesOn | server/adapters/repos/external-resources.ts:402-435 | nor does disconnecting a connector, which takes the connection off permissions and requests |
| AccessSafety.RunsAreSafe | server/usecases/external-resources.ts:1461-2043 | in every overlapping run: permissions unique per context and scope, each lease has exactly the scopes of permissions of its request's target, and no two leases used up the same permission; if approvals and grants were stored over the lifetimes they read, no lease outlives a permission it did not use up |
| AccessSafety.OneUseBacksOneLease | server/adapters/repos/external-resources.ts:800-845 | then a permission good for one use backs at most one lease, and has ended |
| AccessSafety.RunsMoveOn | server/usecases/external-resources.ts:1461-2043 | between any two moments of a run no record is forgotten, no ended permission reopened, no revoked lease restored, no settled request unsettled; only connections may be taken off |
| AccessSafety.OverlappedIssue | server/usecases/external-resources.ts:1646-1660 | a lease stored after others wrote has exactly the permissions of its context active when it read, all still active; one it lacks was not active then or belonged to another connection |
| StaleWrites.ApprovalOverwrites | server/usecases/external-resources.ts:1533-1546 | whatever happened since it was planned, an approval of any number of scopes that is not rolled back leaves each open row it rewrites with the lifetime computed from its reading |
| StaleWrites.StepShortensExactly | server/usecases/external-resources.ts:1533-1546 | over all steps: a permission becomes shorter exactly if an approval or a grant is stored over a row that has become longer than what it writes |
| StaleWrites.EndedRewrittenExactly | server/adapters/repos/authorization.ts:456-463 | an ended permission changes exactly if a late grant, an unguarded end or a disconnection writes something new into it, and it stays ended |
| StaleWrites.OutlivedExactly | server/usecases/external-resources.ts:1646-1660 | over all steps: a stored lease comes to outlive a permission it did not use up exactly if the step shortens the permission to a time before the lease expires |
| StaleWrites.OutlivedOnlyByShortening | server/usecases/external-resources.ts:1646-1660 | any lease does so only by such a step, or by being issued on a reading of a permission that has been shortened since |
| OverlapExamples.LateGrantOutlived | server/adapters/repos/authorization.ts:590-602 | a run, timely but for its last step, in which a grant makes a lease outlive its permission; no approval takes part |
| OverlapExamples.LateApprovalOutlived | server/usecases/external-resources.ts:1533-1546 | such a run in which the last step is an approval |
| OverlapExamples.LateGrantIsVoid | server/adapters/repos/authorization.ts:593-602 | a run in which a grant raises a permission that a token has just used up: the row is rewritten and the Agent is left without any |
| PermissionRevocation.RevocationExact | server/usecases/external-resources.ts:2020-2043 | after a revocation some lease of the permission is active exactly if one was stored since the leases were listed |
| PermissionRevocation.RevocationHolds | server/usecases/external-resources.ts:2020-2043 | in a run: no lease of the permission is active from then on, exactly if none was stored between listing and ending |
| PermissionRevocation.TokenEscapesRevocation | server/usecases/external-resources.ts:2066-2074 | a token issued in between stays active |
| DpopReplay.ReplayCache.ConsumeDpopJti | examples/external-resource-server/server.ts:437-445 | the deleting loop leaves exactly the entries that expire in a later second; a remembered proof is refused, any other is remembered for 300 seconds from its issue |
| DpopReplay.ReplayCache.Check | examples/external-resource-server/server.ts:429-434 | a stale proof changes nothing and is refused; else the memory decides |
| DpopReplay.ReplayKeysTellApart | examples/external-resource-server/server.ts:442 | a replay key determines thumbprint and jti, as thumbprints have no colon |
| DpopReplay.AcceptedAgainOnlyAtTheEnd | examples/external-resource-server/server.ts:429-445 | whatever calls come between, the same proof is accepted twice only at the whole second 300 seconds after its issue |
| DpopReplay.ReplayedExactlyAtTheEnd | examples/external-resource-server/server.ts:429-445 | the next use of an accepted proof is accepted exactly then |
| DpopReplay.OnlyLiveEntriesRemain | examples/external-resource-server/server.ts:438-444 | after an accepted call every other remembered entry expires in a later second |
| ScopeTexts.NormalizedScopes | examples/external-resource-server/server.ts:501-503 | the normalised scopes are the words of the text, each once and in order |
| ScopeTexts.NormalizedRoundTrip | examples/external-resource-server/server.ts:331-332 | the scope claim of an exchanged token reads back as the scopes it was made from |
| ResourceServers.ResourceServer.HandleAuthorize | examples/external-resource-server/server.ts:135-156 | a code is stored exactly for a known client with a registered redirect URI |
| ResourceServers.ResourceServer.HandleCode | examples/external-resource-server/server.ts:280-298 | the code is deleted and credentials issued exactly if client, redirect URI, verifier and time fit |
| ResourceServers.ResourceServer.HandleRefresh | examples/external-resource-server/server.ts:300-309 | an unrevoked credential of the client yields a subject token with its stored scope |
| ResourceServers.ResourceServer.HandleBearer | examples/external-resource-server/server.ts:360-389 | a complete assertion yields an actor token for the client |
| ResourceServers.ResourceServer.HandleExchange | examples/external-resource-server/server.ts:311-358 | the checks in their order, the proof used up, then a token bound to key and Agent with its row |
| ResourceServers.ResourceServer.HandleRevoke | examples/external-resource-server/server.ts:174-188 | what the token claims of itself decides whether an access or a refresh row is marked |
| ResourceServers.ResourceServer.FinishAccess | examples/external-resource-server/server.ts:400-410 | proof, key, hash of the token and required scope decide, in this order |
| ServerRuns.StepSpendsOnce | examples/external-resource-server/server.ts:284-290 | every step keeps: a redeemed code is gone and was redeemed once, by its client, in time, with redirect URI and verifier |
| ServerRuns.StepKeepsConsent | examples/external-resource-server/server.ts:280-358 | every step keeps: what a code, a refresh credential or an API token allows was consented to together by its subject |
| ServerRuns.StepKeepsTokens | examples/external-resource-server/server.ts:311-414 | every step keeps: only exchanged tokens have rows, and whoever was let in held one with the required scope and key |
| ServerRuns.StepEarns | examples/external-resource-server/server.ts:135-156 | every step keeps: codes go only to registered redirect URIs, refresh credentials and subject tokens only to clients that redeemed a code for that subject and scope |
| ServerRuns.StepVouches | examples/external-resource-server/server.ts:331-339 | every step keeps: an exchanged token names an Agent that an actor token of its own client names |
| ServerRuns.RunsAreSafe | examples/external-resource-server/server.ts:135-409 | all of these in every run |
| ServerRuns.WhoeverEntersWasAllowed | examples/external-resource-server/server.ts:391-414 | a request that reached the projects was made with its token's key, for a vouched Agent, and with a scope its subject consented to |
| ServerRuns.RevokedForGood | examples/external-resource-server/server.ts:174-188 | a revoked refresh credential is refused from then on, and a revoked access credential opens no further request |
| ServerRuns.ExchangeNeedsBothKinds | examples/external-resource-server/server.ts:311-329 | in every run subject and actor tokens of an exchange are of different kinds, the actor token is the client's own and names its Agent, and the subject consented to what is asked |
| TokenChains.OpensExactlyUntilExpiry | examples/external-resource-server/server.ts:311-358 | from any moment of any run, revoked or not: requests can still come in through a token obtained from this one exactly if it has not expired and carries the scope |
| TokenChains.ChainWithoutEnd | examples/external-resource-server/server.ts:317-350 | and as long after as one likes, by exchanging each new token in turn |
| TokenChains.RevokedTokenReturns | examples/external-resource-server/server.ts:174-188 | a run from the empty server in which a client revokes its access token and a request then comes in through a token exchanged for it |
| TokenChains.RevocableExactly | examples/external-resource-server/server.ts:174-188 | a client can revoke exactly its own refresh credentials, but every access credential (section 2.1 of RFC 7009 allows its own) |
| TokenChains.SignedRevokesOwn | examples/external-resource-server/server.ts:174-188 | with a token that the server signed it revokes that token, exactly if it is its own |
| OpenApiDocuments.Follow | scripts/openapi-semantic-snapshot.ts:53-56 | following a pointer meets no reference that is not in the document |
| OpenApiExpansion.LeftoversAreCyclic | scripts/openapi-semantic-snapshot.ts:47-64 | a reference left after expansion was met, and was already being expanded or leads back to itself |
| OpenApiExpansion.CompleteMeansNoReturn | scripts/openapi-semantic-snapshot.ts:47-64 | if none is left, no path of references comes back to where it has been |
| OpenApiExpansion.ExpandsCompletelyExactlyWhenAcyclic | scripts/openapi-semantic-snapshot.ts:47-64 | expansion leaves no reference if and only if none it meets leads back to itself |
| OpenApiIdempotence.IdempotentExactly | scripts/openapi-semantic-snapshot.ts:47-64 | expanding the result again changes nothing exactly if each reference left in it comes back to itself through references alone |
| OpenApiIdempotence.IdempotentExactlyOnDocument | scripts/openapi-semantic-snapshot.ts:47-64 | as a condition on the document: exactly if every reference met that leads back to itself does so through references alone |
| OpenApiIdempotence.ExpansionIsIdempotent | scripts/openapi-semantic-snapshot.ts:20-23 | where none leads back to itself, expanding again, over any document, changes nothing |
| OpenApiIdempotence.CyclicExpandsFurther | scripts/openapi-semantic-snapshot.ts:47-64 | an object whose one member refers back to it is expanded one level further the second time |
| OpenApiIdempotence.SelfReferenceStays | scripts/openapi-semantic-snapshot.ts:51-57 | a reference whose target is the reference itself leads back to itself and yet expands to itself, every time |
| OpenApiIdempotence.CyclicDocumentsExist | scripts/openapi-semantic-snapshot.ts:53-56 | a document of either kind |
| OpenApiOrder.ObjectUnderRefMakesReference | scripts/openapi-semantic-snapshot.ts:51-63 | an object under `$ref` can expand to a reference that was never met, which is why such documents are set aside |
| OpenApiOrder.ExpansionIgnoresMemberOrder | scripts/openapi-semantic-snapshot.ts:47-64 | values and documents that mean the same expand to the very same value |
| OpenApiSnapshots.OpenApiSemanticSnapshot | scripts/openapi-semantic-snapshot.ts:11-33 | the nested loops collect and sort the specified entries, or fail where a pointer does |
| OpenApiSnapshots.SnapshotIsExact | scripts/openapi-semantic-snapshot.ts:17-31 | the snapshot has each operation of each included path once, under its own key, and nothing else |
| OpenApiSnapshots.SnapshotIgnoresMemberOrder | scripts/openapi-semantic-snapshot.ts:11-33 | documents that mean the same have the same snapshot |
| ClientRotations.ConnectorRecord.StoreRotation | server/usecases/connectors.ts:742-785 | stores the replacement over the generation that was read, else returns the winner's generation if it has the required scopes |
| ClientRotations.GenerationsResolve | server/usecases/external-resources.ts:2759-2768 | over every interleaving, resets included: a generation resolves exactly if it is one of 1 to the current, and the current one to the current client |
| ClientRotations.GenerationsKeepTheirClient | server/usecases/connectors.ts:742-785 | if no rotation is stored across a reset, each generation resolves to the client that had it |
| ClientRotations.HeldUntilReset | server/usecases/connectors.ts:742-785 | a generation once held stays held by the same client until the next reset |
| ClientRotations.RotationKeepsClientsExactly | server/adapters/repos/connectors.ts:141-168 | a stored rotation leaves every generation its client exactly if client and retired list had not changed since they were read |
| ClientRotations.ResetClientLost | server/usecases/connectors.ts:195-196 | a run in which a rotation is stored across a reset: no generation has the client that the reset set, and the first has the one from before it |
| ClientRotations.UpdateFitsExactly | server/usecases/connectors.ts:696-725 | an in-place update fits the current client exactly if it is still the one that was read |
| ClientRotations.UpdateMixesClients | server/usecases/connectors.ts:696-725 | a run in which a rotation is stored before an in-place update: the new client is left with a secret of the old one, and no generation has the old client with its new secret |
| AuthorizationContexts.ListContexts | server/usecases/applications.ts:448-491 | the offered references are the user if no organization is required, and each enabled organization of the user that is the one required, if any |
| AuthorizationContexts.OfferedExactlyWhenAccepted | server/auth-helpers.ts:278-329 | a user or named organization reference is offered if and only if every requested Resource Server, one or more, accepts it and shows itself in it; no reference of another form is offered |
| AuthorizationContexts.AcceptedExactly | server/auth-helpers.ts:278-329 | for every reference and none: exactly when every requested Resource Server accepts it |
| AuthorizationContexts.TwoOrganizationsShareNoContext | server/usecases/applications.ts:454-461 | when two organizations are required nothing is offered, and nothing passes that names a user or an organization, nor anything for a private Application |
| AuthorizationContexts.UnofferedReferencesPass | server/auth-helpers.ts:293-329 | never offered, yet accepted: a bare organization name wherever it is offered with its prefix, and the prefix alone wherever no reference would pass |
| EffectiveScopes.ResolveMembershipScopes | server/usecases/organization-membership-scopes.ts:20-73 | the scopes of a membership are those its roles carry, its owner's assigned scopes, restricted to what the resource assigns and shows |
| EffectiveScopes.UserEffectiveScopes | server/usecases/resource-scope-entitlements.ts:20-57 | the result is in order, without repetition, and exactly the declared scopes that are automatic, granted or carried in the chosen context |
| EffectiveScopes.ContextsAddUpExactly | server/usecases/resource-scope-entitlements.ts:20-65 | on a public resource the unscoped scopes are those of all contexts together exactly if no permission for a foreign organization gives more |
| EffectiveScopes.StrayPermissionHeld | server/usecases/resource-scope-entitlements.ts:20-65 | a user who left an organization holds the scope it granted without a context and in none |
| EffectiveScopes.HoldingIsMonotone | server/usecases/resource-scope-entitlements.ts:20-57 | more memberships, roles or permissions never take a scope away |
| AgentCreation.AgentIdentities.CreateAgentWithInstallation | server/usecases/agent-identities.ts:69-104 | an uninterrupted call answers from the reservation or makes one |
| AgentCreation.OneAgentPerKey | server/usecases/agent-identities.ts:69-104 | in every run, whatever the collation, calls under one key that succeed return the same Agent for requests that mean the same, and at most one creates it |
| AgentCreation.AnswersFollowTheFirst | server/usecases/agent-identities.ts:950-974 | after an Agent was returned under a key, a request that means something else always conflicts; one that means the same gets that Agent until it is deleted, if the collation ties no keys |
| ResourceUpdates.ResourceRecord.RefreshScopeRegistry | server/usecases/authorization.ts:348-393 | undisturbed: a refresh that fails leaves the registry as it was, one that succeeds replaces it by what was read |
| ResourceUpdates.ResourceRecord.Update | server/usecases/authorization.ts:415-475 | undisturbed: refused without a write exactly if the server or an edited scope fails, else URL, state and registry as specified |
| ResourceUpdates.ResourceRecord.UpdateScopeGrantModes | server/usecases/authorization.ts:931-944 | an edit is refused exactly if some scope is not declared |
| ResourceUpdates.LeftBehindExactly | server/usecases/authorization.ts:431-459 | an update leaves a resource with another server's registry exactly if it moves one that has a registry and stays disabled |
| ResourceUpdates.MovedWhileDisabled | server/usecases/authorization.ts:447-454 | moved while disabled and enabled later, a resource keeps the modes of its old server; that gives what moving and enabling at once gives exactly if none of the scopes was automatic |
| ScopeRegistries.RegistryIsLastRead | server/usecases/resource-metadata.ts:68-88 | after any history of synchronizations and edits the registry is the list last read successfully, in order and without repetition |
| ScopeRegistries.ModeIsLastSet | server/usecases/resource-metadata.ts:69-74 | the mode of a scope is the last one set since it was last newly declared, else assigned |
| RegistryRuns.RegistryWasRead | server/usecases/authorization.ts:364-393 | in every overlapping run each registry, stored or about to be, is one list read from the URL it names, in order and without repetition |
| RegistryRuns.ModesAreOwnExactly | server/usecases/resource-metadata.ts:69-74 | in every run: each automatic scope was made automatic for the URL its registry names, up to any moment exactly if no synchronization carried such a mode over from another URL |
| RegistryRuns.TimelyRunsAreHistories | server/usecases/authorization.ts:364-475 | in every run whose writes find the registry they read, the registry is that of the history of its events, whatever else overlaps |
| RegistryRuns.StaleRefreshExactly | server/usecases/authorization.ts:364-393 | whatever a refresh read and whatever registry is stored by then, one or none: it undoes something exactly if it failed having read another registry, or succeeded having read another mode of an advertised scope, where no registry counts as all assigned |
| RegistryRuns.FirstRefreshResets | server/usecases/authorization.ts:457-468 | a refresh that read an enabled resource before its first registry was stored undoes something exactly if it succeeds and an advertised scope is automatic by then |
| RegistryRuns.StaleUpdateExactly | server/usecases/authorization.ts:446-474 | likewise an update, for the scopes and modes that it did not set itself |
| RegistryRuns.FailedRefreshTakesEditBack | server/usecases/authorization.ts:382-393 | a run in which an accepted edit is gone after a refresh that failed |
| RegistryRuns.FirstRefreshTakesEditBack | server/usecases/authorization.ts:364-382 | a run in which two refreshes begin before there is a registry, and an edit accepted after the first has ended is gone after the second, though both succeed |
| ActivityStreaks.LongestStreak | server/usecases/public-profiles.ts:161-169 | the largest k with k consecutive active days |
| ActivityStreaks.CurrentStreak | server/usecases/public-profiles.ts:172-178 | terminates with the maximal run of active days ending today |
| ActivityStreaks.ActivityOverview | server/usecases/public-profiles.ts:160-185 | all four numbers are exact, current <= longest <= active days, and active days <= total for natural counts, for any order and repetition |
| ActivityStreaks.StreaksAreDetermined | server/usecases/public-profiles.ts:160-185 | the two streaks depend on nothing but which days are active |
| RoleScopes.Utf8RoundTrip | shared/organization-access.ts:80-95 | decoding the UTF-8 form of a scalar gives it back (section 3 of RFC 3629) |
| RoleScopes.ComponentRoundTrip | shared/organization-access.ts:80-95 | encoding succeeds exactly without unpaired surrogates, and decoding undoes it |
| RoleScopes.EncodedHasNoSlash | shared/organization-access.ts:80-82 | percent-encoding never emits a slash (section 2.1 of RFC 3986) |
| RoleScopes.RoleScopeRoundTrip | shared/organization-access.ts:80-95 | a stored role scope reads back exactly if neither part is empty, and as nothing otherwise |
| RoleScopes.RoleScopesStoredApart | server/usecases/authorization.ts:898-900 | two role scopes are never stored alike |

## Left out

- AccessSafety.RunsAreSafe: the bounds on lifetimes are stated for runs in which no approval and no grant is stored over a lifetime that changed since it was read; `StepShortensExactly` and `OverlapExamples` show why.
- AccessRuns.StepMovesOn: deleting a resource in one batch appears as the single steps it consists of.
- AccessStores.Store.DecideAgentAccessRequest: takes the approved details as already matched against the request, which `AuthorizationMatching` treats, and leaves out the checks of controller, visibility and grantor scopes.
- AccessStores.Store.CreateAgentAccessRequest: a request for scopes that are granted automatically goes on to a decision, which is an operation of its own here; checks of identity, visibility and grantor scopes are left out.
- AccessStores.Store.IssueAccessToken: visibility, declared scopes, the generation of the connector's client, the grant of the connection, and what another server answers besides its token's lifetime also refuse a token, and are not modelled.
- AccessStores.Store.RevokeAgentPermission: revoking at the target server is left out; a target that fails stops the revocation before anything is stored.
- ServerRuns.RunsAreSafe: an API request is read and decided in two steps, an exchange in one; a row revoked between the two steps of a request is not seen by it.
- ResourceServers.ResourceServer.HandleBearer: the assertion arrives verified; fetching the client's keys is left out.
- OpenApiExpansion.ExpandsCompletelyExactlyWhenAcyclic: for documents whose objects have each key once and whose `$ref` members hold no objects, as OpenAPI requires; `ObjectUnderRefMakesReference` shows why.
- OpenApiDocuments.Follow: pointers into strings, and a pointer that ends at a missing member instead of passing through one, count as leading nowhere.
- OpenApiSnapshots.SnapshotIsExact: `String(operationId)` is kept as the member it is made from.
- ContextScopes.AccountScopes: the catalogue does not change between pages.
- ActivityStreaks.ActivityOverview: dates are numbered days; malformed dates are not modelled.
- ResourceUpdates.ResourceRecord.Update: name, description, connector and details of the resource, and its deletion; that the provider boundary does not fit counts as metadata that cannot be read.
- RegistryRuns.RegistryWasRead: the registry of the platform's own Resource Server is built in and not modelled; nor is what a replaced registry prunes elsewhere, except for the permissions it ends, which `AccessRuns` has as unguarded ends.
- ClientRotations.GenerationsResolve: registration requests to the provider appear only as the client or secret they return.
- SQL beyond the statements named above, HTTP, routing, request parsing, e-mail, tracing.
- Audit records, response mappers, URL validators and settings: single-branch facts.
- `resource-visibility.ts`: which organizations see a resource is a parameter.
- `validateTokenExchangePolicies`, `filterOAuthAccessTokenScopes` beyond its context, `registrationScopes`, `normalizeRoleScopes`: they would add easy members.
- Replaying Agents created before reservations existed (server/usecases/agent-identities.ts:763-948).
- The second example server repeats the replay memory of the first.
