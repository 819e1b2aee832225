# Purser control plane: a verified model

This project models the stateful protocols of Purser's control plane and the algorithms beneath them, and proves
what they promise over every input, every run and every behaviour of the outside world. `dafny verify dfyconfig.toml`
checks all of it.

- **Audit chain** (`Varint`, `KeyOrder`, `Canonical`, `Hex`, `AuditChain`, `AuditLog`): the canonical byte form of an
  entry with a parser for it, the hash-chain rule, the verifier, the guarded store and the log. SHA-256 is an arbitrary
  function to 32 bytes; results read "equal, or these two strings that were actually hashed collide".
- **Inference audit** (`Decimal`, `InferenceEncoding`, `InferenceChain`, `Pagination`): the second chain, idempotent by
  request id, its verifier, and cursor pagination over fixed and growing tables.
- **Deployments** (`Fleet`, `Orchestrator`, `Failover`, `Routes`, `EngineLedger`, with written-out runs in
  `FailoverExample` and `RestartExample`): plans become running engines under an environment
  whose answers may depend on everything that happened before. Commands and answers form one trace, and the theorems
  are about that trace, the deployment rows and the gateway table.
- **Self-healing** (`Observation`, `Tracker`, `SelfHealing`): what one pass observes, how the tracker summarises the
  whole history, and what a pass does to registry and tracker, event by event.
- **Licence flags** (`EditDistance`, `Features`), **directory groups** (`GroupSearch`) and **deployment approvals**
  (`Approvals`).

Objects the source updates in place are classes (`Buffer`, `MemStore`, `Log`, `InferenceLog`, `Seen`, `Server`,
`Cluster`, `Controller`, `RouteReconciler`, `Actuator`, `Healer`); loops are loops with invariants; the rolling rows of
the edit distance are arrays that are swapped. Each such method is tied to a specification function or predicate, and
the run-wide theorems are proved about that specification.

## Where the code and its promises differ

- A route pass that returns no error leaves exactly the desired table if and only if every stale route was observed
  (`Routes.ExactTable`). When the gateway could not be listed and the pushed set missed a route, it survives
  (`Routes.StaleRouteSurvives`).
- A failover pushes the new route and only then tears the old deployment down, which deletes the route by model. The
  recovered model is routed right after it if and only if the gateway took the push (or held a route) and did not take
  the delete of that same model (`Failover.RoutedRightAfter`). A gateway that takes every call is left without the route
  exactly when the plan is for the failed deployment's recorded model (`Failover.AcceptingGatewayUnroutes`; a call that
  ends so is `FailoverExample.RouteLost`), until the next route pass restores it (`Failover.RoutedAfterFailover`).
- A restart overwrites the engine's handle without a stop. Over every run, an engine that reported READY is recorded in a
  deployment that has not ended or has been told to stop, if and only if no restart replaced its handle before it was
  told to stop (`EngineLedger.AccountedExactly`); a deploy and a restart that leave one running unknown are
  `RestartExample.EngineLeft`.
- The inference chain hashes the timestamp in the event's own zone and verifies it in UTC. Recording an event keeps the
  table verifiable if and only if the request id is already recorded, or the time that gets hashed is in UTC (given so,
  or zero and replaced by the clock), or the two byte forms collide (`InferenceChain.ZoneDecides`,
  `InferenceChain.ZoneBreaksExample`).
- The approval read handler shows the deciding voters except when reviewer keys are configured, none of them resolves
  and somebody approved: then the decision counts everybody and the display nobody (`Approvals.ShownAgreesExactly`,
  `Approvals.ShownDisagrees`).
- `SuggestFeature` says it reports a flag only when it differs from the input; a correct flag is suggested for itself
  (`Features.SuggestFeature`, `Features.ListedIsNearest`).
- `VerifyInferenceChain` documents its length as the rows examined; on a failure it is the number of good rows before
  the break (`InferenceChain.VerifyInferenceChain`).
- `RestartEngine` passes neither layers nor peers and makes the row ACTIVE whatever its state was
  (`Orchestrator.Controller.RestartEngine`), which is why the single-failover statement is about deployments that show
  only node-down events in the pass.

## Model

| member | source | states |
|---|---|---|
| `Varint.UvarintRoundTrip` | go/controlplane/audit/audit.go:275-279 | an unsigned varint followed by anything reads back as the same value and the same rest |
| `Varint.UvarintFitsScratch` | go/controlplane/audit/audit.go:275-279 | every 64-bit value takes one to ten bytes, so the fixed scratch array never overflows |
| `Varint.VarintRoundTrip` | go/controlplane/audit/audit.go:282-286 | zig-zag varints round-trip on all of int64, both signs, with any rest |
| `Varint.FieldRoundTrip` | go/controlplane/audit/audit.go:269-272 | a length-prefixed field followed by anything splits off uniquely |
| `Varint.Buffer.WriteUvarint` | go/controlplane/audit/audit.go:275-279 | the byte loop over the scratch array appends exactly the varint the reader inverts |
| `Varint.Buffer.WriteVarint` | go/controlplane/audit/audit.go:282-286 | the same for the zig-zag form on 64-bit words |
| `Varint.Buffer.WriteBytesField` | go/controlplane/audit/audit.go:269-272 | appends exactly one field, length first |
| `KeyOrder.SortStrings` | go/controlplane/audit/audit.go:130-135 | distinct keys in any order come out strictly ascending, none lost and none added |
| `KeyOrder.AscendingUnique` | go/controlplane/audit/audit.go:130-135 | two strictly ascending listings of one key set are the same listing, so iteration order cannot show |
| `KeyOrder.LessMeans` | go/controlplane/audit/audit.go:130-135 | what ascending means: at the first byte where two keys differ the smaller byte comes first, and a proper prefix comes first |
| `Canonical.PairsRoundTrip` | go/controlplane/audit/audit.go:136-140 | sorted key-value pairs read back as exactly that part of the map, for any bytes after them |
| `Canonical.VersionIs` | go/controlplane/audit/audit.go:83-86 | the domain-separation tag in front of every content is the text purser.audit.v1 |
| `Canonical.ParseEncode` | go/controlplane/audit/audit.go:121-142 | a parser recovers sequence number, time, actor, action, target and details from the bytes of every content |
| `Canonical.EncodeInjective` | go/controlplane/audit/audit.go:83-142 | no two distinct contents have the same canonical bytes |
| `Canonical.CanonicalBytes` | go/controlplane/audit/audit.go:121-142 | whatever order the details map is ranged in, the buffer ends as the one canonical form of the content |
| `Hex.DecodeEncode` | go/controlplane/audit/audit.go:149-158 | hexadecimal round-trips, so equal hash strings are equal digests |
| `Hex.EncodedDigits` | go/controlplane/audit/audit.go:149-158 | only the digits 0-9 and a-f are written, two for each byte, high half first |
| `Hex.GenesisIsDigestHex` | go/controlplane/audit/audit.go:76 | the genesis link is a well-formed digest and decodes to 32 zero bytes |
| `AuditChain.ComputeHash` | go/controlplane/audit/audit.go:149-158 | the chain rule over raw previous bytes and canonical bytes, and no hash for an undecodable link |
| `AuditChain.Verify` | go/controlplane/audit/audit.go:227-266 | nil exactly for an intact chain; otherwise the first failing index, its stored number and the first failed check there |
| `AuditChain.VerifiedSeq` | go/controlplane/audit/audit.go:227-266 | in a verified chain the entry at index i carries number i + 1 |
| `AuditChain.VerifiedHash` | go/controlplane/audit/audit.go:149-158 | in a verified chain every hash is the digest of the decoded link followed by the canonical bytes of the content |
| `AuditChain.VerifiedLink` | go/controlplane/audit/audit.go:227-266 | in a verified chain the first link is 64 zero digits and every other link is the hash stored right before it |
| `AuditChain.VerifiedLinkIsDigest` | go/controlplane/audit/audit.go:227-266 | inside a verified chain every link and hash is the hex of 32 bytes, which is what makes the hashed string split uniquely |
| `AuditChain.HeadAnchor` | go/controlplane/audit/audit.go:149-266 | two verified chains with one head hash are equal entry by entry, or two strings they hash collide |
| `AuditChain.PrefixVerified` | go/controlplane/audit/audit.go:227-266 | every prefix of a verified chain verifies |
| `AuditChain.ContentEdit` | go/controlplane/audit/audit.go:227-266 | any content edit at k is reported at k, as seq if the number changed, else as hash or a collision between the two inputs |
| `AuditChain.StoredHashEdit` | go/controlplane/audit/audit.go:227-266 | editing a stored hash is reported there as hash, a stored link there as link |
| `AuditChain.Reordering` | go/controlplane/audit/audit.go:227-266 | every permutation but the identity fails at the first displaced index, as seq |
| `AuditChain.Deletion` | go/controlplane/audit/audit.go:227-266 | deleting any entry but the last fails at its index, as seq |
| `AuditChain.Insertion` | go/controlplane/audit/audit.go:227-266 | inserting any entry before the end fails at it or, as seq, right after it |
| `AuditChain.RehashedEdit` | go/controlplane/audit/audit.go:227-266 | rewriting and re-hashing a non-last entry fails at the next one as link, or yields a collision |
| `AuditChain.RehashedTailVerifies` | go/controlplane/audit/audit.go:210-266 | any prefix with any re-hashed tail verifies: the limit of a chain without an outside anchor |
| `AuditLog.MemStore.Append` | go/controlplane/audit/store.go:53-74 | appends exactly when the number and the link continue the chain; otherwise that error and no change |
| `AuditLog.AdmissionMeans` | go/controlplane/audit/store.go:53-74 | which entries are refused, and with which error: a number that is not one more than the count, then a link that is not the tail hash (64 zero digits when empty) |
| `AuditLog.MemStore.Last` | go/controlplane/audit/store.go:92-103 | the tail entry, nothing for an empty store, or cancellation |
| `AuditLog.GuardedStoreFailsOnlyAsHash` | go/controlplane/audit/store.go:53-74 | whatever any callers write directly, in any order, the store can fail verification only with kind hash |
| `AuditLog.Log.Append` | go/controlplane/audit/log.go:40-75 | on an intact store a live call succeeds with its own content sealed after the tail; a failing call changes nothing |
| `AuditLog.Log.Verify` | go/controlplane/audit/log.go:84-90 | an error exactly for a cancelled listing; otherwise nil exactly when the stored chain is intact, else its first break |
| `AuditLog.LogStepIntact` | go/controlplane/audit/log.go:40-75 | a live call on an intact chain is never refused for number or link, and every call keeps the chain intact |
| `AuditLog.LogRunIntact` | go/controlplane/audit/log.go:40-75 | every run of calls on a fresh store verifies, extends every earlier state, and holds one entry per live call |
| `AuditLog.LogRunContents` | go/controlplane/audit/log.go:40-75 | the entries of a run are its live calls in order: entry i has number i + 1 and the i-th live call's clock, actor, action, target and details |
| `Decimal.IntRoundTrip` | go/controlplane/registry/inference_audit_sqlite.go:163-249 | decimal page tokens round-trip on all of int64 |
| `InferenceEncoding.CanonicalInferenceEventBytes` | go/controlplane/registry/inference_audit_sqlite.go:43-68 | the buffer writer yields, for every event, the byte form that the parser below reads back, including undecodable links and 32-bit length truncation |
| `InferenceEncoding.ParseEncode` | go/controlplane/registry/inference_audit_sqlite.go:43-68 | a parser that reads the link, a big-endian signed number and seven length-prefixed strings in the written order recovers each column from the bytes |
| `InferenceEncoding.EncodeOfColumns` | go/controlplane/registry/inference_audit_sqlite.go:43-68 | and nothing else is hashed: events that agree in those columns have the same bytes |
| `InferenceEncoding.PrevBytesMeans` | go/controlplane/registry/inference_audit_sqlite.go:51-57 | the link contributes what decodes of it, or 32 zero bytes when nothing does |
| `InferenceEncoding.ZoneMeans` | go/controlplane/registry/inference_audit_sqlite.go:64 | how a zone is written: Z for UTC, otherwise a sign, two digits of hours, a colon and two of minutes |
| `InferenceEncoding.LocalTime` | go/controlplane/registry/inference_audit_sqlite.go:64 | the date and time written are those of the event's own zone, not of UTC |
| `InferenceEncoding.EncodeInjective` | go/controlplane/registry/inference_audit_sqlite.go:43-68 | well-formed links and strings under 2^32 bytes: equal bytes mean equal link and number, and equal request id, key hash, model, tenant, formatted time, endpoint and finish reason |
| `InferenceEncoding.ZoneChangesLength` | go/controlplane/registry/inference_audit_sqlite.go:64 | hashing in another zone than UTC always changes the bytes, by five in length |
| `InferenceChain.BySeqSorts` | go/controlplane/registry/inference_audit_verify.go:27-93 | the verifier's query yields the rows that have a number, each as often as stored, in number order |
| `InferenceChain.VerifyInferenceChain` | go/controlplane/registry/inference_audit_verify.go:27-93 | on any table: true exactly for an intact chain with its length; otherwise the number of the first bad row and the count of good rows before it |
| `InferenceChain.IntactMeans` | go/controlplane/registry/inference_audit_verify.go:27-93 | what an intact chain is, row by row: number i + 1, 64 zero digits or the hash before as link, and the hash of its own columns as read back |
| `InferenceChain.ColumnEdit` | go/controlplane/registry/inference_audit_verify.go:27-93 | editing the event of row k in any table with an intact chain: every other row still checks out, and row k does if and only if no hashed column changed or the two inputs collide |
| `InferenceChain.InferenceLog.RecordInferenceEvent` | go/controlplane/registry/inference_audit_sqlite.go:78-157 | nil events and failed transactions change nothing; otherwise one recording step |
| `InferenceChain.RecordedRow` | go/controlplane/registry/inference_audit_sqlite.go:78-157 | what a new request appends to any table with an intact chain: the next id and number, the link to the chain's last row, its own columns with the zero time replaced by the clock, and the hash of the event in its own zone; earlier rows stay |
| `InferenceChain.RecordKeepsUnique` | go/controlplane/registry/inference_audit_sqlite.go:78-157 | on any table recording keeps request ids and numbers unique |
| `InferenceChain.DuplicateIgnored` | go/controlplane/registry/inference_audit_sqlite.go:119-151 | a repeated request id changes nothing and consumes no number |
| `InferenceChain.RecordStepRecorded` | go/controlplane/registry/inference_audit_sqlite.go:78-157 | a UTC event keeps the table intact, in order and unique, and adds exactly its request id |
| `InferenceChain.RunVerifies` | go/controlplane/registry/inference_audit_sqlite.go:78-157 | any run of UTC events from an empty table verifies, with one row per distinct recorded request id |
| `InferenceChain.ZoneDecides` | go/controlplane/registry/inference_audit_sqlite.go:78-157 | one recording step on any table with an intact chain, also one with rows from before the chain: it stays verifiable if and only if the id is known, the stamped time is in UTC or the two byte forms collide |
| `InferenceChain.ZoneBreaksExample` | go/controlplane/registry/inference_audit_sqlite.go:78-157 | recording an event an hour east of UTC on the empty table leaves a table that does not verify, for a digest that tells lengths apart; the zero time in that zone is stamped and verifies |
| `InferenceChain.HeadAnchor` | go/controlplane/registry/inference_audit_verify.go:27-93 | two intact tables with one head hash have one length and agree row by row in request id, key hash, model, tenant, formatted time, endpoint and finish reason, or their inputs collide |
| `Pagination.DecimalCursorRoundTrips` | go/controlplane/registry/inference_audit_sqlite.go:163-249 | the source's decimal tokens satisfy what the pagination theorems ask of a cursor |
| `Pagination.ListInferenceEvents` | go/controlplane/registry/inference_audit_sqlite.go:163-249 | one call: limit clamped, filter and cursor applied, a token exactly when rows remain, an error for a bad token |
| `Pagination.FilterMeans` | go/controlplane/registry/inference_audit_sqlite.go:163-249 | which rows a listing keeps: those with the asked key, model and tenant, strictly between the asked times as text |
| `Pagination.PageLength` | go/controlplane/registry/inference_audit_sqlite.go:163-249 | a page has at most the asked rows, 100 when not positive and at most 1000; it is full when it carries a token |
| `Pagination.PageAfter` | go/controlplane/registry/inference_audit_sqlite.go:163-249 | the page for a returned token starts exactly after the rows it names, on this or a grown table |
| `Pagination.FollowPages` | go/controlplane/registry/inference_audit_sqlite.go:163-249 | following tokens from the empty one ends and yields exactly the filtered rows, once each, in id order, for every limit |
| `Pagination.WalkDeliversAll` | go/controlplane/registry/inference_audit_sqlite.go:163-249 | with rows appended between pages, a finished walk has delivered the final table's filtered rows once each, starting with those present at the start |
| `Pagination.WalkDuringRun` | go/controlplane/registry/inference_audit_sqlite.go:78-249 | recorder and listing together: pages fetched at any moments of any run of recordings deliver exactly the filtered rows recorded by the last one, in id order |
| `EditDistance.Levenshtein` | enterprise/license/features.go:287-313 | the two rolling rows compute the recurrence for the whole strings |
| `EditDistance.LevIsShortest` | enterprise/license/features.go:287-313 | some sequence of exactly that many single-character edits exists and none is shorter |
| `EditDistance.LevIsMetric` | enterprise/license/features.go:287-313 | zero exactly for equal strings, symmetric, triangle inequality |
| `Features.NearestFlag` | enterprise/license/features.go:172-189 | the earliest declared flag of least distance among those within both thresholds, nothing if there is none |
| `Features.NearestMeans` | enterprise/license/features.go:172-189 | a suggestion is within three edits and half the flag's length, no flag within both is nearer and none as near is declared before it; none is given only if no flag is within both |
| `Features.SuggestFeature` | enterprise/license/features.go:151-190 | only known flags are ever suggested, nothing for ungated names, and which branch decides for every input |
| `Features.NormaliseMeans` | enterprise/license/features.go:139-141 | the normal form: white space trimmed from both ends and nowhere else, then each character made small and hyphens made underscores |
| `Features.ListedIsNearest` | enterprise/license/features.go:151-190 | a listed flag is always the nearest to itself, so a correct flag is suggested for itself |
| `Features.UnknownFeatures` | enterprise/license/features.go:72-80 | every unknown name as often as it was given, and no known one |
| `Features.UnknownConcat` | enterprise/license/features.go:72-80 | the unknown names of a list are those of its parts in order, so input order is kept |
| `Features.ValidateFeature` | enterprise/license/features.go:250-264 | no error exactly for known flags; otherwise a hint that is the ungated note, the alias or the suggestion |
| `Features.ValidateFeatures` | enterprise/license/features.go:271-279 | one error per unknown name, in order; success exactly when all names are known |
| `GroupSearch.ReachIsPaths` | go/controlplane/ldapauth/connector.go:216-252 | the reachable set at depth n is exactly what some path of at most n parent steps leads to |
| `GroupSearch.SearchParentGroups` | go/controlplane/ldapauth/connector.go:216-252 | on any, also cyclic, graph: adds nothing beyond the remaining depth, and all of it if no search fails, each group once |
| `GroupSearch.SearchGroups` | go/controlplane/ldapauth/connector.go:168-211 | direct groups and, with nesting, exactly the groups up to five parent steps above them, once each; a duplicate-free subset under failures; error exactly when the direct search fails |
| `GroupSearch.ResolveRole` | go/controlplane/ldapauth/connector.go:269-303 | the highest role any mapping grants to any group, else the default; no enforcement without mappings |
| `GroupSearch.HighestMeans` | go/controlplane/ldapauth/connector.go:269-303 | the role is admin if any mapping gives it to any group, else viewer, else inference, else none; no other role counts |
| `GroupSearch.HighestUnique` | go/controlplane/ldapauth/connector.go:269-303 | the role depends only on the set of groups found, not on their order or repetition |
| `Approvals.ResolveReviewerKeyHashes` | go/controlplane/server/approvals.go:37-56 | exactly the hashes of listed keys that the table holds; none when it cannot be read |
| `Approvals.SelectedConcat` | go/controlplane/server/approvals.go:50-55 | the hashes of a key table are those of its parts in order, so table order is kept |
| `Approvals.CheckApprovalQuorumFiltered` | go/controlplane/registry/approvals_sqlite.go:214-267 | the row count is the number of distinct counted voters, compared with the configured, stored or default requirement |
| `Approvals.QuorumMeans` | go/controlplane/registry/approvals_sqlite.go:214-267 | who counts and how many are needed, written out: approving votes by anybody, or only by listed keys once one resolves; the configured minimum, else the stored one, else one |
| `Approvals.Server.RequestDeploymentApproval` | go/controlplane/registry/approvals_sqlite.go:12-40 | creates one pending approval without votes, by the caller, with the asked requirement (at least one) and expiry; a second request changes nothing |
| `Approvals.RunCreated` | go/controlplane/registry/approvals_sqlite.go:12-40 | over every run, each approval has the requester, requirement and expiry of the first request that asked for that deployment |
| `Approvals.NoSelfApproval` | go/controlplane/registry/approvals_sqlite.go:151-175 | over every run, the caller of the request that created an approval has no vote on it |
| `Approvals.RunVotes` | go/controlplane/server/approvals.go:211-399 | over every run, every vote on record was cast by an approve or reject request of that reviewer, admitted by every guard |
| `Approvals.RefusalMeans` | go/controlplane/server/approvals.go:211-399 | which refusal a vote request gets: licence, admin key, body, unknown, settled, expired, the first that applies and only then |
| `Approvals.VoteIsTaken` | go/controlplane/server/approvals.go:211-399 | and an admin request on a pending, unexpired approval, by somebody else than the requester who has not voted, always casts its vote |
| `Approvals.Server.HandleApproveDeployment` | go/controlplane/server/approvals.go:211-314 | every refusal in order and without effect; otherwise one vote, approved exactly when it completes the quorum, with the counts reported |
| `Approvals.Server.HandleRejectDeployment` | go/controlplane/server/approvals.go:323-399 | every refusal in order; otherwise rejected at once, even by somebody who has voted before |
| `Approvals.Server.HandleGetApproval` | go/controlplane/server/approvals.go:116-193 | unlicensed, unknown, the approval alone when votes cannot be read, or with the requirement, the shown approvers once each and how many are missing |
| `Approvals.RunQuorum` | go/controlplane/server/approvals.go:211-399 | over every run, with the key table changing between requests: approved had a quorum of distinct counted voters under the table of the request that cast the last vote, pending had none under it, and the requester, who by RunCreated is the one that asked, never counts under any table |
| `Approvals.SameKeysQuorum` | go/controlplane/server/approvals.go:211-399 | while the key table stays the same, approved is exactly quorum reached |
| `Approvals.KeyTableMatters` | go/controlplane/server/approvals.go:211-314 | a run that ends pending without a quorum, although its votes are one under a later key table |
| `Approvals.SettledForever` | go/controlplane/server/approvals.go:211-399 | once approved or rejected, an approval never changes again, votes included |
| `Approvals.StepFrame` | go/controlplane/server/approvals.go:211-399 | a request touches no other deployment's approval |
| `Approvals.ShownAgreesExactly` | go/controlplane/server/approvals.go:116-193 | under one key table the shown approvers are the deciding voters if and only if no reviewer list is configured, or it resolves to a key, or nobody approved |
| `Approvals.ShownDisagrees` | go/controlplane/server/approvals.go:116-193 | a run of one request and one approval under a list naming a deleted key: approved by one counted voter, none shown |
| `Orchestrator.Partition` | go/controlplane/orchestrator/orchestrator.go:399-417 | succeeds exactly for plans without unspecified roles and with one host, workers in plan order; otherwise the error of the first refused assignment, or no host |
| `Orchestrator.OrderIsWorkersThenHost` | go/controlplane/orchestrator/orchestrator.go:399-417 | the start order of a usable plan is a permutation of its assignments with the workers in plan order and the host last |
| `Orchestrator.AwaitReady` | go/controlplane/orchestrator/orchestrator.go:314-345 | the handle of the first decisive stream item if that is READY |
| `Orchestrator.OutcomeIsFirstDecisive` | go/controlplane/orchestrator/orchestrator.go:314-345 | READY counts exactly when only loading, metrics and unknown events came before it |
| `Orchestrator.Controller.Rollback` | go/controlplane/orchestrator/orchestrator.go:348-357 | a stop for every engine, exact reverse order, whatever each stop answers |
| `Orchestrator.HostAfterAllWorkers` | go/controlplane/orchestrator/orchestrator.go:131-225 | in every choreographed trace, each host start comes after READY from every worker in plan order, with exactly their inference addresses as peers |
| `Orchestrator.StartCarries` | go/controlplane/orchestrator/orchestrator.go:170-215 | every start command names the node, role, layers and draft flag of the next assignment in order and the plan's model and quantization; a worker gets no peers |
| `Orchestrator.Controller.Apply` | go/controlplane/orchestrator/orchestrator.go:131-225 | refused without effect exactly when it must be; else a PROVISIONING row first and then a choreographed trace ending ACTIVE with all engines, host last, and the route pushed, or FAILED with every READY engine stopped in reverse because the next engine was blocked; what its starts carry is StartCarries |
| `Orchestrator.ApplyPushes` | go/controlplane/orchestrator/orchestrator.go:361-372 | the last command of a successful apply pushes the plan's model and quantization with the new deployment and its endpoint, and the table changes there alone, if the gateway took it |
| `Orchestrator.Controller.Teardown` | go/controlplane/orchestrator/orchestrator.go:229-255 | for a known id exactly: STOPPING, stops host first, route delete, STOPPED; nothing for an unknown id |
| `Orchestrator.TeardownStops` | go/controlplane/orchestrator/orchestrator.go:229-255 | a teardown stops exactly the recorded engines in reverse and starts none |
| `Orchestrator.TeardownMeans` | go/controlplane/orchestrator/orchestrator.go:229-255 | STOPPING is written first and STOPPED last, exactly the recorded model's route is deleted, and the recorded detail stays |
| `Orchestrator.Controller.RestartEngine` | go/controlplane/orchestrator/orchestrator.go:260-297 | succeeds exactly when the node's first engine reports READY again; issues that one start and no stop, then replaces its handle and makes the row ACTIVE, nothing else |
| `Orchestrator.RestartMeans` | go/controlplane/orchestrator/orchestrator.go:260-297 | a restart's three events and its request, field by field, and that one handle and the state of one row are all it changes |
| `Routes.DesiredRoutes` | go/controlplane/orchestrator/route_reconciler.go:164-196 | the loop computes the desired table that DesiredMeans characterises |
| `Routes.DesiredIsLast` | go/controlplane/orchestrator/route_reconciler.go:164-196 | a model is desired exactly when some routable deployment has it, and the last one listed wins |
| `Routes.DesiredMeans` | go/controlplane/orchestrator/route_reconciler.go:164-196 | written out: a model is desired exactly when an ACTIVE deployment with an endpoint is for it, by its own model id or else its detail's; the route carries that deployment's endpoint, id and quantization |
| `Routes.DesiredLeadsToActive` | go/controlplane/orchestrator/route_reconciler.go:164-196 | every desired route leads to an ACTIVE deployment of that model, to its endpoint and under its id |
| `Routes.RouteReconciler.Reconcile` | go/controlplane/orchestrator/route_reconciler.go:125-159 | from any table under any failures and order: after a listing, equal to the desired table wherever the model's own call did not fail; without errors every route leads to an ACTIVE deployment of its model; errors are exactly the failed models |
| `Routes.ExactTable` | go/controlplane/orchestrator/route_reconciler.go:125-159 | an error-free pass ends with exactly the desired table if and only if every stale route was observed |
| `Routes.StaleRouteSurvives` | go/controlplane/orchestrator/route_reconciler.go:202-215 | without a listing, an error-free pass can leave a route nobody wants |
| `Routes.RunCovered` | go/controlplane/orchestrator/route_reconciler.go:125-237 | as the only writer, with passes failing and the gateway restarting at will, the table never leaves the pushed set |
| `Routes.NonListingConverges` | go/controlplane/orchestrator/route_reconciler.go:125-237 | so after any such run a pass none of whose calls failed ends with exactly the desired table even without a listing |
| `Failover.Actuator.Failover` | go/controlplane/reconciler/actuator.go:35-61 | each result with its exact reason and effect: without recovery the old rows and the gateway table are untouched and only new engines were stopped; with it the plan was realized by agents that answered as the trace says and then the old deployment torn down, so the old row is STOPPED, its engines stopped host first, no stop before the new row was ACTIVE, and the table is the old one with the new route pushed and then the old model dropped, as far as the gateway took each |
| `Failover.FailoverReasons` | go/controlplane/reconciler/actuator.go:35-54 | which refusal a failover gives: exactly for an unknown id, for a row without an alternate plan, or for one whose plan is not stored; and then nothing changed |
| `Failover.Actuator.Cleanup` | go/controlplane/reconciler/actuator.go:63-65 | succeeds exactly for a known id, with the whole teardown trace and only that row STOPPED |
| `Failover.MakeThenBreak` | go/controlplane/reconciler/actuator.go:35-61 | a trace that makes without stopping and then breaks has no stop before the new row was written |
| `Failover.OldEnginesUntouched` | go/controlplane/reconciler/actuator.go:35-61 | with distinct handles, a failover that did not complete told no old engine to stop |
| `Failover.RoutedRightAfter` | go/controlplane/reconciler/actuator.go:55-60 | when the recovered model is routed right after the failover, and when to the new deployment, both as an if and only if over what the gateway took |
| `Failover.AcceptingGatewayUnroutes` | go/controlplane/orchestrator/orchestrator.go:244-249 | with a gateway that takes every call, the recovered model has a route if and only if the failed deployment records no model or another one |
| `FailoverExample.RouteLost` | go/controlplane/reconciler/actuator.go:55-60 | a call of Failover on a concrete fleet with willing agents and gateway recovers, and the model that was routed before is not routed after |
| `Failover.RoutedAfterFailover` | go/controlplane/orchestrator/route_reconciler.go:125-196 | from any table, any observation and any other failures, the next route pass routes the recovered model to the new ACTIVE deployment unless its own push fails; with the plan for the failed model, that is the failed deployment's model |
| `Observation.KeyInjective` | go/controlplane/reconciler/reconciler.go:246-252 | tracker keys are unambiguous as soon as deployment ids contain no bar; node ids may |
| `Observation.KeyMeans` | go/controlplane/reconciler/reconciler.go:246-252 | the key as text: event type, deployment and node joined by bars |
| `Observation.Observe` | go/controlplane/reconciler/reconciler.go:452-493 | exactly the gaps: orphans, engines on down or unhealthy nodes, unclaimed healthy nodes; each once when a deployment's engines are on distinct nodes |
| `Observation.DownMeans` | go/controlplane/reconciler/reconciler.go:452-493 | node-down exactly for a node in use that is unreported, unreachable, decommissioned or silent past the timeout; engine-down exactly for one in use that is there but neither ready nor running |
| `Observation.OrphanAndNewMean` | go/controlplane/reconciler/reconciler.go:452-564 | orphan exactly for an ACTIVE deployment whose model is gone; new node exactly for a ready, live node that no ACTIVE deployment with a model uses |
| `Tracker.TrackerIsStreak` | go/controlplane/reconciler/reconciler.go:363-449 | over every history the tracker holds exactly the last pass's discrepancies, each with the length, start and last action of its unbroken streak |
| `Tracker.StreakMeans` | go/controlplane/reconciler/reconciler.go:363-433 | a streak is the maximal run of last passes that all observed the discrepancy |
| `Tracker.LastActionMeans` | go/controlplane/reconciler/reconciler.go:408-416 | its last action is the clock of the latest pass in the streak that acted on it |
| `Tracker.ActionIsEarned` | go/controlplane/reconciler/reconciler.go:396-419 | every action has a streak of at least the threshold in passes and the hysteresis in time behind it |
| `Tracker.EligibleIsDue` | go/controlplane/reconciler/reconciler.go:408-411 | acting is allowed exactly when the streak with this pass has the threshold in passes, its first pass is the hysteresis ago and no action in it is more recent than the cooldown |
| `Tracker.ActionsAreSpaced` | go/controlplane/reconciler/reconciler.go:408-414 | two actions in one streak are at least the cooldown apart |
| `Tracker.HealingResets` | go/controlplane/reconciler/reconciler.go:428-433 | a healed discrepancy starts again from nothing: count, age and cooldown |
| `Tracker.HistoryStep` | go/controlplane/reconciler/reconciler.go:363-449 | a pass that acts only on eligible keys extends a consistent history and its tracker, so the history theorems hold for every run of passes |
| `SelfHealing.Healer.PrepareFailover` | go/controlplane/reconciler/reconciler.go:583-639 | prepared exactly when row, state, planner and plan id allow it; then the plan is stored and only that row stamped, else nothing changes |
| `SelfHealing.PreparationMeans` | go/controlplane/reconciler/reconciler.go:583-639 | prepared exactly for a known deployment that has not ended and for whose model, if recorded, the planner has a plan with a free id; the stored plan and the stamped row, field by field |
| `SelfHealing.Healer.HandleNodeDown` | go/controlplane/reconciler/reconciler.go:582-649 | refused with nothing changed, or the actuator's failover from the prepared registry, acted exactly when it recovered |
| `SelfHealing.Healer.Dispatch` | go/controlplane/reconciler/reconciler.go:497-552 | the one action the level and type allow, with its exact effect; otherwise nothing |
| `SelfHealing.DispatchMeans` | go/controlplane/reconciler/reconciler.go:497-552 | nothing happens unless it is eligible, the level is automatic, there is an actuator and it is no new node; then a failover, a restart or a teardown of exactly that deployment |
| `SelfHealing.DefaultLevels` | go/controlplane/reconciler/reconciler.go:93-100 | unless configured, engine restarts are automatic, failover and cleanup need approval and new nodes only notify |
| `SelfHealing.Healer.Process` | go/controlplane/reconciler/reconciler.go:389-426 | counts the observation and dispatches it if and only if it is eligible and not cooling down, which EligibleIsDue reads off the history |
| `SelfHealing.Healer.constructor` | go/controlplane/reconciler/reconciler.go:284-321 | defaults for a threshold or a timeout that is not positive; an empty tracker that recalls an empty history |
| `SelfHealing.Healer.Reconcile` | go/controlplane/reconciler/reconciler.go:363-449 | reports exactly the discrepancies; registry, gateway and tracker go through one step per event; the tracker stays the summary of the reconciler's own history, and every event that history makes due is dispatched and no other; at most one failover of every deployment that shows only node-down |
| `SelfHealing.DueEvents` | go/controlplane/reconciler/reconciler.go:389-426 | inside a pass with distinct keys each event meets the tracker that the history before the pass left, so due is decided by that history alone |
| `SelfHealing.ProcessedKeepsRows` | go/controlplane/reconciler/reconciler.go:582-656 | an event touches no other deployment's row; with a planner a terminal deployment is never failed over; a failed-over one is terminal |
| `SelfHealing.OnceStep` | go/controlplane/reconciler/reconciler.go:396-426 | the invariant behind it: at most one successful failover so far, and then the deployment is terminal |
| `SelfHealing.PassOps` | go/controlplane/reconciler/reconciler.go:363-449 | a whole pass, up to any of its events, is a run of applies, teardowns, failovers, restarts and plan stamps, so what holds over their runs holds over passes |
| `EngineLedger.RunAccounts` | go/controlplane/orchestrator/orchestrator.go:131-297 | over every run of those operations from an empty registry, an engine that reported READY is recorded in a deployment that has not ended or was told to stop, unless a restart replaced its handle before |
| `EngineLedger.MissingAt` | go/controlplane/orchestrator/orchestrator.go:290-296 | where handles are distinct, an engine whose handle a restart replaced is never recorded and never told to stop again |
| `EngineLedger.AccountedExactly` | go/controlplane/orchestrator/orchestrator.go:131-297 | so, where handles are distinct, exactly the engines that no restart left running are accounted for |
| `RestartExample.EngineLeft` | go/controlplane/orchestrator/orchestrator.go:260-297 | from an empty registry, one apply and one restart leave an engine that is neither recorded nor told to stop |

## Left out

- SHA-256 itself: an arbitrary function to 32 bytes.
- Calendar arithmetic of RFC 3339 timestamps and Unicode case and space tables beyond ASCII: function parameters. Zone offsets are within a day.
- InferenceEncoding.ZoneChangesLength: the date and time part of a timestamp is 19 bytes, so years outside 0 to 9999 are not modelled; the stored text of such a year does not parse back.
- Invalid UTF-8: strings are bytes where they are hashed and character sequences elsewhere.
- KeyOrder.SortStrings: sorts a value by insertion and does not model the in-place sort of a slice or its algorithm.
- Chains of 2^63 entries or more, beyond what a Go slice can hold.
- InferenceEncoding.EncodeInjective: needs strings under 2^32 bytes, because the length prefix is truncated to 32 bits.
- InferenceChain.HeadAnchor: is about the hashed columns; token counts, latency, client prefix and version columns are not hashed by the source.
- GDPR erasure, which rewrites hashed columns, and the SQL-backed admin audit table.
- Pagination.ListInferenceEvents: filters compare timestamps as the text the table stores; the text of a time is a parameter, and nothing is claimed about chronological order.
- Approvals.RunQuorum: takes each handler as one atomic step under a fixed entitlement and quorum configuration; interleaved handlers are not modelled, and the source's status update has no guard against them.
- Orchestrator.Controller.Apply: registry writes after the first succeed, so the persisted row is the one last written; cancellation is part of the environment's answers.
- Failover.OldEnginesUntouched: assumes that engine handles are distinct; of the others only EngineLedger.MissingAt and EngineLedger.AccountedExactly do.
- Deployments are listed in creation order; plans are stored decoded, so a stored plan that does not parse is not modelled.
- SelfHealing.Healer.Reconcile: the tracker statement needs distinct keys, which hold when deployment ids contain no bar and a deployment's engines are on distinct nodes; otherwise the source counts one key twice in a pass. The single-failover statement needs a planner, since without one a terminal deployment is not recognised.
- Tracker.ActionsAreSpaced: assumes a clock that does not run backwards.
- Automation from environment variables, the reason strings of reports, `Status`, metrics, webhooks and audit records of the reconciler.
- LDAP connection, bind, filter escaping and the credential cache; HTTP, gRPC, SQL and their error texts.
- The planner that computes deployment plans, fleet registration, node drain, platform administration, billing, cryptography and the user interface.
