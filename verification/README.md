# TPSR: a verified model

TPSR is a registry of software bills of materials (SBOMs) over two stores. A Hyperledger Fabric contract is
authoritative for SBOM records, their lifecycle and the trust decisions recorded about them. A Postgres database caches
statuses and holds the evidence; Express routes drive both. Trust decisions reach the ledger through an outbox table that
a retrying worker empties. Around this sit a tamper diff, a canonical form for hashing, and a pipeline that turns
evidence into one of four trust decisions.

The project models these parts and proves what they promise over all inputs and all runs. `dafny verify dfyconfig.toml`
checks everything.

## Layout

| file | what it holds |
|---|---|
| Ledger.dfy, LedgerRuns.dfy | the contract as class `Ledger`, one method a transaction, against a transition function; what every run of transactions keeps |
| Outbox.dfy, OutboxRuns.dfy | outbox rows, repository operations and the worker batch; outbox, ledger, workers, crashes and other clients as one step system |
| EndToEnd.dfy | from an evaluation through the outbox to the approve and activate gates |
| Cache.dfy, CacheLevels.dfy | the database status cache under interleaved requests and crashes; when it is level with the ledger |
| Releases.dfy | the same routes as class `Registry`, one request after the other |
| Matching.dfy, Diff.dfy, DiffTheorems.dfy | greedy matching, the tamper diff, and its theorems |
| Canonical.dfy, Integrity.dfy, Text.dfy | canonical forms of JSON trees as complete invariants; the code that computes them; the integrity check; the snapshot hash input |
| Rendering.dfy | a text form of JSON trees that reads back, as proof that what is assumed of the libraries can be met |
| Vex.dfy, StableSort.dfy | judging a VEX document; the stable sort it relies on |
| ContextRisk.dfy, TrustEngine.dfy | the context-risk fold; evidence assembly and the four-state decision |
| ContextAssertions.dfy, Exceptions.dfy | the two governance state machines and the expiry worker |
| Prelude.dfy | options, results, folds over sequences |

Imperative code of the repository appears as methods and classes with loops and fields, proved against functions on
values; theorems over runs are lemmas about those functions. Signature checks, hashes, date parsing, JSON text, clocks,
identities and the fate of a transaction or a status write enter as parameters, so each theorem holds for all of them.

## Where the code departs from its comments or from expectation

Each of these is proved, with the exact condition where there is one.

- A purl with an `@` of its own (a scoped npm name) loses that part and keeps its version, so a version bump of such a
  component changes its key, against the comment on the key (`PurlKeyIgnoresVersionIff`). After the name pass a Modified
  entry can carry two equal versions (`RekeyedComponentLooksModified`), exactly when a pair made by that pass does
  (`ModificationsDifferIffPairsDo`), and then some component only changed its key (`ModificationsDifferUnlessRekeyed`).
- Recording a decision again succeeds only under a condition on its two lists, because the stored lists are inherited and
  empty ones are not written (`ReplayIff`). Decisions without lists over SBOMs without lists satisfy it
  (`ListFreeDecisionsReplay`).
- The comments on the approve and activate gates list every status that blocks, yet a record without any decision passes
  (`GateOpensIff`, `UndecidedReachesActive`).
- The worker adds one to a retry counter that the claim has already raised, so a row gets max(1, maxRetries - 1) claims
  (`ClaimBound`). A row that its worker let go, by a
  crash or a refused status write, stays PROCESSING; every other spent row ends settled (`AbandonedIffLetGo`,
  `SpentRowRests`, `AbandonedRowIsStuck`).
- The payloads of the evaluate route and of the expiry worker lack the evidence bundle hash, which the outbox worker
  requires; those decisions never reach the ledger (`ReevaluationIsInvalid`, `InvalidPayloadNeverLeaves`).
- The cache falls behind the ledger by a lost reply, by a late finalize, and without any fault when requests on one SBOM
  overlap (`OverlapLeavesTheCacheStale`); requests one after the other keep it level (`LevelBetweenOrderlyRequests`). Once
  behind it is caught up by rejection or supersession only (`LaggingCacheNeverRecovers`). Auto-supersession sees the
  newest 500 documents only (`SurvivorsIff`).
- A member named `__proto__` disappears from the canonical form (`ProtoMemberIsLost`).
- Readable future stamps can be reported as malformed (`FutureReportedAsMalformedIff`); a scope code is decided by the last
  statement. A second usable VEX statement, about whatever vulnerability, counts as a conflict
  (`SecondVexStatementMasksBlocking`), and the context fold ignores FIXED (`FixedVexIsIgnored`).
- Where the environment is unknown, system privilege or restricted data turn the risk of a critical vulnerability from
  CRITICAL to HIGH, and no exception is asked for any more (`RaisingLowersCriticalRiskIff`); the verdict itself is monotone
  (`RaisingNeverLowersTheVerdict`).
- A finding that the document itself declares not affected is excused as soon as there is exactly one usable VEX
  statement, about whatever vulnerability (`ExcusedIff`, `DeclarationExcusedByAnyStatement`).
- Conflict between context assertions is judged against rows of any status, so a second environment locks the SBOM for
  ever (`TwoEnvironmentsLockOut`). It pins the automatic evaluation and the evaluate route to a review
  (`ConflictPinsReview`), but not the re-evaluation by the expiry worker, which is handed the active rows only
  (`EvaluatorsDisagreeIff`, `WorkerTrustsDespiteConflict`).
- The supersede route logs its event for a REQUESTED exception that stays REQUESTED (`SupersededEventIsTrueIff`,
  `SupersededRequestCanBecomeActive`). The approval asks for controls at high risk only, and for a plan
  where the policy says so, the evaluation always
  (`ApprovedIsUsableIffControlled`).

## Model

| member | source | states |
|---|---|---|
| LedgerModel.Ledger.SubmitSBOM | chaincode/sbom/submit_sbom.go:10-114 | checks in order; creates a REGISTERED record without trust, or leaves the world state alone |
| LedgerModel.Ledger.MoveToReviewPending | chaincode/sbom/review_pending_sbom.go:10-56 | only from REGISTERED (or PENDING, which nothing writes) |
| LedgerModel.Ledger.MoveToSecurityReviewed | chaincode/sbom/security_reviewed_sbom.go:10-56 | only from REVIEW_PENDING |
| LedgerModel.Ledger.MarkCompliant | chaincode/sbom/compliant_sbom.go:10-56 | only from SECURITY_REVIEWED |
| LedgerModel.Ledger.ApproveSBOM | chaincode/sbom/approve_sbom.go:10-87 | only from COMPLIANT and past the trust gate |
| LedgerModel.Ledger.ActivateSBOM | chaincode/sbom/activate_sbom.go:10-85 | only from APPROVED and past the trust gate |
| LedgerModel.Ledger.SupersedeSBOM | chaincode/sbom/supersede_sbom.go:10-56 | only from APPROVED or ACTIVE |
| LedgerModel.Ledger.RejectSBOM | chaincode/sbom/reject_sbom.go:10-59 | from every status but the two final ones |
| LedgerModel.Ledger.RecordTrustDecision | chaincode/sbom/trust_governance.go:103-263 | checks in order; an existing decision is compared and nothing is written; a new one writes trust fields, pointer and event together |
| LedgerModel.Ledger.RecordTrustEvidence | chaincode/sbom/trust_governance.go:12-100 | the same for evidence, with its own comparison |
| LedgerModel.ValidateDigest | chaincode/sbom/types.go:171-188 | accepts exactly the 71-character lower-case sha256 digests |
| LedgerModel.ValidateDigests | chaincode/sbom/trust_governance.go:116-123 | an optional provenance digest and every listed signature digest |
| LedgerRuns.RunKeepsSound | chaincode/sbom/trust_governance.go:165-257 | every run keeps histories, trust fields, pointers and events consistent with each other |
| LedgerRuns.HistoryIsARoute | chaincode/sbom/types.go:145-152 | every history, cut anywhere, follows the lifecycle in order and leaves it only by rejection or, at its end, supersession |
| LedgerRuns.ActiveTookTheWholeRoad | chaincode/sbom/activate_sbom.go:28-73 | whoever was ever ACTIVE has the five earlier statuses in order in its history |
| LedgerRuns.AtMostSixMoves | chaincode/sbom/supersede_sbom.go:28-42 | successful lifecycle transactions equal the length of the route less one, so there are at most six |
| LedgerRuns.TerminalForever | chaincode/sbom/reject_sbom.go:28-30 | SUPERSEDED and REJECTED are absorbing |
| LedgerRuns.IntegrityComparesWithSubmission | chaincode/sbom/verify_integrity.go:10-46 | at any later time the query compares with the submitted hash |
| LedgerRuns.TrustIsLatestDecision | chaincode/sbom/trust_governance.go:205-212 | the trust fields are those of the latest newly recorded decision; the status is unset exactly when there is none, else one of the four |
| LedgerRuns.DecidedForever | chaincode/sbom/trust_governance.go:205-206 | once decided, never undecided |
| LedgerRuns.GateOpensIff | chaincode/sbom/approve_sbom.go:28-59 | approve and activate succeed iff status fits and the latest decision is TRUSTED or there is none |
| LedgerRuns.UndecidedReachesActive | chaincode/sbom/activate_sbom.go:45-59 | a run without any decision reaches ACTIVE |
| LedgerRuns.ReplayChangesNothing | chaincode/sbom/trust_governance.go:165-187 | submitting a recorded decision, agreeing or not, changes nothing |
| LedgerRuns.PointerForever | chaincode/sbom/trust_governance.go:165-187 | a stored pointer is never replaced |
| LedgerRuns.WrittenOnce | chaincode/sbom/trust_governance.go:154-257 | a decision is written by at most one transaction of a run, and by one iff its pointer exists |
| LedgerRuns.ReplayIff | chaincode/sbom/trust_governance.go:170-181 | a later resubmission succeeds iff each list is non-empty, or absent over an SBOM whose list was empty |
| LedgerRuns.DecisionReadsBack | chaincode/sbom/trust_governance.go:266-316 | the query returns, for ever, the recorded fields with the lists the SBOM then carried |
| LedgerRuns.ListFreeDecisionsReplay | chaincode/sbom/trust_governance.go:213-223 | with list-free decisions only, lists stay empty and every recorded decision replays |
| LedgerRuns.DigestIff | chaincode/sbom/types.go:171-188 | a digest is `sha256:` followed by 64 of the characters 0-9 and a-f |
| LedgerRuns.SubmitIff | chaincode/sbom/submit_sbom.go:10-114 | when a registration succeeds, and that it writes one REGISTERED, undecided record with the given fields and no other |
| LedgerRuns.MoveIff | chaincode/sbom/approve_sbom.go:10-87 | when each lifecycle transaction succeeds, from which statuses to which, and that it changes status, time and submitter only |
| LedgerRuns.DecideIff | chaincode/sbom/trust_governance.go:103-187 | who may record a decision, in what form; one already recorded must be repeated field by field |
| LedgerRuns.DecideWrites | chaincode/sbom/trust_governance.go:187-257 | a new decision sets the trust fields of its SBOM, pointer and event, and nothing else |
| LedgerRuns.AttestIff | chaincode/sbom/trust_governance.go:12-80 | the same for evidence |
| LedgerRuns.EvidenceReadsBack | chaincode/sbom/trust_governance.go:52-100 | accepted evidence stays on the ledger as first submitted, with the first caller and time |
| LedgerRuns.QueriesIff | chaincode/sbom/verify_integrity.go:10-46 | when the integrity and decision queries answer, and with which fields |
| OutboxModel.OutboxStore.InsertOutboxRecord | api/src/repositories/trustRepository.js:178-205 | appends a PENDING row, refuses unknown actions |
| OutboxModel.OutboxStore.ClaimPendingOutboxRecords | api/src/repositories/trustRepository.js:210-251 | claims row i iff it is PENDING or RETRY_PENDING, its time has come and fewer than `limit` earlier rows qualify; changes no other row |
| OutboxModel.OutboxStore.UpdateOutboxRecordStatus | api/src/repositories/trustRepository.js:305-328 | unguarded status write; the next attempt time changes only when given |
| OutboxModel.OutboxStore.AdminRequeueOutboxRecord | api/src/repositories/trustRepository.js:253-303 | requeues any row whatever its status |
| OutboxModel.OutboxStore.HandleRequeueOutbox | api/src/routes/outbox.routes.js:10-48 | requeues iff the row failed or waits for a retry |
| OutboxModel.ServeRecord | api/src/workers/outboxWorker.js:63-150 | one record: validation, submission, completion, failure, backoff, or an exception out of the batch |
| OutboxModel.ProcessOutboxBatch | api/src/workers/outboxWorker.js:38-157 | every claimed row ends as its own attempt on the ledger of that moment says, up to the first throwing write |
| OutboxModel.BatchAddsUp | api/src/workers/outboxWorker.js:39-45 | if status writes succeed, claimed = completed + failed + retrying and no claimed row stays PROCESSING |
| OutboxModel.SettledIsSettled | api/src/workers/outboxWorker.js:128-148 | completed iff accepted and written; retried iff attempts remain, after 4000 * 2^k ms at the k-th claim |
| OutboxModel.SettledByIff | api/src/workers/outboxWorker.js:78-148 | how a claimed row ends, from what its attempt met: payload check, identity, delivery, reply of the ledger, status writes |
| OutboxModel.AttemptIff | api/src/workers/outboxWorker.js:99-104 | the transaction of an attempt is on the ledger unless never sent or lost before its commit, even if the reply is lost |
| OutboxModel.ValidPayloadIff | api/src/workers/outboxWorker.js:78-98 | the mandatory texts of either kind of payload |
| OutboxRuns.ExactlyOnce | chaincode/sbom/trust_governance.go:165-257 | in every interleaving a decision is written at most once; a COMPLETED row was written exactly once, with its payload |
| OutboxRuns.AnchoredDecisionFields | api/src/workers/outboxWorker.js:99-104 | behind a COMPLETED decision row the ledger holds each field of its payload |
| OutboxRuns.AnchoredEvidenceFields | api/src/workers/outboxWorker.js:99-104 | the same for evidence |
| OutboxRuns.RedeliverySucceeds | chaincode/sbom/trust_governance.go:170-181 | without lists, delivering an anchored decision again is a success that changes nothing |
| OutboxRuns.ClaimBound | api/src/workers/outboxWorker.js:64-137 | a row is claimed at most max(1, maxRetries - 1) times more than it is requeued |
| OutboxRuns.RetryCountCountsClaims | api/src/repositories/trustRepository.js:231-240 | the counter is the number of claims |
| OutboxRuns.NotBeforeBackoff | api/src/workers/outboxWorker.js:138-146 | after the k-th failed claim at t the next comes no earlier than t + 4000 * 2^k ms |
| OutboxRuns.ClaimTakesIff | api/src/repositories/trustRepository.js:215-240 | a claim step makes a row PROCESSING iff it is PENDING or RETRY_PENDING and due |
| OutboxRuns.RetryComesDue | api/src/workers/outboxWorker.js:138-146 | after a failed k-th claim at t with attempts left the row can be claimed as soon as now >= t + 4000 * 2^k |
| OutboxRuns.DeliveryCompletes | api/src/workers/outboxWorker.js:99-118 | a delivery the ledger accepts ends COMPLETED |
| OutboxRuns.AbandonedIffLetGo | api/src/workers/outboxWorker.js:115-148 | a never requeued row is PROCESSING without a worker iff some step of the run, a crash or a refused write after a failure, let it go |
| OutboxRuns.SpentRowRests | api/src/workers/outboxWorker.js:128-136 | with its claims spent, no requeue and no worker a row rests for ever, COMPLETED or FAILED_REQUIRES_REVIEW iff no step let it go, else PROCESSING |
| OutboxRuns.AbandonedRowIsStuck | api/src/repositories/trustRepository.js:215-222 | a PROCESSING row nobody holds stays so until a requeue |
| OutboxRuns.BatchServesBySteps | api/src/workers/outboxWorker.js:63-150 | the batch's treatment of a record is the step system's submit and mark steps |
| OutboxRuns.EvaluationIsValidIff | api/src/services/automaticEvaluationService.js:96-112 | the automatic payload passes the worker's check iff its mandatory texts are there |
| OutboxRuns.ReevaluationIsInvalid | api/src/routes/trust.routes.js:117-132 | the payload without bundle hash never passes |
| OutboxRuns.InvalidPayloadNeverLeaves | api/src/workers/outboxWorker.js:78-98 | a row that fails the check never completes and no worker retries it |
| OutboxRuns.InvalidPayloadSubmitsNothing | api/src/workers/outboxWorker.js:78-104 | and nothing of it reaches the ledger |
| EndToEnd.EvaluateSubmittedSbom | api/src/services/automaticEvaluationService.js:19-112 | decides and queues the decision for the ledger; without a document neither |
| EndToEnd.QueuedDecisionIsDeliverable | api/src/services/automaticEvaluationService.js:96-112 | the queued payload is a four-state decision without lists that the worker accepts |
| EndToEnd.LatestCarriesVerdict | chaincode/sbom/trust_governance.go:205-257 | while it is the latest, the ledger holds the evaluation's verdict, reason, policy version and evidence hash |
| EndToEnd.GateFollowsTheEvaluation | chaincode/sbom/approve_sbom.go:45-59 | approval or activation under it means the evaluation was TRUSTED on all grounds |
| Cache.CacheNeverAhead | api/src/routes/security-reviewed.js:46-128 | under all interleavings and crashes a cached status other than REGISTERED is in the ledger history, and the cache's rank never exceeds the ledger's |
| Cache.LaggingCacheNeverRecovers | api/src/routes/review-pending.js:29-51 | a cache behind the ledger stays at its status, or becomes REJECTED or SUPERSEDED |
| Cache.LostReplyLeavesTheCacheBehind | api/src/routes/approve.js:100-111 | a transaction that commits but reports an error leaves the cache behind |
| Cache.LateFinalizeResets | api/src/repositories/sbomRepository.js:202-228 | finalize resets whatever status the document has |
| Cache.FinalizeRaceLeavesTheCacheBehind | api/src/routes/submit.js:258-266 | a concrete run in which that happens during review |
| Cache.RouteAllowsIff | api/src/routes/approve.js:30-60 | a route lets pass what the ledger lets pass, except for PENDING and compliance; supersession is left to the ledger |
| Cache.UndisturbedRouteMovesBoth | api/src/routes/review-pending.js:29-51 | a route nothing interferes with moves ledger and cache together, or neither |
| Cache.UndisturbedSubmissionCreatesBoth | api/src/routes/submit.js:160-266 | a submission nothing interferes with leaves document and record, or neither |
| CacheLevels.LevelBetweenOrderlyRequests | api/src/routes/submit.js:160-266 | if requests on an SBOM follow one another, none dies and every reply arrives, database and ledger agree on it between them |
| CacheLevels.FinalizeKeepsLevelIff | api/src/routes/submit.js:258-266 | finalizing leaves the SBOM level iff the ledger still has it REGISTERED |
| CacheLevels.OverlapLeavesTheCacheStale | api/src/routes/reject.js:20-55 | a move and a rejection that overlap leave the move's status cached for a rejected SBOM, without any fault |
| CacheLevels.OverlapRunExists | api/src/routes/review-pending.js:29-51 | such a run from the start, after which nothing is left to do |
| Releases.Registry.LetOutboxWorkerRun | api/src/workers/outboxWorker.js:38-157 | an outbox batch between two requests keeps agreement and at most one active release |
| Releases.AgreeAfterBatch | chaincode/sbom/trust_governance.go:189-257 | recording decisions and evidence, however delivered, leaves every status alone |
| Releases.Registry.Submit | api/src/routes/submit.js:160-266 | inserts, submits, deletes again on refusal; succeeds iff the id is new and the ledger accepts |
| Releases.Registry.ReviewPending | api/src/routes/review-pending.js:10-51 | keeps agreement and one active release; succeeds iff the document is REGISTERED and the caller readable |
| Releases.Registry.SecurityReviewed | api/src/routes/security-reviewed.js:15-128 | succeeds iff REVIEW_PENDING; ends COMPLIANT iff integrity and policy pass, else REJECTED |
| Releases.Registry.Approve | api/src/routes/approve.js:11-141 | succeeds iff COMPLIANT, policy not failed, and neither database decision nor ledger against it |
| Releases.Registry.Activate | api/src/routes/activate.js:10-150 | succeeds iff APPROVED with neither database decision nor ledger against it; then supersedes the earlier releases in the list |
| Releases.Registry.SupersedePrevious | api/src/routes/activate.js:124-143 | supersedes exactly the ACTIVE same-name documents of the list |
| Releases.Registry.Supersede | api/src/routes/supersede.js:9-74 | succeeds iff APPROVED or ACTIVE; keeps agreement and one active release |
| Releases.Registry.Reject | api/src/routes/reject.js:9-55 | succeeds iff not final; keeps agreement and one active release |
| Releases.SurvivorsIff | api/src/routes/activate.js:126-129 | another release stays ACTIVE iff it was and lies beyond the first 500 documents |
| Releases.SweepLeavesOneActive | api/src/routes/activate.js:124-143 | up to 500 documents every software keeps at most one ACTIVE release |
| Releases.OldReleaseSurvives | api/src/routes/activate.js:126 | beyond that two releases can be ACTIVE |
| Matching.GreedyMatch | api/src/utils/sbomDiffEngine.js:153-164 | the shrinking-pool loop leaves exactly the surplus of each version on both sides |
| Matching.GreedyIsOptimal | api/src/utils/sbomDiffEngine.js:156-164 | no one-to-one matching of equal versions pairs more |
| Diff.PurlKeyIgnoresVersionIff | api/src/utils/sbomDiffEngine.js:11-16 | two versions of a purl share a key iff the purl has no `@` of its own |
| Diff.PurlThenRefThenName | api/src/utils/sbomDiffEngine.js:11-22 | a purl decides before a bom-ref, a bom-ref before a name |
| Diff.NameKeysIff | api/src/utils/sbomDiffEngine.js:21 | two components with neither share a key iff their names, missing ones read as Unknown, are equal |
| Diff.RefKeysIff | api/src/utils/sbomDiffEngine.js:17-20 | two versioned bom-refs share a key iff they agree up to the last `@` |
| Diff.PurlKeysIff | api/src/utils/sbomDiffEngine.js:12-16 | when two versioned purls share a key |
| Diff.BuildComponentMap | api/src/utils/sbomDiffEngine.js:24-43 | groups the components by key, in document order |
| Diff.DiffGroup | api/src/utils/sbomDiffEngine.js:122-199 | the three branches meet one specification |
| Diff.AnalyzeTampering | api/src/utils/sbomDiffEngine.js:113-289 | the affected components and classes; the tamper type by the statuses that occur: any addition, else any removal, else modifications, else metadata |
| DiffTheorems.GroupIsOptimal | api/src/utils/sbomDiffEngine.js:139-197 | a group reports the larger side less the common versions, which no matching undercuts |
| DiffTheorems.GroupModificationsDiffer | api/src/utils/sbomDiffEngine.js:166-176 | a pass-1 modification has two different versions |
| DiffTheorems.SilentIffVersionsAgree | api/src/utils/sbomDiffEngine.js:122-268 | nothing is reported iff every key has the same multiset of versions on both sides |
| DiffTheorems.ReorderingIsSilent | api/src/utils/sbomDiffEngine.js:122-268 | reordering components is not a finding |
| DiffTheorems.ChangedVersionIsReported | api/src/utils/sbomDiffEngine.js:122-268 | if under some key one version is replaced by another, something is reported |
| DiffTheorems.SwappedVersionsAreReported | api/src/utils/sbomDiffEngine.js:21 | swapping two versions between two differently named components is reported |
| DiffTheorems.ReportedComponentsExist | api/src/utils/sbomDiffEngine.js:24-43 | each reported name and version stands in the document that the entry says |
| DiffTheorems.PairedNames | api/src/utils/sbomDiffEngine.js:217-268 | the name pass cancels names and adds one modification for each |
| DiffTheorems.NoNameBothRemovedAndAdded | api/src/utils/sbomDiffEngine.js:217-268 | at the end no name is both removed and added |
| DiffTheorems.SwappingDocuments | api/src/utils/sbomDiffEngine.js:113-268 | swapping the documents swaps removals and additions name by name and keeps the number of modifications |
| DiffTheorems.ReportConserves | api/src/utils/sbomDiffEngine.js:122-268 | matched, removed and modified entries add up to the original, matched, added and modified versions to the submission |
| DiffTheorems.ModificationsDifferIffPairsDo | api/src/utils/sbomDiffEngine.js:217-268 | every reported modification has two different versions iff every pair of the name pass has |
| DiffTheorems.EqualPairIsRekeyed | api/src/utils/sbomDiffEngine.js:229-249 | a pair with equal versions is one name and version under two different keys |
| DiffTheorems.ModificationsDifferUnlessRekeyed | api/src/utils/sbomDiffEngine.js:122-268 | where no component merely changed its key, every reported modification has two different versions |
| DiffTheorems.RekeyedComponentLooksModified | api/src/utils/sbomDiffEngine.js:229-249 | a component with a new key and the same version is reported as modified |
| Canonical.CanonIffSame | api/src/utils/canonicalize.js:24-58 | canonical forms are equal iff the trees are equal up to key order at every depth and string normalisation |
| Canonical.CanonIdempotent | api/src/utils/canonicalize.js:24-58 | canonicalising twice changes nothing more |
| Canonical.ReorderingInvisible | api/src/utils/canonicalize.js:50-58 | reordering keys at any depth is invisible |
| Canonical.LexLessIff | api/src/utils/canonicalize.js:51 | keys are sorted by their first difference, a key before its extensions |
| Canonical.BeforeIff | api/src/utils/canonicalize.js:50-58 | the enumeration order: decimal numerals below 2^32 - 1 by number, then the other keys as texts |
| Canonical.TimestampKeyIff | api/src/utils/canonicalize.js:16-18 | timestamp keys are `timestamp` and those that end in `Timestamp` |
| Text.TrimIsMiddle | api/src/utils/canonicalize.js:30 | trimming takes the white space off both ends and nothing else |
| Integrity.CanonicalizeValue | api/src/utils/canonicalize.js:24-48 | a readable text under a timestamp key becomes the rendering of its instant, any other text is trimmed and kept; literals stay; the canonical form of a value under its key |
| Integrity.CanonicalizeObject | api/src/utils/canonicalize.js:50-58 | sorted keys assigned one by one give the members in enumeration order, index keys first |
| Integrity.CanonicalizeSBOM | api/src/utils/canonicalize.js:60-95 | the error for missing, blank, unparsable and non-document input; else the printed canonical form, the same for every notation of one document |
| Integrity.NormalizeIdempotent | api/src/utils/canonicalize.js:29-35 | trimming and timestamp normalisation are idempotent |
| Integrity.NormalizeAlikeIff | api/src/utils/canonicalize.js:29-35 | two texts become one iff they differ in outer white space only or, under a timestamp key, name one instant |
| Integrity.CanonIffOneDocument | api/src/utils/canonicalize.js:24-58 | canonical forms are equal iff the trees are one document in two notations, said without the normal form |
| Integrity.HashSBOM | api/src/utils/hash.js:5-21 | the digest of the trimmed text; errors for missing, blank and non-text input |
| Integrity.HashDocument | api/src/routes/submit.js:142-155 | canonicalising and hashing a document gives the hash that submission and check compare |
| Integrity.StoredDocumentHashesAlike | api/src/routes/security-reviewed.js:70-72 | a document whose store only reordered keys hashes as submitted |
| Integrity.IntegrityPassesIff | api/src/routes/security-reviewed.js:70-80 | the recomputed check against the ledger passes iff the stored tree is the submitted one up to key order, trimming, timestamps and `__proto__` members; assumes that the two canonical texts read back and do not collide |
| Integrity.CanonicalTextIsStable | api/src/utils/canonicalize.js:60-95 | canonicalising the canonical text gives it again, if that text reads back |
| Rendering.LibrariesExist | api/src/utils/canonicalize.js:94 | what is assumed of dates, texts and digests anywhere can be met at once |
| Integrity.ProtoMemberIsLost | api/src/utils/canonicalize.js:52-55 | a `__proto__` member is dropped |
| Integrity.SnapshotInputIff | api/src/services/snapshotService.js:46-62 | hash inputs are equal iff the payloads are, up to key order, ids, evaluation time and transition metadata |
| Integrity.TransientMembersIgnored | api/src/services/snapshotService.js:50-53 | ids and evaluation time may differ, come or go |
| Integrity.ReevaluationKeepsSnapshotInput | api/src/services/snapshotService.js:55-59 | other transition metadata leaves the hash input as it was |
| Vex.VerifyVexDocument | api/src/utils/vexEngine.js:61-423 | the verdict of a document: filter, diagnosis, resolution, semantic checks |
| Vex.AcceptedIff | api/src/utils/vexEngine.js:172-246 | what makes a statement count: issue date, expiry, vulnerability, product, digest |
| Vex.DecidingStatement | api/src/utils/vexEngine.js:362-413 | the verdict is passed on one statement, the newest and most conservative that counts |
| Vex.VerdictIff | api/src/utils/vexEngine.js:378-413 | of the newest statements that count, affected blocks, else under investigation asks for a review, else fixed lets pass |
| Vex.NotAffectedIff | api/src/utils/vexEngine.js:378-395 | a newest not_affected lets pass iff it is justified as the policy asks |
| Vex.Diagnose | api/src/utils/vexEngine.js:256-360 | the flags and codes of the diagnosis pass, stated without its loop |
| Vex.DiagnosisPrecedence | api/src/utils/vexEngine.js:324-356 | issue date before expiry before digest before scope |
| Vex.FirstStampFaultDecides | api/src/utils/vexEngine.js:327-347 | the first statement at fault at the second look names the stamp code |
| Vex.LastStatementNamesScope | api/src/utils/vexEngine.js:281-309 | the last statement names the scope code |
| Vex.SingleStatementCodes | api/src/utils/vexEngine.js:256-360 | the code for each fault of a document with one statement |
| Vex.ResolveConflict | api/src/utils/vexEngine.js:46-59 | the first entry of the stable in-place sort |
| Vex.ResolvedIsNewestAndMostConservative | api/src/utils/vexEngine.js:46-59 | it is newest among all and the most conservative of the newest |
| Vex.ResolvedIsEarliestOfTheBest | api/src/utils/vexEngine.js:46-59 | between equals the first statement of the document is taken |
| Vex.ResolutionIgnoresOrder | api/src/utils/vexEngine.js:46-59 | its instant, rank and given status do not depend on input order |
| Vex.RejectionIsNeverAmbiguous | api/src/utils/vexEngine.js:256-356 | when all statements are filtered out the fallback VEX-020 is not given |
| Vex.FutureReportedAsMalformedIff | api/src/utils/vexEngine.js:327-347 | readable stamps get VEX-013 iff none is over ten minutes ahead or stale |
| Vex.MalformedReportNeedsSmallSkew | api/src/utils/vexEngine.js:338-341 | which takes a skew below ten minutes |
| Vex.NonBlockingIsFresher | api/src/utils/vexEngine.js:362-413 | a non-blocking document has, for each accepted affected statement, a strictly newer mitigating one |
| StableSort.SortStable | api/src/utils/vexEngine.js:49-57 | the array ends as the stable insertion of its elements |
| ContextRisk.EvaluateContextRisk | api/src/utils/contextRiskEngine.js:14-234 | the outcome by what it depends on: maximum of verdicts, highest risk, early returns, overrides |
| ContextRisk.VerdictIff | api/src/utils/contextRiskEngine.js:85-158 | a vulnerability blocks iff it is neither cleared nor pending and is critical in open production or an unknown place, or sits on a sensitive asset; what asks for a review |
| ContextRisk.RiskIff | api/src/utils/contextRiskEngine.js:118-153 | which vulnerability is CRITICAL, HIGH or UNKNOWN |
| ContextRisk.OutcomeIff | api/src/utils/contextRiskEngine.js:180-227 | when the outcome blocks, lets pass or accepts conditionally, from the evidence |
| ContextRisk.ReportIff | api/src/utils/contextRiskEngine.js:180-216 | which risk and assurance are reported and when an exception is required |
| ContextRisk.RaisingNeverLowersTheVerdict | api/src/utils/contextRiskEngine.js:74-227 | more exposure, criticality, privilege, sensitivity or severity never lowers the verdict |
| ContextRisk.RaisingLowersCriticalRiskIff | api/src/utils/contextRiskEngine.js:126-153 | the risk falls from CRITICAL to HIGH iff the place is unknown and the new surroundings are sensitive |
| ContextRisk.WorstIsMaximum | api/src/utils/contextRiskEngine.js:74-158 | the folded status is the maximum of the per-vulnerability verdicts |
| ContextRisk.OutcomeIgnoresOrder | api/src/utils/contextRiskEngine.js:74-231 | order and multiplicity of vulnerabilities are irrelevant |
| ContextRisk.MoreVulnerabilitiesMonotone | api/src/utils/contextRiskEngine.js:74-158 | more vulnerabilities never improve a non-empty list |
| ContextRisk.EmptyListIsNotBest | api/src/utils/contextRiskEngine.js:159-168 | exactly when a first vulnerability improves the outcome of an empty list |
| ContextRisk.BlockingIffHighRisk | api/src/utils/contextRiskEngine.js:207-227 | blocking iff the risk is high or critical, exception required iff critical |
| ContextRisk.UnusableContextMasks | api/src/utils/contextRiskEngine.js:180-205 | conflict, invalid or missing context hides every vulnerability behind a review |
| ContextRisk.FixedVexIsIgnored | api/src/utils/contextRiskEngine.js:85-109 | FIXED is judged like no statement |
| TrustEngine.AssembleContextRiskEvidence | api/src/services/contextRiskEvidenceAssembler.js:3-228 | the input of the fold: usable context, conflicts, applicability of each finding, usable exceptions; the reported exception id is the first in the list |
| TrustEngine.IsUsable | api/src/services/contextRiskEvidenceAssembler.js:149-202 | the exception filter: status, scope, time, separation of duties, plan and controls |
| TrustEngine.UsableIffFaultless | api/src/services/contextRiskEvidenceAssembler.js:149-202 | an exception is usable iff it has none of fifteen faults, each written out |
| TrustEngine.ViewIff | api/src/services/contextRiskEvidenceAssembler.js:12-42 | which context is taken, and when contexts conflict or are invalid |
| TrustEngine.InputIff | api/src/services/contextRiskEvidenceAssembler.js:45-228 | the input of the fold field by field from the records of the bundle |
| TrustEngine.FirstStatementDecides | api/src/services/contextRiskEvidenceAssembler.js:125-131 | a finding is judged by the first usable statement about its id, CVE or vulnerability id, else as declared |
| TrustEngine.FaultyVexIsIgnored | api/src/services/contextRiskEvidenceAssembler.js:92-107 | a statement with any of nine faults leaves the decision as if it were not there |
| TrustEngine.FaultlessVexCounts | api/src/services/contextRiskEvidenceAssembler.js:92-107 | one without them counts |
| TrustEngine.EvaluateTrust | api/src/utils/trustEngine.js:35-301 | the four-state decision and its ground |
| TrustEngine.RejectedIff | api/src/utils/trustEngine.js:80-270 | REJECTED iff no document, no valid provenance above level zero, no verified signature, or a threat in a clear context without usable exception |
| TrustEngine.RejectionGround | api/src/utils/trustEngine.js:80-190 | which of these is given as the reason |
| TrustEngine.ReviewIff | api/src/utils/trustEngine.js:275-287 | REVIEW_REQUIRED iff the mandatory checks pass and the context is unclear, or there is no threat but a doubt or an ACTIVE exception |
| TrustEngine.ExposedFindingIsNotTrusted | api/src/utils/contextRiskEngine.js:126-131 | a critical finding in open production is rejected, or accepted under a faultless exception, and nothing else |
| TrustEngine.ExceptionsCannotManufactureTrust | api/src/utils/trustEngine.js:266-297 | against no exceptions a list only turns a context rejection into conditional acceptance, iff one is usable, or trust into review, iff one is ACTIVE |
| TrustEngine.ConditionalAcceptanceIff | api/src/utils/trustEngine.js:113-272 | CONDITIONALLY_ACCEPTED iff the mandatory checks pass and a threat in a clear context is covered by a usable exception |
| TrustEngine.ConditionalAcceptanceIsGoverned | api/src/services/contextRiskEvidenceAssembler.js:149-202 | that exception is active, unexpired, planned, controlled and not self-approved |
| TrustEngine.TrustedIff | api/src/utils/trustEngine.js:113-297 | TRUSTED iff the mandatory checks pass, the context is clear, no finding is a threat or in doubt and no exception is ACTIVE |
| TrustEngine.SecondVexStatementMasksBlocking | api/src/services/contextRiskEvidenceAssembler.js:117-123 | with two usable VEX statements the context never rejects |
| ContextAssertions.VerifyContextAssertion | api/src/utils/contextAssertionEngine.js:266-326 | freshness cap, conflict and derived state of a new assertion |
| TrustEngine.ExcusedIff | api/src/services/contextRiskEvidenceAssembler.js:117-131 | when a finding is excused as not affected, and when the excuse rests on a usable statement about it |
| TrustEngine.DeclarationExcusedByAnyStatement | api/src/services/contextRiskEvidenceAssembler.js:84-131 | a self-declared finding without a statement of its own is excused iff exactly one statement about something else is usable |
| ContextAssertions.AssertionStore.RecordContextAssertion | api/src/routes/contextAssertions.routes.js:58-128 | inserts the judged row and supersedes the active one of its environment |
| ContextAssertions.AssertionStore.RevokeContextAssertion | api/src/routes/contextAssertions.routes.js:191-227 | revokes an ACTIVE row only, with role and justification |
| ContextAssertions.ActivatesIff | api/src/utils/contextAssertionEngine.js:303-324 | activation iff checks pass, it is fresh and every recorded row has its environment |
| ContextAssertions.FreshIff | api/src/utils/contextAssertionEngine.js:266-300 | fresh iff not from the future and neither a day, nor the time asked for, nor any matched hour limit is over |
| ContextAssertions.AssuranceIff | api/src/utils/contextAssertionEngine.js:303-324 | which assurance and status a request is recorded with |
| ContextAssertions.RecordedIff | api/src/routes/contextAssertions.routes.js:58-124 | recording appends the row and supersedes the newest active row of its environment iff the new one is active |
| ContextAssertions.RowCountsIff | api/src/services/contextRiskEvidenceAssembler.js:20-31 | which rows count for an evaluation |
| ContextAssertions.ActiveAssertionCountsUntilItsEnd | api/src/workers/exceptionExpiryWorker.js:104-116 | after any run, an active assertion is what the worker evaluates with, up to its end |
| ContextAssertions.AtMostOneActive | api/src/routes/contextAssertions.routes.js:112-124 | at most one ACTIVE row over every sequence of non-overlapping operations |
| ContextAssertions.OverlappingRequestsKeepOneActiveIff | api/src/routes/contextAssertions.routes.js:33-124 | two requests that read the same rows keep at most one active row iff not both activate |
| ContextAssertions.OverlappingRequestsBothActivate | api/src/routes/contextAssertions.routes.js:33-65 | two that read the same empty list both activate |
| ContextAssertions.TwoEnvironmentsLockOut | api/src/utils/contextAssertionEngine.js:304-314 | after two environments nothing can be activated again |
| ContextAssertions.LifetimeIsCapped | api/src/utils/contextAssertionEngine.js:270-300 | an active assertion lasts exactly to the first of 24 hours, the time asked for and every matched rule's limit |
| ContextAssertions.ConflictPinsReview | api/src/services/automaticEvaluationService.js:35-47 | one conflicting row makes every later automatic evaluation, and every one of the evaluate route, a review |
| ContextAssertions.WorkerSeesNoConflict | api/src/workers/exceptionExpiryWorker.js:104-116 | the expiry worker's re-evaluation is handed at most one context and never a conflict |
| ContextAssertions.EvaluatorsDisagreeIff | api/src/workers/exceptionExpiryWorker.js:104-116 | on the same rows and evidence its verdict differs from the others' iff a conflicting row exists and its own verdict is no review |
| ContextAssertions.WorkerTrustsDespiteConflict | api/src/workers/exceptionExpiryWorker.js:104-116 | a run after which the worker trusts and the others review |
| Exceptions.EvaluateExceptionApproval | api/src/utils/policyExceptionEngine.js:170-241 | derives ACTIVE and VERIFIED_TRUSTED iff every check passes |
| Exceptions.ApprovableIff | api/src/utils/policyExceptionEngine.js:42-241 | who may approve which request, and for how long, check by check |
| Exceptions.FailedApprovalIff | api/src/utils/policyExceptionEngine.js:138-168 | which status and assurance a failed approval is given |
| Exceptions.UndisturbedApprovalIff | api/src/routes/exceptions.routes.js:64-148 | an approval nothing interferes with activates and is logged iff still requested, approvable, and by neither requester nor owner |
| Exceptions.UndisturbedRejectionIff | api/src/routes/exceptions.routes.js:151-199 | the same for a rejection |
| Exceptions.UndisturbedRevocationIff | api/src/routes/exceptions.routes.js:201-253 | the same for a revocation |
| Exceptions.EveryStepFollowsTheGraph | api/src/repositories/policyExceptionRepository.js:58-134 | no step of any interleaving leaves the status graph or changes the terms |
| Exceptions.ActiveWasApproved | api/src/routes/exceptions.routes.js:64-148 | whatever is or was active was approved: bound, in scope, by neither requester nor owner under any policy, within the hours of its risk |
| Exceptions.TerminalForever | api/src/repositories/policyExceptionRepository.js:58-134 | the final statuses absorb |
| Exceptions.ExpiryIsLoggedOnce | api/src/workers/exceptionExpiryWorker.js:34-52 | one EXPIRED event for each expired exception and none for others |
| Exceptions.ExpiryWorker.ProcessExpiredExceptions | api/src/workers/exceptionExpiryWorker.js:14-89 | marks what is due and not locked, logs it, commits iff an SBOM is to be re-evaluated, and changes nothing when a statement fails |
| Exceptions.NothingTouched | api/src/workers/exceptionExpiryWorker.js:67-81 | when it rolls back nothing was marked |
| Exceptions.SecondExpiryRunIsIdle | api/src/workers/exceptionExpiryWorker.js:22-52 | a second run at the same instant changes and logs nothing |
| Exceptions.SupersededEventIsTrueIff | api/src/routes/exceptions.routes.js:309-327 | the logged supersession took place iff the row was ACTIVE (or superseded already) |
| Exceptions.SupersededRequestCanBecomeActive | api/src/routes/exceptions.routes.js:309-327 | a request logged as superseded can still become active |
| Exceptions.ApprovedIsUsableIffControlled | api/src/services/contextRiskEvidenceAssembler.js:194-199 | an approved exception meets the evaluation's governance demands iff it has a plan and lists controls |

## Left out

- Signatures, certificates, DSSE envelopes, hashing, JSON text, date parsing: parameters or results of parameters.
- JSON numbers stand as the literals they are printed as; floating-point arithmetic does not occur.
- Fabric endorsement and world-state read failures: a transaction is one atomic step that commits, is lost, or commits and reports an error.
- Client identity extraction beyond readable or unreadable, and the contract's error texts; a record's floating-point risk score is a real number.
- The queries ListSBOMs, GetHistory and GetTrustEvidence: reads without conditions.
- AnalyzeTampering: the metadata comparison (diffMetadataFields) enters as a flag, because it compares fixed fields one by one; the texts and summaries of the report are not modelled.
- CanonicalizeValue: string order is by code point where JavaScript orders UTF-16 code units; the two differ above U+FFFF only, and any total order gives the same theorems. Values that JSON cannot express never reach the code.
- VerifyVexDocument: for unrecognised statuses the comparator yields no number and the sort order is implementation-defined; the model reads it as zero, and the resolution lemmas assume recognised statuses.
- verifyVexDocument's envelope, issuer and revocation checks are the parameter `earlier`; evaluateVexStatement and applyVexOverlays have no caller in the decision path.
- Reason texts, rule identifiers, dependency listings and the explanation summary of a decision (finalizeExplanation).
- VerifyContextAssertion: stages 1 to 6 enter as their three results, because they check signatures, roles and document fields; an assertion without a known environment is refused by the table.
- HandleRequeueOutbox: stated for a read and an update with nothing between; the step system in OutboxRuns.dfy separates them.
- A requeue permit of the route can be used again in the step system, which only adds runs.
- The role checks at the head of the exception and context routes: without them the step systems have more runs.
- Rows deleted from the outbox, locks' owner fields, transaction ids and error texts of outbox rows.
- Liveness: nothing is said about when a worker runs.
- Failures inside the sequential routes of Releases.dfy; Cache.dfy covers them.
- Dashboard, command line, scripts, experiment runners, replay and compliance reports.
