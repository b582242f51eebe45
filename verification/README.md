# Verification of the workflow guard, the global cut and the cycle probe

A Dafny model of three parts of the repository, with proofs about them.

* **The workflow guard** decides, for a pull request and its Work Block, whether work may go on (`build`),
  be audited (`audit`) or be merged (`finalize`). The model goes from comment text to decision: marker
  grammar and rendering, marker resolution and the plan that reconciles markers, the acceptance manifest and
  its evidence, the declared path scope, the finalization authority, the decision itself, and runs of the
  review protocol.
* **The global cut** moves a service from its v1 root to its v2 root under a durable, boot-bound window. It is
  a state machine over single durable effects; the controller can fail, crash or be rebooted between any two
  of them, and recovery can itself be interrupted and repeated. The supervising monitor and the cache
  reclaimer are modelled with every interleaving of their threads, the ancestor check of a cut command as
  the loop it is.
* **The cycle probe** measures a day of jobs: two sweeps for idle time, the journal replay, the sampling
  classifier, counter deltas, and a bounded polling loop.

Loops and updated objects of the source are methods and classes here, each proved against a specification that
says what the result means; rules that are pure conditions are functions and predicates. Failing closed is the
result `GuardFailure` of `Guarded<T>`. The modules named after a meaning are references: they define what a text, a
document, a field or a decision means in the words of the protocol, independently of the functions that compute it,
and prove both equal on every input. What git, GitHub, the service manager and the clock answer are inputs.

Run `dafny verify dfyconfig.toml` to check everything.

## Modules

| module | about |
|---|---|
| `Wrappers`, `Sequences`, `TextOrder` | results, filtering and counting, the order of texts |
| `GuardText`, `MarkerText` | line normalization; tokens, fields, grammar and printing of markers |
| `Markers`, `Reconciliation`, `Convergence` | resolution, mutation plan, the edits it asks for, its convergence |
| `Manifest`, `Evidence` | acceptance manifests and marker evidence |
| `Scope`, `ScopeCheck`, `WorkBlock` | declared paths, changed paths, block metadata and authority |
| `Snapshot`, `Guard`, `GuardMeaning` | the guard's inputs, its decisions and their meaning |
| `TextMeaning`, `ManifestMeaning`, `BlockMeaning`, `ScopeMeaning` | what comments, JSON, block fields and declarations say, by their texts |
| `DecisionMeaning`, `PrintedDecisions` | when each decision is given, in those terms; what a printed receipt decides |
| `ReviewProtocol`, `AuthorizedRuns` | runs of the review protocol; two that end in a stale authorization |
| `Paging` | cursor paging and the review verdict |
| `CutWindow`, `GlobalCut`, `CutRecovery` | the window file, the cut and its crashes, exact recoverability |
| `CutMonitor`, `CacheReclaimer`, `AncestorWalk` | supervision of the cut, cache reclaim, certificate ancestry |
| `Intervals`, `Journal`, `Sampling`, `WaitCycle` | the cycle probe |

## Where the code does less than it promises

Six promises of the code or its documentation do not hold as stated. The model keeps the code as it is.

1. *Superseding a v2 duplicate as documented* (`docs/development_protocol.md:372-374`): rename the marker, add three
   fields, keep everything else. The result keeps `manifest_sha256`, which the superseded form does not admit.
   `Reconciliation.DocumentedEditParses`: the documented edit is read back if and only if the marker is a v1 one.
   `Convergence.PlanConverges` therefore supersedes with the fields the superseded form does admit.
2. *A human approval is fresh* (`docs/development_protocol.md:649-653`: a receipt from before the audit fails). The
   receipt is matched to the audit comment by id alone. `ReviewProtocol.ApprovalPostdatesAudit`: the audit text is no
   newer than the approval if and only if the audit comment was created before the receipt and no event since edits
   it. Within one kind of comment the first half is certain, so the edits alone decide, and editing in place is what
   the document prescribes (lines 366-367): `AuthorizedRuns.StaleApprovalIsAccepted` approves a failing audit, rewrites
   it to PASS, and ends in HUMAN AUTHORIZED. The live snapshot lists comments of the issue, of the diff and of reviews
   together, each numbered on its own, so across kinds even creation order fails:
   `AuthorizedRuns.ApprovalMayPrecedeAudit` ends in HUMAN AUTHORIZED with an approval older than the audit comment.
3. *Recovery before activation returns to v1.* On the boot of the cut, once the deadline has passed, recording
   `RETURNING_V1` is refused before v1 is restarted. `CutRecovery.RecoveryExactly` gives the crash states from
   which recovery can complete; `LateCrashStrandsV1` reaches one from which it cannot, with v1 stopped, until the
   machine reboots.
4. *After `close` the reclaimer makes no request.* The stop flag is set without the lock, so a poll already past
   its check can make one more, and never two (`CacheReclaimer.CloseExactly`; `CloseMayBeLate` gets there). A reclaim
   thread that dies without recording is forgotten, and requests run ahead of completions (`LostWorkerIsReplaced`).
5. *No step starts after a stop reason.* The worker asks and then begins. `CutMonitor.NoStepAfterReason`: none is
   granted after the reason, and one more begins in some run if and only if the worker had been granted one by then;
   `StepMayBeLate` gets there. A step is the stretch between two `require_continue` checks; the one that follows the
   last delta step writes RECOVERY_VERIFIED, the intent and ACTIVATING with no check in it
   (`scripts/close_data_chassis.py:2699-2733`). Likewise `LatchStopsContinues`: once the floor is latched the cut is let
   on once more in some run if and only if the observation under way has a fresh reading with capacity;
   `LatchMayBeLate` gets there.
6. *Wall time is gaps plus work.* `cycle` measures from the first start to the last end of any attempt, the sweeps
   see terminal attempts with both times. `Intervals.CycleWallExactly`: both agree if and only if no other attempt
   reaches beyond the swept ones; `RunningJobAddsWall` is an example where they do not.

## Model

| member | source | states |
|---|---|---|
| GuardText.NormalizeIsPipeline | scripts/check_workflow_guards.py:1659-1661 | normalizing in one pass equals splitting into lines, stripping each and stripping the whole |
| GuardText.NormalizeIdempotent | scripts/check_workflow_guards.py:1659-1661 | normalizing a payload twice changes nothing more |
| MarkerText.ParseFields | scripts/check_workflow_guards.py:1673-1680 | fails exactly on a malformed line, a bad key, an empty value or a repeated key, else yields the field table |
| MarkerText.ParseMarker | scripts/check_workflow_guards.py:1664-1764 | the marker parser computes what a comment contributes: nothing, one record, or a failure |
| MarkerText.MatchIsRender | scripts/check_workflow_guards.py:28-33 | whatever the marker grammar accepts is the rendering of what it reads |
| MarkerText.ParseInvertsRender | scripts/check_workflow_guards.py:1659-1764 | parsing any printed legal marker with a token-free payload gives its record back with the payload normalized |
| MarkerText.ParsedIsRendered | scripts/check_workflow_guards.py:1664-1764 | only renderings of legal records parse to a record |
| MarkerText.FieldOrderIsFree | scripts/check_workflow_guards.py:1672-1680 | printing the fields in another order denotes the same record |
| MarkerText.ReceiptInvertsRender | scripts/check_workflow_guards.py:1776-1806 | a printed human receipt is read back and is no marker to resolve |
| TextMeaning.MarkerMeansText | scripts/check_workflow_guards.py:1664-1764 | a comment yields a record if and only if it holds one token and its text prints the fields its kind demands, each with the value the record has, PASS, FAIL and PENDING being the statuses |
| TextMeaning.ReceiptMeansText | scripts/check_workflow_guards.py:1776-1806 | a comment is a receipt if and only if its text prints block, commit, digest and APPROVE or REJECT, which is the decision read |
| TextMeaning.PrintedReceipt | scripts/check_workflow_guards.py:1798-1806 | a printed receipt is read as Approve on APPROVE, as Reject on REJECT, and fails on any other decision |
| Markers.MutationPlan | scripts/check_workflow_guards.py:1916-1936 | the plan lists, role by role, the duplicates to supersede and the stale marker to retarget or archive |
| Markers.ParseAllMarkers | scripts/check_workflow_guards.py:1835-1841 | all markers of a thread in order, or a failure if any comment fails |
| Markers.ResolutionMeans | scripts/check_workflow_guards.py:1844-1913 | a role resolves exactly if its records agree in kind, block, commit, status, reviewer and payload on one side of the head, or one PENDING build is behind in the build phase; the result is the lowest id and the ids of its copies |
| Markers.DifferingRecordsFail | scripts/check_workflow_guards.py:1863-1876 | two records of a role that differ in one of the six fields are never resolved |
| Reconciliation.SupersededParses | docs/development_protocol.md:372-375 | a superseded duplicate still parses, keeps block, head, status and payload, and has no active role |
| Reconciliation.ArchivedParses | docs/development_protocol.md:385-405 | an archived audit marker still parses, keeps its evidence and has no active role |
| Reconciliation.RetargetedParses | docs/development_protocol.md:205-214 | a retargeted build marker parses as the PENDING build marker of the current head |
| Reconciliation.DocumentedEditParses | docs/development_protocol.md:372-375 | the edit as documented is read back if and only if the duplicate is a v1 marker |
| Convergence.SupersededIsSilent | scripts/check_workflow_guards.py:1753-1756 | a superseded record is never among the active records of a role |
| Convergence.PlanConverges | scripts/check_workflow_guards.py:1844-1936 | one application of the plan leaves both roles resolved with an empty plan and the same current markers |
| Manifest.ParseManifest | scripts/check_workflow_guards.py:529-586 | passes exactly the one manifest the JSON blocks declare, and fails when they declare none |
| Manifest.ManifestIsUnique | scripts/check_workflow_guards.py:539-541 | at most one manifest is declared by a body |
| Manifest.FormIsCanonical | scripts/check_workflow_guards.py:574-586 | member order and letter case of the route effect do not change the manifest |
| ManifestMeaning.ManifestMeans | scripts/check_workflow_guards.py:529-586 | the declared manifest is what the members of the one JSON document of its schema say, name by name |
| ManifestMeaning.RequirementsMean | scripts/check_workflow_guards.py:1412-1476 | the requirements of a manifest are met exactly as their texts say, kind by kind |
| Evidence.CoverageIsBijection | scripts/check_workflow_guards.py:1387-1408 | the checks over entries and items hold exactly if entries and items are in one-to-one correspondence |
| Evidence.MarkerEvidence | scripts/check_workflow_guards.py:1373-1409 | accepts exactly v2 markers of the manifest digest whose payload document pairs its elements with the items, each saying PASS and referring to something for each requirement |
| Evidence.EvidenceMeansJson | scripts/check_workflow_guards.py:1381-1408 | reading the payload accepts exactly the documents in which every element says PASS for an item of its own |
| Scope.PlaceMeansPart | scripts/check_workflow_guards.py:748-773 | the running state over headings says exactly under which declaration a line stands |
| Scope.ParseScope | scripts/check_workflow_guards.py:748-809 | succeeds exactly on well-formed declarations and yields the tables their headings mean |
| ScopeMeaning.ScopeIsExact | scripts/check_workflow_guards.py:1274-1348 | the changes are accepted exactly if the declarations are well formed and each change avoids denied globs and immutable paths, fits its declaration and its writer, with all digests observed |
| WorkBlock.ParseWorkBlock | scripts/check_workflow_guards.py:812-910 | fails on a repeated field, else reads the typed block off the fields |
| BlockMeaning.BlockMeans | scripts/check_workflow_guards.py:835-910 | a body reads as a Work Block exactly if its fields say so, word by word, with one authorization for AUTO and none for HUMAN |
| WorkBlock.AuthorityIsSingle | scripts/check_workflow_guards.py:1102-1263 | AUTO yields exactly one of the two evidences or fails, exactly as its grants bind; the closing failure is unreachable |
| BlockMeaning.AuthorityMeans | scripts/check_workflow_guards.py:1102-1263 | the authority and its evidence, exactly: the first grant of the named id, which covers the block and outside BUILD stands unchanged in live main |
| ScopeCheck.ValidateScope | scripts/check_workflow_guards.py:1274-1365 | accepts exactly the changes that avoid denied paths, fit their declaration, match digests and suit the writer |
| ScopeCheck.ConsumeChanges | scripts/check_workflow_guards.py:1317-1334 | consumes the declared changed paths in order, failing exactly if one does not fit |
| ScopeCheck.StrictScopeConsumesAll | scripts/check_workflow_guards.py:1317-1334 | under R3 the consumed allowlist is the duplicate-free list of changed paths, in order |
| Snapshot.ValidateChecks | scripts/check_workflow_guards.py:1966-1975 | the required gate is present and every run of it completed with success |
| Snapshot.ValidateRequirements | scripts/check_workflow_guards.py:1412-1476 | accepts exactly markers that evidence the manifest with every requirement met and the route transition named |
| Guard.Describe | scripts/check_workflow_guards.py:1939-1963 | the target block and its manifest, or a failure exactly if the snapshot describes none |
| Guard.Admit | scripts/check_workflow_guards.py:2086-2098 | a live snapshot is admitted exactly with scope evidence, an authority, an accepted scope and a matching authority snapshot |
| Guard.Evaluate | scripts/check_workflow_guards.py:2067-2274 | returns in each phase the decision whose conditions hold, and a failure exactly when those of no other decision do |
| Guard.OneDecision | scripts/check_workflow_guards.py:2067-2274 | the conditions of two different decisions never hold together |
| GuardMeaning.PhasesAreMonotone | scripts/check_workflow_guards.py:2119-2247 | a final decision implies that audit passes on the same snapshot, and that implies that build is ready |
| GuardMeaning.JsonIsNeverAuthoritative | scripts/check_workflow_guards.py:2099-2102 | a snapshot read from JSON gives no authoritative decision in any phase |
| GuardMeaning.FinalizeExactly | scripts/check_workflow_guards.py:2170-2247 | finalize gives a final decision if and only if the whole conjunction of its conditions holds |
| DecisionMeaning.FinalExactly | scripts/check_workflow_guards.py:2176-2247 | the same on what the texts, documents and reports say: finalize gives a final decision exactly if all of it stands, and the one the policy and the receipt name |
| DecisionMeaning.AuditExactly | scripts/check_workflow_guards.py:2158-2175 | audit passes exactly if a PASS build at the head is evidenced, checks and smoke are green, and the audit does not repeat its evidence |
| DecisionMeaning.ReadyExactly | scripts/check_workflow_guards.py:2119-2157 | BUILD is ready exactly on an evidenced PASS build at the head with green checks and smoke |
| DecisionMeaning.ContinueExactly | scripts/check_workflow_guards.py:2099-2140 | BUILD goes on exactly before there is a pull request or a PASS build, or where only the smoke is missing |
| PrintedDecisions.PrintedReceiptDecides | scripts/check_workflow_guards.py:2206-2236 | with all else in place a printed APPROVE authorizes, a printed REJECT rejects, and any other decision or an id not after the audit's fails |
| GuardMeaning.SoleIsAlone | scripts/check_workflow_guards.py:1844-1913 | where comment ids are distinct, the marker finalize relies on is the only active one of its role |
| ReviewProtocol.FinalDecisionIsCurrent | scripts/check_workflow_guards.py:1809-1832 | in every reachable thread a final decision rests on markers written for the head since its push, a human one also on a receipt, and every receipt has an id that follows those of the audit comments and was created after those of its own kind |
| ReviewProtocol.PushDisablesFinalize | scripts/check_workflow_guards.py:1871-1899 | right after a push to a new head no final decision is possible |
| ReviewProtocol.ApprovalPostdatesAudit | scripts/check_workflow_guards.py:1830-1831 | in every run with a human decision, the audit text is no newer than the approval if and only if the audit comment was created first and no event since edits it; within one kind, if and only if no event since edits it |
| ReviewProtocol.ApprovalIgnoresAuditText | scripts/check_workflow_guards.py:1830-1831 | rewriting an audit comment in place leaves the receipt resolution unchanged |
| AuthorizedRuns.StaleApprovalIsAccepted | scripts/check_workflow_guards.py:1830-1831 | a legal run in which a failing audit is approved, rewritten to PASS, and finalize authorizes the merge |
| AuthorizedRuns.ApprovalMayPrecedeAudit | scripts/check_workflow_guards.py:2668-2704 | a legal run over two kinds of comments in which finalize authorizes with an approval created before the audit comment |
| AuthorizedRuns.RejectionIsFollowed | scripts/check_workflow_guards.py:2222-2232 | a legal run in which what passed is rejected: finalize rejects and does not authorize |
| Paging.Connection | scripts/check_workflow_guards.py:2451-2492 | on every finite server the loop ends: with the nodes of the one trail without repetition that reaches a last page, if there is one, and with a failure exactly if a cursor is repeated or blank |
| Paging.PagingIsTransparent | scripts/check_workflow_guards.py:2451-2492 | however a list is cut into pages, paging returns the list |
| Paging.RequestsChanges | scripts/check_workflow_guards.py:2495-2512 | the verdict is that some reviewer's latest review requests changes; a latest PENDING review or an unknown state fails |
| Paging.VerdictIgnoresOrder | scripts/check_workflow_guards.py:2506-2512 | with distinct keys per reviewer the verdict does not depend on review order |
| CutWindow.WindowFile.Advance | src/investment_analyst/workspace/workspace_v2_cutover.py:193-269 | an advance succeeds exactly if the expected window is still there and the transition is admitted; else nothing changes |
| GlobalCut.ControllerStartsTheRightRoot | scripts/close_data_chassis.py:2681-2947 | whenever the controller starts the service, it starts v2 if an activation was recorded, and v1 only if none was and v2 is bound nowhere |
| GlobalCut.ReturnOnlyBeforeActivation | scripts/close_data_chassis.py:2895-2931 | the steps that return to v1 are reached only with no activation recorded and v2 not bound |
| GlobalCut.V2OnlyAfterRecord | scripts/close_data_chassis.py:2713-2734 | v2 serves, is bound, deployed or targeted only after its activation was recorded |
| GlobalCut.RecordMeansActivating | scripts/close_data_chassis.py:2727-2732 | wherever an activation counts as recorded, the window file did say ACTIVATING earlier in the run |
| GlobalCut.CompletionServesOneRoot | scripts/close_data_chassis.py:2461-2501 | a completed cut or recovery leaves one root bound and served: v1 before the record, v2 after it |
| GlobalCut.RecoveryIsStable | scripts/close_data_chassis.py:2864-2947 | recovering again, whatever happens in between, never changes the root that is served |
| GlobalCut.InvalidatedStaysOnV1 | scripts/close_data_chassis.py:2750-2820 | owner loss is recorded only where v2 was never activated, and never is afterwards |
| GlobalCut.ReturnRecordsLoss | scripts/close_data_chassis.py:2750-2764 | a completed return to v1 has recorded owner loss exactly if a successor was reserved |
| GlobalCut.WindowNamesArtifacts | scripts/close_data_chassis.py:2699-2733 | in every run the window names the intent exactly once an activation is recorded, the recovery from its verification on, and the binding only where v2 is bound |
| GlobalCut.QuietRunServes | scripts/close_data_chassis.py:2461-2501 | without a death or a reboot every completion leaves its root in service |
| GlobalCut.HealthIsChecked | scripts/close_data_chassis.py:2911-2947 | no step goes on over a failed health check, a failed activation stops the service, and owner loss is recorded only while v1 answers |
| CutRecovery.RecoveryExactly | scripts/close_data_chassis.py:2864-2947 | from a crash state some undisturbed recovery completes if and only if a condition on window, receipt, clock and service holds |
| CutRecovery.LateCrashStrandsV1 | scripts/close_data_chassis.py:2913-2923 | a crash after the stop, recovered past the deadline on the same boot, leaves v1 stopped and no recovery completes; after any reboot one does |
| CutRecovery.CutCompletes | scripts/close_data_chassis.py:2679-2734 | every cut that takes its steps while the time that passes leaves its reserve untouched ends with v2 served and a HEALTHY_V2 receipt |
| CutMonitor.Supervisor.RecordCapacity | scripts/close_data_chassis.py:244-285 | a capacity below the requirement latches the floor and drops the success, any other becomes the latest success |
| CutMonitor.LatchIsExact | scripts/close_data_chassis.py:244-285 | the floor is latched by a capacity below the requirement or a reported floor, by nothing else, and never cleared |
| CutMonitor.LowMeasurementStops | scripts/close_data_chassis.py:270-279 | after one capacity below the requirement no later observation lets the cut on, whatever is measured next, and each stops it |
| CutMonitor.WholeTickMeans | scripts/close_data_chassis.py:394-415 | what one tick leaves: a continue on a fresh reading, else the first reason, the first stop time and a signal five seconds after it |
| CutMonitor.RaiseMeans | scripts/close_data_chassis.py:416-419 | a tick that raises sends the signal and ends the watcher, keeping the reason it had come to |
| CutMonitor.Supervisor.Watch | scripts/close_data_chassis.py:394-420 | one tick keeps the first reason and the first stop time, and signals five seconds after it |
| CutMonitor.ContinuesAreFresh | scripts/close_data_chassis.py:349-362 | every observation that let the cut go on had the required capacity, recorded at most 15 s before its tick |
| CutMonitor.LatchStopsContinues | scripts/close_data_chassis.py:353-360 | once the floor is latched some run lets the cut on again if and only if the observation under way has a fresh reading with capacity, and never twice |
| CutMonitor.LatchMayBeLate | scripts/close_data_chassis.py:353-360 | a run from the start that reaches that condition |
| CutMonitor.FirstReasonStays | scripts/close_data_chassis.py:394-420 | the first stop reason and time are never overwritten, also where a tick raises while it handles a stop |
| CutMonitor.NoStepAfterReason | scripts/close_data_chassis.py:2504-2520 | after the first reason no step is granted, and some run begins one more if and only if one was granted before, and never two |
| CutMonitor.StepMayBeLate | scripts/close_data_chassis.py:2504-2520 | a run from the start that reaches that condition |
| CutMonitor.LatchEndsInSignal | scripts/close_data_chassis.py:394-415 | in every interleaving after the latch, a tick that ends stops the cut and keeps the first stop, and one that ends five seconds after it signals |
| CacheReclaimer.Cache.Poll | scripts/close_data_chassis.py:653-688 | one poll under the lock: timeout, measurement and at most one request inside the band |
| CacheReclaimer.Cache.RecordReclaim | scripts/close_data_chassis.py:638-651 | one finished reclaim is counted, its error latched and the history trimmed |
| CacheReclaimer.PollMeans | scripts/close_data_chassis.py:653-674 | a poll requests exactly alone, open, without error and inside the band, and latches a timeout or a missing measurement |
| CacheReclaimer.RecordMeans | scripts/close_data_chassis.py:608-651 | a finished reclaim counts, keeps the first error, and is the last of at most sixteen attempts |
| CacheReclaimer.AtMostOneOutstanding | scripts/close_data_chassis.py:573-688 | in every interleaving at most one reclaim is outstanding, requests are in the band, the history holds 16 at most |
| CacheReclaimer.ErrorEndsRequests | scripts/close_data_chassis.py:657-659 | once an error is latched it stays and no request follows |
| CacheReclaimer.CloseExactly | scripts/close_data_chassis.py:601-606 | after a close another request is possible if and only if a poll is past its check, and never two |
| CacheReclaimer.CloseMayBeLate | scripts/close_data_chassis.py:601-606 | a run from the start that closes while a poll is past its check |
| CacheReclaimer.LostWorkerIsReplaced | scripts/close_data_chassis.py:608-636 | a reclaim thread that dies without recording lets requests run ahead of completions |
| AncestorWalk.ReachesBaseline | scripts/close_data_chassis.py:2252-2265 | the walk ends on every store and accepts exactly if the baseline is an ancestor along this generation without repeated digests |
| AncestorWalk.DigestsNeverReject | scripts/close_data_chassis.py:2255-2257 | where a digest names one certificate the repetition check rejects no lineage |
| Intervals.GapsBetween | scripts/cycle_probe.py:271-293 | the sweep between jobs returns exactly what they leave free, in order and without overlap |
| Intervals.Unoccupied | scripts/cycle_probe.py:1296-1325 | the sweep of a period by a cursor returns exactly what the jobs leave free in it |
| Intervals.SweepsAgree | scripts/cycle_probe.py:271-293 | over the same jobs, however ties are ordered, both sweeps return the same gaps |
| Intervals.GapsAreUnique | scripts/cycle_probe.py:1296-1325 | separate gaps are determined by the time they contain |
| Intervals.WallTime | scripts/cycle_probe.py:187-195 | wall time is gaps plus busy time, at most durations plus gaps, and equal to that exactly without overlap |
| Intervals.SweptExactly | scripts/cycle_probe.py:271-277 | a job is swept exactly if a terminal attempt has both its times in order |
| Intervals.CycleWallExactly | scripts/cycle_probe.py:187-195 | the reported wall time is gaps plus busy time if and only if no attempt outside the sweep reaches beyond it, and larger otherwise |
| Intervals.RunningJobAddsWall | scripts/cycle_probe.py:187-195 | an attempt still running makes the reported wall time exceed gaps and work |
| Journal.JournalRecords | scripts/cycle_probe.py:86-121 | the replay is sorted and keeps the last record of every attempt and every record without one |
| Journal.ReplayIsUnique | scripts/cycle_probe.py:108-121 | a journal has exactly one replay |
| Journal.ReplayHasLatest | scripts/cycle_probe.py:97-107 | each attempt occurs at most once in a replay, as its last record |
| Journal.CompactionIsTransparent | scripts/cycle_probe.py:89-121 | replacing any prefix by a snapshot of its replay leaves the replay unchanged |
| Sampling.Cadence | scripts/cycle_probe.py:1255-1266 | the cadence is positive whatever the samples declare |
| Sampling.CadenceExactly | scripts/cycle_probe.py:1255-1266 | the cadence is the median of the positive declared intervals, read off their one ascending list, or five seconds |
| Sampling.MedianBounds | scripts/cycle_probe.py:1263-1264 | the median lies between two declared values |
| Sampling.CompleteExactly | scripts/cycle_probe.py:1416-1441 | coverage is complete exactly with a sample near both ends and one in every closed stretch of three cadences |
| Sampling.Classify | scripts/cycle_probe.py:1409-1441 | classifies a window as empty, partial or complete in that sense |
| Sampling.DeltaExactly | scripts/cycle_probe.py:1268-1293 | a delta is reported exactly for one complete identity, is the sum of increments, and is not negative for a counter |
| Sampling.OutcomeExactly | scripts/cycle_probe.py:1268-1293 | which outcome a delta has: the first that applies of the reasons in the order of the checks |
| WaitCycle.WaitForCycle | scripts/cycle_probe.py:701-794 | at most ceil(timeout / poll) + 1 reads, none given up before the timeout is used up, completion exactly if the last read shows the day over, a log of the last 40 |

## Left out

- Reason texts of guard failures and the reports built from decisions: a failure is a failure; which one is not modelled.
- Regular expressions over the issue body: Work Block fields arrive alias-resolved and cleaned, declaration lines arrive classified by their form, rows of the route document arrive as pairs.
- JSON text: documents arrive decoded; an object keeps its members in text order and the last of a name counts.
- The goal review: only its outcome (absent, invalid, or the commit it names) enters the decision.
- The JSON form of the finalization policy: grants arrive typed, as the repository's policy parser yields them.
- SHA-256 and base64: the manifest digest, payload decoding and file digests are functions given from outside.
- Letters beyond ASCII: upper-casing and digit tests are the ASCII ones.
- Manifest.FormIsCanonical: does not model white space between JSON tokens, which decoding removes.
- Convergence.PlanConverges: assumes distinct comment ids, as comments of one kind have; issue and review comments are numbered separately.
- Reconciliation.SupersededParses: keeps the raw payload, as the document asks, and lists the fields the parser admits; see the first point above.
- WorkBlock.ParseWorkBlock: does not read the body's text; the scan for fields, the resolution of aliases and the cleaning of values are inputs.
- ReviewProtocol.FinalDecisionIsCurrent: assumes a pushed commit is one that no comment named before; bodies of reviews that are missing are not listed by the snapshot and not modelled.
- AuthorizedRuns: the digest of the manifest and the decoding of marker payloads are given functions, as everywhere in the guard; the head and the digest are texts of zeros.
- Guard.Evaluate: the report's classification, owner and next action are not modelled; an unknown phase is not a value of the model's type.
- An unknown source: like the code, the model lets a snapshot that is neither live nor JSON skip scope and authority in `build` and `audit`; finalize refuses it.
- GlobalCut: content of catch-up, delta and recovery artifacts, resource admission, tampering with files and HTTP bodies are reduced to steps that may fail; the service changes only by the controller, by dying, or with a reboot; the cut is kept as a value so that crashes can be steps.
- GlobalCut.CompletionServesOneRoot: a service that dies by itself after its health check is visible as such, not repaired.
- CutRecovery.RecoveryExactly: speaks of what stays possible without a reboot and without the service dying.
- CutMonitor: the flag `recovering`, which no code sets, is dropped; heartbeat, resource budgets and the window's reserve enter an observation as one optional reason.
- CacheReclaimer: ownership checks of the control group enter a reclaim as its outcome; clock readings are microseconds.
- AncestorWalk.ReachesBaseline: the checks of the baseline's phase and of the successor after the walk are not modelled.
- Intervals: rounding and the sample counts of gaps are dropped; instants are whole microseconds.
- Journal: the job id and start of a record are texts in its sort key; malformed entries and date filters are dropped.
- Sampling.Cadence: seconds are reals; the reported rounding is dropped.
- WaitCycle.WaitForCycle: the target day is a given interval; exceptions of a read are reads without an overview.
- Live acquisition with gh and git, the command-line surface, rendering, benchmarks, migration and backup scripts.
