# Dipole: proofs about its state machines, evidence, encodings and policy

Dipole is a messaging platform with governed Agent workflows. This project models the parts of it that carry
state, arithmetic or canonical text, and proves what they promise. One module stands for one component; the source
file each follows is named at its top. `dafny verify dfyconfig.toml` checks all of it.

* **Client state machines.** `MessageSearch` is the debounced search box: one timer, a version counter, any number of
  requests that settle in any order. `TaskWaiting` is the banner of waiting Agent tasks: pushed locators and fetched
  inbox pages merged under a revision watermark per task. Both are classes that follow the composables' closures; each
  method is tied to a step function, and the theorems are about all runs of those steps. `SearchRequests` adds which
  text is asked for and which requests can still reach the screen, `BannerOrder` the rows of a page and the order of
  notices.
* **Evidence calculators.** `ConversationMetrics` diffs Prometheus snapshots node by node and scans the summed histogram
  for a p95 bound; `HistogramMeaning` says what that bound means for the raw observations, `HistogramExport` that
  nodes which export their logs of all three projections are always reported, and `SnapshotChaining` that consecutive
  measurements add up; `DriftingSeries` shows what the reset tolerance lets through, and `WrittenDeltas` says of every
  number in the written report which change of which series it is. `Percentile`
  is the nearest-rank percentile of the k6 report. `DeliveryComparison` and `DeliveryReport` group retry attempts by
  Kafka coordinate and decide whether a cutover is eligible; `DeliveryRecords` and `DeliveryVerdict` say the same of the
  raw records. `ConversationBaseline`, `ProcessResources` and `RuntimeProvenance` set a producer against the baseline
  report that checks the producer's output again; `ResourceFigures` and `ImageChecks` write out what they accept and
  say.
* **Canonical encodings.** `PayloadEncoding`, `ScopeEncoding`, `IsoTime` and `ReadinessEvidence` are printers whose text
  is hashed. SHA-256 is outside the model, so what is proved is about the text: injectivity, round trips, and how far
  they go. `PayloadLayout`, `IdentityLines`, `CalendarText` and `ReadinessRules` say what stands where in it, and
  `CalendarSteps` that its calendar is the Gregorian one.
* **Agent policy.** `CapabilityPolicy` relates the approved projection to the resource authorizer, `RepairGuard` treats
  the repair precondition as a compare-and-swap over whole runs, `CredentialFields` is the recursive check of tool
  arguments, and `MemoryLineage` the version chain of corrected memories. `AuthorizationRefusals`, `RepairGrants` and
  `LineageRules` say what each refuses, and `MemoryCorrections` follows one correction from the client to the store and
  back.

`Wrappers`, `Sorting`, `Text` and `Rounding` hold what they share: results, sorted permutations, trimming, joining,
decimals, rounding to even.

Properties one might expect that the code does not have, each with the exact condition under which it holds and an
input on which it fails:

* A *replacing* inbox page can roll the banner back below its watermark (`TaskWaiting.LateReplaceRollsBack`). It leaves
  the banner in step exactly when none of its rows is older than a revision already seen and no task comes at two
  revisions (`TaskWaiting.ReplaceInSyncExactly`).
* Two reports over consecutive spans can succeed and the one over the whole span fail, because falls within the reset
  tolerance add up (`DriftingSeries.ToleratedFallsAddUp`). It succeeds exactly when no series fell by more than the
  tolerance in all (`SnapshotChaining.ReportsChain`).
* A scope's canonical string can also be read as that of a scope with one action holding newlines
  (`ScopeEncoding.FoldedCollides`). A scope is alone with its string exactly when it has one action and the string can
  be read in no other way (`ScopeEncoding.AloneExactly`); for newline-free scopes that is to have one action
  (`ScopeEncoding.UniqueAmongAllScopesExactly`).
* Runs whose ids hold newlines can share an identity string (`ScopeEncoding.RunsCollide`). A run is alone with its
  string exactly when its two ids, joined, can be cut at no other newline into two trimmed ids
  (`ScopeEncoding.RunIsAloneExactly`).
* Two direct conversations can share a key when ids hold colons (`ScopeEncoding.ColonsCollide`), though a colon alone
  does not make them (`ScopeEncoding.ColonsNeedNotCollide`). A key is one pair's exactly when the ordered ids, joined,
  can be cut at no other colon into two trimmed ids in order (`ScopeEncoding.DirectKeyIdentifiesThePair`).
* The resource authorizer can grant what is not projected (`CapabilityPolicy.ReaderIsGrantedAWrite`). The two agree about
  a registered capability exactly when it is on the allowlist, or the Definition lacks its permission, or the Definition
  allows no conversation writes (`CapabilityPolicy.ProjectionAgreesExactly`).
* An applied execution can be applied again later (`RepairGuard.AnExecutionAppliedTwice`), exactly when the last repair
  applied in between put back the digest it expects and the new attempt is itself in order: its clock, its grant and its
  target (`RepairGuard.ReplayedExactly`).
* A readiness record the constructor builds can fail its own validation
  (`ReadinessEvidence.TheYear10000DoesNotValidate`). It passes exactly when the evidence's instants print with four-digit
  years (`ReadinessEvidence.BuiltRecordsValidate`), and validation does not look at white space around the operator
  (`ReadinessEvidence.ValidRecordsAreBuilt`).
* Two accepted readiness requests can share a UUID when an identifier holds a newline
  (`ReadinessEvidence.InnerNewlinesCollide`). Records share an identity string exactly when tenant and expiry agree and
  the lines between them, joined, do (`ReadinessEvidence.IdentitiesEqualExactly`); one without newlines is never shared
  (`ReadinessEvidence.IdentityIsInjective`).
* A process summary can be refused by the baseline report (`ProcessResources.SummarisedButRefused`). It is accepted exactly
  when every process has a name and a positive pid and the run lasted more than 500 ns
  (`ProcessResources.SummaryAcceptedExactly`).
* A conversation difference can be written and then refused by the baseline report, from 501 nodes on
  (`ConversationBaseline.DriftIsRefusedFrom501`). It is accepted exactly when no summed time and no p95 bound rounds below
  zero (`ConversationBaseline.WrittenAcceptedExactly`), and always for up to 500 nodes with no negative bucket bound
  (`ConversationBaseline.FewNodesAreAccepted`).
* A memory correction can be stored and then reported to its author as failed
  (`MemoryCorrections.MadeButReportedAsFailed`). The client accepts the answer exactly when it asked for some compact
  content, which the gateway leaves out when empty, and no text it sent begins or ends in U+0085, which Go trims and
  ECMAScript does not (`MemoryCorrections.AnswerAcceptedExactly`).

Canonicalising a memory's lineage keeps whatever validation accepts (`MemoryLineage.AcceptedLineageStaysAccepted`). It
relies on the id that validation asks for: a lineage alone stays valid exactly when the memory was versioned already or
has such an id (`MemoryLineage.CanonicalLineageKeepsValidity`).

## Model

| member | source | states |
|---|---|---|
| MessageSearch.SearchBox.constructor | frontend/src/composables/useMessageSearch.ts:7-13 | a new search box is idle, empty and has nothing pending |
| MessageSearch.SearchBox.ClearTimer | frontend/src/composables/useMessageSearch.ts:15-20 | no timer is armed afterwards and nothing else changes |
| MessageSearch.SearchBox.Reset | frontend/src/composables/useMessageSearch.ts:22-27 | the whole new state: version raised, results and error cleared, idle |
| MessageSearch.SearchBox.RunSearch | frontend/src/composables/useMessageSearch.ts:29-41 | the whole new state of a run up to its await: reset on a blank query, else loading under a fresh version with one more request in flight |
| MessageSearch.SearchBox.SettleRequest | frontend/src/composables/useMessageSearch.ts:42-50 | a settlement writes its outcome only if its version is still current |
| MessageSearch.SearchBox.SetQuery | frontend/src/composables/useMessageSearch.ts:55-66 | assigning the query runs the watcher only on a real change and only while the scope lives |
| MessageSearch.SearchBox.QueryChanged | frontend/src/composables/useMessageSearch.ts:55-66 | the watcher's whole effect: every earlier request is made stale, and a timer armed unless the query is blank |
| MessageSearch.SearchBox.ScopeDisposed | frontend/src/composables/useMessageSearch.ts:68-71 | disposal clears the timer and makes every pending request stale |
| MessageSearch.StepKeepsInvariant | frontend/src/composables/useMessageSearch.ts:22-71 | every step, in any order, keeps status, timer, in-flight requests, error text and results consistent with the current query |
| MessageSearch.RunsStayConsistent | frontend/src/composables/useMessageSearch.ts:22-71 | so does every finite run of edits, timer firings, manual runs, settlements and disposal |
| MessageSearch.EveryRunIsConsistent | frontend/src/composables/useMessageSearch.ts:22-66 | from the initial state: idle exactly on a blank query, loading exactly while either the timer or the one request with the current version is pending, never both, and whatever results or outcome are shown were brought by a settlement of the run, of a then current request for the current query |
| MessageSearch.StaleSettlementIsInvisible | frontend/src/composables/useMessageSearch.ts:42-46 | a settlement with an overtaken version changes nothing visible |
| MessageSearch.AutonomousMeasure | frontend/src/composables/useMessageSearch.ts:29-66 | each timer firing or settlement strictly lowers 2*[timer armed] + the number of requests in flight |
| MessageSearch.EveryOrderEndsAlike | frontend/src/composables/useMessageSearch.ts:29-66 | without input every order of firings and settlements is that short and ends with the same screen, the answer to the one request for the current query |
| MessageSearch.NotQuietMeansProgress | frontend/src/composables/useMessageSearch.ts:29-66 | while something is pending a timer or settlement step is possible, so quiescence is reached |
| MessageSearch.QuietBoxShowsTheAnswer | frontend/src/composables/useMessageSearch.ts:22-66 | a quiet box is idle and empty on a blank query, else shows exactly the outcome of the current request for the normalized query |
| MessageSearch.DisposedBoxIsSilent | frontend/src/composables/useMessageSearch.ts:68-71 | after disposal no edit, pending timer or settlement changes results, status or error |
| SearchRequests.TextAskedFor | frontend/src/composables/useMessageSearch.ts:29-38 | what is asked for is what white space leaves of the query on both sides, cut to 256 characters |
| SearchRequests.PaddingIsNotAskedFor | frontend/src/composables/useMessageSearch.ts:29-38 | padding a query with white space does not change what is asked for |
| SearchRequests.AskingKeepsTheScreen | frontend/src/composables/useMessageSearch.ts:29-41 | sending a request leaves the results shown, adds one request under a fresh version for the text of the query, and keeps every other |
| SearchRequests.AnswerOnTheScreen | frontend/src/composables/useMessageSearch.ts:42-50 | what the current answer puts on the screen: its messages, or that there are none, or the failure and its text |
| SearchRequests.OvertakenForever | frontend/src/composables/useMessageSearch.ts:29-71 | after another run, a changed query or disposal, no request that was in flight can change the screen however the run goes on |
| SearchRequests.AnswerShownExactly | frontend/src/composables/useMessageSearch.ts:29-71 | the answer to the current request reaches the screen exactly when no new request, changed query or disposal came before it settled |
| TaskWaiting.TaskBanner.constructor | frontend/src/composables/useAgentTaskWaiting.ts:22-25 | a new banner shows nothing and has seen nothing |
| TaskWaiting.TaskBanner.AcceptLocator | frontend/src/composables/useAgentTaskWaiting.ts:27-41 | a pushed locator is accepted exactly when the banner is enabled, it parses and its revision is above the task's watermark, and then starts a merge refresh |
| TaskWaiting.TaskBanner.RefreshFromInbox | frontend/src/composables/useAgentTaskWaiting.ts:43-64 | the whole effect of an inbox page in either mode, of a failed list call, and of a disabled banner |
| TaskWaiting.TaskBanner.RaiseSeen | frontend/src/composables/useAgentTaskWaiting.ts:47-51 | the loop over a replacing page raises the watermarks and nothing else |
| TaskWaiting.TaskBanner.MergeWaiting | frontend/src/composables/useAgentTaskWaiting.ts:55-60 | the loop over a merged page accepts its rows one after the other, like pushes |
| TaskWaiting.TaskBanner.PutNotice | frontend/src/composables/useAgentTaskWaiting.ts:66-73 | replaces the first notice of the task in place or appends one |
| TaskWaiting.WaitingFromInbox | frontend/src/composables/useAgentTaskWaiting.ts:78-88 | keeps, in order, the rows with a pending kind and a revision of at least one |
| TaskWaiting.AcceptKeeps | frontend/src/composables/useAgentTaskWaiting.ts:35-40 | one delivery keeps the watermark map at the per-task maximum delivered and the notices one per task at that revision |
| TaskWaiting.MergeRunKeeps | frontend/src/composables/useAgentTaskWaiting.ts:27-73 | so does every run of pushes and merged pages |
| TaskWaiting.MergeRunShowsTheMaximum | frontend/src/composables/useAgentTaskWaiting.ts:27-73 | after any such run from the start, every delivered task is shown once, at the largest revision delivered, with a locator that was delivered |
| TaskWaiting.MergeRunsConverge | frontend/src/composables/useAgentTaskWaiting.ts:27-73 | two such runs that delivered the same set of locators, in any interleaving and multiplicity, end with the same watermarks and shown revisions, and the same locators if task and revision fix the kind |
| TaskWaiting.RaiseMarksIsMaximum | frontend/src/composables/useAgentTaskWaiting.ts:47-51 | a replacing page raises each watermark to the larger of the old one and what the page carries |
| TaskWaiting.WatermarksNeverFall | frontend/src/composables/useAgentTaskWaiting.ts:35-59 | in every run, replacements included, no watermark falls and no notice is above its watermark |
| TaskWaiting.AcceptedRevisionsIncrease | frontend/src/composables/useAgentTaskWaiting.ts:35-40 | in every run the revisions accepted for one task strictly increase |
| TaskWaiting.ReplaceInSyncExactly | frontend/src/composables/useAgentTaskWaiting.ts:47-53 | after a replacing page all notices are at their watermarks exactly when the page has no row older than seen and no task at two revisions |
| TaskWaiting.LateReplaceRollsBack | frontend/src/composables/useAgentTaskWaiting.ts:35-53 | a concrete run in which a late replacing page shows an older revision that the pushed one can no longer correct |
| BannerOrder.WaitingRows | frontend/src/composables/useAgentTaskWaiting.ts:78-88 | a page's locators are those of its waiting rows, one each, in the order of the page |
| BannerOrder.ReplaceShowsThePage | frontend/src/composables/useAgentTaskWaiting.ts:46-53 | a replacing page is shown as its waiting rows in order, whatever was shown before |
| BannerOrder.NothingArrives | frontend/src/composables/useAgentTaskWaiting.ts:29-34 | any number of unreadable pushes and failed list calls changes nothing |
| BannerOrder.UpsertKeepsPlaces | frontend/src/composables/useAgentTaskWaiting.ts:66-73 | a notice keeps its place when its task is heard of again, and a new task goes to the end |
| BannerOrder.MergeRunShowsInOrder | frontend/src/composables/useAgentTaskWaiting.ts:27-73 | after pushes and merged pages the notices stand in the order their tasks were first delivered, and of equal revisions the first one delivered is shown |
| Percentile.PercentileIsNearestRank | scripts/bench/gen_report.py:35-40 | for 0 < p <= 100 the percentile is the least listed value with at least ceil(p*n/100) values at or below it, and no other value is |
| Percentile.PercentileIgnoresOrder | scripts/bench/gen_report.py:38-40 | it depends only on the multiset of values |
| Percentile.PercentileFailsExactly | scripts/bench/gen_report.py:39-40 | for any p it runs off the list exactly when the rank exceeds the number of values |
| Percentile.PercentileMonotone | scripts/bench/gen_report.py:35-53 | a higher percentile of the same values is never smaller, and both are listed values |
| Percentile.SortedIsLeastCovering | scripts/bench/gen_report.py:38-40 | the i-th sorted value is the least one covering i + 1 values |
| Percentile.AverageBetween | scripts/bench/gen_report.py:47 | the average lies between minimum and maximum |
| Percentile.SummaryIsOrdered | scripts/bench/gen_report.py:42-53 | min <= p50 <= p95 <= p99 <= max and min <= avg <= max before rounding |
| Percentile.RoundedSummaryIsOrdered | scripts/bench/gen_report.py:42-53 | the same of the rounded summary, and of the empty one |
| Percentile.RankIsCeiling | scripts/bench/gen_report.py:38-40 | the rank of a whole percentage is the least k with 100 k >= percent * n |
| Percentile.SummaryQuantiles | scripts/bench/gen_report.py:42-53 | p50, p95 and p99 are listed values with at least that share of the values at or below them, and no smaller one is |
| Percentile.SummaryMeans | scripts/bench/gen_report.py:35-53 | all figures of a summary at once: extremes that are listed and bound the values, the count, the mean times the count equal to the sum |
| Percentile.RoundedIsNearest | scripts/bench/gen_report.py:42-53 | each written figure is the nearest hundredth of the exact one |
| ConversationMetrics.ParseSnapshot | scripts/bench/conversation_metrics.py:29-43 | blank lines, comments and other metrics are passed over; fails exactly on an unreadable line of one of the metrics, else holds exactly the keys read, each with the sum of its lines |
| ConversationMetrics.DiffNode | scripts/bench/conversation_metrics.py:65-72 | a node's difference exists exactly when no series vanished or fell by more than the tolerance |
| ConversationMetrics.DiffNodes | scripts/bench/conversation_metrics.py:58-74 | all nodes' differences, or the count mismatch, or the first node that cannot be compared |
| ConversationMetrics.SumOverNodes | scripts/bench/conversation_metrics.py:77-81 | the sum over nodes, failing exactly when some node lacks the series |
| ConversationMetrics.CountOverNodes | scripts/bench/conversation_metrics.py:77-88 | the same sum as a count, failing exactly when it is not a natural number |
| ConversationMetrics.CollectBounds | scripts/bench/conversation_metrics.py:92-101 | exactly the bounds of the projection's success buckets on any node, failing when one has no bound label |
| ConversationMetrics.ReadBucket | scripts/bench/conversation_metrics.py:103-112 | the summed count under one bound, if it is there, a count, and the bound parses |
| ConversationMetrics.ReadBuckets | scripts/bench/conversation_metrics.py:102-112 | every bound is read once, in some order of the set |
| ConversationMetrics.SuccessBuckets | scripts/bench/conversation_metrics.py:91-113 | the sorted buckets, one function of the differences whatever the set's order |
| ConversationMetrics.AnyOrderSortsAlike | scripts/bench/conversation_metrics.py:102-113 | the sorted buckets are the same for every order in which the set of bounds is walked |
| ConversationMetrics.P95UpperBoundMs | scripts/bench/conversation_metrics.py:116-123 | the scan's result: nothing for no observations, the first covering bound, nothing for the infinite one, an error if none covers |
| ConversationMetrics.BuildRow | scripts/bench/conversation_metrics.py:131-174 | one projection's row or its first error |
| ConversationMetrics.BuildRows | scripts/bench/conversation_metrics.py:130-174 | all rows in order, or the first projection's error |
| ConversationMetrics.BuildDelta | scripts/bench/conversation_metrics.py:126-181 | the whole report as written, numbers rounded, keyed by projection, its write total counting direct and group messages but not group initialisations |
| HistogramMeaning.BucketCountsFresh | scripts/bench/conversation_metrics.py:58-113 | if each node's snapshots are the histogram of a log that only grew, each summed bucket counts exactly the new observations of all nodes within its bound |
| HistogramMeaning.FleetIsReadable | scripts/bench/conversation_metrics.py:91-113 | then reading the buckets never fails |
| HistogramMeaning.ScanOfBuckets | scripts/bench/conversation_metrics.py:113-123 | on any readable histogram the scan stops at the smallest bound that covers the rank, or finds none only if no bound covers it |
| HistogramMeaning.FleetScan | scripts/bench/conversation_metrics.py:116-123 | for a growing log the scan always finds a bound, so the final raise is unreachable |
| HistogramMeaning.RankIsPercentileRank | scripts/bench/conversation_metrics.py:119 | the rank is that of the nearest-rank 95th percentile and lies in 1..n |
| HistogramMeaning.P95CoversTheNewObservations | scripts/bench/conversation_metrics.py:58-123 | the count is the number of new observations and the bound covers at least ceil(0.95 n) of them while every smaller bound covers fewer |
| HistogramMeaning.ReportIsSound | scripts/bench/conversation_metrics.py:126-181 | in every report built, each projection's row with such histograms counts the new observations exactly and its p95 is sound for them |
| HistogramMeaning.BoundBracketsThePercentile | scripts/bench/conversation_metrics.py:116-122 | the bound is at or above the exact nearest-rank p95 of the raw observations, and every smaller bound is below it |
| HistogramExport.FaithfulRowIsReported | scripts/bench/conversation_metrics.py:131-174 | a projection whose series follow the logs on every node gets a row whenever the differences exist, with the number and total time of the new observations, the number of new failures and a sound p95 |
| HistogramExport.FaithfulFleetIsReported | scripts/bench/conversation_metrics.py:126-181 | if that holds of all three projections, the report is built exactly when the differences can be taken, its write total is the number of new direct and group messages, and every row is right |
| HistogramExport.ExportersAreReported | scripts/bench/conversation_metrics.py:126-181 | whatever any number of nodes logged of three projections, without negative new durations, their exported series are such nodes, and the whole report over them is built and right |
| SnapshotChaining.DeltasCompose | scripts/bench/conversation_metrics.py:58-74 | if the differences A-B and B-C of the same series exist, A-C exists exactly when no series fell by more than the tolerance in all, and then is their sum series by series |
| SnapshotChaining.CountAdds | scripts/bench/conversation_metrics.py:77-88 | if both parts have a count, the whole span has their sum |
| SnapshotChaining.BucketsAdd | scripts/bench/conversation_metrics.py:91-113 | the whole span's histogram is readable, with the same bounds and counts that add |
| SnapshotChaining.RanksAdd | scripts/bench/conversation_metrics.py:119 | ceil(0.95(a+b)) is at most ceil(0.95a) + ceil(0.95b) and less than two below it |
| SnapshotChaining.CoverageBetween | scripts/bench/conversation_metrics.py:116-123 | for cumulative histograms the smallest covering bound of the whole lies between those of the parts |
| SnapshotChaining.NinetyFiveBetween | scripts/bench/conversation_metrics.py:116-123 | so does the reported p95, infinity included |
| SnapshotChaining.P95StepIs95 | scripts/bench/conversation_metrics.py:116-123 | the p95 step succeeds with a value exactly when that value is the smallest covering bound |
| SnapshotChaining.P95Chains | scripts/bench/conversation_metrics.py:116-123 | if the step succeeds on both parts it succeeds on the whole span |
| SnapshotChaining.RowIsItsSteps | scripts/bench/conversation_metrics.py:131-174 | a row is produced exactly when all its counts, checks and its p95 are as the row says |
| SnapshotChaining.StepsChain | scripts/bench/conversation_metrics.py:131-174 | two consecutive rows make a whole-span row whose numbers are their sums |
| SnapshotChaining.ReportsChain | scripts/bench/conversation_metrics.py:126-181 | if the reports A-B and B-C succeed over the same cumulative series, A-C succeeds exactly when no series fell by more than the tolerance in all; then every write, success, error and second adds, and each p95 lies between the two |
| DriftingSeries.StillReport | scripts/bench/conversation_metrics.py:58-181 | over n alike nodes on which one sum or unread series drifts, the report is built exactly when the drift is within the tolerance, and shows n times the drift |
| DriftingSeries.ToleratedFallsAddUp | scripts/bench/conversation_metrics.py:70-71 | three snapshots whose first two differences are reported while the one over the whole span is refused |
| SnapshotChaining.LogsAreCumulative | scripts/bench/conversation_metrics.py:58-113 | histograms of growing logs meet the cumulative hypothesis |
| WrittenDeltas.KeysAreSpelled | scripts/bench/conversation_metrics.py:77-112 | the series read, name and labels, written out |
| WrittenDeltas.DeltasAreTaken | scripts/bench/conversation_metrics.py:58-74 | differences exist exactly when the snapshots are as many and no series vanished or fell by more than 1e-12, and a total over them is the change of the sums |
| WrittenDeltas.LinesAreRead | scripts/bench/conversation_metrics.py:29-43 | which lines of a snapshot are read, skipped and refused, whatever white space surrounds them |
| WrittenDeltas.SampleIsSum | scripts/bench/conversation_metrics.py:29-43 | a series read from a snapshot is the sum of its lines |
| WrittenDeltas.HistogramIsReadExactly | scripts/bench/conversation_metrics.py:91-113 | the success histogram is read exactly when each bucket has a bound label that parses, on every node, and counts a natural number of observations in all |
| WrittenDeltas.BoundsAreOrdered | scripts/bench/conversation_metrics.py:106-113 | bounds are ordered as numbers, the infinite one last |
| WrittenDeltas.LabelsAreBounds | scripts/bench/conversation_metrics.py:91-101 | the bounds are the le labels of the success buckets of the projection on any node |
| WrittenDeltas.WrittenNumbersAreRight | scripts/bench/conversation_metrics.py:126-181 | every number of any written report is the named change of the named series over all nodes: counts exactly, time and average to the nearest nanosecond, and a p95 that is the smallest bound whose bucket changed by the rank |
| WrittenDeltas.FaithfulFleetIsWritten | scripts/bench/conversation_metrics.py:126-181 | for a fleet that follows its logs each written timing has as many successes and writes as new observations, as many errors as new failures, the nearest nanoseconds of their total and mean, and the covering bound |
| ConversationBaseline.ConversationStateSection | scripts/bench/baseline_report.py:175-235 | accepts exactly the valid states and keeps them as they are, with the writes for each observed message; else says which check failed first |
| ConversationBaseline.HasNamesExactly | scripts/bench/baseline_report.py:132-200 | three entries with the three names are exactly the expected key set |
| ConversationBaseline.TimingAcceptedExactly | scripts/bench/baseline_report.py:142-171 | the timing of a built row is accepted exactly when neither its summed time nor its p95 bound rounds below zero; the average never decides |
| ConversationBaseline.WrittenAcceptedExactly | scripts/bench/baseline_report.py:175-235 | what the difference writes is accepted exactly when that holds of all three rows |
| ConversationBaseline.FewNodesAreAccepted | scripts/bench/baseline_report.py:175-235 | with at most 500 nodes and no negative bucket bound it is always accepted |
| ConversationBaseline.DriftIsRefusedFrom501 | scripts/bench/baseline_report.py:148-150 | n nodes whose summed time falls by the reset tolerance: the difference is written for every n and refused exactly from the 501st on |
| ConversationBaseline.StateAcceptedExactly | scripts/bench/baseline_report.py:132-235 | the accepted states, number by number and name by name |
| ConversationBaseline.WritesPerMessageIsNearest | scripts/bench/baseline_report.py:215-217 | writes per message to the nearest millionth, and none without messages |
| PayloadEncoding.Buffer.constructor | internal/model/message_metadata.go:47 | a new buffer is empty |
| PayloadEncoding.Buffer.Write | internal/model/message_metadata.go:48-49 | appends, in order |
| PayloadEncoding.WriteMetadataHashString | internal/model/message_metadata.go:56-59 | appends the length as eight big-endian bytes and then the string |
| PayloadEncoding.MessagePayload | internal/model/message_metadata.go:43-54 | the bytes hashed, and none for a missing message |
| PayloadEncoding.UnframeFramed | internal/model/message_metadata.go:56-59 | a framed string followed by anything is read back, with the rest left over |
| PayloadEncoding.FramedUnframe | internal/model/message_metadata.go:56-59 | whatever is read as a framed string was written as one |
| PayloadEncoding.DecodePreimage | internal/model/message_metadata.go:43-59 | a decoder recovers type, content and file id from the bytes hashed, for all content and whatever follows |
| PayloadEncoding.PreimageDecode | internal/model/message_metadata.go:43-59 | the decoder accepts nothing but such bytes |
| PayloadEncoding.PreimagesArePrefixFree | internal/model/message_metadata.go:43-59 | the bytes of one message begin those of another exactly when the messages are equal |
| PayloadLayout.PayloadIsLaidOut | internal/model/message_metadata.go:43-59 | the bytes are "v1", the type in two's complement, and each string behind its length as eight bytes, the most significant first; no other bytes are so laid out |
| ScopeEncoding.ValidAgentResourceScope | internal/application/agent_policy_persistence.go:456-472 | valid exactly when nothing is blank, there is an action, and no two trimmed actions are equal |
| ScopeEncoding.ScopeCanonicalString | internal/application/agent_policy_persistence.go:436-454 | the string that is hashed for a valid scope, and an error for any other |
| ScopeEncoding.SameScopesEncodeAlike | internal/application/agent_policy_persistence.go:440-451 | reordering actions or padding fields leaves the string alone |
| ScopeEncoding.CanonicalIsInjective | internal/application/agent_policy_persistence.go:436-472 | newline-free valid scopes have equal strings exactly when trimmed type, id and action sets are equal |
| ScopeEncoding.FoldedCollides | internal/application/agent_policy_persistence.go:451-472 | every valid scope shares its string with the scope whose one action is all its actions joined by newlines |
| ScopeEncoding.UniqueAmongAllScopesExactly | internal/application/agent_policy_persistence.go:436-472 | a newline-free valid scope shares its string with no different valid scope exactly when it has one action |
| ScopeEncoding.AloneExactly | internal/application/agent_policy_persistence.go:436-472 | any valid scope shares its string with no different one exactly when it has one action and the string can be cut neither at other newlines into a trimmed type, id and action, nor the action into two ordered ones |
| ScopeEncoding.RunPreimagesEqualExactly | internal/application/agent_policy_persistence.go:317-341 | two runs share an identity string exactly when attempt, mode and the two ids joined by a newline agree; first and later attempts never collide |
| ScopeEncoding.RunIdentityIsInjective | internal/application/agent_policy_persistence.go:317-341 | with newline-free runtime ids the identity string determines task, runtime, mode and attempt |
| ScopeEncoding.RunIsAloneExactly | internal/application/agent_policy_persistence.go:317-341 | a run shares its identity string with no other run exactly when its two ids, joined, can be cut at no other newline into two trimmed ids |
| ScopeEncoding.RunsCollide | internal/application/agent_policy_persistence.go:317-341 | two different runs, in any mode and attempt, with one identity string |
| ScopeEncoding.DirectKeyIsSymmetric | internal/model/message.go:43-51 | a direct conversation has one key whoever starts it, never equal to a group's |
| ScopeEncoding.DirectKeyIdentifiesThePair | internal/model/message.go:43-47 | two users share their key with no other pair exactly when the ordered ids, joined by the colon, can be cut at no other colon into two trimmed ids in order |
| ScopeEncoding.ColonFreeIdsAreToldApart | internal/model/message.go:43-47 | ids without colons share their key with no other pair at all |
| ScopeEncoding.ColonsCollide | internal/model/message.go:43-47 | two different pairs with colons in their ids that share a key |
| ScopeEncoding.ColonsNeedNotCollide | internal/model/message.go:43-47 | a pair with a colon in an id that shares its key with nobody |
| IdentityLines.ScopeLines | internal/application/agent_policy_persistence.go:436-454 | cut at its newlines a newline-free scope's string is the version, the trimmed type and id, and the trimmed actions, each once, ascending |
| IdentityLines.RefusedScopes | internal/application/agent_policy_persistence.go:456-472 | the scopes that are refused: a blank type, id or action, no action, one action twice |
| IdentityLines.RunLines | internal/application/agent_policy_persistence.go:317-341 | the lines of a run's string, with a marked version and the attempt from the second one on |
| IdentityLines.RunsThatHaveOne | internal/application/agent_policy_persistence.go:317-341 | exactly the runs with an attempt, a task, a runtime and one of the three modes have one |
| IdentityLines.KeyParts | internal/model/message.go:43-51 | colon-free ids: the direct key is the kind and the two trimmed ids, smaller first; a group's key is its own |
| CapabilityPolicy.ContainsPolicyValue | internal/application/agent_policy.go:228-236 | found exactly when some listed value is the expected one up to white space |
| CapabilityPolicy.DefinitionAllowsResourceAction | internal/application/agent_policy.go:187-195 | allowed exactly when some scope of the type lists the action or the wildcard |
| CapabilityPolicy.ValidateDefinition | internal/application/agent_policy_persistence.go:249-271 | the exact set of valid Definitions |
| CapabilityPolicy.ProjectApprovedCapabilities | internal/application/agent_policy.go:145-157 | succeeds exactly for a valid, active, unrevoked Definition, with the admitted rules' ids in order |
| CapabilityPolicy.AdmittedRules | internal/application/agent_policy.go:149-156 | the loop keeps exactly the admitted rules, in order |
| CapabilityPolicy.AuthorizeCapability | internal/application/agent_policy.go:202-222 | granted exactly when identities, delegation, descriptor, permission and any needed approval are in place |
| CapabilityPolicy.AuthorizeCapabilityForResource | internal/application/agent_policy.go:75-98 | granted exactly when, besides, some scope grants the action on the resource |
| CapabilityPolicy.AnyScopeGrants | internal/application/agent_policy.go:85-96 | the loop finds a granting scope exactly when there is one |
| CapabilityPolicy.ScopeGrantsAction | internal/application/agent_policy.go:86-95 | one scope grants exactly when type, id or wildcard id, and action or wildcard action match |
| CapabilityPolicy.ActiveApprovedCapability | internal/application/agent_policy.go:178-185 | found exactly for the ids of the explicit allowlist |
| CapabilityPolicy.ValidateApprovedCapabilities | internal/application/agent_policy.go:159-176 | accepted exactly when shadow and empty, or active with distinct allowlisted ids |
| CapabilityPolicy.EachListedOnce | internal/application/agent_policy.go:167-174 | the loop passes exactly when trimmed ids are distinct and allowlisted |
| CapabilityPolicy.SomeResourceGrantedExactly | internal/application/agent_policy.go:75-98 | the authorizer grants any capability a write on some conversation exactly when the owner is authorized for it at all and the Definition allows conversation writes |
| CapabilityPolicy.ProjectionMatchesAuthorizer | internal/application/agent_policy.go:75-157 | a registered capability is projected exactly when it is allowlisted and some resource exists on which the authorizer grants it a conversation write |
| CapabilityPolicy.ProjectionAgreesExactly | internal/application/agent_policy.go:75-157 | projection and authorizer agree about a registered capability exactly when it is allowlisted, or the Definition lacks its permission, or allows no conversation writes |
| CapabilityPolicy.AuthorizerIsWiderThanProjection | internal/application/agent_policy.go:75-157 | off the allowlist nothing is projected, and a capability that needs no approval is granted the write on a resource exactly when the Definition holds its permission and a scope grants the write |
| CapabilityPolicy.ReaderIsGrantedAWrite | internal/application/agent_policy.go:75-157 | a valid active Definition for which the reading capability is granted a conversation write and not projected |
| AuthorizationRefusals.GrantedByOneScope | internal/application/agent_policy.go:75-98 | granted exactly when some one scope has the trimmed type, the trimmed id or "*", and lists the trimmed action or "*" |
| AuthorizationRefusals.OtherScopesGrantNothing | internal/application/agent_policy.go:85-97 | if every scope names another type, or another id and not "*", or neither the action nor "*", nothing is granted |
| AuthorizationRefusals.MoreScopesKeepGrants | internal/application/agent_policy.go:85-97 | more scopes never take a grant away |
| AuthorizationRefusals.AuthorizedExactly | internal/application/agent_policy.go:202-222 | authorized exactly with the three ids, no other delegator than the principal, the required permission, and an approval where the capability is destructive or asks for one |
| AuthorizationRefusals.UnapprovedIsRefused | internal/application/agent_policy.go:216-220 | a destructive or approval-requiring capability off the approved list is never authorized |
| AuthorizationRefusals.OtherDelegatorIsRefused | internal/application/agent_policy.go:208-210 | a delegator other than the principal never is |
| AuthorizationRefusals.MissingPermissionIsRefused | internal/application/agent_policy.go:213-215 | nor is an invocation without the required permission |
| AuthorizationRefusals.DefinitionExactly | internal/application/agent_policy_persistence.go:249-271 | the valid Definitions, check by check |
| AuthorizationRefusals.ProjectedExactly | internal/application/agent_policy.go:145-185 | exactly the three replies are projected, for a Definition with the message permission and a conversation scope that writes |
| CapabilityPolicy.ProjectionIsValid | internal/application/agent_policy.go:145-185 | every projection is duplicate-free and passes the active validator, and the shadow one only when empty |
| RepairGuard.PassesExactly | internal/application/agent_workflow_repair_guard.go:24-65 | the chain of guards is a compare-and-swap: it passes exactly when target, clock and grant are in order, the cell's digest is the expected one and not the target's, and the task is one |
| RepairGuard.AppliedRepairsChain | internal/application/agent_workflow_repair_guard.go:37-49 | in any run each applied repair expects the digest the previous applied one wrote, for the same task, and is never the same execution |
| RepairGuard.AppliedRepairsShareATask | internal/application/agent_workflow_repair_guard.go:34-46 | all repairs applied in a run share one task |
| RepairGuard.MissingIsRepairedOnce | internal/application/agent_workflow_repair_guard.go:40-43 | a repair expecting a missing projection is never applied after another one |
| RepairGuard.CellHoldsTheLastTarget | internal/application/agent_workflow_repair_guard.go:37-49 | the cell holds what the last applied repair authorised, whatever was refused since |
| RepairGuard.PassesAgainExactly | internal/application/agent_workflow_repair_guard.go:40-49 | a repair that passed on one cell passes on another exactly when the digest is the same and the task is the execution's |
| RepairGuard.ReplayNeedsAnUndo | internal/application/agent_workflow_repair_guard.go:40-49 | between two applications of one execution another applied repair restored the digest it expects |
| RepairGuard.ReplayedExactly | internal/application/agent_workflow_repair_guard.go:24-50 | an applied execution attempted again, at any time and under any grant, is applied exactly when the last repair applied in between restored the digest it expects and the new attempt's own target, clock and grant are in order |
| RepairGuard.ReplayAfterUndoPasses | internal/application/agent_workflow_repair_guard.go:40-49 | once another repair has put the old projection back, the same execution passes again at any later time its grant allows |
| RepairGuard.AnExecutionAppliedTwice | internal/application/agent_workflow_repair_guard.go:40-49 | for every digest that tells two states apart, a run at increasing times in which one execution is applied twice |
| RepairGrants.AppliedUnderItsGrant | internal/application/agent_workflow_repair_guard.go:24-33 | every applied repair of a run came while its grant was in force: from its first moment up to, and not at, expiry or revocation, and was given to that user and version |
| RepairGrants.EndedGrantsRepairNothing | internal/application/agent_workflow_repair_guard.go:24-33 | a run of attempts under grants that ended, have not begun or are others leaves the cell as it was |
| RepairGrants.PassesInBetween | internal/application/agent_workflow_repair_guard.go:24-33 | a repair that passes at two times passes at every time between, but for the zero time |
| RepairGrants.TargetIsOneRecord | internal/application/agent_workflow_repair_guard.go:34-39 | with a digest that tells records apart, applied repairs share a target digest exactly when they wrote the same revision, status, workflow and run |
| RepairGrants.AppliedRepairsChangeTheRecord | internal/application/agent_workflow_repair_guard.go:40-52 | an applied repair replaces a record of the same task that differs in one of those |
| RepairGrants.RefusedForTheFirst | internal/application/agent_workflow_repair_guard.go:24-51 | a repair is refused for the first of eight conditions that holds, and passes exactly when none does |
| CredentialFields.RejectCredentialFields | internal/application/agent_tool_invocation.go:190-218 | one answer for every map iteration order, and the recursion ends |
| CredentialFields.RejectionHasAPath | internal/application/agent_tool_invocation.go:190-218 | a refusal has a path that is too long or passes a denied key |
| CredentialFields.PathIsRejected | internal/application/agent_tool_invocation.go:190-218 | every such path is found |
| CredentialFields.AcceptedExactly | internal/application/agent_tool_invocation.go:184-218 | arguments are accepted exactly when every node is at depth at most 16 and no key on any path normalizes to a denied name |
| CredentialFields.SpellingDoesNotHide | internal/application/agent_tool_invocation.go:203-212 | capitalising a letter or inserting a separator anywhere does not change the normalized name |
| CredentialFields.NormalizeIsSpelling | internal/application/agent_tool_invocation.go:203-211 | the normalized name is the letters and digits of the key in order, capitals lowered, and nothing else |
| CredentialFields.SensitiveExactly | internal/application/agent_tool_invocation.go:184-188 | a key is denied exactly when its letters and digits spell one of the seventeen names |
| CredentialFields.DeniedKeyIsRefused | internal/application/agent_tool_invocation.go:201-216 | an object with such a key is refused at every depth up to 16, whatever the value |
| CredentialFields.NestingIsRefusedFrom17 | internal/application/agent_tool_invocation.go:190-193 | empty arguments nested in lists are refused exactly when they lie deeper than 16 |
| CredentialFields.AcceptedInPlainTerms | internal/application/agent_tool_invocation.go:190-218 | arguments are accepted exactly when nothing lies deeper than 16 and no key on any path up to there spells a denied name |
| ProcessResources.CheckSamples | scripts/bench/process_metrics.py:86-113 | the exact sample lists that pass: schema, service set, tick rate, increasing time |
| ProcessResources.CheckService | scripts/bench/process_metrics.py:122-143 | passes exactly when identity is constant, values are not negative and no counter falls |
| ProcessResources.Max | scripts/bench/process_metrics.py:151-152 | attained and dominating |
| ProcessResources.SummariseService | scripts/bench/process_metrics.py:145-161 | first and last rss, attained peaks, counters equal to the sum of consecutive differences, and the CPU percentage to six digits |
| ProcessResources.SummariseNamed | scripts/bench/process_metrics.py:121-161 | summarised exactly when the observations of that name fit |
| ProcessResources.SummarizeSamples | scripts/bench/process_metrics.py:86-168 | succeeds exactly on acceptable samples, every entry being the summary of its service; else says which check on the samples failed first |
| ProcessResources.AccumulatedTelescopes | scripts/bench/process_metrics.py:137-160 | the sum of consecutive differences is last minus first |
| ProcessResources.SummaryIsValid | scripts/bench/baseline_report.py:271-306 | an entry the sampler writes passes the baseline's check exactly when it has a name and a positive pid |
| ProcessResources.ProcessResourcesSection | scripts/bench/baseline_report.py:238-314 | accepts exactly the valid reports and hands their services on unchanged; else says which check failed first |
| ProcessResources.SummaryAcceptedExactly | scripts/bench/baseline_report.py:249-306 | a written summary is accepted exactly when all processes are named with positive pids and the run lasted over 500 ns |
| ProcessResources.SummarisedButRefused | scripts/bench/baseline_report.py:249-306 | samples the sampler summarises for any name, pid and duration, and the baseline refuses for an empty name, pid 0 or 500 ns |
| ResourceFigures.AcceptedSamplesExactly | scripts/bench/process_metrics.py:86-140 | samples are summarised exactly when there are two or more of the schema, at strictly later times on one clock, naming the same services, each one process with no negative figure whose counters never fall between any two samples |
| ResourceFigures.PercentIsNearest | scripts/bench/process_metrics.py:141-161 | the percentage is the nearest millionth to ticks / clock / seconds, ties to even |
| ResourceFigures.SummaryIsRight | scripts/bench/process_metrics.py:86-168 | every figure of a summary is what the samples say: first, last and largest levels, growth of the counters, share of a core, duration to the nearest microsecond |
| ResourceFigures.TakenExactly | scripts/bench/baseline_report.py:249-306 | the summaries the baseline takes, check by check |
| RuntimeProvenance.BuildReport | scripts/bench/runtime_provenance.py:35-85 | succeeds exactly on sound service lists with unique names and containers, with services keyed by name and sorted; else names the revision, the empty list or the first faulty service |
| RuntimeProvenance.GatherServices | scripts/bench/runtime_provenance.py:41-78 | the loop passes exactly when all services are sound and names and container ids are unique; else names the first that is unsound or repeats a name or a container before it |
| RuntimeProvenance.AcceptanceIgnoresOrder | scripts/bench/runtime_provenance.py:41-78 | a permuted service list is accepted alike |
| RuntimeProvenance.ReportIsUnique | scripts/bench/runtime_provenance.py:80-85 | the list determines the report, order of names included |
| RuntimeProvenance.OrderDoesNotMatter | scripts/bench/runtime_provenance.py:41-85 | permuted lists give the identical report |
| RuntimeProvenance.ReportIsNormalForm | scripts/bench/runtime_provenance.py:35-85 | building again from the report's own services, in any order, is accepted and gives the report back |
| RuntimeProvenance.RepackIsInverse | scripts/bench/baseline_report.py:334 | putting the name back into a reported service restores the raw service exactly |
| RuntimeProvenance.SoundInAnyOrder | scripts/bench/baseline_report.py:332-335 | in whatever order the services are walked, the builder accepts them exactly when each is sound and no two share a container |
| RuntimeProvenance.RuntimeProvenanceSection | scripts/bench/baseline_report.py:317-344 | accepts exactly the sound, source-aligned reports of the right schema taken at the collector's commit, and hands on the same services in name order |
| RuntimeProvenance.BuiltReportSurvivesBaseline | scripts/bench/baseline_report.py:329-344 | what the builder wrote is sound, and the baseline can hand on nothing but the identical report |
| ImageChecks.FitsExactly | scripts/bench/runtime_provenance.py:41-78 | a service passes exactly when it is the one object with six keys that names a clean container of a digested image at the expected revision |
| ImageChecks.AcceptedServicesExactly | scripts/bench/runtime_provenance.py:35-85 | lists are reported exactly when every service is such an object and no two share a name or a container |
| ImageChecks.ReportSaysSo | scripts/bench/runtime_provenance.py:41-85 | the report has each service under its name as its object says, in the order of the names |
| DeliveryComparison.ChecksSuffice | scripts/realtime_delivery_comparison.py:169-175 | the two per-record dictionary checks hold exactly when the record agrees with every record before it |
| DeliveryComparison.GroupEvidence | scripts/realtime_delivery_comparison.py:137-177 | accepts exactly the lists whose records are valid with events and coordinates in bijection and one batch per coordinate; returns the attempts of each coordinate in order, coordinates in first-seen order; else says of the first record at fault whether it is unreadable, its event moved, or its coordinate drifted |
| DeliveryComparison.AcceptanceIgnoresOrder | scripts/realtime_delivery_comparison.py:137-177 | a list is accepted exactly when each of its permutations is |
| DeliveryComparison.GroupsIgnoreInterleaving | scripts/realtime_delivery_comparison.py:169-177 | a re-interleaving that keeps each coordinate's order yields the same groups |
| DeliveryComparison.GroupsPartitionTheRecords | scripts/realtime_delivery_comparison.py:169-177 | the groups hold each record with its multiplicity, none is empty, and two records share a group exactly when they share a coordinate |
| DeliveryReport.CollectCountIssues | scripts/realtime_delivery_comparison.py:69-71 | one issue for each Go count that differs from the accepted one, in order |
| DeliveryReport.BuildReport | scripts/realtime_delivery_comparison.py:36-109 | succeeds exactly on full revisions, a valid baseline and acceptable records, with every issue in order and every total over the last attempts; else says whether a revision, the baseline or the records are at fault |
| DeliveryReport.ReportIgnoresInterleaving | scripts/realtime_delivery_comparison.py:41-107 | no count, issue or decision changes under a re-interleaving of the attempts that keeps each coordinate's order |
| DeliveryReport.BuildIgnoresInterleaving | scripts/realtime_delivery_comparison.py:36-107 | the same of the raw records: a re-interleaved list is accepted alike and gives the same report |
| DeliveryReport.EligibleExactly | scripts/realtime_delivery_comparison.py:47-85 | eligible exactly when all Go counts equal the number of compared coordinates, nothing was lost, every last attempt is clean, and transport observed equals requested |
| DeliveryReport.EligibleRunsDelivered | scripts/realtime_delivery_comparison.py:47-85 | an eligible run observed at least one node batch per accepted message |
| DeliveryRecords.DecodesItsFields | scripts/realtime_delivery_comparison.py:153-167 | a record is read exactly when it is well formed, and every field read is its own |
| DeliveryRecords.AcceptableExactly | scripts/realtime_delivery_comparison.py:137-177 | record lists are grouped exactly when there are some, each is well formed, and any two agree that events and coordinates go together |
| DeliveryRecords.LastAttemptsAreLast | scripts/realtime_delivery_comparison.py:47 | each coordinate has exactly one last attempt, the last of its group |
| DeliveryVerdict.NumbersAreRight | scripts/realtime_delivery_comparison.py:45-107 | every number of the comparison is the sum of the record field it is named after over the last records of the compared type, or counts such records, or counts the deferred records at their coordinates |
| DeliveryVerdict.IssuesAreRaised | scripts/realtime_delivery_comparison.py:51-79 | the issues are those of the fourteen that hold of the records and the Go counts, in order |
| DeliveryVerdict.ReportIsRight | scripts/realtime_delivery_comparison.py:36-109 | so of any report: issues, decision, numbers, revisions and run |
| DeliveryVerdict.EligibleOverRecords | scripts/realtime_delivery_comparison.py:51-85 | eligible exactly when all Go counts equal the number of last records of the type with nothing lost, each of these is projected, requested something and has zero rejected, backpressured, malformed, stale and offline counts, and observed sums to requested |
| DeliveryVerdict.RevisionExactly | scripts/realtime_delivery_comparison.py:196-200 | a revision is accepted exactly when it is forty hexadecimal digits in either case within white space, and becomes their lower case |
| DeliveryVerdict.BaselineExactly | scripts/realtime_delivery_comparison.py:112-134 | the baselines that are compared, check by check |
| IsoTime.InstantOfCivil | internal/application/agent_workflow_repair_audit.go:185 | calendar fields of any instant lead back to it, cut to the millisecond |
| IsoTime.CivilRoundTrip | internal/application/agent_workflow_repair_audit.go:185 | printed dates with four-digit years parse back to themselves |
| IsoTime.OtherYearsDoNotParse | internal/application/agent_workflow_repair_audit.go:185 | the text of any other year does not parse |
| IsoTime.ParseIsoMilliseconds | internal/application/agent_workflow_repair_audit.go:185 | an instant's text parses exactly when its year has four digits, to the instant cut to the millisecond |
| IsoTime.TruncateIdempotent | internal/application/agent_mcp_readiness_evidence.go:144-147 | cutting to the millisecond twice is cutting once, and changes no printed field |
| ReadinessEvidence.CanonicalIdempotent | internal/application/agent_mcp_readiness_evidence.go:143-181 | canonical evidence made canonical again gives the same evidence and content |
| ReadinessEvidence.MarshalRoundTrip | internal/application/agent_mcp_readiness_evidence.go:129-181 | marshalled content decodes to the truncated evidence, exactly while all years have four digits, whatever other time spellings the decoder accepts |
| ReadinessEvidence.ParseOfCanonical | internal/application/agent_mcp_readiness_evidence.go:129-181 | parsing canonical content gives the canonical evidence back, exactly while all years have four digits |
| ReadinessEvidence.RebuiltIsSame | internal/application/agent_mcp_readiness_evidence.go:97-127 | building from a built record's own fields gives the identical record |
| ReadinessEvidence.BuiltRecordsValidate | internal/application/agent_mcp_readiness_evidence.go:76-181 | a built record passes its own validation exactly when its instants have four-digit years |
| ReadinessEvidence.StrictParserReadsIso | internal/application/agent_mcp_readiness_evidence.go:129-141 | a strict reader of the canonical spelling reads every four-digit year for what it says and refuses all others, as the theorems ask of the decoder |
| ReadinessEvidence.TheYear10000DoesNotValidate | internal/application/agent_mcp_readiness_evidence.go:76-181 | a request that is built into a record which does not validate |
| ReadinessEvidence.ValidRecordsAreBuilt | internal/application/agent_mcp_readiness_evidence.go:76-95 | a record validates exactly when, up to creation time, sub-millisecond time and padding of the operator, it is what the constructor builds from its parsed content |
| IsoTime.IsoInjective | internal/application/agent_workflow_repair_audit.go:185 | two instants print alike exactly when they agree to the millisecond, whatever their years |
| CalendarSteps.FirstInstant | internal/application/agent_workflow_repair_audit.go:185 | instant zero is midnight of 1 January of the year 1 |
| CalendarSteps.MonthLengths | internal/application/agent_workflow_repair_audit.go:185 | months have 31, 30, 28 or 29 days, the last by the Gregorian leap rule |
| CalendarSteps.ValidCivilExactly | internal/application/agent_workflow_repair_audit.go:185 | the dates and times of day there are |
| CalendarSteps.ADayLater | internal/application/agent_workflow_repair_audit.go:185 | one day later is the next date at the same time of day, through month and year ends |
| CalendarSteps.AMilliLater | internal/application/agent_workflow_repair_audit.go:185 | one millisecond later is the next reading of the clock, with every carry |
| CalendarSteps.WithinAMilli | internal/application/agent_workflow_repair_audit.go:185 | within a millisecond the reading stays |
| CalendarText.IsoIsSpelled | internal/application/agent_workflow_repair_audit.go:185 | the text is year, month, day, T, hour, minute, second and milliseconds, digit by digit, and Z |
| ReadinessEvidence.IdentityIsInjective | internal/application/agent_mcp_readiness_evidence.go:114-119 | if no field of one identity holds a newline, no other fields at all give its string |
| ReadinessEvidence.BuiltExactly | internal/application/agent_mcp_readiness_evidence.go:97-111 | the exact set of requests the constructor accepts |
| ReadinessEvidence.BuiltIsFramed | internal/application/agent_mcp_readiness_evidence.go:97-126 | every built record has a trimmed tenant of at most 64 characters, a digest after it and an expiry in whole milliseconds |
| ReadinessEvidence.IdentitiesEqualExactly | internal/application/agent_mcp_readiness_evidence.go:114-119 | two built records share an identity string exactly when tenant and expiry agree and the six lines between them, joined, do |
| ReadinessEvidence.PlainIdentitiesEqualExactly | internal/application/agent_mcp_readiness_evidence.go:114-119 | with newline-free digests they share it exactly when tenant, digests and expiry agree and operator, request and trace, joined, do |
| ReadinessEvidence.NewlineInRequestCollides | internal/application/agent_mcp_readiness_evidence.go:114-120 | an accepted request whose id holds a newline shares its UUID with the one that has the rest moved to the trace, if that is still an identifier |
| ReadinessEvidence.InnerNewlinesCollide | internal/application/agent_mcp_readiness_evidence.go:114-120 | two different accepted requests with one UUID |
| ReadinessRules.RecordableExactly | internal/application/agent_mcp_readiness_evidence.go:97-111 | requests are recorded exactly when the callers are identifiers, the profile is the evidence's own, its checks lie in order within ten minutes with counts within their limits, and the record expires within the hour after |
| ReadinessRules.RecordSaysSo | internal/application/agent_mcp_readiness_evidence.go:112-126 | the record holds these eleven members in this order, and its UUID is the digest of these nine lines |
| ReadinessRules.ForeignContentIsRefused | internal/application/agent_mcp_readiness_evidence.go:129-141 | content with an unknown key anywhere or anything after the object is refused |
| ReadinessRules.NullsAreSkipped | internal/application/agent_mcp_readiness_evidence.go:129-141 | a null under a known key says nothing |
| ReadinessRules.ReadEvidenceIsGood | internal/application/agent_mcp_readiness_evidence.go:129-160 | whatever content is accepted, what is read of it is evidence that may be recorded, in whole milliseconds |
| ReadinessRules.MissingMemberIsRefused | internal/application/agent_mcp_readiness_evidence.go:129-160 | content that leaves out or nulls any member is refused, but for the three later times of evidence that began before the year 1 |
| MemoryLineage.CanonicalLineageKeepsValidity | internal/application/agent_memory.go:202-240 | canonicalising is idempotent, leaves erasure validity alone, and keeps a valid lineage valid exactly when the memory was versioned or has a usable id |
| MemoryLineage.AcceptedLineageStaysAccepted | internal/application/agent_memory.go:160-240 | a memory whose id, lineage and erasure validation accepts is still accepted once canonicalised |
| MemoryLineage.BlankIdLosesItsLineage | internal/application/agent_memory.go:215-240 | without an id, which validation asks for, a lineage can be valid only until it is canonicalised |
| MemoryLineage.RunVersions | frontend/src/api/agentMemories.ts:217-229 | along accepted corrections versions count up by one, the root stays and each names its predecessor |
| MemoryLineage.CorrectionsReachTheRoot | frontend/src/api/agentMemories.ts:104-113 | each version reaches the original in exactly version - 1 hops and no further, and no memory occurs twice |
| MemoryLineage.ErasedExactly | internal/application/agent_memory.go:202-213 | what erased memories hold, member by member |
| LineageRules.LineageExactly | internal/application/agent_memory.go:224-238 | the valid lineages, version by version |
| LineageRules.CanonicalExactly | internal/application/agent_memory.go:215-222 | only a memory from before versioning that says nothing of its lineage is changed, into the first version of its own root |
| LineageRules.AcceptedExactly | frontend/src/api/agentMemories.ts:217-229 | the client accepts exactly an answer that shows the memory it asked about, revoked, and one active successor of it on the same root that says what was asked for |
| MemoryCorrections.AppliedExactly | internal/services/agent/application/agent_memory_owner.go:48-90 | a correction is applied exactly to an active valid memory of the expected version with room for another, whose id needs no trimming, given content, corrector and reason |
| MemoryCorrections.AppliedCorrectionExtendsTheChain | internal/services/agent/application/agent_memory_owner.go:71-101 | both memories are valid; the successor is one version above the old one, on its root, with what was asked for, and the old one is only revoked |
| MemoryCorrections.PassedMemoriesParse | internal/services/gateway/server/agent_memory.go:318-366 | whatever lineage the gateway passes on the client parses |
| MemoryCorrections.PublicIdExactly | internal/services/gateway/server/server.go:375-387 | the public ids: a letter or digit, then letters, digits or any of `_.:-`, within the limit |
| MemoryCorrections.SuccessorPassesExactly | internal/services/gateway/server/agent_memory.go:318-366 | the successor of a memory that passes passes exactly when its id and its corrector's are public ids |
| MemoryCorrections.AnswerAcceptedExactly | frontend/src/api/agentMemories.ts:217-229 | the client accepts the answer to an applied correction exactly when it asked for compact content and sent no text that begins or ends in U+0085 |
| MemoryCorrections.MadeButReportedAsFailed | frontend/src/api/agentMemories.ts:217-229 | a correction that is stored and whose answer the client refuses |

## Left out

Kept outside the model, or simplified:

- SHA-256, hex and the bytes of JSON: digests are function parameters, and JSON is a decoded document, with its layout and the spelling of its keys in one field.
- ReadinessEvidence.ParseOfCanonical: how timestamps are read is a function parameter, held only to reading the canonical spelling and refusing that of years without four digits.
- IsoTime.ParseIsoMilliseconds: time zones are not modelled, an instant is a number of nanoseconds in UTC.
- ConversationMetrics.ParseSnapshot: the regular expressions, the label text and Python's float() are one function parameter, and so is float() of a bound label.
- ConversationMetrics.CountOverNodes: the tolerance of `_as_count` is not modelled, only exact integers count.
- ConversationMetrics.BuildRow: its numbers are exact; they are rounded where the report is written, in BuildDelta.
- ConversationMetrics.P95UpperBoundMs: likewise.
- ConversationMetrics.BuildDelta: starts from parsed snapshots; sums and rounding are exact, not in binary floating point, and the reset tolerance is 1e-12 exactly.
- ConversationBaseline.ConversationStateSection: key sets inside an entry and JSON types are fixed by the datatype, and operations schemas before v3 are not modelled.
- ConversationMetrics.DiffNode: where Python's dict or set order decides which message is raised first, one error stands for all of them.
- ConversationMetrics.SuccessBuckets: the same holds for the errors met while reading bounds.
- Percentile.PercentileIsNearestRank: exact reals; in binary floating point `p / 100 * n` can come out just above an integer, so that for p = 7 over 100 values the source takes the 8th.
- Percentile.PercentileFailsExactly: the same holds of the rank it compares.
- ProcessResources.SummarizeSamples: decoded integers only; values of other JSON types, missing keys, binary floating point, and which of a service's faults is reported first are not modelled.
- ProcessResources.ProcessResourcesSection: the set of field names and their JSON types are fixed by the datatype; earlier schema versions of the operations file are not modelled.
- RuntimeProvenance.RuntimeProvenanceSection: starts from a decoded report; its key set is fixed by the datatype, and which faulty service is reported first is left open. Whether a timestamp parses is a function parameter.
- DeliveryComparison.GroupEvidence: Python's equality between different number types (1 == True == 1.0) in `batch_id` is not modelled.
- DeliveryReport.BuildReport: the report's own digest, input hashes and ill-typed baselines are not modelled, and all baseline errors are one.
- MessageSearch.SearchBox.RunSearch: the `limit` argument and a search callback that throws synchronously (a settlement that follows at once) are not told apart from ordinary requests; lone UTF-16 surrogates and counters beyond 2^53 are not modelled.
- MessageSearch.DisposedBoxIsSilent: excludes a manual run after disposal, which the code would still carry out.
- TaskWaiting.TaskBanner.AcceptLocator: parsing of raw events and pages is an option input, the list call's own asynchrony is an event, and the headline text is not modelled.
- PayloadEncoding.PreimagesArePrefixFree: strings are their bytes, of length below 2^64.
- ScopeEncoding.ScopeCanonicalString: Go strings are sequences of code points, whose order equals byte order for valid UTF-8.
- ScopeEncoding.DirectKeyIsSymmetric: the in-place sort of two strings is a comparison.
- CapabilityPolicy.ProjectApprovedCapabilities: all denials are one error; instants are numbers.
- RepairGuard.PassesExactly: the digest covers the four fields it covers in Go and is any function with non-empty values; byte lengths are a function parameter.
- CredentialFields.AcceptedExactly: about the decoded value; the command's JSON decoding, length and digest checks around it are not modelled.
- MemoryLineage.CanonicalLineageKeepsValidity: only the lineage and erasure parts of a memory; `ContentErasedAt` is a flag.
- MemoryCorrections.AppliedExactly: byte lengths, tenants, expiry and the replay of a correction already made are not modelled.
- MemoryCorrections.SuccessorPassesExactly: only the lineage part of what the gateway checks.
- MemoryLineage.CorrectionsReachTheRoot: assumes that root, version and predecessor of a stored memory never change.
- Task status transitions, approvals, per-field length checks, timing and storage sections of the baseline report: a reading of one branch settles them.
- The stores, orchestrators, sync engine, command-line mains, configuration, logging and I/O: not part of this model.
