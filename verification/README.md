# RoboLineage verification model

A Dafny model of the parts of RoboLineage that decide what a robot rollout was, whether it is trained on,
and what the datasets contain, with proofs about every input, every run and every interleaving.
`dafny verify dfyconfig.toml` checks the whole project.

## What is modelled

**The post-rollout review pipeline** (`formal_review.py`). A rollout is a chronological list of snapshot
records. `Timeline` smooths isolated phase jitter and groups points into runs of one phase; `Segments` turns
runs into segment records and cleans up zero-duration ones; `ReviewImages` and `ReviewPackets` choose the
frames a vision model is shown, in one prompt or split over packets; `PacketVerdict` combines the packet
replies, and `PacketCoverage` says when they overrule the deterministic pass; `Annotation` corrects labels,
finds retries and decides the outcome; `Governance` attributes failures and admits the rollout to a dataset.
`SegmentLaws`, `ImageLaws`, `ReviewLaws`, `OutcomeLaws` and
`AdmissionLaws` say, stage by stage, exactly what is computed in the fields of what it is computed from.
`AnnotationLaws` holds what is true of every annotation, on every path (no VLM, one prompt, packets, all packets
failed, blocked verdict); `ReviewExamples` has concrete rollouts. The VLM is an oracle: any reply, or an error,
for each packet and for the single prompt. Which images can be read is an arbitrary list.

**The review workers** (`worker.py` of the post-rollout and evaluation packages). `ReviewWorker` holds the
worker object, with one method for each lock block and each queue operation, and the transition system over
them: any number of producers, one worker thread, a stop that can come at any time. A job carries arbitrary
arguments, so the same model is the post-rollout worker and the evaluation worker. `ReviewWorkerLaws` has the
theorems about all executions; `Transitions` is the vocabulary of executions and invariants that it shares with
`SessionProtocol` and `MasterQueue`.

**Rollout sessions and the master queue** (`runtime.py`). `SessionProtocol` is the runtime's session state
composed with the review workers: runs start, drain and complete, a session finalizes, missing reviews are
enqueued, and the summary is written; a run's thread may also end without its run being taken off the list.
The session fields carry no lock in the program, so each runtime operation and each finalizer stage is one
atomic step here; worker steps interleave freely between them.
`SessionProgress` says what the steps bring about and when a session can reach its end.
`MasterQueue` is the coalescing review queue, one step for each block under its condition variable.

**Data lineage.** `SnapshotTail` is the offset-based tail reader of the snapshot log against the batch loader.
`DatasetVersions` has version ids, the manifest file format and the last-wins merge; `DatasetChain` has the
updater, the choice of the latest lock, whole sequences of training runs, and lock differences. `Selection` has
the three copies of the admission filter and the operator's training selection, and ties them to the review
pipeline. `Ownership` is the longest-prefix owner lookup and its use by the import checker.

Loops and objects of the program are Dafny methods and classes, each proved against a function; the laws are
lemmas about that function. Phases are identities in an ordered task list; timestamps and confidences are reals.

## Where the code differs from what one would expect

- A failure verdict that lacks terminal image coverage cannot overrule a deterministic success, as intended,
  but the same guard can turn a deterministic failure into a success: the reply's final phase is applied before
  the guard is asked again (`AnnotationLaws.UncoveredFailureCanPromote`, exact condition in
  `AnnotationLaws.FinalSuccessExactly`, an input in `ReviewExamples.FailureVerdictPromotes`).
- In packet mode terminal coverage is judged by the first packet alone, although every packet is reviewed. A
  failure verdict overrules a deterministic success if and only if that packet shows a frame of every terminal
  group (`PacketCoverage.PacketFailureExactly`; on the evidence alone `PacketCoverage.FirstPacketMeetsAllExactly`).
  If no terminal group meets all the others this never happens (`PacketCoverage.ScatteredIsNeverCovered`);
  `ReviewExamples` has one input of each kind.
- A packet reply may claim its own packet number; a break that claims a number below -1 is ignored
  (`PacketVerdict.NegativeIndexHidesBreak`, exact condition in `PacketVerdict.VerdictExactly`).
- A worker that abandons a job at the stop check keeps showing it as current, and only that way does a dead worker
  show one (`ReviewWorkerLaws.StrandedExactly`, `StrandedReachable`). The idle test is then false until a later job
  has run to its end; a restart alone does not help (`NeverIdleUntilCleared`).
- A draining run whose thread ends without being taken off the list keeps its session from ever reaching its summary;
  nothing else does, short of a finalizer that fails (`SessionProgress.SummaryReachableExactly`).
- Sentinels stay in the queue exactly when more were put than the worker took (`SentinelsLeftExactly`,
  `StaleSentinelReachable`); a restarted worker then starts at most the jobs ahead of it (`RestartEndsExactly`,
  `StaleSentinelBoundsRuns`).
- The list of queued names is exact if and only if no job is released while another job of its base name is listed
  (`ReviewWorkerLaws.NamesExactIffNoneDropped`, an input in `SharedNameIsDropped`).
- A master-review request is left without a worker if and only if the last worker had gone by the time of the
  append, which is a separate step from the liveness check (`MasterQueue.LeftWithoutWorkerExactly`, reachable by `RequestCanMissTheWorker`).
- The tail reader splits at newlines and the batch loader with `splitlines`; the snapshot writer does not escape
  the other line separators. The batch loader loses exactly the records that hold one
  (`SnapshotTail.BatchReadsIntactRows`, `ReadersAgreeExactly`). For the same reason a training run on the latest
  lock fails exactly when an entry contains such a character (`DatasetVersions.ManifestRoundTrip`, `DatasetChain.UpdateOnChain`).
- Building the manifest from a stored training selection returns the ids selected if and only if each of them is
  the plain name of a directory under the rollouts root (`Selection.SelectionIsReproduced`).

## Model

| member | source | states |
|---|---|---|
| ReviewData.Round3KeepsBounds | src/robolineage_post_rollout/formal_review.py:1202-1209 | rounding to three decimals never leaves an interval with thousandth ends, so rounded confidences keep their bounds |
| ReviewData.Round3IsNearest | src/robolineage_post_rollout/formal_review.py:1202-1209 | the rounded value is the nearest thousandth, the even one on a tie |
| Timeline.SuppressIsolatedPhaseJitter | src/robolineage_post_rollout/formal_review.py:888-904 | the loop that writes a copy flips all isolated excursions at once, each judged by its unfiltered neighbours |
| Timeline.FilterNeverAddsAChange | src/robolineage_post_rollout/formal_review.py:888-916 | adjacent points differ after the filter exactly when they differed before and both or neither were suppressed |
| Timeline.FilterKeepsEvidence | src/robolineage_post_rollout/formal_review.py:888-916 | endpoints, corrected points and points with risk or confidence evidence pass unchanged |
| Timeline.FilterIsIdempotent | src/robolineage_post_rollout/formal_review.py:888-916 | filtering twice equals filtering once |
| Timeline.FilterRunCount | src/robolineage_post_rollout/formal_review.py:888-916 | the number of phase runs drops by exactly twice the number of maximal blocks of suppressed points |
| Timeline.GroupByPhase | src/robolineage_post_rollout/formal_review.py:876-884 | the grouping loop yields the run-length groups of the points |
| Timeline.GroupsPartition | src/robolineage_post_rollout/formal_review.py:876-884 | the groups are a partition of the points into maximal runs of one phase, as many as there are runs |
| Timeline.FilteredGroupCount | src/robolineage_post_rollout/formal_review.py:870-904 | the number of segments before cleanup, from the unfiltered points alone |
| Segments.Dominant | src/robolineage_post_rollout/formal_review.py:2080-2083 | the label returned has the most occurrences, and among labels with as many it is the one seen first |
| Segments.CleanupZeroDurationSegments | src/robolineage_post_rollout/formal_review.py:966-991 | the cleanup loop keeps exactly the surviving segments, marked and renumbered |
| Segments.PhaseTimelineFromPoints | src/robolineage_post_rollout/formal_review.py:870-885 | filter, grouping, records and cleanup in sequence give the specified timeline |
| Segments.RecordTotals | src/robolineage_post_rollout/formal_review.py:919-963 | a segment's duration and counters equal those of the points it was made from |
| Segments.DroppedIsEmpty | src/robolineage_post_rollout/formal_review.py:966-1012 | a dropped segment has no duration, no flags and no alarm; a kept one keeps its totals |
| Segments.TimelineConservesTotals | src/robolineage_post_rollout/formal_review.py:870-1012 | duration, review flags and imminent failures of the final timeline equal those of the points |
| Segments.RecordAlarm | src/robolineage_post_rollout/formal_review.py:919-963 | a segment is alarming exactly when one of its points is, and lists each such frame |
| Segments.CleanupKeepsAlarms | src/robolineage_post_rollout/formal_review.py:966-1012 | cleanup loses no alarming frame and invents none |
| Segments.EvidenceSurvives | src/robolineage_post_rollout/formal_review.py:870-1012 | every high-risk or imminent frame is evidence of a surviving alarming segment |
| Segments.AlarmHasPoint | src/robolineage_post_rollout/formal_review.py:870-1012 | an alarming segment of the timeline stems from an alarming point |
| Segments.CleanupKeepsEnds | src/robolineage_post_rollout/formal_review.py:966-991 | first and last segments survive with phase and frames; indices run 0..n-1 |
| Segments.TimelineEnds | src/robolineage_post_rollout/formal_review.py:870-991 | the timeline starts at the first point and ends at the last point's frame in its phase; it is empty only without points |
| SegmentLaws.FilterExactly | src/robolineage_post_rollout/formal_review.py:888-916 | a point is relabelled exactly when its neighbours agree against it and it carries no evidence, with a note; otherwise it is unchanged |
| SegmentLaws.RecordExactly | src/robolineage_post_rollout/formal_review.py:919-963 | span, duration, counters, triggers and correction notes of a segment, from its points |
| SegmentLaws.WorstRiskExactly | src/robolineage_post_rollout/formal_review.py:2086-2090 | the worst of the risks that occur, in the order high, medium, low |
| SegmentLaws.EvidenceFramesExactly | src/robolineage_post_rollout/formal_review.py:919-963 | exactly the first frame, the last and those of alarming points, each once |
| SegmentLaws.MeanAndProgressExactly | src/robolineage_post_rollout/formal_review.py:919-963 | the rounded mean confidence and the most frequent progress, the earlier one on a tie |
| SegmentLaws.CleanupExactly | src/robolineage_post_rollout/formal_review.py:966-1012 | the cleanup returns, in order, exactly the segments with a duration, at an end, or with evidence of their own, each with the reason that applies first |
| SegmentLaws.EmptySegmentIsDropped | src/robolineage_post_rollout/formal_review.py:966-1012 | an inner segment of no duration and no evidence makes the timeline shorter |
| ReviewImages.SelectReviewFrameIds | src/robolineage_post_rollout/formal_review.py:1744-1783 | the selector's two loops (terminal scan with early exit, score table and ranking) return the specified selection |
| ReviewImages.TerminalSelection | src/robolineage_post_rollout/formal_review.py:1748-1756 | the terminal scan takes the first indexed terminal frames up to the budget, each once |
| ReviewImages.ScoreTable | src/robolineage_post_rollout/formal_review.py:1757-1776 | the table holds for each eligible frame the best score of any of its rows |
| ReviewImages.ScoredOrderIsRank | src/robolineage_post_rollout/formal_review.py:1777-1782 | sorting by the accumulated table is sorting by rank |
| ReviewImages.TerminalGroupsDistinct | src/robolineage_post_rollout/formal_review.py:1830-1867 | no terminal group repeats a frame or is empty |
| ReviewImages.ChosenSize | src/robolineage_post_rollout/formal_review.py:1744-1783 | the choice has distinct indexed frames, exactly min(budget, available) of them |
| ReviewImages.SelectionIsOptimal | src/robolineage_post_rollout/formal_review.py:1744-1783 | strictly increasing, indexed, as large as the budget allows; a terminal frame is left out only if all chosen are terminal; no omitted key frame outranks a chosen non-terminal one |
| ReviewImages.CoverageExactly | src/robolineage_post_rollout/formal_review.py:1812-1827 | coverage is sufficient exactly when every terminal group shows an image |
| ReviewImages.SelectionCoversTerminals | src/robolineage_post_rollout/formal_review.py:1744-1892 | if the terminal frames fit and all images load, only groups without any image are missing |
| ImageLaws.WindowFramesExactly | src/robolineage_post_rollout/formal_review.py:1870-1878 | a window shows its key frames, or its anchor when it has none, and its end frame, each once |
| ImageLaws.EpisodeEndExactly | src/robolineage_post_rollout/formal_review.py:1886-1892 | the episode end is the last frame of any snapshot, window or image, absent exactly when there is none |
| ImageLaws.TerminalGroupsExactly | src/robolineage_post_rollout/formal_review.py:1830-1867 | the furthest final observation and the furthest window beyond it, or the furthest window without one, and the episode end unless one shows it |
| ImageLaws.ScoreExactly | src/robolineage_post_rollout/formal_review.py:1758-1776 | a key frame scores one and each of its reasons adds its own weight, whatever the others are |
| ImageLaws.BestScoreIsGreatest | src/robolineage_post_rollout/formal_review.py:1758-1776 | the score of a frame is the greatest of its rows |
| ImageLaws.OmittedFramesRankLower | src/robolineage_post_rollout/formal_review.py:1777-1782 | a key frame left out scores less than every chosen frame that is not terminal, or the same and comes later |
| ImageLaws.FirstTerminalFramesAreChosen | src/robolineage_post_rollout/formal_review.py:1748-1756 | when the budget is too small for them the terminal frames chosen are the first by group and place |
| ReviewPackets.SliceInto | src/robolineage_post_rollout/formal_review.py:1508-1534 | slicing in a loop gives the consecutive chunks within the budget |
| ReviewPackets.PlanPackets | src/robolineage_post_rollout/formal_review.py:1501-1540 | the planning loops give the specified plan: terminal groups first, or one selected packet when none is indexed, then what remains |
| ReviewPackets.PacketPartition | src/robolineage_post_rollout/formal_review.py:1501-1540 | above the budget the packets are disjoint, within the budget, cover exactly the indexed frames and are at least two |
| ReviewPackets.PacketIndicesIncrease | src/robolineage_post_rollout/formal_review.py:1541-1564 | packet numbers are plan positions: strictly increasing and never repeated, also when unreadable packets are skipped |
| ReviewPackets.EveryImageReviewedOnce | src/robolineage_post_rollout/formal_review.py:1501-1564 | if all images load, the packets show every indexed frame exactly once |
| ReviewLaws.CandidatesExactly | src/robolineage_post_rollout/formal_review.py:1786-1809 | the candidates for review are exactly the frames that have an image, in increasing order, each once |
| ReviewLaws.ChunksAreFull | src/robolineage_post_rollout/formal_review.py:1508-1534 | every packet of a group but the last is as large as the budget allows |
| ReviewLaws.LoadableExactly | src/robolineage_post_rollout/formal_review.py:1541-1564 | the packets reviewed are exactly the planned ones with an image that loads, numbered by their place in the plan |
| ReviewLaws.PacketModeExactly | src/robolineage_post_rollout/formal_review.py:1501-1564 | packets are used exactly above a positive budget and with more than one packet that loads |
| ReviewLaws.PurposesExactly | src/robolineage_post_rollout/formal_review.py:1512-1540 | the purpose of a packet tells where its frames come from |
| PacketCoverage.PlanIsFocused | src/robolineage_post_rollout/formal_review.py:1512-1540 | the images of a packet come from one terminal group, or from none |
| PacketCoverage.ScatteredIsNeverCovered | src/robolineage_post_rollout/formal_review.py:219-223 | when no terminal group meets all the others, a review in packets never counts as covering the episode end |
| PacketCoverage.PacketsCannotOverrule | src/robolineage_post_rollout/formal_review.py:186-237 | then no failure verdict of the packets takes away a deterministic success or changes its timeline |
| PacketCoverage.PacketFailureExactly | src/robolineage_post_rollout/formal_review.py:186-237 | a failure verdict of the packets takes a deterministic success away if and only if the first packet shows a frame of every terminal group |
| PacketCoverage.PacketsCanOverruleExactly | src/robolineage_post_rollout/formal_review.py:186-237 | some behaviour of the VLM can do so if and only if that holds |
| PacketCoverage.FirstPacketExactly | src/robolineage_post_rollout/formal_review.py:1512-1564 | if every image loads, the first packet is the first budget chunk of the first terminal group with an indexed frame |
| PacketCoverage.FirstPacketMeetsAllExactly | src/robolineage_post_rollout/formal_review.py:1512-1564 | the condition on the evidence alone: that chunk meets every terminal group |
| ReviewExamples.LaterWindowProtects | src/robolineage_post_rollout/formal_review.py:186-237 | two images, budget one, a final observation at frame 1 and a later window at frame 5: no VLM overrules the success |
| ReviewExamples.LastObservationCanBeOverruled | src/robolineage_post_rollout/formal_review.py:186-237 | with the final observation at frame 5 and no later window the same packets can overrule it |
| PacketVerdict.AggregatePacketReviews | src/robolineage_post_rollout/formal_review.py:1623-1690 | the loop that collects successes, breaks and failures, then takes the latest of each, computes the specified aggregate |
| PacketVerdict.VerdictExactly | src/robolineage_post_rollout/formal_review.py:1623-1690 | for any claimed packet numbers: true exactly when a success is later than every break; false exactly when a break is as late as every success, unless all breaks are hidden |
| PacketVerdict.VerdictOfNumberedPackets | src/robolineage_post_rollout/formal_review.py:1623-1690 | with non-negative numbers the later observation wins, ties go to the break, and there is no verdict exactly without either |
| PacketVerdict.NegativeIndexHidesBreak | src/robolineage_post_rollout/formal_review.py:1623-1690 | a single break numbered below -1 yields no verdict |
| PacketVerdict.AggregateIgnoresOrder | src/robolineage_post_rollout/formal_review.py:1623-1690 | permuting the reviews never changes the verdict, nor any other field but the order of the failure list when breaks carry distinct numbers |
| ReviewLaws.NumberedVerdictExactly | src/robolineage_post_rollout/formal_review.py:1623-1690 | the verdict in the fields of the replies: which states and claims count as a success or as a break, and which is later |
| ReviewLaws.LatestBreakExactly | src/robolineage_post_rollout/formal_review.py:1623-1690 | the deciding break is the first one of the greatest number |
| ReviewLaws.AggregateExactly | src/robolineage_post_rollout/formal_review.py:1623-1690 | final phase, confidence, quality, usability and failure list of the combined reply |
| Annotation.PhaseIndex | src/robolineage_post_rollout/formal_review.py:2093-2097 | the first position of a phase, absent exactly when the task does not list it |
| Annotation.RetryEvents | src/robolineage_post_rollout/formal_review.py:1015-1045 | the pass with a running furthest segment reports exactly the retries |
| Annotation.FurthestIsFirstPeak | src/robolineage_post_rollout/formal_review.py:1015-1045 | the segment compared with is the first one in the furthest known phase so far |
| Annotation.RetryMeans | src/robolineage_post_rollout/formal_review.py:1015-1062 | a retry is a return behind that segment with evidence on one of the two |
| Annotation.LabelsTell | src/robolineage_post_rollout/formal_review.py:1048-1062 | the evidence labels are empty exactly when neither segment shows evidence |
| Annotation.ApplyVlmPhaseCorrections | src/robolineage_post_rollout/formal_review.py:1238-1267 | corrections applied one after the other in a loop, later ones winning, as specified |
| Annotation.ApplyReview | src/robolineage_post_rollout/formal_review.py:228-262 | a completed review is applied to the working timeline, retries and outcome, unless blocked |
| Annotation.CollectReviews | src/robolineage_post_rollout/formal_review.py:186-226 | packet replies are completed from their packet, and failed packets are dropped |
| Annotation.Annotate | src/robolineage_post_rollout/formal_review.py:170-329 | every path through the agent returns the specified annotation |
| ReviewLaws.CollectedAdds | src/robolineage_post_rollout/formal_review.py:186-226 | replies are collected packet by packet: completed, or nothing for a failed call or a reply that says it failed |
| ReviewLaws.CompletedExactly | src/robolineage_post_rollout/formal_review.py:186-226 | a reply keeps what it says and takes number, purpose and status from its packet only where silent |
| ReviewLaws.StoredReviewExactly | src/robolineage_post_rollout/formal_review.py:170-262 | which review is stored on each path, judged by which frames, and when the VLM counts as failed |
| OutcomeLaws.InitialPointExactly | src/robolineage_post_rollout/formal_review.py:819-867 | a point has the raw visual phase if and only if that is another task phase and is believed (earlier than a terminal label, confident enough, or on a flagged or high-risk snapshot), with the note that says why |
| OutcomeLaws.RetryExactly | src/robolineage_post_rollout/formal_review.py:1015-1062 | the retries are exactly the segments earlier in the task than the first furthest one before them, one of the two suspect; each event tells both segments and every sign |
| OutcomeLaws.TerminalEvidenceExactly | src/robolineage_post_rollout/formal_review.py:1065-1111 | which terminal evidence is reported: a supported segment, else a final observation, else a sight in the last three snapshots, the latest of its kind |
| OutcomeLaws.DeterministicOutcomeExactly | src/robolineage_post_rollout/formal_review.py:1114-1176 | status, success, final phase, confidence and terminal flag of the deterministic outcome, from timeline, retries and evidence |
| OutcomeLaws.EmptyOutcomeExactly | src/robolineage_post_rollout/formal_review.py:1114-1134 | the outcome without any snapshot |
| OutcomeLaws.VlmOutcomeExactly | src/robolineage_post_rollout/formal_review.py:1179-1235 | every field of the outcome after a review, blocked or not |
| OutcomeLaws.FinalPhaseExactly | src/robolineage_post_rollout/formal_review.py:1270-1283 | only the last point takes the final phase of a reply, and only when the task knows it |
| AnnotationLaws.RetriesExactly | src/robolineage_post_rollout/formal_review.py:1015-1045 | the events are exactly those of the retry segments, one for each |
| AnnotationLaws.AnnotationConsistent | src/robolineage_post_rollout/formal_review.py:170-329 | on every path retry count, final segment index and numbering match the returned timeline |
| AnnotationLaws.ReviewedIsApplied | src/robolineage_post_rollout/formal_review.py:170-329 | a stored review was applied to the deterministic result, and without one that result is returned |
| AnnotationLaws.ReviewedFinalPhase | src/robolineage_post_rollout/formal_review.py:1114-1283 | an unblocked review with a known final phase fixes the last segment, the final phase and the terminal flag together |
| AnnotationLaws.DeterministicSuccessExactly | src/robolineage_post_rollout/formal_review.py:1065-1134 | a pass succeeds exactly when the last segment is terminal, or a supported terminal segment, a final observation of the terminal phase, or a sight of it in the last three snapshots exists |
| AnnotationLaws.LastCorrectionWins | src/robolineage_post_rollout/formal_review.py:1238-1267 | a point takes the label of the last correction that applies to its frame, and without one it is unchanged |
| OutcomeLaws.CorrectedPointExactly | src/robolineage_post_rollout/formal_review.py:1238-1267 | the corrections of a reply relabel exactly the points they name, the last one deciding |
| AnnotationLaws.FinalSuccessExactly | src/robolineage_post_rollout/formal_review.py:1179-1235 | final success of a reviewed rollout, as an if-and-only-if over verdict, coverage and the two deterministic passes |
| AnnotationLaws.UncoveredFailureCannotOverrule | src/robolineage_post_rollout/formal_review.py:228-237 | an uncovered failure verdict leaves timeline and success standing, status uncertain, confidence within 0.45 and 0.65 |
| AnnotationLaws.UncoveredFailureCanPromote | src/robolineage_post_rollout/formal_review.py:1179-1283 | an uncovered failure verdict naming the terminal phase makes a deterministic failure a success |
| ReviewExamples.FailureVerdictPromotes | src/robolineage_post_rollout/formal_review.py:265-301 | a concrete rollout and reply: the deterministic pass fails, the VLM reports failure, the outcome is a success |
| AnnotationLaws.RevisionKeepsObservations | src/robolineage_post_rollout/formal_review.py:1238-1283 | no reply adds, drops or alters an observation, only phase labels and their provenance |
| AnnotationLaws.AlarmsExactly | src/robolineage_post_rollout/formal_review.py:170-329 | whatever is relabelled, the timeline is alarming exactly when a snapshot was, and shows every such frame |
| AnnotationLaws.AnnotationConservesTotals | src/robolineage_post_rollout/formal_review.py:170-329 | on every path the timeline counts each recorded review flag and imminent failure once, and no more time than the rollout took |
| AnnotationLaws.ConfidenceIsProbability | src/robolineage_post_rollout/formal_review.py:1114-1210 | the reported confidence lies in the unit interval for every reply |
| Governance.Decide | src/robolineage_post_rollout/formal_review.py:389-500 | the decision cascade returns the specified admission |
| AdmissionLaws.SegmentEventsExactly | src/robolineage_post_rollout/formal_review.py:335-383 | one failure event for each segment with a reason, in order, told from the segment |
| AdmissionLaws.MergedEventsExactly | src/robolineage_post_rollout/formal_review.py:1326-1377 | the events a reply reports that name a task phase or none are appended |
| AdmissionLaws.AnalysisExactly | src/robolineage_post_rollout/formal_review.py:335-383 | the analysis counts exactly the kept events and those recovered |
| AdmissionLaws.DecisionExactly | src/robolineage_post_rollout/formal_review.py:389-500 | each of the four decisions as an if-and-only-if over snapshots, outcome and failures, the number of marked snapshots among them |
| AdmissionLaws.ClassExactly | src/robolineage_post_rollout/formal_review.py:389-500 | each of the classes as an if-and-only-if |
| AdmissionLaws.AdmissionFieldsExactly | src/robolineage_post_rollout/formal_review.py:389-500 | confidence, use for training and review flag of the admission |
| Governance.DedupeKeepsFirsts | src/robolineage_post_rollout/formal_review.py:2186-2200 | the failure events kept are exactly the first of their type, phase and span: no two share a key and no key is lost |
| AdmissionLaws.KeptEventsExactly | src/robolineage_post_rollout/formal_review.py:2186-2200 | exactly the events that repeat no earlier type, phase and span are kept, in order |
| Governance.RunReview | src/robolineage_post_rollout/formal_review.py:522-551 | annotation, failure analysis and admission in sequence |
| Governance.AcceptedIsFinalSuccess | src/robolineage_post_rollout/formal_review.py:389-500 | a rollout is admitted for training exactly when its reviewed outcome is a success |
| Governance.UncoveredFailureIsReviewed | src/robolineage_post_rollout/formal_review.py:389-428 | an uncovered failure verdict against a deterministic success: needs review, still accepted for training |
| Governance.CleanSuccessHasNoAlarm | src/robolineage_post_rollout/formal_review.py:335-500 | the clean-success class implies that no snapshot was high risk or imminent |
| Governance.OnlyTheEndStaysUnrecovered | src/robolineage_post_rollout/formal_review.py:1299-1323 | in a success only the final segment can carry an unrecovered failure of its own |
| ReviewWorker.Worker.Claim | src/robolineage_post_rollout/worker.py:58-62 | the locked part of enqueue: refused exactly when the path is outstanding |
| ReviewWorker.Worker.Get | src/robolineage_post_rollout/worker.py:99-99 | takes the oldest item and nothing else |
| ReviewWorker.Worker.RemoveName | src/robolineage_post_rollout/worker.py:107-108 | drops the first occurrence of the name, if any |
| ReviewWorker.Worker.Mark | src/robolineage_post_rollout/worker.py:105-108 | shows the job as current and takes its name off the list |
| ReviewWorker.Worker.Release | src/robolineage_post_rollout/worker.py:126-129 | discards the path and the first occurrence of its name |
| ReviewWorker.Worker.IsIdle | src/robolineage_post_rollout/worker.py:89-95 | true exactly with an empty queue, no current rollout and nothing outstanding |
| ReviewWorker.StepInv | src/robolineage_post_rollout/worker.py:56-130 | every step keeps: outstanding paths are the disjoint union of those in transit, queued and held; order, history and stop bookkeeping |
| ReviewWorker.ReachableInv | src/robolineage_post_rollout/worker.py:41-130 | the invariant holds in every reachable state |
| ReviewWorkerLaws.IdleIsSound | src/robolineage_post_rollout/worker.py:56-130 | when the idle test is true, every accepted enqueue was reviewed, failed, or was abandoned after a stop, and nothing is left |
| ReviewWorkerLaws.ReviewsInPutOrder | src/robolineage_eval/worker.py:65-156 | agent runs follow the put order with the arguments put; what was handled is a prefix of what was put |
| ReviewWorkerLaws.AtMostOneRun | src/robolineage_post_rollout/worker.py:56-130 | each accepted enqueue leads to at most one run and no path is outstanding twice |
| ReviewWorkerLaws.LiveWorkerBecomesIdle | src/robolineage_post_rollout/worker.py:80-130 | each step of a live worker lowers a measure, a step is possible while it is positive, and at zero the worker is idle |
| ReviewWorkerLaws.StepNames | src/robolineage_post_rollout/worker.py:56-130 | an exact list of queued names stays exact in every step except the release of a job with a listed namesake |
| ReviewWorkerLaws.NamesExactIffNoneDropped | src/robolineage_post_rollout/worker.py:56-130 | over every run the list is exact throughout if and only if no job was released while another of its name was listed |
| ReviewWorkerLaws.QueuedNamesExact | src/robolineage_post_rollout/worker.py:61-62 | while namesakes are never outstanding together the list names exactly the jobs not taken up, and the second removal drops nothing |
| ReviewWorkerLaws.SharedNameIsDropped | src/robolineage_post_rollout/worker.py:126-129 | two paths with one base name: releasing the first removes the name of the second |
| ReviewWorkerLaws.CurrentIsExact | src/robolineage_post_rollout/worker.py:97-130 | the rollout shown as current is the one handled or, otherwise, the last one released if it was abandoned |
| ReviewWorkerLaws.StrandedExactly | src/robolineage_post_rollout/worker.py:109-130 | a dead worker shows a current rollout if and only if the last job it released was abandoned |
| ReviewWorkerLaws.StrandedReachable | src/robolineage_post_rollout/worker.py:109-130 | a run that reaches such a state |
| ReviewWorkerLaws.NeverIdleUntilCleared | src/robolineage_post_rollout/worker.py:89-123 | from a state that shows a current rollout the idle test is false in every execution until a run has ended and cleared it, restarts included |
| ReviewWorkerLaws.SentinelsLeftExactly | src/robolineage_post_rollout/worker.py:41-54 | the sentinels in the queue number those put less those taken, so one is left behind if and only if more were put |
| ReviewWorkerLaws.OneSentinelPerStop | src/robolineage_post_rollout/worker.py:41-54 | in every execution the sentinels put and still owed number the stops |
| ReviewWorkerLaws.RestartEndsExactly | src/robolineage_post_rollout/worker.py:97-103 | a restarted worker ends at its first take if and only if a sentinel heads the queue, and otherwise takes the oldest job |
| ReviewWorkerLaws.StaleSentinelBoundsRuns | src/robolineage_post_rollout/worker.py:97-130 | with a sentinel waiting, the worker starts no more than the jobs ahead of it until it is started again, whatever arrives |
| ReviewWorkerLaws.StaleSentinelReachable | src/robolineage_post_rollout/worker.py:41-54 | a dead worker with a sentinel at the head of its queue is reachable |
| SessionProtocol.Runtime.StartVsa | src/robolineage_app/runtime.py:1946-1968 | refusals in the order checked, a live thread among them; without a task refused or skipped; otherwise the run is active and the open session lists it last |
| SessionProtocol.Runtime.StopVsa | src/robolineage_app/runtime.py:1587-1604 | the active run moves to draining |
| SessionProtocol.Runtime.CompleteVsaRun | src/robolineage_app/runtime.py:2215-2249 | the run leaves the draining runs, and the active slot if it holds it |
| SessionProtocol.Runtime.StartGroup | src/robolineage_app/runtime.py:2731-2750 | refused with an open session or a live finalizer |
| SessionProtocol.Runtime.StopGroup | src/robolineage_app/runtime.py:2752-2774 | stops the active run if its thread is alive and starts finalizing, or refuses and changes nothing |
| SessionProtocol.EnqueuedMissingSound | src/robolineage_app/runtime.py:2847-2868 | after the loop every existing rollout not skipped has been handed to the worker, now or before |
| SessionProtocol.StepInv | src/robolineage_app/runtime.py:2731-2868 | every runtime, finalizer and worker step keeps the invariant of the composed system |
| SessionProtocol.SessionMatchesHistory | src/robolineage_app/runtime.py:2731-2894 | the open session lists exactly the rollouts started since it was opened, the listed runs with a thread are those started and not ended, and each session opened is closed once |
| SessionProtocol.RequestsAcceptedExactly | src/robolineage_app/runtime.py:2731-2774 | a start, a session start and a session stop are accepted exactly as the history of runs and sessions allows |
| SessionProtocol.SummaryIsSafe | src/robolineage_app/runtime.py:2776-2838 | when a summary is written every run started has ended, and with a worker every rollout started in the session has review artifacts or its review failed |
| SessionProtocol.DrainBound | src/robolineage_app/runtime.py:1946-1959 | active plus draining runs never exceed 100 |
| SessionProtocol.DrainProgress | src/robolineage_app/runtime.py:2251-2263 | while finalizing no step adds a run and each completion removes one; at zero the wait can end |
| SessionProgress.StartAnswerExactly | src/robolineage_app/runtime.py:1946-1968 | which answer a start gets, by the first test that applies |
| SessionProgress.GroupAnswersExactly | src/robolineage_app/runtime.py:2731-2774 | which answer the start and the stop of a session get |
| SessionProgress.StopsExactly | src/robolineage_app/runtime.py:1587-1604 | a stop empties the active slot and loses no run; the stop of a session does so only for a run with a thread |
| SessionProgress.EndedRunIsHanded | src/robolineage_app/runtime.py:2215-2249 | a run that ends and asks for its review leaves its rollout with the worker of its kind, and touches no other |
| SessionProgress.StagesInOrder | src/robolineage_app/runtime.py:2776-2838 | the finalizer goes through its stages one by one and nothing else moves it |
| SessionProgress.SummaryReachableExactly | src/robolineage_app/runtime.py:2251-2838 | an open session can be brought to its summary if and only if no draining run has lost its thread before the drain was over |
| MasterQueue.Queue.Enqueue | src/robolineage_app/runtime.py:520-569 | debounced against a running job in the window, then against a pending job, else appended |
| MasterQueue.Queue.Pop | src/robolineage_app/runtime.py:573-579 | the oldest pending job becomes the running one |
| MasterQueue.StepInv | src/robolineage_app/runtime.py:493-593 | every step keeps distinct pending keys and the order of the histories, which only grow |
| MasterQueue.QueueDiscipline | src/robolineage_app/runtime.py:510-593 | pending keys are distinct, popped jobs followed by pending ones are the queued ones, and the worker exits only with nothing pending |
| MasterQueue.RequestExactly | src/robolineage_app/runtime.py:510-569 | a request is dropped exactly inside the window of a running review of its key or while its key is pending, and queued last otherwise |
| MasterQueue.WorkerRunsUntilStopped | src/robolineage_app/runtime.py:493-579 | a started worker goes on until a later stop, whatever stops came before |
| MasterQueue.EveryRequestIsServed | src/robolineage_app/runtime.py:510-593 | every request is inside the window of a running review of its key or served by one queued job of its key not yet popped |
| MasterQueue.LeftWithoutWorkerExactly | src/robolineage_app/runtime.py:493-593 | for a queued request and no later call for a worker: whenever the worker is gone, the job was popped if and only if the worker was alive at the append, and a worker gone at the append stays gone |
| MasterQueue.RequestCanMissTheWorker | src/robolineage_app/runtime.py:493-569 | the bad case is reachable |
| MasterQueue.OnlyEnsureWorkerRevives | src/robolineage_app/runtime.py:493-508 | a dead worker stays dead and pops nothing until a worker is asked for again |
| SnapshotTail.SnapshotWatcher.ReadLine | src/robolineage_session/snapshot_watcher.py:21-45 | the position after the next newline, or the end of the text |
| SnapshotTail.SnapshotWatcher.Poll | src/robolineage_session/snapshot_watcher.py:21-45 | one pass stops at the last complete line and yields exactly the records of the lines it passed |
| SnapshotTail.RunAppends | src/robolineage_session/snapshot_watcher.py:21-45 | reading changes no text: the file is what was appended, in order |
| SnapshotTail.RecordsSplit | src/robolineage_session/snapshot_watcher.py:21-45 | the records of complete lines do not depend on where the text is divided between lines |
| SnapshotTail.TailMatchesPrefix | src/robolineage_session/snapshot_watcher.py:21-45 | after any appends and reads the offset is a line boundary and the records yielded are exactly those before it |
| SnapshotTail.CaughtUpMatchesFile | src/robolineage_session/snapshot_watcher.py:21-45 | a reader that has caught up has yielded the records of one read of the whole file |
| SnapshotTail.CutsDoNotMatter | src/robolineage_session/snapshot_watcher.py:21-45 | two ways of cutting the same file yield the same records |
| SnapshotTail.ReadProgress | src/robolineage_session/snapshot_watcher.py:21-45 | a read advances the offset until the reader has caught up |
| SnapshotTail.BatchSeesTheFragment | src/robolineage_post_rollout/formal_review.py:604-621 | the batch loader agrees with the tail reader exactly when the unfinished last line is no valid record |
| SnapshotTail.TailReadsLog | src/robolineage_session/snapshot_watcher.py:21-45 | the tail reader yields every row the writer appended |
| SnapshotTail.BatchReadsIntactRows | src/robolineage_post_rollout/formal_review.py:604-621 | the batch loader returns exactly the rows whose line holds no further separator |
| SnapshotTail.ReadersAgreeExactly | src/robolineage_post_rollout/formal_review.py:611-620 | on every log the writer produced the two readers agree if and only if no row holds a further separator, and otherwise the batch loader returns strictly fewer |
| DatasetVersions.VersionRoundTrip | src/robolineage_dataset/version.py:9-19 | parsing a rendered version gives it back, and the next id is one higher |
| DatasetVersions.VersionIdInjective | src/robolineage_dataset/version.py:16-19 | different versions have different ids |
| DatasetVersions.ParseVersionExactly | src/robolineage_dataset/version.py:9-13 | exactly the ids made of v, any zeros and the decimal digits of a number parse, and as that number |
| DatasetVersions.ManifestRoundTrip | src/robolineage_dataset/updater.py:71-92 | a manifest reads back as written exactly when no entry holds a line separator; otherwise reading fails |
| DatasetVersions.ReadJsonlLine | src/robolineage_dataset/updater.py:71-92 | a manifest is read line by line: blank lines are skipped, one that does not decode makes the file unreadable |
| DatasetVersions.MergeManifestEntries | src/robolineage_dataset/updater.py:81-86 | the dictionary filled in a loop and sorted is the specified merge |
| DatasetVersions.MergedExactly | src/robolineage_dataset/updater.py:81-86 | the merge is the only list sorted by distinct ids, with exactly the ids given, each with its last entry |
| DatasetVersions.MergeInSteps | src/robolineage_dataset/updater.py:81-86 | merging in steps equals one merge of everything |
| DatasetVersions.MergeIsAssociative | src/robolineage_dataset/updater.py:81-86 | the merge is associative |
| DatasetChain.Datasets.Update | src/robolineage_dataset/updater.py:18-51 | writes the next version over the base, or refuses and changes nothing |
| DatasetChain.Datasets.LatestDatasetLock | src/robolineage_train/lifecycle.py:387-405 | the loop finds the specified latest lock among the listed directories |
| DatasetChain.LatestIsHighest | src/robolineage_train/lifecycle.py:387-405 | no listed locked version has a higher number than the one chosen |
| DatasetChain.LatestExactly | src/robolineage_train/lifecycle.py:387-405 | among the listed directories with the highest number the last one is chosen |
| DatasetChain.Datasets.AdaptData | src/robolineage_train/lifecycle.py:107-132 | a training run updates on top of the lock it is given, or of the latest one |
| DatasetChain.LatestOfChain | src/robolineage_train/lifecycle.py:387-405 | on a chain the latest lock is vn, however directories are listed |
| DatasetChain.UpdateOnChain | src/robolineage_dataset/updater.py:26-51 | on version k of n: collides exactly when k < n, unreadable exactly for entries with line separators, else writes v(n+1) |
| DatasetChain.AdaptedExtendsChain | src/robolineage_train/lifecycle.py:107-132 | a training run appends one version if and only if it builds on the newest and its entries fit the line format; otherwise it changes nothing |
| DatasetChain.RunsGiveTheChain | src/robolineage_train/lifecycle.py:107-132 | from no locks any training runs, on the latest lock or on one given from the root, produce v1..vn, each based on its predecessor, each the last-wins merge of all accepted submissions so far |
| DatasetChain.ChainLockIsValid | src/robolineage_contracts/pipeline/dataset.py:35-53 | no chain lock repeats an id and its total counts its ids, so its constructor accepts it |
| DatasetChain.DiffIsExact | src/robolineage_dataset/diff.py:17-27 | the new ids are the old less removed plus added, both sorted, and the totals differ by their counts |
| DatasetChain.ChainOnlyGrows | src/robolineage_dataset/diff.py:17-27 | along a chain nothing is ever removed and the totals grow by the ids added |
| DatasetChain.VersionHoldsEverySubmission | src/robolineage_dataset/updater.py:30-44 | a version includes exactly the ids of the submissions up to it |
| Selection.SelectedExactly | src/robolineage_train/lifecycle.py:275-291 | the selection is the only sorted list of exactly the passing rollouts, whatever order the directory is listed in |
| Selection.PassesExactly | src/robolineage_train/lifecycle.py:275-291 | a rollout passes exactly as a directory asked for whose admission accepts it, or names one of the decisions without saying either |
| Selection.DefaultDecisionsExactly | src/robolineage_app/runtime.py:1245-1249 | without a word on training the default admits exactly the decision to accept, and a request that names decisions is taken at its word |
| Selection.BuildTrainManifest | src/robolineage_train/lifecycle.py:268-312 | entries for exactly the selection with the stored confidence or one half, or an error naming the first selected rollout whose confidence is not in the unit interval |
| Selection.PostReviewCount | src/robolineage_train/lifecycle.py:315-338 | the count is the size of the same selection |
| Selection.SelectRollouts | src/robolineage_train/framework_adapter.py:1204-1241 | the rows are exactly the same selection, with the stored decision |
| Selection.CreateTrainingSelection | src/robolineage_app/runtime.py:1243-1307 | the loop keeps the requested order: the usable ids, and the others with their reasons |
| Selection.RequestedExactly | src/robolineage_app/runtime.py:1260-1280 | the ids a request names, directly or by its sessions |
| Selection.RequestedOrder | src/robolineage_app/runtime.py:1260-1280 | they are considered in the order named, each once |
| Selection.UsableExactly | src/robolineage_app/runtime.py:1281-1307 | usable exactly when its admission accepts it, or names one of the decisions without saying either, and its raw artifacts are there or waived |
| Selection.RejectionExactly | src/robolineage_app/runtime.py:1281-1307 | the reason: acceptable without raw artifacts, refused for training, or in every other case an excluded decision |
| Selection.RequestIsSplit | src/robolineage_app/runtime.py:1260-1307 | each requested rollout is selected exactly when trainable with raw artifacts or the waiver, else rejected with the reason that applies, never both or twice |
| Selection.SelectionIsReproduced | src/robolineage_app/runtime.py:1260-1307 | building the manifest from the selection returns its ids sorted if and only if each is an entry of the rollouts root |
| Selection.TrainedExactlyOnSuccesses | src/robolineage_train/lifecycle.py:268-312 | with admissions written by reviews the selection is exactly the requested rollouts whose final outcome is a success, for all decision filters |
| Selection.ReviewedConfidencesFit | src/robolineage_train/lifecycle.py:296-306 | reviewed rollouts never make the manifest build fail on a confidence |
| Ownership.FindOwner | scripts/check_ownership.py:136-144 | the loop returns the owner of the best rule |
| Ownership.BestIsFirstLongest | scripts/check_ownership.py:136-144 | that rule is the first among the longest matching ones, absent exactly when no nonempty prefix matches |
| Ownership.CheckConflicts | scripts/check_ownership.py:105-116 | rules are accepted exactly when no prefix has two owners; a refusal names such a prefix |
| Ownership.OwnerIgnoresOrder | scripts/check_ownership.py:105-144 | once accepted, reordering or repeating rules changes no owner |
| Ownership.OrderDecidesAmbiguity | scripts/check_ownership.py:136-144 | without the check the first of two equal prefixes decides |
| Ownership.ModuleOwner | scripts/check_contracts_imports.py:174-179 | the search over ever shorter paths always equals the owner of the most specific one |
| Ownership.PathPrefixExactly | scripts/check_contracts_imports.py:156-171 | the path looked up for a module is its first parts joined by slashes |
| Ownership.LongerPathIsOwned | scripts/check_contracts_imports.py:156-179 | a path that extends an owned path is owned |

## Left out

- Reply parsing, prompts and image files: a VLM reply is an arbitrary value of a datatype whose fields may be absent or null; values of the wrong JSON type, on which some conversions raise, are not modelled.
- Free text: reasoning strings, admission reason lists, severities, the report, and the text classification of a failure (any classifier).
- Phase names are compared by identity; unknown phases are one value.
- Display lists that the code sorts and dedupes only for output (risks, labels) are sets or flags.
- Floating point: timestamps and confidences are reals, and not-a-number does not exist.
- Which file is read for a frame that has several images; loading a frame is an arbitrary yes or no.
- ReviewImages.SelectionCoversTerminals: about the single prompt; packet mode is `PacketCoverage`.
- Worker fields for the last result and last error, idle delays and timeouts; a bounded wait may give up, which is not a state change.
- Two threads calling a worker's start at once, which the code does not guard.
- SessionProtocol.StepInv: interleavings inside a single runtime operation or finalizer stage, including the moment between the summary being marked completed and the session being cleared.
- Deleted rollout directories, and review workers that are stopped while a session finalizes.
- DatasetChain.RunsGiveTheChain: the base locks given to its runs are versions of the same root; a single update (`DatasetChain.Datasets.Update`) takes any base.
- SnapshotTail.SnapshotWatcher.Poll: works on decoded text; byte decoding, newline translation and polling delays are not modelled, and the loader's final sort by time is not part of the comparison.
- Version ids with non-ASCII digits or a trailing newline, which the pattern of `parse_version` also accepts.
- The manifest digest, creation time and changelog of a lock; the three files of a version appear in one step.
- Selection.PostReviewCount: the failure-type and data-use tallies, which count over the same selection.
- Selection.SelectRollouts: the failure candidate count, whose integer conversion can raise.
- A rollouts root that does not exist, and paths resolved outside of it except as ids that lead to a directory.
- Reading OWNERSHIP.yaml and the shared-path patterns; importer scanning and its whitelist.
- HTTP routes, the web interface, recorders, process launching, framework discovery, deployment thresholds and dataset health: input and output, or single comparisons.
