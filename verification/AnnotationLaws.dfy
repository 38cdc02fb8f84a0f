/** What holds of every annotation, whichever way the VLM was consulted. */
module AnnotationLaws {
  import opened Common
  import opened ReviewData
  import opened Timeline
  import opened Segments
  import opened PacketVerdict
  import opened Annotation

  // ------------------------------------------------------------------- retries

  /** The retry list has one event for each returning segment, and nothing else. */
  lemma {:induction false} RetriesExactly(timeline: seq<Segment>, phases: seq<Phase>, n: nat)
    requires n <= |timeline|
    ensures forall event :: event in RetriesUpTo(timeline, phases, n) <==>
      exists k :: 0 <= k < n && IsRetry(timeline, phases, k) && event == RetryAt(timeline, phases, k)
    ensures |RetriesUpTo(timeline, phases, n)| == |set k | 0 <= k < n && IsRetry(timeline, phases, k)|
  {
    hide IsRetry, RetryAt;
    if n > 0 {
      RetriesExactly(timeline, phases, n - 1);
      var before := set k | 0 <= k < n - 1 && IsRetry(timeline, phases, k);
      var after := set k | 0 <= k < n && IsRetry(timeline, phases, k);
      if IsRetry(timeline, phases, n - 1) { assert after == before + {n - 1}; } else { assert after == before; }
    }
  }

  // --------------------------------------------------------------- consistency

  /** The outcome of a pass over some points agrees with the timeline of that pass. */
  ghost predicate Consistent(e: Evidence, r: AnnotationResult) {
    && r.retries == Retries(r.timeline, e.phases)
    && r.outcome.retryCount == |r.retries|
    && r.outcome.terminalPhase == e.Terminal()
    && r.outcome.finalSegmentIndex == (if r.timeline == [] then None else Some(|r.timeline| - 1))
    && (forall k :: 0 <= k < |r.timeline| ==> r.timeline[k].index == k)
  }

  lemma DeterministicConsistent(e: Evidence, points: seq<Point>)
    ensures Consistent(e, Deterministic(e, points))
    ensures points == [] <==> Deterministic(e, points).timeline == []
    ensures points == [] ==> !Deterministic(e, points).outcome.finalSuccess
  {
    hide Retries, PhaseTimeline, FindTerminalEvidence;
    TimelineEnds(points, e.Terminal());
  }

  /** The points the review works on after a reply's corrections. */
  function RevisedPoints(e: Evidence, reply: Reply): seq<Point> {
    WithFinalPhase(PhaseCorrected(InitialPoints(e), reply, e.phases), reply, e.phases)
  }

  lemma {:induction false} CorrectedLength(points: seq<Point>, corrections: seq<Correction>, phases: seq<Phase>)
    ensures |Corrected(points, corrections, phases)| == |points|
  {
    if corrections != [] {
      CorrectedLength(points, corrections[..|corrections| - 1], phases);
    }
  }

  lemma RevisedLength(e: Evidence, reply: Reply)
    ensures |RevisedPoints(e, reply)| == |e.records|
  {
    if reply.corrections.Some? {
      CorrectedLength(InitialPoints(e), reply.corrections.value, e.phases);
    }
  }

  lemma AppliedConsistent(e: Evidence, reply: Reply, covers: bool)
    ensures var r := Applied(e, Deterministic(e, InitialPoints(e)), reply, covers);
      Consistent(e, r) && (r.timeline == [] <==> e.records == [])
  {
    hide Retries, PhaseTimeline, DetermineOutcome, PhaseCorrected;
    RevisedLength(e, reply);
    DeterministicConsistent(e, InitialPoints(e));
    DeterministicConsistent(e, RevisedPoints(e, reply));
  }

  /** A finished VLM review, wherever it came from, was applied to the deterministic result. */
  lemma ReviewedIsApplied(e: Evidence, s: Settings, oracle: Oracle)
    ensures var r, base := AnnotationOf(e, s, oracle), Deterministic(e, InitialPoints(e));
      if r.review.Reviewed? then e.records != [] && r == Applied(e, base, r.review.reply, r.review.covers)
      else r == base.(review := r.review, vlmFailed := r.vlmFailed)
  {
    hide Deterministic, Aggregate, Covers, Applied, CompletedReviews, Packets.PacketsToReview, Images.Loaded,
      Images.SelectedFrames, InitialPoints;
    var base := Deterministic(e, InitialPoints(e));
    DeterministicUnreviewed(e, InitialPoints(e));
    if s.useVlm && e.records != [] {
      var packets := Packets.PacketsToReview(e, s.maxImages, s.readable);
      var reviews := CompletedReviews(packets, oracle);
      if packets != [] && reviews != [] {
        AppliedStoresReview(e, base, Aggregate(reviews, e.Terminal(), base.outcome.finalPhase),
          Covers(e, packets[0].imageFrames));
      } else if packets == [] && oracle.single.Answered? {
        var shown := Images.Loaded(Images.SelectedFrames(e, s.maxImages), e.images, s.readable);
        AppliedStoresReview(e, base, oracle.single.reply, Covers(e, shown));
      }
    }
  }

  lemma DeterministicUnreviewed(e: Evidence, points: seq<Point>)
    ensures Deterministic(e, points).review == NoReview
  {
  }

  lemma AppliedStoresReview(e: Evidence, base: AnnotationResult, reply: Reply, covers: bool)
    ensures Applied(e, base, reply, covers).review == Reviewed(reply, covers)
  {
  }

  /** On every path the retry count, the final segment index and the numbering match the timeline
      that is returned, and the timeline is empty only for an empty rollout. */
  lemma AnnotationConsistent(e: Evidence, s: Settings, oracle: Oracle)
    ensures var r := AnnotationOf(e, s, oracle);
      && Consistent(e, r)
      && (r.timeline == [] <==> e.records == [])
      && (r.outcome.finalSuccess ==> e.records != [])
  {
    hide AnnotationOf, Applied, Deterministic;
    var r := AnnotationOf(e, s, oracle);
    ReviewedIsApplied(e, s, oracle);
    DeterministicConsistent(e, InitialPoints(e));
    if r.review.Reviewed? {
      AppliedConsistent(e, r.review.reply, r.review.covers);
    }
  }

  // ------------------------------------------------------------ terminal evidence

  ghost predicate Supports(s: Segment, terminal: Phase, anchors: set<int>) {
    s.phase == terminal && (FinalObservation in s.triggers || exists f :: f in s.evidenceFrames && f in anchors)
  }

  lemma {:induction false} SegmentSearch(timeline: seq<Segment>, terminal: Phase, anchors: set<int>, n: nat)
    requires n <= |timeline|
    ensures TerminalSegment(timeline, terminal, anchors, n).Some? <==>
      exists k :: 0 <= k < n && Supports(timeline[k], terminal, anchors)
  {
    if n > 0 {
      SegmentSearch(timeline, terminal, anchors, n - 1);
      assert Supports(timeline[n - 1], terminal, anchors) ==> TerminalSegment(timeline, terminal, anchors, n).Some?;
    }
  }

  ghost predicate ObservesRaw(r: Record, terminal: Phase) {
    r.trigger == FinalObservation && r.rawPhase == Some(terminal)
  }

  lemma {:induction false} RawSearch(records: seq<Record>, terminal: Phase, n: nat)
    requires n <= |records|
    ensures RawObservation(records, terminal, n).Some? <==>
      exists k :: 0 <= k < n && ObservesRaw(records[k], terminal)
  {
    if n > 0 {
      RawSearch(records, terminal, n - 1);
      assert ObservesRaw(records[n - 1], terminal) ==> RawObservation(records, terminal, n).Some?;
    }
  }

  lemma {:induction false} TrailingSearch(records: seq<Record>, terminal: Phase, n: nat, left: nat)
    requires n <= |records|
    ensures TrailingObservation(records, terminal, n, left).Some? <==>
      exists k :: 0 <= k && n - left <= k < n && records[k].rawPhase == Some(terminal)
  {
    if n > 0 && left > 0 {
      TrailingSearch(records, terminal, n - 1, left - 1);
      assert records[n - 1].rawPhase == Some(terminal) ==> TrailingObservation(records, terminal, n, left).Some?;
    }
  }

  /** What counts as evidence that the task ended although the last segment is not terminal: a terminal
      segment a final observation supports, a final observation that saw the terminal phase, or a sight of
      it among the last three snapshots. */
  ghost predicate EndSeen(e: Evidence, timeline: seq<Segment>, terminal: Phase) {
    || (exists k :: 0 <= k < |timeline| && Supports(timeline[k], terminal, FinalObservationAnchors(e.windows)))
    || (exists k :: 0 <= k < |e.records| && ObservesRaw(e.records[k], terminal))
    || (exists k :: 0 <= k && |e.records| - 3 <= k < |e.records| && e.records[k].rawPhase == Some(terminal))
  }

  /** Deterministic success, exactly. */
  lemma DeterministicSuccessExactly(e: Evidence, points: seq<Point>)
    ensures var r := Deterministic(e, points);
      r.outcome.finalSuccess <==>
        && r.timeline != [] && e.Terminal().Some?
        && (Last(r.timeline).phase == e.Terminal().value || EndSeen(e, r.timeline, e.Terminal().value))
  {
    hide PhaseTimeline, Retries, TerminalSegment, RawObservation, TrailingObservation, Supports, ObservesRaw, Round3;
    var timeline := PhaseTimeline(points, e.Terminal());
    if e.Terminal().Some? {
      var terminal := e.Terminal().value;
      SegmentSearch(timeline, terminal, FinalObservationAnchors(e.windows), |timeline|);
      RawSearch(e.records, terminal, |e.records|);
      TrailingSearch(e.records, terminal, |e.records|, 3);
    }
  }

  // --------------------------------------------------------------- final phase

  ghost function Revised(e: Evidence, reply: Reply): AnnotationResult {
    Deterministic(e, RevisedPoints(e, reply))
  }

  lemma RevisedEndsInFinalPhase(e: Evidence, reply: Reply)
    requires e.records != [] && reply.finalPhase.Some? && reply.finalPhase.value in e.phases
    ensures var timeline := Revised(e, reply).timeline;
      timeline != [] && Last(timeline).phase == reply.finalPhase.value
  {
    hide PhaseTimeline, PhaseCorrected, Retries, DetermineOutcome;
    RevisedLength(e, reply);
    TimelineEnds(RevisedPoints(e, reply), e.Terminal());
  }

  /** A review with a known final phase that is blocked neither before nor after the recomputation
      fixes the last segment, the final phase and the terminal flag together. */
  lemma ReviewedFinalPhase(e: Evidence, s: Settings, oracle: Oracle)
    ensures var r, base := AnnotationOf(e, s, oracle), Deterministic(e, InitialPoints(e));
      r.review.Reviewed? && r.review.reply.finalPhase.Some? && r.review.reply.finalPhase.value in e.phases
        && !Blocked(r.review.reply, r.review.covers, base.outcome) ==>
      && r.timeline == Revised(e, r.review.reply).timeline
      && r.timeline != [] && Last(r.timeline).phase == r.review.reply.finalPhase.value
      && (!Blocked(r.review.reply, r.review.covers, Revised(e, r.review.reply).outcome) ==>
        && r.outcome.finalPhase == Last(r.timeline).phase
        && (r.outcome.terminalReached <==> Some(Last(r.timeline).phase) == e.Terminal()))
  {
    hide AnnotationOf, Deterministic;
    var r := AnnotationOf(e, s, oracle);
    ReviewedIsApplied(e, s, oracle);
    if r.review.Reviewed? && r.review.reply.finalPhase.Some? && r.review.reply.finalPhase.value in e.phases {
      RevisedEndsInFinalPhase(e, r.review.reply);
    }
  }

  // ----------------------------------------------------------- success verdicts

  /** Exactly when a reviewed rollout counts as a success: a failure verdict without full terminal
      coverage loses against a deterministic success, before or after its own corrections. */
  lemma FinalSuccessExactly(e: Evidence, s: Settings, oracle: Oracle)
    ensures var r, base := AnnotationOf(e, s, oracle), Deterministic(e, InitialPoints(e));
      r.review.Reviewed? ==>
        var verdict, revised := SuccessValue(r.review.reply), Revised(e, r.review.reply);
        r.outcome.finalSuccess <==>
          match verdict
          case Some(true) => true
          case Some(false) => !r.review.covers && (base.outcome.finalSuccess || revised.outcome.finalSuccess)
          case None => revised.outcome.finalSuccess
  {
    hide AnnotationOf, Deterministic;
    ReviewedIsApplied(e, s, oracle);
  }

  /** A failure verdict that has not seen every terminal group leaves a deterministic success standing. */
  lemma UncoveredFailureCannotOverrule(e: Evidence, s: Settings, oracle: Oracle)
    ensures var r, base := AnnotationOf(e, s, oracle), Deterministic(e, InitialPoints(e));
      r.review.Reviewed? && base.outcome.finalSuccess && SuccessValue(r.review.reply) == Some(false)
        && !r.review.covers ==>
      && r.timeline == base.timeline && r.retries == base.retries
      && r.outcome.finalSuccess && r.outcome.status == UncertainStatus
      && r.outcome.finalPhase == base.outcome.finalPhase
      && 0.45 <= r.outcome.confidence <= 0.65
  {
    hide AnnotationOf, Deterministic;
    ReviewedIsApplied(e, s, oracle);
    var base := Deterministic(e, InitialPoints(e));
    Round3KeepsBounds(Clamp(base.outcome.confidence, 0.45, 0.65), 450, 650);
  }

  /** The same guard can turn a deterministic failure into a success: an uncovered failure verdict
      that names the terminal phase first moves the rollout there and is then blocked. */
  lemma UncoveredFailureCanPromote(e: Evidence, s: Settings, oracle: Oracle)
    ensures var r, base := AnnotationOf(e, s, oracle), Deterministic(e, InitialPoints(e));
      r.review.Reviewed? && !base.outcome.finalSuccess && SuccessValue(r.review.reply) == Some(false)
        && !r.review.covers && r.review.reply.finalPhase.Some? && r.review.reply.finalPhase == e.Terminal() ==>
      r.outcome.finalSuccess && r.outcome.status == UncertainStatus
  {
    hide AnnotationOf, Deterministic;
    var r := AnnotationOf(e, s, oracle);
    ReviewedIsApplied(e, s, oracle);
    if r.review.Reviewed? && r.review.reply.finalPhase.Some? && r.review.reply.finalPhase == e.Terminal() {
      assert Last(e.phases) in e.phases;
      RevisedEndsInFinalPhase(e, r.review.reply);
      TerminalTimelineSucceeds(e, RevisedPoints(e, r.review.reply));
    }
  }

  lemma TerminalTimelineSucceeds(e: Evidence, points: seq<Point>)
    ensures var r := Deterministic(e, points);
      r.timeline != [] && Some(Last(r.timeline).phase) == e.Terminal() ==> r.outcome.finalSuccess
  {
    hide Retries, PhaseTimeline;
  }

  // ------------------------------------------------------ evidence is preserved

  /** Two points report the same observation; only the phase label and its provenance may differ. */
  ghost predicate SameObservation(p: Point, q: Point) {
    q == p.(phase := q.phase, source := q.source, corrected := q.corrected, correctionReason := q.correctionReason)
  }

  ghost predicate SameObservations(a: seq<Point>, b: seq<Point>) {
    |a| == |b| && forall i :: 0 <= i < |a| ==> SameObservation(a[i], b[i])
  }

  lemma {:induction false} CorrectedKeepsObservations(points: seq<Point>, corrections: seq<Correction>, phases: seq<Phase>)
    ensures SameObservations(points, Corrected(points, corrections, phases))
  {
    if corrections != [] {
      CorrectedKeepsObservations(points, corrections[..|corrections| - 1], phases);
    }
  }

  /** No VLM reply can add, drop or alter an observation. */
  lemma RevisionKeepsObservations(e: Evidence, reply: Reply)
    ensures SameObservations(InitialPoints(e), RevisedPoints(e, reply))
  {
    hide InitialPoints;
    if reply.corrections.Some? {
      CorrectedKeepsObservations(InitialPoints(e), reply.corrections.value, e.phases);
    }
  }

  /** The correction names a phase of the task and both ends, in either order, and the frame lies between. */
  ghost predicate Relabels(c: Correction, frame: int, phases: seq<Phase>) {
    && c.phase.Some? && c.phase.value in phases && c.start.Some? && c.end.Some?
    && (c.start.value <= frame <= c.end.value || c.end.value <= frame <= c.start.value)
  }

  /** The last of the corrections that applies to the frame, if any does. */
  ghost function LastRelabel(corrections: seq<Correction>, frame: int, phases: seq<Phase>): (k: Option<nat>)
    ensures k.None? ==> forall j :: 0 <= j < |corrections| ==> !Relabels(corrections[j], frame, phases)
    ensures k.Some? ==>
      && k.value < |corrections| && Relabels(corrections[k.value], frame, phases)
      && forall j :: k.value < j < |corrections| ==> !Relabels(corrections[j], frame, phases)
  {
    if corrections == [] then None
    else
      var n := |corrections| - 1;
      assert forall j :: 0 <= j < n ==> corrections[..n][j] == corrections[j];
      if Relabels(corrections[n], frame, phases) then Some(n) else LastRelabel(corrections[..n], frame, phases)
  }

  ghost function Relabelled(p: Point, c: Correction): Point
    requires c.phase.Some?
  {
    p.(phase := c.phase.value, source := OfflineVlm, corrected := true, correctionReason := Some(c.reason))
  }

  /** A point takes the label of the last correction that applies to its frame; without one it is unchanged. */
  lemma {:induction false} LastCorrectionWins(
    points: seq<Point>, corrections: seq<Correction>, phases: seq<Phase>, i: nat)
    requires i < |points|
    ensures |Corrected(points, corrections, phases)| == |points|
    ensures var p, q := points[i], Corrected(points, corrections, phases)[i];
      match LastRelabel(corrections, p.frameId, phases)
      case None => q == p
      case Some(k) => q == Relabelled(p, corrections[k])
  {
    hide Relabels, CorrectPoint;
    CorrectedFrame(points, corrections, phases, i);
    if corrections != [] {
      var n := |corrections| - 1;
      LastCorrectionWins(points, corrections[..n], phases, i);
      CorrectedFrame(points, corrections[..n], phases, i);
      RelabelsExactly(Corrected(points, corrections[..n], phases)[i], corrections[n], phases);
    }
  }

  lemma RelabelsExactly(p: Point, c: Correction, phases: seq<Phase>)
    ensures CorrectPoint(p, c, phases) ==
      if Relabels(c, p.frameId, phases)
      then Relabelled(p, c)
      else p
  {
  }

  lemma CorrectedFrame(points: seq<Point>, corrections: seq<Correction>, phases: seq<Phase>, i: nat)
    requires i < |points|
    ensures |Corrected(points, corrections, phases)| == |points|
    ensures Corrected(points, corrections, phases)[i].frameId == points[i].frameId
  {
    CorrectedKeepsObservations(points, corrections, phases);
  }

  /** Every annotation is made from points that report exactly the recorded observations. */
  lemma AnnotatedPoints(e: Evidence, s: Settings, oracle: Oracle)
    ensures var timeline := AnnotationOf(e, s, oracle).timeline;
      exists points :: SameObservations(InitialPoints(e), points) && timeline == PhaseTimeline(points, e.Terminal())
  {
    hide AnnotationOf, PhaseTimeline, InitialPoints, Retries, DetermineOutcome, OutcomeWithVlm, PhaseCorrected;
    var r := AnnotationOf(e, s, oracle);
    ReviewedIsApplied(e, s, oracle);
    var points := InitialPoints(e);
    assert SameObservations(points, points);
    if r.review.Reviewed? && !Blocked(r.review.reply, r.review.covers, Deterministic(e, points).outcome) {
      RevisionKeepsObservations(e, r.review.reply);
      assert r.timeline == PhaseTimeline(RevisedPoints(e, r.review.reply), e.Terminal());
    } else {
      assert r.timeline == PhaseTimeline(points, e.Terminal());
    }
  }

  ghost predicate AlarmingRecord(r: Record) { r.risk == High || r.imminentFailure }

  /** However the labels are corrected, every alarming snapshot is evidence of an alarming segment,
      and an alarming segment exists only if there was an alarming snapshot. */
  lemma AlarmsExactly(e: Evidence, s: Settings, oracle: Oracle)
    ensures var timeline := AnnotationOf(e, s, oracle).timeline;
      && (forall r :: r in e.records && AlarmingRecord(r) ==> ShowsAlarm(timeline, r.frameId))
      && ((exists g: Segment :: g in timeline && g.Alarming()) <==> (exists r :: r in e.records && AlarmingRecord(r)))
  {
    hide AnnotationOf, PhaseTimeline;
    AnnotatedPoints(e, s, oracle);
    var timeline := AnnotationOf(e, s, oracle).timeline;
    var points :| SameObservations(InitialPoints(e), points) && timeline == PhaseTimeline(points, e.Terminal());
    assert forall i :: 0 <= i < |e.records| ==> SameObservation(InitialPoints(e)[i], points[i]);
    forall r | r in e.records && AlarmingRecord(r) ensures ShowsAlarm(timeline, r.frameId) {
      var i :| 0 <= i < |e.records| && e.records[i] == r;
      EvidenceSurvives(points, e.Terminal(), i);
    }
    forall g: Segment | g in timeline && g.Alarming() ensures exists r :: r in e.records && AlarmingRecord(r) {
      AlarmHasPoint(points, e.Terminal(), g);
      var p: Point :| p in points && p.Alarming();
      var i :| 0 <= i < |points| && points[i] == p;
      assert e.records[i] in e.records && AlarmingRecord(e.records[i]);
    }
  }

  ghost predicate Observes(points: seq<Point>, records: seq<Record>) {
    |points| == |records| && forall i :: 0 <= i < |points| ==>
      points[i].timestamp == records[i].timestamp && points[i].needsReview == records[i].needsReview
      && points[i].imminentFailure == records[i].imminentFailure
  }

  lemma {:induction false} ObservedCounts(points: seq<Point>, records: seq<Record>)
    requires Observes(points, records)
    ensures PointTotals(points).needsReview == NeedsReviewCount(records)
    ensures PointTotals(points).imminent == ImminentCount(records)
  {
    if points != [] {
      ObservedCounts(points[..|points| - 1], records[..|records| - 1]);
    }
  }

  /** Time inside phases is at most the time between the first and the last point. */
  lemma {:induction false} SecondsWithinSpan(points: seq<Point>)
    requires points != [] && InTimeOrder(points)
    ensures 0.0 <= PointTotals(points).seconds <= Last(points).timestamp - points[0].timestamp
  {
    hide PointTotals;
    var n := |points| - 1;
    SecondsStep(points);
    if n > 0 {
      assert points[n - 1].timestamp <= points[n].timestamp;
      SecondsWithinSpan(points[..n]);
      assert Last(points[..n]) == points[n - 1] && points[..n][0] == points[0];
    } else {
      assert points[..n] == [];
      EmptyTotals();
    }
  }

  lemma SecondsStep(points: seq<Point>)
    requires points != []
    ensures var n := |points| - 1;
      PointTotals(points).seconds == PointTotals(points[..n]).seconds
        + if n > 0 && points[n - 1].phase == points[n].phase then points[n].timestamp - points[n - 1].timestamp else 0.0
  {
  }

  /** On every path the timeline accounts for each recorded review flag and imminent failure exactly once,
      and for no more time than the rollout took. */
  lemma AnnotationConservesTotals(e: Evidence, s: Settings, oracle: Oracle)
    requires e.Chronological()
    ensures var totals := SegmentTotals(AnnotationOf(e, s, oracle).timeline);
      && totals.needsReview == NeedsReviewCount(e.records)
      && totals.imminent == ImminentCount(e.records)
      && (e.records == [] ==> totals.seconds == 0.0)
      && (e.records != [] ==>
            0.0 <= totals.seconds <= e.records[|e.records| - 1].timestamp - e.records[0].timestamp)
  {
    hide AnnotationOf, PhaseTimeline, SegmentTotals, PointTotals, NeedsReviewCount, ImminentCount, Smoothed, IsJitter;
    AnnotatedPoints(e, s, oracle);
    var points :| SameObservations(InitialPoints(e), points)
      && AnnotationOf(e, s, oracle).timeline == PhaseTimeline(points, e.Terminal());
    assert forall i :: 0 <= i < |e.records| ==> SameObservation(InitialPoints(e)[i], points[i]);
    assert Observes(points, e.records);
    assert InTimeOrder(points);
    TimelineConservesTotals(points, e.Terminal());
    ObservedCounts(points, e.records);
    FilteredSeconds(points);
  }

  lemma FilteredSeconds(points: seq<Point>)
    requires InTimeOrder(points)
    ensures var seconds := PointTotals(Filtered(points)).seconds;
      if points == [] then seconds == 0.0
      else 0.0 <= seconds <= points[|points| - 1].timestamp - points[0].timestamp
  {
    hide IsJitter;
    FilterKeepsOrder(points);
    if points != [] {
      SecondsWithinSpan(Filtered(points));
    }
  }

  // ------------------------------------------------------------------ confidence

  ghost predicate UnitConfidence(points: seq<Point>) {
    forall i :: 0 <= i < |points| ==> 0.0 <= points[i].confidence <= 1.0
  }

  lemma {:induction false} ConfidenceSumBounds(group: seq<Point>)
    requires UnitConfidence(group)
    ensures 0.0 <= ConfidenceSum(group) <= |group| as real
  {
    if group != [] {
      ConfidenceSumBounds(group[..|group| - 1]);
    }
  }

  lemma MeanInUnit(group: seq<Point>, index: nat)
    requires group != [] && UnitConfidence(group)
    ensures 0.0 <= TimelineRecord(group, index).meanConfidence <= 1.0
  {
    hide Dominant, PointTotals, ConfidenceSum, UnitConfidence, Round3, AlarmFrames, WorstRisk, Votes;
    ConfidenceSumBounds(group);
    var n := |group| as real;
    var sum := ConfidenceSum(group);
    QuotientInUnit(sum, n);
    Round3KeepsBounds(sum / n, 0, 1000);
  }

  lemma QuotientInUnit(x: real, n: real)
    requires 0.0 <= x <= n && n > 0.0
    ensures 0.0 <= x / n <= 1.0
  {
  }

  lemma {:induction false} FlattenUnit(groups: seq<seq<Point>>)
    requires UnitConfidence(Flatten(groups))
    ensures forall k :: 0 <= k < |groups| ==> UnitConfidence(groups[k])
  {
    if groups != [] {
      var init, last := groups[..|groups| - 1], Last(groups);
      var flat, m := Flatten(groups), |Flatten(groups)| - |Last(groups)|;
      assert Flatten(init) == flat[..m] && last == flat[m..];
      FlattenUnit(init);
      assert forall k :: 0 <= k < |init| ==> groups[k] == init[k];
    }
  }

  lemma LastMeanInUnit(points: seq<Point>, terminal: Option<Phase>)
    requires points != [] && UnitConfidence(points)
    ensures PhaseTimeline(points, terminal) != [] && 0.0 <= Last(PhaseTimeline(points, terminal)).meanConfidence <= 1.0
  {
    hide TimelineRecord, Groups, LowEvidence;
    var filtered := Filtered(points);
    var groups := Groups(filtered);
    GroupsPartition(filtered);
    FlattenUnit(groups);
    MeanInUnit(Last(groups), |groups| - 1);
    LastKept(Records(groups), terminal);
  }

  lemma LastKept(timeline: seq<Segment>, terminal: Option<Phase>)
    requires timeline != []
    ensures Cleaned(timeline, terminal) != []
    ensures Last(Cleaned(timeline, terminal)).meanConfidence == Last(timeline).meanConfidence
  {
    assert Survives(timeline, |timeline| - 1, terminal);
  }

  lemma DeterministicConfidence(e: Evidence, points: seq<Point>)
    requires UnitConfidence(points)
    ensures 0.0 <= Deterministic(e, points).outcome.confidence <= 1.0
  {
    hide PhaseTimeline, Retries, FindTerminalEvidence, Round3;
    TimelineEnds(points, e.Terminal());
    if points != [] {
      LastMeanInUnit(points, e.Terminal());
      var mean := Last(PhaseTimeline(points, e.Terminal())).meanConfidence;
      Round3KeepsBounds(MinReal(1.0, MaxReal(0.55, mean)), 0, 1000);
      Round3KeepsBounds(MinReal(1.0, MaxReal(0.45, mean)), 0, 1000);
    }
  }

  lemma VlmConfidence(outcome: Outcome, reply: Reply, covers: bool, e: Evidence)
    requires 0.0 <= outcome.confidence <= 1.0
    ensures 0.0 <= OutcomeWithVlm(outcome, reply, covers, e).confidence <= 1.0
  {
    hide Round3;
    Round3KeepsBounds(Clamp(outcome.confidence, 0.45, 0.65), 0, 1000);
    if reply.confidence.Some? {
      Round3KeepsBounds(Clamp(reply.confidence.value, 0.0, 1.0), 0, 1000);
    }
  }

  /** Whatever the VLM claims, the reported confidence is a probability. */
  lemma ConfidenceIsProbability(e: Evidence, s: Settings, oracle: Oracle)
    requires e.ConfidenceInUnit()
    ensures 0.0 <= AnnotationOf(e, s, oracle).outcome.confidence <= 1.0
  {
    hide AnnotationOf, Deterministic, OutcomeWithVlm;
    var r := AnnotationOf(e, s, oracle);
    ReviewedIsApplied(e, s, oracle);
    DeterministicConfidence(e, InitialPoints(e));
    if r.review.Reviewed? {
      var reply, covers := r.review.reply, r.review.covers;
      RevisionKeepsObservations(e, reply);
      assert UnitConfidence(RevisedPoints(e, reply));
      DeterministicConfidence(e, RevisedPoints(e, reply));
      VlmConfidence(Deterministic(e, InitialPoints(e)).outcome, reply, covers, e);
      VlmConfidence(Revised(e, reply).outcome, reply, covers, e);
    }
  }
}
