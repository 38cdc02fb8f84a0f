/** Failure attribution and dataset admission for an annotated rollout. */
module Governance {
  import opened Common
  import opened ReviewData
  import opened Timeline
  import opened Segments
  import opened PacketVerdict
  import opened Annotation
  import opened AnnotationLaws

  // ------------------------------------------------------------ failure analysis

  datatype FailureEvent = FailureEvent(
    failureType: string, phase: Phase, start: Option<int>, end: Option<int>, recovered: bool, fromVlm: bool)

  /** Any classification of a segment's raw text into a failure type. */
  type Classifier = Segment -> string

  predicate Suspicious(s: Segment) { s.Alarming() || s.progress == Regressing }

  function SegmentEvent(s: Segment, outcome: Outcome, classify: Classifier): FailureEvent {
    var recovered := outcome.finalSuccess
      && (outcome.finalSegmentIndex != Some(s.index) || s.phase != outcome.finalPhase);
    FailureEvent(classify(s), s.phase, Some(s.startFrame as int), Some(s.endFrame as int), recovered, false)
  }

  function SegmentEvents(timeline: seq<Segment>, outcome: Outcome, classify: Classifier): seq<FailureEvent> {
    if timeline == [] then []
    else
      SegmentEvents(timeline[..|timeline| - 1], outcome, classify)
      + if Suspicious(Last(timeline)) then [SegmentEvent(Last(timeline), outcome, classify)] else []
  }

  function Or(a: Option<seq<RawEvent>>, b: Option<seq<RawEvent>>): Option<seq<RawEvent>> {
    if a.Some? && a.value != [] then a else b
  }

  function VlmEvent(raw: RawEvent, reply: Reply, phases: seq<Phase>): FailureEvent {
    match raw
    case Mode(name) => FailureEvent(name, UnknownPhase, None, None, reply.success == Some(true), true)
    case Event(kind, phase, start, end, recovered) =>
      FailureEvent(kind, if phase in phases then phase else UnknownPhase, start, end,
                   if recovered.Some? then recovered.value else reply.success == Some(true), true)
  }

  predicate SameKey(a: FailureEvent, b: FailureEvent) {
    a.failureType == b.failureType && a.phase == b.phase && a.start == b.start && a.end == b.end
  }

  /** Keeps the first event of every (type, phase, span). */
  function DedupeEvents(events: seq<FailureEvent>): (r: seq<FailureEvent>)
    ensures events != [] ==> r != [] && r[0] == events[0]
    ensures events == [] ==> r == []
  {
    if events == [] then []
    else
      var r, last := DedupeEvents(events[..|events| - 1]), events[|events| - 1];
      if exists i :: 0 <= i < |r| && SameKey(r[i], last) then r else r + [last]
  }

  ghost predicate FirstOfKeyAt(events: seq<FailureEvent>, x: FailureEvent, k: int) {
    0 <= k < |events| && events[k] == x && forall j :: 0 <= j < k ==> !SameKey(events[j], x)
  }

  ghost predicate FirstOfKey(events: seq<FailureEvent>, x: FailureEvent) {
    exists k :: FirstOfKeyAt(events, x, k)
  }

  lemma FirstOfKeyStep(events: seq<FailureEvent>, last: FailureEvent, x: FailureEvent)
    ensures FirstOfKey(events + [last], x) <==>
      FirstOfKey(events, x) || (x == last && forall j :: 0 <= j < |events| ==> !SameKey(events[j], last))
  {
    var all, n := events + [last], |events|;
    if FirstOfKey(all, x) {
      var k :| FirstOfKeyAt(all, x, k);
      assert forall j :: 0 <= j < n ==> events[j] == all[j];
      assert k < n ==> FirstOfKeyAt(events, x, k);
    }
    if FirstOfKey(events, x) {
      var k :| FirstOfKeyAt(events, x, k);
      assert FirstOfKeyAt(all, x, k);
    }
    if x == last && forall j :: 0 <= j < n ==> !SameKey(events[j], last) {
      assert FirstOfKeyAt(all, x, n);
    }
  }

  ghost predicate KeyMet(events: seq<FailureEvent>, x: FailureEvent) {
    exists j :: 0 <= j < |events| && SameKey(events[j], x)
  }

  /** The events kept are exactly the first ones of their (type, phase, span), so no two of them share
      a key and no key is lost. */
  lemma {:induction false} DedupeKeepsFirsts(events: seq<FailureEvent>)
    ensures forall x :: x in DedupeEvents(events) <==> FirstOfKey(events, x)
    ensures forall x :: KeyMet(DedupeEvents(events), x) <==> KeyMet(events, x)
    ensures forall i, j :: 0 <= i < j < |DedupeEvents(events)| ==>
      !SameKey(DedupeEvents(events)[i], DedupeEvents(events)[j])
  {
    hide SameKey, FirstOfKey;
    if events == [] {
      NothingIsFirst();
    } else {
      var init, last := events[..|events| - 1], events[|events| - 1];
      DedupeKeepsFirsts(init);
      assert events == init + [last];
      var r := DedupeEvents(init);
      assert DedupeEvents(events) == if KeyMet(r, last) then r else r + [last];
      forall x ensures x in DedupeEvents(events) <==> FirstOfKey(events, x) {
        FirstOfKeyStep(init, last, x);
        assert KeyMet(init, last) <==> !forall j :: 0 <= j < |init| ==> !SameKey(init[j], last);
      }
      forall x ensures KeyMet(DedupeEvents(events), x) <==> KeyMet(events, x) {
        KeyMetStep(init, last, x);
        KeyMetStep(r, last, x);
        SameKeyMeets(r, last, x);
      }
    }
  }

  lemma NothingIsFirst()
    ensures forall x :: !FirstOfKey([], x)
  {
  }

  lemma KeyMetStep(events: seq<FailureEvent>, last: FailureEvent, x: FailureEvent)
    ensures KeyMet(events + [last], x) <==> KeyMet(events, x) || SameKey(last, x)
  {
    var all := events + [last];
    assert all[|events|] == last && forall j :: 0 <= j < |events| ==> all[j] == events[j];
  }

  lemma SameKeyMeets(events: seq<FailureEvent>, a: FailureEvent, b: FailureEvent)
    ensures SameKey(a, b) ==> (KeyMet(events, a) <==> KeyMet(events, b))
  {
  }

  function MergedEvents(events: seq<FailureEvent>, reply: Reply, phases: seq<Phase>): seq<FailureEvent> {
    var raw := Or(Or(reply.retryOrFailure, reply.failureEvents), reply.failureModes);
    if raw.None? then events
    else
      DedupeEvents(events + seq(|raw.value|, i requires 0 <= i < |raw.value| => VlmEvent(raw.value[i], reply, phases)))
  }

  function RecoveredCount(events: seq<FailureEvent>): nat {
    if events == [] then 0
    else RecoveredCount(events[..|events| - 1]) + if events[|events| - 1].recovered then 1 else 0
  }

  datatype AnalysisStatus = NoFailureCandidates | RecoveredFailureFound | FinalFailure

  datatype Analysis = Analysis(status: AnalysisStatus, events: seq<FailureEvent>, recoveredCount: nat)

  function Analyze(e: Evidence, a: AnnotationResult, classify: Classifier): Analysis {
    var found := SegmentEvents(a.timeline, a.outcome, classify);
    var events := if a.review.Reviewed? then MergedEvents(found, a.review.reply, e.phases) else found;
    var status :=
      if events == [] && a.retries == [] then NoFailureCandidates
      else if a.outcome.finalSuccess then RecoveredFailureFound
      else FinalFailure;
    Analysis(status, events, RecoveredCount(events))
  }

  // ---------------------------------------------------------------- admission

  datatype Decision = Accepted | NeedsReview | Rejected | RetryRecommended

  datatype AdmissionClass =
    | EmptyRollout | SuccessfulButAmbiguous | AcceptedWithLabels | CleanSuccess
    | FailurePoolCandidate | InsufficientCompletionEvidence | AcceptedCandidateNeedsReview

  datatype DataUse =
    SuccessTrajectory | ReviewQueue | FailureAnalysis | RecoveryTraining | FailureTaxonomy | FutureRecoveryTraining

  datatype Admission = Admission(
    decision: Decision,
    acceptedForTraining: bool,
    labelQuality: LabelQuality,
    class_: AdmissionClass,
    dataUse: seq<DataUse>,
    splitTrain: bool,
    requiresReview: bool)

  /** More than half of the snapshots, and more than one, are marked for review. */
  predicate MostlyUnreliable(records: seq<Record>) {
    NeedsReviewCount(records) > (if |records| / 2 > 1 then |records| / 2 else 1)
  }

  method Decide(e: Evidence, a: AnnotationResult, f: Analysis) returns (d: Admission)
    ensures d == AdmissionOf(e, a, f)
  {
    var success, uncertain := a.outcome.finalSuccess, a.outcome.status == UncertainStatus;
    var failures, recovered := |f.events|, f.recoveredCount;
    var decision, class_, accepted, quality := NeedsReview, InsufficientCompletionEvidence, false, Clean;
    var use: seq<DataUse> := [];

    if |e.records| == 0 {
      decision, class_, quality := Rejected, EmptyRollout, Uncertain;
    } else if success && uncertain {
      class_, accepted, quality := SuccessfulButAmbiguous, true, Uncertain;
      use := [SuccessTrajectory, ReviewQueue];
      if failures > 0 {
        use := use + [FailureAnalysis];
      }
      if recovered > 0 {
        use := use + [RecoveryTraining];
      }
    } else if success && recovered > 0 {
      decision, class_, accepted := Accepted, AcceptedWithLabels, true;
      use := [SuccessTrajectory, RecoveryTraining, FailureTaxonomy];
    } else if success && failures == 0 {
      decision, class_, accepted, use := Accepted, CleanSuccess, true, [SuccessTrajectory];
    } else if success {
      class_, accepted, quality := SuccessfulButAmbiguous, true, Uncertain;
      use := [SuccessTrajectory, ReviewQueue];
    } else if failures > 0 {
      class_, quality, use := FailurePoolCandidate, Uncertain, [FailureAnalysis, FutureRecoveryTraining];
    } else {
      decision := if NeedsReviewCount(e.records) > 0 then NeedsReview else RetryRecommended;
      quality, use := Uncertain, [ReviewQueue];
    }

    if decision == Accepted && MostlyUnreliable(e.records) && !a.UsedVlm() {
      decision, class_, quality := NeedsReview, AcceptedCandidateNeedsReview, Uncertain;
    }
    if a.review.Reviewed? && a.review.reply.labelQuality != NoLabel {
      quality := a.review.reply.labelQuality;
    }
    d := Admission(decision, accepted, quality, class_, use, accepted, decision == NeedsReview);
  }

  /** The class before the reliability check, from the success and failure evidence alone. */
  function BaseClass(e: Evidence, a: AnnotationResult, f: Analysis): AdmissionClass {
    if e.records == [] then EmptyRollout
    else if a.outcome.finalSuccess then
      if a.outcome.status == UncertainStatus then SuccessfulButAmbiguous
      else if f.recoveredCount > 0 then AcceptedWithLabels
      else if f.events == [] then CleanSuccess
      else SuccessfulButAmbiguous
    else if f.events != [] then FailurePoolCandidate
    else InsufficientCompletionEvidence
  }

  function BaseDecision(e: Evidence, class_: AdmissionClass): Decision {
    match class_
    case EmptyRollout => Rejected
    case AcceptedWithLabels => Accepted
    case CleanSuccess => Accepted
    case InsufficientCompletionEvidence => if NeedsReviewCount(e.records) > 0 then NeedsReview else RetryRecommended
    case _ => NeedsReview
  }

  function BaseUse(class_: AdmissionClass, a: AnnotationResult, f: Analysis): seq<DataUse> {
    match class_
    case EmptyRollout => []
    case AcceptedWithLabels => [SuccessTrajectory, RecoveryTraining, FailureTaxonomy]
    case CleanSuccess => [SuccessTrajectory]
    case FailurePoolCandidate => [FailureAnalysis, FutureRecoveryTraining]
    case InsufficientCompletionEvidence => [ReviewQueue]
    case _ =>
      [SuccessTrajectory, ReviewQueue]
      + (if a.outcome.status == UncertainStatus && f.events != [] then [FailureAnalysis] else [])
      + (if a.outcome.status == UncertainStatus && f.recoveredCount > 0 then [RecoveryTraining] else [])
  }

  function AdmissionOf(e: Evidence, a: AnnotationResult, f: Analysis): Admission {
    var base := BaseClass(e, a, f);
    var demoted := BaseDecision(e, base) == Accepted && MostlyUnreliable(e.records) && !a.UsedVlm();
    var decision := if demoted then NeedsReview else BaseDecision(e, base);
    var accepted := e.records != [] && a.outcome.finalSuccess;
    var ownQuality := if BaseDecision(e, base) == Accepted && !demoted then Clean else Uncertain;
    var quality :=
      if a.review.Reviewed? && a.review.reply.labelQuality != NoLabel then a.review.reply.labelQuality else ownQuality;
    Admission(decision, accepted, quality, if demoted then AcceptedCandidateNeedsReview else base,
              BaseUse(base, a, f), accepted, decision == NeedsReview)
  }

  // -------------------------------------------------------------- whole pipeline

  datatype Review = Review(annotation: AnnotationResult, analysis: Analysis, admission: Admission)

  /** The review of one closed rollout. */
  function ReviewOf(e: Evidence, s: Settings, oracle: Oracle, classify: Classifier): Review {
    var annotation := AnnotationOf(e, s, oracle);
    var analysis := Analyze(e, annotation, classify);
    Review(annotation, analysis, AdmissionOf(e, annotation, analysis))
  }

  method RunReview(e: Evidence, s: Settings, oracle: Oracle, classify: Classifier) returns (r: Review)
    ensures r == ReviewOf(e, s, oracle, classify)
  {
    var annotation := Annotate(e, s, oracle);
    var analysis := Analyze(e, annotation, classify);
    var admission := Decide(e, annotation, analysis);
    r := Review(annotation, analysis, admission);
  }

  /** A reviewed rollout is admitted for training exactly when its final outcome is a success. */
  lemma AcceptedIsFinalSuccess(e: Evidence, s: Settings, oracle: Oracle, classify: Classifier)
    ensures var r := ReviewOf(e, s, oracle, classify);
      r.admission.acceptedForTraining <==> r.annotation.outcome.finalSuccess
  {
    hide AnnotationOf, Analyze, BaseClass;
    AnnotationConsistent(e, s, oracle);
  }

  /** An uncovered failure verdict cannot take a deterministic success out of training: the rollout
      is kept for training and sent to review, whatever else the reply says. */
  lemma UncoveredFailureIsReviewed(e: Evidence, s: Settings, oracle: Oracle, classify: Classifier)
    ensures var r := ReviewOf(e, s, oracle, classify);
      r.annotation.review.Reviewed? && Deterministic(e, InitialPoints(e)).outcome.finalSuccess
        && SuccessValue(r.annotation.review.reply) == Some(false) && !r.annotation.review.covers ==>
      && r.admission.decision == NeedsReview && r.admission.acceptedForTraining && r.admission.requiresReview
      && r.admission.class_ == SuccessfulButAmbiguous
  {
    hide AnnotationOf, Analyze, Deterministic;
    AnnotationConsistent(e, s, oracle);
    UncoveredFailureCannotOverrule(e, s, oracle);
  }

  lemma {:induction false} EventsFollowSegments(timeline: seq<Segment>, outcome: Outcome, classify: Classifier)
    ensures SegmentEvents(timeline, outcome, classify) == [] <==> forall g: Segment :: g in timeline ==> !Suspicious(g)
  {
    if timeline != [] {
      EventsFollowSegments(timeline[..|timeline| - 1], outcome, classify);
      assert timeline == timeline[..|timeline| - 1] + [Last(timeline)];
    }
  }

  lemma MergeKeepsEvidence(events: seq<FailureEvent>, reply: Reply, phases: seq<Phase>)
    ensures MergedEvents(events, reply, phases) == [] ==> events == []
  {
  }

  /** The class "clean success" is honest: no snapshot of such a rollout was high risk or announced
      an imminent failure, whatever the VLM corrected or claimed. */
  lemma CleanSuccessHasNoAlarm(e: Evidence, s: Settings, oracle: Oracle, classify: Classifier)
    ensures var r := ReviewOf(e, s, oracle, classify);
      r.admission.class_ == CleanSuccess ==> forall record :: record in e.records ==> !AlarmingRecord(record)
  {
    hide AnnotationOf, MergedEvents, MostlyUnreliable;
    var r := ReviewOf(e, s, oracle, classify);
    if r.admission.class_ == CleanSuccess {
      var found := SegmentEvents(r.annotation.timeline, r.annotation.outcome, classify);
      if r.annotation.review.Reviewed? {
        MergeKeepsEvidence(found, r.annotation.review.reply, e.phases);
      }
      EventsFollowSegments(r.annotation.timeline, r.annotation.outcome, classify);
      AlarmsExactly(e, s, oracle);
    }
  }

  lemma {:induction false} EventSource(timeline: seq<Segment>, outcome: Outcome, classify: Classifier, event: FailureEvent)
    requires event in SegmentEvents(timeline, outcome, classify)
    ensures exists g: Segment :: g in timeline && Suspicious(g) && event == SegmentEvent(g, outcome, classify)
  {
    var init := timeline[..|timeline| - 1];
    assert timeline == init + [Last(timeline)];
    if event in SegmentEvents(init, outcome, classify) {
      EventSource(init, outcome, classify, event);
    }
  }

  /** In a successful rollout only the final segment can carry an unrecovered failure of its own. */
  lemma OnlyTheEndStaysUnrecovered(e: Evidence, s: Settings, oracle: Oracle, classify: Classifier, event: FailureEvent)
    requires var a := AnnotationOf(e, s, oracle);
      a.outcome.finalSuccess && event in SegmentEvents(a.timeline, a.outcome, classify) && !event.recovered
    ensures var a := AnnotationOf(e, s, oracle);
      a.timeline != [] && event == SegmentEvent(Last(a.timeline), a.outcome, classify) && Suspicious(Last(a.timeline))
  {
    hide AnnotationOf, Suspicious;
    var a := AnnotationOf(e, s, oracle);
    AnnotationConsistent(e, s, oracle);
    EventSource(a.timeline, a.outcome, classify, event);
    var g: Segment :| g in a.timeline && Suspicious(g) && event == SegmentEvent(g, a.outcome, classify);
    var k :| 0 <= k < |a.timeline| && a.timeline[k] == g;
    assert k == |a.timeline| - 1;
  }
}
