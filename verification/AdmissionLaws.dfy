/** Failure events and dataset admission, said in the fields of records, outcomes, segments and replies. */
module AdmissionLaws {
  import opened Common
  import opened ReviewData
  import opened Timeline
  import opened Segments
  import opened PacketVerdict
  import opened Annotation
  import opened AnnotationLaws
  import opened Governance

  // --------------------------------------------------------------- failure events

  /** The segment is a failure candidate. */
  ghost predicate Fails(s: Segment) {
    s.maxRisk == High || s.imminentCount > 0 || s.progress == Regressing
  }

  /** The event of a segment: recovered in a success, except for the final segment in the final phase. */
  ghost predicate TellsFailure(event: FailureEvent, s: Segment, outcome: Outcome, classify: Classifier) {
    && event.failureType == classify(s) && event.phase == s.phase && !event.fromVlm
    && event.start == Some(s.startFrame as int) && event.end == Some(s.endFrame as int)
    && (event.recovered <==>
          outcome.finalSuccess && !(outcome.finalSegmentIndex == Some(s.index) && outcome.finalPhase == s.phase))
  }

  ghost predicate TellsOne(events: seq<FailureEvent>, s: Segment, outcome: Outcome, classify: Classifier) {
    if Fails(s) then |events| == 1 && TellsFailure(events[0], s, outcome, classify) else events == []
  }

  /** The events of a timeline are made segment by segment, one for each candidate, in order. */
  lemma {:induction false} SegmentEventsExactly(
    a: seq<Segment>, b: seq<Segment>, outcome: Outcome, classify: Classifier)
    ensures SegmentEvents(a + b, outcome, classify)
      == SegmentEvents(a, outcome, classify) + SegmentEvents(b, outcome, classify)
    ensures |a| == 1 ==> TellsOne(SegmentEvents(a, outcome, classify), a[0], outcome, classify)
  {
    hide SegmentEvent;
    if |a| == 1 {
      assert a[..0] == [];
      SegmentEventTells(a[0], outcome, classify);
    }
    if b == [] {
      assert a + b == a;
    } else {
      SegmentEventsExactly(a, b[..|b| - 1], outcome, classify);
      assert (a + b)[..|a + b| - 1] == a + b[..|b| - 1] && Last(a + b) == Last(b);
    }
  }

  lemma SegmentEventTells(s: Segment, outcome: Outcome, classify: Classifier)
    ensures TellsFailure(SegmentEvent(s, outcome, classify), s, outcome, classify)
  {
  }

  /** An event the VLM names: a bare mode has neither phase nor span; an unknown phase is not kept; without
      a word of its own it counts as recovered when the reply's plain verdict is a success. */
  lemma VlmEventExactly(raw: RawEvent, reply: Reply, phases: seq<Phase>)
    ensures var event, praised := VlmEvent(raw, reply, phases), reply.success == Some(true);
      && event.fromVlm
      && match raw
        case Mode(name) =>
          && event.failureType == name && event.phase == UnknownPhase && event.recovered == praised
          && event.start == None && event.end == None
        case Event(kind, phase, start, end, recovered) =>
          && event.failureType == kind && event.start == start && event.end == end
          && event.phase == (if phase in phases then phase else UnknownPhase)
          && event.recovered == (match recovered case Some(b) => b case None => praised)
  {
  }

  ghost function VlmEvents(raw: seq<RawEvent>, reply: Reply, phases: seq<Phase>): (events: seq<FailureEvent>)
    ensures |events| == |raw| && forall i :: 0 <= i < |raw| ==> events[i] == VlmEvent(raw[i], reply, phases)
  {
    seq(|raw|, i requires 0 <= i < |raw| => VlmEvent(raw[i], reply, phases))
  }

  ghost predicate Filled(list: Option<seq<RawEvent>>) { list.Some? && list.value != [] }

  /** The VLM's events come from the first of its three lists that is not empty; without one nothing is
      added, and repeated events are dropped only if the last list is there. */
  lemma MergedEventsExactly(events: seq<FailureEvent>, reply: Reply, phases: seq<Phase>)
    ensures MergedEvents(events, reply, phases) ==
      if Filled(reply.retryOrFailure) then DedupeEvents(events + VlmEvents(reply.retryOrFailure.value, reply, phases))
      else if Filled(reply.failureEvents) then DedupeEvents(events + VlmEvents(reply.failureEvents.value, reply, phases))
      else if Filled(reply.failureModes) then DedupeEvents(events + VlmEvents(reply.failureModes.value, reply, phases))
      else if reply.failureModes.Some? then DedupeEvents(events)
      else events
  {
    hide DedupeEvents, VlmEvent;
    assert events + [] == events;
  }

  /** An earlier event has the same type, phase and span. */
  ghost predicate IsRepeat(events: seq<FailureEvent>, k: nat)
    requires k < |events|
  {
    exists j :: 0 <= j < k && Alike(events[j], events[k])
  }

  ghost predicate Alike(a: FailureEvent, b: FailureEvent) {
    (a.failureType, a.phase, a.start, a.end) == (b.failureType, b.phase, b.start, b.end)
  }

  ghost predicate AreFirsts(events: seq<FailureEvent>, at: seq<nat>) {
    forall k: nat :: k in at <==> k < |events| && !IsRepeat(events, k)
  }

  /** Exactly the events that repeat no earlier one are kept, in order. */
  lemma {:induction false} KeptEventsExactly(events: seq<FailureEvent>) returns (at: seq<nat>)
    ensures Places(events, DedupeEvents(events), at) && AreFirsts(events, at)
  {
    hide Places, IsRepeat;
    if events == [] {
      at := [];
      NoPlaces(events);
    } else {
      var n := |events| - 1;
      var init, last := events[..n], events[n];
      var earlier := KeptEventsExactly(init);
      var r := DedupeEvents(init);
      assert events == init + [last];
      PlacesExtend(init, r, earlier, last);
      DedupeKeepsFirsts(init);
      assert KeyMet(r, last) <==> KeyMet(init, last);
      assert KeyMet(init, last) <==> IsRepeat(events, n) by { RepeatsExactly(init, last); }
      at := if KeyMet(r, last) then earlier else earlier + [n];
      forall k: nat | k < n ensures IsRepeat(events, k) <==> IsRepeat(init, k) {
        EarlierRepeats(init, last, k);
      }
    }
  }

  lemma RepeatsExactly(init: seq<FailureEvent>, last: FailureEvent)
    ensures KeyMet(init, last) <==> IsRepeat(init + [last], |init|)
  {
    if j :| 0 <= j < |init| && Alike(init[j], last) {
      assert SameKey(init[j], last) && Alike((init + [last])[j], last);
    }
    if KeyMet(init, last) {
      var j :| 0 <= j < |init| && SameKey(init[j], last);
      assert Alike((init + [last])[j], last);
    }
  }

  lemma EarlierRepeats(init: seq<FailureEvent>, last: FailureEvent, k: nat)
    requires k < |init|
    ensures IsRepeat(init + [last], k) <==> IsRepeat(init, k)
  {
    assert forall j :: 0 <= j <= k ==> (init + [last])[j] == init[j];
  }

  ghost function Recovered(events: seq<FailureEvent>): set<int> {
    set i | 0 <= i < |events| && events[i].recovered
  }

  lemma {:induction false} RecoveredCountIsSize(events: seq<FailureEvent>)
    ensures RecoveredCount(events) == |Recovered(events)|
  {
    if events != [] {
      var n := |events| - 1;
      var init := events[..n];
      RecoveredCountIsSize(init);
      assert Recovered(events) == Recovered(init) + (if events[n].recovered then {n} else {});
    }
  }

  /** The analysis: the timeline's events, merged with those of a review if there is one, the number
      recovered, and a status that names a failure only without success. */
  lemma AnalysisExactly(e: Evidence, a: AnnotationResult, classify: Classifier)
    ensures var f, own := Analyze(e, a, classify), SegmentEvents(a.timeline, a.outcome, classify);
      && f.events == (match a.review
          case Reviewed(reply, _) => MergedEvents(own, reply, e.phases)
          case _ => own)
      && f.recoveredCount == |Recovered(f.events)|
      && (f.status == NoFailureCandidates <==> f.events == [] && a.retries == [])
      && (f.status == RecoveredFailureFound <==> a.outcome.finalSuccess && (f.events != [] || a.retries != []))
      && (f.status == FinalFailure <==> !a.outcome.finalSuccess && (f.events != [] || a.retries != []))
  {
    hide SegmentEvents, MergedEvents, RecoveredCount, Recovered;
    RecoveredCountIsSize(Analyze(e, a, classify).events);
  }

  // --------------------------------------------------------------------- admission

  ghost function Marked(records: seq<Record>): set<int> {
    set i | 0 <= i < |records| && records[i].needsReview
  }

  lemma {:induction false} MarkedCount(records: seq<Record>)
    ensures NeedsReviewCount(records) == |Marked(records)|
  {
    if records != [] {
      var n := |records| - 1;
      var init := records[..n];
      MarkedCount(init);
      assert Marked(records) == Marked(init) + (if records[n].needsReview then {n} else {});
    }
  }

  /** At most one snapshot, or at most half of them, is marked for review. */
  ghost predicate Reliable(e: Evidence) {
    |Marked(e.records)| <= 1 || |Marked(e.records)| <= |e.records| / 2
  }

  ghost predicate WasReviewed(a: AnnotationResult) {
    match a.review
    case Reviewed(reply, _) => reply.status != Given("skipped")
    case _ => false
  }

  /** A success the outcome does not doubt, and whose failures, if any, include a recovered one. */
  ghost predicate Admissible(a: AnnotationResult, f: Analysis) {
    a.outcome.finalSuccess && a.outcome.status != UncertainStatus && (f.recoveredCount > 0 || f.events == [])
  }

  ghost predicate Trusted(e: Evidence, a: AnnotationResult) { WasReviewed(a) || Reliable(e) }

  lemma UnreliableExactly(e: Evidence)
    ensures MostlyUnreliable(e.records) <==> !Reliable(e)
  {
    MarkedCount(e.records);
  }

  lemma UsedVlmExactly(a: AnnotationResult)
    ensures a.UsedVlm() <==> WasReviewed(a)
  {
  }

  /** Exactly when each decision is taken. */
  lemma DecisionExactly(e: Evidence, a: AnnotationResult, f: Analysis)
    ensures var d := AdmissionOf(e, a, f).decision;
      && (d == Rejected <==> e.records == [])
      && (d == Accepted <==> e.records != [] && Admissible(a, f) && Trusted(e, a))
      && (d == RetryRecommended <==>
            e.records != [] && !a.outcome.finalSuccess && f.events == [] && Marked(e.records) == {})
      && (d == NeedsReview <==>
            && e.records != []
            && !(Admissible(a, f) && Trusted(e, a))
            && (a.outcome.finalSuccess || f.events != [] || Marked(e.records) != {}))
  {
    hide Marked, Reliable, MostlyUnreliable, WasReviewed;
    UnreliableExactly(e);
    UsedVlmExactly(a);
    MarkedCount(e.records);
  }

  /** Exactly when each class is given. */
  lemma ClassExactly(e: Evidence, a: AnnotationResult, f: Analysis)
    ensures var c, success := AdmissionOf(e, a, f).class_, a.outcome.finalSuccess;
      && (c == EmptyRollout <==> e.records == [])
      && (c == SuccessfulButAmbiguous <==> e.records != [] && success && !Admissible(a, f))
      && (c == AcceptedWithLabels <==>
            e.records != [] && Admissible(a, f) && f.recoveredCount > 0 && Trusted(e, a))
      && (c == CleanSuccess <==>
            e.records != [] && Admissible(a, f) && f.recoveredCount == 0 && Trusted(e, a))
      && (c == AcceptedCandidateNeedsReview <==> e.records != [] && Admissible(a, f) && !Trusted(e, a))
      && (c == FailurePoolCandidate <==> e.records != [] && !success && f.events != [])
      && (c == InsufficientCompletionEvidence <==> e.records != [] && !success && f.events == [])
  {
    hide Reliable, MostlyUnreliable, WasReviewed;
    UnreliableExactly(e);
    UsedVlmExactly(a);
  }

  /** The uses of an admitted or kept rollout, in order. */
  ghost function UsesOf(e: Evidence, a: AnnotationResult, f: Analysis): seq<DataUse> {
    if e.records == [] then []
    else if !a.outcome.finalSuccess then if f.events != [] then [FailureAnalysis, FutureRecoveryTraining] else [ReviewQueue]
    else if a.outcome.status == UncertainStatus then
      [SuccessTrajectory, ReviewQueue]
      + (if f.events != [] then [FailureAnalysis] else []) + (if f.recoveredCount > 0 then [RecoveryTraining] else [])
    else if f.recoveredCount > 0 then [SuccessTrajectory, RecoveryTraining, FailureTaxonomy]
    else if f.events == [] then [SuccessTrajectory]
    else [SuccessTrajectory, ReviewQueue]
  }

  /** The remaining fields: training and split follow success, review follows the decision, the quality is
      the reviewer's word or else clean exactly for accepted rollouts. */
  lemma AdmissionFieldsExactly(e: Evidence, a: AnnotationResult, f: Analysis)
    ensures var d := AdmissionOf(e, a, f);
      && (d.acceptedForTraining <==> e.records != [] && a.outcome.finalSuccess)
      && d.splitTrain == d.acceptedForTraining
      && (d.requiresReview <==> d.decision == NeedsReview)
      && d.dataUse == UsesOf(e, a, f)
      && d.labelQuality == (match a.review
          case Reviewed(reply, _) =>
            if reply.labelQuality != NoLabel then reply.labelQuality
            else if d.decision == Accepted then Clean else Uncertain
          case _ => if d.decision == Accepted then Clean else Uncertain)
  {
    hide MostlyUnreliable;
  }
}
