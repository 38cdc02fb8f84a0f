/** Points, retries, outcomes and verdicts of the annotation agent, said in the fields of what they are made from. */
module OutcomeLaws {
  import opened Common
  import opened ReviewData
  import opened Timeline
  import opened Segments
  import opened PacketVerdict
  import opened Annotation
  import opened AnnotationLaws
  import Images = ReviewImages
  import Packets = ReviewPackets

  // --------------------------------------------------------------- initial points

  /** The task lists phase `a` before phase `b`. */
  ghost predicate Earlier(phases: seq<Phase>, a: Phase, b: Phase) {
    exists i, j :: 0 <= i < j < |phases| && phases[i] == a && phases[j] == b && b !in phases[..j]
  }

  lemma FirstPlace(phases: seq<Phase>, p: Phase, j: nat)
    requires j < |phases| && phases[j] == p
    ensures PhaseIndex(phases, p).Some? && PhaseIndex(phases, p).value <= j
    ensures p !in phases[..j] ==> PhaseIndex(phases, p) == Some(j)
  {
    var x := PhaseIndex(phases, p).value;
    assert forall y :: 0 <= y < x ==> phases[y] in phases[..x];
    assert forall y :: 0 <= y < j ==> phases[y] in phases[..j];
  }

  lemma EarlierExactly(phases: seq<Phase>, a: Phase, b: Phase)
    requires a in phases && b in phases
    ensures Earlier(phases, a, b) <==> PhaseIndex(phases, a).value < PhaseIndex(phases, b).value
  {
    hide PhaseIndex;
    if Earlier(phases, a, b) {
      var i, j :| 0 <= i < j < |phases| && phases[i] == a && phases[j] == b && b !in phases[..j];
      FirstPlace(phases, a, i);
      FirstPlace(phases, b, j);
    }
  }

  /** The online label is terminal although the raw text saw an earlier phase. */
  ghost predicate TerminalDoubted(r: Record, phases: seq<Phase>) {
    && r.rawPhase.Some? && phases != [] && r.phase == phases[|phases| - 1]
    && Earlier(phases, r.rawPhase.value, r.phase)
  }

  ghost predicate RawIsStrong(r: Record) {
    r.rawConfidence.Some? && r.rawConfidence.value >= 0.55 && r.rawConfidence.value >= r.confidence + 0.05
  }

  /** The raw phase is another phase of the task, and there is a reason to believe it. */
  ghost predicate RawPrevails(r: Record, phases: seq<Phase>) {
    && r.rawPhase.Some? && r.rawPhase.value in phases && r.rawPhase.value != r.phase
    && (TerminalDoubted(r, phases) || RawIsStrong(r) || r.needsReview || r.risk == High)
  }

  lemma DoubtExactly(r: Record, phases: seq<Phase>)
    ensures RawPrevails(r, phases) <==> RawOverride(r, phases).0.Some?
    ensures RawPrevails(r, phases) ==>
      RawOverride(r, phases).0 == r.rawPhase && (RawOverride(r, phases).1 <==> TerminalDoubted(r, phases))
  {
    if r.rawPhase.Some? && r.rawPhase.value in phases && r.phase in phases {
      EarlierExactly(phases, r.rawPhase.value, r.phase);
    }
  }

  /** A point has the raw phase if and only if the raw phase prevails, with a note why, and otherwise the
      online one without a note; everything else is copied from the record. */
  lemma InitialPointExactly(e: Evidence, i: nat)
    requires i < |e.records|
    ensures |InitialPoints(e)| == |e.records|
    ensures var r, p, raw := e.records[i], InitialPoints(e)[i], RawPrevails(e.records[i], e.phases);
      && p.phase == (if raw then r.rawPhase.value else r.phase)
      && p.source == (if raw then RawVlmVisual else OnlineVsa)
      && p.corrected == raw
      && p.correctionReason == (
        if !raw then None
        else if TerminalDoubted(r, e.phases) then Some("terminal_phase_retry_evidence")
        else Some("raw_visual_phase_override"))
    ensures var r, p := e.records[i], InitialPoints(e)[i];
      && p.frameId == r.frameId && p.timestamp == r.timestamp && p.onlinePhase == r.phase && p.rawPhase == r.rawPhase
      && p.progress == r.progress && p.risk == r.risk && p.imminentFailure == r.imminentFailure
      && p.confidence == r.confidence && p.needsReview == r.needsReview && p.trigger == r.trigger
  {
    hide RawOverride, RawPrevails, TerminalDoubted;
    DoubtExactly(e.records[i], e.phases);
  }

  // ---------------------------------------------------------------------- retries

  /** Something about the segment speaks for a retry. */
  ghost predicate Suspect(s: Segment) {
    || s.maxRisk == High || s.imminentCount > 0 || s.progress == Regressing || s.needsReviewCount > 0
    || "terminal_phase_retry_evidence" in s.correctionReasons || "offline_vlm_retry_evidence" in s.correctionReasons
  }

  /** Segment `j` is the first of those before `k` that are furthest in the task. */
  ghost predicate Peak(timeline: seq<Segment>, phases: seq<Phase>, k: nat, j: nat)
    requires j < k <= |timeline|
  {
    && timeline[j].phase in phases
    && forall i :: 0 <= i < k && i != j && timeline[i].phase in phases ==>
      && !Earlier(phases, timeline[j].phase, timeline[i].phase)
      && (i < j ==> timeline[i].phase != timeline[j].phase)
  }

  lemma PeakExactly(timeline: seq<Segment>, phases: seq<Phase>, k: nat, j: nat)
    requires j < k <= |timeline|
    ensures FirstPeak(timeline, phases, k, j) <==> Peak(timeline, phases, k, j)
  {
    forall i | 0 <= i < k && timeline[i].phase in phases && timeline[j].phase in phases
      ensures Earlier(phases, timeline[j].phase, timeline[i].phase) <==>
        Advance(timeline, phases, j) < Advance(timeline, phases, i)
      ensures timeline[i].phase == timeline[j].phase <==> Advance(timeline, phases, j) == Advance(timeline, phases, i)
    {
      EarlierExactly(phases, timeline[j].phase, timeline[i].phase);
    }
  }

  /** Segment `k` is earlier in the task than the peak `j` before it, and one of the two is suspect. */
  ghost predicate GoesBack(timeline: seq<Segment>, phases: seq<Phase>, k: nat, j: nat)
    requires j < k < |timeline|
  {
    && Peak(timeline, phases, k, j)
    && timeline[k].phase in phases && Earlier(phases, timeline[k].phase, timeline[j].phase)
    && (Suspect(timeline[k]) || Suspect(timeline[j]))
  }

  lemma BackExactly(timeline: seq<Segment>, phases: seq<Phase>, k: nat, j: nat)
    requires j < k < |timeline|
    ensures ReturnsBehind(timeline, phases, k, j) <==> GoesBack(timeline, phases, k, j)
  {
    hide Earlier, FirstPeak, Peak;
    PeakExactly(timeline, phases, k, j);
    PeakIsKnown(timeline, phases, k, j);
    if timeline[k].phase in phases && timeline[j].phase in phases {
      EarlierExactly(phases, timeline[k].phase, timeline[j].phase);
    }
  }

  lemma PeakIsKnown(timeline: seq<Segment>, phases: seq<Phase>, k: nat, j: nat)
    requires j < k <= |timeline|
    ensures Peak(timeline, phases, k, j) ==> timeline[j].phase in phases
  {
  }

  ghost function Label(entry: (string, bool)): seq<string> { if entry.1 then [entry.0] else [] }

  /** The labels of the table whose condition holds, in the order of the table. */
  ghost function Told(table: seq<(string, bool)>): seq<string> {
    if table == [] then [] else Label(table[0]) + Told(table[1..])
  }

  ghost function Table(s: Segment, labels: seq<string>): seq<(string, bool)>
    requires |labels| == 5
  {
    [(labels[0], s.maxRisk == High), (labels[1], s.imminentCount > 0), (labels[2], s.progress == Regressing),
     (labels[3], s.needsReviewCount > 0),
     (labels[4], "terminal_phase_retry_evidence" in s.correctionReasons
                 || "offline_vlm_retry_evidence" in s.correctionReasons)]
  }

  lemma ToldNext(table: seq<(string, bool)>, i: nat)
    requires i < |table|
    ensures Told(table[i..]) == Label(table[i]) + Told(table[i + 1..])
    ensures i + 1 == |table| ==> Told(table[i + 1..]) == []
  {
    assert table[i..][1..] == table[i + 1..];
  }

  lemma FiveJoined(a: seq<string>, b: seq<string>, c: seq<string>, d: seq<string>, e: seq<string>)
    ensures a + (b + (c + (d + (e + [])))) == a + b + c + d + e
  {
  }

  lemma LabelsJoined(s: Segment, labels: seq<string>)
    requires |labels| == 5
    ensures var t := Table(s, labels);
      RetryLabels(s, labels) == Label(t[0]) + Label(t[1]) + Label(t[2]) + Label(t[3]) + Label(t[4])
  {
  }

  lemma LabelsExactly(s: Segment, labels: seq<string>)
    requires |labels| == 5
    ensures RetryLabels(s, labels) == Told(Table(s, labels))
  {
    hide Told, Label, RetryLabels, Table;
    var t := Table(s, labels);
    LabelsJoined(s, labels);
    TableSize(s, labels);
    ToldNext(t, 0);
    ToldNext(t, 1);
    ToldNext(t, 2);
    ToldNext(t, 3);
    ToldNext(t, 4);
    assert t[0..] == t;
    FiveJoined(Label(t[0]), Label(t[1]), Label(t[2]), Label(t[3]), Label(t[4]));
  }

  lemma TableSize(s: Segment, labels: seq<string>)
    requires |labels| == 5
    ensures |Table(s, labels)| == 5
  {
  }

  /** The retries are exactly the segments that go back, and each event tells the segment, the phase it
      came from and what speaks for it. */
  lemma RetryExactly(timeline: seq<Segment>, phases: seq<Phase>, k: nat)
    requires k < |timeline|
    ensures IsRetry(timeline, phases, k) <==> exists j: nat :: j < k && GoesBack(timeline, phases, k, j)
    ensures forall j: nat :: j < k && GoesBack(timeline, phases, k, j) ==>
      IsRetry(timeline, phases, k) && TellsRetry(RetryAt(timeline, phases, k), timeline[k], timeline[j])
  {
    hide ReturnsBehind, GoesBack, IsRetry, Told, RetryLabels;
    RetryMeans(timeline, phases, k);
    forall j: nat | j < k ensures ReturnsBehind(timeline, phases, k, j) <==> GoesBack(timeline, phases, k, j) {
      BackExactly(timeline, phases, k, j);
    }
    forall j: nat | j < k && GoesBack(timeline, phases, k, j)
      ensures IsRetry(timeline, phases, k) && TellsRetry(RetryAt(timeline, phases, k), timeline[k], timeline[j])
    {
      PeakIsFurthest(timeline, phases, k, j);
      LabelsExactly(timeline[k], CURRENT_LABELS);
      LabelsExactly(timeline[j], PRIOR_LABELS);
    }
  }

  lemma PeakIsFurthest(timeline: seq<Segment>, phases: seq<Phase>, k: nat, j: nat)
    requires j < k < |timeline| && ReturnsBehind(timeline, phases, k, j)
    ensures Furthest(timeline, phases, k) == Some(j)
  {
    hide HasRetryEvidence, Advance;
    FurthestIsFirstPeak(timeline, phases, k);
    assert Advance(timeline, phases, j) >= 0;
  }

  ghost predicate TellsRetry(event: RetryEvent, s: Segment, prior: Segment) {
    && event.startFrame == s.startFrame && event.endFrame == s.endFrame && event.phase == s.phase
    && event.fromPhase == prior.phase && event.evidenceFrames == s.evidenceFrames
    && event.evidence == Told(Table(s, ["current_high_risk", "current_imminent_failure", "current_regressing",
                                        "current_needs_review", "current_review_confirmed_retry"]))
      + Told(Table(prior, ["prior_high_risk", "prior_imminent_failure", "prior_regressing",
                           "prior_needs_review", "prior_review_confirmed_retry"]))
  }

  // ------------------------------------------------------------ terminal evidence

  lemma AnchorsExactly(ws: seq<Window>, f: int)
    ensures f in FinalObservationAnchors(ws) <==>
      exists w :: w in ws && w.eventType == "final_observation" && w.anchor == Some(f)
  {
  }

  /** Segment `k` is terminal and a final observation supports it. */
  ghost predicate ObservedTerminal(e: Evidence, s: Segment, terminal: Phase) {
    && s.phase == terminal
    && (FinalObservation in s.triggers
        || exists w :: w in e.windows && w.eventType == "final_observation" && w.anchor.Some?
             && exists f :: f in s.evidenceFrames && w.anchor == Some(f))
  }

  lemma SupportsExactly(e: Evidence, s: Segment, terminal: Phase)
    ensures Supports(s, terminal, FinalObservationAnchors(e.windows)) <==> ObservedTerminal(e, s, terminal)
  {
    var anchors := FinalObservationAnchors(e.windows);
    if f :| f in s.evidenceFrames && f in anchors {
      AnchorsExactly(e.windows, f);
    }
    if w, f :| w in e.windows && w.eventType == "final_observation" && f in s.evidenceFrames && w.anchor == Some(f) {
      AnchorsExactly(e.windows, f);
      assert f in s.evidenceFrames && f in anchors;
    }
  }

  ghost predicate LastSupported(e: Evidence, timeline: seq<Segment>, terminal: Phase, n: nat, k: int)
    requires n <= |timeline|
  {
    0 <= k < n && ObservedTerminal(e, timeline[k], terminal)
    && forall j :: k < j < n ==> !ObservedTerminal(e, timeline[j], terminal)
  }

  ghost predicate NoneSupported(e: Evidence, timeline: seq<Segment>, terminal: Phase, n: nat)
    requires n <= |timeline|
  {
    forall k :: 0 <= k < n ==> !ObservedTerminal(e, timeline[k], terminal)
  }

  /** A final observation that saw the terminal phase. */
  ghost predicate SawItFinally(r: Record, terminal: Phase) {
    r.trigger == FinalObservation && r.rawPhase == Some(terminal)
  }

  ghost predicate LastFinal(records: seq<Record>, terminal: Phase, n: nat, k: int)
    requires n <= |records|
  {
    0 <= k < n && SawItFinally(records[k], terminal) && forall j :: k < j < n ==> !SawItFinally(records[j], terminal)
  }

  ghost predicate NoneFinal(records: seq<Record>, terminal: Phase, n: nat)
    requires n <= |records|
  {
    forall k :: 0 <= k < n ==> !SawItFinally(records[k], terminal)
  }

  /** Record `k` is the last to see the terminal phase, and one of the `left` before place `n`. */
  ghost predicate LastSeen(records: seq<Record>, terminal: Phase, n: nat, left: nat, k: int)
    requires n <= |records|
  {
    0 <= k < n && n - left <= k && records[k].rawPhase == Some(terminal)
    && forall j :: k < j < n ==> records[j].rawPhase != Some(terminal)
  }

  ghost predicate NoneSeen(records: seq<Record>, terminal: Phase, n: nat, left: nat)
    requires n <= |records|
  {
    forall k :: 0 <= k < n && n - left <= k ==> records[k].rawPhase != Some(terminal)
  }

  ghost predicate SegmentFound(
    e: Evidence, timeline: seq<Segment>, terminal: Phase, n: nat, k: int, found: TerminalEvidence)
    requires n <= |timeline|
  {
    LastSupported(e, timeline, terminal, n, k) && found == PhaseSegment(timeline[k].endFrame, timeline[k].index)
  }

  ghost predicate FinalFound(records: seq<Record>, terminal: Phase, n: nat, k: int, found: TerminalEvidence)
    requires n <= |records|
  {
    LastFinal(records, terminal, n, k) && found == RawFinalObservation(records[k].frameId)
  }

  ghost predicate SightFound(records: seq<Record>, terminal: Phase, n: nat, left: nat, k: int, found: TerminalEvidence)
    requires n <= |records|
  {
    LastSeen(records, terminal, n, left, k) && found == TrailingRaw(records[k].frameId)
  }

  lemma {:induction false} SegmentEvidence(e: Evidence, timeline: seq<Segment>, terminal: Phase, n: nat)
    requires n <= |timeline|
    ensures var found := TerminalSegment(timeline, terminal, FinalObservationAnchors(e.windows), n);
      if found.None? then NoneSupported(e, timeline, terminal, n)
      else exists k :: SegmentFound(e, timeline, terminal, n, k, found.value)
  {
    hide ObservedTerminal, FinalObservationAnchors;
    if n > 0 {
      var s := timeline[n - 1];
      SupportsExactly(e, s, terminal);
      if ObservedTerminal(e, s, terminal) {
        var found := TerminalSegment(timeline, terminal, FinalObservationAnchors(e.windows), n);
        assert found == Some(PhaseSegment(s.endFrame, s.index));
        assert SegmentFound(e, timeline, terminal, n, n - 1, found.value);
      } else {
        SegmentEvidence(e, timeline, terminal, n - 1);
        var found := TerminalSegment(timeline, terminal, FinalObservationAnchors(e.windows), n - 1);
        if found.Some? {
          var k :| SegmentFound(e, timeline, terminal, n - 1, k, found.value);
          assert SegmentFound(e, timeline, terminal, n, k, found.value);
        }
      }
    }
  }

  lemma {:induction false} FinalEvidence(records: seq<Record>, terminal: Phase, n: nat)
    requires n <= |records|
    ensures var found := RawObservation(records, terminal, n);
      if found.None? then NoneFinal(records, terminal, n)
      else exists k :: FinalFound(records, terminal, n, k, found.value)
  {
    if n > 0 {
      if SawItFinally(records[n - 1], terminal) {
        var found := RawObservation(records, terminal, n);
        assert FinalFound(records, terminal, n, n - 1, found.value);
      } else {
        FinalEvidence(records, terminal, n - 1);
        var found := RawObservation(records, terminal, n - 1);
        if found.Some? {
          var k :| FinalFound(records, terminal, n - 1, k, found.value);
          assert FinalFound(records, terminal, n, k, found.value);
        }
      }
    }
  }

  lemma {:induction false} SeenEvidence(records: seq<Record>, terminal: Phase, n: nat, left: nat)
    requires n <= |records|
    ensures var found := TrailingObservation(records, terminal, n, left);
      if found.None? then NoneSeen(records, terminal, n, left)
      else exists k :: SightFound(records, terminal, n, left, k, found.value)
  {
    if n > 0 && left > 0 {
      if records[n - 1].rawPhase == Some(terminal) {
        var found := TrailingObservation(records, terminal, n, left);
        assert SightFound(records, terminal, n, left, n - 1, found.value);
      } else {
        SeenEvidence(records, terminal, n - 1, left - 1);
        var found := TrailingObservation(records, terminal, n - 1, left - 1);
        if found.Some? {
          var k :| SightFound(records, terminal, n - 1, left - 1, k, found.value);
          assert SightFound(records, terminal, n, left, k, found.value);
        }
      }
    }
  }

  /** The evidence found is the last terminal segment a final observation supports; without one the last
      final observation of the terminal phase; without one the last sight of it in the last three records. */
  lemma TerminalEvidenceExactly(e: Evidence, timeline: seq<Segment>)
    ensures e.phases == [] ==> FindTerminalEvidence(e, timeline) == None
    ensures e.phases != [] ==>
      var t, n, m := e.phases[|e.phases| - 1], |timeline|, |e.records|;
      match FindTerminalEvidence(e, timeline)
      case Some(PhaseSegment(frame, segment)) =>
        exists k :: SegmentFound(e, timeline, t, n, k, PhaseSegment(frame, segment))
      case Some(RawFinalObservation(frame)) =>
        NoneSupported(e, timeline, t, n) && exists k :: FinalFound(e.records, t, m, k, RawFinalObservation(frame))
      case Some(TrailingRaw(frame)) =>
        && NoneSupported(e, timeline, t, n) && NoneFinal(e.records, t, m)
        && exists k :: SightFound(e.records, t, m, 3, k, TrailingRaw(frame))
      case None => NoneSupported(e, timeline, t, n) && NoneFinal(e.records, t, m) && NoneSeen(e.records, t, m, 3)
  {
    hide TerminalSegment, RawObservation, TrailingObservation, FinalObservationAnchors, ObservedTerminal,
      NoneSupported, NoneFinal, NoneSeen, LastSupported, LastFinal, LastSeen;
    if e.phases != [] {
      var t := e.phases[|e.phases| - 1];
      SegmentEvidence(e, timeline, t, |timeline|);
      FinalEvidence(e.records, t, |e.records|);
      SeenEvidence(e.records, t, |e.records|, 3);
    }
  }

  // --------------------------------------------------------------------- outcomes

  /** The outcome of a deterministic pass over a nonempty timeline. */
  lemma DeterministicOutcomeExactly(e: Evidence, points: seq<Point>)
    requires points != []
    ensures var r := Deterministic(e, points);
      && r.timeline != []
      && var o, last := r.outcome, r.timeline[|r.timeline| - 1];
      && o.terminalReached == o.finalSuccess
      && (o.finalSuccess ==> e.phases != [] && o.finalPhase == e.phases[|e.phases| - 1])
      && (!o.finalSuccess ==> o.finalPhase == last.phase)
      && (o.status == Failure <==> !o.finalSuccess)
      && (o.status == UncertainStatus <==>
            o.finalSuccess && (last.maxRisk == High || last.progress == Regressing || last.phase != o.finalPhase))
      && (o.status == Success || o.status == UncertainStatus || o.status == Failure)
      && o.confidence == Round3(MostLikely(last.meanConfidence, if o.status == Success then 0.55 else 0.45))
      && o.finalSegmentIndex == Some(last.index) && o.terminalPhase == e.Terminal() && o.retryCount == |r.retries|
      && o.terminalEvidence == (if o.finalSuccess && last.phase == o.finalPhase then None
                                else FindTerminalEvidence(e, r.timeline))
  {
    hide PhaseTimeline, Retries, FindTerminalEvidence, Round3;
    TimelineEnds(points, e.Terminal());
    TerminalEvidenceExactly(e, PhaseTimeline(points, e.Terminal()));
  }

  /** The mean confidence, raised to the floor and capped at one. */
  ghost function MostLikely(mean: real, floor: real): real {
    if mean >= 1.0 then 1.0 else if mean >= floor then mean else floor
  }

  /** The outcome without points: no success and no confidence. The terminal phase is named as reached if
      evidence of it is found without a timeline, or if the task calls its terminal phase unknown. */
  lemma EmptyOutcomeExactly(e: Evidence)
    ensures var o := Deterministic(e, []).outcome;
      && !o.finalSuccess && o.status == UnknownStatus && o.confidence == 0.0 && o.finalSegmentIndex == None
      && (e.phases == [] ==> !o.terminalReached && o.terminalEvidence == None && o.finalPhase == UnknownPhase)
      && (e.phases != [] ==>
            var t := e.phases[|e.phases| - 1];
            && o.terminalEvidence == (if t == UnknownPhase then None else FindTerminalEvidence(e, []))
            && (o.terminalReached <==> t == UnknownPhase || o.terminalEvidence != None)
            && o.finalPhase == (if o.terminalEvidence != None then t else UnknownPhase))
    ensures e.records == [] ==> Deterministic(e, []).outcome.terminalEvidence == None
  {
    hide FindTerminalEvidence;
    TimelineEnds([], e.Terminal());
    TerminalEvidenceExactly(e, []);
  }

  /** What a reply says about success: its final verdict, and only without one its plain verdict. */
  lemma SuccessValueExactly(reply: Reply)
    ensures reply.finalSuccess.Some? ==> SuccessValue(reply) == reply.finalSuccess
    ensures reply.finalSuccess.None? ==> SuccessValue(reply) == reply.success
  {
  }

  /** How a reply changes an outcome: an uncovered failure against a success only makes it uncertain and
      pulls the confidence between 0.45 and 0.65; any other reply decides what it states. */
  lemma VlmOutcomeExactly(outcome: Outcome, reply: Reply, covers: bool, e: Evidence)
    ensures var o, verdict := OutcomeWithVlm(outcome, reply, covers, e),
        if reply.finalSuccess.Some? then reply.finalSuccess else reply.success;
      if verdict == Some(false) && outcome.finalSuccess && !covers
      then o == outcome.(status := UncertainStatus, confidence := Round3(Between(outcome.confidence, 0.45, 0.65)))
      else
        && o.finalSuccess == (if verdict.Some? then verdict.value else outcome.finalSuccess)
        && o.status == (match verdict case None => outcome.status case Some(b) => if b then Success else Failure)
        && o.confidence == (
          if reply.confidence.Some? then Round3(Between(reply.confidence.value, 0.0, 1.0))
          else if outcome.confidence >= 0.65 then outcome.confidence else 0.65)
        && (if reply.finalPhase.Some? && reply.finalPhase.value in e.phases
            then o.finalPhase == reply.finalPhase.value
              && (o.terminalReached <==> reply.finalPhase.value == e.phases[|e.phases| - 1])
            else o.finalPhase == outcome.finalPhase && o.terminalReached == outcome.terminalReached)
        && o == outcome.(finalSuccess := o.finalSuccess, status := o.status, confidence := o.confidence,
                         finalPhase := o.finalPhase, terminalReached := o.terminalReached)
  {
    hide Round3;
  }

  ghost function Between(x: real, lo: real, hi: real): real {
    if x < lo then lo else if x > hi then hi else x
  }

  /** The corrections of a reply relabel exactly the points one of them names, the last one deciding;
      a reply without any changes nothing. */
  lemma CorrectedPointExactly(points: seq<Point>, reply: Reply, phases: seq<Phase>, i: nat)
    requires i < |points|
    ensures var out := PhaseCorrected(points, reply, phases);
      && |out| == |points|
      && (reply.corrections.None? ==> out[i] == points[i])
      && (reply.corrections.Some? ==>
            match LastRelabel(reply.corrections.value, points[i].frameId, phases)
            case None => out[i] == points[i]
            case Some(k) => out[i] == Relabelled(points[i], reply.corrections.value[k]))
  {
    hide Corrected, LastRelabel;
    if reply.corrections.Some? {
      LastCorrectionWins(points, reply.corrections.value, phases, i);
    }
  }

  /** A known final phase relabels the last point unless it already has it, and no other point. */
  lemma FinalPhaseExactly(points: seq<Point>, reply: Reply, phases: seq<Phase>)
    ensures var out := WithFinalPhase(points, reply, phases);
      && |out| == |points|
      && (forall i :: 0 <= i < |points| - 1 ==> out[i] == points[i])
      && (points != [] ==>
            var p, q := points[|points| - 1], out[|points| - 1];
            if reply.finalPhase.Some? && reply.finalPhase.value in phases && p.phase != reply.finalPhase.value
            then q == p.(phase := reply.finalPhase.value, source := OfflineVlm, corrected := true,
                         correctionReason := Some("offline_vlm_final_phase"))
            else q == p)
  {
  }
}
