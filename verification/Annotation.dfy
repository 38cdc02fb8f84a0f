/** The annotation agent: phase points, retries, outcome, and how a VLM review corrects or overrules them. */
module Annotation {
  import opened Common
  import opened ReviewData
  import opened Timeline
  import opened Segments
  import opened PacketVerdict
  import Images = ReviewImages
  import Packets = ReviewPackets

  // ------------------------------------------------------------ initial points

  function PhaseIndex(phases: seq<Phase>, phase: Phase): (r: Option<nat>)
    ensures r.Some? <==> phase in phases
    ensures r.Some? ==> r.value < |phases| && phases[r.value] == phase && phase !in phases[..r.value]
  {
    if phases == [] then None
    else if phases[0] == phase then Some(0)
    else
      assert phases == [phases[0]] + phases[1..];
      match PhaseIndex(phases[1..], phase)
      case None => None
      case Some(i) => Some(i + 1)
  }

  /** Does the raw visual phase of a record override the online label? The flag tells a terminal lock. */
  function RawOverride(r: Record, phases: seq<Phase>): (Option<Phase>, bool) {
    if r.rawPhase.None? || r.rawPhase.value !in phases || r.rawPhase.value == r.phase then (None, false)
    else
      var online, raw := PhaseIndex(phases, r.phase), PhaseIndex(phases, r.rawPhase.value);
      var locked :=
        phases != [] && r.phase == Last(phases) && raw.Some? && online.Some? && raw.value < online.value;
      var strong := r.rawConfidence.Some? && r.rawConfidence.value >= MaxReal(0.55, r.confidence + 0.05);
      if locked || strong || r.needsReview || r.risk == High then (r.rawPhase, locked) else (None, false)
  }

  function InitialPoint(r: Record, phases: seq<Phase>): Point {
    var (override, locked) := RawOverride(r, phases);
    Point(
      r.frameId, r.timestamp,
      if override.Some? then override.value else r.phase,
      r.phase, r.rawPhase, r.progress, r.risk, r.imminentFailure, r.confidence, r.needsReview, r.trigger,
      if override.Some? then RawVlmVisual else OnlineVsa,
      override.Some?,
      if override.None? then None
      else Some(if locked then "terminal_phase_retry_evidence" else "raw_visual_phase_override"))
  }

  function InitialPoints(e: Evidence): seq<Point> {
    seq(|e.records|, i requires 0 <= i < |e.records| => InitialPoint(e.records[i], e.phases))
  }

  // --------------------------------------------------------------------- retries

  datatype RetryEvent = RetryEvent(
    startFrame: nat, endFrame: nat, phase: Phase, fromPhase: Phase, evidence: seq<string>, evidenceFrames: seq<nat>)

  predicate ReviewConfirmedRetry(s: Segment) {
    "terminal_phase_retry_evidence" in s.correctionReasons || "offline_vlm_retry_evidence" in s.correctionReasons
  }

  predicate HasRetryEvidence(s: Segment) {
    s.Alarming() || s.progress == Regressing || s.needsReviewCount > 0 || ReviewConfirmedRetry(s)
  }

  function RetryLabels(s: Segment, labels: seq<string>): (r: seq<string>)
    requires |labels| == 5
    ensures r != [] <==> HasRetryEvidence(s)
  {
    (if s.maxRisk == High then [labels[0]] else [])
    + (if s.imminentCount > 0 then [labels[1]] else [])
    + (if s.progress == Regressing then [labels[2]] else [])
    + (if s.needsReviewCount > 0 then [labels[3]] else [])
    + (if ReviewConfirmedRetry(s) then [labels[4]] else [])
  }

  const CURRENT_LABELS := ["current_high_risk", "current_imminent_failure", "current_regressing",
                           "current_needs_review", "current_review_confirmed_retry"]

  const PRIOR_LABELS := ["prior_high_risk", "prior_imminent_failure", "prior_regressing",
                         "prior_needs_review", "prior_review_confirmed_retry"]

  function RetryEvidence(current: Segment, prior: Segment): seq<string> {
    RetryLabels(current, CURRENT_LABELS) + RetryLabels(prior, PRIOR_LABELS)
  }

  /** How far segment `i` is in the task, -1 for a phase the task does not know. */
  function Advance(timeline: seq<Segment>, phases: seq<Phase>, i: nat): int
    requires i < |timeline|
  {
    var index := PhaseIndex(phases, timeline[i].phase);
    if index.None? then -1 else index.value
  }

  /** Among the first `n` segments, the first one in the furthest known phase. */
  function Furthest(timeline: seq<Segment>, phases: seq<Phase>, n: nat): (r: Option<nat>)
    requires n <= |timeline|
    ensures r.Some? ==> r.value < n && Advance(timeline, phases, r.value) >= 0
  {
    if n == 0 then None
    else
      var best, index := Furthest(timeline, phases, n - 1), Advance(timeline, phases, n - 1);
      if index >= 0 && (best.None? || Advance(timeline, phases, best.value) < index) then Some(n - 1) else best
  }

  /** Segment `k` goes back behind an earlier phase, and it or the furthest segment before it is suspect. */
  predicate IsRetry(timeline: seq<Segment>, phases: seq<Phase>, k: nat)
    requires k < |timeline|
  {
    var furthest := Furthest(timeline, phases, k);
    && furthest.Some?
    && 0 <= Advance(timeline, phases, k) < Advance(timeline, phases, furthest.value)
    && (HasRetryEvidence(timeline[k]) || HasRetryEvidence(timeline[furthest.value]))
  }

  function RetryAt(timeline: seq<Segment>, phases: seq<Phase>, k: nat): RetryEvent
    requires k < |timeline| && IsRetry(timeline, phases, k)
  {
    var s, prior := timeline[k], timeline[Furthest(timeline, phases, k).value];
    RetryEvent(s.startFrame, s.endFrame, s.phase, prior.phase, RetryEvidence(s, prior), s.evidenceFrames)
  }

  function RetriesUpTo(timeline: seq<Segment>, phases: seq<Phase>, n: nat): seq<RetryEvent>
    requires n <= |timeline|
  {
    if n == 0 then []
    else
      RetriesUpTo(timeline, phases, n - 1)
      + if IsRetry(timeline, phases, n - 1) then [RetryAt(timeline, phases, n - 1)] else []
  }

  function Retries(timeline: seq<Segment>, phases: seq<Phase>): seq<RetryEvent> {
    RetriesUpTo(timeline, phases, |timeline|)
  }

  /** Among the segments before `k`, segment `j` is the first in the furthest known phase. */
  ghost predicate FirstPeak(timeline: seq<Segment>, phases: seq<Phase>, k: nat, j: nat)
    requires j < k <= |timeline|
  {
    && 0 <= Advance(timeline, phases, j)
    && (forall i :: 0 <= i < k ==> Advance(timeline, phases, i) <= Advance(timeline, phases, j))
    && (forall i :: 0 <= i < j ==> Advance(timeline, phases, i) < Advance(timeline, phases, j))
  }

  lemma {:induction false} FurthestIsFirstPeak(timeline: seq<Segment>, phases: seq<Phase>, k: nat)
    requires k <= |timeline|
    ensures var r := Furthest(timeline, phases, k);
      if r.Some? then FirstPeak(timeline, phases, k, r.value)
      else forall i :: 0 <= i < k ==> Advance(timeline, phases, i) < 0
  {
    hide Advance;
    if k > 0 {
      FurthestIsFirstPeak(timeline, phases, k - 1);
    }
  }

  /** A return behind the first segment of the furthest phase so far, with evidence on one of the two. */
  ghost predicate ReturnsBehind(timeline: seq<Segment>, phases: seq<Phase>, k: nat, j: nat)
    requires j < k < |timeline|
  {
    && FirstPeak(timeline, phases, k, j)
    && 0 <= Advance(timeline, phases, k) < Advance(timeline, phases, j)
    && (HasRetryEvidence(timeline[k]) || HasRetryEvidence(timeline[j]))
  }

  lemma RetryMeans(timeline: seq<Segment>, phases: seq<Phase>, k: nat)
    requires k < |timeline|
    ensures IsRetry(timeline, phases, k) <==> exists j :: 0 <= j < k && ReturnsBehind(timeline, phases, k, j)
  {
    hide HasRetryEvidence, Advance;
    FurthestIsFirstPeak(timeline, phases, k);
    var furthest := Furthest(timeline, phases, k);
    forall j | 0 <= j < k && FirstPeak(timeline, phases, k, j) ensures furthest == Some(j) {
      assert Advance(timeline, phases, j) >= 0;
    }
    if furthest.Some? {
      assert IsRetry(timeline, phases, k) <==> ReturnsBehind(timeline, phases, k, furthest.value);
    }
  }

  /** The agent's single pass with a running maximum finds exactly the segments that `IsRetry` describes. */
  method RetryEvents(timeline: seq<Segment>, phases: seq<Phase>) returns (events: seq<RetryEvent>)
    ensures events == Retries(timeline, phases)
  {
    hide HasRetryEvidence, RetryLabels, Advance;
    events := [];
    var furthest: Option<nat>, maxIndex: int := None, -1;
    for k := 0 to |timeline|
      invariant events == RetriesUpTo(timeline, phases, k)
      invariant furthest == Furthest(timeline, phases, k)
      invariant maxIndex == if furthest.None? then -1 else Advance(timeline, phases, furthest.value)
    {
      var segment := timeline[k];
      var index := Advance(timeline, phases, k);
      if index < 0 {
        continue;
      }
      if index < maxIndex {
        var prior := timeline[furthest.value];
        var evidence := RetryEvidence(segment, prior);
        LabelsTell(segment, prior);
        if evidence != [] {
          events := events + [RetryEvent(
            segment.startFrame, segment.endFrame, segment.phase, prior.phase, evidence, segment.evidenceFrames)];
        }
      }
      if index > maxIndex {
        maxIndex, furthest := index, Some(k);
      }
    }
  }

  lemma LabelsTell(current: Segment, prior: Segment)
    ensures RetryEvidence(current, prior) != [] <==> HasRetryEvidence(current) || HasRetryEvidence(prior)
  {
  }

  // --------------------------------------------------------------------- outcome

  datatype SuccessStatus = Success | Failure | UncertainStatus | UnknownStatus

  datatype TerminalEvidence = PhaseSegment(frame: nat, segment: nat) | RawFinalObservation(frame: nat) | TrailingRaw(frame: nat)

  datatype Outcome = Outcome(
    finalSuccess: bool,
    status: SuccessStatus,
    confidence: real,
    finalPhase: Phase,
    finalSegmentIndex: Option<nat>,
    terminalPhase: Option<Phase>,
    terminalReached: bool,
    terminalEvidence: Option<TerminalEvidence>,
    retryCount: nat)

  function FinalObservationAnchors(ws: seq<Window>): set<int> {
    set w | w in ws && w.eventType == "final_observation" && w.anchor.Some? :: w.anchor.value
  }

  /** Latest terminal-phase segment, among the first `n`, that a final observation supports. */
  function TerminalSegment(timeline: seq<Segment>, terminal: Phase, anchors: set<int>, n: nat): Option<TerminalEvidence>
    requires n <= |timeline|
  {
    if n == 0 then None
    else
      var s := timeline[n - 1];
      if s.phase == terminal && (FinalObservation in s.triggers || exists f :: f in s.evidenceFrames && f in anchors)
      then Some(PhaseSegment(s.endFrame, s.index))
      else TerminalSegment(timeline, terminal, anchors, n - 1)
  }

  function RawObservation(records: seq<Record>, terminal: Phase, n: nat): Option<TerminalEvidence>
    requires n <= |records|
  {
    if n == 0 then None
    else if records[n - 1].trigger == FinalObservation && records[n - 1].rawPhase == Some(terminal)
    then Some(RawFinalObservation(records[n - 1].frameId))
    else RawObservation(records, terminal, n - 1)
  }

  /** Looks back over at most `left` records. */
  function TrailingObservation(records: seq<Record>, terminal: Phase, n: nat, left: nat): Option<TerminalEvidence>
    requires n <= |records|
  {
    if n == 0 || left == 0 then None
    else if records[n - 1].rawPhase == Some(terminal) then Some(TrailingRaw(records[n - 1].frameId))
    else TrailingObservation(records, terminal, n - 1, left - 1)
  }

  function FindTerminalEvidence(e: Evidence, timeline: seq<Segment>): Option<TerminalEvidence> {
    if e.Terminal().None? then None
    else
      var terminal := e.Terminal().value;
      var bySegment := TerminalSegment(timeline, terminal, FinalObservationAnchors(e.windows), |timeline|);
      if bySegment.Some? then bySegment
      else
        var byRaw := RawObservation(e.records, terminal, |e.records|);
        if byRaw.Some? then byRaw else TrailingObservation(e.records, terminal, |e.records|, 3)
  }

  function DetermineOutcome(e: Evidence, timeline: seq<Segment>, retryCount: nat): (o: Outcome) {
    var terminal := e.Terminal();
    if timeline == [] then
      var evidence := if terminal == Some(UnknownPhase) then None else FindTerminalEvidence(e, timeline);
      Outcome(false, UnknownStatus, 0.0, if evidence.Some? then terminal.value else UnknownPhase, None, terminal,
              terminal.Some? && (terminal == Some(UnknownPhase) || evidence.Some?), evidence, retryCount)
    else
      var last := Last(timeline);
      var evidence := if terminal == Some(last.phase) then None else FindTerminalEvidence(e, timeline);
      var reached := terminal.Some? && (terminal == Some(last.phase) || evidence.Some?);
      var status :=
        if !reached then Failure
        else if last.maxRisk == High || last.progress == Regressing || evidence.Some? then UncertainStatus
        else Success;
      var floor := if status == Success then 0.55 else 0.45;
      Outcome(reached, status, Round3(MinReal(1.0, MaxReal(floor, last.meanConfidence))),
              if evidence.Some? then terminal.value else last.phase,
              Some(last.index), terminal, reached, evidence, retryCount)
  }

  // ------------------------------------------------------------------- VLM review

  function SuccessValue(reply: Reply): Option<bool> {
    if reply.finalSuccess.Some? then reply.finalSuccess else reply.success
  }

  /** A failure verdict that has not seen every terminal frame group cannot overrule a success. */
  predicate Blocked(reply: Reply, covers: bool, outcome: Outcome) {
    SuccessValue(reply) == Some(false) && outcome.finalSuccess && !covers
  }

  function OutcomeWithVlm(outcome: Outcome, reply: Reply, covers: bool, e: Evidence): Outcome {
    var verdict, blocked := SuccessValue(reply), Blocked(reply, covers, outcome);
    var judged :=
      if verdict.None? then outcome
      else if blocked then outcome.(status := UncertainStatus)
      else outcome.(finalSuccess := verdict.value, status := if verdict.value then Success else Failure);
    var placed :=
      if reply.finalPhase.Some? && reply.finalPhase.value in e.phases && !blocked
      then judged.(finalPhase := reply.finalPhase.value, terminalReached := reply.finalPhase == e.Terminal())
      else judged;
    placed.(confidence :=
      if blocked then Round3(Clamp(placed.confidence, 0.45, 0.65))
      else if reply.confidence.Some? then Round3(Clamp(reply.confidence.value, 0.0, 1.0))
      else MaxReal(placed.confidence, 0.65))
  }

  function CorrectionSpan(c: Correction, phases: seq<Phase>): Option<(int, int)> {
    if c.phase.None? || c.phase.value !in phases || c.start.None? || c.end.None? then None
    else Some(if c.end.value < c.start.value then (c.end.value, c.start.value) else (c.start.value, c.end.value))
  }

  function CorrectPoint(p: Point, c: Correction, phases: seq<Phase>): Point {
    match CorrectionSpan(c, phases)
    case None => p
    case Some((low, high)) =>
      if low <= p.frameId <= high
      then p.(phase := c.phase.value, source := OfflineVlm, corrected := true, correctionReason := Some(c.reason))
      else p
  }

  function CorrectAll(points: seq<Point>, c: Correction, phases: seq<Phase>): seq<Point> {
    seq(|points|, i requires 0 <= i < |points| => CorrectPoint(points[i], c, phases))
  }

  /** Corrections apply in order, later ones over earlier ones. */
  function Corrected(points: seq<Point>, corrections: seq<Correction>, phases: seq<Phase>): seq<Point> {
    if corrections == [] then points
    else CorrectAll(Corrected(points, corrections[..|corrections| - 1], phases), corrections[|corrections| - 1], phases)
  }

  function PhaseCorrected(points: seq<Point>, reply: Reply, phases: seq<Phase>): seq<Point> {
    if reply.corrections.None? then points else Corrected(points, reply.corrections.value, phases)
  }

  method ApplyVlmPhaseCorrections(points: seq<Point>, reply: Reply, phases: seq<Phase>) returns (out: seq<Point>)
    ensures out == PhaseCorrected(points, reply, phases)
  {
    out := points;
    if reply.corrections.None? {
      return;
    }
    var corrections := reply.corrections.value;
    for i := 0 to |corrections|
      invariant out == Corrected(points, corrections[..i], phases)
    {
      var c := corrections[i];
      assert corrections[..i + 1][..i] == corrections[..i];
      ghost var before := out;
      var span := CorrectionSpan(c, phases);
      if span.None? {
        assert CorrectAll(before, c, phases) == before;
        continue;
      }
      for j := 0 to |out|
        invariant |out| == |before|
        invariant forall k :: 0 <= k < |out| ==> out[k] == if k < j then CorrectPoint(before[k], c, phases) else before[k]
      {
        if span.value.0 <= out[j].frameId <= span.value.1 {
          out := out[j := out[j].(
            phase := c.phase.value, source := OfflineVlm, corrected := true, correctionReason := Some(c.reason))];
        }
      }
      assert out == CorrectAll(before, c, phases);
    }
    assert corrections[..|corrections|] == corrections;
  }

  function WithFinalPhase(points: seq<Point>, reply: Reply, phases: seq<Phase>): seq<Point> {
    if points == [] || reply.finalPhase.None? || reply.finalPhase.value !in phases
       || Last(points).phase == reply.finalPhase.value
    then points
    else points[|points| - 1 := Last(points).(
      phase := reply.finalPhase.value, source := OfflineVlm, corrected := true,
      correctionReason := Some("offline_vlm_final_phase"))]
  }

  // -------------------------------------------------------------------- annotate

  /** Answers of the VLM, or the error it raised. */
  datatype VlmCall = Answered(reply: Reply) | CallFailed(error: string)

  /** Any behaviour of the VLM: one answer for each packet and one for the single prompt. */
  datatype Oracle = Oracle(packet: nat -> VlmCall, single: VlmCall)

  datatype Settings = Settings(useVlm: bool, maxImages: nat, readable: seq<int>)

  datatype StoredReview = NoReview | Skipped(reason: string) | Reviewed(reply: Reply, covers: bool)

  datatype AnnotationResult = AnnotationResult(
    outcome: Outcome,
    timeline: seq<Segment>,
    retries: seq<RetryEvent>,
    review: StoredReview,
    vlmFailed: bool)
  {
    predicate UsedVlm() { review.Reviewed? && review.reply.status != Given("skipped") }
  }

  function Deterministic(e: Evidence, points: seq<Point>): AnnotationResult {
    var timeline := PhaseTimeline(points, e.Terminal());
    var retries := Retries(timeline, e.phases);
    AnnotationResult(DetermineOutcome(e, timeline, |retries|), timeline, retries, NoReview, false)
  }

  /** A completed review corrects the points and the outcome, unless it is blocked. */
  function Applied(e: Evidence, base: AnnotationResult, reply: Reply, covers: bool): AnnotationResult {
    var revised :=
      if Blocked(reply, covers, base.outcome) then base
      else Deterministic(e, WithFinalPhase(PhaseCorrected(InitialPoints(e), reply, e.phases), reply, e.phases));
    revised.(outcome := OutcomeWithVlm(revised.outcome, reply, covers, e), review := Reviewed(reply, covers))
  }

  /** Fields a packet reply leaves out are filled in from its packet. */
  function Completed(reply: Reply, packet: Packets.Packet): Reply {
    reply.(
      status := if reply.status.Absent? then Given("reviewed") else reply.status,
      packetIndex := if reply.packetIndex.Absent? then Given(packet.index) else reply.packetIndex,
      purpose := if reply.purpose.Absent? then Given(packet.purpose) else reply.purpose)
  }

  function CompletedReviews(packets: seq<Packets.Packet>, oracle: Oracle): seq<Reply> {
    if packets == [] then []
    else
      var packet := packets[|packets| - 1];
      CompletedReviews(packets[..|packets| - 1], oracle)
      + match oracle.packet(packet.index)
        case Answered(reply) =>
          var review := Completed(reply, packet);
          if review.status == Given("failed") then [] else [review]
        case CallFailed(_) => []
  }

  function Covers(e: Evidence, frames: seq<int>): bool {
    Images.ImageCoverage(e, frames).coversEpisodeEnd
  }

  function AnnotationOf(e: Evidence, s: Settings, oracle: Oracle): AnnotationResult {
    var base := Deterministic(e, InitialPoints(e));
    if !s.useVlm || e.records == [] then base
    else
      var packets := Packets.PacketsToReview(e, s.maxImages, s.readable);
      if packets != [] then
        var reviews := CompletedReviews(packets, oracle);
        if reviews == [] then base.(review := Skipped("all_packet_reviews_failed"), vlmFailed := true)
        else Applied(e, base, Aggregate(reviews, e.Terminal(), base.outcome.finalPhase), Covers(e, packets[0].imageFrames))
      else
        var shown := Images.Loaded(Images.SelectedFrames(e, s.maxImages), e.images, s.readable);
        if shown == [] then base.(review := Skipped("insufficient_visual_evidence"))
        else
          match oracle.single
          case CallFailed(_) => base.(vlmFailed := true)
          case Answered(reply) => Applied(e, base, reply, Covers(e, shown))
  }

  /** One review applied to the agent's working state. */
  method ApplyReview(e: Evidence, base: AnnotationResult, reply: Reply, covers: bool) returns (r: AnnotationResult)
    requires base == Deterministic(e, InitialPoints(e))
    ensures r == Applied(e, base, reply, covers)
  {
    var timeline, retries, outcome := base.timeline, base.retries, base.outcome;
    if !Blocked(reply, covers, outcome) {
      var points := ApplyVlmPhaseCorrections(InitialPoints(e), reply, e.phases);
      points := WithFinalPhase(points, reply, e.phases);
      timeline := PhaseTimelineFromPoints(points, e.Terminal());
      retries := RetryEvents(timeline, e.phases);
      outcome := DetermineOutcome(e, timeline, |retries|);
    }
    outcome := OutcomeWithVlm(outcome, reply, covers, e);
    r := AnnotationResult(outcome, timeline, retries, Reviewed(reply, covers), false);
  }

  method CollectReviews(packets: seq<Packets.Packet>, oracle: Oracle) returns (reviews: seq<Reply>)
    ensures reviews == CompletedReviews(packets, oracle)
  {
    reviews := [];
    for i := 0 to |packets|
      invariant reviews == CompletedReviews(packets[..i], oracle)
    {
      assert packets[..i + 1][..i] == packets[..i];
      match oracle.packet(packets[i].index)
      case Answered(reply) =>
        var review := Completed(reply, packets[i]);
        if review.status != Given("failed") {
          reviews := reviews + [review];
        }
      case CallFailed(_) =>
    }
    assert packets[..|packets|] == packets;
  }

  method Annotate(e: Evidence, s: Settings, oracle: Oracle) returns (r: AnnotationResult)
    ensures r == AnnotationOf(e, s, oracle)
  {
    var timeline := PhaseTimelineFromPoints(InitialPoints(e), e.Terminal());
    var retries := RetryEvents(timeline, e.phases);
    r := AnnotationResult(DetermineOutcome(e, timeline, |retries|), timeline, retries, NoReview, false);
    if !s.useVlm || e.records == [] {
      return;
    }
    var packets := Packets.PacketsToReview(e, s.maxImages, s.readable);
    if packets != [] {
      var reviews := CollectReviews(packets, oracle);
      if reviews == [] {
        r := r.(review := Skipped("all_packet_reviews_failed"), vlmFailed := true);
      } else {
        var reply := AggregatePacketReviews(reviews, e.Terminal(), r.outcome.finalPhase);
        r := ApplyReview(e, r, reply, Covers(e, packets[0].imageFrames));
      }
    } else {
      var selected := Images.SelectReviewFrameIds(e, s.maxImages);
      var shown := Images.Loaded(selected, e.images, s.readable);
      if shown == [] {
        r := r.(review := Skipped("insufficient_visual_evidence"));
      } else {
        match oracle.single
        case CallFailed(_) =>
          r := r.(vlmFailed := true);
        case Answered(reply) =>
          r := ApplyReview(e, r, reply, Covers(e, shown));
      }
    }
  }
}
