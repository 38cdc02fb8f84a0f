/** The values the post-rollout review passes from stage to stage. */
module ReviewData {
  import opened Common

  /** A phase label. Names matter only up to equality; `UnknownPhase` is the label "unknown". */
  datatype Phase = UnknownPhase | Named(id: nat)

  datatype Progress = Advancing | Stalled | Regressing | UnknownProgress

  datatype Risk = Low | Medium | High | UnknownRisk

  datatype Trigger =
    | SequenceStart | GripperClose | GripperOpen | GripperBurst | ContactTransition | StillStart
    | MotionResume | PeriodicSample | Heartbeat | FinalObservation | UnknownTrigger

  datatype Source = OnlineVsa | RawVlmVisual | TimelineFilter | OfflineVlm

  /** One validated snapshot together with what its raw VLM text said. */
  datatype Record = Record(
    frameId: nat,
    timestamp: real,
    phase: Phase,
    rawPhase: Option<Phase>,
    rawConfidence: Option<real>,
    progress: Progress,
    risk: Risk,
    imminentFailure: bool,
    confidence: real,
    needsReview: bool,
    trigger: Trigger)

  /** A snapshot with its working phase label. */
  datatype Point = Point(
    frameId: nat,
    timestamp: real,
    phase: Phase,
    onlinePhase: Phase,
    rawPhase: Option<Phase>,
    progress: Progress,
    risk: Risk,
    imminentFailure: bool,
    confidence: real,
    needsReview: bool,
    trigger: Trigger,
    source: Source,
    corrected: bool,
    correctionReason: Option<string>)
  {
    /** Does this point carry failure evidence? */
    predicate Alarming() { risk == High || imminentFailure }
  }

  /** One phase segment of the timeline. */
  datatype Segment = Segment(
    index: nat,
    phase: Phase,
    startFrame: nat,
    endFrame: nat,
    startTimestamp: real,
    endTimestamp: real,
    duration: real,
    snapshotCount: nat,
    progress: Progress,
    maxRisk: Risk,
    needsReviewCount: nat,
    imminentCount: nat,
    meanConfidence: real,
    triggers: set<Trigger>,
    corrected: bool,
    correctionReasons: set<string>,
    evidenceFrames: seq<nat>,
    zeroDurationReason: Option<string>)
  {
    predicate Alarming() { maxRisk == High || imminentCount > 0 }
  }

  /** One recorded VSA window of the rollout. */
  datatype Window = Window(
    eventType: string,
    anchor: Option<int>,
    end: Option<int>,
    keyframes: seq<int>)

  datatype Reason =
    | StartFrame | EndFrame | PhaseBoundary | FailureCandidate | MarkedForReview
    | VisualDisagreement | VsaWindow | FinalObservationFrame

  datatype KeyFrame = KeyFrame(frameId: int, reasons: set<Reason>, eventTypes: set<string>)

  /** The offline evidence of one closed rollout; `images` lists the frames that have image files. */
  datatype Evidence = Evidence(
    records: seq<Record>,
    phases: seq<Phase>,
    windows: seq<Window>,
    images: seq<int>,
    keyFrames: seq<KeyFrame>)
  {
    /** The loader sorts snapshots by time. */
    ghost predicate Chronological() {
      forall i, j :: 0 <= i < j < |records| ==> records[i].timestamp <= records[j].timestamp
    }

    /** Snapshots are validated: confidence lies in the unit interval. */
    ghost predicate ConfidenceInUnit() {
      forall i :: 0 <= i < |records| ==> 0.0 <= records[i].confidence <= 1.0
    }

    function Terminal(): Option<Phase> {
      if phases == [] then None else Some(phases[|phases| - 1])
    }
  }

  function NeedsReviewCount(records: seq<Record>): nat {
    if records == [] then 0
    else NeedsReviewCount(records[..|records| - 1]) + if records[|records| - 1].needsReview then 1 else 0
  }

  function ImminentCount(records: seq<Record>): nat {
    if records == [] then 0
    else ImminentCount(records[..|records| - 1]) + if records[|records| - 1].imminentFailure then 1 else 0
  }

  // ------------------------------------------------------------- arithmetic

  function MaxReal(a: real, b: real): (r: real) { if a < b then b else a }

  function MinReal(a: real, b: real): (r: real) { if b < a then b else a }

  /** Rounding to three decimals, ties to even. */
  function Round3(x: real): real {
    var t := x * 1000.0;
    var below := t.Floor;
    var rest := t - below as real;
    var n := if rest < 0.5 || (rest == 0.5 && below % 2 == 0) then below else below + 1;
    n as real / 1000.0
  }

  /** The rounded value is the nearest thousandth, an even one on a tie. */
  lemma Round3IsNearest(x: real) returns (n: int)
    ensures Round3(x) == n as real / 1000.0
    ensures -0.5 <= x * 1000.0 - n as real <= 0.5
    ensures x * 1000.0 - n as real == 0.5 || n as real - x * 1000.0 == 0.5 ==> n % 2 == 0
  {
    var t := x * 1000.0;
    n := if t - t.Floor as real < 0.5 || (t - t.Floor as real == 0.5 && t.Floor % 2 == 0) then t.Floor else t.Floor + 1;
  }

  /** Rounding never leaves an interval whose ends are multiples of a thousandth. */
  lemma Round3KeepsBounds(x: real, lo: int, hi: int)
    requires lo as real / 1000.0 <= x <= hi as real / 1000.0
    ensures lo as real / 1000.0 <= Round3(x) <= hi as real / 1000.0
  {
    var t := x * 1000.0;
    assert lo as real <= t <= hi as real;
    assert lo <= t.Floor <= hi;
  }
}
