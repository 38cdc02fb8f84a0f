/** Concrete rollouts on which the guard for uncovered failure verdicts does what one would not expect. */
module ReviewExamples {
  import opened Common
  import opened ReviewData
  import opened Timeline
  import opened Segments
  import opened ReviewImages
  import opened ReviewPackets
  import opened PacketVerdict
  import opened Annotation
  import opened AnnotationLaws
  import opened PacketCoverage

  function Snapshot(frame: nat, phase: Phase): Record {
    Record(frame, 0.0, phase, None, None, Advancing, Low, false, 0.9, false, Heartbeat)
  }

  function SingleFrame(event: string, frame: int): Window { Window(event, Some(frame), None, []) }

  lemma OneSnapshotTimeline(e: Evidence)
    requires |e.records| == 1 && e.records[0].rawPhase == None
    ensures var timeline := Deterministic(e, InitialPoints(e)).timeline;
      timeline != [] && Last(timeline).phase == e.records[0].phase
  {
    hide PhaseTimeline, DetermineOutcome, Retries;
    TimelineEnds(InitialPoints(e), e.Terminal());
  }

  // ------------------------------------------- a later window protects the success

  /** One terminal snapshot, images of frames 1 and 5, and windows over one frame each. */
  function TwoImages(windows: seq<Window>): Evidence {
    Evidence([Snapshot(1, Named(0))], [Named(0)], windows, [1, 5], [])
  }

  const ONE_IMAGE_EACH := Settings(true, 1, [1, 5])

  lemma TwoImagesSucceed(windows: seq<Window>)
    ensures var e := TwoImages(windows); Deterministic(e, InitialPoints(e)).outcome.finalSuccess
  {
    hide Deterministic, EndSeen;
    var e := TwoImages(windows);
    OneSnapshotTimeline(e);
    DeterministicSuccessExactly(e, InitialPoints(e));
  }

  lemma TwoImagesArePackets(windows: seq<Window>)
    ensures PacketsToReview(TwoImages(windows), 1, [1, 5]) != []
  {
    hide PacketsToReview, Candidates;
    var e := TwoImages(windows);
    CandidateCount(e, [1, 5]);
    EveryImageReviewedOnce(e, 1, [1, 5]);
  }

  const SEEN_THEN_LATER := [SingleFrame("final_observation", 1), SingleFrame("contact_transition", 5)]

  const SEEN_LAST := [SingleFrame("final_observation", 5)]

  lemma SingleFrameWindow(event: string, frame: nat)
    ensures WindowFrames(SingleFrame(event, frame)) == [frame] && SortFrame(SingleFrame(event, frame)) == frame
  {
    assert Dedupe([frame]) == [frame] by { OneIsDistinct(frame); }
  }

  lemma OneIsDistinct(frame: int)
    ensures Dedupe([frame]) == [frame]
  {
    assert [frame][..0] == [];
  }

  lemma EpisodeEndAt(e: Evidence, end: int)
    requires end in AllWindowFrames(e.windows) && forall f :: f in AllWindowFrames(e.windows) ==> f <= end
    requires forall f :: f in e.images ==> f <= end
    requires forall i :: 0 <= i < |e.records| ==> e.records[i].frameId <= end
    ensures EpisodeEnd(e) == Some(end)
  {
    hide AllWindowFrames;
    var shots := seq(|e.records|, i requires 0 <= i < |e.records| => e.records[i].frameId as int);
    var frames := shots + AllWindowFrames(e.windows) + e.images;
    assert end in frames && forall f :: f in frames ==> f <= end;
    assert frames != [] && Max(frames) == end;
  }

  lemma LaterWindows()
    ensures var ws := SEEN_THEN_LATER;
      FinalWindows(ws) == [ws[0]] && WindowsAfter(ws, 1) == [ws[1]] && AllWindowFrames(ws) == [1, 5]
  {
    hide WindowFrames, SortFrame;
    var ws := SEEN_THEN_LATER;
    SingleFrameWindow("final_observation", 1);
    SingleFrameWindow("contact_transition", 5);
    assert ws[..1] == [ws[0]] && ws[..1][..0] == [];
    assert FinalWindows(ws[..1]) == [ws[0]] && WindowsAfter(ws[..1], 1) == [] && AllWindowFrames(ws[..1]) == [1];
  }

  lemma GroupsOneAndFive()
    ensures AddGroup([], [1]) == [[1]]
    ensures AddGroup([[1]], [5]) == [[1], [5]]
    ensures AddGroup([[1], [5]], [5]) == [[1], [5]]
  {
    hide Dedupe;
    OneIsDistinct(1);
    OneIsDistinct(5);
    assert !Subsumed([[1]], [5]) by { assert 5 in [5]; }
    assert Subsumed([[1], [5]], [5]) by { assert [[1], [5]][1] == [5]; }
  }

  lemma LaterGroups()
    ensures TerminalGroups(TwoImages(SEEN_THEN_LATER)) == [[1], [5]]
  {
    hide WindowFrames, SortFrame, AddGroup, FinalWindows, WindowsAfter, AllWindowFrames, EpisodeEnd;
    SingleFrameWindow("final_observation", 1);
    SingleFrameWindow("contact_transition", 5);
    LaterWindows();
    GroupsOneAndFive();
    EpisodeEndAt(TwoImages(SEEN_THEN_LATER), 5);
  }

  lemma LastGroups()
    ensures TerminalGroups(TwoImages(SEEN_LAST)) == [[5]]
  {
    hide WindowFrames, SortFrame, Max, Dedupe;
    var e, ws := TwoImages(SEEN_LAST), SEEN_LAST;
    SingleFrameWindow("final_observation", 5);
    OneIsDistinct(5);
    assert ws[..0] == [];
    assert FinalWindows(ws) == [ws[0]];
    assert WindowsAfter(ws, 5) == [];
    assert AllWindowFrames(ws) == [5];
    assert AddGroup([], [5]) == [[5]];
    EpisodeEndAt(e, 5);
    assert Subsumed([[5]], [5]) by { assert [[5]][0] == [5]; }
  }

  /** A final observation at frame 1 and a later window at frame 5: whatever the VLM says about the two
      packets, a failure verdict cannot take the success away. */
  lemma LaterWindowProtects(oracle: Oracle)
    ensures !Overruled(TwoImages(SEEN_THEN_LATER), ONE_IMAGE_EACH, oracle)
  {
    hide TerminalGroups, PacketsToReview, AnnotationOf, Deterministic, InitialPoints;
    var e := TwoImages(SEEN_THEN_LATER);
    TwoImagesSucceed(SEEN_THEN_LATER);
    TwoImagesArePackets(SEEN_THEN_LATER);
    LaterGroups();
    assert Scattered([[1], [5]]) by {
      assert [[1], [5]][0] == [1] && [[1], [5]][1] == [5];
      assert !Hits([5], [1]) && !Hits([1], [5]);
    }
    PacketsCannotOverrule(e, ONE_IMAGE_EACH, oracle);
  }

  lemma LastChunkMeetsAll()
    ensures OneChunkMeetsAll(TwoImages(SEEN_LAST), 1)
  {
    hide TerminalGroups;
    LastGroups();
    assert Filter([5], [1, 5], []) == [5] by { assert [5][..0] == []; }
    assert FirstIndexed([[5]], [1, 5], 0);
    assert Hits([5], Take([5], 1)) by { assert 5 in [5][..1]; }
  }

  /** With the final observation at frame 5 and no later window the same two packets can. */
  lemma LastObservationCanBeOverruled()
    ensures Overruled(TwoImages(SEEN_LAST), ONE_IMAGE_EACH, AlwaysBroken())
  {
    hide TerminalGroups, PacketsToReview, AnnotationOf, Deterministic, InitialPoints, AlwaysBroken, FirstPacketMeetsAll,
      OneChunkMeetsAll;
    var e := TwoImages(SEEN_LAST);
    TwoImagesSucceed(SEEN_LAST);
    TwoImagesArePackets(SEEN_LAST);
    LastGroups();
    LastChunkMeetsAll();
    FirstPacketMeetsAllExactly(e, 1, [1, 5]);
    AllBreak(e, ONE_IMAGE_EACH);
    PacketFailureExactly(e, ONE_IMAGE_EACH, AlwaysBroken());
  }

  // ------------------------------------------------- a failure verdict promotes

  /** One non-terminal snapshot with an image, and a later window whose frame has none. */
  const UNFINISHED := Evidence(
    [Snapshot(0, Named(0))], [Named(0), Named(1)], [SingleFrame("contact_transition", 5)], [0],
    [KeyFrame(0, {StartFrame}, {})])

  const ONE_PROMPT := Settings(true, 4, [0])

  /** The VLM reports failure and names the terminal phase. */
  function FailedAtTheEnd(): Reply {
    Reply(
      Absent, Absent, Absent, Some(false), None, Some(Named(1)), None, None, None, None, None, NoLabel, None,
      StateOther, None, PostOther)
  }

  function SaysFailed(): Oracle { Oracle(_ => Answered(FailedAtTheEnd()), Answered(FailedAtTheEnd())) }

  lemma UnfinishedGroups()
    ensures TerminalGroups(UNFINISHED) == [[5]]
  {
    hide WindowFrames, SortFrame, Max, Dedupe;
    var e, ws := UNFINISHED, UNFINISHED.windows;
    SingleFrameWindow("contact_transition", 5);
    OneIsDistinct(5);
    assert ws[..0] == [];
    assert FinalWindows(ws) == [];
    assert AllWindowFrames(ws) == [5];
    assert AddGroup([], [5]) == [[5]];
    EpisodeEndAt(e, 5);
    assert Subsumed([[5]], [5]) by { assert [[5]][0] == [5]; }
  }

  lemma UnfinishedFails()
    ensures !Deterministic(UNFINISHED, InitialPoints(UNFINISHED)).outcome.finalSuccess
  {
    hide Deterministic, FinalObservationAnchors;
    var e := UNFINISHED;
    OneSnapshotTimeline(e);
    DeterministicSuccessExactly(e, InitialPoints(e));
    UnfinishedTimeline();
  }

  /** Its timeline has no terminal segment. */
  lemma UnfinishedTimeline()
    ensures forall k :: 0 <= k < |Deterministic(UNFINISHED, InitialPoints(UNFINISHED)).timeline| ==>
      Deterministic(UNFINISHED, InitialPoints(UNFINISHED)).timeline[k].phase == Named(0)
  {
    hide Retries, DetermineOutcome;
    var points := InitialPoints(UNFINISHED);
    OnePointTimeline(points, UNFINISHED.Terminal());
  }

  lemma OnePointTimeline(points: seq<Point>, terminal: Option<Phase>)
    requires |points| == 1
    ensures forall k :: 0 <= k < |PhaseTimeline(points, terminal)| ==>
      PhaseTimeline(points, terminal)[k].phase == points[0].phase
  {
    hide TimelineRecord, KeepReason, Survives;
    var filtered := Filtered(points);
    assert filtered == points;
    assert points[..0] == [] && Groups([]) == [];
    assert points == [points[0]] && Joined([], points[0]) == [[points[0]]];
    assert Groups(points) == [points];
    assert [points][..0] == [];
    assert Records([points]) == [TimelineRecord(points, 0)];
    assert TimelineRecord(points, 0).phase == points[0].phase by { RecordPhase(points, 0); }
    var all, kept := [TimelineRecord(points, 0)], Kept([TimelineRecord(points, 0)], terminal, 1);
    forall k | 0 <= k < |kept| ensures kept[k].phase == points[0].phase {
      KeptHasOrigin(all, terminal, 1, k);
    }
  }

  lemma UnfinishedShown()
    ensures PacketsToReview(UNFINISHED, 4, [0]) == []
    ensures Loaded(SelectedFrames(UNFINISHED, 4), [0], [0]) != []
    ensures forall f :: f in Loaded(SelectedFrames(UNFINISHED, 4), [0], [0]) ==> f == 0
  {
    hide TerminalGroups, Candidates, SelectedFrames, Filter;
    var e := UNFINISHED;
    CandidateCount(e, [0]);
    SelectionIsOptimal(e, 4);
    assert RowFrames(e.keyFrames)[0] == 0;
    assert InPool(e, 0) && 0 in Pool(e);
    var r := SelectedFrames(e, 4);
    assert |Pool(e)| > 0;
    assert |r| > 0 && r[0] in r && InPool(e, r[0]);
  }

  lemma PromptReview(e: Evidence, s: Settings, oracle: Oracle, reply: Reply)
    requires s.useVlm && e.records != [] && PacketsToReview(e, s.maxImages, s.readable) == []
    requires oracle.single == Answered(reply)
    ensures var shown := Loaded(SelectedFrames(e, s.maxImages), e.images, s.readable);
      shown != [] ==>
        AnnotationOf(e, s, oracle).review == Reviewed(reply, ImageCoverage(e, shown).coversEpisodeEnd)
  {
    hide Deterministic, ImageCoverage, Applied, PacketsToReview, Loaded, SelectedFrames, InitialPoints;
    var base, shown := Deterministic(e, InitialPoints(e)), Loaded(SelectedFrames(e, s.maxImages), e.images, s.readable);
    AppliedStoresReview(e, base, reply, Covers(e, shown));
  }

  /** The deterministic pass fails, the VLM reports failure as well, and the rollout is a success. */
  lemma FailureVerdictPromotes()
    ensures !Deterministic(UNFINISHED, InitialPoints(UNFINISHED)).outcome.finalSuccess
    ensures var r := AnnotationOf(UNFINISHED, ONE_PROMPT, SaysFailed());
      r.review.Reviewed? && SuccessValue(r.review.reply) == Some(false) && r.outcome.finalSuccess
  {
    hide AnnotationOf, Deterministic, TerminalGroups, PacketsToReview, ImageCoverage, Loaded, SelectedFrames, InitialPoints;
    var e := UNFINISHED;
    UnfinishedFails();
    UnfinishedShown();
    UnfinishedGroups();
    PromptReview(e, ONE_PROMPT, SaysFailed(), FailedAtTheEnd());
    var shown := Loaded(SelectedFrames(e, 4), [0], [0]);
    CoverageExactly(e, shown);
    assert [[5]][0] == [5] && !Hits([5], shown);
    UncoveredFailureCanPromote(e, ONE_PROMPT, SaysFailed());
  }
}
