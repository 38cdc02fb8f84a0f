/** What the timeline operations compute, said in the fields of points and segments alone. */
module SegmentLaws {
  import opened Common
  import opened ReviewData
  import opened Timeline
  import opened Segments

  // --------------------------------------------------------------- jitter filter

  /** The point reports nothing that must not be smoothed away. */
  ghost predicate SaysNothing(p: Point) {
    && !p.corrected && !p.imminentFailure && !p.needsReview
    && p.risk != High && p.progress != Regressing
    && p.trigger != FinalObservation && p.trigger != SequenceStart
    && p.confidence <= 0.65
  }

  /** A point changes exactly when its two neighbours agree with each other and not with it and it says
      nothing; it then takes their phase and a note of the correction. */
  lemma FilterExactly(points: seq<Point>, i: nat)
    requires i < |points|
    ensures |Filtered(points)| == |points|
    ensures var p, q := points[i], Filtered(points)[i];
      if 0 < i < |points| - 1 && points[i - 1].phase == points[i + 1].phase != p.phase && SaysNothing(p)
      then q == p.(phase := points[i - 1].phase, source := TimelineFilter, corrected := true,
                   correctionReason := Some("isolated_phase_jitter_suppressed"))
      else q == p
  {
  }

  // -------------------------------------------------------------------- records

  ghost function Flagged(group: seq<Point>): set<int> { set i | 0 <= i < |group| && group[i].needsReview }

  ghost function Imminent(group: seq<Point>): set<int> { set i | 0 <= i < |group| && group[i].imminentFailure }

  lemma {:induction false} CountsAreSizes(group: seq<Point>)
    ensures PointTotals(group).needsReview == |Flagged(group)|
    ensures PointTotals(group).imminent == |Imminent(group)|
  {
    hide Flagged, Imminent, LastPointTotals;
    if group == [] {
      NothingCounted();
    } else {
      var init := group[..|group| - 1];
      CountsAreSizes(init);
      OneMoreFlagged(group);
      OneMoreImminent(group);
      LastCounts(group);
    }
  }

  lemma NothingCounted()
    ensures Flagged([]) == {} && Imminent([]) == {}
  {
  }

  lemma LastCounts(group: seq<Point>)
    requires group != []
    ensures LastPointTotals(group).needsReview == (if Last(group).needsReview then 1 else 0)
    ensures LastPointTotals(group).imminent == (if Last(group).imminentFailure then 1 else 0)
  {
  }

  lemma OneMoreFlagged(group: seq<Point>)
    requires group != []
    ensures |Flagged(group)| == |Flagged(group[..|group| - 1])| + if Last(group).needsReview then 1 else 0
  {
    var n := |group| - 1;
    assert Flagged(group) == Flagged(group[..n]) + (if group[n].needsReview then {n} else {});
  }

  lemma OneMoreImminent(group: seq<Point>)
    requires group != []
    ensures |Imminent(group)| == |Imminent(group[..|group| - 1])| + if Last(group).imminentFailure then 1 else 0
  {
    var n := |group| - 1;
    assert Imminent(group) == Imminent(group[..n]) + (if group[n].imminentFailure then {n} else {});
  }

  ghost predicate HasRisk(group: seq<Point>, risk: Risk) {
    exists p :: p in group && p.risk == risk
  }

  /** The worst of the risks that occur: high, then medium, then low. */
  lemma WorstRiskExactly(group: seq<Point>, index: nat)
    requires group != []
    ensures TimelineRecord(group, index).maxRisk ==
      if HasRisk(group, High) then High
      else if HasRisk(group, Medium) then Medium
      else if HasRisk(group, Low) then Low
      else UnknownRisk
  {
    hide Dominant, ConfidenceSum, AlarmFrames, PointTotals, Round3, Votes;
    var risks := set p | p in group :: p.risk;
    forall risk ensures risk in risks <==> HasRisk(group, risk) {
    }
  }

  lemma {:induction false} AlarmFramesExactly(group: seq<Point>, f: nat)
    ensures f in AlarmFrames(group) <==>
      exists p :: p in group && p.frameId == f && (p.risk == High || p.imminentFailure)
  {
    if group != [] {
      var init, last := group[..|group| - 1], Last(group);
      AlarmFramesExactly(init, f);
      assert forall p :: p in group <==> p in init || p == last by { assert group == init + [last]; }
    }
  }

  /** The numbers, times and marks of a segment record, from its points. */
  lemma RecordExactly(group: seq<Point>, index: nat)
    requires group != []
    ensures var s, first, last := TimelineRecord(group, index), group[0], group[|group| - 1];
      && s.index == index && s.phase == first.phase && s.snapshotCount == |group|
      && s.startFrame == first.frameId && s.endFrame == last.frameId
      && s.startTimestamp == first.timestamp && s.endTimestamp == last.timestamp
      && s.duration == (if last.timestamp < first.timestamp then 0.0 else last.timestamp - first.timestamp)
      && s.needsReviewCount == |Flagged(group)| && s.imminentCount == |Imminent(group)|
      && s.zeroDurationReason == None
      && (s.corrected <==> exists p :: p in group && p.corrected)
      && (forall t :: t in s.triggers <==> exists p :: p in group && p.trigger == t)
      && (forall r :: r in s.correctionReasons <==> exists p :: p in group && p.correctionReason == Some(r))
  {
    hide Dominant, ConfidenceSum, AlarmFrames, PointTotals, Round3, Votes, WorstRisk, Flagged, Imminent;
    CountsAreSizes(group);
  }

  ghost predicate IsEvidenceFrame(group: seq<Point>, f: nat)
    requires group != []
  {
    || f == group[0].frameId || f == group[|group| - 1].frameId
    || exists p :: p in group && p.frameId == f && (p.risk == High || p.imminentFailure)
  }

  /** The evidence frames are the first and the last frame and those of alarming points, each once, the
      first frame in front. */
  lemma EvidenceFramesExactly(group: seq<Point>, index: nat)
    requires group != []
    ensures var frames := TimelineRecord(group, index).evidenceFrames;
      && NoDuplicates(frames) && frames != [] && frames[0] == group[0].frameId
      && forall f :: f in frames <==> IsEvidenceFrame(group, f)
  {
    hide Dominant, ConfidenceSum, AlarmFrames, PointTotals, Round3, Votes, WorstRisk;
    var frames := TimelineRecord(group, index).evidenceFrames;
    forall f ensures f in frames <==> IsEvidenceFrame(group, f) {
      AlarmFramesExactly(group, f);
    }
  }

  /** The sum under the mean is additive, so it is the sum of the confidences. */
  lemma {:induction false} ConfidenceSumAdds(a: seq<Point>, b: seq<Point>)
    ensures ConfidenceSum(a + b) == ConfidenceSum(a) + ConfidenceSum(b)
    ensures |a| == 1 ==> ConfidenceSum(a) == a[0].confidence
  {
    if |a| == 1 {
      assert a[..0] == [];
    }
    if b == [] {
      assert a + b == a;
    } else {
      ConfidenceSumAdds(a, b[..|b| - 1]);
      assert (a + b)[..|a + b| - 1] == a + b[..|b| - 1];
    }
  }

  lemma {:induction false} VotesAreSizes(group: seq<Point>, progress: Progress)
    ensures Votes(group, progress) == |Voting(group, progress)|
  {
    if group != [] {
      var n := |group| - 1;
      var init := group[..n];
      VotesAreSizes(init, progress);
      assert Voting(group, progress) == Voting(init, progress) + (if group[n].progress == progress then {n} else {});
    }
  }

  ghost function Voting(group: seq<Point>, progress: Progress): set<int> {
    set i | 0 <= i < |group| && group[i].progress == progress
  }

  lemma MeanAndProgressExactly(group: seq<Point>, index: nat)
    requires group != []
    ensures TimelineRecord(group, index).meanConfidence == Round3(ConfidenceSum(group) / |group| as real)
    ensures exists i: nat ::
      i < |group| && group[i].progress == TimelineRecord(group, index).progress && WinsFrom(group, |group|, i)
  {
    hide PointTotals, AlarmFrames, WorstRisk, ConfidenceSum, Votes, Round3;
  }

  // --------------------------------------------------------------------- cleanup

  /** A segment of no duration carries evidence of its own. */
  ghost predicate CarriesEvidence(s: Segment, terminal: Option<Phase>) {
    || s.maxRisk == High || s.imminentCount > 0 || s.needsReviewCount > 0 || s.progress == Regressing
    || FinalObservation in s.triggers || SequenceStart in s.triggers || terminal == Some(s.phase)
  }

  /** The segments that stay: those with a duration, those with evidence, the first and the last. */
  ghost predicate Stays(timeline: seq<Segment>, i: nat, terminal: Option<Phase>)
    requires i < |timeline|
  {
    timeline[i].duration > 0.0 || i == 0 || i == |timeline| - 1 || CarriesEvidence(timeline[i], terminal)
  }

  /** The reason noted: for a duration none beyond the one already there, otherwise the first that applies. */
  ghost predicate NotesReason(s: Segment, terminal: Option<Phase>, reason: Option<string>) {
    if s.duration > 0.0 then reason == s.zeroDurationReason
    else if s.maxRisk == High || s.imminentCount > 0 then reason == Some("failure_evidence")
    else if s.needsReviewCount > 0 then reason == Some("needs_review")
    else if s.progress == Regressing then reason == Some("regressing")
    else if FinalObservation in s.triggers then reason == Some("final_observation")
    else if SequenceStart in s.triggers then reason == Some("sequence_start")
    else if terminal == Some(s.phase) then reason == Some("terminal_phase")
    else reason == Some("timeline_boundary")
  }

  lemma SurvivesExactly(timeline: seq<Segment>, i: nat, terminal: Option<Phase>)
    requires i < |timeline|
    ensures Survives(timeline, i, terminal) <==> Stays(timeline, i, terminal)
    ensures Stays(timeline, i, terminal) ==>
      && NotesReason(timeline[i], terminal, Annotated(timeline, i, terminal).zeroDurationReason)
      && Annotated(timeline, i, terminal) ==
        timeline[i].(zeroDurationReason := Annotated(timeline, i, terminal).zeroDurationReason)
  {
  }

  /** `kept` lists, in increasing order, exactly the places among the first `n` that stay. */
  ghost predicate StayingPlaces(timeline: seq<Segment>, terminal: Option<Phase>, n: nat, kept: seq<nat>)
    requires n <= |timeline|
  {
    && (forall a, b :: 0 <= a < b < |kept| ==> kept[a] < kept[b])
    && (forall i: nat :: i in kept <==> i < n && Stays(timeline, i, terminal))
  }

  /** `out` is the segments at these places, each with its reason noted. */
  ghost predicate SegmentsAt(timeline: seq<Segment>, terminal: Option<Phase>, kept: seq<nat>, out: seq<Segment>) {
    && |out| == |kept|
    && forall k :: 0 <= k < |kept| ==> kept[k] < |timeline| && IsNoted(timeline[kept[k]], terminal, out[k])
  }

  ghost predicate IsNoted(s: Segment, terminal: Option<Phase>, t: Segment) {
    t == s.(zeroDurationReason := t.zeroDurationReason) && NotesReason(s, terminal, t.zeroDurationReason)
  }

  lemma {:induction false} KeptExactly(timeline: seq<Segment>, terminal: Option<Phase>, n: nat) returns (kept: seq<nat>)
    requires n <= |timeline|
    ensures StayingPlaces(timeline, terminal, n, kept)
    ensures SegmentsAt(timeline, terminal, kept, Kept(timeline, terminal, n))
  {
    hide Survives, Annotated, Stays, NotesReason, StayingPlaces, SegmentsAt;
    if n == 0 {
      kept := [];
      NothingKept(timeline, terminal);
    } else {
      var init := KeptExactly(timeline, terminal, n - 1);
      SurvivesExactly(timeline, n - 1, terminal);
      PlacesStep(timeline, terminal, n - 1, init);
      SegmentsStep(timeline, terminal, n - 1, init, Kept(timeline, terminal, n - 1));
      kept := if Survives(timeline, n - 1, terminal) then init + [n - 1] else init;
      assert Kept(timeline, terminal, n - 1) + [] == Kept(timeline, terminal, n - 1);
    }
  }

  lemma NothingKept(timeline: seq<Segment>, terminal: Option<Phase>)
    ensures StayingPlaces(timeline, terminal, 0, []) && SegmentsAt(timeline, terminal, [], [])
  {
  }

  lemma PlacesStep(timeline: seq<Segment>, terminal: Option<Phase>, n: nat, init: seq<nat>)
    requires n < |timeline| && StayingPlaces(timeline, terminal, n, init)
    ensures StayingPlaces(timeline, terminal, n + 1, if Stays(timeline, n, terminal) then init + [n] else init)
  {
    hide Stays;
    forall a | 0 <= a < |init| ensures init[a] < n {
      assert init[a] in init;
    }
  }

  lemma SegmentsStep(timeline: seq<Segment>, terminal: Option<Phase>, n: nat, init: seq<nat>, out: seq<Segment>)
    requires n < |timeline| && SegmentsAt(timeline, terminal, init, out)
    ensures Stays(timeline, n, terminal) ==>
      SegmentsAt(timeline, terminal, init + [n], out + [Annotated(timeline, n, terminal)])
  {
    hide Stays, Annotated, NotesReason;
    SurvivesExactly(timeline, n, terminal);
  }

  /** The cleanup returns the segments that stay, in order, renumbered, each with its reason, and drops
      every other. */
  lemma CleanupExactly(timeline: seq<Segment>, terminal: Option<Phase>) returns (kept: seq<nat>)
    ensures StayingPlaces(timeline, terminal, |timeline|, kept)
    ensures var out := Cleaned(timeline, terminal);
      && |out| == |kept|
      && forall k :: 0 <= k < |kept| ==>
        && kept[k] < |timeline| && NotesReason(timeline[kept[k]], terminal, out[k].zeroDurationReason)
        && out[k] == timeline[kept[k]].(index := k, zeroDurationReason := out[k].zeroDurationReason)
  {
    hide Stays, NotesReason, Kept;
    kept := KeptExactly(timeline, terminal, |timeline|);
    var all := Kept(timeline, terminal, |timeline|);
    forall k | 0 <= k < |kept| ensures IsNoted(timeline[kept[k]], terminal, all[k]) {
    }
  }

  /** A segment of no duration and no evidence, with neighbours on both sides, is gone. */
  lemma EmptySegmentIsDropped(timeline: seq<Segment>, i: nat, terminal: Option<Phase>)
    requires 0 < i < |timeline| - 1 && timeline[i].duration <= 0.0 && !CarriesEvidence(timeline[i], terminal)
    ensures |Cleaned(timeline, terminal)| < |timeline|
  {
    hide CarriesEvidence, Cleaned;
    var kept := CleanupExactly(timeline, terminal);
    assert i !in kept;
    PlacesBelow(kept, i, |timeline|);
  }

  lemma PlacesBelow(kept: seq<nat>, gap: nat, n: nat)
    requires forall a, b :: 0 <= a < b < |kept| ==> kept[a] < kept[b]
    requires forall a :: 0 <= a < |kept| ==> kept[a] < n
    requires gap !in kept && gap < n
    ensures |kept| < n
  {
    if kept != [] {
      var m := |kept| - 1;
      assert kept[m] in kept;
      if kept[m] > gap {
        PlacesBelow(kept[..m], gap, n - 1);
      } else {
        IncreasingLength(kept, m);
      }
    }
  }

  lemma {:induction false} IncreasingLength(kept: seq<nat>, m: nat)
    requires m < |kept| && forall a, b :: 0 <= a < b < |kept| ==> kept[a] < kept[b]
    ensures m <= kept[m]
  {
    if m > 0 {
      IncreasingLength(kept, m - 1);
    }
  }
}
