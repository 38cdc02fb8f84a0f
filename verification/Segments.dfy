/** Timeline segments: one record per phase run, zero-duration cleanup, and what both conserve. */
module Segments {
  import opened Common
  import opened ReviewData
  import opened Timeline

  // ---------------------------------------------------------------- records

  function AlarmFrames(group: seq<Point>): seq<nat> {
    if group == [] then []
    else AlarmFrames(group[..|group| - 1]) + if Last(group).Alarming() then [Last(group).frameId] else []
  }

  function ConfidenceSum(group: seq<Point>): real {
    if group == [] then 0.0 else ConfidenceSum(group[..|group| - 1]) + Last(group).confidence
  }

  /** The most frequent progress label; among equals, the one seen first. */
  function Dominant(group: seq<Point>, n: nat): (r: Progress)
    requires 0 < n <= |group|
    ensures exists i :: 0 <= i < n && group[i].progress == r && WinsFrom(group, n, i)
  {
    if n == 1 then group[0].progress
    else
      var best := Dominant(group, n - 1);
      if Votes(group, best) < Votes(group, group[n - 1].progress) then group[n - 1].progress else best
  }

  /** No label has more votes than that of point `i`, and those seen before it have fewer. */
  ghost predicate WinsFrom(group: seq<Point>, n: nat, i: nat)
    requires i < n <= |group|
  {
    && (forall j :: 0 <= j < n ==> Votes(group, group[j].progress) <= Votes(group, group[i].progress))
    && (forall j :: 0 <= j < i ==> Votes(group, group[j].progress) < Votes(group, group[i].progress))
  }

  function Votes(group: seq<Point>, progress: Progress): nat {
    if group == [] then 0
    else Votes(group[..|group| - 1], progress) + if Last(group).progress == progress then 1 else 0
  }

  function WorstRisk(risks: set<Risk>): Risk {
    if High in risks then High
    else if Medium in risks then Medium
    else if Low in risks then Low
    else UnknownRisk
  }

  function TimelineRecord(group: seq<Point>, index: nat): Segment
    requires group != []
  {
    var start, end, totals := group[0], Last(group), PointTotals(group);
    Segment(
      index, start.phase, start.frameId, end.frameId, start.timestamp, end.timestamp,
      MaxReal(0.0, end.timestamp - start.timestamp),
      |group|,
      Dominant(group, |group|),
      WorstRisk(set p | p in group :: p.risk),
      totals.needsReview,
      totals.imminent,
      Round3(ConfidenceSum(group) / |group| as real),
      set p | p in group :: p.trigger,
      exists p :: p in group && p.corrected,
      set p | p in group && p.correctionReason.Some? :: p.correctionReason.value,
      Dedupe([start.frameId] + AlarmFrames(group) + [end.frameId]),
      None)
  }

  function Records(groups: seq<seq<Point>>): seq<Segment>
    requires NoneEmpty(groups)
  {
    seq(|groups|, i requires 0 <= i < |groups| => TimelineRecord(groups[i], i))
  }

  // ---------------------------------------------------- zero-duration cleanup

  function ZeroDurationEvidence(s: Segment, terminal: Option<Phase>): Option<string> {
    if s.Alarming() then Some("failure_evidence")
    else if s.needsReviewCount > 0 then Some("needs_review")
    else if s.progress == Regressing then Some("regressing")
    else if FinalObservation in s.triggers then Some("final_observation")
    else if SequenceStart in s.triggers then Some("sequence_start")
    else if terminal == Some(s.phase) then Some("terminal_phase")
    else None
  }

  function KeepReason(timeline: seq<Segment>, i: nat, terminal: Option<Phase>): Option<string>
    requires i < |timeline|
  {
    var reason := ZeroDurationEvidence(timeline[i], terminal);
    if reason == None && (i == 0 || i == |timeline| - 1) then Some("timeline_boundary") else reason
  }

  predicate Survives(timeline: seq<Segment>, i: nat, terminal: Option<Phase>)
    requires i < |timeline|
  {
    timeline[i].duration > 0.0 || KeepReason(timeline, i, terminal) != None
  }

  function Annotated(timeline: seq<Segment>, i: nat, terminal: Option<Phase>): Segment
    requires i < |timeline|
  {
    if timeline[i].duration > 0.0 then timeline[i]
    else timeline[i].(zeroDurationReason := KeepReason(timeline, i, terminal))
  }

  /** The survivors among the first `n` segments, not yet renumbered. */
  function Kept(timeline: seq<Segment>, terminal: Option<Phase>, n: nat): (out: seq<Segment>)
    requires n <= |timeline|
    ensures |out| <= n
  {
    if n == 0 then []
    else
      Kept(timeline, terminal, n - 1)
      + if Survives(timeline, n - 1, terminal) then [Annotated(timeline, n - 1, terminal)] else []
  }

  function Renumbered(timeline: seq<Segment>): seq<Segment> {
    seq(|timeline|, i requires 0 <= i < |timeline| => timeline[i].(index := i))
  }

  function Cleaned(timeline: seq<Segment>, terminal: Option<Phase>): seq<Segment> {
    Renumbered(Kept(timeline, terminal, |timeline|))
  }

  method CleanupZeroDurationSegments(timeline: seq<Segment>, terminal: Option<Phase>) returns (cleaned: seq<Segment>)
    ensures cleaned == Cleaned(timeline, terminal)
  {
    cleaned := [];
    for i := 0 to |timeline|
      invariant cleaned == Kept(timeline, terminal, i)
    {
      var segment := timeline[i];
      if segment.duration > 0.0 {
        cleaned := cleaned + [segment];
        continue;
      }
      var reason := ZeroDurationEvidence(segment, terminal);
      if reason == None && (i == 0 || i == |timeline| - 1) {
        reason := Some("timeline_boundary");
      }
      if reason == None {
        continue;
      }
      cleaned := cleaned + [segment.(zeroDurationReason := reason)];
    }
    ghost var kept := cleaned;
    for i := 0 to |cleaned|
      invariant |cleaned| == |kept|
      invariant forall k :: 0 <= k < |kept| ==> cleaned[k] == if k < i then kept[k].(index := k) else kept[k]
    {
      cleaned := cleaned[i := cleaned[i].(index := i)];
    }
  }

  function PhaseTimeline(points: seq<Point>, terminal: Option<Phase>): seq<Segment> {
    Cleaned(Records(Groups(Filtered(points))), terminal)
  }

  method PhaseTimelineFromPoints(points: seq<Point>, terminal: Option<Phase>) returns (timeline: seq<Segment>)
    ensures timeline == PhaseTimeline(points, terminal)
  {
    if points == [] {
      assert Filtered(points) == [];
      return [];
    }
    var filtered := SuppressIsolatedPhaseJitter(points);
    var groups := GroupByPhase(filtered);
    timeline := CleanupZeroDurationSegments(Records(groups), terminal);
  }

  // ------------------------------------------------------------ conservation

  datatype Totals = Totals(seconds: real, needsReview: nat, imminent: nat) {
    function Plus(other: Totals): Totals {
      Totals(seconds + other.seconds, needsReview + other.needsReview, imminent + other.imminent)
    }
  }

  const ZERO := Totals(0.0, 0, 0)

  /** Time spent between neighbours of equal phase, and the flagged points. */
  function PointTotals(points: seq<Point>): Totals {
    if points == [] then ZERO
    else PointTotals(points[..|points| - 1]).Plus(LastPointTotals(points))
  }

  function LastPointTotals(points: seq<Point>): Totals
    requires points != []
  {
    var n, p := |points| - 1, Last(points);
    Totals(
      if n > 0 && points[n - 1].phase == p.phase then p.timestamp - points[n - 1].timestamp else 0.0,
      if p.needsReview then 1 else 0,
      if p.imminentFailure then 1 else 0)
  }

  function TotalsOf(s: Segment): Totals { Totals(s.duration, s.needsReviewCount, s.imminentCount) }

  function SegmentTotals(timeline: seq<Segment>): Totals {
    if timeline == [] then ZERO else SegmentTotals(timeline[..|timeline| - 1]).Plus(TotalsOf(Last(timeline)))
  }

  ghost predicate InTimeOrder(points: seq<Point>) {
    forall i, j :: 0 <= i < j < |points| ==> points[i].timestamp <= points[j].timestamp
  }

  function GroupSum(groups: seq<seq<Point>>): Totals {
    if groups == [] then ZERO else GroupSum(groups[..|groups| - 1]).Plus(PointTotals(Last(groups)))
  }

  lemma PointTotalsAppend(points: seq<Point>, p: Point)
    ensures PointTotals(points + [p]) == PointTotals(points).Plus(LastPointTotals(points + [p]))
  {
    assert (points + [p])[..|points|] == points;
  }

  lemma GroupSumAppend(groups: seq<seq<Point>>, group: seq<Point>)
    ensures GroupSum(groups + [group]) == GroupSum(groups).Plus(PointTotals(group))
  {
    assert (groups + [group])[..|groups|] == groups;
  }

  /** What a point adds depends on the point before it alone. */
  lemma LastTotalsAgree(groups: seq<seq<Point>>, points: seq<Point>, p: Point)
    requires IsPhasePartition(groups, points)
    ensures LastPointTotals(points + [p]) ==
      LastPointTotals((if groups != [] && Last(Last(groups)).phase == p.phase then Last(groups) else []) + [p])
  {
    LastPointOfPartition(groups, points);
  }

  lemma JoinedSum(groups: seq<seq<Point>>, points: seq<Point>, p: Point)
    requires IsPhasePartition(groups, points)
    ensures GroupSum(Joined(groups, p)) == GroupSum(groups).Plus(LastPointTotals(points + [p]))
  {
    hide PointTotals, GroupSum, LastPointTotals;
    LastTotalsAgree(groups, points, p);
    if groups != [] && Last(Last(groups)).phase == p.phase {
      var head, previous := groups[..|groups| - 1], Last(groups);
      assert groups == head + [previous];
      GroupSumAppend(head, previous);
      GroupSumAppend(head, previous + [p]);
      PointTotalsAppend(previous, p);
    } else {
      GroupSumAppend(groups, [p]);
      PointTotalsAppend([], p);
      assert [] + [p] == [p];
      assert PointTotals([]) == ZERO by { EmptyTotals(); }
    }
  }

  lemma EmptyTotals()
    ensures PointTotals([]) == ZERO
  {
  }

  lemma LastPointOfPartition(groups: seq<seq<Point>>, points: seq<Point>)
    requires IsPhasePartition(groups, points)
    ensures groups == [] <==> points == []
    ensures groups != [] ==> Last(Last(groups)) == Last(points)
  {
  }

  lemma {:induction false} GroupsSum(points: seq<Point>)
    ensures GroupSum(Groups(points)) == PointTotals(points)
  {
    if points != [] {
      var init, p := points[..|points| - 1], Last(points);
      assert points == init + [p];
      GroupsSum(init);
      GroupsPartition(init);
      JoinedSum(Groups(init), init, p);
    }
  }

  /** Inside one phase the elapsed seconds telescope. */
  lemma {:induction false} OnePhaseSeconds(group: seq<Point>)
    requires group != [] && OnePhase(group)
    ensures PointTotals(group).seconds == Last(group).timestamp - group[0].timestamp
  {
    if |group| > 1 {
      var init := group[..|group| - 1];
      OnePhaseSeconds(init);
      assert Last(init) == group[|group| - 2];
    } else {
      assert group[..0] == [];
    }
  }

  lemma RecordTotals(group: seq<Point>, index: nat)
    requires group != [] && OnePhase(group) && InTimeOrder(group)
    ensures TotalsOf(TimelineRecord(group, index)) == PointTotals(group)
    ensures TimelineRecord(group, index).duration >= 0.0
  {
    OnePhaseSeconds(group);
  }

  lemma SegmentTotalsAppend(timeline: seq<Segment>, s: Segment)
    ensures SegmentTotals(timeline + [s]) == SegmentTotals(timeline).Plus(TotalsOf(s))
  {
    assert (timeline + [s])[..|timeline|] == timeline;
  }

  lemma {:induction false} RecordsSum(groups: seq<seq<Point>>)
    requires NoneEmpty(groups)
    requires forall k :: 0 <= k < |groups| ==> OnePhase(groups[k]) && InTimeOrder(groups[k])
    ensures SegmentTotals(Records(groups)) == GroupSum(groups)
    ensures forall k :: 0 <= k < |Records(groups)| ==> Records(groups)[k].duration >= 0.0
  {
    hide TimelineRecord, Dominant, PointTotals;
    if groups != [] {
      var k := |groups| - 1;
      RecordsSum(groups[..k]);
      assert Records(groups) == Records(groups[..k]) + [TimelineRecord(groups[k], k)];
      SegmentTotalsAppend(Records(groups[..k]), TimelineRecord(groups[k], k));
      RecordTotals(groups[k], k);
      assert forall j :: 0 <= j < k ==> Records(groups)[j] == Records(groups[..k])[j];
    }
  }

  /** A flattened sequence in time order has every group in time order. */
  lemma {:induction false} GroupsInTimeOrder(groups: seq<seq<Point>>)
    requires InTimeOrder(Flatten(groups))
    ensures forall k :: 0 <= k < |groups| ==> InTimeOrder(groups[k])
  {
    if groups != [] {
      var init, last := groups[..|groups| - 1], Last(groups);
      var flat, m := Flatten(groups), |Flatten(groups)| - |Last(groups)|;
      assert Flatten(init) == flat[..m] && last == flat[m..];
      GroupsInTimeOrder(init);
      assert forall k :: 0 <= k < |init| ==> groups[k] == init[k];
    }
  }

  /** A segment that the cleanup drops has nothing to conserve. */
  lemma DroppedIsEmpty(timeline: seq<Segment>, i: nat, terminal: Option<Phase>)
    requires i < |timeline| && timeline[i].duration >= 0.0
    ensures Survives(timeline, i, terminal) ==> TotalsOf(Annotated(timeline, i, terminal)) == TotalsOf(timeline[i])
    ensures !Survives(timeline, i, terminal) ==> TotalsOf(timeline[i]) == ZERO && !timeline[i].Alarming()
  {
  }

  lemma {:induction false} KeptTotals(timeline: seq<Segment>, terminal: Option<Phase>, n: nat)
    requires n <= |timeline|
    requires forall i :: 0 <= i < |timeline| ==> timeline[i].duration >= 0.0
    ensures SegmentTotals(Kept(timeline, terminal, n)) == SegmentTotals(timeline[..n])
  {
    hide Survives, Annotated, SegmentTotals;
    if n > 0 {
      var i := n - 1;
      var kept := Kept(timeline, terminal, i);
      KeptTotals(timeline, terminal, i);
      assert timeline[..n] == timeline[..i] + [timeline[i]];
      SegmentTotalsAppend(timeline[..i], timeline[i]);
      DroppedIsEmpty(timeline, i, terminal);
      if Survives(timeline, i, terminal) {
        SegmentTotalsAppend(kept, Annotated(timeline, i, terminal));
      } else {
        assert Kept(timeline, terminal, n) == kept;
      }
    } else {
      assert Kept(timeline, terminal, 0) == timeline[..0];
    }
  }

  lemma {:induction false} RenumberedTotals(timeline: seq<Segment>)
    ensures SegmentTotals(Renumbered(timeline)) == SegmentTotals(timeline)
  {
    if timeline != [] {
      RenumberedTotals(timeline[..|timeline| - 1]);
      assert Renumbered(timeline)[..|timeline| - 1] == Renumbered(timeline[..|timeline| - 1]);
    }
  }

  lemma CleanedTotals(timeline: seq<Segment>, terminal: Option<Phase>)
    requires forall i :: 0 <= i < |timeline| ==> timeline[i].duration >= 0.0
    ensures SegmentTotals(Cleaned(timeline, terminal)) == SegmentTotals(timeline)
  {
    KeptTotals(timeline, terminal, |timeline|);
    assert timeline[..|timeline|] == timeline;
    RenumberedTotals(Kept(timeline, terminal, |timeline|));
  }

  lemma {:induction false} FilterKeepsFlags(points: seq<Point>, n: nat)
    requires n <= |points|
    ensures PointTotals(Filtered(points)[..n]).needsReview == PointTotals(points[..n]).needsReview
    ensures PointTotals(Filtered(points)[..n]).imminent == PointTotals(points[..n]).imminent
  {
    if n > 0 {
      FilterKeepsFlags(points, n - 1);
      assert points[..n][..n - 1] == points[..n - 1];
      assert Filtered(points)[..n][..n - 1] == Filtered(points)[..n - 1];
    }
  }

  lemma FilterKeepsOrder(points: seq<Point>)
    requires InTimeOrder(points)
    ensures InTimeOrder(Filtered(points))
  {
  }

  /** Grouping and cleanup lose no time, no review flag and no imminent failure. */
  lemma TimelineConservesTotals(points: seq<Point>, terminal: Option<Phase>)
    requires InTimeOrder(points)
    ensures var totals := SegmentTotals(PhaseTimeline(points, terminal));
      && totals == PointTotals(Filtered(points))
      && totals.needsReview == PointTotals(points).needsReview
      && totals.imminent == PointTotals(points).imminent
  {
    hide Cleaned, Groups, PointTotals, SegmentTotals, Records, GroupSum, Filtered;
    var filtered := Filtered(points);
    var groups := Groups(filtered);
    GroupsPartition(filtered);
    FilterKeepsOrder(points);
    GroupsInTimeOrder(groups);
    RecordsSum(groups);
    GroupsSum(filtered);
    CleanedTotals(Records(groups), terminal);
    FilterKeepsFlags(points, |points|);
    assert points[..|points|] == points;
    assert |filtered| == |points| by { FilterKeepsLength(points); }
    assert filtered[..|points|] == filtered;
  }

  lemma FilterKeepsLength(points: seq<Point>)
    ensures |Filtered(points)| == |points|
  {
  }

  // ------------------------------------------------- evidence and end points

  lemma {:induction false} AlarmFramesComplete(group: seq<Point>, j: nat)
    requires j < |group| && group[j].Alarming()
    ensures group[j].frameId in AlarmFrames(group)
    ensures group[j].imminentFailure ==> PointTotals(group).imminent > 0
  {
    if j < |group| - 1 {
      AlarmFramesComplete(group[..|group| - 1], j);
    }
  }

  lemma {:induction false} ImminentHasWitness(group: seq<Point>)
    requires PointTotals(group).imminent > 0
    ensures exists p :: p in group && p.imminentFailure
  {
    if group != [] {
      if Last(group).imminentFailure {
        assert Last(group) in group;
      } else {
        ImminentHasWitness(group[..|group| - 1]);
      }
    }
  }

  /** A segment record is alarming exactly when one of its points is, and lists that point's frame. */
  lemma RecordAlarm(group: seq<Point>, index: nat)
    requires group != []
    ensures TimelineRecord(group, index).Alarming() <==> exists p :: p in group && p.Alarming()
    ensures forall p :: p in group && p.Alarming() ==> p.frameId in TimelineRecord(group, index).evidenceFrames
  {
    hide Dominant, ConfidenceSum, Round3;
    var s := TimelineRecord(group, index);
    forall p | p in group && p.Alarming()
      ensures s.Alarming() && p.frameId in s.evidenceFrames
    {
      var j :| 0 <= j < |group| && group[j] == p;
      AlarmFramesComplete(group, j);
      assert p.frameId in [s.startFrame] + AlarmFrames(group) + [s.endFrame];
      if p.risk == High {
        assert High in set q | q in group :: q.risk;
      }
    }
    if s.imminentCount > 0 {
      ImminentHasWitness(group);
    }
  }

  lemma {:induction false} FlattenMember(groups: seq<seq<Point>>, p: Point)
    ensures p in Flatten(groups) <==> exists k :: 0 <= k < |groups| && p in groups[k]
  {
    if groups != [] {
      FlattenMember(groups[..|groups| - 1], p);
      if p in Last(groups) { assert p in groups[|groups| - 1]; }
    }
  }

  lemma {:induction false} SurvivorIsKept(timeline: seq<Segment>, i: nat, terminal: Option<Phase>, n: nat)
    requires i < n <= |timeline| && Survives(timeline, i, terminal)
    ensures Annotated(timeline, i, terminal) in Kept(timeline, terminal, n)
  {
    hide Survives, Annotated;
    var shorter, kept := Kept(timeline, terminal, n - 1), Kept(timeline, terminal, n);
    assert shorter <= kept;
    if i == n - 1 {
      assert kept[|kept| - 1] == Annotated(timeline, i, terminal);
    } else {
      SurvivorIsKept(timeline, i, terminal, n - 1);
      var k :| 0 <= k < |shorter| && shorter[k] == Annotated(timeline, i, terminal);
      assert kept[k] == shorter[k];
    }
  }

  lemma {:induction false} KeptHasOrigin(timeline: seq<Segment>, terminal: Option<Phase>, n: nat, k: nat)
    requires n <= |timeline| && k < |Kept(timeline, terminal, n)|
    ensures exists i :: 0 <= i < n && Kept(timeline, terminal, n)[k] == Annotated(timeline, i, terminal)
  {
    hide Survives, Annotated;
    if k < |Kept(timeline, terminal, n - 1)| {
      KeptHasOrigin(timeline, terminal, n - 1, k);
    }
  }

  /** Frame `frame` is listed as evidence by an alarming segment. */
  ghost predicate ShowsAlarm(timeline: seq<Segment>, frame: nat) {
    exists s :: s in timeline && s.Alarming() && frame in s.evidenceFrames
  }

  /** Cleanup keeps every alarming segment and invents none. */
  lemma CleanupKeepsAlarms(timeline: seq<Segment>, terminal: Option<Phase>)
    ensures forall frame :: ShowsAlarm(timeline, frame) <==> ShowsAlarm(Cleaned(timeline, terminal), frame)
    ensures forall s: Segment :: s in Cleaned(timeline, terminal) && s.Alarming() ==>
      exists t: Segment :: t in timeline && t.Alarming()
  {
    var n, kept, out := |timeline|, Kept(timeline, terminal, |timeline|), Cleaned(timeline, terminal);
    forall frame | ShowsAlarm(timeline, frame) ensures ShowsAlarm(out, frame) {
      var i :| 0 <= i < n && timeline[i].Alarming() && frame in timeline[i].evidenceFrames;
      SurvivorIsKept(timeline, i, terminal, n);
      var k :| 0 <= k < |kept| && kept[k] == Annotated(timeline, i, terminal);
      assert out[k] == kept[k].(index := k) && out[k] in out;
    }
    forall s: Segment | s in out && s.Alarming()
      ensures exists t: Segment :: t in timeline && t.Alarming() && t.evidenceFrames == s.evidenceFrames
    {
      var k :| 0 <= k < |out| && out[k] == s;
      KeptHasOrigin(timeline, terminal, n, k);
      var i :| 0 <= i < n && kept[k] == Annotated(timeline, i, terminal);
      assert out[k] == kept[k].(index := k) && timeline[i] in timeline;
    }
  }

  /** Every alarming frame is in the evidence of a surviving alarming segment. */
  lemma EvidenceSurvives(points: seq<Point>, terminal: Option<Phase>, j: nat)
    requires j < |points| && points[j].Alarming()
    ensures ShowsAlarm(PhaseTimeline(points, terminal), points[j].frameId)
  {
    hide TimelineRecord, Cleaned, Groups;
    var filtered := Filtered(points);
    var groups := Groups(filtered);
    FilterKeepsEvidence(points, j);
    GroupsPartition(filtered);
    FlattenMember(groups, points[j]);
    var g :| 0 <= g < |groups| && points[j] in groups[g];
    RecordAlarm(groups[g], g);
    assert Records(groups)[g] in Records(groups);
    CleanupKeepsAlarms(Records(groups), terminal);
  }

  /** An alarming segment always stems from an alarming point. */
  lemma AlarmHasPoint(points: seq<Point>, terminal: Option<Phase>, s: Segment)
    requires s in PhaseTimeline(points, terminal) && s.Alarming()
    ensures exists p: Point :: p in points && p.Alarming()
  {
    hide TimelineRecord, Cleaned, Groups;
    var filtered := Filtered(points);
    var groups := Groups(filtered);
    CleanupKeepsAlarms(Records(groups), terminal);
    var t: Segment :| t in Records(groups) && t.Alarming();
    var g :| 0 <= g < |groups| && Records(groups)[g] == t;
    RecordAlarm(groups[g], g);
    var p: Point :| p in groups[g] && p.Alarming();
    GroupsPartition(filtered);
    FlattenMember(groups, p);
    var j :| 0 <= j < |filtered| && filtered[j] == p;
    assert points[j].Alarming() && points[j] in points;
  }

  /** First and last segments survive the cleanup with their phases and frames; indices run 0..n-1. */
  lemma CleanupKeepsEnds(timeline: seq<Segment>, terminal: Option<Phase>)
    requires timeline != []
    ensures var out := Cleaned(timeline, terminal);
      && out != []
      && out[0].phase == timeline[0].phase && out[0].startFrame == timeline[0].startFrame
      && Last(out).phase == Last(timeline).phase && Last(out).endFrame == Last(timeline).endFrame
      && forall k :: 0 <= k < |out| ==> out[k].index == k
  {
    var n := |timeline|;
    var kept := Kept(timeline, terminal, n);
    assert Survives(timeline, 0, terminal) && Survives(timeline, n - 1, terminal);
    assert Kept(timeline, terminal, 0) == [];
    KeptPrefix(timeline, terminal, 1, n);
    assert Kept(timeline, terminal, 1) == [Annotated(timeline, 0, terminal)];
    assert Last(kept) == Annotated(timeline, n - 1, terminal);
  }

  lemma {:induction false} KeptPrefix(timeline: seq<Segment>, terminal: Option<Phase>, m: nat, n: nat)
    requires m <= n <= |timeline|
    ensures Kept(timeline, terminal, m) <= Kept(timeline, terminal, n)
  {
    if m < n {
      KeptPrefix(timeline, terminal, m, n - 1);
    }
  }

  lemma {:induction false} FirstGroupStarts(points: seq<Point>)
    requires points != []
    ensures Groups(points)[0][0] == points[0]
  {
    hide Joined;
    var init := points[..|points| - 1];
    JoinedStarts(Groups(init), Last(points));
    if init != [] {
      FirstGroupStarts(init);
    }
  }

  lemma JoinedStarts(groups: seq<seq<Point>>, p: Point)
    requires NoneEmpty(groups)
    ensures Joined(groups, p) != [] && Joined(groups, p)[0] != []
    ensures Joined(groups, p)[0][0] == if groups == [] then p else groups[0][0]
  {
  }

  /** The timeline starts at the first point and ends in the last point's phase, at its frame. */
  lemma TimelineEnds(points: seq<Point>, terminal: Option<Phase>)
    ensures points == [] <==> PhaseTimeline(points, terminal) == []
    ensures points != [] ==>
      var out := PhaseTimeline(points, terminal);
      && out[0].phase == points[0].phase && out[0].startFrame == points[0].frameId
      && Last(out).phase == Last(points).phase && Last(out).endFrame == Last(points).frameId
    ensures forall k :: 0 <= k < |PhaseTimeline(points, terminal)| ==> PhaseTimeline(points, terminal)[k].index == k
  {
    hide Filtered, Groups, TimelineRecord, KeepReason, Survives, Kept, Smoothed, LowEvidence;
    var filtered := Filtered(points);
    var groups := Groups(filtered);
    FilterKeepsLength(points);
    if points != [] {
      FilterKeepsEvidence(points, 0);
      FilterKeepsEvidence(points, |points| - 1);
      GroupsEnds(filtered);
      RecordPhase(groups[0], 0);
      RecordPhase(Last(groups), |groups| - 1);
      CleanupKeepsEnds(Records(groups), terminal);
    }
  }

  /** The first and the last group hold the first and the last point. */
  lemma GroupsEnds(points: seq<Point>)
    requires points != []
    ensures var groups := Groups(points);
      && NoneEmpty(groups) && groups != []
      && groups[0][0] == points[0] && Last(Last(groups)) == Last(points)
      && OnePhase(groups[0]) && OnePhase(Last(groups))
  {
    hide Groups;
    GroupsPartition(points);
    FirstGroupStarts(points);
    LastPointOfPartition(Groups(points), points);
  }

  lemma RecordPhase(group: seq<Point>, index: nat)
    requires group != [] && OnePhase(group)
    ensures var s := TimelineRecord(group, index);
      s.phase == group[0].phase == Last(group).phase && s.startFrame == group[0].frameId
      && s.endFrame == Last(group).frameId
  {
    hide Dominant, PointTotals, ConfidenceSum, AlarmFrames, WorstRisk, Votes;
  }
}
