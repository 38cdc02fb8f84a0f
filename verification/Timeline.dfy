/** Phase timeline: jitter filter, run-length grouping and zero-duration cleanup. */
module Timeline {
  import opened Common
  import opened ReviewData

  // ---------------------------------------------------------- jitter filter

  const MAX_ISOLATED_JITTER_CONFIDENCE := 0.65

  predicate LowEvidence(p: Point) {
    && !p.corrected
    && !p.Alarming()
    && !p.needsReview
    && p.progress != Regressing
    && p.trigger != FinalObservation
    && p.trigger != SequenceStart
    && p.confidence <= MAX_ISOLATED_JITTER_CONFIDENCE
  }

  /** Point `i` is a one-point excursion between two equal phases and carries no evidence. */
  predicate IsJitter(points: seq<Point>, i: int) {
    && 0 < i < |points| - 1
    && points[i - 1].phase == points[i + 1].phase
    && points[i].phase != points[i - 1].phase
    && LowEvidence(points[i])
  }

  function Smoothed(p: Point, phase: Phase): Point {
    p.(phase := phase, source := TimelineFilter, corrected := true,
       correctionReason := Some("isolated_phase_jitter_suppressed"))
  }

  /** Every flip reads the unfiltered neighbours; all flips happen at once. */
  function Filtered(points: seq<Point>): (out: seq<Point>) {
    seq(|points|, i requires 0 <= i < |points| =>
      if IsJitter(points, i) then Smoothed(points[i], points[i - 1].phase) else points[i])
  }

  method SuppressIsolatedPhaseJitter(points: seq<Point>) returns (out: seq<Point>)
    ensures out == Filtered(points)
  {
    out := points;
    if |points| < 3 {
      return;
    }
    for index := 1 to |points| - 1
      invariant |out| == |points|
      invariant forall k :: 0 <= k < |points| ==> out[k] == if k < index then Filtered(points)[k] else points[k]
    {
      var before, here, after := points[index - 1].phase, points[index].phase, points[index + 1].phase;
      if before == after && here != before && LowEvidence(points[index]) {
        out := out[index := Smoothed(out[index], before)];
      }
    }
  }

  /** The filter never puts a phase change where there was none; it removes one exactly when
      one of the two points is suppressed and the other is not. */
  lemma FilterNeverAddsAChange(points: seq<Point>, i: nat)
    requires i + 1 < |points|
    ensures Filtered(points)[i].phase != Filtered(points)[i + 1].phase
      <==> points[i].phase != points[i + 1].phase && (IsJitter(points, i) <==> IsJitter(points, i + 1))
  {
  }

  /** Endpoints, corrected points and points with evidence pass through untouched. */
  lemma FilterKeepsEvidence(points: seq<Point>, i: nat)
    requires i < |points|
    requires i == 0 || i == |points| - 1 || !LowEvidence(points[i])
    ensures Filtered(points)[i] == points[i]
  {
  }

  lemma FilterIsIdempotent(points: seq<Point>)
    ensures Filtered(Filtered(points)) == Filtered(points)
  {
    var out := Filtered(points);
    forall i | 0 <= i < |points| ensures !IsJitter(out, i) {
      if 0 < i < |points| - 1 && !IsJitter(points, i) {
        FilterNeverAddsAChange(points, i - 1);
        FilterNeverAddsAChange(points, i);
      }
    }
  }

  predicate StartsRun(points: seq<Point>, i: int) {
    0 <= i < |points| && (i == 0 || points[i - 1].phase != points[i].phase)
  }

  /** Point `i` is the first of a maximal block of consecutive suppressed points. */
  predicate OpensBlock(points: seq<Point>, i: int) {
    IsJitter(points, i) && !IsJitter(points, i - 1)
  }

  /** Point `i` follows such a block. */
  predicate ClosesBlock(points: seq<Point>, i: int) {
    !IsJitter(points, i) && IsJitter(points, i - 1)
  }

  /** The maximal runs of equal phase, named by their first positions. */
  ghost function Runs(points: seq<Point>): set<int> {
    set i | 0 <= i < |points| && StartsRun(points, i)
  }

  ghost function Opens(points: seq<Point>, n: int): set<int> {
    set i | 0 <= i < n && OpensBlock(points, i)
  }

  ghost function Closes(points: seq<Point>, n: int): set<int> {
    set i | 0 <= i < n && ClosesBlock(points, i)
  }

  /** The maximal blocks of consecutive suppressed points, named by their first positions. */
  ghost function SuppressedBlocks(points: seq<Point>): set<int> {
    Opens(points, |points|)
  }

  lemma OpensStep(points: seq<Point>, n: nat)
    ensures |Opens(points, n + 1)| == |Opens(points, n)| + if OpensBlock(points, n) then 1 else 0
  {
    var wider, narrower := Opens(points, n + 1), Opens(points, n);
    if OpensBlock(points, n) { assert wider == narrower + {n}; } else { assert wider == narrower; }
  }

  lemma ClosesStep(points: seq<Point>, n: nat)
    ensures |Closes(points, n + 1)| == |Closes(points, n)| + if ClosesBlock(points, n) then 1 else 0
  {
    var wider, narrower := Closes(points, n + 1), Closes(points, n);
    if ClosesBlock(points, n) { assert wider == narrower + {n}; } else { assert wider == narrower; }
  }

  lemma {:induction false} BlocksOpenAndClose(points: seq<Point>, n: nat)
    ensures |Opens(points, n)| == |Closes(points, n)| + (if IsJitter(points, n - 1) then 1 else 0)
  {
    if n > 0 {
      BlocksOpenAndClose(points, n - 1);
      OpensStep(points, n - 1);
      ClosesStep(points, n - 1);
    }
  }

  /** Each maximal block of suppressed points removes exactly two phase runs, however long it is. */
  lemma FilterRunCount(points: seq<Point>)
    ensures |Runs(points)| == |Runs(Filtered(points))| + 2 * |SuppressedBlocks(points)|
  {
    var n := |points|;
    var out := Filtered(points);
    forall i | 0 <= i < n
      ensures StartsRun(points, i) <==> StartsRun(out, i) || OpensBlock(points, i) || ClosesBlock(points, i)
      ensures StartsRun(out, i) ==> !OpensBlock(points, i) && !ClosesBlock(points, i)
    {
      if i > 0 {
        FilterNeverAddsAChange(points, i - 1);
      }
    }
    assert Runs(points) == Runs(out) + Opens(points, n) + Closes(points, n);
    assert Runs(out) !! Opens(points, n) && (Runs(out) + Opens(points, n)) !! Closes(points, n);
    BlocksOpenAndClose(points, n);
  }

  // --------------------------------------------------------------- grouping

  function Last<T>(s: seq<T>): T
    requires s != []
  {
    s[|s| - 1]
  }

  predicate NoneEmpty(groups: seq<seq<Point>>) {
    forall k :: 0 <= k < |groups| ==> groups[k] != []
  }

  /** One step of run-length grouping: a point joins the last group if the phases agree. */
  function Joined(groups: seq<seq<Point>>, p: Point): (out: seq<seq<Point>>)
    requires NoneEmpty(groups)
    ensures NoneEmpty(out) && out != []
  {
    if groups != [] && Last(Last(groups)).phase == p.phase
    then groups[..|groups| - 1] + [Last(groups) + [p]]
    else groups + [[p]]
  }

  function Groups(points: seq<Point>): (groups: seq<seq<Point>>)
    ensures NoneEmpty(groups)
    ensures points == [] <==> groups == []
  {
    if points == [] then [] else Joined(Groups(points[..|points| - 1]), Last(points))
  }

  method GroupByPhase(points: seq<Point>) returns (groups: seq<seq<Point>>)
    ensures groups == Groups(points)
  {
    if points == [] {
      return [];
    }
    groups := [[points[0]]];
    assert Groups(points[..1]) == Joined(Groups(points[..1][..0]), points[0]);
    for i := 1 to |points|
      invariant groups == Groups(points[..i])
    {
      assert points[..i + 1][..i] == points[..i];
      if points[i].phase == Last(Last(groups)).phase {
        groups := groups[..|groups| - 1] + [Last(groups) + [points[i]]];
      } else {
        groups := groups + [[points[i]]];
      }
    }
    assert points[..|points|] == points;
  }

  ghost function Flatten(groups: seq<seq<Point>>): seq<Point> {
    if groups == [] then [] else Flatten(groups[..|groups| - 1]) + Last(groups)
  }

  ghost predicate OnePhase(group: seq<Point>) {
    forall j :: 0 <= j < |group| ==> group[j].phase == group[0].phase
  }

  /** What grouping means: a partition of `points` into maximal runs of one phase. */
  ghost predicate IsPhasePartition(groups: seq<seq<Point>>, points: seq<Point>) {
    && NoneEmpty(groups)
    && Flatten(groups) == points
    && (forall k :: 0 <= k < |groups| ==> OnePhase(groups[k]))
    && (forall k :: 0 <= k < |groups| - 1 ==> groups[k][0].phase != groups[k + 1][0].phase)
  }

  lemma JoinedPartition(groups: seq<seq<Point>>, points: seq<Point>, p: Point)
    requires IsPhasePartition(groups, points)
    ensures IsPhasePartition(Joined(groups, p), points + [p])
    ensures |Joined(groups, p)| == |groups| + if points != [] && Last(points).phase == p.phase then 0 else 1
  {
    var out := Joined(groups, p);
    if groups != [] {
      assert Last(points) == Last(Last(groups));
    }
    if |out| == |groups| {
      assert out[..|out| - 1] == groups[..|groups| - 1];
      assert Flatten(out) == Flatten(groups[..|groups| - 1]) + (Last(groups) + [p]);
    } else {
      assert out[..|out| - 1] == groups;
    }
  }

  lemma RunsStep(points: seq<Point>, p: Point)
    ensures |Runs(points + [p])| == |Runs(points)| + if points != [] && Last(points).phase == p.phase then 0 else 1
  {
    var all, n := points + [p], |points|;
    RunsAppend(points, p);
    assert n !in Runs(points);
  }

  lemma RunsAppend(points: seq<Point>, p: Point)
    ensures var all, n := points + [p], |points|;
      Runs(all) == if StartsRun(all, n) then Runs(points) + {n} else Runs(points)
  {
    var all, n := points + [p], |points|;
    forall i | 0 <= i < n ensures StartsRun(all, i) <==> StartsRun(points, i) {
    }
  }

  /** Grouping yields the partition into maximal runs, and as many groups as there are runs. */
  lemma {:induction false} GroupsPartition(points: seq<Point>)
    ensures IsPhasePartition(Groups(points), points)
    ensures |Groups(points)| == |Runs(points)|
  {
    if points != [] {
      var init, p := points[..|points| - 1], Last(points);
      assert points == init + [p];
      GroupsPartition(init);
      JoinedPartition(Groups(init), init, p);
      RunsStep(init, p);
    }
  }

  /** The number of groups after the filter, from the unfiltered points alone. */
  lemma FilteredGroupCount(points: seq<Point>)
    ensures |Groups(Filtered(points))| == |Groups(points)| - 2 * |SuppressedBlocks(points)|
  {
    GroupsPartition(points);
    GroupsPartition(Filtered(points));
    FilterRunCount(points);
  }
}
