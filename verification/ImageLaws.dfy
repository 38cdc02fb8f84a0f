/** Which frames count as terminal and which key frames rank higher, said in the fields of windows and rows. */
module ImageLaws {
  import opened Common
  import opened ReviewData
  import opened ReviewImages

  // -------------------------------------------------------------------- ordering

  lemma {:induction false} DedupeOfDistinct(s: seq<int>)
    requires NoDuplicates(s)
    ensures Dedupe(s) == s
  {
    if s != [] {
      DedupeOfDistinct(s[..|s| - 1]);
    }
  }

  // --------------------------------------------------------------------- windows

  ghost predicate ShowsFrame(w: Window, f: int) {
    f in w.keyframes || (w.keyframes == [] && w.anchor == Some(f)) || w.end == Some(f)
  }

  /** A window shows its key frames, or its anchor when it has none, and its end frame. */
  lemma WindowFramesExactly(w: Window)
    ensures NoDuplicates(WindowFrames(w)) && forall f :: f in WindowFrames(w) <==> ShowsFrame(w, f)
  {
  }

  /** How far a window reaches: its last frame, or -1 without frames. */
  lemma SortFrameExactly(w: Window)
    ensures (forall f :: !ShowsFrame(w, f)) ==> SortFrame(w) == -1
    ensures (exists f :: ShowsFrame(w, f)) ==>
      ShowsFrame(w, SortFrame(w)) && forall f :: ShowsFrame(w, f) ==> f <= SortFrame(w)
  {
    WindowFramesExactly(w);
  }

  /** Window `i` is the first among those picked that reach furthest. */
  ghost predicate FurthestAt(ws: seq<Window>, pick: Window -> bool, i: int) {
    && 0 <= i < |ws| && pick(ws[i])
    && (forall j :: 0 <= j < |ws| && pick(ws[j]) ==> SortFrame(ws[j]) <= SortFrame(ws[i]))
    && (forall j :: 0 <= j < i && pick(ws[j]) ==> SortFrame(ws[j]) < SortFrame(ws[i]))
  }

  lemma {:induction false} LatestExactly(ws: seq<Window>) returns (i: nat)
    requires ws != []
    ensures FurthestAt(ws, w => true, i) && Latest(ws) == ws[i]
  {
    hide SortFrame;
    var n := |ws| - 1;
    if n == 0 {
      i := 0;
    } else {
      i := LatestExactly(ws[..n]);
      assert forall j :: 0 <= j < n ==> ws[..n][j] == ws[j];
      if SortFrame(ws[i]) < SortFrame(ws[n]) {
        i := n;
      }
    }
  }

  /** The windows a filter keeps, with the furthest of them found in the whole list. */
  ghost predicate Picks(ws: seq<Window>, pick: Window -> bool, kept: seq<Window>) {
    if ws == [] then kept == []
    else
      var n := |ws| - 1;
      if pick(ws[n]) then kept != [] && kept[|kept| - 1] == ws[n] && Picks(ws[..n], pick, kept[..|kept| - 1])
      else Picks(ws[..n], pick, kept)
  }

  predicate IsFinal(w: Window) { w.eventType == "final_observation" }

  predicate Beyond(frame: int, w: Window) { SortFrame(w) > frame }

  lemma {:induction false} FinalsArePicked(ws: seq<Window>)
    ensures Picks(ws, IsFinal, FinalWindows(ws))
  {
    if ws != [] {
      FinalsArePicked(ws[..|ws| - 1]);
      var kept := FinalWindows(ws);
      assert IsFinal(ws[|ws| - 1]) ==> kept[..|kept| - 1] == FinalWindows(ws[..|ws| - 1]);
      assert !IsFinal(ws[|ws| - 1]) ==> kept == FinalWindows(ws[..|ws| - 1]);
    }
  }

  lemma {:induction false} AftersArePicked(ws: seq<Window>, frame: int)
    ensures Picks(ws, w => Beyond(frame, w), WindowsAfter(ws, frame))
  {
    if ws != [] {
      AftersArePicked(ws[..|ws| - 1], frame);
      var kept := WindowsAfter(ws, frame);
      assert Beyond(frame, ws[|ws| - 1]) ==> kept[..|kept| - 1] == WindowsAfter(ws[..|ws| - 1], frame);
      assert !Beyond(frame, ws[|ws| - 1]) ==> kept == WindowsAfter(ws[..|ws| - 1], frame);
    }
  }

  lemma {:induction false} PickedLatest(ws: seq<Window>, pick: Window -> bool, kept: seq<Window>) returns (i: int)
    requires Picks(ws, pick, kept)
    ensures kept == [] <==> forall w :: w in ws ==> !pick(w)
    ensures kept != [] ==> FurthestAt(ws, pick, i) && Latest(kept) == ws[i]
  {
    hide SortFrame, FurthestAt, Latest;
    i := 0;
    if ws != [] {
      var n := |ws| - 1;
      var init, x := ws[..n], ws[n];
      assert ws == init + [x];
      var earlier := if pick(x) then kept[..|kept| - 1] else kept;
      i := PickedLatest(init, pick, earlier);
      if earlier != [] {
        FurthestIn(init, pick, i);
        FurthestExtends(init, x, pick, i);
      } else {
        FurthestBegins(init, x, pick);
      }
      if pick(x) {
        assert kept == earlier + [x];
        LatestAppend(earlier, x);
        if earlier == [] || SortFrame(Latest(earlier)) < SortFrame(x) {
          i := n;
        }
      }
    }
  }

  lemma LatestAppend(ws: seq<Window>, x: Window)
    ensures Latest(ws + [x]) == if ws == [] || SortFrame(Latest(ws)) < SortFrame(x) then x else Latest(ws)
  {
    hide SortFrame;
    assert (ws + [x])[..|ws|] == ws;
  }

  lemma FurthestExtends(ws: seq<Window>, x: Window, pick: Window -> bool, i: int)
    requires FurthestAt(ws, pick, i)
    ensures if pick(x) && SortFrame(ws[i]) < SortFrame(x) then FurthestAt(ws + [x], pick, |ws|)
      else FurthestAt(ws + [x], pick, i)
  {
    hide SortFrame;
  }

  lemma FurthestBegins(ws: seq<Window>, x: Window, pick: Window -> bool)
    requires forall w :: w in ws ==> !pick(w)
    ensures pick(x) ==> FurthestAt(ws + [x], pick, |ws|)
  {
    hide SortFrame;
    assert forall j :: 0 <= j < |ws| ==> (ws + [x])[j] in ws;
  }

  // ------------------------------------------------------------- terminal groups

  /** The furthest final observation, if any, and the furthest window beyond it, if any; without a final
      observation the furthest window. Windows without frames give no group. */
  ghost predicate Observed(ws: seq<Window>, groups: seq<seq<int>>) {
    if exists w :: w in ws && IsFinal(w)
    then exists i :: FurthestAt(ws, IsFinal, i) && ObservedFrom(ws, i, groups)
    else if ws != [] then exists i :: FurthestAt(ws, w => true, i) && groups == AsGroup(WindowFrames(ws[i]))
    else groups == []
  }

  ghost predicate ObservedFrom(ws: seq<Window>, i: int, groups: seq<seq<int>>)
    requires 0 <= i < |ws|
  {
    var first, reach := AsGroup(WindowFrames(ws[i])), SortFrame(ws[i]);
    if exists w :: w in ws && Beyond(reach, w)
    then exists j :: FurthestAt(ws, w => Beyond(reach, w), j) && groups == first + AsGroup(WindowFrames(ws[j]))
    else groups == first
  }

  ghost function AsGroup(frames: seq<int>): seq<seq<int>> { if frames == [] then [] else [frames] }

  /** The last frame anything recorded. */
  ghost predicate IsEpisodeEnd(e: Evidence, end: int) {
    Recorded(e, end) && forall f :: Recorded(e, f) ==> f <= end
  }

  ghost predicate Recorded(e: Evidence, f: int) {
    || (exists r :: r in e.records && r.frameId == f)
    || (exists w :: w in e.windows && ShowsFrame(w, f))
    || f in e.images
  }

  lemma {:induction false} AllWindowFramesExactly(ws: seq<Window>, f: int)
    ensures f in AllWindowFrames(ws) <==> exists w :: w in ws && ShowsFrame(w, f)
  {
    hide ShowsFrame, WindowFrames;
    if ws != [] {
      var init, last := ws[..|ws| - 1], ws[|ws| - 1];
      AllWindowFramesExactly(init, f);
      WindowFramesExactly(last);
      assert forall w :: w in ws <==> w in init || w == last by { assert ws == init + [last]; }
    }
  }

  lemma EpisodeEndExactly(e: Evidence)
    ensures match EpisodeEnd(e)
      case Some(end) => IsEpisodeEnd(e, end)
      case None => forall f :: !Recorded(e, f)
  {
    hide Max, ShowsFrame, AllWindowFrames;
    var shots := seq(|e.records|, i requires 0 <= i < |e.records| => e.records[i].frameId as int);
    var frames := shots + AllWindowFrames(e.windows) + e.images;
    forall f ensures f in frames <==> Recorded(e, f) {
      AllWindowFramesExactly(e.windows, f);
      ShotsExactly(e, f);
    }
    assert frames != [] ==> frames[0] in frames;
  }

  lemma ShotsExactly(e: Evidence, f: int)
    ensures f in seq(|e.records|, i requires 0 <= i < |e.records| => e.records[i].frameId as int)
      <==> exists r :: r in e.records && r.frameId == f
  {
    var shots := seq(|e.records|, i requires 0 <= i < |e.records| => e.records[i].frameId as int);
    if r :| r in e.records && r.frameId == f {
      var i :| 0 <= i < |e.records| && e.records[i] == r;
      assert shots[i] == f;
    }
  }

  lemma AddDistinct(groups: seq<seq<int>>, frames: seq<int>)
    requires NoDuplicates(frames)
    ensures AddGroup(groups, frames) ==
      if frames == [] || Subsumed(groups, frames) then groups else groups + [frames]
  {
    DedupeOfDistinct(frames);
  }

  /** A window that reaches beyond another shows a frame the other does not, if it shows any. */
  lemma BeyondIsNotSubsumed(v: Window, w: Window)
    requires SortFrame(w) > SortFrame(v)
    ensures WindowFrames(w) != [] ==> !Subsumed(AsGroup(WindowFrames(v)), WindowFrames(w))
  {
    hide ShowsFrame, WindowFrames;
    SortFrameAtLeast(v);
    SortFrameAtLeast(w);
    if WindowFrames(w) != [] {
      assert SortFrame(w) in WindowFrames(w) && SortFrame(w) !in WindowFrames(v);
    }
  }

  lemma SortFrameAtLeast(w: Window)
    ensures WindowFrames(w) != [] ==>
      SortFrame(w) in WindowFrames(w) && forall f :: f in WindowFrames(w) ==> f <= SortFrame(w)
  {
  }

  /** The groups made from the windows alone. */
  function WindowGroups(e: Evidence): seq<seq<int>> {
    var finals := FinalWindows(e.windows);
    if finals != [] then
      var first := AddGroup([], WindowFrames(Latest(finals)));
      var later := WindowsAfter(e.windows, SortFrame(Latest(finals)));
      if later != [] then AddGroup(first, WindowFrames(Latest(later))) else first
    else if e.windows != [] then AddGroup([], WindowFrames(Latest(e.windows)))
    else []
  }

  /** The terminal groups are the observed ones and, unless one of them already shows it, the last frame
      anything recorded. */
  lemma TerminalGroupsExactly(e: Evidence)
    ensures exists observed :: Observed(e.windows, observed) && EndsWith(e, observed, TerminalGroups(e))
  {
    hide Observed, WindowFrames, Latest, SortFrame, FinalWindows, WindowsAfter, Max;
    var observed := WindowGroups(e);
    WindowGroupsExactly(e);
    EpisodeEndExactly(e);
    if end :| EpisodeEnd(e) == Some(end) {
      AddDistinct(observed, [end]);
      assert Subsumed(observed, [end]) <==> exists g :: g in observed && end in g by { SubsumesOne(observed, end); }
    }
    assert EndsWith(e, observed, TerminalGroups(e));
  }

  lemma SubsumesOne(groups: seq<seq<int>>, f: int)
    ensures Subsumed(groups, [f]) <==> exists g :: g in groups && f in g
  {
    assert forall x :: x in [f] <==> x == f;
    if g :| g in groups && f in g {
      var k :| 0 <= k < |groups| && groups[k] == g;
      assert forall x :: x in [f] ==> x in groups[k];
    }
    if Subsumed(groups, [f]) {
      var k :| 0 <= k < |groups| && forall x :: x in [f] ==> x in groups[k];
      assert groups[k] in groups && f in [f];
    }
  }

  ghost predicate EndsWith(e: Evidence, observed: seq<seq<int>>, groups: seq<seq<int>>) {
    if exists end :: IsEpisodeEnd(e, end) then exists end :: IsEpisodeEnd(e, end) && ClosedBy(observed, end, groups)
    else groups == observed
  }

  ghost predicate ClosedBy(observed: seq<seq<int>>, end: int, groups: seq<seq<int>>) {
    groups == if exists g :: g in observed && end in g then observed else observed + [[end]]
  }

  lemma WindowGroupsExactly(e: Evidence)
    ensures Observed(e.windows, WindowGroups(e))
  {
    hide WindowFrames, SortFrame, Latest, FinalWindows, WindowsAfter, Subsumed, FurthestAt, AddGroup;
    var ws, finals := e.windows, FinalWindows(e.windows);
    FinalsArePicked(ws);
    var i := PickedLatest(ws, IsFinal, finals);
    if finals != [] {
      FurthestIn(ws, IsFinal, i);
      LaterGroupsExactly(ws, i);
    } else if ws != [] {
      var j := LatestExactly(ws);
      FurthestIn(ws, w => true, j);
      FirstGroup(ws[j]);
    }
  }

  lemma FurthestIn(ws: seq<Window>, pick: Window -> bool, i: int)
    requires FurthestAt(ws, pick, i)
    ensures 0 <= i < |ws| && pick(ws[i]) && ws[i] in ws
  {
  }

  lemma FirstGroup(w: Window)
    ensures AddGroup([], WindowFrames(w)) == AsGroup(WindowFrames(w))
  {
    hide WindowFrames;
    WindowFramesExactly(w);
    AddDistinct([], WindowFrames(w));
  }

  lemma LaterGroupsExactly(ws: seq<Window>, i: int)
    requires 0 <= i < |ws|
    ensures var first, later := AddGroup([], WindowFrames(ws[i])), WindowsAfter(ws, SortFrame(ws[i]));
      ObservedFrom(ws, i, if later != [] then AddGroup(first, WindowFrames(Latest(later))) else first)
  {
    hide WindowFrames, SortFrame, Latest, WindowsAfter, Subsumed, FurthestAt, AddGroup;
    var reach := SortFrame(ws[i]);
    var later := WindowsAfter(ws, reach);
    FirstGroup(ws[i]);
    AftersArePicked(ws, reach);
    var beyond: Window -> bool := w => Beyond(reach, w);
    var j := PickedLatest(ws, beyond, later);
    if later != [] {
      FurthestIn(ws, beyond, j);
      BeyondIsNotSubsumed(ws[i], ws[j]);
      WindowFramesExactly(ws[j]);
      AddDistinct(AsGroup(WindowFrames(ws[i])), WindowFrames(ws[j]));
    }
  }

  // --------------------------------------------------------------------- ranking

  /** What a reason adds to a row's score. */
  ghost function Weight(reason: Reason, eventTypes: set<string>): nat {
    match reason
    case FinalObservationFrame => 5
    case FailureCandidate => 4
    case VisualDisagreement => 3
    case EndFrame => 3
    case PhaseBoundary => 2
    case VsaWindow => if "sequence_start" in eventTypes then 0 else 1
    case StartFrame => 0
    case MarkedForReview => 0
  }

  /** A row without reasons scores one, and each further reason adds its weight, whatever the others are. */
  lemma ScoreExactly(row: KeyFrame, reason: Reason)
    ensures row.reasons == {} ==> Score(row) == 1
    ensures reason !in row.reasons ==>
      Score(row.(reasons := row.reasons + {reason})) == Score(row) + Weight(reason, row.eventTypes)
  {
  }

  /** The score of a frame is the greatest score of its rows, and zero without a row. */
  lemma {:induction false} BestScoreIsGreatest(rows: seq<KeyFrame>, frame: int)
    ensures forall row :: row in rows && row.frameId == frame ==> Score(row) <= BestScore(rows, frame)
    ensures BestScore(rows, frame) > 0 <==> exists row :: row in rows && row.frameId == frame
    ensures BestScore(rows, frame) > 0 ==>
      exists row :: row in rows && row.frameId == frame && Score(row) == BestScore(rows, frame)
  {
    hide Score;
    if rows != [] {
      var init, last := rows[..|rows| - 1], rows[|rows| - 1];
      BestScoreIsGreatest(init, frame);
      assert forall row :: row in rows <==> row in init || row == last by { assert rows == init + [last]; }
      ScoreIsPositive(last);
    }
  }

  lemma ScoreIsPositive(row: KeyFrame)
    ensures Score(row) > 0
  {
  }

  /** Some row of frame `f` beats every row of frame `k`: by score, or by the earlier frame at equal score. */
  ghost predicate Outranks(rows: seq<KeyFrame>, f: int, k: int) {
    exists best :: best in rows && best.frameId == f && BeatsAll(rows, best, k)
  }

  ghost predicate BeatsAll(rows: seq<KeyFrame>, best: KeyFrame, k: int) {
    forall row :: row in rows && row.frameId == k ==>
      Score(row) < Score(best) || (Score(row) == Score(best) && best.frameId < k)
  }

  /** Every chosen frame that is not terminal outranks every key frame that had to be left out. */
  lemma OmittedFramesRankLower(e: Evidence, budget: int, f: int, k: int)
    requires budget > 0
    requires f in SelectedFrames(e, budget) && !IsTerminalFrame(e, f)
    requires k in e.images && k !in SelectedFrames(e, budget) && exists row :: row in e.keyFrames && row.frameId == k
    ensures Outranks(e.keyFrames, f, k)
  {
    hide SelectedFrames, BestScore, Score, IsTerminalFrame;
    SelectionIsOptimal(e, budget);
    KeyFrameRows(e.keyFrames, k);
    KeyFrameRows(e.keyFrames, f);
    assert InPool(e, f);
    BestScoreIsGreatest(e.keyFrames, k);
    BestScoreIsGreatest(e.keyFrames, f);
    assert RankOrder(e.keyFrames)(f, k) && f != k;
    var best :| best in e.keyFrames && best.frameId == f && Score(best) == BestScore(e.keyFrames, f);
    assert BeatsAll(e.keyFrames, best, k);
  }

  lemma KeyFrameRows(rows: seq<KeyFrame>, f: int)
    ensures f in RowFrames(rows) <==> exists row :: row in rows && row.frameId == f
  {
    if row :| row in rows && row.frameId == f {
      var i :| 0 <= i < |rows| && rows[i] == row;
      assert RowFrames(rows)[i] == f;
    }
  }

  /** When the budget does not reach, the terminal frames chosen are the first ones met: by group, then by
      place in the group. */
  lemma FirstTerminalFramesAreChosen(e: Evidence, budget: int) returns (at: seq<nat>)
    requires 0 < budget <= |TerminalFrames(TerminalGroups(e), e.images)|
    ensures var T := TerminalFrames(TerminalGroups(e), e.images);
      && (forall f :: f in SelectedFrames(e, budget) <==> f in T[..budget])
      && Places(Filter(Concat(TerminalGroups(e)), e.images, []), T, at)
  {
    hide TerminalGroups, Eligible, RankOrder, Filter, Concat, Sort, Places;
    at := DedupeKeepsOrder(Filter(Concat(TerminalGroups(e)), e.images, []));
    var T := TerminalFrames(TerminalGroups(e), e.images);
    TakeWhole(T, budget);
    NothingTaken(Sort(Eligible(e, Take(T, budget)), RankOrder(e.keyFrames)), budget - |Take(T, budget)|);
  }
}
