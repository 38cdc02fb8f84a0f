/** Which frames the offline reviewer looks at: terminal groups, budgeted selection, packets, coverage. */
module ReviewImages {
  import opened Common
  import opened ReviewData

  // --------------------------------------------------------- sequence helpers

  function Filter(s: seq<int>, keep: seq<int>, drop: seq<int>): (r: seq<int>)
    ensures forall x :: x in r <==> x in s && x in keep && x !in drop
  {
    if s == [] then []
    else
      assert s == s[..|s| - 1] + [s[|s| - 1]];
      Filter(s[..|s| - 1], keep, drop)
      + if s[|s| - 1] in keep && s[|s| - 1] !in drop then [s[|s| - 1]] else []
  }

  function Concat(parts: seq<seq<int>>): (r: seq<int>)
    ensures forall x :: x in r <==> exists k :: 0 <= k < |parts| && x in parts[k]
  {
    if parts == [] then []
    else
      assert parts == parts[..|parts| - 1] + [parts[|parts| - 1]];
      Concat(parts[..|parts| - 1]) + parts[|parts| - 1]
  }

  function Max(s: seq<int>): (m: int)
    requires s != []
    ensures m in s && forall x :: x in s ==> x <= m
  {
    if |s| == 1 then s[0]
    else
      assert s == s[..|s| - 1] + [s[|s| - 1]];
      var m := Max(s[..|s| - 1]);
      if m < s[|s| - 1] then s[|s| - 1] else m
  }

  lemma {:induction false} FilterKeepsDistinct(s: seq<int>, keep: seq<int>, drop: seq<int>)
    requires NoDuplicates(s)
    ensures NoDuplicates(Filter(s, keep, drop))
  {
    if s != [] {
      FilterKeepsDistinct(s[..|s| - 1], keep, drop);
      assert s[|s| - 1] !in s[..|s| - 1];
    }
  }

  lemma AppendDistinct(a: seq<int>, b: seq<int>)
    requires NoDuplicates(a) && NoDuplicates(b) && forall x :: x in b ==> x !in a
    ensures NoDuplicates(a + b)
  {
    forall i, j | 0 <= i < j < |a + b| ensures (a + b)[i] != (a + b)[j] {
      if i < |a| <= j {
        assert (a + b)[i] in a && (a + b)[j] in b;
      }
    }
  }

  /** A duplicate-free list has as many entries as elements. */
  lemma {:induction false} DistinctSize(s: seq<int>, elements: set<int>)
    requires NoDuplicates(s)
    requires forall x :: x in s <==> x in elements
    ensures |elements| == |s|
  {
    if s == [] {
      assert forall x :: x in elements ==> x in s;
      assert elements == {};
    } else {
      var last := s[|s| - 1];
      var init := s[..|s| - 1];
      assert s == init + [last];
      DistinctSize(init, elements - {last});
    }
  }

  // ---------------------------------------------------------- terminal groups

  function WindowFrames(w: Window): seq<int> {
    var frames := if w.keyframes == [] && w.anchor.Some? then [w.anchor.value] else w.keyframes;
    Dedupe(if w.end.Some? then frames + [w.end.value] else frames)
  }

  function SortFrame(w: Window): int {
    if WindowFrames(w) == [] then -1 else Max(WindowFrames(w))
  }

  /** The first window among those that reach furthest. */
  function Latest(ws: seq<Window>): Window
    requires ws != []
  {
    if |ws| == 1 then ws[0]
    else
      var r := Latest(ws[..|ws| - 1]);
      if SortFrame(r) < SortFrame(ws[|ws| - 1]) then ws[|ws| - 1] else r
  }

  function FinalWindows(ws: seq<Window>): seq<Window> {
    if ws == [] then []
    else
      FinalWindows(ws[..|ws| - 1])
      + if ws[|ws| - 1].eventType == "final_observation" then [ws[|ws| - 1]] else []
  }

  function WindowsAfter(ws: seq<Window>, frame: int): seq<Window> {
    if ws == [] then []
    else WindowsAfter(ws[..|ws| - 1], frame) + if SortFrame(ws[|ws| - 1]) > frame then [ws[|ws| - 1]] else []
  }

  predicate Subsumed(groups: seq<seq<int>>, group: seq<int>) {
    exists k :: 0 <= k < |groups| && forall x :: x in group ==> x in groups[k]
  }

  /** Adds a group unless it is empty or contained in one already there. */
  function AddGroup(groups: seq<seq<int>>, frames: seq<int>): seq<seq<int>> {
    var group := Dedupe(frames);
    if group == [] || Subsumed(groups, group) then groups else groups + [group]
  }

  function AllWindowFrames(ws: seq<Window>): seq<int> {
    if ws == [] then [] else AllWindowFrames(ws[..|ws| - 1]) + WindowFrames(ws[|ws| - 1])
  }

  function EpisodeEnd(e: Evidence): Option<int> {
    var frames := seq(|e.records|, i requires 0 <= i < |e.records| => e.records[i].frameId as int)
      + AllWindowFrames(e.windows) + e.images;
    if frames == [] then None else Some(Max(frames))
  }

  function TerminalGroups(e: Evidence): seq<seq<int>> {
    var finals := FinalWindows(e.windows);
    var observed :=
      if finals != [] then
        var first := AddGroup([], WindowFrames(Latest(finals)));
        var later := WindowsAfter(e.windows, SortFrame(Latest(finals)));
        if later != [] then AddGroup(first, WindowFrames(Latest(later))) else first
      else if e.windows != [] then AddGroup([], WindowFrames(Latest(e.windows)))
      else [];
    match EpisodeEnd(e)
    case None => observed
    case Some(end) => AddGroup(observed, [end])
  }

  ghost predicate GroupsDistinct(groups: seq<seq<int>>) {
    forall k :: 0 <= k < |groups| ==> groups[k] != [] && NoDuplicates(groups[k])
  }

  lemma AddGroupDistinct(groups: seq<seq<int>>, frames: seq<int>)
    requires GroupsDistinct(groups)
    ensures GroupsDistinct(AddGroup(groups, frames))
  {
  }

  lemma TerminalGroupsDistinct(e: Evidence)
    ensures GroupsDistinct(TerminalGroups(e))
  {
    hide Latest, WindowFrames, SortFrame, Max, AddGroup;
    var finals := FinalWindows(e.windows);
    if finals != [] {
      AddGroupDistinct([], WindowFrames(Latest(finals)));
      var first := AddGroup([], WindowFrames(Latest(finals)));
      var later := WindowsAfter(e.windows, SortFrame(Latest(finals)));
      if later != [] { AddGroupDistinct(first, WindowFrames(Latest(later))); }
    } else if e.windows != [] {
      AddGroupDistinct([], WindowFrames(Latest(e.windows)));
    }
    if EpisodeEnd(e).Some? {
      var end := EpisodeEnd(e).value;
      forall groups | GroupsDistinct(groups) ensures GroupsDistinct(AddGroup(groups, [end])) {
        AddGroupDistinct(groups, [end]);
      }
    }
  }

  /** The terminal frames that have images, in group order, each once. */
  function TerminalFrames(groups: seq<seq<int>>, images: seq<int>): (r: seq<int>)
    ensures forall f :: f in r <==> f in images && exists k :: 0 <= k < |groups| && f in groups[k]
  {
    Dedupe(Filter(Concat(groups), images, []))
  }

  // ---------------------------------------------------------------- selection

  function Score(row: KeyFrame): nat {
    1 + (if FailureCandidate in row.reasons then 4 else 0)
      + (if VisualDisagreement in row.reasons then 3 else 0)
      + (if PhaseBoundary in row.reasons then 2 else 0)
      + (if EndFrame in row.reasons then 3 else 0)
      + (if FinalObservationFrame in row.reasons then 5 else 0)
      + (if VsaWindow in row.reasons && "sequence_start" !in row.eventTypes then 1 else 0)
  }

  /** The best score any row gives to a frame. */
  function BestScore(rows: seq<KeyFrame>, frame: int): nat {
    if rows == [] then 0
    else
      var rest := BestScore(rows[..|rows| - 1], frame);
      var row := rows[|rows| - 1];
      if row.frameId == frame && rest < Score(row) then Score(row) else rest
  }

  /** Higher score first, then earlier frame. */
  function RankOrder(rows: seq<KeyFrame>): (int, int) -> bool {
    (a, b) => BestScore(rows, a) > BestScore(rows, b) || (BestScore(rows, a) == BestScore(rows, b) && a <= b)
  }

  function RowFrames(rows: seq<KeyFrame>): seq<int> {
    seq(|rows|, i requires 0 <= i < |rows| => rows[i].frameId)
  }

  /** Key frames with an image that are not already chosen. */
  function Eligible(e: Evidence, chosen: seq<int>): seq<int> {
    Dedupe(Filter(RowFrames(e.keyFrames), e.images, chosen))
  }

  function Take(s: seq<int>, n: int): (r: seq<int>)
    ensures forall x :: x in r ==> x in s
  {
    if n <= 0 then [] else if n <= |s| then s[..n] else s
  }

  function Chosen(e: Evidence, budget: int): seq<int> {
    var terminal := Take(TerminalFrames(TerminalGroups(e), e.images), budget);
    terminal + Take(Sort(Eligible(e, terminal), RankOrder(e.keyFrames)), budget - |terminal|)
  }

  function SelectedFrames(e: Evidence, budget: int): seq<int> {
    if budget <= 0 then [] else Sort(Chosen(e, budget), IntLe)
  }

  /** Everything the selector may choose from. */
  ghost predicate InPool(e: Evidence, f: int) {
    f in e.images && (f in RowFrames(e.keyFrames) || IsTerminalFrame(e, f))
  }

  ghost function Pool(e: Evidence): set<int> {
    set f | f in e.images && InPool(e, f)
  }

  ghost predicate IsTerminalFrame(e: Evidence, f: int) {
    f in TerminalFrames(TerminalGroups(e), e.images)
  }

  lemma RankIsTotalOrder(rows: seq<KeyFrame>)
    ensures TotalOrder(RankOrder(rows))
  {
  }

  lemma TakeKeepsDistinct(s: seq<int>, n: int)
    requires NoDuplicates(s)
    ensures NoDuplicates(Take(s, n))
    ensures |Take(s, n)| == if n <= 0 then 0 else if n <= |s| then n else |s|
  {
  }

  lemma EligibleSorted(e: Evidence, chosen: seq<int>)
    ensures StrictlySorted(Sort(Eligible(e, chosen), RankOrder(e.keyFrames)), RankOrder(e.keyFrames))
    ensures NoDuplicates(Eligible(e, chosen))
  {
    RankIsTotalOrder(e.keyFrames);
    SortIsStrict(Eligible(e, chosen), RankOrder(e.keyFrames));
  }

  lemma TerminalFramesDistinct(e: Evidence)
    ensures NoDuplicates(TerminalFrames(TerminalGroups(e), e.images))
  {
    hide TerminalGroups;
  }

  lemma EligibleMembers(e: Evidence, chosen: seq<int>)
    ensures forall f :: f in Eligible(e, chosen) ==> f !in chosen
    ensures forall f :: f in Eligible(e, chosen) ==> InPool(e, f)
  {
    hide TerminalGroups;
  }

  lemma PoolSize(e: Evidence)
    ensures var T := TerminalFrames(TerminalGroups(e), e.images);
      |Pool(e)| == |T| + |Eligible(e, T)| && forall f :: f in T || f in Eligible(e, T) <==> InPool(e, f)
  {
    hide TerminalGroups;
    var T := TerminalFrames(TerminalGroups(e), e.images);
    EligibleSorted(e, T);
    EligibleMembers(e, T);
    AppendDistinct(T, Eligible(e, T));
    DistinctSize(T + Eligible(e, T), Pool(e));
  }

  /** The chosen frames are distinct members of the pool, as many as the budget allows. */
  lemma ChosenSize(e: Evidence, budget: nat)
    requires budget > 0
    ensures NoDuplicates(Chosen(e, budget))
    ensures forall f :: f in Chosen(e, budget) ==> InPool(e, f)
    ensures |Chosen(e, budget)| == if budget <= |Pool(e)| then budget else |Pool(e)|
  {
    hide TerminalGroups, RankOrder, Pool, InPool, TerminalFrames, Eligible;
    var T := TerminalFrames(TerminalGroups(e), e.images);
    PoolSize(e);
    TerminalFramesDistinct(e);
    TakeKeepsDistinct(T, budget);
    var first := Take(T, budget);
    EligibleSorted(e, first);
    var ranked := Sort(Eligible(e, first), RankOrder(e.keyFrames));
    TakeKeepsDistinct(ranked, budget - |first|);
    EligibleMembers(e, first);
    AppendDistinct(first, Take(ranked, budget - |first|));
    assert Chosen(e, budget) == first + Take(ranked, budget - |first|);
    if |T| < budget {
      assert first == T;
    }
  }

  /** The selection is the best one the budget allows: sorted, indexed and as large as possible,
      terminal frames first, then key frames by rank. */
  lemma SelectionIsOptimal(e: Evidence, budget: int)
    requires budget > 0
    ensures var r := SelectedFrames(e, budget);
      && StrictlySorted(r, IntLe)
      && (forall f :: f in r ==> InPool(e, f))
      && |r| == (if budget <= |Pool(e)| then budget else |Pool(e)|)
    ensures var r := SelectedFrames(e, budget);
      forall t, f | IsTerminalFrame(e, t) && t !in r && f in r :: IsTerminalFrame(e, f)
    ensures var r := SelectedFrames(e, budget);
      forall k, f | k in RowFrames(e.keyFrames) && k in e.images && k !in r && f in r && !IsTerminalFrame(e, f) ::
        k != f && RankOrder(e.keyFrames)(f, k)
  {
    hide TerminalGroups, RankOrder, TerminalFrames, Eligible, Sort, Take, StrictlySorted, TotalOrder, InPool, Pool;
    ChosenSize(e, budget);
    assert TotalOrder(IntLe) by { IntLeOrder(); }
    SortIsStrict(Chosen(e, budget), IntLe);
    var r, le := SelectedFrames(e, budget), RankOrder(e.keyFrames);
    var T := TerminalFrames(TerminalGroups(e), e.images);
    var first := Take(T, budget);
    var ranked := Sort(Eligible(e, first), le);
    var taken := Take(ranked, budget - |first|);
    EligibleSorted(e, first);
    assert forall f :: f in r <==> f in first || f in taken;
    TakeWhole(T, budget);
    if |T| >= budget {
      NothingTaken(ranked, budget - |first|);
    } else {
      forall k, f | k in RowFrames(e.keyFrames) && k in e.images && k !in r && f in r && f !in T
        ensures k != f && le(f, k)
      {
        EligibleHolds(e, first, k);
        TakeBeforeRest(ranked, budget - |first|, k, f, le);
      }
    }
  }

  lemma IntLeOrder()
    ensures TotalOrder(IntLe)
  {
  }

  lemma TakeWhole(s: seq<int>, n: nat)
    ensures if n <= |s| then |Take(s, n)| == n else Take(s, n) == s
  {
  }

  lemma NothingTaken(s: seq<int>, n: int)
    ensures n <= 0 ==> Take(s, n) == []
  {
  }

  lemma EligibleHolds(e: Evidence, chosen: seq<int>, k: int)
    requires k in RowFrames(e.keyFrames) && k in e.images && k !in chosen
    ensures k in Eligible(e, chosen)
  {
    EligibleMembers(e, chosen);
  }

  /** What is taken from a sorted list comes before what is left. */
  lemma TakeBeforeRest(s: seq<int>, n: int, k: int, f: int, le: (int, int) -> bool)
    requires StrictlySorted(s, le) && k in s && k !in Take(s, n) && f in Take(s, n)
    ensures k != f && le(f, k)
  {
    var taken := Take(s, n);
    var i :| 0 <= i < |s| && s[i] == k;
    var j :| 0 <= j < |taken| && taken[j] == f;
    assert taken == s[..|taken|];
    assert forall m :: 0 <= m < |taken| ==> taken[m] == s[m] && s[m] != k;
  }

  // ------------------------------------------------- the selector's own loops

  lemma {:induction false} DedupePrefix(s: seq<int>, t: seq<int>)
    ensures Dedupe(s) <= Dedupe(s + t)
  {
    if t == [] {
      assert s + t == s;
    } else {
      DedupePrefix(s, t[..|t| - 1]);
      assert (s + t)[..|s + t| - 1] == s + t[..|t| - 1];
    }
  }

  lemma {:induction false} FilterPrefix(s: seq<int>, t: seq<int>, keep: seq<int>, drop: seq<int>)
    ensures Filter(s, keep, drop) <= Filter(s + t, keep, drop)
  {
    if t == [] {
      assert s + t == s;
    } else {
      FilterPrefix(s, t[..|t| - 1], keep, drop);
      assert (s + t)[..|s + t| - 1] == s + t[..|t| - 1];
    }
  }

  lemma {:induction false} ConcatPrefix(parts: seq<seq<int>>, i: nat)
    requires i <= |parts|
    ensures Concat(parts[..i]) <= Concat(parts)
    ensures i < |parts| ==> Concat(parts[..i]) + parts[i] == Concat(parts[..i + 1])
  {
    if i < |parts| {
      assert parts[..i + 1][..i] == parts[..i];
      ConcatPrefix(parts[..|parts| - 1], i);
      assert parts[..|parts| - 1][..i] == parts[..i];
    } else {
      assert parts[..i] == parts;
    }
  }

  /** One more frame of the scan: it is taken if it has an image and is new. */
  lemma ScanStep(seen: seq<int>, f: int, images: seq<int>)
    ensures var before, after := Scanned(seen, images), Scanned(seen + [f], images);
      after == if f in images && f !in before then before + [f] else before
  {
    var kept := Filter(seen, images, []);
    assert (seen + [f])[..|seen|] == seen;
    if f in images {
      assert (kept + [f])[..|kept|] == kept;
    } else {
      assert kept + [] == kept;
    }
  }

  /** A scan of a prefix of the groups has found a prefix of the terminal frames. */
  lemma ScanPrefix(groups: seq<seq<int>>, i: nat, j: nat, images: seq<int>)
    requires i < |groups| && j <= |groups[i]|
    ensures Scanned(Concat(groups[..i]) + groups[i][..j], images) <= TerminalFrames(groups, images)
  {
    hide Concat, Dedupe, Filter;
    ConcatPrefix(groups, i);
    ConcatPrefix(groups, i + 1);
    var seen, all := Concat(groups[..i]) + groups[i][..j], Concat(groups);
    assert seen <= all;
    var rest := all[|seen|..];
    assert all == seen + rest;
    FilterPrefix(seen, rest, images, []);
    var taken, kept := Filter(seen, images, []), Filter(all, images, []);
    assert kept == taken + kept[|taken|..];
    DedupePrefix(taken, kept[|taken|..]);
  }

  function ScoreOf(scored: map<int, nat>, f: int): nat {
    if f in scored then scored[f] else 0
  }

  function ScoredOrder(scored: map<int, nat>): (int, int) -> bool {
    (a, b) => ScoreOf(scored, a) > ScoreOf(scored, b) || (ScoreOf(scored, a) == ScoreOf(scored, b) && a <= b)
  }

  /** Sorting by the accumulated score table is sorting by rank. */
  lemma ScoredOrderIsRank(rows: seq<KeyFrame>, keys: seq<int>, scored: map<int, nat>)
    requires NoDuplicates(keys)
    requires forall f :: f in keys ==> f in scored && scored[f] == BestScore(rows, f)
    ensures Sort(keys, ScoredOrder(scored)) == Sort(keys, RankOrder(rows))
  {
    RankIsTotalOrder(rows);
    SortIsStrict(keys, RankOrder(rows));
    SortIsStrict(keys, ScoredOrder(scored));
    var s := Sort(keys, ScoredOrder(scored));
    assert StrictlySorted(s, RankOrder(rows)) by {
      forall i, j | 0 <= i < j < |s| ensures RankOrder(rows)(s[i], s[j]) {
        assert s[i] in s && s[j] in s;
      }
    }
    StrictlySortedIsUnique(s, Sort(keys, RankOrder(rows)), RankOrder(rows));
  }

  /** What a scan that has seen these frames has taken. */
  function Scanned(seen: seq<int>, images: seq<int>): seq<int> {
    Dedupe(Filter(seen, images, []))
  }

  method ScanGroup(found: seq<int>, group: seq<int>, images: seq<int>, budget: nat, ghost seen: seq<int>)
    returns (selected: seq<int>, full: bool, ghost j: nat)
    requires found == Scanned(seen, images) && |found| <= budget
    ensures j <= |group| && selected == Scanned(seen + group[..j], images) && |selected| <= budget
    ensures if full then |selected| == budget else j == |group|
  {
    hide Scanned;
    selected, full, j := found, false, 0;
    assert seen + group[..0] == seen;
    for k := 0 to |group|
      invariant j == k && selected == Scanned(seen + group[..k], images) && |selected| <= budget
    {
      if |selected| >= budget {
        return selected, true, k;
      }
      ScanStep(seen + group[..k], group[k], images);
      assert seen + group[..k + 1] == seen + group[..k] + [group[k]];
      if group[k] in images && group[k] !in selected {
        selected := selected + [group[k]];
      }
      j := k + 1;
    }
  }

  method TerminalSelection(e: Evidence, budget: nat) returns (selected: seq<int>, full: bool)
    ensures selected == Take(TerminalFrames(TerminalGroups(e), e.images), budget)
    ensures full ==> |selected| == budget
  {
    hide TerminalGroups, Scanned;
    var groups := TerminalGroups(e);
    selected, full := [], false;
    NothingScanned(e.images);
    for i := 0 to |groups|
      invariant selected == Scanned(Concat(groups[..i]), e.images) && |selected| <= budget
    {
      ghost var j;
      selected, full, j := ScanGroup(selected, groups[i], e.images, budget, Concat(groups[..i]));
      if full {
        ScanPrefix(groups, i, j, e.images);
        return;
      }
      assert groups[i][..j] == groups[i];
      ConcatPrefix(groups, i);
    }
    assert groups[..|groups|] == groups;
    AllScanned(groups, e.images);
  }

  lemma NothingScanned(images: seq<int>)
    ensures Scanned(Concat([]), images) == []
  {
  }

  lemma AllScanned(groups: seq<seq<int>>, images: seq<int>)
    ensures Scanned(Concat(groups), images) == TerminalFrames(groups, images)
  {
  }

  /** One more key-frame row: its frame joins the table if it is indexed, unchosen and new. */
  lemma TableStep(rows: seq<KeyFrame>, i: nat, images: seq<int>, selected: seq<int>)
    requires i < |rows|
    ensures var before, f := Dedupe(Filter(RowFrames(rows[..i]), images, selected)), rows[i].frameId;
      Dedupe(Filter(RowFrames(rows[..i + 1]), images, selected))
        == if f in images && f !in selected && f !in before then before + [f] else before
  {
    var frames, f := RowFrames(rows[..i]), rows[i].frameId;
    assert RowFrames(rows[..i + 1]) == frames + [f];
    assert (frames + [f])[..|frames|] == frames;
    var kept := Filter(frames, images, selected);
    assert (kept + [f])[..|kept|] == kept && kept + [] == kept;
  }

  lemma ScoreStep(rows: seq<KeyFrame>, i: nat, f: int)
    requires i < |rows|
    ensures var before := BestScore(rows[..i], f);
      BestScore(rows[..i + 1], f) == if rows[i].frameId == f && before < Score(rows[i]) then Score(rows[i]) else before
    ensures f !in RowFrames(rows[..i]) ==> BestScore(rows[..i], f) == 0
  {
    assert rows[..i + 1][..i] == rows[..i];
    UnlistedScoresZero(rows[..i], f);
  }

  lemma {:induction false} UnlistedScoresZero(rows: seq<KeyFrame>, f: int)
    ensures f !in RowFrames(rows) ==> BestScore(rows, f) == 0
  {
    if rows != [] && f !in RowFrames(rows) {
      var n := |rows| - 1;
      assert RowFrames(rows)[n] == rows[n].frameId;
      assert RowFrames(rows[..n]) == RowFrames(rows)[..n];
      UnlistedScoresZero(rows[..n], f);
    }
  }

  lemma NothingInTable(images: seq<int>, selected: seq<int>)
    ensures Dedupe(Filter(RowFrames([]), images, selected)) == []
  {
  }

  method ScoreTable(e: Evidence, selected: seq<int>) returns (keys: seq<int>, scored: map<int, nat>)
    ensures keys == Eligible(e, selected)
    ensures forall f :: f in keys ==> f in scored && scored[f] == BestScore(e.keyFrames, f)
  {
    hide Score, BestScore, Dedupe, Filter, RowFrames;
    var rows := e.keyFrames;
    keys, scored := [], map[];
    NothingInTable(e.images, selected);
    assert rows[..0] == [];
    for i := 0 to |rows|
      invariant keys == Dedupe(Filter(RowFrames(rows[..i]), e.images, selected))
      invariant forall f :: f in scored <==> f in keys
      invariant forall f :: f in keys ==> scored[f] == BestScore(rows[..i], f)
    {
      var row := rows[i];
      TableStep(rows, i, e.images, selected);
      forall f { ScoreStep(rows, i, f); }
      if row.frameId !in e.images || row.frameId in selected {
        continue;
      }
      var previous := if row.frameId in scored then scored[row.frameId] else 0;
      if row.frameId !in scored {
        keys := keys + [row.frameId];
      }
      scored := scored[row.frameId := if previous < Score(row) then Score(row) else previous];
    }
    assert rows[..|rows|] == rows;
  }

  lemma TakeKeepsBudget(s: seq<int>, n: nat)
    ensures |Take(s, n)| <= n
  {
  }

  method FillUp(first: seq<int>, ordered: seq<int>, budget: nat) returns (selected: seq<int>)
    requires |first| <= budget
    ensures selected == first + Take(ordered, budget - |first|)
  {
    selected := first;
    var k := 0;
    while k < |ordered| && |selected| < budget
      invariant 0 <= k <= |ordered| && selected == first + ordered[..k]
      invariant |first| <= |selected| <= budget
    {
      selected := selected + [ordered[k]];
      k := k + 1;
    }
    assert ordered[..|ordered|] == ordered;
  }

  method SelectReviewFrameIds(e: Evidence, budget: int) returns (r: seq<int>)
    ensures r == SelectedFrames(e, budget)
  {
    hide TerminalGroups, RankOrder, TerminalFrames, Eligible, Sort, StrictlySorted, ScoredOrder, Take;
    if budget <= 0 {
      return [];
    }
    var selected, full := TerminalSelection(e, budget);
    if full {
      NothingTaken(Sort(Eligible(e, selected), RankOrder(e.keyFrames)), budget - |selected|);
      assert selected + [] == selected;
      return Sort(selected, IntLe);
    }
    var keys, scored := ScoreTable(e, selected);
    EligibleSorted(e, selected);
    ScoredOrderIsRank(e.keyFrames, keys, scored);
    TakeKeepsBudget(TerminalFrames(TerminalGroups(e), e.images), budget);
    selected := FillUp(selected, Sort(keys, ScoredOrder(scored)), budget);
    r := Sort(selected, IntLe);
  }

  // ----------------------------------------------------------------- coverage

  /** The frames whose image could be read. */
  function Loaded(frames: seq<int>, images: seq<int>, readable: seq<int>): seq<int> {
    Filter(Filter(frames, images, []), readable, [])
  }

  predicate Hits(group: seq<int>, selected: seq<int>) {
    exists f :: f in group && f in selected
  }

  function MissingGroups(groups: seq<seq<int>>, selected: seq<int>): seq<seq<int>> {
    if groups == [] then []
    else
      var group := groups[|groups| - 1];
      MissingGroups(groups[..|groups| - 1], selected)
      + if group != [] && !Hits(group, selected) then [group] else []
  }

  datatype Coverage = Coverage(coversEpisodeEnd: bool, required: seq<seq<int>>, missing: seq<seq<int>>)

  function ImageCoverage(e: Evidence, selected: seq<int>): Coverage {
    var groups := TerminalGroups(e);
    var missing := MissingGroups(groups, selected);
    Coverage(missing == [], groups, missing)
  }

  lemma {:induction false} MissingExactly(groups: seq<seq<int>>, selected: seq<int>)
    ensures forall g :: g in MissingGroups(groups, selected) <==> g in groups && g != [] && !Hits(g, selected)
  {
    if groups != [] {
      MissingExactly(groups[..|groups| - 1], selected);
      assert groups == groups[..|groups| - 1] + [groups[|groups| - 1]];
    }
  }

  /** Coverage is sufficient exactly when every terminal group shows at least one image. */
  lemma CoverageExactly(e: Evidence, selected: seq<int>)
    ensures ImageCoverage(e, selected).coversEpisodeEnd <==>
      forall g :: g in TerminalGroups(e) ==> Hits(g, selected)
  {
    hide TerminalGroups;
    MissingExactly(TerminalGroups(e), selected);
    TerminalGroupsDistinct(e);
    var missing := MissingGroups(TerminalGroups(e), selected);
    if missing != [] { assert missing[0] in missing; }
  }

  /** When the terminal frames fit the budget and every image loads, only groups without any image are missing. */
  lemma SelectionCoversTerminals(e: Evidence, budget: int, readable: seq<int>)
    requires budget > 0 && |TerminalFrames(TerminalGroups(e), e.images)| <= budget
    requires forall f :: f in e.images ==> f in readable
    ensures var coverage := ImageCoverage(e, Loaded(SelectedFrames(e, budget), e.images, readable));
      forall g :: g in coverage.missing <==> g in TerminalGroups(e) && !Hits(g, e.images)
  {
    hide TerminalGroups, RankOrder;
    var T := TerminalFrames(TerminalGroups(e), e.images);
    var shown := Loaded(SelectedFrames(e, budget), e.images, readable);
    ChosenSize(e, budget);
    MissingExactly(TerminalGroups(e), shown);
    TerminalGroupsDistinct(e);
    assert Take(T, budget) == T;
    forall g | g in TerminalGroups(e) ensures Hits(g, shown) <==> Hits(g, e.images) {
      if Hits(g, e.images) {
        var f :| f in g && f in e.images;
        assert f in T && f in Chosen(e, budget) && f in shown;
      }
    }
  }
}
