/** Splitting the indexed frames of a long rollout into review packets. */
module ReviewPackets {
  import opened Common
  import opened ReviewData
  import opened ReviewImages

  datatype Plan = Plan(purpose: string, frames: seq<int>)

  datatype Packet = Packet(index: nat, purpose: string, imageFrames: seq<int>)

  /** Every frame with an image, in order. */
  function Candidates(e: Evidence): (r: seq<int>)
    ensures forall f :: f in r <==> f in e.images
  {
    Sort(Dedupe(Filter(RowFrames(e.keyFrames), e.images, []) + e.images), IntLe)
  }

  /** Consecutive slices of at most `n` frames. */
  function Chunks(s: seq<int>, n: nat): seq<seq<int>>
    requires n > 0
  {
    if s == [] then [] else if |s| <= n then [s] else [s[..n]] + Chunks(s[n..], n)
  }

  function Labelled(purpose: string, chunks: seq<seq<int>>): seq<Plan> {
    seq(|chunks|, i requires 0 <= i < |chunks| => Plan(purpose, chunks[i]))
  }

  /** All frames of the plans, in order. */
  function Frames(plans: seq<Plan>): seq<int> {
    if plans == [] then [] else plans[0].frames + Frames(plans[1..])
  }

  /** Packets for the first `k` terminal groups; a frame goes to the first group that lists it. */
  function TerminalPlans(groups: seq<seq<int>>, images: seq<int>, budget: nat, k: nat): seq<Plan>
    requires budget > 0 && k <= |groups|
  {
    if k == 0 then []
    else
      var plans := TerminalPlans(groups, images, budget, k - 1);
      var purpose := if k == 1 then "terminal_focus" else "post_terminal_context";
      plans + Labelled(purpose, Chunks(Filter(groups[k - 1], images, Frames(plans)), budget))
  }

  function LeadingPlans(e: Evidence, budget: nat): seq<Plan>
    requires budget > 0
  {
    var groups := TerminalGroups(e);
    var terminal := TerminalPlans(groups, e.images, budget, |groups|);
    if terminal == [] then [Plan("terminal_focus", SelectedFrames(e, budget))] else terminal
  }

  function PlannedPackets(e: Evidence, budget: nat): seq<Plan>
    requires budget > 0
  {
    var leading := LeadingPlans(e, budget);
    leading
    + Labelled("temporal_context", Chunks(Filter(Candidates(e), e.images, Frames(leading)), budget))
  }

  /** The plans of which at least one image loads, numbered by their position in the plan. */
  function Loadable(plans: seq<Plan>, images: seq<int>, readable: seq<int>, from: nat): seq<Packet> {
    if plans == [] then []
    else
      var shown := Loaded(plans[0].frames, images, readable);
      (if shown == [] then [] else [Packet(from, plans[0].purpose, shown)])
      + Loadable(plans[1..], images, readable, from + 1)
  }

  function PacketsToReview(e: Evidence, budget: int, readable: seq<int>): seq<Packet> {
    if budget <= 0 || |Candidates(e)| <= budget then []
    else
      var packets := Loadable(PlannedPackets(e, budget), e.images, readable, 0);
      if |packets| > 1 then packets else []
  }

  // ---------------------------------------------------------- the planner's loops

  method SliceInto(purpose: string, s: seq<int>, budget: nat) returns (plans: seq<Plan>)
    requires budget > 0
    ensures plans == Labelled(purpose, Chunks(s, budget))
  {
    plans := [];
    var at := 0;
    ghost var rest := s;
    while at < |s|
      invariant 0 <= at && rest == if at <= |s| then s[at..] else []
      invariant Labelled(purpose, Chunks(s, budget)) == plans + Labelled(purpose, Chunks(rest, budget))
    {
      var end := if at + budget <= |s| then at + budget else |s|;
      ghost var later := if |rest| <= budget then [] else rest[budget..];
      assert s[at..end] == if |rest| <= budget then rest else rest[..budget];
      assert Chunks(rest, budget) == [s[at..end]] + Chunks(later, budget);
      assert Labelled(purpose, Chunks(rest, budget)) == [Plan(purpose, s[at..end])] + Labelled(purpose, Chunks(later, budget));
      plans := plans + [Plan(purpose, s[at..end])];
      at, rest := at + budget, later;
    }
  }

  method PlanPackets(e: Evidence, budget: nat) returns (plans: seq<Plan>)
    requires budget > 0
    ensures plans == PlannedPackets(e, budget)
  {
    hide TerminalGroups, Candidates, SelectedFrames;
    var groups := TerminalGroups(e);
    plans := [];
    for k := 0 to |groups|
      invariant plans == TerminalPlans(groups, e.images, budget, k)
    {
      var available := Filter(groups[k], e.images, Frames(plans));
      var chunks := SliceInto(if k == 0 then "terminal_focus" else "post_terminal_context", available, budget);
      plans := plans + chunks;
    }
    if plans == [] {
      plans := [Plan("terminal_focus", SelectedFrames(e, budget))];
    }
    var remaining := Filter(Candidates(e), e.images, Frames(plans));
    var chunks := SliceInto("temporal_context", remaining, budget);
    plans := plans + chunks;
  }

  // ------------------------------------------------------------------ partition

  lemma {:induction false} FramesAppend(a: seq<Plan>, b: seq<Plan>)
    ensures Frames(a + b) == Frames(a) + Frames(b)
  {
    if a == [] {
      assert a + b == b;
    } else {
      FramesAppend(a[1..], b);
      var head, tail, more := a[0].frames, Frames(a[1..]), Frames(b);
      assert (a + b)[1..] == a[1..] + b;
      assert Frames(a + b) == head + (tail + more);
      assert head + (tail + more) == (head + tail) + more;
    }
  }

  ghost predicate Within(plans: seq<Plan>, budget: nat) {
    forall i :: 0 <= i < |plans| ==> |plans[i].frames| <= budget
  }

  lemma {:induction false} ChunksPartition(purpose: string, s: seq<int>, n: nat)
    requires n > 0
    ensures Frames(Labelled(purpose, Chunks(s, n))) == s
    ensures Within(Labelled(purpose, Chunks(s, n)), n)
    ensures s == [] <==> Chunks(s, n) == []
  {
    if |s| > n {
      ChunksPartition(purpose, s[n..], n);
      assert Labelled(purpose, Chunks(s, n))[1..] == Labelled(purpose, Chunks(s[n..], n));
      assert s == s[..n] + s[n..];
    } else if s != [] {
      assert Labelled(purpose, [s])[1..] == [];
    }
  }

  /** Plans over distinct indexed frames, each within the budget. */
  ghost predicate Sound(plans: seq<Plan>, images: seq<int>, budget: nat) {
    && NoDuplicates(Frames(plans))
    && Within(plans, budget)
    && forall f :: f in Frames(plans) ==> f in images
  }

  lemma ExtendPlans(plans: seq<Plan>, purpose: string, frames: seq<int>, images: seq<int>, budget: nat)
    requires budget > 0 && Sound(plans, images, budget) && NoDuplicates(frames)
    ensures var added := Filter(frames, images, Frames(plans));
      var out := plans + Labelled(purpose, Chunks(added, budget));
      && Sound(out, images, budget)
      && Frames(out) == Frames(plans) + added
  {
    var added := Filter(frames, images, Frames(plans));
    ChunksPartition(purpose, added, budget);
    FramesAppend(plans, Labelled(purpose, Chunks(added, budget)));
    FilterKeepsDistinct(frames, images, Frames(plans));
    AppendDistinct(Frames(plans), added);
  }

  lemma {:induction false} TerminalPlansSound(groups: seq<seq<int>>, images: seq<int>, budget: nat, k: nat)
    requires budget > 0 && k <= |groups| && GroupsDistinct(groups)
    ensures Sound(TerminalPlans(groups, images, budget, k), images, budget)
  {
    if k > 0 {
      TerminalPlansSound(groups, images, budget, k - 1);
      var purpose := if k == 1 then "terminal_focus" else "post_terminal_context";
      ExtendPlans(TerminalPlans(groups, images, budget, k - 1), purpose, groups[k - 1], images, budget);
    }
  }

  lemma LeadingPlansSound(e: Evidence, budget: nat)
    requires budget > 0
    ensures Sound(LeadingPlans(e, budget), e.images, budget) && LeadingPlans(e, budget) != []
  {
    hide TerminalGroups, SelectedFrames;
    var groups := TerminalGroups(e);
    TerminalGroupsDistinct(e);
    TerminalPlansSound(groups, e.images, budget, |groups|);
    if TerminalPlans(groups, e.images, budget, |groups|) == [] {
      SelectionIsOptimal(e, budget);
      var only := Plan("terminal_focus", SelectedFrames(e, budget));
      assert [only][1..] == [];
      assert Frames([only]) == only.frames;
    }
  }

  lemma {:induction false} FramesBound(plans: seq<Plan>, budget: nat)
    requires Within(plans, budget)
    ensures |Frames(plans)| <= |plans| * budget
  {
    if plans != [] {
      FramesBound(plans[1..], budget);
    }
  }

  lemma CandidatesDistinct(e: Evidence)
    ensures NoDuplicates(Candidates(e))
  {
    SortIsStrict(Dedupe(Filter(RowFrames(e.keyFrames), e.images, []) + e.images), IntLe);
  }

  /** The planned packets partition the indexed frames: disjoint, each within the budget, nothing
      left over, and at least two of them once the candidates exceed the budget. */
  lemma PacketPartition(e: Evidence, budget: nat)
    requires budget > 0 && |Candidates(e)| > budget
    ensures var plans := PlannedPackets(e, budget);
      && NoDuplicates(Frames(plans))
      && Within(plans, budget)
      && (forall f :: f in Frames(plans) <==> f in e.images)
      && |plans| >= 2
  {
    hide LeadingPlans, Candidates, Chunks;
    var leading, plans := LeadingPlans(e, budget), PlannedPackets(e, budget);
    LeadingPlansSound(e, budget);
    CandidatesDistinct(e);
    ExtendPlans(leading, "temporal_context", Candidates(e), e.images, budget);
    CandidateCount(e, Frames(plans));
    FramesBound(plans, budget);
    assert |plans| * budget > budget;
  }

  lemma CandidateCount(e: Evidence, all: seq<int>)
    requires NoDuplicates(all) && forall f :: f in all <==> f in e.images
    ensures |all| == |Candidates(e)|
  {
    hide Candidates;
    CandidatesDistinct(e);
    DistinctSize(all, set f | f in all);
    DistinctSize(Candidates(e), set f | f in all);
  }

  function ShownFrames(packets: seq<Packet>): seq<int> {
    if packets == [] then [] else packets[0].imageFrames + ShownFrames(packets[1..])
  }

  lemma LoadedWhenReadable(frames: seq<int>, images: seq<int>, readable: seq<int>)
    requires forall f :: f in frames ==> f in images
    requires forall f :: f in images ==> f in readable
    ensures Loaded(frames, images, readable) == frames
  {
    FilterAll(frames, images);
    FilterAll(frames, readable);
  }

  lemma {:induction false} FilterAll(frames: seq<int>, keep: seq<int>)
    requires forall f :: f in frames ==> f in keep
    ensures Filter(frames, keep, []) == frames
  {
    if frames != [] {
      var init := frames[..|frames| - 1];
      var last := frames[|frames| - 1];
      FilterAll(init, keep);
      assert last in frames;
      assert Filter(frames, keep, []) == init + [last];
    }
  }

  lemma {:induction false} LoadableShowsAll(plans: seq<Plan>, images: seq<int>, readable: seq<int>, from: nat)
    requires forall f :: f in Frames(plans) ==> f in images
    requires forall f :: f in images ==> f in readable
    ensures ShownFrames(Loadable(plans, images, readable, from)) == Frames(plans)
  {
    if plans != [] {
      LoadedWhenReadable(plans[0].frames, images, readable);
      LoadableShowsAll(plans[1..], images, readable, from + 1);
      var rest := Loadable(plans[1..], images, readable, from + 1);
      if plans[0].frames == [] {
        assert [] + rest == rest;
      } else {
        var first := Packet(from, plans[0].purpose, plans[0].frames);
        assert ([first] + rest)[1..] == rest;
      }
    }
  }

  /** Packet numbers are positions in the plan: they increase and never repeat. */
  ghost predicate Numbered(packets: seq<Packet>, low: int, high: int) {
    && (forall i :: 0 <= i < |packets| ==> low <= packets[i].index < high)
    && (forall i, j :: 0 <= i < j < |packets| ==> packets[i].index < packets[j].index)
  }

  lemma {:induction false} PacketIndicesIncrease(plans: seq<Plan>, images: seq<int>, readable: seq<int>, from: nat)
    ensures Numbered(Loadable(plans, images, readable, from), from, from + |plans|)
  {
    hide Loaded;
    if plans != [] {
      var rest := Loadable(plans[1..], images, readable, from + 1);
      PacketIndicesIncrease(plans[1..], images, readable, from + 1);
      var packets := Loadable(plans, images, readable, from);
      if Loaded(plans[0].frames, images, readable) == [] {
        assert packets == rest;
      } else {
        assert packets[0].index == from && packets[1..] == rest;
        assert forall i :: 0 < i < |packets| ==> packets[i] == rest[i - 1];
      }
    }
  }

  lemma {:induction false} ShownBound(packets: seq<Packet>, budget: nat)
    requires forall i :: 0 <= i < |packets| ==> |packets[i].imageFrames| <= budget
    ensures |ShownFrames(packets)| <= |packets| * budget
  {
    if packets != [] {
      ShownBound(packets[1..], budget);
    }
  }

  lemma {:induction false} FilterShrinks(s: seq<int>, keep: seq<int>, drop: seq<int>)
    ensures |Filter(s, keep, drop)| <= |s|
  {
    if s != [] {
      FilterShrinks(s[..|s| - 1], keep, drop);
    }
  }

  lemma {:induction false} LoadableWithin(plans: seq<Plan>, images: seq<int>, readable: seq<int>, from: nat, budget: nat)
    requires Within(plans, budget)
    ensures forall p :: p in Loadable(plans, images, readable, from) ==> |p.imageFrames| <= budget
  {
    if plans != [] {
      var frames := plans[0].frames;
      FilterShrinks(frames, images, []);
      FilterShrinks(Filter(frames, images, []), readable, []);
      LoadableWithin(plans[1..], images, readable, from + 1, budget);
    }
  }

  /** If every image loads, a rollout with too many frames for one prompt is reviewed in several
      packets that show every indexed frame exactly once. */
  lemma EveryImageReviewedOnce(e: Evidence, budget: nat, readable: seq<int>)
    requires budget > 0 && |Candidates(e)| > budget
    requires forall f :: f in e.images ==> f in readable
    ensures var packets := PacketsToReview(e, budget, readable);
      && |packets| >= 2
      && NoDuplicates(ShownFrames(packets))
      && (forall f :: f in ShownFrames(packets) <==> f in e.images)
  {
    hide PlannedPackets, Candidates;
    var plans := PlannedPackets(e, budget);
    PacketPartition(e, budget);
    LoadableShowsAll(plans, e.images, readable, 0);
    CandidateCount(e, Frames(plans));
    var packets := Loadable(plans, e.images, readable, 0);
    LoadableWithin(plans, e.images, readable, 0, budget);
    forall i | 0 <= i < |packets| ensures |packets[i].imageFrames| <= budget {
      assert packets[i] in packets;
    }
    ShownBound(packets, budget);
    assert |packets| * budget > budget;
  }
}
