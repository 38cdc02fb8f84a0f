/** When a review split over packets can overrule a deterministic success: its terminal coverage is judged
    by the first packet alone. */
module PacketCoverage {
  import opened Common
  import opened ReviewData
  import opened ReviewImages
  import opened ReviewPackets
  import opened PacketVerdict
  import opened Annotation
  import opened AnnotationLaws

  ghost predicate InOneGroup(groups: seq<seq<int>>, frames: seq<int>) {
    exists g :: g in groups && forall f :: f in frames ==> f in g
  }

  ghost predicate InNoGroup(groups: seq<seq<int>>, frames: seq<int>) {
    forall f, g :: f in frames && g in groups ==> f !in g
  }

  lemma {:induction false} ChunkMembers(s: seq<int>, n: nat, chunk: seq<int>)
    requires n > 0 && chunk in Chunks(s, n)
    ensures forall f :: f in chunk ==> f in s
  {
    if |s| > n && chunk != s[..n] {
      assert chunk in Chunks(s[n..], n);
      ChunkMembers(s[n..], n, chunk);
    }
  }

  lemma LabelledMembers(purpose: string, s: seq<int>, n: nat, plan: Plan)
    requires n > 0 && plan in Labelled(purpose, Chunks(s, n))
    ensures forall f :: f in plan.frames ==> f in s
  {
    var i :| 0 <= i < |Chunks(s, n)| && Labelled(purpose, Chunks(s, n))[i] == plan;
    ChunkMembers(s, n, Chunks(s, n)[i]);
  }

  /** A terminal packet shows frames of a single terminal group. */
  lemma {:induction false} TerminalPlanIsFocused(groups: seq<seq<int>>, images: seq<int>, budget: nat, k: nat, plan: Plan)
    requires budget > 0 && k <= |groups| && plan in TerminalPlans(groups, images, budget, k)
    ensures InOneGroup(groups, plan.frames)
  {
    var plans := TerminalPlans(groups, images, budget, k - 1);
    if plan in plans {
      TerminalPlanIsFocused(groups, images, budget, k - 1, plan);
    } else {
      var purpose := if k == 1 then "terminal_focus" else "post_terminal_context";
      LabelledMembers(purpose, Filter(groups[k - 1], images, Frames(plans)), budget, plan);
      assert groups[k - 1] in groups;
    }
  }

  /** Every indexed terminal frame is in some terminal packet. */
  lemma {:induction false} TerminalPlansShow(groups: seq<seq<int>>, images: seq<int>, budget: nat, k: nat, j: nat, f: int)
    requires budget > 0 && j < k <= |groups| && f in groups[j] && f in images
    ensures f in Frames(TerminalPlans(groups, images, budget, k))
  {
    hide TerminalPlans, Frames, Filter;
    TerminalFramesStep(groups, images, budget, k);
    if j < k - 1 {
      TerminalPlansShow(groups, images, budget, k - 1, j, f);
    }
  }

  lemma TerminalFramesStep(groups: seq<seq<int>>, images: seq<int>, budget: nat, k: nat)
    requires budget > 0 && 0 < k <= |groups|
    ensures var earlier := Frames(TerminalPlans(groups, images, budget, k - 1));
      Frames(TerminalPlans(groups, images, budget, k)) == earlier + Filter(groups[k - 1], images, earlier)
  {
    hide Chunks, Labelled, Frames, Filter;
    var plans := TerminalPlans(groups, images, budget, k - 1);
    var purpose := if k == 1 then "terminal_focus" else "post_terminal_context";
    var added := Filter(groups[k - 1], images, Frames(plans));
    ChunksPartition(purpose, added, budget);
    FramesAppend(plans, Labelled(purpose, Chunks(added, budget)));
  }

  lemma UnplannedIsNotTerminal(e: Evidence, budget: nat, f: int)
    requires budget > 0 && f in e.images
    requires f !in Frames(TerminalPlans(TerminalGroups(e), e.images, budget, |TerminalGroups(e)|))
    ensures forall g :: g in TerminalGroups(e) ==> f !in g
  {
    var groups := TerminalGroups(e);
    forall g | g in groups ensures f !in g {
      var j :| 0 <= j < |groups| && groups[j] == g;
      if f in groups[j] {
        TerminalPlansShow(groups, e.images, budget, |groups|, j, f);
      }
    }
  }

  /** Frames with an image, out of a planned packet: all from one terminal group, or from none. */
  lemma PlanIsFocused(e: Evidence, budget: nat, plan: Plan, shown: seq<int>)
    requires budget > 0 && plan in PlannedPackets(e, budget)
    requires forall f :: f in shown ==> f in plan.frames && f in e.images
    ensures InOneGroup(TerminalGroups(e), shown) || InNoGroup(TerminalGroups(e), shown)
  {
    hide TerminalGroups, Candidates, SelectedFrames, TerminalPlans, Chunks, Labelled;
    var groups, leading := TerminalGroups(e), LeadingPlans(e, budget);
    var terminal := TerminalPlans(groups, e.images, budget, |groups|);
    if plan in terminal {
      TerminalPlanIsFocused(groups, e.images, budget, |groups|, plan);
    } else {
      if plan !in leading {
        LabelledMembers("temporal_context", Filter(Candidates(e), e.images, Frames(leading)), budget, plan);
      }
      forall f | f in shown ensures forall g :: g in groups ==> f !in g {
        assert f !in Frames(terminal);
        UnplannedIsNotTerminal(e, budget, f);
      }
    }
  }

  lemma {:induction false} PacketHasPlan(plans: seq<Plan>, images: seq<int>, readable: seq<int>, from: nat, packet: Packet)
    requires packet in Loadable(plans, images, readable, from)
    ensures exists plan :: plan in plans && packet.imageFrames == Loaded(plan.frames, images, readable)
  {
    var shown := Loaded(plans[0].frames, images, readable);
    if shown != [] && packet == Packet(from, plans[0].purpose, shown) {
      assert plans[0] in plans;
    } else {
      PacketHasPlan(plans[1..], images, readable, from + 1, packet);
      var plan :| plan in plans[1..] && packet.imageFrames == Loaded(plan.frames, images, readable);
      assert plan in plans;
    }
  }

  /** No terminal group meets all the others; for two groups: they are disjoint. */
  ghost predicate Scattered(groups: seq<seq<int>>) {
    groups != [] && forall g :: g in groups ==> MissesSome(groups, g)
  }

  ghost predicate MissesSome(groups: seq<seq<int>>, frames: seq<int>) {
    exists h :: h in groups && !Hits(h, frames)
  }

  lemma FewerMissToo(groups: seq<seq<int>>, g: seq<int>, frames: seq<int>)
    requires MissesSome(groups, g) && forall f :: f in frames ==> f in g
    ensures MissesSome(groups, frames)
  {
    var h :| h in groups && !Hits(h, g);
    assert !Hits(h, frames);
  }

  lemma OutsideMisses(groups: seq<seq<int>>, frames: seq<int>)
    requires groups != [] && InNoGroup(groups, frames)
    ensures MissesSome(groups, frames)
  {
    assert groups[0] in groups && !Hits(groups[0], frames);
  }

  lemma FocusedMissesAGroup(groups: seq<seq<int>>, frames: seq<int>)
    requires Scattered(groups) && (InOneGroup(groups, frames) || InNoGroup(groups, frames))
    ensures MissesSome(groups, frames)
  {
    hide MissesSome, InNoGroup;
    if InOneGroup(groups, frames) {
      var g :| g in groups && forall f :: f in frames ==> f in g;
      FewerMissToo(groups, g, frames);
    } else {
      OutsideMisses(groups, frames);
    }
  }

  lemma FirstPacketIsFocused(e: Evidence, budget: int, readable: seq<int>)
    requires PacketsToReview(e, budget, readable) != []
    ensures var frames := PacketsToReview(e, budget, readable)[0].imageFrames;
      InOneGroup(TerminalGroups(e), frames) || InNoGroup(TerminalGroups(e), frames)
  {
    hide TerminalGroups, PlannedPackets, Candidates, Loadable, InOneGroup, InNoGroup;
    var first := PacketsToReview(e, budget, readable)[0];
    PacketHasPlan(PlannedPackets(e, budget), e.images, readable, 0, first);
    var plan :| plan in PlannedPackets(e, budget) && first.imageFrames == Loaded(plan.frames, e.images, readable);
    PlanIsFocused(e, budget, plan, first.imageFrames);
  }

  /** With scattered terminal groups a review in packets never covers the episode end, whatever images
      load: only the first packet is judged, and it shows frames of one terminal group at most. */
  lemma ScatteredIsNeverCovered(e: Evidence, budget: int, readable: seq<int>)
    requires PacketsToReview(e, budget, readable) != [] && Scattered(TerminalGroups(e))
    ensures !ImageCoverage(e, PacketsToReview(e, budget, readable)[0].imageFrames).coversEpisodeEnd
  {
    hide TerminalGroups, PacketsToReview, ImageCoverage, Scattered, InOneGroup, InNoGroup;
    var frames := PacketsToReview(e, budget, readable)[0].imageFrames;
    FirstPacketIsFocused(e, budget, readable);
    FocusedMissesAGroup(TerminalGroups(e), frames);
    CoverageExactly(e, frames);
  }

  /** A failure verdict of the packets takes a deterministic success away exactly when the first packet
      shows a frame of every terminal group. */
  lemma PacketFailureExactly(e: Evidence, s: Settings, oracle: Oracle)
    requires PacketsToReview(e, s.maxImages, s.readable) != []
    ensures var r, base := AnnotationOf(e, s, oracle), Deterministic(e, InitialPoints(e));
      r.review.Reviewed? && base.outcome.finalSuccess && SuccessValue(r.review.reply) == Some(false) ==>
      (!r.outcome.finalSuccess <==> FirstPacketMeetsAll(e, s.maxImages, s.readable))
  {
    hide AnnotationOf, Deterministic, Revised, TerminalGroups, PacketsToReview, ImageCoverage, Hits;
    PacketReviewCoverage(e, s, oracle);
    CoverageExactly(e, PacketsToReview(e, s.maxImages, s.readable)[0].imageFrames);
    FinalSuccessExactly(e, s, oracle);
  }

  ghost predicate FirstPacketMeetsAll(e: Evidence, budget: int, readable: seq<int>)
    requires PacketsToReview(e, budget, readable) != []
  {
    forall g :: g in TerminalGroups(e) ==> Hits(g, PacketsToReview(e, budget, readable)[0].imageFrames)
  }

  /** Group `k` is the first terminal group with an indexed frame. */
  ghost predicate FirstIndexed(groups: seq<seq<int>>, images: seq<int>, k: nat) {
    k < |groups| && Filter(groups[k], images, []) != [] && forall j :: 0 <= j < k ==> Filter(groups[j], images, []) == []
  }

  lemma {:induction false} NoTerminalPlansYet(groups: seq<seq<int>>, images: seq<int>, budget: nat, k: nat)
    requires budget > 0 && k <= |groups| && forall j :: 0 <= j < k ==> Filter(groups[j], images, []) == []
    ensures TerminalPlans(groups, images, budget, k) == []
  {
    if k > 0 {
      NoTerminalPlansYet(groups, images, budget, k - 1);
    }
  }

  lemma {:induction false} TerminalPlansGrow(groups: seq<seq<int>>, images: seq<int>, budget: nat, k: nat, n: nat)
    requires budget > 0 && k <= n <= |groups|
    ensures TerminalPlans(groups, images, budget, k) <= TerminalPlans(groups, images, budget, n)
  {
    hide Chunks, Labelled, Filter, Frames;
    if k < n {
      TerminalPlansGrow(groups, images, budget, k, n - 1);
    }
  }

  /** The first plan is the first chunk of the first terminal group with an indexed frame. */
  lemma FirstPlanExactly(e: Evidence, budget: nat, k: nat)
    requires budget > 0 && FirstIndexed(TerminalGroups(e), e.images, k)
    ensures PlannedPackets(e, budget) != []
    ensures PlannedPackets(e, budget)[0].frames == Take(Filter(TerminalGroups(e)[k], e.images, []), budget)
  {
    hide TerminalGroups, Candidates, SelectedFrames, Filter;
    var groups := TerminalGroups(e);
    NoTerminalPlansYet(groups, e.images, budget, k);
    TerminalPlansGrow(groups, e.images, budget, k + 1, |groups|);
    assert Frames([]) == [];
    var first := TerminalPlans(groups, e.images, budget, k + 1);
    FirstChunk(Filter(groups[k], e.images, []), budget, if k == 0 then "terminal_focus" else "post_terminal_context");
    assert first[0] == TerminalPlans(groups, e.images, budget, |groups|)[0];
  }

  lemma FirstChunk(s: seq<int>, n: nat, purpose: string)
    requires n > 0 && s != []
    ensures Labelled(purpose, Chunks(s, n)) != [] && Labelled(purpose, Chunks(s, n))[0].frames == Take(s, n)
  {
  }

  /** If every image loads, the first packet shows the first chunk of the first terminal group that has an
      indexed frame. */
  lemma FirstPacketExactly(e: Evidence, budget: int, readable: seq<int>, k: nat)
    requires PacketsToReview(e, budget, readable) != [] && FirstIndexed(TerminalGroups(e), e.images, k)
    requires forall f :: f in e.images ==> f in readable
    ensures PacketsToReview(e, budget, readable)[0].imageFrames == Take(Filter(TerminalGroups(e)[k], e.images, []), budget)
  {
    hide TerminalGroups, Candidates, PlannedPackets, Filter, Loaded;
    FirstPlanExactly(e, budget, k);
    var plans := PlannedPackets(e, budget);
    LoadedWhenReadable(plans[0].frames, e.images, readable);
  }

  lemma {:induction false} SomeFirstIndexed(groups: seq<seq<int>>, images: seq<int>, n: nat)
    requires n <= |groups|
    ensures (exists k: nat :: k < n && FirstIndexed(groups, images, k)) <==>
      exists j :: 0 <= j < n && Filter(groups[j], images, []) != []
  {
    hide Filter;
    if n > 0 {
      SomeFirstIndexed(groups, images, n - 1);
      if Filter(groups[n - 1], images, []) != [] && forall j :: 0 <= j < n - 1 ==> Filter(groups[j], images, []) == [] {
        assert FirstIndexed(groups, images, n - 1);
      }
    }
  }

  /** The condition on the evidence alone, when every image loads. */
  ghost predicate OneChunkMeetsAll(e: Evidence, budget: int) {
    exists k: nat :: FirstIndexed(TerminalGroups(e), e.images, k) &&
      forall g :: g in TerminalGroups(e) ==> Hits(g, Take(Filter(TerminalGroups(e)[k], e.images, []), budget))
  }

  lemma FirstPacketMeetsAllExactly(e: Evidence, budget: int, readable: seq<int>)
    requires PacketsToReview(e, budget, readable) != [] && TerminalGroups(e) != []
    requires forall f :: f in e.images ==> f in readable
    ensures FirstPacketMeetsAll(e, budget, readable) <==> OneChunkMeetsAll(e, budget)
  {
    hide TerminalGroups, PacketsToReview, Filter, Hits, Take;
    var groups, frames := TerminalGroups(e), PacketsToReview(e, budget, readable)[0].imageFrames;
    forall k: nat | FirstIndexed(groups, e.images, k) ensures frames == Take(Filter(groups[k], e.images, []), budget) {
      FirstPacketExactly(e, budget, readable, k);
    }
    if FirstPacketMeetsAll(e, budget, readable) {
      FirstPacketIsIndexed(e, budget, readable);
      assert groups[0] in groups;
      HitIsIndexed(groups[0], frames, e.images);
      SomeFirstIndexed(groups, e.images, |groups|);
    }
  }

  lemma FirstPacketIsIndexed(e: Evidence, budget: int, readable: seq<int>)
    requires PacketsToReview(e, budget, readable) != []
    ensures forall f :: f in PacketsToReview(e, budget, readable)[0].imageFrames ==> f in e.images
  {
    hide PlannedPackets, Candidates, Loadable;
    var first := PacketsToReview(e, budget, readable)[0];
    PacketHasPlan(PlannedPackets(e, budget), e.images, readable, 0, first);
  }

  lemma HitIsIndexed(g: seq<int>, frames: seq<int>, images: seq<int>)
    requires Hits(g, frames) && forall f :: f in frames ==> f in images
    ensures Filter(g, images, []) != []
  {
    var f :| f in g && f in frames;
    assert f in Filter(g, images, []);
  }

  /** A VLM that reports a break in every packet. */
  function AlwaysBroken(): Oracle {
    var reply := Reply(
      Absent, Absent, Absent, None, None, None, None, None, None, None, None, NoLabel, None,
      StateOther, None, PostTerminal.Broken);
    Oracle(_ => Answered(reply), Answered(reply))
  }

  lemma {:induction false} BrokenReviews(packets: seq<Packet>)
    ensures var reviews := CompletedReviews(packets, AlwaysBroken());
      |reviews| == |packets| && forall r :: r in reviews ==> ShowsBreak(r) && !ShowsSuccess(r) && IndexOf(r) >= 0
  {
    if packets != [] {
      BrokenReviews(packets[..|packets| - 1]);
    }
  }

  lemma AllBreak(e: Evidence, s: Settings)
    requires s.useVlm && e.records != [] && PacketsToReview(e, s.maxImages, s.readable) != []
    ensures var r := AnnotationOf(e, s, AlwaysBroken());
      r.review.Reviewed? && SuccessValue(r.review.reply) == Some(false)
  {
    hide Deterministic, ImageCoverage, Applied, CompletedReviews, PacketsToReview, Loaded, SelectedFrames,
      InitialPoints, AlwaysBroken, Verdict, ShowsBreak, ShowsSuccess;
    var base := Deterministic(e, InitialPoints(e));
    var packets := PacketsToReview(e, s.maxImages, s.readable);
    var reviews := CompletedReviews(packets, AlwaysBroken());
    BrokenReviews(packets);
    VerdictOfNumberedPackets(reviews);
    assert reviews[0] in reviews;
    AppliedStoresReview(e, base, Aggregate(reviews, e.Terminal(), base.outcome.finalPhase),
      Covers(e, packets[0].imageFrames));
  }

  /** Some behaviour of the VLM can take a deterministic success away in packet mode exactly when the first
      packet shows a frame of every terminal group. */
  lemma PacketsCanOverruleExactly(e: Evidence, s: Settings)
    requires s.useVlm && PacketsToReview(e, s.maxImages, s.readable) != []
    requires Deterministic(e, InitialPoints(e)).outcome.finalSuccess
    ensures (exists oracle :: Overruled(e, s, oracle)) <==> FirstPacketMeetsAll(e, s.maxImages, s.readable)
  {
    hide AnnotationOf, Deterministic, PacketsToReview, FirstPacketMeetsAll, AlwaysBroken;
    assert e.records != [] by { SuccessHasRecords(e); }
    forall oracle | Overruled(e, s, oracle) ensures FirstPacketMeetsAll(e, s.maxImages, s.readable) {
      PacketFailureExactly(e, s, oracle);
    }
    AllBreak(e, s);
    PacketFailureExactly(e, s, AlwaysBroken());
    assert FirstPacketMeetsAll(e, s.maxImages, s.readable) ==> Overruled(e, s, AlwaysBroken());
  }

  lemma SuccessHasRecords(e: Evidence)
    requires Deterministic(e, InitialPoints(e)).outcome.finalSuccess
    ensures e.records != []
  {
    hide Deterministic;
    DeterministicConsistent(e, InitialPoints(e));
  }

  /** The review's failure verdict took the success away. */
  ghost predicate Overruled(e: Evidence, s: Settings, oracle: Oracle) {
    var r := AnnotationOf(e, s, oracle);
    r.review.Reviewed? && SuccessValue(r.review.reply) == Some(false) && !r.outcome.finalSuccess
  }

  /** A rollout long enough for packets whose terminal groups are scattered: no failure verdict of the
      packets, however many agree on it, can take away a deterministic success. */
  lemma PacketsCannotOverrule(e: Evidence, s: Settings, oracle: Oracle)
    requires PacketsToReview(e, s.maxImages, s.readable) != [] && Scattered(TerminalGroups(e))
    ensures var r, base := AnnotationOf(e, s, oracle), Deterministic(e, InitialPoints(e));
      r.review.Reviewed? && base.outcome.finalSuccess && SuccessValue(r.review.reply) == Some(false) ==>
      r.outcome.finalSuccess && r.timeline == base.timeline
  {
    hide AnnotationOf, Deterministic, TerminalGroups, PacketsToReview, ImageCoverage;
    PacketReviewCoverage(e, s, oracle);
    ScatteredIsNeverCovered(e, s.maxImages, s.readable);
    UncoveredFailureCannotOverrule(e, s, oracle);
  }

  /** A finished review in packets is judged by the coverage of the first packet. */
  lemma PacketReviewCoverage(e: Evidence, s: Settings, oracle: Oracle)
    ensures var r, packets := AnnotationOf(e, s, oracle), PacketsToReview(e, s.maxImages, s.readable);
      r.review.Reviewed? && packets != [] ==>
        r.review.covers == ImageCoverage(e, packets[0].imageFrames).coversEpisodeEnd
  {
    hide Deterministic, Aggregate, ImageCoverage, Applied, CompletedReviews, PacketsToReview, Loaded, SelectedFrames,
      InitialPoints;
    var base := Deterministic(e, InitialPoints(e));
    DeterministicUnreviewed(e, InitialPoints(e));
    var packets := PacketsToReview(e, s.maxImages, s.readable);
    var reviews := CompletedReviews(packets, oracle);
    if s.useVlm && e.records != [] && packets != [] && reviews != [] {
      AppliedStoresReview(e, base, Aggregate(reviews, e.Terminal(), base.outcome.finalPhase),
        Covers(e, packets[0].imageFrames));
    }
  }
}
