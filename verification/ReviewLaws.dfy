/** Packets, packet replies and the stored review, said in the fields of frames and replies. */
module ReviewLaws {
  import opened Common
  import opened ReviewData
  import opened Segments
  import opened PacketVerdict
  import opened Annotation
  import opened AnnotationLaws
  import Images = ReviewImages
  import Packets = ReviewPackets
  import PC = PacketCoverage

  // ----------------------------------------------------------------- packet plans

  /** The frames considered are those with an image, in increasing order and each once. */
  lemma CandidatesExactly(e: Evidence)
    ensures StrictlySorted(Packets.Candidates(e), IntLe)
    ensures forall f :: f in Packets.Candidates(e) <==> f in e.images
  {
    hide Images.Filter;
    Images.IntLeOrder();
    SortIsStrict(Dedupe(Images.Filter(Images.RowFrames(e.keyFrames), e.images, []) + e.images), IntLe);
  }

  /** A chunk is full unless it is the last one. */
  lemma {:induction false} ChunksAreFull(s: seq<int>, n: nat, k: nat)
    requires n > 0 && k < |Packets.Chunks(s, n)|
    ensures 0 < |Packets.Chunks(s, n)[k]| <= n
    ensures k < |Packets.Chunks(s, n)| - 1 ==> |Packets.Chunks(s, n)[k]| == n
  {
    if |s| > n && k > 0 {
      ChunksAreFull(s[n..], n, k - 1);
    } else if |s| > n {
      assert Packets.Chunks(s[n..], n) != [];
    }
  }

  /** Each packet is one plan's loadable frames under the plan's number and purpose, and each plan with a
      loadable frame has its packet. */
  lemma {:induction false} LoadableExactly(
    plans: seq<Packets.Plan>, images: seq<int>, readable: seq<int>, from: nat, p: Packets.Packet)
    ensures p in Packets.Loadable(plans, images, readable, from) <==>
      exists k: nat :: k < |plans| && IsPacketOf(plans[k], images, readable, from + k, p)
  {
    hide Images.Loaded;
    if plans != [] {
      LoadableExactly(plans[1..], images, readable, from + 1, p);
      if k: nat :| k < |plans| && IsPacketOf(plans[k], images, readable, from + k, p) {
        if k > 0 {
          assert IsPacketOf(plans[1..][k - 1], images, readable, from + 1 + (k - 1), p);
        }
      }
      if k: nat :| k < |plans[1..]| && IsPacketOf(plans[1..][k], images, readable, from + 1 + k, p) {
        assert IsPacketOf(plans[k + 1], images, readable, from + (k + 1), p);
      }
      if p == Packets.Packet(from, plans[0].purpose, Images.Loaded(plans[0].frames, images, readable)) {
        assert p.imageFrames != [] ==> IsPacketOf(plans[0], images, readable, from + 0, p);
      }
    }
  }

  ghost predicate IsPacketOf(
    plan: Packets.Plan, images: seq<int>, readable: seq<int>, number: nat, p: Packets.Packet)
  {
    && p.index == number && p.purpose == plan.purpose
    && p.imageFrames == Images.Loaded(plan.frames, images, readable) && p.imageFrames != []
  }

  /** A review goes over packets exactly when the budget is positive, more frames than that have images,
      and more than one packet has an image that loads. */
  lemma PacketModeExactly(e: Evidence, budget: int, readable: seq<int>)
    ensures Packets.PacketsToReview(e, budget, readable) != [] <==>
      && 0 < budget < |Packets.Candidates(e)|
      && |Packets.Loadable(Packets.PlannedPackets(e, budget), e.images, readable, 0)| > 1
    ensures Packets.PacketsToReview(e, budget, readable) != [] ==>
      Packets.PacketsToReview(e, budget, readable)
        == Packets.Loadable(Packets.PlannedPackets(e, budget), e.images, readable, 0)
  {
  }

  /** The purpose of a planned packet tells where its frames come from: the first terminal group, or the
      selection when no terminal frame has an image; a later terminal group; or none of them. */
  ghost predicate PurposeFits(groups: seq<seq<int>>, images: seq<int>, plan: Packets.Plan) {
    if plan.purpose == "terminal_focus" then FromGroup(groups, 0, plan.frames) || PC.InNoGroup(groups, images)
    else if plan.purpose == "post_terminal_context" then exists k: nat :: k > 0 && FromGroup(groups, k, plan.frames)
    else plan.purpose == "temporal_context" && PC.InNoGroup(groups, plan.frames)
  }

  ghost predicate FromGroup(groups: seq<seq<int>>, k: nat, frames: seq<int>) {
    k < |groups| && forall f :: f in frames ==> f in groups[k]
  }

  lemma LabelledPurpose(purpose: string, chunks: seq<seq<int>>, plan: Packets.Plan)
    requires plan in Packets.Labelled(purpose, chunks)
    ensures plan.purpose == purpose
  {
  }

  lemma {:induction false} TerminalPurposes(
    groups: seq<seq<int>>, images: seq<int>, budget: nat, k: nat, plan: Packets.Plan)
    requires budget > 0 && k <= |groups| && plan in Packets.TerminalPlans(groups, images, budget, k)
    ensures PurposeFits(groups, images, plan)
  {
    hide Packets.Labelled, Packets.Chunks, Images.Filter;
    var plans := Packets.TerminalPlans(groups, images, budget, k - 1);
    if plan in plans {
      TerminalPurposes(groups, images, budget, k - 1, plan);
    } else {
      var purpose := if k == 1 then "terminal_focus" else "post_terminal_context";
      var frames := Images.Filter(groups[k - 1], images, Packets.Frames(plans));
      PC.LabelledMembers(purpose, frames, budget, plan);
      LabelledPurpose(purpose, Packets.Chunks(frames, budget), plan);
      assert FromGroup(groups, k - 1, plan.frames);
    }
  }

  lemma PurposesExactly(e: Evidence, budget: nat, plan: Packets.Plan)
    requires budget > 0 && plan in Packets.PlannedPackets(e, budget)
    ensures PurposeFits(Images.TerminalGroups(e), e.images, plan)
  {
    hide Images.TerminalGroups, Packets.Candidates, Images.SelectedFrames, Packets.TerminalPlans, Packets.Chunks,
      Packets.Labelled, Images.Filter;
    var groups, leading := Images.TerminalGroups(e), Packets.LeadingPlans(e, budget);
    var terminal := Packets.TerminalPlans(groups, e.images, budget, |groups|);
    if plan in terminal {
      TerminalPurposes(groups, e.images, budget, |groups|, plan);
    } else if plan in leading {
      forall f | f in e.images ensures forall g :: g in groups ==> f !in g {
        PC.UnplannedIsNotTerminal(e, budget, f);
      }
    } else {
      var rest := Images.Filter(Packets.Candidates(e), e.images, Packets.Frames(leading));
      PC.LabelledMembers("temporal_context", rest, budget, plan);
      LabelledPurpose("temporal_context", Packets.Chunks(rest, budget), plan);
      forall f | f in plan.frames ensures forall g :: g in groups ==> f !in g {
        PC.UnplannedIsNotTerminal(e, budget, f);
      }
    }
  }

  // --------------------------------------------------------------- packet verdicts

  ghost predicate SeesSuccess(r: Reply) {
    r.terminalState == StateSuccess || r.terminalIntact == Some(true) || r.postTerminal == Intact
  }

  /** A failed terminal state counts only in a terminal packet, or one whose purpose is not told. */
  ghost predicate SeesBreak(r: Reply) {
    || r.terminalIntact == Some(false)
    || r.postTerminal == PostTerminal.Broken
    || (r.terminalState == StateFailure
        && (r.purpose == Absent || r.purpose == Null || r.purpose == Given("") || r.purpose == Given("terminal_focus")))
  }

  ghost function Number(r: Reply): int {
    match r.packetIndex
    case Given(n) => n
    case _ => 0
  }

  lemma ShowsExactly(r: Reply)
    ensures ShowsSuccess(r) <==> SeesSuccess(r)
    ensures ShowsBreak(r) <==> SeesBreak(r)
    ensures IndexOf(r) == Number(r)
  {
  }

  /** With non-negative numbers: the latest observation decides, and a break wins a tie. */
  lemma NumberedVerdictExactly(reviews: seq<Reply>)
    requires forall r :: r in reviews ==> Number(r) >= 0
    ensures Verdict(reviews) == Some(true) <==>
      exists r :: r in reviews && SeesSuccess(r) && forall b :: b in reviews && SeesBreak(b) ==> Number(b) < Number(r)
    ensures Verdict(reviews) == Some(false) <==>
      exists b :: b in reviews && SeesBreak(b) && forall r :: r in reviews && SeesSuccess(r) ==> Number(r) <= Number(b)
  {
    hide Verdict, ShowsSuccess, ShowsBreak, SeesSuccess, SeesBreak, IndexOf, Number;
    forall r ensures ShowsSuccess(r) <==> SeesSuccess(r) {
      ShowsExactly(r);
    }
    forall r ensures ShowsBreak(r) <==> SeesBreak(r) {
      ShowsExactly(r);
    }
    forall r ensures IndexOf(r) == Number(r) {
      ShowsExactly(r);
    }
    VerdictOfNumberedPackets(reviews);
  }

  /** Review `k` is the first break of the greatest number. */
  ghost predicate DecidingBreak(reviews: seq<Reply>, k: int) {
    && 0 <= k < |reviews| && SeesBreak(reviews[k])
    && (forall j :: 0 <= j < |reviews| && SeesBreak(reviews[j]) ==> Number(reviews[j]) <= Number(reviews[k]))
    && (forall j :: 0 <= j < k && SeesBreak(reviews[j]) ==> Number(reviews[j]) < Number(reviews[k]))
  }

  lemma {:induction false} LatestBreakExactly(reviews: seq<Reply>)
    ensures var latest := Latest(Select(reviews, ShowsBreak));
      && (latest.None? <==> forall r :: r in reviews ==> !SeesBreak(r))
      && (latest.Some? ==> exists k :: DecidingBreak(reviews, k) && latest.value == reviews[k])
  {
    hide ShowsBreak, SeesBreak, IndexOf, Number;
    if reviews != [] {
      var n := |reviews| - 1;
      var init, x := reviews[..n], reviews[n];
      LatestBreakExactly(init);
      ShowsExactly(x);
      assert reviews == init + [x];
      var kept := Select(init, ShowsBreak);
      if ShowsBreak(x) {
        LatestReplyAppend(kept, x);
      } else {
        assert kept + [] == kept;
      }
      var before := Latest(kept);
      if before.Some? {
        var k :| DecidingBreak(init, k) && before.value == init[k];
        ShowsExactly(init[k]);
        DecidingExtends(init, x, k);
        assert reviews[k] == init[k];
      } else if ShowsBreak(x) {
        DecidingBegins(init, x);
      }
    }
  }

  lemma LatestReplyAppend(reviews: seq<Reply>, x: Reply)
    ensures Latest(reviews + [x]) ==
      if reviews == [] || IndexOf(Latest(reviews).value) < IndexOf(x) then Some(x) else Latest(reviews)
  {
    hide IndexOf;
    assert (reviews + [x])[..|reviews|] == reviews;
  }

  lemma DecidingExtends(reviews: seq<Reply>, x: Reply, k: int)
    requires DecidingBreak(reviews, k)
    ensures if SeesBreak(x) && Number(reviews[k]) < Number(x) then DecidingBreak(reviews + [x], |reviews|)
      else DecidingBreak(reviews + [x], k)
  {
    hide SeesBreak, Number;
  }

  lemma DecidingBegins(reviews: seq<Reply>, x: Reply)
    requires forall r :: r in reviews ==> !SeesBreak(r)
    ensures SeesBreak(x) ==> DecidingBreak(reviews + [x], |reviews|)
  {
    hide SeesBreak, Number;
    assert forall j :: 0 <= j < |reviews| ==> (reviews + [x])[j] in reviews;
  }

  /** The failure list is made review by review and entry by entry: it collects, in order, the structured
      entries of every list. */
  lemma {:induction false} FailureListAdds(a: seq<Reply>, b: seq<Reply>)
    ensures FailureList(a + b) == FailureList(a) + FailureList(b)
    ensures |a| == 1 ==>
      FailureList(a) == if a[0].retryOrFailure.Some? then Structured(a[0].retryOrFailure.value) else []
  {
    if |a| == 1 {
      assert a[..0] == [];
    }
    if b == [] {
      assert a + b == a;
    } else {
      FailureListAdds(a, b[..|b| - 1]);
      assert (a + b)[..|a + b| - 1] == a + b[..|b| - 1];
    }
  }

  lemma {:induction false} StructuredAdds(a: seq<RawEvent>, b: seq<RawEvent>)
    ensures Structured(a + b) == Structured(a) + Structured(b)
    ensures |a| == 1 ==> Structured(a) == if a[0].Event? then a else []
  {
    if |a| == 1 {
      assert a[..0] == [];
    }
    if b == [] {
      assert a + b == a;
    } else {
      StructuredAdds(a, b[..|b| - 1]);
      assert (a + b)[..|a + b| - 1] == a + b[..|b| - 1];
    }
  }

  ghost predicate NamesPhase(broken: Reply, fallback: Phase, out: Reply) {
    out.finalPhase == Some(if broken.finalPhase.Some? then broken.finalPhase.value else fallback)
  }

  ghost predicate IsBestConfidence(reviews: seq<Reply>, best: real) {
    && (exists r :: r in reviews && r.confidence == Some(best))
    && (forall r :: r in reviews && r.confidence.Some? ==> r.confidence.value <= best)
  }

  /** The reply that stands for all packets: phase, confidence, quality and usability follow the verdict,
      the best confidence told and the failures collected; it corrects nothing itself. */
  lemma AggregateExactly(reviews: seq<Reply>, terminal: Option<Phase>, fallback: Phase)
    ensures var out, verdict := Aggregate(reviews, terminal, fallback), Verdict(reviews);
      && out.status == Given("packet_aggregated") && out.finalSuccess == verdict
      && out.success == None && out.corrections == None
      && out.retryOrFailure == Some(FailureList(reviews)) && out.failureEvents == None && out.failureModes == None
      && out.labelQuality == (if verdict == Some(true) && FailureList(reviews) == [] then Clean else Uncertain)
      && out.trainingUsability == Some(verdict != Some(false))
      && (verdict == Some(true) && terminal.Some? ==> out.finalPhase == terminal)
      && ((verdict == Some(true) && terminal == None) || verdict == None ==> out.finalPhase == Some(fallback))
      && (verdict == Some(false) ==> exists k :: DecidingBreak(reviews, k) && NamesPhase(reviews[k], fallback, out))
      && ((forall r :: r in reviews ==> r.confidence.None?) ==> out.confidence == Some(Round3(0.65)))
      && (forall best :: IsBestConfidence(reviews, best) ==>
            out.confidence == Some(Round3(if best < 0.0 then 0.0 else if best > 1.0 then 1.0 else best)))
  {
    hide FailureList, Round3, ShowsBreak, ShowsSuccess, DecidingBreak, Select;
    LatestBreakExactly(reviews);
    if best :| IsBestConfidence(reviews, best) {
      assert BestConfidence(reviews) == Some(best);
    }
  }

  // ------------------------------------------------------------- collected replies

  /** A reply keeps what it says and takes number, purpose and status from its packet only where it is silent. */
  lemma CompletedExactly(reply: Reply, packet: Packets.Packet)
    ensures var r := Completed(reply, packet);
      && r == reply.(status := r.status, packetIndex := r.packetIndex, purpose := r.purpose)
      && r.status == (if reply.status == Absent then Given("reviewed") else reply.status)
      && r.packetIndex == (if reply.packetIndex == Absent then Given(packet.index) else reply.packetIndex)
      && r.purpose == (if reply.purpose == Absent then Given(packet.purpose) else reply.purpose)
  {
  }

  ghost function Collected(packet: Packets.Packet, call: VlmCall): seq<Reply> {
    match call
    case CallFailed(_) => []
    case Answered(reply) =>
      if Completed(reply, packet).status == Given("failed") then [] else [Completed(reply, packet)]
  }

  /** The replies are collected packet by packet: an answer completed, unless it says it failed, and
      nothing for a failed call. */
  lemma {:induction false} CollectedAdds(a: seq<Packets.Packet>, b: seq<Packets.Packet>, oracle: Oracle)
    ensures CompletedReviews(a + b, oracle) == CompletedReviews(a, oracle) + CompletedReviews(b, oracle)
    ensures |a| == 1 ==> CompletedReviews(a, oracle) == Collected(a[0], oracle.packet(a[0].index))
  {
    hide Completed;
    if |a| == 1 {
      assert a[..0] == [];
    }
    if b == [] {
      assert a + b == a;
    } else {
      CollectedAdds(a, b[..|b| - 1], oracle);
      assert (a + b)[..|a + b| - 1] == a + b[..|b| - 1];
    }
  }

  /** Which review is stored: none without the VLM or without snapshots; the aggregate of the packet replies
      in packet mode, judged by the first packet, or a skip if no reply is left; otherwise the one reply,
      judged by the frames shown, a skip if none loads, and nothing if the call failed. */
  lemma StoredReviewExactly(e: Evidence, s: Settings, oracle: Oracle)
    ensures var r, base := AnnotationOf(e, s, oracle), Deterministic(e, InitialPoints(e));
      var packets := Packets.PacketsToReview(e, s.maxImages, s.readable);
      var reviews := CompletedReviews(packets, oracle);
      var shown := Images.Loaded(Images.SelectedFrames(e, s.maxImages), e.images, s.readable);
      if !s.useVlm || e.records == [] then r.review == NoReview && !r.vlmFailed
      else if packets != [] then
        if reviews == [] then r.review == Skipped("all_packet_reviews_failed") && r.vlmFailed
        else r.review == Reviewed(Aggregate(reviews, e.Terminal(), base.outcome.finalPhase),
                                  Images.ImageCoverage(e, packets[0].imageFrames).coversEpisodeEnd) && !r.vlmFailed
      else if shown == [] then r.review == Skipped("insufficient_visual_evidence") && !r.vlmFailed
      else match oracle.single
        case CallFailed(_) => r.review == NoReview && r.vlmFailed
        case Answered(reply) =>
          r.review == Reviewed(reply, Images.ImageCoverage(e, shown).coversEpisodeEnd) && !r.vlmFailed
  {
    hide PhaseTimeline, Retries, DetermineOutcome, Aggregate, Images.ImageCoverage, CompletedReviews,
      Packets.PacketsToReview, Images.Loaded, Images.SelectedFrames, InitialPoints, WithFinalPhase, PhaseCorrected,
      OutcomeWithVlm;
  }
}
