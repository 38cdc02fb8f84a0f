/** Offline VLM replies, and how the replies to several packets become one verdict. */
module PacketVerdict {
  import opened Common
  import opened ReviewData

  /** A JSON field that may be missing, null or set. */
  datatype Field<+T> = Absent | Null | Given(value: T)

  datatype TerminalState = StateSuccess | StateFailure | StateOther

  datatype PostTerminal = Intact | Broken | PostOther

  datatype LabelQuality = Clean | NeedsCorrection | Uncertain | NoLabel

  /** One entry of a VLM failure list: a bare failure mode or a structured event. */
  datatype RawEvent =
    | Mode(name: string)
    | Event(failureType: string, phase: Phase, start: Option<int>, end: Option<int>, recovered: Option<bool>)

  datatype Correction = Correction(phase: Option<Phase>, start: Option<int>, end: Option<int>, reason: string)

  /** Any reply the VLM may give, after parsing; every field may be missing. */
  datatype Reply = Reply(
    status: Field<string>,
    packetIndex: Field<int>,
    purpose: Field<string>,
    finalSuccess: Option<bool>,
    success: Option<bool>,
    finalPhase: Option<Phase>,
    confidence: Option<real>,
    corrections: Option<seq<Correction>>,
    retryOrFailure: Option<seq<RawEvent>>,
    failureEvents: Option<seq<RawEvent>>,
    failureModes: Option<seq<RawEvent>>,
    labelQuality: LabelQuality,
    trainingUsability: Option<bool>,
    terminalState: TerminalState,
    terminalIntact: Option<bool>,
    postTerminal: PostTerminal)

  // ----------------------------------------------------------------- reviews

  predicate ShowsSuccess(r: Reply) {
    r.terminalState == StateSuccess || r.terminalIntact == Some(true) || r.postTerminal == Intact
  }

  /** A null or missing purpose counts as terminal focus. */
  predicate TerminalPurpose(r: Reply) {
    !r.purpose.Given? || r.purpose.value == "" || r.purpose.value == "terminal_focus"
  }

  predicate ShowsBreak(r: Reply) {
    || (r.terminalState == StateFailure && TerminalPurpose(r))
    || r.terminalIntact == Some(false)
    || r.postTerminal == Broken
  }

  function IndexOf(r: Reply): int {
    if r.packetIndex.Given? then r.packetIndex.value else 0
  }

  function Select(reviews: seq<Reply>, p: Reply -> bool): (r: seq<Reply>)
    ensures forall x :: x in r <==> x in reviews && p(x)
  {
    if reviews == [] then []
    else
      assert reviews == reviews[..|reviews| - 1] + [reviews[|reviews| - 1]];
      Select(reviews[..|reviews| - 1], p)
      + if p(reviews[|reviews| - 1]) then [reviews[|reviews| - 1]] else []
  }

  /** The first review among those with the greatest packet index. */
  function Latest(reviews: seq<Reply>): (r: Option<Reply>)
    ensures r.None? <==> reviews == []
    ensures r.Some? ==> r.value in reviews && forall x :: x in reviews ==> IndexOf(x) <= IndexOf(r.value)
  {
    if reviews == [] then None
    else
      assert reviews == reviews[..|reviews| - 1] + [reviews[|reviews| - 1]];
      var best, last := Latest(reviews[..|reviews| - 1]), reviews[|reviews| - 1];
      if best.None? || IndexOf(best.value) < IndexOf(last) then Some(last) else best
  }

  function LatestIndex(r: Option<Reply>): int {
    if r.Some? then IndexOf(r.value) else -1
  }

  /** False, true or no verdict at all. */
  function Verdict(reviews: seq<Reply>): Option<bool> {
    var success, broken := Latest(Select(reviews, ShowsSuccess)), Latest(Select(reviews, ShowsBreak));
    if broken.Some? && LatestIndex(broken) >= LatestIndex(success) then Some(false)
    else if success.Some? then Some(true)
    else None
  }

  function VerdictPhase(reviews: seq<Reply>, terminal: Option<Phase>, fallback: Phase): Phase {
    match Verdict(reviews)
    case Some(false) =>
      var broken := Latest(Select(reviews, ShowsBreak));
      if broken.Some? && broken.value.finalPhase.Some? then broken.value.finalPhase.value else fallback
    case Some(true) => if terminal.Some? then terminal.value else fallback
    case None => fallback
  }

  function Structured(events: seq<RawEvent>): seq<RawEvent> {
    if events == [] then []
    else
      Structured(events[..|events| - 1])
      + if events[|events| - 1].Event? then [events[|events| - 1]] else []
  }

  function FailureList(reviews: seq<Reply>): seq<RawEvent> {
    if reviews == [] then []
    else
      var r := reviews[|reviews| - 1];
      FailureList(reviews[..|reviews| - 1]) + if r.retryOrFailure.Some? then Structured(r.retryOrFailure.value) else []
  }

  function BestConfidence(reviews: seq<Reply>): (c: Option<real>)
    ensures c.None? <==> forall x :: x in reviews ==> x.confidence.None?
    ensures c.Some? ==> (exists x :: x in reviews && x.confidence == c)
    ensures c.Some? ==> forall x :: x in reviews && x.confidence.Some? ==> x.confidence.value <= c.value
  {
    if reviews == [] then None
    else
      assert reviews == reviews[..|reviews| - 1] + [reviews[|reviews| - 1]];
      var best, r := BestConfidence(reviews[..|reviews| - 1]), reviews[|reviews| - 1];
      if best.None? then r.confidence
      else if r.confidence.Some? && best.value < r.confidence.value then r.confidence
      else best
  }

  function Clamp(x: real, lo: real, hi: real): real { MinReal(hi, MaxReal(lo, x)) }

  function Aggregate(reviews: seq<Reply>, terminal: Option<Phase>, fallback: Phase): Reply {
    var verdict, failures, best := Verdict(reviews), FailureList(reviews), BestConfidence(reviews);
    Reply(
      Given("packet_aggregated"), Absent, Absent,
      verdict, None,
      Some(VerdictPhase(reviews, terminal, fallback)),
      Some(Round3(Clamp(if best.Some? then best.value else 0.65, 0.0, 1.0))),
      None, Some(failures), None, None,
      if verdict == Some(true) && failures == [] then Clean else Uncertain,
      Some(verdict != Some(false)),
      StateOther, None, PostOther)
  }

  method AggregatePacketReviews(reviews: seq<Reply>, terminal: Option<Phase>, fallback: Phase) returns (out: Reply)
    ensures out == Aggregate(reviews, terminal, fallback)
  {
    hide ShowsSuccess, ShowsBreak, Structured, Round3, Clamp;
    var successes: seq<Reply>, breaks: seq<Reply>, failures := [], [], [];
    for i := 0 to |reviews|
      invariant successes == Select(reviews[..i], ShowsSuccess)
      invariant breaks == Select(reviews[..i], ShowsBreak)
      invariant failures == FailureList(reviews[..i])
    {
      var review := reviews[i];
      assert reviews[..i + 1][..i] == reviews[..i];
      if ShowsSuccess(review) {
        successes := successes + [review];
      }
      if ShowsBreak(review) {
        breaks := breaks + [review];
      }
      if review.retryOrFailure.Some? {
        failures := failures + Structured(review.retryOrFailure.value);
      }
    }
    assert reviews[..|reviews|] == reviews;
    var success, broken := Latest(successes), Latest(breaks);
    var verdict: Option<bool>, phase;
    if broken.Some? && LatestIndex(broken) >= LatestIndex(success) {
      verdict := Some(false);
      phase := if broken.value.finalPhase.Some? then broken.value.finalPhase.value else fallback;
    } else if success.Some? {
      verdict := Some(true);
      phase := if terminal.Some? then terminal.value else fallback;
    } else {
      verdict, phase := None, fallback;
    }
    var best := BestConfidence(reviews);
    out := Reply(
      Given("packet_aggregated"), Absent, Absent, verdict, None, Some(phase),
      Some(Round3(Clamp(if best.Some? then best.value else 0.65, 0.0, 1.0))),
      None, Some(failures), None, None,
      if verdict == Some(true) && failures == [] then Clean else Uncertain,
      Some(verdict != Some(false)),
      StateOther, None, PostOther);
  }

  // ------------------------------------------------------------ what it means

  /** Some break is at least as late as every success. */
  ghost predicate BrokenLast(reviews: seq<Reply>) {
    exists b :: b in reviews && ShowsBreak(b)
      && forall s :: s in reviews && ShowsSuccess(s) ==> IndexOf(s) <= IndexOf(b)
  }

  /** Some success is strictly later than every break. */
  ghost predicate SuccessLast(reviews: seq<Reply>) {
    exists s :: s in reviews && ShowsSuccess(s)
      && forall b :: b in reviews && ShowsBreak(b) ==> IndexOf(b) < IndexOf(s)
  }

  /** Nothing shows success, and every break claims a packet number below -1. */
  ghost predicate OnlyHiddenBreaks(reviews: seq<Reply>) {
    forall r :: r in reviews ==> !ShowsSuccess(r) && (ShowsBreak(r) ==> IndexOf(r) < -1)
  }

  /** The exact verdict, for any packet numbers a reply may claim. */
  lemma VerdictExactly(reviews: seq<Reply>)
    ensures Verdict(reviews) == Some(true) <==> SuccessLast(reviews)
    ensures Verdict(reviews) == Some(false) <==> BrokenLast(reviews) && !OnlyHiddenBreaks(reviews)
  {
    var success, broken := Latest(Select(reviews, ShowsSuccess)), Latest(Select(reviews, ShowsBreak));
    if broken.Some? {
      assert broken.value in reviews && ShowsBreak(broken.value);
      if success.None? || IndexOf(success.value) <= IndexOf(broken.value) {
        assert BrokenLast(reviews);
      }
    }
    if success.Some? {
      assert success.value in reviews && ShowsSuccess(success.value);
    }
  }

  /** With packet numbers from the planner, the later observation wins and ties go to the break. */
  lemma VerdictOfNumberedPackets(reviews: seq<Reply>)
    requires forall r :: r in reviews ==> IndexOf(r) >= 0
    ensures Verdict(reviews) == Some(false) <==> BrokenLast(reviews)
    ensures Verdict(reviews) == Some(true) <==> SuccessLast(reviews)
    ensures Verdict(reviews) == None <==> forall r :: r in reviews ==> !ShowsBreak(r) && !ShowsSuccess(r)
  {
    VerdictExactly(reviews);
    var success, broken := Latest(Select(reviews, ShowsSuccess)), Latest(Select(reviews, ShowsBreak));
    assert broken.Some? ==> IndexOf(broken.value) >= 0;
  }

  /** A reply that overwrites its packet number with one below -1 hides a break. */
  lemma NegativeIndexHidesBreak(r: Reply)
    requires ShowsBreak(r) && !ShowsSuccess(r) && IndexOf(r) < -1
    ensures BrokenLast([r]) && Verdict([r]) == None
  {
    VerdictExactly([r]);
    assert r in [r];
  }

  ghost predicate Permutation(a: seq<Reply>, b: seq<Reply>) {
    multiset(a) == multiset(b)
  }

  ghost predicate SameMembers(a: seq<Reply>, b: seq<Reply>) {
    forall x :: x in a <==> x in b
  }

  lemma PermutationMembers(a: seq<Reply>, b: seq<Reply>)
    requires Permutation(a, b)
    ensures SameMembers(a, b)
  {
    forall x ensures x in a <==> x in b {
      assert x in a <==> x in multiset(a);
      assert x in b <==> x in multiset(b);
    }
  }

  lemma VerdictOfMembers(a: seq<Reply>, b: seq<Reply>)
    requires SameMembers(a, b)
    ensures Verdict(a) == Verdict(b)
  {
    hide Verdict;
    VerdictExactly(a);
    VerdictExactly(b);
    assert SuccessLast(a) <==> SuccessLast(b);
    assert BrokenLast(a) <==> BrokenLast(b);
    assert OnlyHiddenBreaks(a) <==> OnlyHiddenBreaks(b);
    VerdictCases(a);
    VerdictCases(b);
  }

  lemma VerdictCases(a: seq<Reply>)
    ensures Verdict(a) == None || Verdict(a) == Some(true) || Verdict(a) == Some(false)
  {
  }

  lemma ConfidenceOfMembers(a: seq<Reply>, b: seq<Reply>)
    requires SameMembers(a, b)
    ensures BestConfidence(a) == BestConfidence(b)
  {
    var l, r := BestConfidence(a), BestConfidence(b);
    if l.Some? {
      var x :| x in a && x.confidence == l;
      assert x in b && r.Some? && l.value <= r.value;
    }
    if r.Some? {
      var x :| x in b && x.confidence == r;
      assert x in a && l.Some? && r.value <= l.value;
    }
  }

  lemma {:induction false} NoFailures(reviews: seq<Reply>)
    ensures FailureList(reviews) == [] <==> forall r :: r in reviews ==> !ReportsFailure(r)
  {
    hide Structured;
    if reviews != [] {
      var init, last := reviews[..|reviews| - 1], reviews[|reviews| - 1];
      NoFailures(init);
      assert forall r :: r in reviews <==> r in init || r == last by { assert reviews == init + [last]; }
      assert FailureList(reviews) == [] <==> FailureList(init) == [] && !ReportsFailure(last);
    }
  }

  predicate ReportsFailure(r: Reply) {
    r.retryOrFailure.Some? && Structured(r.retryOrFailure.value) != []
  }

  /** No two breaks claim the same packet number. */
  ghost predicate BreaksDistinct(reviews: seq<Reply>) {
    forall x, y | x in reviews && y in reviews && ShowsBreak(x) && ShowsBreak(y) && IndexOf(x) == IndexOf(y) :: x == y
  }

  lemma LatestBreakOfMembers(a: seq<Reply>, b: seq<Reply>)
    requires SameMembers(a, b) && BreaksDistinct(a)
    ensures Latest(Select(a, ShowsBreak)) == Latest(Select(b, ShowsBreak))
  {
    var l, r := Select(a, ShowsBreak), Select(b, ShowsBreak);
    assert forall x :: x in l <==> x in r;
    if l != [] || r != [] {
      assert l != [] ==> l[0] in r;
      assert r != [] ==> r[0] in l;
      assert Latest(l).value in a && Latest(r).value in a;
    }
  }

  /** The verdict never depends on the order of the packet reviews; if breaks carry distinct numbers,
      neither does any other field of the aggregate, up to the order of the failure list. */
  lemma AggregateIgnoresOrder(a: seq<Reply>, b: seq<Reply>, terminal: Option<Phase>, fallback: Phase)
    requires Permutation(a, b)
    ensures Verdict(a) == Verdict(b)
    ensures BreaksDistinct(a) ==>
      var l, r := Aggregate(a, terminal, fallback), Aggregate(b, terminal, fallback);
      l == r.(retryOrFailure := l.retryOrFailure)
  {
    hide Verdict, BestConfidence, FailureList, Latest, Select;
    PermutationMembers(a, b);
    VerdictOfMembers(a, b);
    ConfidenceOfMembers(a, b);
    NoFailures(a);
    NoFailures(b);
    if BreaksDistinct(a) {
      LatestBreakOfMembers(a, b);
    }
  }
}
