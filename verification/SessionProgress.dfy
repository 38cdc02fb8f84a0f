/** What the steps of a rollout session bring about, and exactly when a session can be brought to its summary. */
module SessionProgress {
  import opened Common
  import opened SessionProtocol
  import T = Transitions
  import W = ReviewWorker
  import WL = ReviewWorkerLaws

  // ------------------------------------------------------------ requests and runs

  /** What a start is answered, by the first test that applies. */
  lemma StartAnswerExactly(s: Session, configured: bool, taskRequired: bool)
    ensures var answer := StartAnswer(s, configured, taskRequired);
      var running := s.active.Some? && s.active.value.id !in s.ended;
      var finalizing := s.group.Some? && s.group.value.finalizing;
      var full := |s.draining| >= 100;
      && (answer == Refused(AlreadyActive) <==> running)
      && (answer == Refused(SessionFinalizing) <==> !running && finalizing)
      && (answer == Refused(TooManyDraining) <==> !running && !finalizing && full)
      && (answer == Refused(TaskMissing) <==> !running && !finalizing && !full && !configured && taskRequired)
      && (answer == Skipped <==> !running && !finalizing && !full && !configured && !taskRequired)
      && (answer == Started <==> !running && !finalizing && !full && configured)
  {
  }

  /** What the start and the stop of a session are answered. */
  lemma GroupAnswersExactly(s: Session, kind: Kind)
    ensures GroupStartRefusal(s) == Some(SessionActive) <==> s.group.Some?
    ensures GroupStartRefusal(s) == Some(FinalizerRunning) <==> s.group.None? && s.finalizer != NoFinalizer
    ensures GroupStartRefusal(s) == None <==> s.group.None? && s.finalizer == NoFinalizer
    ensures GroupStopRefusal(s, kind) == Some(NoSession) <==> s.group.None?
    ensures GroupStopRefusal(s, kind) == Some(WrongKind) <==> s.group.Some? && s.group.value.kind != kind
    ensures GroupStopRefusal(s, kind) == None <==>
      s.group.Some? && s.group.value.kind == kind && !s.group.value.finalizing
  {
  }

  /** The run is active or draining. */
  ghost predicate Listed(s: Session, run: Run) {
    s.active == Some(run) || (run.id in s.draining && s.draining[run.id] == run)
  }

  /** Stopping empties the active slot and loses no run; stopping a session does so only for a run that
      still has its thread, and starts the finalizer. */
  lemma StopsExactly(s: State, kind: Kind)
    requires Reachable(s)
    ensures var t := Apply(s, StopRun).session;
      && t == s.session.(active := None, draining := t.draining)
      && forall run :: Listed(t, run) <==> Listed(s.session, run)
    ensures Enabled(s, StopGroup(kind)) ==>
      var t := Apply(s, StopGroup(kind)).session;
      var live := s.session.active.Some? && s.session.active.value.id !in s.session.ended;
      && t.active == (if live then None else s.session.active)
      && (!live ==> t.draining == s.session.draining)
      && (forall run :: Listed(t, run) <==> Listed(s.session, run))
      && t.group == Some(s.session.group.value.(finalizing := true)) && t.finalizer == WaitingDrain
  {
    hide StagesSound, WorkersSound, HandedOver, SkippedReviewed, AllRecorded, HistoryKept;
    ReachableInv(s);
  }

  /** A run that ends and asks for its review leaves its rollout with the worker of its kind, now or
      before, and no other worker is touched; an evaluation worker is created if there is none. */
  lemma EndedRunIsHanded(s: State, a: Action, run: Run, submitted: Option<W.Args>)
    requires Reachable(s) && Enabled(s, a) && (a == CompleteRun(run, submitted) || a == CompletionFails(run, submitted))
    ensures var before, after := s.workers, Apply(s, a).workers;
      && (submitted == None ==> after == before)
      && (submitted != None && run.kind in after ==> WasHanded(after[run.kind], run.id))
      && (submitted != None && run.kind == Deployment ==> Deployment in after)
      && (forall k :: k in before ==> k in after)
      && (forall k :: k in after && k != run.kind ==> k in before && after[k] == before[k])
      && (Collection in after ==> Collection in before)
  {
    hide W.Inv, W.Apply, W.Enabled, StagesSound, HandedOver, SkippedReviewed, AllRecorded, Enqueued, FreshWorker;
    ReachableInv(s);
    assert run.id in s.session.dirs;
    if submitted.Some? {
      FreshSound();
      var more := WithWorker(s.workers, run.kind);
      if run.kind in more {
        EnqueuedSound(more[run.kind], W.Job(PathOf(run.id), submitted.value));
      }
    }
  }

  /** Artifacts come from a review that ends well, or from outside, and never go. */
  lemma ReviewedExactly(s: State, a: Action)
    requires Enabled(s, a)
    ensures Apply(s, a).reviewed == s.reviewed + (
      match a
      case WorkerMoves(kind, EndRun(true)) => {(kind, s.workers[kind].worker.job.path.name)}
      case ArtifactsAppear(kind, id) => {(kind, id)}
      case _ => {})
  {
    hide EnqueuedMissing, Handed, W.Apply;
  }

  /** The post-review worker exists from the start exactly if it is configured, and for ever; so does an
      evaluation worker once it exists. */
  lemma {:induction false} WorkersExactly(
    states: seq<State>, actions: seq<Action>, postReview: bool, existing: set<int>, reviewed: set<(Kind, int)>, i: nat)
    requires T.Execution(Step, states, actions) && states[0] == Init(postReview, existing, reviewed) && i < |states|
    ensures Collection in states[i].workers <==> postReview
    ensures i + 1 < |states| && Deployment in states[i].workers ==> Deployment in states[i + 1].workers
  {
    hide Enabled, Apply;
    if i > 0 {
      WorkersExactly(states, actions, postReview, existing, reviewed, i - 1);
      assert Step(states[i - 1], actions[i - 1], states[i - 1 + 1]);
      WorkersStay(states[i - 1], actions[i - 1]);
    }
    if i + 1 < |states| {
      assert Step(states[i], actions[i], states[i + 1]);
      WorkersStay(states[i], actions[i]);
    }
  }

  lemma WorkersStay(s: State, a: Action)
    requires Enabled(s, a)
    ensures Collection in Apply(s, a).workers <==> Collection in s.workers
    ensures Deployment in s.workers ==> Deployment in Apply(s, a).workers
  {
    hide EnqueuedMissing, Enqueued, W.Apply, W.Enabled, FreshWorker;
  }

  // -------------------------------------------------------------------- the stages

  ghost function Stage(f: Finalizer): nat {
    match f
    case NoFinalizer => 0
    case WaitingDrain => 1
    case EnqueueingMissing => 2
    case WaitingIdle(_) => 3
    case WritingSummary(_) => 4
  }

  /** The finalizer goes through its stages one by one, and nothing else moves it. */
  lemma StagesInOrder(s: State, a: Action)
    requires Reachable(s) && Enabled(s, a)
    ensures var from, to := Stage(s.session.finalizer), Stage(Apply(s, a).session.finalizer);
      match a
      case StopGroup(_) => from == 0 && to == 1
      case DrainSeen => from == 1 && to == 2 && s.session.draining == map[]
      case EnqueueMissing(_) => from == 2 && to == 3
      case IdleSeen => from == 3 && to == 4
      case WriteSummary => from == 4 && to == 0
      case FinalizerFails => from > 0 && to == 0
      case _ => to == from
  {
    hide RunsBounded, WorkersSound, HandedOver, SkippedReviewed, AllRecorded, HistoryKept,
      EnqueuedMissing, Handed, W.Apply, W.Enabled;
    ReachableInv(s);
  }

  // ---------------------------------------------------------------- reaching the end

  /** The worker's thread runs and every claimed job is in the queue. */
  ghost predicate Alive(w: W.State) { w.worker != W.Dead && w.inTransit == {} }

  ghost predicate AllAlive(workers: map<Kind, W.State>) { forall k :: k in workers ==> Alive(workers[k]) }

  ghost predicate Good(s: State) { Inv(s) && AllAlive(s.workers) }

  lemma EnqueuedAlive(w: W.State, job: W.Job)
    requires Alive(w)
    ensures Alive(Enqueued(w, job))
  {
  }

  lemma {:induction false} EnqueuedMissingAlive(w: W.State, ids: seq<int>, dirs: set<int>, skip: set<int>, args: W.Args)
    requires Alive(w)
    ensures Alive(EnqueuedMissing(w, ids, dirs, skip, args))
  {
    hide Alive, Enqueued;
    if ids != [] {
      var n := |ids| - 1;
      EnqueuedMissingAlive(w, ids[..n], dirs, skip, args);
      EnqueuedAlive(EnqueuedMissing(w, ids[..n], dirs, skip, args), W.Job(PathOf(ids[n]), args));
    }
  }

  lemma FreshAlive()
    ensures Alive(FreshWorker())
  {
  }

  lemma MovedAlive(w: W.State, step: W.Action)
    requires W.Inv(w) && !w.everStopped && Alive(w) && WL.WorkerStep(step) && W.Enabled(w, step)
    ensures Alive(W.Apply(w, step))
  {
    hide W.Inv;
    WL.WorkerStepProgresses(w, step);
  }

  lemma HandedAlive(workers: map<Kind, W.State>, run: Run, dirs: set<int>, submitted: Option<W.Args>)
    requires AllAlive(workers)
    ensures AllAlive(Handed(workers, run, dirs, submitted))
  {
    hide Alive, Enqueued, FreshWorker;
    FreshAlive();
    if submitted.Some? {
      var more := WithWorker(workers, run.kind);
      if run.kind in more {
        EnqueuedAlive(more[run.kind], W.Job(PathOf(run.id), submitted.value));
      }
    }
  }

  lemma StepAlive(s: State, a: Action)
    requires WorkersSound(s.workers) && AllAlive(s.workers) && Enabled(s, a)
    ensures AllAlive(Apply(s, a).workers)
  {
    hide W.Inv, W.Apply, W.Enabled, EnqueuedMissing, Enqueued, FreshWorker, Handed, Alive;
    FreshAlive();
    match a
    case CompleteRun(run, submitted) => HandedAlive(s.workers, run, s.session.dirs, submitted);
    case CompletionFails(run, submitted) => HandedAlive(s.workers, run, s.session.dirs, submitted);
    case EnqueueMissing(args) =>
      var group := s.session.group.value;
      if group.kind in s.workers {
        EnqueuedMissingAlive(s.workers[group.kind], group.rollouts, s.session.dirs,
                             AlreadyReviewed(s, group.kind, group.rollouts), args);
      }
    case WorkerMoves(kind, step) => MovedAlive(s.workers[kind], step);
    case _ =>
  }

  lemma StepGood(s: State, a: Action)
    requires Good(s) && Enabled(s, a)
    ensures Good(Apply(s, a))
  {
    hide HistoryKept, RunsBounded, StagesSound, WorkersSound, HandedOver, SkippedReviewed, AllRecorded, Apply, AllAlive;
    StepInv(s, a);
    StepAlive(s, a);
  }

  lemma ReachableGood(s: State)
    requires Reachable(s)
    ensures Good(s)
  {
    hide Inv, Enabled, Apply, Init, AllAlive;
    forall s0 | Starts(s0) ensures Good(s0) {
      var postReview :| s0 == Init(postReview, s0.session.dirs, s0.reviewed);
      InitInv(postReview, s0.session.dirs, s0.reviewed);
      InitAlive(postReview, s0.session.dirs, s0.reviewed);
    }
    forall s, a, t | Good(s) && Step(s, a, t) ensures Good(t) {
      StepGood(s, a);
    }
    assert T.Preserves(Step, Good);
    T.InvariantHolds(Starts, Step, Good, s);
  }

  lemma InitAlive(postReview: bool, existing: set<int>, reviewed: set<(Kind, int)>)
    ensures AllAlive(Init(postReview, existing, reviewed).workers)
  {
    hide FreshWorker, Alive;
    FreshAlive();
  }

  /** State `t` is later in the same session, and its summary is about to be written. */
  ghost predicate SummaryAt(s: State, t: State) {
    T.Leads(Step, s, t) && t.closes == s.closes && Enabled(t, WriteSummary)
  }

  lemma SummaryAfter(s: State, a: Action, t: State)
    requires Enabled(s, a) && SummaryAt(Apply(s, a), t) && Apply(s, a).closes == s.closes
    ensures SummaryAt(s, t)
  {
    hide Enabled, Apply;
    T.LeadsFirst(Step, s, a, Apply(s, a), t);
  }

  lemma NextStepIsPossible(w: W.State)
    requires Alive(w) && WL.Work(w) > 0
    ensures WL.WorkerStep(WL.NextStep(w.worker)) && W.Enabled(w, WL.NextStep(w.worker))
  {
  }

  ghost function WorkLeft(s: State): nat {
    if s.session.group.Some? && s.session.group.value.kind in s.workers
    then WL.Work(s.workers[s.session.group.value.kind]) else 0
  }

  lemma {:induction false} IdleFollows(s: State) returns (t: State)
    requires Good(s) && s.session.finalizer.WaitingIdle?
    ensures SummaryAt(s, t)
    decreases WorkLeft(s)
  {
    hide HistoryKept, RunsBounded, HandedOver, SkippedReviewed, AllRecorded, W.Inv, W.Apply, W.Enabled, T.Leads, Alive,
      WL.Work, SummaryAt, WL.NextStep;
    var kind := s.session.group.value.kind;
    if WorkLeft(s) > 0 {
      var w := s.workers[kind];
      NextStepIsPossible(w);
      WorkGoesDown(w);
      var a := WorkerMoves(kind, WL.NextStep(w.worker));
      StepGood(s, a);
      t := IdleFollows(Apply(s, a));
      SummaryAfter(s, a, t);
    } else {
      if kind in s.workers {
        NoWorkIsIdle(s.workers[kind]);
      }
      t := Apply(s, IdleSeen);
      SummaryNow(t);
      SummaryAfter(s, IdleSeen, t);
    }
  }

  lemma SummaryNow(t: State)
    requires t.session.finalizer.WritingSummary?
    ensures SummaryAt(t, t)
  {
    T.LeadsSelf<State, Action>(Step, t);
  }

  lemma WorkGoesDown(w: W.State)
    requires W.Inv(w) && !w.everStopped && Alive(w) && WL.Work(w) > 0
    requires WL.WorkerStep(WL.NextStep(w.worker)) && W.Enabled(w, WL.NextStep(w.worker))
    ensures WL.Work(W.Apply(w, WL.NextStep(w.worker))) < WL.Work(w)
  {
    hide W.Inv, WL.NextStep, WL.Work;
    WL.WorkerStepProgresses(w, WL.NextStep(w.worker));
  }

  lemma NoWorkIsIdle(w: W.State)
    requires W.Inv(w) && !w.everStopped && Alive(w) && WL.Work(w) == 0
    ensures w.shared.Idle()
  {
    hide W.Inv, WL.Work;
    WL.RestIsIdle(w);
  }

  /** Some draining run has lost its thread, and the drain is not over. */
  ghost predicate LostInDrain(s: Session) {
    && (s.finalizer == NoFinalizer || s.finalizer == WaitingDrain)
    && exists id :: id in s.draining && id in s.ended
  }

  lemma {:induction false} DrainFollows(s: State, args: W.Args) returns (t: State)
    requires Good(s) && s.session.finalizer == WaitingDrain && !LostInDrain(s.session)
    ensures SummaryAt(s, t)
    decreases |s.session.draining|
  {
    hide HistoryKept, WorkersSound, HandedOver, SkippedReviewed, AllRecorded, AllAlive, EnqueuedMissing,
      AlreadyReviewed, SummaryAt;
    if item :| item in s.session.draining.Items {
      var a := CompleteRun(item.1, None);
      FewerDraining(s.session.draining, item.0);
      StepGood(s, a);
      t := DrainFollows(Apply(s, a), args);
      SummaryAfter(s, a, t);
    } else {
      assert s.session.draining.Items == {};
      StepGood(s, DrainSeen);
      t := EnqueueFollows(Apply(s, DrainSeen), args);
      SummaryAfter(s, DrainSeen, t);
    }
  }

  lemma FewerDraining(draining: map<int, Run>, id: int)
    requires id in draining
    ensures |draining - {id}| < |draining|
  {
    var rest := draining - {id};
    assert draining.Keys == rest.Keys + {id} && |rest| == |rest.Keys| && |draining| == |draining.Keys|;
  }

  lemma EnqueueFollows(s: State, args: W.Args) returns (t: State)
    requires Good(s) && s.session.finalizer == EnqueueingMissing
    ensures SummaryAt(s, t)
  {
    hide HistoryKept, RunsBounded, WorkersSound, HandedOver, SkippedReviewed, AllRecorded, AllAlive, EnqueuedMissing,
      AlreadyReviewed, SummaryAt;
    StepGood(s, EnqueueMissing(args));
    t := IdleFollows(Apply(s, EnqueueMissing(args)));
    SummaryAfter(s, EnqueueMissing(args), t);
  }

  lemma StopFollows(s: State, args: W.Args) returns (t: State)
    requires Good(s) && s.open.Some? && s.session.finalizer == NoFinalizer && !LostInDrain(s.session)
    ensures SummaryAt(s, t)
  {
    hide WorkersSound, HandedOver, SkippedReviewed, AllRecorded, AllAlive, SummaryAt;
    var a := StopGroup(s.open.value);
    StepGood(s, a);
    t := DrainFollows(Apply(s, a), args);
    SummaryAfter(s, a, t);
  }

  lemma LostStep(s: State, a: Action)
    requires LostInDrain(s.session) && Enabled(s, a)
    ensures var t := Apply(s, a); t.closes > s.closes || (t.closes == s.closes && LostInDrain(t.session))
  {
    hide EnqueuedMissing, Handed, W.Apply, W.Enabled, WithWorker;
    var id :| id in s.session.draining && id in s.session.ended;
    if Apply(s, a).closes == s.closes {
      assert id in Apply(s, a).session.draining && id in Apply(s, a).session.ended;
    }
  }

  lemma {:induction false} LostStays(states: seq<State>, actions: seq<Action>, i: nat)
    requires T.Execution(Step, states, actions) && LostInDrain(states[0].session) && i < |states|
    ensures var s, t := states[0], states[i];
      t.closes > s.closes || (t.closes == s.closes && LostInDrain(t.session))
  {
    hide Enabled, Apply, LostInDrain;
    if i > 0 {
      LostStays(states, actions, i - 1);
      assert Step(states[i - 1], actions[i - 1], states[i - 1 + 1]);
      ClosesGrow(states[i - 1], actions[i - 1]);
      if states[i - 1].closes == states[0].closes {
        LostStep(states[i - 1], actions[i - 1]);
      }
    }
  }

  lemma ClosesGrow(s: State, a: Action)
    requires Enabled(s, a)
    ensures Apply(s, a).closes >= s.closes
  {
    hide EnqueuedMissing, Handed, W.Apply, W.Enabled, WithWorker;
  }

  /** An open session can still be brought to its summary if and only if, as long as its runs are not
      drained, no draining run has lost its thread. Until then no thread, worker or earlier stop is in
      the way; after such a loss only a failing finalizer closes the session. */
  lemma SummaryReachableExactly(s: State, args: W.Args)
    requires Reachable(s) && s.open.Some?
    ensures (exists t :: SummaryAt(s, t)) <==> !LostInDrain(s.session)
  {
    hide Reachable, WorkersSound, HandedOver, SkippedReviewed, AllRecorded, AllAlive, RunsBounded, SummaryAt;
    ReachableGood(s);
    if LostInDrain(s.session) {
      forall t ensures !SummaryAt(s, t) {
        NoSummaryWhenLost(s, t);
      }
    } else {
      var t;
      match s.session.finalizer
      case NoFinalizer => t := StopFollows(s, args);
      case WaitingDrain => t := DrainFollows(s, args);
      case EnqueueingMissing => t := EnqueueFollows(s, args);
      case WaitingIdle(_) => t := IdleFollows(s);
      case WritingSummary(_) => t := s; SummaryNow(s);
      assert SummaryAt(s, t);
    }
  }

  lemma NoSummaryWhenLost(s: State, t: State)
    requires LostInDrain(s.session)
    ensures !SummaryAt(s, t)
  {
    hide Apply;
    if SummaryAt(s, t) {
      var states, actions :| T.Execution(Step, states, actions) && states[0] == s && states[|actions|] == t;
      LostStays(states, actions, |actions|);
      assert false;
    }
  }
}
