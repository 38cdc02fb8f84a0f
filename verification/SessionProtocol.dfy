/** Rollout sessions of the runtime: runs start, drain and complete, a session finalizes, and its
    summary waits for the review worker. The session fields carry no lock, so each runtime operation
    and each finalizer stage is taken as one atomic step. */
module SessionProtocol {
  import opened Common
  import T = Transitions
  import W = ReviewWorker
  import WL = ReviewWorkerLaws

  const MAX_DRAINING := 100

  datatype Kind = Collection | Deployment

  datatype Run = Run(id: int, kind: Kind)

  datatype Group = Group(kind: Kind, finalizing: bool, rollouts: seq<int>)

  /** Stage of the finalizer thread; `complete` lists the rollouts it found already reviewed. */
  datatype Finalizer =
    | NoFinalizer
    | WaitingDrain
    | EnqueueingMissing
    | WaitingIdle(complete: set<int>)
    | WritingSummary(complete: set<int>)

  // ------------------------------------------------------------- session fields

  datatype Session = Session(
    active: Option<Run>,
    draining: map<int, Run>,
    group: Option<Group>,
    finalizer: Finalizer,
    dirs: set<int>,              // rollout directories that exist
    ended: set<int>)             // runs whose thread ended although they are still listed
  {
    /** Runs that are still capturing or being analysed. */
    function Load(): nat { |draining| + if active.Some? then 1 else 0 }

    /** The active run still has its thread. */
    predicate Capturing() { active.Some? && active.value.id !in ended }
  }

  datatype Refusal =
    | AlreadyActive | SessionFinalizing | TooManyDraining | TaskMissing
    | SessionActive | FinalizerRunning | NoSession | WrongKind

  datatype StartResult = Started | Skipped | Refused(why: Refusal)

  function StartRefusal(s: Session): Option<Refusal> {
    if s.Capturing() then Some(AlreadyActive)
    else if s.group.Some? && s.group.value.finalizing then Some(SessionFinalizing)
    else if |s.draining| >= MAX_DRAINING then Some(TooManyDraining)
    else None
  }

  /** Without a configured task a start is refused or skipped, as the caller asks. */
  function StartAnswer(s: Session, configured: bool, taskRequired: bool): StartResult {
    match StartRefusal(s)
    case Some(why) => Refused(why)
    case None => if configured then Started else if taskRequired then Refused(TaskMissing) else Skipped
  }

  /** A new rollout directory is recorded with the session that is open. */
  function WithDirectory(s: Session, id: int): Session {
    s.(dirs := s.dirs + {id},
       group := if s.group.Some? then Some(s.group.value.(rollouts := s.group.value.rollouts + [id])) else None)
  }

  function KindOf(s: Session): Kind { if s.group.Some? then s.group.value.kind else Collection }

  /** The new run takes the active slot, also from a run whose thread has ended. */
  function RunStarted(s: Session, id: int): Session {
    WithDirectory(s, id).(active := Some(Run(id, KindOf(s))))
  }

  function RunStopped(s: Session): Session {
    if s.active.None? then s
    else s.(draining := s.draining[s.active.value.id := s.active.value], active := None)
  }

  function RunCompleted(s: Session, run: Run): Session {
    s.(draining := s.draining - {run.id}, active := if s.active == Some(run) then None else s.active)
  }

  function GroupStartRefusal(s: Session): Option<Refusal> {
    if s.group.Some? then Some(SessionActive)
    else if s.finalizer != NoFinalizer then Some(FinalizerRunning)
    else None
  }

  function GroupStopRefusal(s: Session, kind: Kind): Option<Refusal> {
    if s.group.None? then Some(NoSession)
    else if s.group.value.kind != kind then Some(WrongKind)
    else if s.group.value.finalizing then Some(SessionFinalizing)
    else None
  }

  function GroupStopped(s: Session): Session
    requires s.group.Some?
  {
    (if s.Capturing() then RunStopped(s) else s).(
      group := Some(s.group.value.(finalizing := true)), finalizer := WaitingDrain)
  }

  /** The runtime object; a refused operation leaves it unchanged. */
  class Runtime {
    var active: Option<Run>
    var draining: map<int, Run>
    var group: Option<Group>
    var finalizer: Finalizer
    var dirs: set<int>
    var ended: set<int>

    ghost function View(): Session
      reads this
    {
      Session(active, draining, group, finalizer, dirs, ended)
    }

    constructor (existing: set<int>)
      ensures View() == Session(None, map[], None, NoFinalizer, existing, {})
    {
      active, draining, group, finalizer, dirs, ended := None, map[], None, NoFinalizer, existing, {};
    }

    method StartVsa(id: int, configured: bool, taskRequired: bool) returns (result: StartResult)
      modifies this
      ensures result == StartAnswer(old(View()), configured, taskRequired)
      ensures View() == if result == Started then RunStarted(old(View()), id) else old(View())
      ensures result == Started ==> dirs == old(dirs) + {id} && active.Some? && active.value.id == id
      ensures result == Started && old(group).Some? ==>
        && group.Some? && group.value.rollouts == old(group).value.rollouts + [id]
        && active.value.kind == group.value.kind == old(group).value.kind
    {
      if active.Some? && active.value.id !in ended {
        return Refused(AlreadyActive);
      }
      if group.Some? && group.value.finalizing {
        return Refused(SessionFinalizing);
      }
      if |draining| >= MAX_DRAINING {
        return Refused(TooManyDraining);
      }
      if !configured {
        if taskRequired {
          return Refused(TaskMissing);
        }
        return Skipped;
      }
      dirs := dirs + {id};
      var kind := Collection;
      if group.Some? {
        kind := group.value.kind;
        group := Some(group.value.(rollouts := group.value.rollouts + [id]));
      }
      active := Some(Run(id, kind));
      return Started;
    }

    method StopVsa()
      modifies this
      ensures View() == RunStopped(old(View()))
    {
      if active.None? {
        return;
      }
      draining := draining[active.value.id := active.value];
      active := None;
    }

    method CompleteVsaRun(run: Run)
      modifies this
      ensures View() == RunCompleted(old(View()), run)
    {
      draining := draining - {run.id};
      if active == Some(run) {
        active := None;
      }
    }

    method StartGroup(kind: Kind) returns (refusal: Option<Refusal>)
      modifies this
      ensures refusal == GroupStartRefusal(old(View()))
      ensures View() == if refusal.None? then old(View()).(group := Some(Group(kind, false, []))) else old(View())
    {
      if group.Some? {
        return Some(SessionActive);
      }
      if finalizer != NoFinalizer {
        return Some(FinalizerRunning);
      }
      group := Some(Group(kind, false, []));
      return None;
    }

    method StopGroup(kind: Kind) returns (refusal: Option<Refusal>)
      modifies this
      ensures refusal == GroupStopRefusal(old(View()), kind)
      ensures View() == if refusal.None? then GroupStopped(old(View())) else old(View())
    {
      if group.None? {
        return Some(NoSession);
      }
      if group.value.kind != kind {
        return Some(WrongKind);
      }
      if group.value.finalizing {
        return Some(SessionFinalizing);
      }
      if active.Some? && active.value.id !in ended {
        StopVsa();
      }
      group := Some(group.value.(finalizing := true));
      finalizer := WaitingDrain;
      return None;
    }
  }

  // ----------------------------------------------------------------- the system

  datatype State = State(
    session: Session,
    workers: map<Kind, W.State>,     // the review workers that exist
    reviewed: set<(Kind, int)>,      // rollouts with complete review artifacts
    open: Option<Kind>,              // history: the kind of the session that was opened and not yet closed
    started: seq<int>,               // history: rollouts started since the last session was opened
    live: set<Run>,                  // history: runs started whose thread has not ended
    opens: nat,                      // history: sessions opened
    closes: nat)                     // history: sessions closed by their finalizer

  datatype Action =
    | StartRun(id: int)
    | StartFails(id: int)                       // initialization failed after the directory was created
    | StopRun
    | CompleteRun(run: Run, submitted: Option<W.Args>)       // the run leaves; its review may have been enqueued
    | CompletionFails(run: Run, submitted: Option<W.Args>)   // the thread ends and the run stays listed
    | StartGroup(kind: Kind)
    | StopGroup(kind: Kind)
    | DrainSeen
    | EnqueueMissing(args: W.Args)
    | IdleSeen
    | WriteSummary
    | FinalizerFails
    | WorkerMoves(kind: Kind, step: W.Action)   // one step of a worker thread
    | ArtifactsAppear(kind: Kind, id: int)      // review artifacts written by anyone else

  /** A worker is created together with its thread. */
  function FreshWorker(): W.State { W.Apply(W.Init(), W.Start) }

  function Init(postReview: bool, existing: set<int>, reviewed: set<(Kind, int)>): State {
    State(Session(None, map[], None, NoFinalizer, existing, {}),
          if postReview then map[Collection := FreshWorker()] else map[], reviewed, None, [], {}, 0, 0)
  }

  function PathOf(id: int): W.Path { W.Path(0, id) }

  /** `enqueue`: claim and put, or nothing if the path is outstanding. */
  function Enqueued(w: W.State, job: W.Job): W.State {
    if job.path in w.shared.enqueued then w else W.Apply(W.Apply(w, W.Claim(job)), W.Put(job))
  }

  /** Evaluation workers are created on demand, post-review workers are not. */
  function WithWorker(workers: map<Kind, W.State>, kind: Kind): map<Kind, W.State> {
    if kind == Deployment && kind !in workers then workers[kind := FreshWorker()] else workers
  }

  function Submitted(workers: map<Kind, W.State>, kind: Kind, job: W.Job): map<Kind, W.State> {
    if kind in workers then workers[kind := Enqueued(workers[kind], job)] else workers
  }

  /** Hands every listed rollout that exists and is not yet reviewed to the worker. */
  function EnqueuedMissing(w: W.State, ids: seq<int>, dirs: set<int>, skip: set<int>, args: W.Args): W.State {
    if ids == [] then w
    else
      var done, id := EnqueuedMissing(w, ids[..|ids| - 1], dirs, skip, args), ids[|ids| - 1];
      if id in skip || id !in dirs then done else Enqueued(done, W.Job(PathOf(id), args))
  }

  function AlreadyReviewed(s: State, kind: Kind, ids: seq<int>): set<int> {
    set id | id in ids && (kind, id) in s.reviewed
  }

  predicate IsRun(s: Session, run: Run) {
    run.id !in s.ended && (s.active == Some(run) || (run.id in s.draining && s.draining[run.id] == run))
  }

  /** The review a run asks for when its thread ends, if it gets that far. */
  function Handed(workers: map<Kind, W.State>, run: Run, dirs: set<int>, submitted: Option<W.Args>)
    : map<Kind, W.State>
  {
    match submitted
    case None => workers
    case Some(args) =>
      if run.id in dirs
      then Submitted(WithWorker(workers, run.kind), run.kind, W.Job(PathOf(run.id), args))
      else WithWorker(workers, run.kind)
  }

  predicate Enabled(s: State, a: Action) {
    match a
    case StartRun(id) => StartRefusal(s.session).None? && id !in s.session.dirs
    case StartFails(id) => StartRefusal(s.session).None? && id !in s.session.dirs
    case StopRun => true
    case CompleteRun(run, _) => IsRun(s.session, run)
    case CompletionFails(run, _) => IsRun(s.session, run)
    case StartGroup(_) => GroupStartRefusal(s.session).None?
    case StopGroup(kind) => GroupStopRefusal(s.session, kind).None?
    case DrainSeen => s.session.finalizer == WaitingDrain && s.session.draining == map[]
    case EnqueueMissing(_) => s.session.finalizer == EnqueueingMissing && s.session.group.Some?
    case IdleSeen =>
      && s.session.finalizer.WaitingIdle? && s.session.group.Some?
      && (s.session.group.value.kind in s.workers ==> s.workers[s.session.group.value.kind].shared.Idle())
    case WriteSummary => s.session.finalizer.WritingSummary?
    case FinalizerFails => s.session.finalizer != NoFinalizer
    case WorkerMoves(kind, step) => kind in s.workers && WL.WorkerStep(step) && W.Enabled(s.workers[kind], step)
    case ArtifactsAppear(_, _) => true
  }

  function Apply(s: State, a: Action): State
    requires Enabled(s, a)
  {
    match a
    case StartRun(id) =>
      s.(session := RunStarted(s.session, id), started := s.started + [id],
         live := s.live + {Run(id, if s.open.Some? then s.open.value else Collection)})
    case StartFails(id) => s.(session := WithDirectory(s.session, id), started := s.started + [id])
    case StopRun => s.(session := RunStopped(s.session))
    case CompleteRun(run, submitted) =>
      s.(session := RunCompleted(s.session, run), workers := Handed(s.workers, run, s.session.dirs, submitted),
         live := s.live - {run})
    case CompletionFails(run, submitted) =>
      s.(session := s.session.(ended := s.session.ended + {run.id}),
         workers := Handed(s.workers, run, s.session.dirs, submitted),
         live := s.live - {run})
    case StartGroup(kind) =>
      s.(session := s.session.(group := Some(Group(kind, false, []))), workers := WithWorker(s.workers, kind),
         open := Some(kind), started := [], opens := s.opens + 1)
    case StopGroup(_) => s.(session := GroupStopped(s.session))
    case DrainSeen => s.(session := s.session.(finalizer := EnqueueingMissing))
    case EnqueueMissing(args) =>
      var group := s.session.group.value;
      var skip := AlreadyReviewed(s, group.kind, group.rollouts);
      s.(session := s.session.(finalizer := WaitingIdle(skip)),
         workers :=
           if group.kind in s.workers
           then s.workers[group.kind :=
             EnqueuedMissing(s.workers[group.kind], group.rollouts, s.session.dirs, skip, args)]
           else s.workers)
    case IdleSeen => s.(session := s.session.(finalizer := WritingSummary(s.session.finalizer.complete)))
    case WriteSummary =>
      s.(session := s.session.(group := None, finalizer := NoFinalizer), open := None, closes := s.closes + 1)
    case FinalizerFails =>
      s.(session := s.session.(group := None, finalizer := NoFinalizer), open := None, closes := s.closes + 1)
    case WorkerMoves(kind, step) =>
      var w := s.workers[kind];
      s.(workers := s.workers[kind := W.Apply(w, step)],
         reviewed := if step == W.EndRun(true) then s.reviewed + {(kind, w.worker.job.path.name)} else s.reviewed)
    case ArtifactsAppear(kind, id) => s.(reviewed := s.reviewed + {(kind, id)})
  }

  ghost predicate Step(s: State, a: Action, t: State) { Enabled(s, a) && t == Apply(s, a) }

  ghost predicate Starts(s: State) {
    exists postReview :: s == Init(postReview, s.session.dirs, s.reviewed)
  }

  ghost predicate Reachable(s: State) { T.Reachable(Starts, Step, s) }

  // -------------------------------------------------------------- the invariant

  ghost predicate RunsBounded(s: Session) {
    && s.Load() <= MAX_DRAINING
    && (forall id :: id in s.draining ==> s.draining[id].id == id && id in s.dirs)
    && (s.active.Some? ==> s.active.value.id in s.dirs && s.active.value.id !in s.draining)
  }

  ghost predicate StagesSound(s: Session) {
    && (s.finalizer != NoFinalizer <==> s.group.Some? && s.group.value.finalizing)
    && (s.finalizer != NoFinalizer ==> !s.Capturing())
    && (s.finalizer != NoFinalizer && s.finalizer != WaitingDrain ==> forall id :: id in s.draining ==> id in s.ended)
    && (s.ended == {} && s.finalizer != NoFinalizer ==> s.active.None?)
    && (s.ended == {} && s.finalizer != NoFinalizer && s.finalizer != WaitingDrain ==> s.draining == map[])
  }

  ghost predicate WorkersSound(workers: map<Kind, W.State>) {
    forall k :: k in workers ==> W.Inv(workers[k]) && !workers[k].everStopped
  }

  ghost predicate WasHanded(w: W.State, id: int) {
    exists job :: job in w.accepted && job.path == PathOf(id)
  }

  ghost predicate HandedOver(s: Session, workers: map<Kind, W.State>) {
    && (s.group.Some? && s.group.value.kind == Deployment ==> Deployment in workers)
    && ((s.finalizer.WaitingIdle? || s.finalizer.WritingSummary?) && s.group.Some? && s.group.value.kind in workers ==>
        forall id :: id in s.group.value.rollouts && id in s.dirs && id !in s.finalizer.complete
          ==> WasHanded(workers[s.group.value.kind], id))
    && (s.finalizer.WritingSummary? && s.group.Some? && s.group.value.kind in workers ==>
        workers[s.group.value.kind].shared.Idle())
  }

  /** What the finalizer skipped has review artifacts. */
  ghost predicate SkippedReviewed(s: Session, reviewed: set<(Kind, int)>) {
    (s.finalizer.WaitingIdle? || s.finalizer.WritingSummary?) && s.group.Some? ==>
      forall id :: id in s.finalizer.complete ==> (s.group.value.kind, id) in reviewed
  }

  /** Every run of the agent that ended well left its artifacts. */
  ghost predicate Recorded(kind: Kind, w: W.State, reviewed: set<(Kind, int)>) {
    && (forall d :: d in w.done && d.ending == W.Reviewed ==> (kind, d.job.path.name) in reviewed)
    && ((w.worker.Ended? || w.worker.Releasing?) && w.worker.ending == W.Reviewed ==>
        (kind, w.worker.job.path.name) in reviewed)
  }

  ghost predicate AllRecorded(workers: map<Kind, W.State>, reviewed: set<(Kind, int)>) {
    forall k :: k in workers ==> Recorded(k, workers[k], reviewed)
  }

  /** The session fields agree with what happened: the open session lists exactly the rollouts started
      since it was opened, the runs listed with a live thread are exactly those started and not ended,
      and every session opened is closed once. */
  ghost predicate HistoryKept(s: State) {
    && (match s.session.group
        case None => s.open == None
        case Some(group) => s.open == Some(group.kind) && group.rollouts == s.started)
    && (forall run :: run in s.live <==> IsRun(s.session, run))
    && (forall id :: id in s.started ==> id in s.session.dirs)
    && (forall id :: id in s.session.ended ==> id in s.session.dirs)
    && s.opens == s.closes + if s.open.Some? then 1 else 0
  }

  ghost predicate Inv(s: State) {
    && HistoryKept(s)
    && RunsBounded(s.session)
    && StagesSound(s.session)
    && WorkersSound(s.workers)
    && HandedOver(s.session, s.workers)
    && SkippedReviewed(s.session, s.reviewed)
    && AllRecorded(s.workers, s.reviewed)
  }

  lemma FreshSound()
    ensures W.Inv(FreshWorker()) && !FreshWorker().everStopped
  {
    hide W.Inv;
    W.InitInv();
    W.StepInv(W.Init(), W.Start);
  }

  /** Enqueueing keeps the worker sound; the rollout is handed over, now or before. */
  lemma EnqueuedSound(w: W.State, job: W.Job)
    requires W.Inv(w) && !w.everStopped
    ensures var t := Enqueued(w, job);
      && W.Inv(t) && !t.everStopped && w.accepted <= t.accepted
      && exists j :: j in t.accepted && j.path == job.path
  {
    var t := Enqueued(w, job);
    if job.path in w.shared.enqueued {
      WL.OutstandingAccepted(w);
      if exists j :: j in w.inTransit && j.path == job.path {
        var j :| j in w.inTransit && j.path == job.path;
        assert j in w.accepted;
      } else {
        var j :| j in W.Line(w) && j.path == job.path;
        assert j in w.accepted;
      }
    } else {
      W.StepInv(w, W.Claim(job));
      W.StepInv(W.Apply(w, W.Claim(job)), W.Put(job));
      assert job in t.accepted;
    }
  }

  lemma {:induction false} EnqueuedMissingSound(w: W.State, ids: seq<int>, dirs: set<int>, skip: set<int>, args: W.Args)
    requires W.Inv(w) && !w.everStopped
    ensures var t := EnqueuedMissing(w, ids, dirs, skip, args);
      && W.Inv(t) && !t.everStopped && w.accepted <= t.accepted
      && forall id :: id in ids && id in dirs && id !in skip ==> WasHanded(t, id)
  {
    hide W.Inv;
    if ids != [] {
      var init, id := ids[..|ids| - 1], ids[|ids| - 1];
      assert ids == init + [id];
      EnqueuedMissingSound(w, init, dirs, skip, args);
      var before, t := EnqueuedMissing(w, init, dirs, skip, args), EnqueuedMissing(w, ids, dirs, skip, args);
      if id !in skip && id in dirs {
        EnqueuedSound(before, W.Job(PathOf(id), args));
      }
      forall other | other in ids && other in dirs && other !in skip ensures WasHanded(t, other) {
        if other != id {
          var j :| j in before.accepted && j.path == PathOf(other);
          assert j in t.accepted;
        }
      }
    }
  }

  lemma StepSession(s: State, a: Action)
    requires RunsBounded(s.session) && StagesSound(s.session) && Enabled(s, a)
    ensures RunsBounded(Apply(s, a).session) && StagesSound(Apply(s, a).session)
  {
    hide EnqueuedMissing, Submitted, WithWorker, AlreadyReviewed, Handed, W.Apply, W.Enabled, RunCompleted;
    if a.CompleteRun? {
      CompletionLowersLoad(s.session, a.run);
      CompletionKeepsStages(s.session, a.run);
    }
  }

  lemma CompletionKeepsStages(s: Session, run: Run)
    requires StagesSound(s)
    ensures StagesSound(RunCompleted(s, run))
  {
  }

  lemma CompletionLowersLoad(s: Session, run: Run)
    requires RunsBounded(s) && IsRun(s, run)
    ensures RunCompleted(s, run).Load() < s.Load()
    ensures RunsBounded(RunCompleted(s, run))
  {
    var rest := s.draining - {run.id};
    if run.id in s.draining {
      assert s.draining.Keys == rest.Keys + {run.id};
      assert |s.draining| == |s.draining.Keys| && |rest| == |rest.Keys|;
    } else {
      assert rest == s.draining;
    }
  }

  lemma StepWorkers(s: State, a: Action)
    requires WorkersSound(s.workers) && Enabled(s, a)
    ensures WorkersSound(Apply(s, a).workers)
  {
    hide W.Inv, W.Apply, W.Enabled, EnqueuedMissing, Enqueued, FreshWorker;
    FreshSound();
    match a
    case CompleteRun(run, submitted) => HandedSound(s.workers, run, s.session.dirs, submitted);
    case CompletionFails(run, submitted) => HandedSound(s.workers, run, s.session.dirs, submitted);
    case EnqueueMissing(args) =>
      var group := s.session.group.value;
      if group.kind in s.workers {
        EnqueuedMissingSound(s.workers[group.kind], group.rollouts, s.session.dirs,
                             AlreadyReviewed(s, group.kind, group.rollouts), args);
      }
    case WorkerMoves(kind, step) =>
      W.StepInv(s.workers[kind], step);
      WorkerStepKeepsStop(s.workers[kind], step);
    case _ =>
  }

  lemma HandedSound(workers: map<Kind, W.State>, run: Run, dirs: set<int>, submitted: Option<W.Args>)
    requires WorkersSound(workers)
    ensures WorkersSound(Handed(workers, run, dirs, submitted))
  {
    hide W.Inv, Enqueued, FreshWorker;
    FreshSound();
    if submitted.Some? {
      var more := WithWorker(workers, run.kind);
      assert WorkersSound(more);
      if run.kind in more {
        EnqueuedSound(more[run.kind], W.Job(PathOf(run.id), submitted.value));
      }
    }
  }

  /** Handing a run over changes its worker at most by one enqueue. */
  lemma HandedKeeps(workers: map<Kind, W.State>, run: Run, dirs: set<int>, submitted: Option<W.Args>, kind: Kind)
    requires WorkersSound(workers) && kind in workers
    ensures var after := Handed(workers, run, dirs, submitted);
      && kind in after
      && workers[kind].accepted <= after[kind].accepted
      && (after[kind].done == workers[kind].done && after[kind].worker == workers[kind].worker)
  {
    hide W.Inv, FreshWorker;
  }

  lemma HandedNew(workers: map<Kind, W.State>, run: Run, dirs: set<int>, submitted: Option<W.Args>, kind: Kind)
    requires kind !in workers && kind in Handed(workers, run, dirs, submitted)
    ensures Handed(workers, run, dirs, submitted)[kind].done == []
    ensures Handed(workers, run, dirs, submitted)[kind].worker == W.Checking
  {
  }

  lemma WorkerStepKeepsStop(w: W.State, step: W.Action)
    requires WL.WorkerStep(step) && W.Enabled(w, step)
    ensures W.Apply(w, step).everStopped == w.everStopped
    ensures W.Apply(w, step).accepted == w.accepted
  {
  }

  /** A worker that is idle stays idle under its own steps. */
  lemma IdleStays(w: W.State, step: W.Action)
    requires W.Inv(w) && !w.everStopped && w.shared.Idle() && WL.WorkerStep(step) && W.Enabled(w, step)
    ensures W.Apply(w, step).shared.Idle()
  {
    WL.IdleLeavesNothing(w);
    assert W.Held(w.worker) == [];
  }

  lemma HandedKeepsOver(s: State, run: Run, submitted: Option<W.Args>)
    requires Inv(s) && IsRun(s.session, run)
    ensures HandedOver(s.session, Handed(s.workers, run, s.session.dirs, submitted))
    ensures HandedOver(RunCompleted(s.session, run), Handed(s.workers, run, s.session.dirs, submitted))
  {
    hide W.Inv, Handed, RunsBounded, AllRecorded, SkippedReviewed, WasHanded;
    NoRunAfterDrain(s.session, run);
    if Deployment in s.workers {
      HandedKeeps(s.workers, run, s.session.dirs, submitted, Deployment);
    }
  }

  /** Once the drain is seen no run is left that could complete. */
  lemma NoRunAfterDrain(s: Session, run: Run)
    requires StagesSound(s) && IsRun(s, run)
    ensures s.finalizer == NoFinalizer || s.finalizer == WaitingDrain
  {
  }

  lemma StepHandedOver(s: State, a: Action)
    requires Inv(s) && Enabled(s, a)
    ensures HandedOver(Apply(s, a).session, Apply(s, a).workers)
  {
    hide W.Inv, W.Apply, W.Enabled, EnqueuedMissing, Enqueued, FreshWorker, Handed;
    match a
    case CompleteRun(run, submitted) => HandedKeepsOver(s, run, submitted);
    case CompletionFails(run, submitted) => HandedKeepsOver(s, run, submitted);
    case EnqueueMissing(args) =>
      var group := s.session.group.value;
      if group.kind in s.workers {
        EnqueuedMissingSound(s.workers[group.kind], group.rollouts, s.session.dirs,
                             AlreadyReviewed(s, group.kind, group.rollouts), args);
      }
    case WorkerMoves(kind, step) =>
      var w, t := s.workers[kind], W.Apply(s.workers[kind], step);
      WorkerStepKeepsStop(w, step);
      assert forall id :: WasHanded(w, id) ==> WasHanded(t, id);
      if w.shared.Idle() {
        IdleStays(w, step);
      }
    case _ =>
  }

  lemma {:induction false} EnqueuedMissingKeeps(
    w: W.State, ids: seq<int>, dirs: set<int>, skip: set<int>, args: W.Args)
    ensures var t := EnqueuedMissing(w, ids, dirs, skip, args); t.done == w.done && t.worker == w.worker
  {
    if ids != [] {
      EnqueuedMissingKeeps(w, ids[..|ids| - 1], dirs, skip, args);
    }
  }

  lemma StepSkipped(s: State, a: Action)
    requires SkippedReviewed(s.session, s.reviewed) && StagesSound(s.session) && Enabled(s, a)
    ensures SkippedReviewed(Apply(s, a).session, Apply(s, a).reviewed)
  {
    hide EnqueuedMissing, Handed, W.Apply, W.Enabled;
  }

  lemma HandedRecorded(
    workers: map<Kind, W.State>, run: Run, dirs: set<int>, submitted: Option<W.Args>, reviewed: set<(Kind, int)>)
    requires WorkersSound(workers) && AllRecorded(workers, reviewed)
    ensures AllRecorded(Handed(workers, run, dirs, submitted), reviewed)
  {
    hide W.Inv, Handed;
    var after := Handed(workers, run, dirs, submitted);
    forall k | k in after ensures Recorded(k, after[k], reviewed) {
      if k in workers {
        HandedKeeps(workers, run, dirs, submitted, k);
      } else {
        HandedNew(workers, run, dirs, submitted, k);
      }
    }
  }

  lemma WorkerRecorded(kind: Kind, w: W.State, step: W.Action, reviewed: set<(Kind, int)>)
    requires Recorded(kind, w, reviewed) && WL.WorkerStep(step) && W.Enabled(w, step)
    ensures Recorded(kind, W.Apply(w, step),
      if step == W.EndRun(true) then reviewed + {(kind, w.worker.job.path.name)} else reviewed)
  {
  }

  lemma MoreReviewed(workers: map<Kind, W.State>, reviewed: set<(Kind, int)>, more: set<(Kind, int)>)
    requires AllRecorded(workers, reviewed) && reviewed <= more
    ensures AllRecorded(workers, more)
  {
  }

  lemma StepRecorded(s: State, a: Action)
    requires WorkersSound(s.workers) && AllRecorded(s.workers, s.reviewed) && Enabled(s, a)
    ensures AllRecorded(Apply(s, a).workers, Apply(s, a).reviewed)
  {
    hide W.Inv, W.Apply, W.Enabled, EnqueuedMissing, Handed, Recorded;
    var t := Apply(s, a);
    match a
    case CompleteRun(run, submitted) => HandedRecorded(s.workers, run, s.session.dirs, submitted, s.reviewed);
    case CompletionFails(run, submitted) => HandedRecorded(s.workers, run, s.session.dirs, submitted, s.reviewed);
    case StartGroup(kind) => FreshRecorded(kind, s.reviewed);
    case EnqueueMissing(args) =>
      var group := s.session.group.value;
      if group.kind in s.workers {
        var skip := AlreadyReviewed(s, group.kind, group.rollouts);
        EnqueuedMissingKeeps(s.workers[group.kind], group.rollouts, s.session.dirs, skip, args);
        SameRecorded(group.kind, s.workers[group.kind], t.workers[group.kind], s.reviewed);
      }
    case WorkerMoves(kind, step) =>
      MoreReviewed(s.workers, s.reviewed, t.reviewed);
      WorkerRecorded(kind, s.workers[kind], step, s.reviewed);
    case ArtifactsAppear(_, _) => MoreReviewed(s.workers, s.reviewed, t.reviewed);
    case _ =>
  }

  lemma FreshRecorded(kind: Kind, reviewed: set<(Kind, int)>)
    ensures Recorded(kind, FreshWorker(), reviewed)
  {
  }

  lemma SameRecorded(kind: Kind, w: W.State, t: W.State, reviewed: set<(Kind, int)>)
    requires Recorded(kind, w, reviewed) && t.done == w.done && t.worker == w.worker
    ensures Recorded(kind, t, reviewed)
  {
  }

  lemma StepHistory(s: State, a: Action)
    requires HistoryKept(s) && RunsBounded(s.session) && StagesSound(s.session) && Enabled(s, a)
    ensures HistoryKept(Apply(s, a))
  {
    hide EnqueuedMissing, Submitted, WithWorker, AlreadyReviewed, Handed, W.Apply, W.Enabled;
  }

  /** Every step keeps the invariant. */
  lemma StepInv(s: State, a: Action)
    requires Inv(s) && Enabled(s, a)
    ensures Inv(Apply(s, a))
  {
    hide HistoryKept, RunsBounded, StagesSound, WorkersSound, HandedOver, SkippedReviewed, AllRecorded, Apply;
    StepHistory(s, a);
    StepSkipped(s, a);
    StepRecorded(s, a);
    StepSession(s, a);
    StepWorkers(s, a);
    StepHandedOver(s, a);
  }

  lemma InitInv(postReview: bool, existing: set<int>, reviewed: set<(Kind, int)>)
    ensures Inv(Init(postReview, existing, reviewed))
  {
    hide W.Inv, FreshWorker, Recorded;
    FreshSound();
    FreshRecorded(Collection, reviewed);
  }

  lemma ReachableInv(s: State)
    requires Reachable(s)
    ensures Inv(s)
  {
    hide Inv, Enabled, Apply, Init;
    forall s0 | Starts(s0) ensures Inv(s0) {
      var postReview :| s0 == Init(postReview, s0.session.dirs, s0.reviewed);
      InitInv(postReview, s0.session.dirs, s0.reviewed);
    }
    forall s, a, t | Inv(s) && Step(s, a, t) ensures Inv(t) {
      StepInv(s, a);
    }
    assert T.Preserves(Step, Inv);
    T.InvariantHolds(Starts, Step, Inv, s);
  }

  // ------------------------------------------------------------------- theorems

  /** An open session lists exactly the rollouts started since it was opened, in order; the listed runs
      that have a thread are exactly those started and not ended; each session opened is closed once. */
  lemma SessionMatchesHistory(s: State)
    requires Reachable(s)
    ensures s.session.group.Some? <==> s.open.Some?
    ensures s.session.group.Some? ==>
      s.session.group.value.kind == s.open.value && s.session.group.value.rollouts == s.started
    ensures forall run :: run in s.live <==> (
      && run.id !in s.session.ended
      && (s.session.active == Some(run) || (run.id in s.session.draining && s.session.draining[run.id] == run)))
    ensures s.opens == s.closes + if s.open.Some? then 1 else 0
  {
    hide RunsBounded, StagesSound, WorkersSound, HandedOver, SkippedReviewed, AllRecorded;
    ReachableInv(s);
  }

  /** Exactly when the runtime accepts the three requests an operator can make. */
  lemma RequestsAcceptedExactly(s: State, kind: Kind)
    requires Reachable(s)
    ensures StartRefusal(s.session).None? <==>
      && (s.session.active.Some? ==> s.session.active.value !in s.live)
      && s.session.finalizer == NoFinalizer
      && |s.session.draining| < MAX_DRAINING
    ensures GroupStartRefusal(s.session).None? <==> s.open == None
    ensures GroupStopRefusal(s.session, kind).None? <==> s.open == Some(kind) && s.session.finalizer == NoFinalizer
  {
    hide RunsBounded, WorkersSound, HandedOver, SkippedReviewed, AllRecorded;
    ReachableInv(s);
  }

  /** The worker reviewed the rollout and the review failed. */
  ghost predicate ReviewFailed(w: W.State, id: int) {
    exists d :: d in w.done && d.job.path == PathOf(id) && d.ending == W.Failed
  }

  /** When a session summary is written, every run still listed has lost its thread without completing,
      so without such a failure no run is active or draining. If the review worker exists, it has nothing
      outstanding, and every rollout started in the session has review artifacts or its review failed.
      The statement is the same for both kinds of session. */
  lemma SummaryIsSafe(s: State)
    requires Reachable(s) && Enabled(s, WriteSummary)
    ensures !s.session.Capturing() && (forall id :: id in s.session.draining ==> id in s.session.ended)
    ensures s.session.ended == {} ==> s.session.active == None && s.session.draining == map[]
    ensures s.live == {}
    ensures s.open.Some?
    ensures s.open.value in s.workers ==>
      && s.workers[s.open.value].shared.enqueued == {}
      && forall id :: id in s.started ==>
        (s.open.value, id) in s.reviewed || ReviewFailed(s.workers[s.open.value], id)
    ensures s.open == Some(Deployment) ==> Deployment in s.workers
  {
    hide W.Inv, W.Enabled, Recorded, RunsBounded;
    ReachableInv(s);
    NoneLive(s);
    var group := s.session.group.value;
    if group.kind in s.workers {
      var w := s.workers[group.kind];
      forall id | id in s.started && (group.kind, id) !in s.reviewed ensures ReviewFailed(w, id) {
        assert id !in s.session.finalizer.complete;
        HandedIsSettled(group.kind, w, s.reviewed, id);
      }
    }
  }

  lemma NoneLive(s: State)
    requires HistoryKept(s) && StagesSound(s.session) && s.session.finalizer.WritingSummary?
    ensures s.live == {}
  {
    assert forall run :: !IsRun(s.session, run);
  }

  /** A rollout handed to a worker that was never stopped and is idle again is reviewed or its review failed. */
  lemma HandedIsSettled(kind: Kind, w: W.State, reviewed: set<(Kind, int)>, id: int)
    requires W.Inv(w) && !w.everStopped && w.shared.Idle() && Recorded(kind, w, reviewed) && WasHanded(w, id)
    ensures (kind, id) in reviewed || ReviewFailed(w, id)
  {
    WL.IdleLeavesNothing(w);
    var job :| job in w.accepted && job.path == PathOf(id);
    var d :| d in w.done && d.job == job;
    assert d.ending != W.Abandoned;
  }

  /** Active and draining runs never exceed the limit. */
  lemma DrainBound(s: State)
    requires Reachable(s)
    ensures s.session.Load() <= MAX_DRAINING
  {
    ReachableInv(s);
  }

  /** While a session is finalizing no step adds a run, and every completion removes one: the load is
      a termination measure for the drain wait. */
  lemma DrainProgress(s: State, a: Action)
    requires Reachable(s) && Enabled(s, a) && s.session.finalizer != NoFinalizer
    ensures Apply(s, a).session.finalizer != NoFinalizer ==> Apply(s, a).session.Load() <= s.session.Load()
    ensures a.CompleteRun? ==> Apply(s, a).session.Load() < s.session.Load()
    ensures s.session.finalizer == WaitingDrain && s.session.Load() == 0 ==> Enabled(s, DrainSeen)
  {
    hide Inv, Reachable, Apply, RunsBounded, StagesSound;
    ReachableInv(s);
    RunsAreBounded(s);
    if a.CompleteRun? {
      CompletionLowersLoad(s.session, a.run);
      CompletesSession(s, a);
    } else {
      OthersKeepLoad(s, a);
    }
    NoLoadIsDrained(s);
  }

  lemma CompletesSession(s: State, a: Action)
    requires a.CompleteRun? && Enabled(s, a)
    ensures Apply(s, a).session == RunCompleted(s.session, a.run)
  {
  }

  lemma OthersKeepLoad(s: State, a: Action)
    requires RunsBounded(s.session) && StagesSound(s.session) && Enabled(s, a) && !a.CompleteRun?
    requires s.session.finalizer != NoFinalizer
    ensures Apply(s, a).session.finalizer != NoFinalizer ==> Apply(s, a).session.Load() <= s.session.Load()
  {
    hide EnqueuedMissing, Submitted, Handed, WithWorker, AlreadyReviewed, W.Apply, W.Enabled, RunStopped;
    StopKeepsLoad(s.session);
  }

  lemma NoLoadIsDrained(s: State)
    ensures s.session.finalizer == WaitingDrain && s.session.Load() == 0 ==> Enabled(s, DrainSeen)
  {
  }

  lemma StopKeepsLoad(s: Session)
    requires RunsBounded(s)
    ensures RunStopped(s).Load() == s.Load()
  {
  }

  lemma RunsAreBounded(s: State)
    requires Inv(s)
    ensures RunsBounded(s.session) && StagesSound(s.session)
  {
  }
}
