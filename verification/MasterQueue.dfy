/** The master-review queue: requests coalesce under a condition variable, one worker serves them. */
module MasterQueue {
  import opened Common
  import T = Transitions

  /** What a review is about: its trigger and its resolved task root, each by identity. */
  datatype Key = Key(trigger: int, root: int)

  datatype Job = Job(key: Key, enqueuedAt: real)

  datatype Response = Queued | DebouncedRunning | DebouncedPending

  // --------------------------------------------------------------- queue fields

  datatype Shared = Shared(pending: seq<Job>, running: Option<Job>)

  predicate Debounces(running: Option<Job>, key: Key, now: real, window: real) {
    running.Some? && running.value.key == key && now - running.value.enqueuedAt <= window
  }

  predicate HasPending(pending: seq<Job>, key: Key) {
    exists i :: 0 <= i < |pending| && pending[i].key == key
  }

  function Respond(s: Shared, key: Key, now: real, window: real): Response {
    if Debounces(s.running, key, now, window) then DebouncedRunning
    else if HasPending(s.pending, key) then DebouncedPending
    else Queued
  }

  function Requested(s: Shared, key: Key, now: real, window: real): Shared {
    if Respond(s, key, now, window) == Queued then s.(pending := s.pending + [Job(key, now)]) else s
  }

  /** The runtime's queue; every method is one block under the condition variable. */
  class Queue {
    var pending: seq<Job>
    var running: Option<Job>
    const window: real

    ghost function View(): Shared
      reads this
    {
      Shared(pending, running)
    }

    constructor (window: real)
      ensures View() == Shared([], None) && this.window == window
    {
      pending, running := [], None;
      this.window := window;
    }

    method Enqueue(key: Key, now: real) returns (response: Response)
      modifies this
      ensures response == Respond(old(View()), key, now, window)
      ensures View() == Requested(old(View()), key, now, window)
    {
      if running.Some? && running.value.key == key && now - running.value.enqueuedAt <= window {
        return DebouncedRunning;
      }
      for i := 0 to |pending|
        invariant forall k :: 0 <= k < i ==> pending[k].key != key
        invariant View() == old(View())
      {
        if pending[i].key == key {
          return DebouncedPending;
        }
      }
      pending := pending + [Job(key, now)];
      return Queued;
    }

    method Pop() returns (job: Job)
      requires pending != []
      modifies this
      ensures job == old(pending)[0] && View() == Shared(old(pending)[1..], Some(job))
    {
      job := pending[0];
      pending := pending[1..];
      running := Some(job);
    }

    method Finish()
      modifies this
      ensures View() == old(View()).(running := None)
    {
      running := None;
    }
  }

  // ----------------------------------------------------------------- the system

  datatype Control = Dead | Looping | Reviewing(job: Job)

  datatype State = State(
    shared: Shared,
    window: real,
    stopFlag: bool,
    worker: Control,
    queued: seq<Job>,     // history: every job appended
    popped: seq<Job>)     // history: every job taken by the worker

  function Init(window: real): State {
    State(Shared([], None), window, false, Dead, [], [])
  }

  datatype Action =
    | EnsureWorker                        // starts a thread if none is alive
    | Request(key: Key, now: real)
    | Pop | Finish | Exit
    | SetStop

  predicate Enabled(s: State, a: Action) {
    match a
    case EnsureWorker => true
    case Request(_, _) => true
    case Pop => s.worker == Looping && s.shared.pending != []
    case Finish => s.worker.Reviewing?
    case Exit => s.worker == Looping && s.stopFlag && s.shared.pending == []
    case SetStop => true
  }

  function Apply(s: State, a: Action): State
    requires Enabled(s, a)
  {
    match a
    case EnsureWorker => if s.worker == Dead then s.(stopFlag := false, worker := Looping) else s
    case Request(key, now) =>
      s.(shared := Requested(s.shared, key, now, s.window),
         queued := if Respond(s.shared, key, now, s.window) == Queued then s.queued + [Job(key, now)] else s.queued)
    case Pop =>
      var job := s.shared.pending[0];
      s.(shared := Shared(s.shared.pending[1..], Some(job)), worker := Reviewing(job), popped := s.popped + [job])
    case Finish => s.(shared := s.shared.(running := None), worker := Looping)
    case Exit => s.(worker := Dead)
    case SetStop => s.(stopFlag := true)
  }

  ghost predicate Step(s: State, a: Action, t: State) { Enabled(s, a) && t == Apply(s, a) }

  ghost predicate Starts(s: State) { s == Init(s.window) }

  ghost predicate Execution(states: seq<State>, actions: seq<Action>) { T.Execution(Step, states, actions) }

  ghost predicate Reachable(s: State) { T.Reachable(Starts, Step, s) }

  ghost predicate KeysDistinct(pending: seq<Job>) {
    forall i, j :: 0 <= i < j < |pending| ==> pending[i].key != pending[j].key
  }

  /** Pending keys are distinct, jobs leave in the order they came, and the running job is the last one taken. */
  ghost predicate Inv(s: State) {
    && KeysDistinct(s.shared.pending)
    && s.queued == s.popped + s.shared.pending
    && (s.worker.Reviewing? <==> s.shared.running.Some?)
    && (s.worker.Reviewing? ==>
        s.shared.running == Some(s.worker.job) && s.popped != [] && s.popped[|s.popped| - 1] == s.worker.job)
  }

  lemma StepInv(s: State, a: Action)
    requires Inv(s) && Enabled(s, a)
    ensures var t := Apply(s, a); Inv(t) && s.queued <= t.queued && s.popped <= t.popped
  {
    var t := Apply(s, a);
    if a.Request? && Respond(s.shared, a.key, a.now, s.window) == Queued {
      assert t.queued == s.popped + t.shared.pending;
    } else if a.Pop? {
      assert s.shared.pending == [s.shared.pending[0]] + t.shared.pending;
    }
  }

  lemma InitInv(window: real)
    ensures Inv(Init(window))
  {
  }

  lemma {:induction false} ExecutionInv(states: seq<State>, actions: seq<Action>, i: nat, j: nat)
    requires Execution(states, actions) && Inv(states[0]) && i <= j < |states|
    ensures Inv(states[i]) && Inv(states[j])
    ensures states[i].queued <= states[j].queued && states[i].popped <= states[j].popped
    decreases j
  {
    hide Inv, Enabled, Apply;
    if j > 0 {
      ExecutionInv(states, actions, if i == j then i - 1 else i, j - 1);
      assert Step(states[j - 1], actions[j - 1], states[j - 1 + 1]);
      StepInv(states[j - 1], actions[j - 1]);
    }
  }

  lemma ReachableInv(s: State)
    requires Reachable(s)
    ensures Inv(s)
  {
    hide Apply, Enabled;
    forall s, a, t | Inv(s) && Step(s, a, t) ensures Inv(t) {
      StepInv(s, a);
    }
    assert T.Preserves(Step, Inv);
    T.InvariantHolds(Starts, Step, Inv, s);
  }

  /** In every reachable state pending keys are distinct and popping follows queueing, first in first out;
      the worker leaves only when nothing is pending. */
  lemma QueueDiscipline(s: State)
    requires Reachable(s)
    ensures KeysDistinct(s.shared.pending)
    ensures s.queued == s.popped + s.shared.pending
    ensures Enabled(s, Exit) ==> s.shared.pending == [] && s.popped == s.queued
  {
    ReachableInv(s);
  }

  /** Exactly what becomes of a request: it is dropped while a review of its key, asked for within the
      window, is running; otherwise if its key is pending; and queued at the end in every other case. */
  lemma RequestExactly(s: State, key: Key, now: real)
    requires Reachable(s)
    ensures var t := Apply(s, Request(key, now));
      var busy := s.worker.Reviewing? && s.worker.job.key == key && now <= s.worker.job.enqueuedAt + s.window;
      var waiting := exists job :: job in s.shared.pending && job.key == key;
      && (Respond(s.shared, key, now, s.window) == if busy then DebouncedRunning
          else if waiting then DebouncedPending else Queued)
      && t.shared.pending == s.shared.pending + (if busy || waiting then [] else [Job(key, now)])
      && t.queued == s.queued + (if busy || waiting then [] else [Job(key, now)])
  {
    ReachableInv(s);
    if job :| job in s.shared.pending && job.key == key {
      var i :| 0 <= i < |s.shared.pending| && s.shared.pending[i] == job;
      assert HasPending(s.shared.pending, key);
    }
  }

  /** Job number `k` of the queue history is for `key`; once popped it is popped as number `k`, and until
      then it waits at its place. */
  ghost predicate ServedAs(s: State, k: nat, key: Key) {
    && k < |s.queued| && s.queued[k].key == key
    && |s.queued| == |s.popped| + |s.shared.pending|
    && (if k < |s.popped| then s.popped[k] == s.queued[k] else s.shared.pending[k - |s.popped|] == s.queued[k])
  }

  ghost predicate ServedAfter(states: seq<State>, i: nat, k: nat, key: Key) {
    forall j :: i < j < |states| ==> ServedAs(states[j], k, key)
  }

  /** No request is lost: it runs inside the debounce window of a running review of its key, or there is
      one queued job of its key, not yet popped when the request was made, that serves it ever after. */
  lemma EveryRequestIsServed(states: seq<State>, actions: seq<Action>, window: real, i: nat)
    requires Execution(states, actions) && states[0] == Init(window) && i < |actions| && actions[i].Request?
    ensures var s, key, now := states[i], actions[i].key, actions[i].now;
      if Respond(s.shared, key, now, s.window) == DebouncedRunning
      then s.worker.Reviewing? && s.worker.job.key == key && now - s.worker.job.enqueuedAt <= s.window
      else exists k :: |s.popped| <= k && ServedAfter(states, i, k, key)
  {
    var s, key, now := states[i], actions[i].key, actions[i].now;
    ExecutionInv(states, actions, 0, i);
    if Respond(s.shared, key, now, s.window) != DebouncedRunning {
      var k :=
        if HasPending(s.shared.pending, key)
        then var p :| 0 <= p < |s.shared.pending| && s.shared.pending[p].key == key; |s.popped| + p
        else |s.queued|;
      assert states[i + 1] == Apply(s, actions[i]);
      assert states[i + 1].queued[k].key == key;
      forall j | i < j < |states| ensures ServedAs(states[j], k, key) {
        ExecutionInv(states, actions, i + 1, j);
      }
      assert ServedAfter(states, i, k, key);
    }
  }

  lemma ReachableStep(s: State, a: Action)
    requires Reachable(s) && Enabled(s, a)
    ensures Reachable(Apply(s, a))
  {
    hide Apply, Enabled;
    T.ReachesStep(Starts, Step, s, a, Apply(s, a));
  }

  lemma ReachableInit(window: real)
    ensures Reachable(Init(window))
  {
    T.ReachesInit(Starts, Step, Init(window));
  }

  /** The liveness check and the append are separate blocks: a worker that exits in between leaves the
      request pending with no thread to serve it. */
  lemma RequestCanMissTheWorker(key: Key, now: real)
    ensures exists s :: Reachable(s) && s.worker == Dead && HasPending(s.shared.pending, key)
  {
    hide Reachable;
    var init := Init(2.0);
    ReachableInit(2.0);
    ReachableStep(init, EnsureWorker);
    var alive := Apply(init, EnsureWorker);
    ReachableStep(alive, SetStop);
    var stopping := Apply(alive, SetStop);
    ReachableStep(stopping, Exit);
    var dead := Apply(stopping, Exit);
    ReachableStep(dead, Request(key, now));
    var s := Apply(dead, Request(key, now));
    assert s.shared.pending[0].key == key;
  }

  /** A worker that was started goes on until somebody asks it to stop: an earlier stop does not end it. */
  lemma {:induction false} WorkerRunsUntilStopped(states: seq<State>, actions: seq<Action>, i: nat, j: nat)
    requires Execution(states, actions) && i < j < |states|
    requires actions[i] == EnsureWorker && states[i].worker == Dead
    requires forall m :: i <= m < j ==> actions[m] != SetStop
    ensures states[j].worker != Dead && !states[j].stopFlag
  {
    assert Step(states[j - 1], actions[j - 1], states[j - 1 + 1]);
    if i < j - 1 {
      WorkerRunsUntilStopped(states, actions, i, j - 1);
    }
  }

  /** The request at step `i` was queued, and nobody asked for a worker from then to step `j`. */
  ghost predicate QueuedUnattended(states: seq<State>, actions: seq<Action>, i: nat, j: nat) {
    && i < j < |states| && |states| == |actions| + 1
    && actions[i].Request?
    && Respond(states[i].shared, actions[i].key, actions[i].now, states[i].window) == Queued
    && forall m :: i <= m < j ==> actions[m] != EnsureWorker
  }

  /** A worker leaves only after it has popped everything queued. */
  lemma LeavesNothing(s: State, a: Action)
    requires Inv(s) && Enabled(s, a) && s.worker != Dead && Apply(s, a).worker == Dead
    ensures Apply(s, a).popped == s.queued
  {
  }

  lemma DeadStep(s: State, a: Action)
    requires Enabled(s, a) && s.worker == Dead && a != EnsureWorker
    ensures Apply(s, a).worker == Dead && Apply(s, a).popped == s.popped
  {
  }

  /** A dead worker stays dead until someone asks for a worker again. */
  lemma {:induction false} OnlyEnsureWorkerRevives(states: seq<State>, actions: seq<Action>, i: nat)
    requires Execution(states, actions) && states[0].worker == Dead && EnsureWorker !in actions && i < |states|
    ensures states[i].worker == Dead && states[i].popped == states[0].popped
  {
    hide Apply, Enabled;
    if i > 0 {
      OnlyEnsureWorkerRevives(states, actions, i - 1);
      assert actions[i - 1] in actions && Step(states[i - 1], actions[i - 1], states[i - 1 + 1]);
      DeadStep(states[i - 1], actions[i - 1]);
    }
  }

  lemma {:induction false} UnattendedFate(
    states: seq<State>, actions: seq<Action>, window: real, i: nat, j: nat)
    requires Execution(states, actions) && states[0] == Init(window) && QueuedUnattended(states, actions, i, j)
    ensures states[i].worker == Dead ==> states[j].worker == Dead && states[j].popped == states[i].popped
    ensures states[i].worker != Dead && states[j].worker == Dead ==> |states[i].queued| < |states[j].popped|
    decreases j
  {
    hide Inv, Apply, Enabled;
    var s, a := states[j - 1], actions[j - 1];
    InitInv(window);
    ExecutionInv(states, actions, i, j);
    ExecutionInv(states, actions, i, j - 1);
    if j == i + 1 {
      RequestKeepsWorker(s, a);
    } else {
      assert QueuedUnattended(states, actions, i, j - 1);
      UnattendedFate(states, actions, window, i, j - 1);
      ExecutionInv(states, actions, i + 1, j - 1);
      RequestQueues(states[i], actions[i]);
    }
    if s.worker == Dead {
      DeadStep(s, a);
    } else if states[j].worker == Dead {
      LeavesNothing(s, a);
    }
  }

  lemma RequestKeepsWorker(s: State, a: Action)
    requires Enabled(s, a) && a.Request?
    ensures Apply(s, a).worker == s.worker
  {
  }

  lemma RequestQueues(s: State, a: Action)
    requires Enabled(s, a) && a.Request? && Respond(s.shared, a.key, a.now, s.window) == Queued
    ensures Apply(s, a).queued == s.queued + [Job(a.key, a.now)]
  {
  }

  /** When a queued request is left without a worker: if the worker had gone before the append, it stays
      gone and the job unpopped until someone asks for a worker; if it was alive, it never leaves before
      the job is popped. So whenever the worker is found dead, the job was popped exactly when the worker
      was alive at the append. */
  lemma LeftWithoutWorkerExactly(
    states: seq<State>, actions: seq<Action>, window: real, i: nat, j: nat)
    requires Execution(states, actions) && states[0] == Init(window) && QueuedUnattended(states, actions, i, j)
    ensures states[i].worker == Dead ==> states[j].worker == Dead
    ensures states[j].worker == Dead ==>
      (|states[i].queued| < |states[j].popped| <==> states[i].worker != Dead)
  {
    hide Apply, Enabled;
    UnattendedFate(states, actions, window, i, j);
    InitInv(window);
    ExecutionInv(states, actions, 0, i);
  }
}
