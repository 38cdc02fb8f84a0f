/** The single-lane review worker: shared fields, one transition per lock block or queue operation,
    any number of enqueuing threads and one worker thread. */
module ReviewWorker {
  import opened Common
  import T = Transitions

  /** A rollout directory: its parent and its base name, each by identity. */
  datatype Path = Path(parent: int, name: int)

  /** What an evaluation job carries besides its directory; the post-rollout worker carries nothing. */
  type Args(==, !new)

  datatype Job = Job(path: Path, args: Args)

  datatype Item = Task(job: Job) | Sentinel

  // -------------------------------------------------------------- shared fields

  datatype Shared = Shared(
    queue: seq<Item>,
    enqueued: set<Path>,
    queuedNames: seq<int>,
    current: Option<int>,
    stopped: bool)
  {
    predicate Idle() { queue == [] && current == None && enqueued == {} }
  }

  /** `list.remove`, guarded by membership: drops the first occurrence if there is one. */
  function Without(names: seq<int>, name: int): (r: seq<int>)
    ensures name !in names ==> r == names
  {
    if names == [] then []
    else if names[0] == name then names[1..]
    else [names[0]] + Without(names[1..], name)
  }

  function Admit(s: Shared, path: Path): Shared {
    s.(enqueued := s.enqueued + {path}, queuedNames := s.queuedNames + [path.name])
  }

  function Pushed(s: Shared, item: Item): Shared { s.(queue := s.queue + [item]) }

  function Popped(s: Shared): Shared
    requires s.queue != []
  {
    s.(queue := s.queue[1..])
  }

  function Marked(s: Shared, path: Path): Shared {
    s.(current := Some(path.name), queuedNames := Without(s.queuedNames, path.name))
  }

  function Cleared(s: Shared): Shared { s.(current := None) }

  function Released(s: Shared, path: Path): Shared {
    s.(enqueued := s.enqueued - {path}, queuedNames := Without(s.queuedNames, path.name))
  }

  /** The worker object; every method is one lock block or one queue operation. */
  class Worker {
    var queue: seq<Item>
    var enqueued: set<Path>
    var queuedNames: seq<int>
    var current: Option<int>
    var stopEvent: bool

    ghost function View(): Shared
      reads this
    {
      Shared(queue, enqueued, queuedNames, current, stopEvent)
    }

    constructor ()
      ensures View() == Shared([], {}, [], None, false)
    {
      queue, enqueued, queuedNames, current, stopEvent := [], {}, [], None, false;
    }

    /** The locked part of `enqueue`. */
    method Claim(path: Path) returns (accepted: bool)
      modifies this
      ensures accepted <==> path !in old(enqueued)
      ensures View() == if accepted then Admit(old(View()), path) else old(View())
    {
      if path in enqueued {
        return false;
      }
      enqueued := enqueued + {path};
      queuedNames := queuedNames + [path.name];
      return true;
    }

    method Put(item: Item)
      modifies this
      ensures View() == Pushed(old(View()), item)
    {
      queue := queue + [item];
    }

    method Get() returns (item: Item)
      requires queue != []
      modifies this
      ensures item == old(queue)[0] && View() == Popped(old(View()))
    {
      item := queue[0];
      queue := queue[1..];
    }

    method RemoveName(name: int)
      modifies this
      ensures View() == old(View()).(queuedNames := Without(old(queuedNames), name))
    {
      var i := 0;
      while i < |queuedNames| && queuedNames[i] != name
        invariant 0 <= i <= |queuedNames|
        invariant name !in queuedNames[..i]
        invariant View() == old(View())
      {
        i := i + 1;
      }
      WithoutSplit(queuedNames, name, i);
      if i < |queuedNames| {
        queuedNames := queuedNames[..i] + queuedNames[i + 1..];
      }
    }

    method Mark(path: Path)
      modifies this
      ensures View() == Marked(old(View()), path)
    {
      current := Some(path.name);
      RemoveName(path.name);
    }

    method ClearCurrent()
      modifies this
      ensures View() == Cleared(old(View()))
    {
      current := None;
    }

    method Release(path: Path)
      modifies this
      ensures View() == Released(old(View()), path)
    {
      enqueued := enqueued - {path};
      RemoveName(path.name);
    }

    method IsIdle() returns (idle: bool)
      ensures idle <==> View().Idle()
    {
      idle := |queue| == 0 && current == None && enqueued == {};
    }
  }

  lemma {:induction false} WithoutSplit(names: seq<int>, name: int, i: nat)
    requires i <= |names| && name !in names[..i] && (i < |names| ==> names[i] == name)
    ensures Without(names, name) == if i < |names| then names[..i] + names[i + 1..] else names
  {
    if i > 0 {
      assert names[0] in names[..i];
      assert names[1..][..i - 1] == names[..i][1..];
      WithoutSplit(names[1..], name, i - 1);
    }
  }

  // ------------------------------------------------------------- the protocol

  datatype Ending = Reviewed | Failed | Abandoned

  /** Where the worker thread is. */
  datatype Control =
    | Dead                                   // not running
    | Checking                               // about to test the stop event
    | Waiting                                // in queue.get
    | Taken(job: Job)                        // item taken, not yet marked as current
    | Delaying(job: Job)                     // marked; idle delay before the stop check
    | Running(job: Job)                      // the agent runs
    | Ended(job: Job, ending: Ending)        // the agent returned or raised
    | Releasing(job: Job, ending: Ending)    // in the finally block

  datatype Done = Done(job: Job, ending: Ending)

  datatype State = State(
    shared: Shared,
    worker: Control,
    inTransit: set<Job>,       // claimed, not yet put
    sentinels: nat,            // stop calls that have set the event but not yet put the sentinel
    accepted: seq<Job>,        // history: enqueue calls that claimed their path
    puts: seq<Job>,            // history: jobs put into the queue
    runs: seq<Job>,            // history: agent runs started
    done: seq<Done>,           // history: jobs released
    sentinelsPut: nat,         // history: sentinels put into the queue
    sentinelsTaken: nat,       // history: sentinels taken out by the worker
    everStopped: bool)         // history: the stop event has been set

  function Init(): State {
    State(Shared([], {}, [], None, false), Dead, {}, 0, [], [], [], [], 0, 0, false)
  }

  datatype Action =
    | Start
    | Claim(job: Job) | Put(job: Job)
    | SetStop | PutSentinel
    | Check | Get | Mark | EndDelay | EndRun(ok: bool) | ClearCurrent | Release

  predicate Enabled(s: State, a: Action) {
    match a
    case Start => s.worker == Dead
    case Claim(job) => job.path !in s.shared.enqueued
    case Put(job) => job in s.inTransit
    case SetStop => true
    case PutSentinel => s.sentinels > 0
    case Check => s.worker == Checking
    case Get => s.worker == Waiting && s.shared.queue != []
    case Mark => s.worker.Taken?
    case EndDelay => s.worker.Delaying?
    case EndRun(_) => s.worker.Running?
    case ClearCurrent => s.worker.Ended?
    case Release => s.worker.Releasing?
  }

  function Apply(s: State, a: Action): State
    requires Enabled(s, a)
  {
    match a
    case Start => s.(shared := s.shared.(stopped := false), worker := Checking)
    case Claim(job) =>
      s.(shared := Admit(s.shared, job.path), inTransit := s.inTransit + {job}, accepted := s.accepted + [job])
    case Put(job) =>
      s.(shared := Pushed(s.shared, Task(job)), inTransit := s.inTransit - {job}, puts := s.puts + [job])
    case SetStop =>
      s.(shared := s.shared.(stopped := true), sentinels := s.sentinels + 1, everStopped := true)
    case PutSentinel =>
      s.(shared := Pushed(s.shared, Sentinel), sentinels := s.sentinels - 1, sentinelsPut := s.sentinelsPut + 1)
    case Check => s.(worker := if s.shared.stopped then Dead else Waiting)
    case Get =>
      s.(shared := Popped(s.shared),
         worker := if s.shared.queue[0].Task? then Taken(s.shared.queue[0].job) else Dead,
         sentinelsTaken := s.sentinelsTaken + if s.shared.queue[0].Task? then 0 else 1)
    case Mark => s.(shared := Marked(s.shared, s.worker.job.path), worker := Delaying(s.worker.job))
    case EndDelay =>
      if s.shared.stopped then s.(worker := Releasing(s.worker.job, Abandoned))
      else s.(worker := Running(s.worker.job), runs := s.runs + [s.worker.job])
    case EndRun(ok) => s.(worker := Ended(s.worker.job, if ok then Reviewed else Failed))
    case ClearCurrent => s.(shared := Cleared(s.shared), worker := Releasing(s.worker.job, s.worker.ending))
    case Release =>
      s.(shared := Released(s.shared, s.worker.job.path),
         worker := if s.worker.ending == Abandoned then Dead else Checking,
         done := s.done + [Done(s.worker.job, s.worker.ending)])
  }

  ghost predicate Step(s: State, a: Action, t: State) { Enabled(s, a) && t == Apply(s, a) }

  ghost predicate Starts(s: State) { s == Init() }

  ghost predicate Execution(states: seq<State>, actions: seq<Action>) { T.Execution(Step, states, actions) }

  ghost predicate Reachable(s: State) { T.Reachable(Starts, Step, s) }

  // -------------------------------------------------------------- the invariant

  function Jobs(queue: seq<Item>): seq<Job> {
    if queue == [] then []
    else Jobs(queue[..|queue| - 1]) + if queue[|queue| - 1].Task? then [queue[|queue| - 1].job] else []
  }

  function Held(worker: Control): seq<Job> {
    if worker.Dead? || worker.Checking? || worker.Waiting? then [] else [worker.job]
  }

  /** Jobs the worker holds or will take, in the order it handles them. */
  function Line(s: State): seq<Job> { Held(s.worker) + Jobs(s.shared.queue) }

  function DoneJobs(done: seq<Done>): seq<Job> {
    seq(|done|, i requires 0 <= i < |done| => done[i].job)
  }

  /** The jobs of the history whose agent was started. */
  function RunJobs(done: seq<Done>): seq<Job> {
    if done == [] then []
    else RunJobs(done[..|done| - 1]) + if done[|done| - 1].ending == Abandoned then [] else [done[|done| - 1].job]
  }

  function Started(worker: Control): seq<Job> {
    match worker
    case Running(job) => [job]
    case Ended(job, _) => [job]
    case Releasing(job, ending) => if ending == Abandoned then [] else [job]
    case _ => []
  }

  ghost predicate DistinctPaths(jobs: seq<Job>) {
    forall i, j :: 0 <= i < j < |jobs| ==> jobs[i].path != jobs[j].path
  }

  /** `enqueued` is exactly the disjoint union of the paths in transit and the paths in line. */
  ghost predicate Accounted(line: seq<Job>, transit: set<Job>, enqueued: set<Path>) {
    && DistinctPaths(line)
    && (forall j, k :: j in transit && k in transit && j.path == k.path ==> j == k)
    && (forall j, k :: j in transit && k in line ==> j.path != k.path)
    && (forall j :: j in transit || j in line ==> j.path in enqueued)
    && (forall p :: p in enqueued ==> (exists j :: j in transit && j.path == p) || (exists j :: j in line && j.path == p))
  }

  lemma ClaimAccounted(line: seq<Job>, transit: set<Job>, enqueued: set<Path>, job: Job)
    requires Accounted(line, transit, enqueued) && job.path !in enqueued
    ensures Accounted(line, transit + {job}, enqueued + {job.path})
  {
    forall p | p in enqueued + {job.path}
      ensures (exists j :: j in transit + {job} && j.path == p) || (exists j :: j in line && j.path == p)
    {
      if p == job.path {
        assert job in transit + {job};
      } else if exists j :: j in transit && j.path == p {
        var j :| j in transit && j.path == p;
        assert j in transit + {job};
      }
    }
  }

  lemma PutAccounted(line: seq<Job>, transit: set<Job>, enqueued: set<Path>, job: Job)
    requires Accounted(line, transit, enqueued) && job in transit
    ensures Accounted(line + [job], transit - {job}, enqueued)
  {
    var after, rest := line + [job], transit - {job};
    assert job in after;
    forall p | p in enqueued
      ensures (exists j :: j in rest && j.path == p) || (exists j :: j in after && j.path == p)
    {
      if exists j :: j in line && j.path == p {
        var j :| j in line && j.path == p;
        assert j in after;
      } else {
        var j :| j in transit && j.path == p;
        assert j in rest || j in after;
      }
    }
  }

  lemma ReleaseAccounted(line: seq<Job>, transit: set<Job>, enqueued: set<Path>)
    requires Accounted(line, transit, enqueued) && line != []
    ensures Accounted(line[1..], transit, enqueued - {line[0].path})
  {
    var rest := line[1..];
    assert line == [line[0]] + rest;
    forall j | j in rest ensures j.path != line[0].path && j in line {
      var i :| 0 <= i < |rest| && rest[i] == j;
      assert line[i + 1] == j;
    }
    forall p | p in enqueued - {line[0].path}
      ensures (exists j :: j in transit && j.path == p) || (exists j :: j in rest && j.path == p)
    {
      if !exists j :: j in transit && j.path == p {
        var j :| j in line && j.path == p;
        assert j in rest;
      }
    }
  }

  /** First in, first out, and nothing lost: what was put is what is done, then held, then queued. */
  ghost predicate InOrder(s: State) {
    && s.puts == DoneJobs(s.done) + Line(s)
    && s.runs == RunJobs(s.done) + Started(s.worker)
  }

  ghost predicate NothingLost(s: State) {
    multiset(s.accepted) == multiset(s.puts) + multiset(s.inTransit)
  }

  ghost predicate StopBookkeeping(s: State) {
    && (s.shared.stopped ==> s.everStopped)
    && (forall d :: d in s.done && d.ending == Abandoned ==> s.everStopped)
    && (s.worker.Ended? ==> s.worker.ending != Abandoned)
    && (s.worker.Releasing? && s.worker.ending == Abandoned ==> s.everStopped)
    && (!s.everStopped ==> s.sentinels == 0 && Sentinel !in s.shared.queue)
  }

  function Sentinels(queue: seq<Item>): nat {
    if queue == [] then 0
    else Sentinels(queue[..|queue| - 1]) + if queue[|queue| - 1] == Sentinel then 1 else 0
  }

  ghost predicate SentinelsCounted(s: State) {
    Sentinels(s.shared.queue) + s.sentinelsTaken == s.sentinelsPut
  }

  ghost predicate LastAbandoned(s: State) {
    s.done != [] && s.done[|s.done| - 1].ending == Abandoned
  }

  /** The rollout the status shows: the one being handled, and otherwise one left behind by a worker that
      abandoned the last job released. */
  ghost function Shown(s: State): Option<int> {
    match s.worker
    case Delaying(job) => Some(job.path.name)
    case Running(job) => Some(job.path.name)
    case Ended(job, _) => Some(job.path.name)
    case Releasing(job, ending) => if ending == Abandoned then Some(job.path.name) else None
    case _ => if LastAbandoned(s) then Some(s.done[|s.done| - 1].job.path.name) else None
  }

  ghost predicate Inv(s: State) {
    && Accounted(Line(s), s.inTransit, s.shared.enqueued)
    && InOrder(s)
    && NothingLost(s)
    && StopBookkeeping(s)
    && SentinelsCounted(s)
    && s.shared.current == Shown(s)
  }

  lemma JobsAppend(queue: seq<Item>, item: Item)
    ensures Jobs(queue + [item]) == Jobs(queue) + if item.Task? then [item.job] else []
  {
    assert (queue + [item])[..|queue|] == queue;
  }

  lemma {:induction false} JobsPop(queue: seq<Item>)
    requires queue != []
    ensures Jobs(queue) == (if queue[0].Task? then [queue[0].job] else []) + Jobs(queue[1..])
  {
    if |queue| > 1 {
      var init := queue[..|queue| - 1];
      JobsPop(init);
      assert init[1..] == queue[1..][..|queue| - 2];
    } else {
      assert queue[..0] == [] && queue[1..] == [];
    }
  }

  /** How each step moves the line of jobs. */
  lemma LineAfter(s: State, a: Action)
    requires Enabled(s, a)
    ensures Line(Apply(s, a)) ==
      match a
      case Put(job) => Line(s) + [job]
      case Release => Line(s)[1..]
      case _ => Line(s)
  {
    hide Jobs;
    match a
    case Put(job) => JobsAppend(s.shared.queue, Task(job));
    case PutSentinel => JobsAppend(s.shared.queue, Sentinel);
    case Get => JobsPop(s.shared.queue);
    case _ =>
  }

  lemma StepAccounted(s: State, a: Action)
    requires Accounted(Line(s), s.inTransit, s.shared.enqueued) && Enabled(s, a)
    ensures var t := Apply(s, a); Accounted(Line(t), t.inTransit, t.shared.enqueued)
  {
    hide Accounted, Line;
    LineAfter(s, a);
    var line, transit, enqueued := Line(s), s.inTransit, s.shared.enqueued;
    match a
    case Claim(job) => ClaimAccounted(line, transit, enqueued, job);
    case Put(job) => PutAccounted(line, transit, enqueued, job);
    case Release =>
      HeldHeadsLine(s);
      ReleaseAccounted(line, transit, enqueued);
    case _ =>
  }

  lemma HeldHeadsLine(s: State)
    requires s.worker.Releasing?
    ensures Line(s) != [] && Line(s)[0] == s.worker.job
  {
  }

  lemma StepPuts(s: State, a: Action)
    requires s.puts == DoneJobs(s.done) + Line(s) && Enabled(s, a)
    ensures var t := Apply(s, a); t.puts == DoneJobs(t.done) + Line(t)
  {
    hide Line;
    LineAfter(s, a);
    var t := Apply(s, a);
    if a.Put? {
      assert t.puts == DoneJobs(s.done) + (Line(s) + [a.job]);
    } else if a.Release? {
      HeldHeadsLine(s);
      assert DoneJobs(t.done) == DoneJobs(s.done) + [s.worker.job];
      assert Line(s) == [s.worker.job] + Line(t);
    }
  }

  lemma StepRuns(s: State, a: Action)
    requires s.runs == RunJobs(s.done) + Started(s.worker) && Enabled(s, a)
    requires s.worker.Ended? ==> s.worker.ending != Abandoned
    ensures var t := Apply(s, a); t.runs == RunJobs(t.done) + Started(t.worker)
  {
    var t := Apply(s, a);
    if a.Release? {
      assert t.done[..|s.done|] == s.done;
    }
  }

  lemma StepInOrder(s: State, a: Action)
    requires InOrder(s) && Enabled(s, a) && (s.worker.Ended? ==> s.worker.ending != Abandoned)
    ensures InOrder(Apply(s, a))
  {
    hide Apply, Line;
    StepPuts(s, a);
    StepRuns(s, a);
  }

  lemma StepNothingLost(s: State, a: Action)
    requires NothingLost(s) && Accounted(Line(s), s.inTransit, s.shared.enqueued) && Enabled(s, a)
    ensures NothingLost(Apply(s, a))
  {
    hide Line;
    match a
    case Claim(job) =>
      assert job !in s.inTransit;
      MultisetPlus(s.inTransit, job);
    case Put(job) =>
      var rest := s.inTransit - {job};
      assert s.inTransit == rest + {job};
      MultisetPlus(rest, job);
    case _ =>
  }

  lemma MultisetPlus(jobs: set<Job>, job: Job)
    requires job !in jobs
    ensures multiset(jobs + {job}) == multiset(jobs) + multiset{job}
  {
  }

  lemma StepStop(s: State, a: Action)
    requires StopBookkeeping(s) && Enabled(s, a)
    ensures StopBookkeeping(Apply(s, a))
  {
  }

  lemma SentinelsAppend(queue: seq<Item>, item: Item)
    ensures Sentinels(queue + [item]) == Sentinels(queue) + if item == Sentinel then 1 else 0
  {
    assert (queue + [item])[..|queue|] == queue;
  }

  lemma {:induction false} SentinelsPop(queue: seq<Item>)
    requires queue != []
    ensures Sentinels(queue) == (if queue[0] == Sentinel then 1 else 0) + Sentinels(queue[1..])
  {
    var n := |queue| - 1;
    if n > 0 {
      SentinelsPop(queue[..n]);
      assert queue[..n][1..] == queue[1..][..n - 1];
    }
  }

  lemma StepSentinels(s: State, a: Action)
    requires SentinelsCounted(s) && Enabled(s, a)
    ensures SentinelsCounted(Apply(s, a))
  {
    hide Sentinels;
    match a
    case Put(job) => SentinelsAppend(s.shared.queue, Task(job));
    case PutSentinel => SentinelsAppend(s.shared.queue, Sentinel);
    case Get => SentinelsPop(s.shared.queue);
    case _ =>
  }

  lemma StepShown(s: State, a: Action)
    requires s.shared.current == Shown(s) && Enabled(s, a) && (s.worker.Ended? ==> s.worker.ending != Abandoned)
    ensures Apply(s, a).shared.current == Shown(Apply(s, a))
  {
  }

  /** Every step keeps the invariant. */
  lemma StepInv(s: State, a: Action)
    requires Inv(s) && Enabled(s, a)
    ensures Inv(Apply(s, a))
  {
    hide Accounted, InOrder, NothingLost, Apply, SentinelsCounted, Shown;
    StepSentinels(s, a);
    StepShown(s, a);
    StepAccounted(s, a);
    StepInOrder(s, a);
    StepNothingLost(s, a);
    StepStop(s, a);
  }

  lemma InitInv()
    ensures Inv(Init())
  {
  }

  lemma ExecutionInv(states: seq<State>, actions: seq<Action>, i: nat)
    requires Execution(states, actions) && Inv(states[0]) && i < |states|
    ensures Inv(states[i])
  {
    hide Inv, Enabled, Apply;
    StepsKeepInv();
    T.InvariantAlong(Step, Inv, states, actions, i);
  }

  lemma StepsKeepInv()
    ensures T.Preserves(Step, Inv)
  {
    hide Inv, Enabled, Apply;
    forall s, a, t | Inv(s) && Step(s, a, t) ensures Inv(t) {
      StepInv(s, a);
    }
  }

  lemma ReachableInv(s: State)
    requires Reachable(s)
    ensures Inv(s)
  {
    hide Inv, Enabled, Apply;
    InitInv();
    StepsKeepInv();
    T.InvariantHolds(Starts, Step, Inv, s);
  }
}
