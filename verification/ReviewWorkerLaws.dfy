/** What every execution of the review worker guarantees. */
module ReviewWorkerLaws {
  import opened Common
  import opened ReviewWorker
  import T = Transitions

  // ------------------------------------------------------------------ idleness

  lemma WorkIsEnqueued(line: seq<Job>, transit: set<Job>, enqueued: set<Path>)
    requires Accounted(line, transit, enqueued)
    ensures enqueued == {} ==> line == [] && transit == {}
  {
    if line != [] {
      assert line[0] in line;
    }
  }

  lemma IdleLeavesNothing(s: State)
    requires Inv(s) && s.shared.Idle()
    ensures s.inTransit == {} && Line(s) == []
    ensures multiset(s.accepted) == multiset(DoneJobs(s.done))
    ensures forall job :: job in s.accepted ==> exists d :: d in s.done && d.job == job
  {
    hide Accounted, Line, DoneJobs;
    WorkIsEnqueued(Line(s), s.inTransit, s.shared.enqueued);
    assert s.puts == DoneJobs(s.done);
    forall job | job in s.accepted ensures exists d :: d in s.done && d.job == job {
      assert job in multiset(s.accepted) && job in DoneJobs(s.done);
      DoneHasEntry(s.done, job);
    }
  }

  lemma DoneHasEntry(done: seq<Done>, job: Job)
    requires job in DoneJobs(done)
    ensures exists d :: d in done && d.job == job
  {
    var i :| 0 <= i < |done| && DoneJobs(done)[i] == job;
    assert done[i] in done;
  }

  /** Idle is sound: once the idle test answers true, every enqueue that was accepted has been
      reviewed or has failed, or was abandoned after a stop, and no other work is left anywhere. */
  lemma IdleIsSound(s: State)
    requires Reachable(s) && s.shared.Idle()
    ensures s.inTransit == {} && Line(s) == []
    ensures multiset(s.accepted) == multiset(DoneJobs(s.done))
    ensures forall job :: job in s.accepted ==> exists d :: d in s.done && d.job == job
    ensures forall d :: d in s.done && d.ending == Abandoned ==> s.everStopped
  {
    ReachableInv(s);
    IdleLeavesNothing(s);
  }

  // ------------------------------------------------------- order and exactly-once

  /** `a` is obtained from `b` by dropping elements. */
  ghost predicate Subsequence(a: seq<Job>, b: seq<Job>) {
    a == [] || (b != [] && (
      (a[|a| - 1] == b[|b| - 1] && Subsequence(a[..|a| - 1], b[..|b| - 1])) || Subsequence(a, b[..|b| - 1])))
  }

  lemma SubsequenceGrow(a: seq<Job>, b: seq<Job>, x: Job)
    requires Subsequence(a, b)
    ensures Subsequence(a + [x], b + [x]) && Subsequence(a, b + [x])
  {
    assert (a + [x])[..|a|] == a && (b + [x])[..|b|] == b;
  }

  lemma {:induction false} SubsequenceExtend(a: seq<Job>, b: seq<Job>, more: seq<Job>)
    requires Subsequence(a, b)
    ensures Subsequence(a, b + more)
  {
    if more == [] {
      assert b + more == b;
    } else {
      SubsequenceExtend(a, b, more[..|more| - 1]);
      SubsequenceGrow(a, b + more[..|more| - 1], more[|more| - 1]);
      assert b + more == b + more[..|more| - 1] + [more[|more| - 1]];
    }
  }

  lemma {:induction false} RunsFollowDone(done: seq<Done>)
    ensures Subsequence(RunJobs(done), DoneJobs(done))
  {
    if done != [] {
      var init, last := done[..|done| - 1], done[|done| - 1];
      RunsFollowDone(init);
      assert DoneJobs(done) == DoneJobs(init) + [last.job];
      SubsequenceGrow(RunJobs(init), DoneJobs(init), last.job);
      assert RunJobs(done) == if last.ending == Abandoned then RunJobs(init) else RunJobs(init) + [last.job];
    }
  }

  lemma OrderOfJobs(s: State)
    requires Inv(s)
    ensures s.puts == DoneJobs(s.done) + Held(s.worker) + Jobs(s.shared.queue)
    ensures s.runs == RunJobs(s.done) + Started(s.worker)
    ensures Started(s.worker) != [] ==>
      Started(s.worker) == Held(s.worker) && |Held(s.worker)| == 1
  {
    hide DoneJobs, RunJobs, Jobs, Accounted, StopBookkeeping, NothingLost;
  }

  /** Reviews run one at a time in the order their jobs were put, with the arguments that were put;
      the jobs taken so far are a prefix of the jobs put. */
  lemma ReviewsInPutOrder(s: State)
    requires Reachable(s)
    ensures Subsequence(s.runs, s.puts)
    ensures DoneJobs(s.done) + Held(s.worker) <= s.puts
  {
    hide Subsequence, RunJobs, DoneJobs, Jobs, Inv, Line, Held, Started;
    ReachableInv(s);
    OrderOfJobs(s);
    RunsFollowDone(s.done);
    var taken := DoneJobs(s.done) + Held(s.worker);
    if Started(s.worker) != [] {
      SubsequenceGrow(RunJobs(s.done), DoneJobs(s.done), Held(s.worker)[0]);
      assert Held(s.worker) == [Held(s.worker)[0]];
    } else {
      SubsequenceExtend(RunJobs(s.done), DoneJobs(s.done), Held(s.worker));
      assert s.runs == RunJobs(s.done);
    }
    assert s.puts == taken + Jobs(s.shared.queue);
    SubsequenceExtend(s.runs, taken, Jobs(s.shared.queue));
  }

  lemma {:induction false} SubsequenceCounts(a: seq<Job>, b: seq<Job>)
    requires Subsequence(a, b)
    ensures multiset(a) <= multiset(b)
  {
    if a != [] {
      var a', b' := a[..|a| - 1], b[..|b| - 1];
      assert a == a' + [a[|a| - 1]] && b == b' + [b[|b| - 1]];
      if a[|a| - 1] == b[|b| - 1] && Subsequence(a', b') {
        SubsequenceCounts(a', b');
      } else {
        SubsequenceCounts(a, b');
      }
    }
  }

  /** Each accepted enqueue leads to at most one agent run, and no path is outstanding twice. */
  lemma AtMostOneRun(s: State)
    requires Reachable(s)
    ensures multiset(s.runs) <= multiset(s.accepted)
    ensures DistinctPaths(Line(s))
    ensures forall j, k | j in s.inTransit && (k in s.inTransit || k in Line(s)) && j.path == k.path :: j == k && j !in Line(s)
  {
    ReachableInv(s);
    ReviewsInPutOrder(s);
    SubsequenceCounts(s.runs, s.puts);
  }

  // -------------------------------------------------------------------- progress

  function StepsLeft(worker: Control): nat {
    match worker
    case Dead => 0
    case Waiting => 0
    case Checking => 1
    case Releasing(_, _) => 2
    case Ended(_, _) => 3
    case Running(_) => 4
    case Delaying(_) => 5
    case Taken(_) => 6
  }

  /** Worker steps still needed for the work at hand. */
  function Work(s: State): nat { 7 * |s.shared.queue| + StepsLeft(s.worker) }

  predicate WorkerStep(a: Action) {
    a.Check? || a.Get? || a.Mark? || a.EndDelay? || a.EndRun? || a.ClearCurrent? || a.Release?
  }

  ghost predicate Live(s: State) { s.worker != Dead && !s.everStopped }

  /** The step the worker takes next. */
  function NextStep(worker: Control): Action {
    match worker
    case Checking => Check
    case Taken(_) => Mark
    case Delaying(_) => EndDelay
    case Running(_) => EndRun(true)
    case Ended(_, _) => ClearCurrent
    case Releasing(_, _) => Release
    case _ => Get
  }

  lemma LiveQueueHoldsTasks(s: State)
    requires Inv(s) && !s.everStopped && s.shared.queue != []
    ensures s.shared.queue[0].Task?
  {
    assert s.shared.queue[0] in s.shared.queue;
  }

  lemma WorkerStepProgresses(s: State, a: Action)
    requires Inv(s) && Live(s) && WorkerStep(a) && Enabled(s, a)
    ensures Work(Apply(s, a)) < Work(s) && Live(Apply(s, a))
  {
    hide Accounted, InOrder, NothingLost;
    if a == Get {
      LiveQueueHoldsTasks(s);
    }
  }

  lemma RestIsIdle(s: State)
    requires Inv(s) && Live(s) && Work(s) == 0 && s.inTransit == {}
    ensures s.shared.Idle()
  {
    assert Line(s) == [];
    assert s.shared.enqueued == {};
  }

  /** A live worker with nothing arriving becomes idle: each of its steps lowers `Work`, a step is
      possible while `Work` is positive, and at zero with nothing in transit the test answers true. */
  lemma LiveWorkerBecomesIdle(s: State)
    requires Reachable(s) && Live(s)
    ensures forall a :: WorkerStep(a) && Enabled(s, a) ==> Work(Apply(s, a)) < Work(s) && Live(Apply(s, a))
    ensures Work(s) > 0 ==> WorkerStep(NextStep(s.worker)) && Enabled(s, NextStep(s.worker))
    ensures Work(s) == 0 && s.inTransit == {} ==> s.shared.Idle()
  {
    hide Inv, Apply;
    ReachableInv(s);
    forall a | WorkerStep(a) && Enabled(s, a) ensures Work(Apply(s, a)) < Work(s) && Live(Apply(s, a)) {
      WorkerStepProgresses(s, a);
    }
    if Work(s) == 0 && s.inTransit == {} {
      RestIsIdle(s);
    }
  }

  // ------------------------------------------------------------ stopping pitfalls

  /** A dead worker that still shows a current rollout. */
  predicate Stranded(s: State) { s.worker == Dead && s.shared.current.Some? }

  /** The current rollout shown is exactly the one being handled or, between jobs and after the worker's
      end, the last one released if it was abandoned at the stop check. */
  lemma CurrentIsExact(s: State)
    requires Reachable(s)
    ensures s.shared.current == Shown(s)
  {
    ReachableInv(s);
  }

  /** A dead worker is stranded exactly when the last job it released was abandoned. */
  lemma StrandedExactly(s: State)
    requires Reachable(s) && s.worker == Dead
    ensures Stranded(s) <==> s.done != [] && s.done[|s.done| - 1].ending == Abandoned
  {
    ReachableInv(s);
  }

  /** From any state that shows a current rollout the idle test stays false until the worker clears one
      after a completed run; starting the worker again does not help by itself. */
  lemma {:induction false} NeverIdleUntilCleared(states: seq<State>, actions: seq<Action>, i: nat)
    requires Execution(states, actions) && states[0].shared.current.Some?
    requires ClearCurrent !in actions && i < |states|
    ensures states[i].shared.current.Some? && !states[i].shared.Idle()
  {
    if i > 0 {
      NeverIdleUntilCleared(states, actions, i - 1);
      assert actions[i - 1] in actions;
    }
  }

  /** A stop during the idle delay strands the worker. */
  lemma StrandedReachable(job: Job)
    ensures exists s :: Reachable(s) && Stranded(s) && s.done == [Done(job, Abandoned)] && s.shared.enqueued == {}
  {
    hide Reachable;
    var s := FirstJobTaken(job);
    ReachableStep(s, Mark);
    s := Apply(s, Mark);
    ReachableStep(s, SetStop);
    s := Apply(s, SetStop);
    ReachableStep(s, EndDelay);
    s := Apply(s, EndDelay);
    ReachableStep(s, Release);
    s := Apply(s, Release);
  }

  lemma {:induction false} SentinelsMember(queue: seq<Item>)
    ensures Sentinels(queue) > 0 <==> Sentinel in queue
  {
    if queue != [] {
      SentinelsMember(queue[..|queue| - 1]);
      assert queue == queue[..|queue| - 1] + [queue[|queue| - 1]];
    }
  }

  /** A sentinel is left in the queue exactly when more of them were put than the worker took: every end
      of the worker at a stop check leaves one behind. */
  lemma SentinelsLeftExactly(s: State)
    requires Reachable(s)
    ensures Sentinels(s.shared.queue) == s.sentinelsPut - s.sentinelsTaken
    ensures Sentinel in s.shared.queue <==> s.sentinelsPut > s.sentinelsTaken
  {
    ReachableInv(s);
    SentinelsMember(s.shared.queue);
  }

  ghost function Stops(actions: seq<Action>): nat {
    if actions == [] then 0 else Stops(actions[..|actions| - 1]) + if actions[|actions| - 1] == SetStop then 1 else 0
  }

  /** Every stop owes one sentinel, and no more are ever put. */
  lemma {:induction false} OneSentinelPerStop(states: seq<State>, actions: seq<Action>, i: nat)
    requires Execution(states, actions) && states[0] == Init() && i < |states|
    ensures states[i].sentinels + states[i].sentinelsPut == Stops(actions[..i])
  {
    if i > 0 {
      OneSentinelPerStop(states, actions, i - 1);
      assert Step(states[i - 1], actions[i - 1], states[i - 1 + 1]);
      assert actions[..i][..i - 1] == actions[..i - 1];
    }
  }

  /** A restarted worker ends at its first take exactly when a sentinel heads the queue; it then leaves
      the jobs behind it unreviewed, and otherwise it takes up the oldest job. */
  lemma RestartEndsExactly(s: State)
    requires s.worker == Dead && s.shared.queue != []
    ensures var t := Apply(Apply(Apply(s, Start), Check), Get);
      && (t.worker == Dead <==> s.shared.queue[0] == Sentinel)
      && (t.worker != Dead ==> t.worker == Taken(s.shared.queue[0].job))
      && Jobs(s.shared.queue) == (if t.worker == Dead then [] else [s.shared.queue[0].job]) + Jobs(t.shared.queue)
      && t.runs == s.runs && t.shared.enqueued == s.shared.enqueued
  {
    hide Jobs;
    JobsPop(s.shared.queue);
  }

  /** The number of jobs ahead of the first sentinel. */
  ghost function JobsAhead(queue: seq<Item>): nat {
    if queue == [] || queue[0] == Sentinel then 0 else 1 + JobsAhead(queue[1..])
  }

  lemma {:induction false} AheadOfAppend(queue: seq<Item>, item: Item)
    requires Sentinel in queue
    ensures JobsAhead(queue + [item]) == JobsAhead(queue)
  {
    if queue[0] != Sentinel {
      assert (queue + [item])[1..] == queue[1..] + [item];
      AheadOfAppend(queue[1..], item);
    }
  }

  /** Jobs the worker may still start before it reaches the sentinel. */
  ghost function StartsLeft(s: State): nat {
    JobsAhead(s.shared.queue) + if s.worker.Taken? || s.worker.Delaying? then 1 else 0
  }

  lemma StaleStep(s: State, a: Action)
    requires Enabled(s, a) && Sentinel in s.shared.queue && a != Start
    ensures var t := Apply(s, a);
      && |t.runs| <= |s.runs| + StartsLeft(s)
      && (t.worker == Dead
          || (Sentinel in t.shared.queue && |t.runs| + StartsLeft(t) <= |s.runs| + StartsLeft(s)))
  {
    if a.Put? {
      AheadOfAppend(s.shared.queue, Task(a.job));
    } else if a.PutSentinel? {
      AheadOfAppend(s.shared.queue, Sentinel);
    } else if a.Get? {
      assert s.shared.queue == [s.shared.queue[0]] + s.shared.queue[1..];
    }
  }

  lemma DeadStaysDead(s: State, a: Action)
    requires Enabled(s, a) && s.worker == Dead && a != Start
    ensures Apply(s, a).worker == Dead && Apply(s, a).runs == s.runs
  {
  }

  /** With a sentinel waiting, however many jobs arrive behind it, the worker starts no more than the jobs
      ahead of it until it is started again. */
  lemma {:induction false} StaleSentinelBoundsRuns(states: seq<State>, actions: seq<Action>, i: nat)
    requires Execution(states, actions) && Sentinel in states[0].shared.queue
    requires Start !in actions && i < |states|
    ensures |states[i].runs| <= |states[0].runs| + StartsLeft(states[0])
    ensures states[i].worker == Dead ||
      (Sentinel in states[i].shared.queue
       && |states[i].runs| + StartsLeft(states[i]) <= |states[0].runs| + StartsLeft(states[0]))
  {
    hide Apply, Enabled, StartsLeft;
    if i > 0 {
      var s, a := states[i - 1], actions[i - 1];
      StaleSentinelBoundsRuns(states, actions, i - 1);
      assert a in actions;
      if s.worker == Dead {
        DeadStaysDead(s, a);
      } else {
        StaleStep(s, a);
      }
    }
  }

  lemma ReachableStep(s: State, a: Action)
    requires Reachable(s) && Enabled(s, a)
    ensures Reachable(Apply(s, a))
  {
    hide Apply, Enabled;
    T.ReachesStep(Starts, Step, s, a, Apply(s, a));
  }

  lemma ReachableInit()
    ensures Reachable(Init())
  {
    T.ReachesInit(Starts, Step, Init());
  }

  /** A worker that notices the stop event before it takes the sentinel leaves it behind. */
  lemma StaleSentinelReachable()
    ensures exists s :: Reachable(s) && s.worker == Dead && s.shared.queue == [Sentinel]
  {
    ReachableInit();
    ReachableStep(Init(), Start);
    var started := Apply(Init(), Start);
    ReachableStep(started, SetStop);
    var stopping := Apply(started, SetStop);
    ReachableStep(stopping, PutSentinel);
    var waiting := Apply(stopping, PutSentinel);
    ReachableStep(waiting, Check);
    assert Apply(waiting, Check).shared.queue == [Sentinel];
  }

  // --------------------------------------------------------------- listed names

  function Untaken(s: State): seq<Job> {
    (if s.worker.Taken? then [s.worker.job] else []) + Jobs(s.shared.queue)
  }

  /** Jobs whose names the status list should show. */
  ghost function Listed(s: State): set<Job> {
    s.inTransit + set j | j in Untaken(s)
  }

  ghost function Namesakes(jobs: set<Job>, name: int): set<Job> {
    set j | j in jobs && j.path.name == name
  }

  /** The status list shows each name as often as there are listed jobs of that name. */
  ghost predicate NamesExact(s: State) {
    forall n :: multiset(s.shared.queuedNames)[n] == |Namesakes(Listed(s), n)|
  }

  /** The step is the release of a job while another job of its name is still listed. */
  ghost predicate DropsNamesake(s: State, a: Action) {
    a.Release? && s.worker.Releasing? && Namesakes(Listed(s), s.worker.job.path.name) != {}
  }

  lemma {:induction false} WithoutCount(names: seq<int>, name: int)
    ensures multiset(Without(names, name)) == multiset(names) - multiset{name}
  {
    if names != [] {
      assert names == [names[0]] + names[1..];
      WithoutCount(names[1..], name);
    }
  }

  lemma NamesakesPlus(jobs: set<Job>, job: Job, n: int)
    requires job !in jobs
    ensures |Namesakes(jobs + {job}, n)| == |Namesakes(jobs, n)| + if job.path.name == n then 1 else 0
  {
    if job.path.name == n {
      assert Namesakes(jobs + {job}, n) == Namesakes(jobs, n) + {job};
    } else {
      assert Namesakes(jobs + {job}, n) == Namesakes(jobs, n);
    }
  }

  lemma UntakenInLine(s: State)
    ensures forall j :: j in Untaken(s) ==> j in Line(s)
    ensures !s.worker.Taken? && Held(s.worker) != [] && DistinctPaths(Line(s)) ==>
      forall j :: j in Untaken(s) ==> j.path != s.worker.job.path
  {
    if !s.worker.Taken? && Held(s.worker) != [] && DistinctPaths(Line(s)) {
      forall j | j in Untaken(s) ensures j.path != s.worker.job.path {
        var i :| 0 <= i < |Jobs(s.shared.queue)| && Jobs(s.shared.queue)[i] == j;
        assert Line(s)[i + 1] == j && Line(s)[0] == s.worker.job;
      }
    }
  }

  /** How each step moves the jobs that the status list should show. */
  lemma ListedAfter(s: State, a: Action)
    requires Enabled(s, a) && !a.Mark?
    ensures Listed(Apply(s, a)) == if a.Claim? then Listed(s) + {a.job} else Listed(s)
  {
    hide Jobs;
    match a
    case Put(job) => JobsAppend(s.shared.queue, Task(job));
    case Get =>
      JobsPop(s.shared.queue);
      GetKeepsUntaken(s);
    case PutSentinel => JobsAppend(s.shared.queue, Sentinel);
    case _ =>
  }

  lemma GetKeepsUntaken(s: State)
    requires Enabled(s, Get)
    ensures Untaken(Apply(s, Get)) == Untaken(s)
  {
    hide Jobs;
    JobsPop(s.shared.queue);
  }

  /** Marking takes the job off the list: it was listed once. */
  lemma ListedAfterMark(s: State)
    requires Inv(s) && Enabled(s, Mark)
    ensures s.worker.job in Listed(s) && Listed(Apply(s, Mark)) == Listed(s) - {s.worker.job}
  {
    hide Jobs;
    var job, queued := s.worker.job, Jobs(s.shared.queue);
    assert Line(s) == [job] + queued;
    HeadIsAlone(job, queued);
    assert job in Line(s) && job !in s.inTransit;
  }

  lemma HeadIsAlone(job: Job, rest: seq<Job>)
    requires DistinctPaths([job] + rest)
    ensures job !in rest
  {
    var line := [job] + rest;
    forall i | 0 <= i < |rest| ensures rest[i] != job {
      assert line[i + 1] == rest[i] && line[0] == job;
    }
  }

  lemma ClaimIsNew(s: State, job: Job)
    requires Inv(s) && Enabled(s, Claim(job))
    ensures job !in Listed(s)
  {
    UntakenInLine(s);
  }

  lemma ClaimNames(s: State, job: Job)
    requires Inv(s) && NamesExact(s) && Enabled(s, Claim(job))
    ensures NamesExact(Apply(s, Claim(job)))
  {
    hide Inv, Listed, Namesakes;
    var t := Apply(s, Claim(job));
    ClaimIsNew(s, job);
    ListedAfter(s, Claim(job));
    forall n ensures multiset(t.shared.queuedNames)[n] == |Namesakes(Listed(t), n)| {
      NamesakesPlus(Listed(s), job, n);
    }
  }

  lemma MarkNames(s: State)
    requires Inv(s) && NamesExact(s) && Enabled(s, Mark)
    ensures NamesExact(Apply(s, Mark))
  {
    hide Inv, Listed, Namesakes, Without;
    var t, job := Apply(s, Mark), s.worker.job;
    ListedAfterMark(s);
    WithoutCount(s.shared.queuedNames, job.path.name);
    assert Listed(s) == Listed(t) + {job};
    var before, after := multiset(s.shared.queuedNames), multiset(t.shared.queuedNames);
    forall n ensures after[n] == |Namesakes(Listed(t), n)| {
      NamesakesPlus(Listed(t), job, n);
      assert before[n] == |Namesakes(Listed(s), n)|;
    }
  }

  lemma ReleaseNames(s: State)
    requires NamesExact(s) && Enabled(s, Release)
    ensures NamesExact(Apply(s, Release)) <==> !DropsNamesake(s, Release)
    ensures DropsNamesake(s, Release) <==> Apply(s, Release).shared.queuedNames != s.shared.queuedNames
  {
    hide Listed, Namesakes;
    var t, name := Apply(s, Release), s.worker.job.path.name;
    ListedAfter(s, Release);
    WithoutCount(s.shared.queuedNames, name);
    var before, after := multiset(s.shared.queuedNames), multiset(t.shared.queuedNames);
    assert before[name] == |Namesakes(Listed(s), name)|;
    if DropsNamesake(s, Release) {
      assert after[name] == before[name] - 1;
      assert |Namesakes(Listed(t), name)| == before[name];
    } else {
      assert name !in before;
      assert name !in s.shared.queuedNames;
    }
  }

  /** An exact list stays exact in every step but one: the release of a job with a listed namesake, which
      drops that namesake's entry. */
  lemma StepNames(s: State, a: Action)
    requires Inv(s) && NamesExact(s) && Enabled(s, a)
    ensures NamesExact(Apply(s, a)) <==> !DropsNamesake(s, a)
  {
    hide Inv, NamesExact;
    match a
    case Mark => MarkNames(s);
    case Claim(job) => ClaimNames(s, job);
    case Release => ReleaseNames(s);
    case _ => OtherNames(s, a);
  }

  lemma OtherNames(s: State, a: Action)
    requires Enabled(s, a) && !a.Mark? && !a.Claim? && !a.Release?
    ensures NamesExact(Apply(s, a)) <==> NamesExact(s)
  {
    hide Listed, Namesakes;
    ListedAfter(s, a);
    assert Apply(s, a).shared.queuedNames == s.shared.queuedNames;
  }

  lemma InitNames()
    ensures NamesExact(Init())
  {
    forall n ensures Namesakes(Listed(Init()), n) == {} {
    }
  }

  /** Over every run the list of queued names is exact throughout if and only if no job was released
      while another job of its name was listed. */
  lemma {:induction false} NamesExactIffNoneDropped(states: seq<State>, actions: seq<Action>, n: nat)
    requires Execution(states, actions) && states[0] == Init() && n < |states|
    ensures (forall i :: 0 <= i <= n ==> NamesExact(states[i]))
      <==> (forall i :: 0 <= i < n ==> !DropsNamesake(states[i], actions[i]))
  {
    hide Inv, NamesExact, DropsNamesake, Apply, Enabled;
    InitNames();
    if n > 0 {
      NamesExactIffNoneDropped(states, actions, n - 1);
      InitInv();
      ExecutionInv(states, actions, n - 1);
      if forall i :: 0 <= i <= n - 1 ==> NamesExact(states[i]) {
        assert NamesExact(states[n - 1]) && Step(states[n - 1], actions[n - 1], states[n - 1 + 1]);
        StepNames(states[n - 1], actions[n - 1]);
      }
    }
  }

  /** Base names tell apart the jobs that are outstanding at the same time. */
  ghost predicate NamesApart(s: State) {
    forall j, k :: Outstanding(s, j) && Outstanding(s, k) && j.path.name == k.path.name ==> j.path == k.path
  }

  ghost predicate Outstanding(s: State, j: Job) { j in s.inTransit || j in Line(s) }

  /** The state is reached by a run in which namesakes were never outstanding together. */
  ghost predicate ReachableApart(s: State) {
    exists states, actions :: ApartRun(states, actions) && states[|actions|] == s
  }

  ghost predicate ApartRun(states: seq<State>, actions: seq<Action>) {
    && Execution(states, actions) && states[0] == Init()
    && forall i :: 0 <= i < |states| ==> NamesApart(states[i])
  }

  lemma ApartDropsNothing(s: State, a: Action)
    requires Inv(s) && NamesApart(s)
    ensures !DropsNamesake(s, a)
  {
    if a.Release? && s.worker.Releasing? {
      var job := s.worker.job;
      UntakenInLine(s);
      assert Line(s)[0] == job && job in Line(s);
      forall j | j in Listed(s) ensures j.path.name != job.path.name {
        assert Outstanding(s, j) && Outstanding(s, job);
      }
    }
  }

  lemma ApartCounts(s: State, n: int)
    requires Inv(s) && NamesApart(s)
    ensures |Namesakes(Listed(s), n)| <= 1
  {
    UntakenInLine(s);
    var named := Namesakes(Listed(s), n);
    forall j, k | j in named && k in named ensures j == k {
      assert Outstanding(s, j) && Outstanding(s, k);
      if j in Line(s) && k in Line(s) {
        var x :| 0 <= x < |Line(s)| && Line(s)[x] == j;
        var y :| 0 <= y < |Line(s)| && Line(s)[y] == k;
      }
    }
    if named != {} {
      var j :| j in named;
      assert named == {j};
    }
  }

  ghost predicate Lists(names: seq<int>, jobs: set<Job>) {
    && NoDuplicates(names)
    && (forall j :: j in jobs ==> j.path.name in names)
    && (forall n :: n in names ==> exists j :: j in jobs && j.path.name == n)
  }

  lemma CountedOnce(names: seq<int>)
    requires forall n :: multiset(names)[n] <= 1
    ensures NoDuplicates(names)
  {
    forall i, j | 0 <= i < j < |names| ensures names[i] != names[j] {
      assert names == names[..j] + [names[j]] + names[j + 1..];
      assert names[i] in names[..j];
      var n := names[j];
      assert multiset(names)[n] <= 1;
    }
  }

  lemma ExactLists(s: State)
    requires Inv(s) && NamesApart(s) && NamesExact(s)
    ensures Lists(s.shared.queuedNames, Listed(s))
  {
    hide Inv, Listed, NamesApart;
    var names, jobs := s.shared.queuedNames, Listed(s);
    forall n ensures multiset(names)[n] <= 1 {
      ApartCounts(s, n);
      assert multiset(names)[n] == |Namesakes(jobs, n)|;
    }
    CountedOnce(names);
    forall j | j in jobs ensures j.path.name in names {
      assert j in Namesakes(jobs, j.path.name);
      assert multiset(names)[j.path.name] == |Namesakes(jobs, j.path.name)|;
    }
    forall n | n in names ensures exists j :: j in jobs && j.path.name == n {
      assert multiset(names)[n] == |Namesakes(jobs, n)|;
      var j :| j in Namesakes(jobs, n);
    }
  }

  /** While namesakes are never outstanding together, the status list names exactly the jobs not yet
      taken up, each once, and the second removal of a name never drops the entry of another job. */
  lemma QueuedNamesExact(s: State)
    requires ReachableApart(s)
    ensures Lists(s.shared.queuedNames, Listed(s))
    ensures s.worker.Releasing? ==> Released(s.shared, s.worker.job.path).queuedNames == s.shared.queuedNames
  {
    hide Inv, NamesApart, Listed, DropsNamesake, Apply, NamesExact, Lists;
    var states, actions :| ApartRun(states, actions) && states[|actions|] == s;
    InitInv();
    forall i | 0 <= i < |actions| ensures !DropsNamesake(states[i], actions[i]) {
      ExecutionInv(states, actions, i);
      ApartDropsNothing(states[i], actions[i]);
    }
    NamesExactIffNoneDropped(states, actions, |actions|);
    ExecutionInv(states, actions, |actions|);
    ExactLists(s);
    if s.worker.Releasing? {
      ApartDropsNothing(s, Release);
      ReleaseKeepsNames(s);
    }
  }

  lemma ReleaseKeepsNames(s: State)
    requires NamesExact(s) && s.worker.Releasing? && !DropsNamesake(s, Release)
    ensures Released(s.shared, s.worker.job.path).queuedNames == s.shared.queuedNames
  {
    hide NamesExact, DropsNamesake;
    ReleaseNames(s);
  }

  /** Everything outstanding was accepted. */
  lemma OutstandingAccepted(s: State)
    requires Inv(s)
    ensures forall j :: j in s.inTransit || j in Line(s) ==> j in s.accepted
  {
    forall j | j in s.inTransit || j in Line(s) ensures j in s.accepted {
      if j in Line(s) { assert j in s.puts; }
      assert j in multiset(s.accepted);
    }
  }

  /** Two rollouts with one base name: releasing the first drops the name of the second, still queued. */
  lemma SharedNameIsDropped(args: Args)
    ensures exists s :: Reachable(s) && Listed(s) != {} && s.shared.queuedNames == []
  {
    var first, second := Job(Path(1, 7), args), Job(Path(2, 7), args);
    var taken := HandOver(first);
    ReachableStep(taken, Claim(second));
    var both := Apply(taken, Claim(second));
    ReachableStep(both, EndRun(true));
    var ended := Apply(both, EndRun(true));
    ReachableStep(ended, ClearCurrent);
    var cleared := Apply(ended, ClearCurrent);
    ReachableStep(cleared, Release);
    var s := Apply(cleared, Release);
    assert s.shared.queuedNames == [] && second in Listed(s);
  }

  /** A fresh worker takes up its first job. */
  lemma HandOver(job: Job) returns (s: State)
    ensures Reachable(s) && s.worker == Running(job)
    ensures s.inTransit == {} && s.shared.enqueued == {job.path} && s.shared.queuedNames == []
  {
    hide Reachable;
    s := FirstJobTaken(job);
    ReachableStep(s, Mark);
    s := Apply(s, Mark);
    ReachableStep(s, EndDelay);
    s := Apply(s, EndDelay);
  }

  lemma FirstJobTaken(job: Job) returns (s: State)
    ensures Reachable(s) && s.worker == Taken(job)
    ensures s.inTransit == {} && s.shared.enqueued == {job.path} && s.shared.queuedNames == [job.path.name]
    ensures !s.shared.stopped && s.done == []
  {
    hide Reachable;
    ReachableInit();
    ReachableStep(Init(), Claim(job));
    s := Apply(Init(), Claim(job));
    ReachableStep(s, Put(job));
    s := Apply(s, Put(job));
    ReachableStep(s, Start);
    s := Apply(s, Start);
    ReachableStep(s, Check);
    s := Apply(s, Check);
    ReachableStep(s, Get);
    s := Apply(s, Get);
  }
}
