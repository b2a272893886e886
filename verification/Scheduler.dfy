/** The inference scheduler as a transition system (src/inference/InferenceScheduler.cc): every
    step is one critical section, or one action between critical sections, of some thread. */
module Schedulers {
  import opened Text
  import opened ModelRegistries

  datatype SubmitResult = Accepted | QueueFull | Stopped | BackendUnavailable | ModelUnavailable

  datatype Request = Request(id: nat, model: string, requested: BackendType)

  /** A queued task carries the model name and the backend resolved when it was submitted. */
  datatype Task = Task(request: Request, model: string, backend: Backend)

  /** Where a worker thread is: about to take the lock and look, asleep in the condition variable,
      inside `infer` and the completion callback, or returned. */
  datatype Worker = Ready | Waiting | Running(task: Task) | Exited

  /** Where the thread inside `stop` is. */
  datatype Stopper = Idle | Flagged | Notified

  /** The fields of the scheduler, its registry and threads, and the history of the run: `choices`
      is the registry each accepted task was submitted under, `base` how much had been accepted when
      the backends were last loaded. */
  datatype State = State(
    registry: Registry, running: bool, stopping: bool, tasks: seq<Task>, workers: seq<Worker>,
    stopper: Stopper, base: nat, accepted: seq<Task>, choices: seq<Registry>,
    dequeued: seq<Task>, completed: seq<Task>)

  /** Fixed at construction. */
  datatype Config = Config(workerCount: nat, queueCapacity: nat)

  function New(registry: Registry): State {
    State(registry, false, false, [], [], Idle, 0, [], [], [], [])
  }

  /** `Start` carries the outcome of loading each registered backend. */
  datatype Step =
    | Start(loads: seq<bool>)
    | Submit(request: Request, woken: Option<nat>)
    | Check(worker: nat)
    | Wake(worker: nat)
    | Finish(worker: nat)
    | BeginStop
    | NotifyAll
    | Join

  // ---------- the steps ----------

  function Verdict(c: Config, s: State, request: Request): SubmitResult {
    if !s.running || s.stopping then Stopped
    else if !HasModel(s.registry, request.model) then ModelUnavailable
    else if Resolve(s.registry, request.model, request.requested).None? then BackendUnavailable
    else if |s.tasks| >= c.queueCapacity then QueueFull
    else Accepted
  }

  function TaskFor(s: State, request: Request): Task
    requires Resolve(s.registry, request.model, request.requested).Some?
  {
    Task(request, ModelName(s.registry, request.model),
         Resolve(s.registry, request.model, request.requested).value)
  }

  function Enqueued(s: State, task: Task): State {
    s.(tasks := s.tasks + [task], accepted := s.accepted + [task], choices := s.choices + [s.registry])
  }

  predicate IsWaiting(s: State, w: nat) {
    w < |s.workers| && s.workers[w].Waiting?
  }

  predicate SomeoneWaits(s: State) {
    exists w :: 0 <= w < |s.workers| && s.workers[w].Waiting?
  }

  function SetWorker(s: State, w: nat, pc: Worker): State
    requires w < |s.workers|
  {
    s.(workers := s.workers[w := pc])
  }

  predicate AllExited(s: State) {
    forall w :: 0 <= w < |s.workers| ==> s.workers[w].Exited?
  }

  function WakeAll(workers: seq<Worker>): seq<Worker> {
    seq(|workers|, w requires 0 <= w < |workers| => if workers[w].Waiting? then Ready else workers[w])
  }

  /** When a thread may take the step. `notify_one` wakes exactly one sleeper if there is one;
      `Wake` is a spurious wakeup. */
  predicate Enabled(c: Config, s: State, step: Step) {
    match step
    case Start(loads) => |loads| == |s.registry.registrations|
    case Submit(request, woken) =>
      if Verdict(c, s, request).Accepted? && SomeoneWaits(s) then woken.Some? && IsWaiting(s, woken.value)
      else woken.None?
    case Check(w) => w < |s.workers| && s.workers[w].Ready?
    case Wake(w) => IsWaiting(s, w)
    case Finish(w) => w < |s.workers| && s.workers[w].Running?
    case BeginStop => s.stopper.Idle?
    case NotifyAll => s.stopper.Flagged?
    case Join => s.stopper.Notified? && AllExited(s)
  }

  function Next(c: Config, s: State, step: Step): State
    requires Enabled(c, s, step)
  {
    match step
    case Start(loads) =>
      if s.running || c.workerCount == 0 || c.queueCapacity == 0 then s
      else
        var s' := s.(registry := Initialized(s.registry, loads), base := |s.accepted|);
        if !AnyAvailable(s.registry, loads) then s'
        else s'.(stopping := false, running := true,
                 workers := seq(c.workerCount, _ => Ready))
    case Submit(request, woken) =>
      if !Verdict(c, s, request).Accepted? then s
      else
        var s' := Enqueued(s, TaskFor(s, request));
        if woken.Some? then SetWorker(s', woken.value, Ready) else s'
    case Check(w) => Checked(s, w)
    case Wake(w) => SetWorker(s, w, Ready)
    case Finish(w) => SetWorker(s, w, Ready).(completed := s.completed + [s.workers[w].task])
    case BeginStop => if s.running then s.(stopping := true, stopper := Flagged) else s
    case NotifyAll => s.(workers := WakeAll(s.workers), stopper := Notified)
    case Join => s.(workers := [], running := false, stopping := false, stopper := Idle)
  }

  /** The worker's critical section: exit, sleep, or take the front task. */
  function Checked(s: State, w: nat): State
    requires w < |s.workers|
  {
    if s.tasks != [] then
      SetWorker(s, w, Running(s.tasks[0])).(tasks := s.tasks[1..], dequeued := s.dequeued + [s.tasks[0]])
    else SetWorker(s, w, if s.stopping then Exited else Waiting)
  }

  // ---------- runs ----------

  predicate IsRun(c: Config, from: State, steps: seq<Step>)
    decreases |steps|, 0
  {
    steps == [] || (IsRun(c, from, steps[..|steps| - 1])
                    && Enabled(c, After(c, from, steps[..|steps| - 1]), steps[|steps| - 1]))
  }

  function After(c: Config, from: State, steps: seq<Step>): State
    requires IsRun(c, from, steps)
    decreases |steps|, 1
  {
    if steps == [] then from
    else Next(c, After(c, from, steps[..|steps| - 1]), steps[|steps| - 1])
  }

  // ---------- the invariant ----------

  function CountReady(workers: seq<Worker>): nat {
    if workers == [] then 0
    else CountReady(workers[..|workers| - 1]) + if workers[|workers| - 1].Ready? then 1 else 0
  }

  function InFlight(workers: seq<Worker>): multiset<Task> {
    if workers == [] then multiset{}
    else
      var last := workers[|workers| - 1];
      InFlight(workers[..|workers| - 1]) + if last.Running? then multiset{last.task} else multiset{}
  }

  /** Safety: accepted tasks are the dequeued ones followed by the queued ones, in that order; each
      dequeued one is in flight or completed; the queue respects its capacity. */
  ghost predicate Safe(c: Config, s: State) {
    && s.accepted == s.dequeued + s.tasks
    && multiset(s.dequeued) == InFlight(s.workers) + multiset(s.completed)
    && |s.tasks| <= c.queueCapacity
    && s.base <= |s.dequeued|
  }

  /** Every accepted task carries what the registry chose when it was submitted, and for the tasks
      still queued or in flight that is the registry of now. */
  ghost predicate WellRouted(s: State) {
    && |s.choices| == |s.accepted|
    && (forall i :: 0 <= i < |s.accepted| ==> Routed(s.choices[i], s.accepted[i]))
    && (forall i :: s.base <= i < |s.accepted| ==> s.choices[i] == s.registry)
    && (forall w :: 0 <= w < |s.workers| && s.workers[w].Running? ==> Routed(s.registry, s.workers[w].task))
  }

  ghost predicate Routed(registry: Registry, t: Task) {
    && t.model == ModelName(registry, t.request.model)
    && Resolve(registry, t.request.model, t.request.requested) == Some(t.backend)
  }

  /** No lost wakeup: a worker sleeps only while the others can take every queued task. */
  ghost predicate NoLostWakeup(s: State) {
    SomeoneWaits(s) ==> |s.tasks| <= CountReady(s.workers)
  }

  /** How the life cycle ties the flags, the queue and the threads together. */
  ghost predicate LifeCycle(c: Config, s: State) {
    && WellFormed(s.registry)
    && (s.stopper.Idle? <==> !s.stopping)
    && (s.stopping ==> s.running)
    && (s.running <==> s.workers != [])
    && (s.workers != [] ==> |s.workers| == c.workerCount)
    && (!s.running ==> s.tasks == [])
    && ((exists w :: 0 <= w < |s.workers| && s.workers[w].Exited?) ==> s.stopping && s.tasks == [])
    && (s.stopper.Notified? ==> !SomeoneWaits(s))
  }

  ghost predicate Core(c: Config, s: State) {
    Safe(c, s) && NoLostWakeup(s) && LifeCycle(c, s)
  }

  ghost predicate Inv(c: Config, s: State) {
    Core(c, s) && WellRouted(s)
  }

  // ---------- counting ----------

  lemma {:induction false} CountReadyUpdate(workers: seq<Worker>, w: nat, pc: Worker)
    requires w < |workers|
    ensures CountReady(workers[w := pc]) + (if workers[w].Ready? then 1 else 0)
         == CountReady(workers) + (if pc.Ready? then 1 else 0)
  {
    var front := workers[..|workers| - 1];
    if w < |front| {
      CountReadyUpdate(front, w, pc);
      assert workers[w := pc][..|front|] == front[w := pc];
    } else {
      assert workers[w := pc][..|front|] == front;
    }
  }

  function TaskOf(pc: Worker): multiset<Task> {
    if pc.Running? then multiset{pc.task} else multiset{}
  }

  lemma Exchange(all: multiset<Task>, out: multiset<Task>, more: multiset<Task>, last: multiset<Task>)
    ensures out <= all ==> all - out + more + last == all + last - out + more
    ensures all + out - out + more == all + more
  {
  }

  lemma {:induction false} InFlightUpdate(workers: seq<Worker>, w: nat, pc: Worker)
    requires w < |workers|
    ensures TaskOf(workers[w]) <= InFlight(workers)
    ensures InFlight(workers[w := pc]) == InFlight(workers) - TaskOf(workers[w]) + TaskOf(pc)
  {
    var front, last := workers[..|workers| - 1], workers[|workers| - 1];
    assert InFlight(workers) == InFlight(front) + TaskOf(last);
    var updated := workers[w := pc];
    assert InFlight(updated) == InFlight(updated[..|front|]) + TaskOf(updated[|front|]);
    if w < |front| {
      InFlightUpdate(front, w, pc);
      assert updated[..|front|] == front[w := pc];
      Exchange(InFlight(front), TaskOf(workers[w]), TaskOf(pc), TaskOf(last));
    } else {
      assert updated[..|front|] == front;
      Exchange(InFlight(front), TaskOf(last), TaskOf(pc), multiset{});
    }
  }

  lemma {:induction false} InFlightIdle(workers: seq<Worker>)
    requires forall w :: 0 <= w < |workers| ==> !workers[w].Running?
    ensures InFlight(workers) == multiset{}
  {
    if workers != [] {
      InFlightIdle(workers[..|workers| - 1]);
    }
  }

  lemma {:induction false} WakeAllCounts(workers: seq<Worker>)
    ensures CountReady(workers) <= CountReady(WakeAll(workers))
    ensures InFlight(WakeAll(workers)) == InFlight(workers)
  {
    if workers != [] {
      var front := workers[..|workers| - 1];
      WakeAllCounts(front);
      assert WakeAll(workers)[..|front|] == WakeAll(front);
    }
  }

  // ---------- every step keeps the invariant ----------

  lemma StartKeeps(c: Config, s: State, loads: seq<bool>)
    requires Core(c, s) && Enabled(c, s, Start(loads))
    ensures Core(c, Next(c, s, Start(loads)))
  {
    var s' := Next(c, s, Start(loads));
    InitializedWellFormed(s.registry, loads);
    if s'.running != s.running {
      InFlightIdle(s'.workers);
    }
  }

  lemma SubmitKeeps(c: Config, s: State, request: Request, woken: Option<nat>)
    requires Core(c, s) && Enabled(c, s, Submit(request, woken))
    ensures Core(c, Next(c, s, Submit(request, woken)))
  {
    hide Safe, LifeCycle, TaskFor;
    if Verdict(c, s, request).Accepted? {
      AcceptedIsRouted(c, s, request);
      var task := TaskFor(s, request);
      hide Verdict;
      EnqueueKeeps(c, s, task);
      if woken.Some? {
        NotifyKeeps(c, Enqueued(s, task), woken.value);
      }
    }
  }

  lemma AcceptedIsRouted(c: Config, s: State, request: Request)
    requires LifeCycle(c, s) && Verdict(c, s, request).Accepted?
    ensures Routed(s.registry, TaskFor(s, request))
    ensures |s.tasks| < c.queueCapacity && s.running && !s.stopping
  {
  }

  /** `notify_one` on a sleeping worker makes room for one more task. */
  lemma NotifyKeeps(c: Config, s: State, w: nat)
    requires Safe(c, s) && LifeCycle(c, s) && IsWaiting(s, w) && |s.tasks| <= CountReady(s.workers) + 1
    ensures Core(c, SetWorker(s, w, Ready))
  {
    CountReadyUpdate(s.workers, w, Ready);
    MoveKeepsSafe(c, s, SetWorker(s, w, Ready), w);
  }

  /** Queueing a task keeps everything but the wakeup bound, which the notification restores. */
  lemma EnqueueKeeps(c: Config, s: State, task: Task)
    requires Core(c, s) && |s.tasks| < c.queueCapacity && s.running && !s.stopping
    ensures Safe(c, Enqueued(s, task)) && LifeCycle(c, Enqueued(s, task))
  {
    assert s.accepted + [task] == s.dequeued + (s.tasks + [task]);
  }

  /** A worker that changes place keeps the balance when the history takes up the difference. */
  lemma MoveKeepsSafe(c: Config, s: State, s': State, w: nat)
    requires Safe(c, s) && w < |s.workers| == |s'.workers|
    requires s'.workers == s.workers[w := s'.workers[w]]
    requires s'.accepted == s.accepted && s'.registry == s.registry && s.base == s'.base <= |s'.dequeued|
    requires s'.dequeued + s'.tasks == s.accepted && |s'.tasks| <= |s.tasks|
    requires multiset(s'.dequeued) == multiset(s.dequeued) + TaskOf(s'.workers[w])
    requires multiset(s'.completed) == multiset(s.completed) + TaskOf(s.workers[w])
    ensures Safe(c, s')
  {
    InFlightUpdate(s.workers, w, s'.workers[w]);
    Balance(InFlight(s.workers), TaskOf(s.workers[w]), TaskOf(s'.workers[w]), multiset(s.completed));
  }

  lemma Balance(flying: multiset<Task>, done: multiset<Task>, taken: multiset<Task>, completed: multiset<Task>)
    requires done <= flying
    ensures flying + completed + taken == (flying - done + taken) + (completed + done)
  {
  }

  lemma CheckKeeps(c: Config, s: State, w: nat)
    requires Core(c, s) && Enabled(c, s, Check(w))
    ensures Core(c, Next(c, s, Check(w)))
  {
    hide Safe;
    var s' := Next(c, s, Check(w));
    CheckKeepsSafe(c, s, w);
    CountReadyUpdate(s.workers, w, s'.workers[w]);
  }

  lemma CheckKeepsSafe(c: Config, s: State, w: nat)
    requires Safe(c, s) && Enabled(c, s, Check(w))
    ensures Safe(c, Next(c, s, Check(w)))
  {
    var s' := Next(c, s, Check(w));
    if s.tasks != [] {
      assert s.dequeued + s.tasks == (s.dequeued + [s.tasks[0]]) + s.tasks[1..];
      assert multiset(s'.dequeued) == multiset(s.dequeued) + multiset{s.tasks[0]};
    }
    MoveKeepsSafe(c, s, s', w);
  }

  lemma WakeKeeps(c: Config, s: State, w: nat)
    requires Core(c, s) && Enabled(c, s, Wake(w))
    ensures Core(c, Next(c, s, Wake(w)))
  {
    CountReadyUpdate(s.workers, w, Ready);
    MoveKeepsSafe(c, s, Next(c, s, Wake(w)), w);
  }

  lemma FinishKeeps(c: Config, s: State, w: nat)
    requires Core(c, s) && Enabled(c, s, Finish(w))
    ensures Core(c, Next(c, s, Finish(w)))
  {
    hide Safe, InFlight;
    CountReadyUpdate(s.workers, w, Ready);
    FinishKeepsSafe(c, s, w);
  }

  lemma FinishKeepsSafe(c: Config, s: State, w: nat)
    requires Safe(c, s) && Enabled(c, s, Finish(w))
    ensures Safe(c, Next(c, s, Finish(w)))
  {
    hide InFlight, CountReady;
    var s', task := Next(c, s, Finish(w)), s.workers[w].task;
    assert multiset(s'.completed) == multiset(s.completed) + multiset{task};
    MoveKeepsSafe(c, s, s', w);
  }

  lemma BeginStopKeeps(c: Config, s: State)
    requires Core(c, s) && Enabled(c, s, BeginStop)
    ensures Core(c, Next(c, s, BeginStop))
  {
    hide InFlight, CountReady;
  }

  lemma NotifyAllKeeps(c: Config, s: State)
    requires Core(c, s) && Enabled(c, s, NotifyAll)
    ensures Core(c, Next(c, s, NotifyAll))
  {
    hide InFlight, CountReady;
    WakeAllCounts(s.workers);
  }

  lemma JoinKeeps(c: Config, s: State)
    requires Core(c, s) && Enabled(c, s, Join)
    ensures Core(c, Next(c, s, Join))
  {
    InFlightIdle(s.workers);
    NobodyInFlight();
    hide InFlight, CountReady;
    assert s.workers[0].Exited?;
  }

  lemma NobodyInFlight()
    ensures InFlight([]) == multiset{} && CountReady([]) == 0
  {
  }

  lemma SubmitRouting(c: Config, s: State, request: Request, woken: Option<nat>)
    requires LifeCycle(c, s) && WellRouted(s) && s.base <= |s.accepted| && Enabled(c, s, Submit(request, woken))
    ensures WellRouted(Next(c, s, Submit(request, woken)))
  {
    if Verdict(c, s, request).Accepted? {
      AcceptedIsRouted(c, s, request);
      hide Routed, Verdict, TaskFor, LifeCycle;
    }
  }

  lemma CheckRouting(s: State, w: nat)
    requires WellRouted(s) && w < |s.workers| && s.base <= |s.dequeued| && s.accepted == s.dequeued + s.tasks
    ensures WellRouted(Checked(s, w))
  {
    hide Routed;
    assert s.tasks != [] ==> s.accepted[|s.dequeued|] == s.tasks[0];
  }

  lemma StartRouting(c: Config, s: State, loads: seq<bool>)
    requires LifeCycle(c, s) && WellRouted(s) && Enabled(c, s, Start(loads))
    ensures WellRouted(Next(c, s, Start(loads)))
  {
    hide Routed, Initialized, AnyAvailable;
  }

  /** Steps that neither accept nor hand out a task. */
  lemma SameRouting(s: State, s': State)
    requires WellRouted(s)
    requires s'.accepted == s.accepted && s'.choices == s.choices && s'.registry == s.registry && s'.base == s.base
    requires forall w :: 0 <= w < |s'.workers| && s'.workers[w].Running? ==>
               w < |s.workers| && s'.workers[w] == s.workers[w]
    ensures WellRouted(s')
  {
    hide Routed;
  }

  /** Routing is settled at submission; loading the backends anew happens only with no task left. */
  lemma RoutingKeeps(c: Config, s: State, step: Step)
    requires Inv(c, s) && Enabled(c, s, step)
    ensures WellRouted(Next(c, s, step))
  {
    hide WellRouted, NoLostWakeup, InFlight, Verdict;
    match step {
      case Start(loads) => StartRouting(c, s, loads);
      case Submit(request, woken) => SubmitRouting(c, s, request, woken);
      case Check(w) => CheckRouting(s, w);
      case _ => SameRouting(s, Next(c, s, step));
    }
  }

  lemma StepKeeps(c: Config, s: State, step: Step)
    requires Inv(c, s) && Enabled(c, s, step)
    ensures Inv(c, Next(c, s, step))
  {
    RoutingKeeps(c, s, step);
    match step {
      case Start(loads) => StartKeeps(c, s, loads);
      case Submit(request, woken) => SubmitKeeps(c, s, request, woken);
      case Check(w) => CheckKeeps(c, s, w);
      case Wake(w) => WakeKeeps(c, s, w);
      case Finish(w) => FinishKeeps(c, s, w);
      case BeginStop => BeginStopKeeps(c, s);
      case NotifyAll => NotifyAllKeeps(c, s);
      case Join => JoinKeeps(c, s);
    }
  }

  /** All interleavings: the invariant holds after every run of a new scheduler. */
  lemma {:induction false} RunsAreSafe(c: Config, registry: Registry, steps: seq<Step>)
    requires WellFormed(registry) && IsRun(c, New(registry), steps)
    ensures Inv(c, After(c, New(registry), steps))
  {
    if steps != [] {
      RunsAreSafe(c, registry, steps[..|steps| - 1]);
      StepKeeps(c, After(c, New(registry), steps[..|steps| - 1]), steps[|steps| - 1]);
    }
  }

  /** Every accepted task is queued, in flight or completed, none of them twice; tasks leave the
      queue in the order they were accepted; the queue keeps its bound; and a sleeping worker means
      that enough others are on their way to the queue. */
  lemma EveryRun(c: Config, registry: Registry, steps: seq<Step>)
    requires WellFormed(registry) && IsRun(c, New(registry), steps)
    ensures var s := After(c, New(registry), steps);
            && multiset(s.accepted) == multiset(s.tasks) + InFlight(s.workers) + multiset(s.completed)
            && (forall t :: multiset(s.completed)[t] <= multiset(s.accepted)[t])
            && s.dequeued <= s.accepted
            && |s.tasks| <= c.queueCapacity
            && |s.choices| == |s.accepted|
            && (forall i :: 0 <= i < |s.accepted| ==> Routed(s.choices[i], s.accepted[i]))
            && (forall t :: t in s.tasks || t in InFlight(s.workers) ==> Routed(s.registry, t))
            && (SomeoneWaits(s) ==> |s.tasks| <= CountReady(s.workers))
  {
    RunsAreSafe(c, registry, steps);
    hide IsRun, After, Safe, LifeCycle, InFlight, CountReady, Routed;
    var s := After(c, New(registry), steps);
    PendingIsRouted(c, s);
    Accounted(c, s);
  }

  lemma PendingIsRouted(c: Config, s: State)
    requires Safe(c, s) && WellRouted(s)
    ensures forall t :: t in s.tasks || t in InFlight(s.workers) ==> Routed(s.registry, t)
  {
    hide Routed, InFlight;
    forall t | t in s.tasks ensures Routed(s.registry, t) {
      var i :| 0 <= i < |s.tasks| && s.tasks[i] == t;
      assert s.accepted[|s.dequeued| + i] == t;
    }
    forall t | t in InFlight(s.workers) ensures Routed(s.registry, t) {
      var w := InFlightWorker(s.workers, t);
    }
  }

  lemma {:induction false} InFlightWorker(workers: seq<Worker>, t: Task) returns (w: nat)
    requires t in InFlight(workers)
    ensures w < |workers| && workers[w] == Running(t)
  {
    w := |workers| - 1;
    if workers[w] != Running(t) {
      w := InFlightWorker(workers[..|workers| - 1], t);
    }
  }

  lemma Accounted(c: Config, s: State)
    requires Safe(c, s)
    ensures multiset(s.accepted) == multiset(s.tasks) + InFlight(s.workers) + multiset(s.completed)
    ensures forall t :: multiset(s.completed)[t] <= multiset(s.accepted)[t]
    ensures s.dequeued <= s.accepted && |s.tasks| <= c.queueCapacity
  {
    hide Routed, InFlight;
    assert multiset(s.accepted) == multiset(s.dequeued) + multiset(s.tasks);
  }

  lemma {:induction false} ReadyExists(workers: seq<Worker>) returns (w: nat)
    requires CountReady(workers) > 0
    ensures w < |workers| && workers[w].Ready?
  {
    if workers[|workers| - 1].Ready? {
      w := |workers| - 1;
    } else {
      w := ReadyExists(workers[..|workers| - 1]);
    }
  }

  /** A queued task is never stranded: some worker is on its way to the queue or busy, and can step. */
  lemma QueueIsServed(c: Config, s: State) returns (step: Step)
    requires Inv(c, s) && s.tasks != []
    ensures Enabled(c, s, step) && (step.Check? || step.Finish?)
  {
    if SomeoneWaits(s) {
      var w := ReadyExists(s.workers);
      step := Check(w);
    } else {
      var pc := s.workers[0];
      assert !pc.Waiting? && !pc.Exited?;
      step := if pc.Ready? then Check(0) else Finish(0);
    }
  }

  // ---------- stopping ----------

  function Weight(pc: Worker): nat {
    match pc
    case Ready => 1
    case Waiting => 2
    case Running(_) => 2
    case Exited => 0
  }

  function Load(workers: seq<Worker>): nat {
    if workers == [] then 0 else Load(workers[..|workers| - 1]) + Weight(workers[|workers| - 1])
  }

  /** How many steps a stopping scheduler can still take. */
  function Remaining(s: State): nat {
    3 * |s.tasks| + Load(s.workers) + match s.stopper case Flagged => 1 case _ => 0
  }

  lemma {:induction false} LoadUpdate(workers: seq<Worker>, w: nat, pc: Worker)
    requires w < |workers|
    ensures Load(workers[w := pc]) + Weight(workers[w]) == Load(workers) + Weight(pc)
  {
    var front := workers[..|workers| - 1];
    if w < |front| {
      LoadUpdate(front, w, pc);
      assert workers[w := pc][..|front|] == front[w := pc];
    } else {
      assert workers[w := pc][..|front|] == front;
    }
  }

  lemma {:induction false} LoadWakeAll(workers: seq<Worker>)
    ensures Load(WakeAll(workers)) <= Load(workers)
  {
    if workers != [] {
      var front := workers[..|workers| - 1];
      LoadWakeAll(front);
      assert WakeAll(workers)[..|front|] == WakeAll(front);
    }
  }

  /** The steps of the workers and of the thread in `stop`. */
  predicate Draining(step: Step) {
    step.Check? || step.Wake? || step.Finish? || step.NotifyAll?
  }

  /** Once the stop flag is set nothing is accepted: a submission or another start changes nothing. */
  lemma StoppingRefuses(c: Config, s: State, step: Step)
    requires Inv(c, s) && s.stopping && Enabled(c, s, step)
    requires step.Submit? || step.Start?
    ensures Next(c, s, step) == s
  {
  }

  /** Every other step before the join uses up the measure. */
  lemma DrainStep(c: Config, s: State, step: Step)
    requires Inv(c, s) && s.stopping && Enabled(c, s, step) && Draining(step)
    ensures var s' := Next(c, s, step);
            && s'.stopping && Remaining(s') < Remaining(s) && s'.accepted == s.accepted
  {
    match step {
      case Check(w) => LoadUpdate(s.workers, w, Next(c, s, step).workers[w]);
      case Wake(w) => LoadUpdate(s.workers, w, Ready);
      case Finish(w) => LoadUpdate(s.workers, w, Ready);
      case NotifyAll => LoadWakeAll(s.workers);
    }
  }

  /** So a stopping scheduler cannot run on for ever ... */
  lemma {:induction false} DrainIsBounded(c: Config, s: State, steps: seq<Step>)
    requires Inv(c, s) && s.stopping && IsRun(c, s, steps)
    requires forall i :: 0 <= i < |steps| ==> Draining(steps[i])
    ensures var s' := After(c, s, steps);
            && Inv(c, s') && s'.stopping && s'.accepted == s.accepted
            && |steps| + Remaining(s') <= Remaining(s)
    decreases |steps|
  {
    if steps != [] {
      var front := steps[..|steps| - 1];
      DrainIsBounded(c, s, front);
      DrainStep(c, After(c, s, front), steps[|steps| - 1]);
      StepKeeps(c, After(c, s, front), steps[|steps| - 1]);
    }
  }

  /** ... it is never stuck before the threads can be joined ... */
  lemma DrainProgresses(c: Config, s: State) returns (step: Step)
    requires Inv(c, s) && s.stopping
    ensures Enabled(c, s, step) && (Draining(step) || step.Join?)
  {
    if s.stopper.Flagged? {
      step := NotifyAll;
    } else if AllExited(s) {
      step := Join;
    } else {
      var w :| 0 <= w < |s.workers| && !s.workers[w].Exited?;
      step := if s.workers[w].Ready? then Check(w) else Finish(w);
    }
  }

  /** ... and when `stop` returns, every task ever accepted has completed, exactly once each. */
  lemma StopCompletesEverything(c: Config, s: State)
    requires Inv(c, s) && Enabled(c, s, Join)
    ensures var s' := Next(c, s, Join);
            && s'.tasks == [] && s'.dequeued == s'.accepted
            && multiset(s'.completed) == multiset(s'.accepted)
  {
    InFlightIdle(s.workers);
    assert s.workers[0].Exited?;
    assert s.dequeued + [] == s.dequeued;
  }

  // ---------- when a step does something ----------

  /** Some entry of the model is available under the requested kind. */
  ghost predicate Servable(registry: Registry, name: string, requested: BackendType) {
    exists i ::
      && 0 <= i < |registry.registrations| && registry.registrations[i].available
      && registry.registrations[i].name == (if name == "default" then registry.defaultModel else name)
      && (requested == Auto || registry.registrations[i].kind == requested)
  }

  ghost predicate Registered(registry: Registry, name: string) {
    exists i ::
      && 0 <= i < |registry.registrations|
      && registry.registrations[i].name == (if name == "default" then registry.defaultModel else name)
  }

  lemma ServableMeaning(registry: Registry, name: string, requested: BackendType)
    requires WellFormed(registry)
    ensures Resolve(registry, name, requested).Some? <==> Servable(registry, name, requested)
    ensures HasModel(registry, name) <==> Registered(registry, name)
    ensures Servable(registry, name, requested) ==> Registered(registry, name)
  {
    hide Resolve;
    var rs, model := registry.registrations, ModelName(registry, name);
    ResolveMeaning(registry, name, requested);
    if Servable(registry, name, requested) {
      var i :| 0 <= i < |rs| && rs[i].available && rs[i].name == model && (requested == Auto || rs[i].kind == requested);
      assert SameEntry(rs[i], model, rs[i].kind);
      assert HasBackend(registry, name, rs[i].kind);
    }
  }

  /** The answers to a submission, in the order in which they take precedence. */
  lemma VerdictMeaning(c: Config, s: State, request: Request)
    requires WellFormed(s.registry)
    ensures var v := Verdict(c, s, request);
            var open := s.running && !s.stopping;
            var known := Registered(s.registry, request.model);
            var served := Servable(s.registry, request.model, request.requested);
            && (v == Stopped <==> !open)
            && (v == ModelUnavailable <==> open && !known)
            && (v == BackendUnavailable <==> open && known && !served)
            && (v == QueueFull <==> open && served && |s.tasks| >= c.queueCapacity)
            && (v == Accepted <==> open && served && |s.tasks| < c.queueCapacity)
  {
    hide Resolve, HasModel, Servable, Registered;
    ServableMeaning(s.registry, request.model, request.requested);
  }

  /** A submission adds its task at the end of the queue exactly if the scheduler is running and not
      stopping, some backend can serve it and the queue has room; and then wakes one sleeper, if there
      is one. Otherwise it changes nothing. It can always be made. */
  lemma SubmissionMeaning(c: Config, s: State, request: Request) returns (woken: Option<nat>)
    requires Inv(c, s)
    ensures Enabled(c, s, Submit(request, woken))
    ensures forall woken' :: Enabled(c, s, Submit(request, woken')) ==>
              var s' := Next(c, s, Submit(request, woken'));
              if s.running && !s.stopping && Servable(s.registry, request.model, request.requested)
                 && |s.tasks| < c.queueCapacity
              then exists task, ws :: s' == s.(tasks := s.tasks + [task], accepted := s.accepted + [task],
                                               choices := s.choices + [s.registry], workers := ws)
                                      && task.request == request && Routed(s.registry, task)
                                      && OneWoken(s.workers, ws)
              else s' == s
  {
    hide Servable, Resolve, HasModel, ModelName;
    VerdictMeaning(c, s, request);
    woken := None;
    if Verdict(c, s, request).Accepted? && SomeoneWaits(s) {
      var w :| 0 <= w < |s.workers| && s.workers[w].Waiting?;
      woken := Some(w);
    }
    forall woken' | Enabled(c, s, Submit(request, woken')) && Verdict(c, s, request).Accepted?
      ensures var s' := Next(c, s, Submit(request, woken'));
              exists task, ws :: s' == s.(tasks := s.tasks + [task], accepted := s.accepted + [task],
                                          choices := s.choices + [s.registry], workers := ws)
                                 && task.request == request && Routed(s.registry, task) && OneWoken(s.workers, ws)
    {
      AcceptedIsRouted(c, s, request);
      var s', task := Next(c, s, Submit(request, woken')), TaskFor(s, request);
      assert s' == s.(tasks := s.tasks + [task], accepted := s.accepted + [task],
                      choices := s.choices + [s.registry], workers := s'.workers);
      assert OneWoken(s.workers, s'.workers);
    }
  }

  /** One sleeper is awake now, or there was none. */
  ghost predicate OneWoken(workers: seq<Worker>, workers': seq<Worker>) {
    || (workers' == workers && forall w :: 0 <= w < |workers| ==> !workers[w].Waiting?)
    || exists w :: 0 <= w < |workers| && workers[w].Waiting? && workers' == workers[w := Ready]
  }

  /** Starting a scheduler that is not running: it runs afterwards exactly if it is to have workers
      and a queue and some backend loads; then `workerCount` workers are about to look at the empty
      queue. Loading sets the availability of each entry that has a backend. */
  lemma StartMeaning(c: Config, s: State, loads: seq<bool>)
    requires Inv(c, s) && Enabled(c, s, Start(loads))
    ensures var s', rs := Next(c, s, Start(loads)), s.registry.registrations;
            var usable := c.workerCount > 0 && c.queueCapacity > 0;
            && (s.running ==> s' == s)
            && (!s.running ==>
                  && (s'.running <==> usable && exists i :: 0 <= i < |rs| && rs[i].backend.Some? && loads[i])
                  && (s'.running ==> !s'.stopping && |s'.workers| == c.workerCount
                                     && forall w :: 0 <= w < c.workerCount ==> s'.workers[w] == Ready)
                  && (!s'.running ==> s'.workers == [])
                  && s'.tasks == [] && s'.accepted == s.accepted && s'.completed == s.completed
                  && s'.registry.defaultModel == s.registry.defaultModel
                  && |s'.registry.registrations| == |rs|
                  && forall i :: 0 <= i < |rs| ==>
                       s'.registry.registrations[i]
                       == rs[i].(available := if usable && rs[i].backend.Some? then loads[i] else rs[i].available))
  {
    var s', rs := Next(c, s, Start(loads)), s.registry.registrations;
    if !s.running && c.workerCount > 0 && c.queueCapacity > 0 {
      assert AnyAvailable(s.registry, loads) <==> exists i :: 0 <= i < |rs| && rs[i].backend.Some? && loads[i];
    }
  }

  /** A run that has begun to stop can be carried on until `stop` returns. */
  lemma {:induction false} CanJoin(c: Config, s: State, sofar: seq<Step>) returns (steps: seq<Step>)
    requires IsRun(c, s, sofar) && Inv(c, After(c, s, sofar)) && After(c, s, sofar).stopping
    ensures IsRun(c, s, steps) && sofar < steps && steps[|steps| - 1] == Join
    ensures forall i :: |sofar| <= i < |steps| - 1 ==> Draining(steps[i])
    ensures var e, s' := After(c, s, steps), After(c, s, sofar);
            && !e.running && e.workers == [] && e.tasks == [] && e.accepted == s'.accepted
            && multiset(e.completed) == multiset(e.accepted)
    decreases Remaining(After(c, s, sofar))
  {
    hide Inv, Enabled, Next, Remaining;
    var now := After(c, s, sofar);
    var step := DrainProgresses(c, now);
    var longer := Carry(c, s, sofar, step);
    if step.Join? {
      steps := longer;
      StopCompletesEverything(c, now);
      JoinEnds(c, now);
    } else {
      DrainStep(c, now, step);
      StepKeeps(c, now, step);
      steps := CanJoin(c, s, longer);
      Between(sofar, longer, step, steps);
    }
  }

  lemma Carry(c: Config, s: State, sofar: seq<Step>, step: Step) returns (longer: seq<Step>)
    requires IsRun(c, s, sofar) && Enabled(c, After(c, s, sofar), step)
    ensures longer == sofar + [step] && IsRun(c, s, longer)
    ensures After(c, s, longer) == Next(c, After(c, s, sofar), step)
  {
    hide Enabled, Next;
    longer := sofar + [step];
    assert longer[..|longer| - 1] == sofar;
  }

  lemma JoinEnds(c: Config, s: State)
    requires Enabled(c, s, Join)
    ensures var e := Next(c, s, Join);
            !e.running && e.workers == [] && e.accepted == s.accepted
  {
  }

  lemma Between(sofar: seq<Step>, longer: seq<Step>, step: Step, steps: seq<Step>)
    requires longer == sofar + [step] && longer < steps && Draining(step)
    requires forall i :: |longer| <= i < |steps| - 1 ==> Draining(steps[i])
    ensures sofar < steps && forall i :: |sofar| <= i < |steps| - 1 ==> Draining(steps[i])
  {
    assert steps[|sofar|] == longer[|sofar|] == step;
  }

  /** A running scheduler that is asked to stop can do so, with everything accepted completed. */
  lemma StopReturns(c: Config, s: State) returns (steps: seq<Step>)
    requires Inv(c, s) && s.running && !s.stopping
    ensures IsRun(c, s, steps) && |steps| > 1 && steps[0] == BeginStop && steps[|steps| - 1] == Join
    ensures forall i :: 1 <= i < |steps| - 1 ==> Draining(steps[i])
    ensures var e := After(c, s, steps);
            && !e.running && e.workers == [] && e.tasks == [] && e.accepted == s.accepted
            && multiset(e.completed) == multiset(e.accepted)
  {
    assert Enabled(c, s, BeginStop);
    StepKeeps(c, s, BeginStop);
    hide Inv;
    var begun := Carry(c, s, [], BeginStop);
    steps := CanJoin(c, s, begun);
    assert steps[0] == begun[0];
  }

  // ---------- the object ----------

  class InferenceScheduler {
    const registry: ModelRegistry
    const workerCount: nat
    const queueCapacity: nat
    var running: bool
    var stopping: bool
    var tasks: seq<Task>
    var workers: seq<Worker>
    var stopper: Stopper
    ghost var base: nat
    ghost var accepted: seq<Task>
    ghost var choices: seq<Registry>
    ghost var dequeued: seq<Task>
    ghost var completed: seq<Task>

    ghost function Value(): State
      reads this, registry
    {
      State(registry.Value(), running, stopping, tasks, workers, stopper, base, accepted, choices, dequeued, completed)
    }

    ghost function Limits(): Config {
      Config(workerCount, queueCapacity)
    }

    constructor (registry: ModelRegistry, workerCount: nat, queueCapacity: nat)
      ensures this.registry == registry && Limits() == Config(workerCount, queueCapacity)
      ensures Value() == New(registry.Value())
    {
      this.registry, this.workerCount, this.queueCapacity := registry, workerCount, queueCapacity;
      running, stopping, tasks, workers, stopper := false, false, [], [], Idle;
      base, accepted, choices, dequeued, completed := 0, [], [], [], [];
    }

    method StartWorkers(loads: seq<bool>) returns (ok: bool)
      requires Inv(Limits(), Value()) && Enabled(Limits(), Value(), Step.Start(loads))
      modifies this, registry
      ensures Value() == Next(Limits(), old(Value()), Step.Start(loads))
      ensures ok <==> running
    {
      if running {
        return true;
      }
      if workerCount == 0 || queueCapacity == 0 {
        return false;
      }
      ok := registry.Initialize(loads);
      base := |accepted|;
      assert registry.registrations == Initialized(old(registry.Value()), loads).registrations;
      if !ok {
        return false;
      }
      stopping, running := false, true;
      workers := seq(workerCount, _ => Ready);
    }

    method SubmitTask(request: Request, woken: Option<nat>) returns (result: SubmitResult)
      requires Enabled(Limits(), Value(), Step.Submit(request, woken))
      modifies this
      ensures result == Verdict(Limits(), old(Value()), request)
      ensures Value() == Next(Limits(), old(Value()), Step.Submit(request, woken))
      ensures WellFormed(registry.Value()) ==>
                (result == Accepted <==>
                 && old(running) && !old(stopping) && |old(tasks)| < queueCapacity
                 && Servable(registry.Value(), request.model, request.requested))
    {
      hide HasModel, Resolve, Servable;
      if WellFormed(registry.Value()) {
        VerdictMeaning(Limits(), Value(), request);
      }
      if !running || stopping {
        return Stopped;
      }
      var known := registry.KnowsModel(request.model);
      if !known {
        return ModelUnavailable;
      }
      var model, backend := registry.ResolveBackend(request.model, request.requested);
      if backend.None? {
        return BackendUnavailable;
      }
      if |tasks| >= queueCapacity {
        return QueueFull;
      }
      var task := Task(request, model, backend.value);
      tasks := tasks + [task];
      accepted, choices := accepted + [task], choices + [registry.Value()];
      if woken.Some? {
        workers := workers[woken.value := Ready];
      }
      result := Accepted;
    }

    /** The critical section of worker `w`, up to releasing the lock. */
    method WorkerCheck(w: nat)
      requires Enabled(Limits(), Value(), Check(w))
      modifies this
      ensures Value() == Next(Limits(), old(Value()), Check(w))
    {
      if !(stopping || tasks != []) {
        workers := workers[w := Waiting];
        return;
      }
      if stopping && tasks == [] {
        workers := workers[w := Exited];
        return;
      }
      var task := tasks[0];
      tasks := tasks[1..];
      dequeued := dequeued + [task];
      workers := workers[w := Running(task)];
    }

    method WorkerFinish(w: nat)
      requires Enabled(Limits(), Value(), Finish(w))
      modifies this
      ensures Value() == Next(Limits(), old(Value()), Finish(w))
    {
      completed := completed + [workers[w].task];
      workers := workers[w := Ready];
    }

    method RaiseStop()
      requires Enabled(Limits(), Value(), Step.BeginStop)
      modifies this
      ensures Value() == Next(Limits(), old(Value()), Step.BeginStop)
    {
      if !running {
        return;
      }
      stopping := true;
      stopper := Flagged;
    }

    method NotifyWorkers()
      requires Enabled(Limits(), Value(), Step.NotifyAll)
      modifies this
      ensures Value() == Next(Limits(), old(Value()), Step.NotifyAll)
    {
      workers := WakeAll(workers);
      stopper := Notified;
    }

    method JoinWorkers()
      requires Enabled(Limits(), Value(), Step.Join)
      modifies this
      ensures Value() == Next(Limits(), old(Value()), Step.Join)
    {
      workers := [];
      running := false;
      stopping := false;
      stopper := Idle;
    }
  }
}
