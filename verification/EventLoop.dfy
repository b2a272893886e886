/** The event loop's hand-over of functors from any thread (src/muduo_core/EventLoop.cc): a queue
    under a mutex and an eventfd that ends the wait in `poll`. */
module EventLoops {

  /** A queued callback; running it queues `spawns` from the loop thread. */
  datatype Functor = Functor(id: nat, spawns: seq<Functor>)

  /** Where the loop thread is: in `poll` or about to enter it, going through the active channels
      (`awake` while the wakeup channel is among those still to come), inside `doPendingFunctors`
      with the functors it has taken, or out of the loop. */
  datatype Phase = Polling | Handling(awake: bool) | Draining(functors: seq<Functor>) | Done

  /** `counter` is the eventfd; `waking` counts the other threads that have pushed, or have set the
      quit flag, and not yet written to it; `enqueued` and `executed` are the history. */
  datatype State = State(
    phase: Phase, pending: seq<Functor>, calling: bool, quit: bool, counter: nat, waking: nat,
    enqueued: seq<Functor>, executed: seq<Functor>)

  const Initial := State(Polling, [], false, false, 0, 0, [], [])

  datatype Step =
    | Push(f: Functor)          // another thread: the critical section of queueInLoop
    | Wakeup                    // another thread: the write that follows
    | PollReturns(awake: bool)  // with the wakeup channel active or not
    | ReadWakeup                // the wakeup channel's callback
    | QueueHere(f: Functor)     // queueInLoop on the loop thread, from a callback or a functor
    | Take                      // doPendingFunctors up to the swap
    | RunNext                   // one functor
    | EndDrain                  // back to the loop condition
    | Quit(here: bool)

  /** The wakeup channel is reported only while the eventfd is readable; the converse is not
      assumed, a full event list may leave it for the next round. */
  predicate Enabled(s: State, step: Step) {
    match step
    case Push(_) => true
    case Wakeup => s.waking > 0
    case PollReturns(awake) => s.phase.Polling? && (awake ==> s.counter > 0)
    case ReadWakeup => s.phase.Handling? && s.phase.awake
    case QueueHere(_) => s.phase.Handling? || s.phase.Draining?
    case Take => s.phase == Handling(false)
    case RunNext => s.phase.Draining? && s.phase.functors != []
    case EndDrain => s.phase == Draining([])
    case Quit(here) => here ==> s.phase.Handling? || s.phase.Draining?
  }

  function Pushed(s: State, f: Functor): State {
    s.(pending := s.pending + [f], enqueued := s.enqueued + [f])
  }

  /** `wakes` is the rule of `queueInLoop` that a functor queued while functors run brings a wakeup
      with it; the code has it, and FlagMatters is about doing without. */
  function Next(wakes: bool, s: State, step: Step): State
    requires Enabled(s, step)
  {
    match step
    case Push(f) => Pushed(s, f).(waking := s.waking + 1)
    case Wakeup => s.(waking := s.waking - 1, counter := s.counter + 1)
    case PollReturns(awake) => s.(phase := Handling(awake))
    case ReadWakeup => s.(phase := Handling(false), counter := 0)
    case QueueHere(f) => Pushed(s, f).(counter := s.counter + if s.calling && wakes then 1 else 0)
    case Take => s.(phase := Draining(s.pending), pending := [], calling := true)
    case RunNext => s.(phase := Draining(s.phase.functors[1..]), executed := s.executed + [s.phase.functors[0]])
    case EndDrain => s.(phase := if s.quit then Done else Polling, calling := false)
    case Quit(here) => s.(quit := true, waking := s.waking + if here then 0 else 1)
  }

  predicate IsRun(wakes: bool, from: State, steps: seq<Step>)
    decreases |steps|, 0
  {
    steps == [] || (IsRun(wakes, from, steps[..|steps| - 1])
                    && Enabled(After(wakes, from, steps[..|steps| - 1]), steps[|steps| - 1]))
  }

  function After(wakes: bool, from: State, steps: seq<Step>): State
    requires IsRun(wakes, from, steps)
    decreases |steps|, 1
  {
    if steps == [] then from else Next(wakes, After(wakes, from, steps[..|steps| - 1]), steps[|steps| - 1])
  }

  /** The steps take the code from one state to the other. */
  ghost predicate Leads(from: State, steps: seq<Step>, to: State) {
    IsRun(true, from, steps) && After(true, from, steps) == to
  }

  lemma LeadsOne(from: State, steps: seq<Step>, mid: State, step: Step)
    requires Leads(from, steps, mid) && Enabled(mid, step)
    ensures Leads(from, steps + [step], Next(true, mid, step))
  {
    assert (steps + [step])[..|steps|] == steps;
  }

  lemma LeadsSplit(from: State, steps: seq<Step>, to: State) returns (mid: State)
    requires Leads(from, steps, to) && steps != []
    ensures var n := |steps| - 1;
            Leads(from, steps[..n], mid) && Enabled(mid, steps[n]) && to == Next(true, mid, steps[n])
  {
    hide Next;
    mid := After(true, from, steps[..|steps| - 1]);
  }

  lemma {:induction false} LeadsOn(from: State, steps: seq<Step>, mid: State, more: seq<Step>, to: State)
    requires Leads(from, steps, mid) && Leads(mid, more, to)
    ensures Leads(from, steps + more, to)
    decreases |more|
  {
    if more == [] {
      assert steps + more == steps;
    } else {
      hide Leads, Next, Enabled;
      var n := |more| - 1;
      var last := LeadsSplit(mid, more, to);
      LeadsOn(from, steps, mid, more[..n], last);
      LeadsOne(from, steps + more[..n], last, more[n]);
      assert steps + more == (steps + more[..n]) + [more[n]];
    }
  }

  // ---------- the invariant ----------

  function InHand(s: State): seq<Functor> {
    if s.phase.Draining? then s.phase.functors else []
  }

  /** Something will end the wait in `poll`: a readable eventfd or a thread about to make it so. */
  predicate WakeDue(s: State) {
    s.counter > 0 || s.waking > 0
  }

  ghost predicate Inv(s: State) {
    && s.enqueued == s.executed + InHand(s) + s.pending
    && (s.calling <==> s.phase.Draining?)
    && (s.pending != [] && !s.phase.Handling? ==> WakeDue(s) || s.phase.Done?)
    && (s.quit && s.phase.Polling? ==> WakeDue(s))
  }

  lemma StepKeeps(s: State, step: Step)
    requires Inv(s) && Enabled(s, step)
    ensures Inv(Next(true, s, step))
  {
    match step {
      case Push(f) =>
        assert s.executed + InHand(s) + (s.pending + [f]) == s.enqueued + [f];
      case QueueHere(f) =>
        assert s.executed + InHand(s) + (s.pending + [f]) == s.enqueued + [f];
      case RunNext =>
        var fs := s.phase.functors;
        assert (s.executed + [fs[0]]) + fs[1..] == s.executed + fs;
      case _ =>
    }
  }

  lemma {:induction false} RunKeeps(from: State, steps: seq<Step>, to: State)
    requires Inv(from) && Leads(from, steps, to)
    ensures Inv(to)
    decreases |steps|
  {
    hide Inv, Next, Enabled;
    if steps != [] {
      var last := LeadsSplit(from, steps, to);
      RunKeeps(from, steps[..|steps| - 1], last);
      StepKeeps(last, steps[|steps| - 1]);
    }
  }

  /** All interleavings: functors run in the order they were queued, none is lost, and the loop
      never goes to sleep on a non-empty queue without a wakeup on its way. */
  lemma EveryRun(steps: seq<Step>)
    requires IsRun(true, Initial, steps)
    ensures var s := After(true, Initial, steps);
            && Inv(s)
            && s.executed <= s.enqueued
            && (s.phase.Polling? && s.pending != [] ==> s.counter > 0 || s.waking > 0)
  {
    RunKeeps(Initial, steps, After(true, Initial, steps));
  }

  /** Asleep, or about to be, on a queue nobody will point out. */
  predicate Stranded(s: State) {
    s.phase.Polling? && s.pending != [] && !WakeDue(s)
  }

  ghost predicate NeverStrands(wakes: bool) {
    forall steps: seq<Step> :: IsRun(wakes, Initial, steps) ==> !Stranded(After(wakes, Initial, steps))
  }

  /** The wakeup behind `callingPendingFunctors_` is needed: the protocol with it never strands a
      functor, and without it some run from the start does. */
  lemma FlagMatters(wakes: bool)
    ensures NeverStrands(wakes) <==> wakes
  {
    if wakes {
      forall steps: seq<Step> | IsRun(wakes, Initial, steps) ensures !Stranded(After(wakes, Initial, steps)) {
        EveryRun(steps);
      }
    } else {
      var steps := StrandingRun();
      assert Stranded(After(false, Initial, steps));
    }
  }

  /** Another thread queues a functor and wakes the loop; the functor queues a second one. */
  lemma StrandingRun() returns (steps: seq<Step>)
    ensures IsRun(false, Initial, steps) && Stranded(After(false, Initial, steps))
  {
    var g := Functor(1, []);
    var f := Functor(0, [g]);
    var s1 := Initial.(pending := [f], enqueued := [f], waking := 1);
    var s2 := s1.(waking := 0, counter := 1);
    var s3 := s2.(phase := Handling(true));
    var s4 := s3.(phase := Handling(false), counter := 0);
    var s5 := s4.(phase := Draining([f]), pending := [], calling := true);
    var s6 := s5.(phase := Draining([]), executed := [f]);
    var s7 := s6.(pending := [g], enqueued := [f, g]);
    steps := [];
    steps := Extend(steps, Initial, Push(f), s1);
    steps := Extend(steps, s1, Wakeup, s2);
    steps := Extend(steps, s2, PollReturns(true), s3);
    steps := Extend(steps, s3, ReadWakeup, s4);
    steps := Extend(steps, s4, Take, s5);
    assert [f][1..] == [];
    steps := Extend(steps, s5, RunNext, s6);
    assert [f] + [g] == [f, g];
    steps := Extend(steps, s6, QueueHere(g), s7);
    steps := Extend(steps, s7, EndDrain, s7.(phase := Polling, calling := false));
  }

  lemma Extend(steps: seq<Step>, s: State, step: Step, next: State) returns (more: seq<Step>)
    requires IsRun(false, Initial, steps) && After(false, Initial, steps) == s
    requires Enabled(s, step) && next == Next(false, s, step)
    ensures more == steps + [step]
    ensures IsRun(false, Initial, more) && After(false, Initial, more) == next
  {
    more := steps + [step];
    assert more[..|steps|] == steps;
  }

  // ---------- a sleeping loop with work is woken and does all of it ----------

  lemma {:induction false} RunFunctors(s: State) returns (steps: seq<Step>)
    requires s.phase.Draining?
    ensures Leads(s, steps, s.(phase := Draining([]), executed := s.executed + s.phase.functors))
    decreases |s.phase.functors|
  {
    var fs := s.phase.functors;
    if fs == [] {
      steps := [];
      assert s.executed + fs == s.executed;
    } else {
      var next := Next(true, s, RunNext);
      LeadsOne(s, [], s, RunNext);
      var rest := RunFunctors(next);
      assert (s.executed + [fs[0]]) + fs[1..] == s.executed + fs;
      steps := ([] + [RunNext]) + rest;
      LeadsOn(s, [] + [RunNext], next, rest, s.(phase := Draining([]), executed := s.executed + fs));
    }
  }

  /** Once the wakeup has arrived, one turn of the loop by itself runs everything that was pending
      when it took the queue. */
  lemma OneTurnRunsEverything(s: State) returns (steps: seq<Step>)
    requires Inv(s) && s.phase.Polling? && s.counter > 0
    ensures Leads(s, steps, s.(phase := if s.quit then Done else Polling, pending := [], counter := 0,
                               executed := s.executed + s.pending))
  {
    var s1 := s.(phase := Handling(true));
    var s2 := s.(phase := Handling(false), counter := 0);
    var s3 := s2.(phase := Draining(s.pending), pending := [], calling := true);
    steps := [];
    LeadsOne(s, steps, s, PollReturns(true));
    steps := steps + [PollReturns(true)];
    LeadsOne(s, steps, s1, ReadWakeup);
    steps := steps + [ReadWakeup];
    LeadsOne(s, steps, s2, Take);
    steps := steps + [Take];
    var more := RunFunctors(s3);
    var s4 := s3.(phase := Draining([]), executed := s.executed + s.pending);
    LeadsOn(s, steps, s3, more, s4);
    LeadsOne(s, steps + more, s4, EndDrain);
    steps := (steps + more) + [EndDrain];
  }

  // ---------- the end of the loop ----------

  /** Some thread has called `quit`. */
  ghost predicate QuitCalled(steps: seq<Step>) {
    exists i :: 0 <= i < |steps| && steps[i].Quit?
  }

  /** The loop is left only if `quit` was called. */
  lemma {:induction false} QuitMeaning(steps: seq<Step>)
    requires IsRun(true, Initial, steps)
    ensures After(true, Initial, steps).quit <==> QuitCalled(steps)
    ensures After(true, Initial, steps).phase.Done? ==> QuitCalled(steps)
  {
    hide Next, Enabled;
    if steps != [] {
      var n := |steps| - 1;
      QuitMeaning(steps[..n]);
      QuitCalledLast(steps);
      hide QuitCalled;
      QuitStep(After(true, Initial, steps[..n]), steps[n]);
    }
  }

  lemma QuitStep(s: State, step: Step)
    requires Enabled(s, step)
    ensures Next(true, s, step).quit <==> s.quit || step.Quit?
    ensures Next(true, s, step).phase.Done? ==> s.phase.Done? || s.quit
  {
  }

  lemma QuitCalledLast(steps: seq<Step>)
    requires steps != []
    ensures QuitCalled(steps) <==> QuitCalled(steps[..|steps| - 1]) || steps[|steps| - 1].Quit?
  {
    var n := |steps| - 1;
    assert forall i :: 0 <= i < n ==> steps[..n][i] == steps[i];
  }

  /** Once it was, the next time the loop has gone through its functors is the last. */
  lemma {:induction false} QuitIsPrompt(s: State, steps: seq<Step>)
    requires IsRun(true, s, steps) && s.quit
    ensures After(true, s, steps).quit
    ensures s.phase.Done? || EndDrain in steps ==> After(true, s, steps).phase.Done?
    decreases |steps|
  {
    if steps != [] {
      hide Enabled;
      var n := |steps| - 1;
      QuitIsPrompt(s, steps[..n]);
      assert EndDrain in steps <==> EndDrain in steps[..n] || steps[n] == EndDrain;
    }
  }

  /** From wherever it is the loop thread can finish the turn it is in. */
  lemma DrainToEnd(s: State) returns (steps: seq<Step>)
    requires s.phase.Draining? && s.quit
    ensures Leads(s, steps, s.(phase := Done, executed := s.executed + s.phase.functors, calling := false))
  {
    steps := RunFunctors(s);
    LeadsOne(s, steps, s.(phase := Draining([]), executed := s.executed + s.phase.functors), EndDrain);
    steps := steps + [EndDrain];
  }

  lemma HandleToEnd(s: State) returns (steps: seq<Step>)
    requires s.phase == Handling(false) && s.quit
    ensures Leads(s, steps, s.(phase := Done, pending := [], executed := s.executed + s.pending, calling := false))
  {
    var taken := Next(true, s, Take);
    LeadsOne(s, [], s, Take);
    var more := DrainToEnd(taken);
    steps := ([] + [Take]) + more;
    LeadsOn(s, [] + [Take], taken, more,
            s.(phase := Done, pending := [], executed := s.executed + s.pending, calling := false));
  }

  /** A loop that was told to quit can always get out: a sleeping one is woken for it. What it has in
      hand, and what is pending if it had not yet taken the queue, is run before. */
  lemma QuitEnds(s: State) returns (steps: seq<Step>)
    requires Inv(s) && s.quit && !s.phase.Done?
    ensures IsRun(true, s, steps)
    ensures var e := After(true, s, steps);
            && e.phase == Done
            && e.executed == s.executed + if s.phase.Draining? then s.phase.functors else s.pending
  {
    match s.phase {
      case Draining(_) =>
        steps := DrainToEnd(s);
      case Handling(awake) =>
        if awake {
          var read := Next(true, s, ReadWakeup);
          LeadsOne(s, [], s, ReadWakeup);
          var more := HandleToEnd(read);
          steps := ([] + [ReadWakeup]) + more;
          LeadsOn(s, [] + [ReadWakeup], read, more,
                  read.(phase := Done, pending := [], executed := s.executed + s.pending, calling := false));
        } else {
          steps := HandleToEnd(s);
        }
      case Polling =>
        if s.counter > 0 {
          steps := OneTurnRunsEverything(s);
        } else {
          var woken := Next(true, s, Wakeup);
          LeadsOne(s, [], s, Wakeup);
          StepKeeps(s, Wakeup);
          var more := OneTurnRunsEverything(woken);
          steps := ([] + [Wakeup]) + more;
          LeadsOn(s, [] + [Wakeup], woken, more,
                  woken.(phase := Done, pending := [], counter := 0, executed := s.executed + s.pending));
        }
    }
  }

  // ---------- runs of one kind of step ----------

  /** Queued from the loop thread. */
  function WithQueued(s: State, fs: seq<Functor>): State {
    s.(pending := s.pending + fs, enqueued := s.enqueued + fs, counter := s.counter + if s.calling then |fs| else 0)
  }

  /** Queued from other threads. */
  function WithArrived(s: State, fs: seq<Functor>): State {
    s.(pending := s.pending + fs, enqueued := s.enqueued + fs, counter := s.counter + |fs|)
  }

  lemma NoneAdded(s: State)
    ensures WithQueued(s, []) == s && WithArrived(s, []) == s
    ensures Leads(s, [], s)
  {
  }

  lemma OneQueued(s: State, fs: seq<Functor>, i: nat)
    requires i < |fs| && (s.phase.Handling? || s.phase.Draining?)
    ensures Next(true, WithQueued(s, fs[..i]), QueueHere(fs[i])) == WithQueued(s, fs[..i + 1])
  {
    assert fs[..i + 1] == fs[..i] + [fs[i]];
  }

  lemma OneArrived(s: State, fs: seq<Functor>, i: nat)
    requires i < |fs|
    ensures Next(true, Next(true, WithArrived(s, fs[..i]), Push(fs[i])), Wakeup) == WithArrived(s, fs[..i + 1])
  {
    assert fs[..i + 1] == fs[..i] + [fs[i]];
  }

  /** What is pending after a batch: before each functor what arrived, behind it what it queued. */
  function Meanwhile(functors: seq<Functor>, during: seq<seq<Functor>>): seq<Functor>
    requires |functors| <= |during|
  {
    if functors == [] then []
    else
      var n := |functors| - 1;
      Meanwhile(functors[..n], during) + during[n] + functors[n].spawns
  }

  lemma NoneYet(functors: seq<Functor>, during: seq<seq<Functor>>)
    requires |functors| <= |during|
    ensures functors[..0] == [] && functors[0..] == functors && Meanwhile(functors[..0], during) == []
  {
  }

  lemma AllDone(functors: seq<Functor>)
    ensures functors[..|functors|] == functors && functors[|functors|..] == []
  {
  }

  lemma MeanwhileGrows(functors: seq<Functor>, during: seq<seq<Functor>>, i: nat)
    requires i < |functors| <= |during|
    ensures Meanwhile(functors[..i + 1], during) == Meanwhile(functors[..i], during) + during[i] + functors[i].spawns
    ensures functors[i..][0] == functors[i] && functors[i..][1..] == functors[i + 1..]
    ensures functors[..i + 1] == functors[..i] + [functors[i]]
  {
    assert functors[..i + 1][..i] == functors[..i];
  }

  // ---------- the object ----------

  class EventLoop {
    var pendingFunctors: seq<Functor>
    var callingPendingFunctors: bool
    var quit: bool
    /** The kernel's eventfd counter. */
    var wakeupCount: nat
    ghost var phase: Phase
    ghost var enqueued: seq<Functor>
    ghost var executed: seq<Functor>
    /** Callbacks run by `runInLoop` in place, past the queue. */
    ghost var inPlace: seq<Functor>

    /** Between calls no other thread is halfway through `queueInLoop`. */
    ghost function Model(): State
      reads this
    {
      State(phase, pendingFunctors, callingPendingFunctors, quit, wakeupCount, 0, enqueued, executed)
    }

    constructor ()
      ensures Model() == Initial && inPlace == []
    {
      pendingFunctors, callingPendingFunctors, quit, wakeupCount := [], false, false, 0;
      phase, enqueued, executed, inPlace := Polling, [], [], [];
    }

    method WriteWakeup()
      modifies this`wakeupCount
      ensures wakeupCount == old(wakeupCount) + 1
    {
      wakeupCount := wakeupCount + 1;
    }

    /** The wakeup channel's callback takes its step. */
    method HandleRead()
      requires Enabled(Model(), ReadWakeup)
      modifies this`wakeupCount, this`phase
      ensures Model() == Next(true, old(Model()), ReadWakeup)
    {
      wakeupCount := 0;
      phase := Handling(false);
    }

    /** From the loop thread one step; from another thread the push and the wakeup behind it. */
    method QueueInLoop(cb: Functor, inLoopThread: bool)
      requires inLoopThread ==> Enabled(Model(), QueueHere(cb))
      modifies this`pendingFunctors, this`enqueued, this`wakeupCount
      ensures inLoopThread ==> Model() == Next(true, old(Model()), QueueHere(cb))
      ensures !inLoopThread ==> Model() == Next(true, Next(true, old(Model()), Push(cb)), Wakeup)
    {
      pendingFunctors := pendingFunctors + [cb];
      enqueued := enqueued + [cb];
      if !inLoopThread || callingPendingFunctors {
        WriteWakeup();
      }
    }

    /** Runs in place on the loop thread, through the queue from any other. */
    method RunInLoop(cb: Functor, inLoopThread: bool)
      requires inLoopThread ==> phase.Handling? || phase.Draining?
      modifies this`pendingFunctors, this`enqueued, this`wakeupCount, this`inPlace
      ensures inLoopThread ==> inPlace == old(inPlace) + [cb] && Model() == WithQueued(old(Model()), cb.spawns)
      ensures !inLoopThread ==> inPlace == old(inPlace)
                                && Model() == Next(true, Next(true, old(Model()), Push(cb)), Wakeup)
    {
      if inLoopThread {
        inPlace := inPlace + [cb];
        ghost var steps := Body(cb);
      } else {
        QueueInLoop(cb, false);
      }
    }

    /** What a callback does to the loop: it queues its follow-ups. */
    method Body(cb: Functor) returns (ghost steps: seq<Step>)
      requires phase.Handling? || phase.Draining?
      modifies this`pendingFunctors, this`enqueued, this`wakeupCount
      ensures Model() == WithQueued(old(Model()), cb.spawns) && Leads(old(Model()), steps, Model())
    {
      steps := [];
      ghost var start := Model();
      NoneAdded(start);
      assert cb.spawns[..0] == [];
      for i := 0 to |cb.spawns|
        invariant Model() == WithQueued(start, cb.spawns[..i]) && Leads(start, steps, Model())
      {
        hide IsRun, After;
        LeadsOne(start, steps, Model(), QueueHere(cb.spawns[i]));
        OneQueued(start, cb.spawns, i);
        QueueInLoop(cb.spawns[i], true);
        steps := steps + [QueueHere(cb.spawns[i])];
      }
      assert cb.spawns[..|cb.spawns|] == cb.spawns;
    }

    /** Other threads queue functors. */
    method Arrive(fs: seq<Functor>) returns (ghost steps: seq<Step>)
      modifies this`pendingFunctors, this`enqueued, this`wakeupCount
      ensures Model() == WithArrived(old(Model()), fs) && Leads(old(Model()), steps, Model())
    {
      steps := [];
      ghost var start := Model();
      NoneAdded(start);
      assert fs[..0] == [];
      for i := 0 to |fs|
        invariant Model() == WithArrived(start, fs[..i]) && Leads(start, steps, Model())
      {
        hide IsRun, After;
        LeadsOne(start, steps, Model(), Push(fs[i]));
        LeadsOne(start, steps + [Push(fs[i])], Next(true, Model(), Push(fs[i])), Wakeup);
        OneArrived(start, fs, i);
        QueueInLoop(fs[i], false);
        steps := (steps + [Push(fs[i])]) + [Wakeup];
      }
      assert fs[..|fs|] == fs;
    }

    /** The next functor of the batch, with what other threads queue ahead of it. */
    method RunOne(cb: Functor, arriving: seq<Functor>) returns (ghost steps: seq<Step>)
      requires phase.Draining? && phase.functors != [] && phase.functors[0] == cb && callingPendingFunctors
      modifies this`pendingFunctors, this`enqueued, this`executed, this`wakeupCount, this`phase
      ensures Leads(old(Model()), steps, Model())
      ensures phase == Draining(old(phase.functors)[1..]) && executed == old(executed) + [cb]
      ensures pendingFunctors == old(pendingFunctors) + arriving + cb.spawns
      ensures wakeupCount == old(wakeupCount) + |arriving| + |cb.spawns|
    {
      ghost var start := Model();
      steps := Arrive(arriving);
      hide IsRun, After;
      LeadsOne(start, steps, Model(), RunNext);
      steps := steps + [RunNext];
      phase := Draining(phase.functors[1..]);
      executed := executed + [cb];
      ghost var mid := Model();
      ghost var more := Body(cb);
      LeadsOn(start, steps, mid, more, Model());
      steps := steps + more;
    }

    method RunBatch(functors: seq<Functor>, during: seq<seq<Functor>>) returns (ghost steps: seq<Step>)
      requires phase == Draining(functors) && callingPendingFunctors && pendingFunctors == []
      requires |functors| <= |during|
      modifies this`pendingFunctors, this`enqueued, this`executed, this`wakeupCount, this`phase
      ensures Leads(old(Model()), steps, Model())
      ensures phase == Draining([]) && executed == old(executed) + functors
      ensures pendingFunctors == Meanwhile(functors, during)
      ensures wakeupCount == old(wakeupCount) + |pendingFunctors|
    {
      hide IsRun, After, Leads, Meanwhile;
      ghost var start := Model();
      steps := [];
      NoneAdded(start);
      NoneYet(functors, during);
      for i := 0 to |functors|
        invariant phase == Draining(functors[i..]) && callingPendingFunctors
        invariant Leads(start, steps, Model())
        invariant executed == old(executed) + functors[..i]
        invariant pendingFunctors == Meanwhile(functors[..i], during)
        invariant wakeupCount == old(wakeupCount) + |pendingFunctors|
      {
        ghost var mid := Model();
        MeanwhileGrows(functors, during, i);
        ghost var more := RunOne(functors[i], during[i]);
        LeadsOn(start, steps, mid, more, Model());
        steps := steps + more;
      }
      AllDone(functors);
    }

    /** Runs what was pending on entry, in order, while other threads queue `during[i]` ahead of the
        i-th functor. A run of the protocol: what arrives meanwhile and what the functors queue stays
        pending in the order it came, and each of it has left a wakeup. */
    method DoPendingFunctors(during: seq<seq<Functor>>) returns (ghost steps: seq<Step>)
      requires phase == Handling(false) && !callingPendingFunctors && |pendingFunctors| <= |during|
      modifies this`pendingFunctors, this`callingPendingFunctors, this`enqueued, this`executed, this`wakeupCount, this`phase
      ensures Leads(old(Model()), steps, Model())
      ensures executed == old(executed) + old(pendingFunctors)
      ensures pendingFunctors == Meanwhile(old(pendingFunctors), during)
      ensures wakeupCount == old(wakeupCount) + |pendingFunctors|
      ensures phase == if quit then Done else Polling
    {
      hide IsRun, After, Leads, Meanwhile;
      ghost var start := Model();
      NoneAdded(start);
      LeadsOne(start, [], start, Take);
      callingPendingFunctors := true;
      var functors := pendingFunctors;
      pendingFunctors := [];
      phase := Draining(functors);
      ghost var taken := Model();
      ghost var batch := RunBatch(functors, during);
      LeadsOn(start, [] + [Take], taken, batch, Model());
      steps := ([] + [Take]) + batch;
      LeadsOne(start, steps, Model(), EndDrain);
      steps := steps + [EndDrain];
      callingPendingFunctors := false;
      phase := if quit then Done else Polling;
    }

    /** Another thread, or a callback, asks the loop to end. */
    method AskToQuit(inLoopThread: bool)
      requires Enabled(Model(), Quit(inLoopThread))
      modifies this`quit, this`wakeupCount
      ensures inLoopThread ==> Model() == Next(true, old(Model()), Quit(true))
      ensures !inLoopThread ==> Model() == Next(true, Next(true, old(Model()), Quit(false)), Wakeup)
    {
      quit := true;
      if !inLoopThread {
        WriteWakeup();
      }
    }

    /** One turn of `loop`: the wait ends, with the wakeup channel active or not, the other active
        channels' callbacks run, then the pending functors. It is a run of the protocol, so it keeps
        the invariant. */
    method Turn(awake: bool, callbacks: seq<Functor>, during: seq<seq<Functor>>) returns (ghost steps: seq<Step>)
      requires Inv(Model()) && Enabled(Model(), PollReturns(awake))
      requires |pendingFunctors| + |SpawnedBy(callbacks)| <= |during|
      modifies this
      ensures Inv(Model()) && Leads(old(Model()), steps, Model())
      ensures phase == if quit then Done else Polling
      ensures executed == old(executed) + old(pendingFunctors) + SpawnedBy(callbacks)
      ensures inPlace == old(inPlace) + callbacks
    {
      hide IsRun, After, Leads, Meanwhile;
      ghost var start := Model();
      NoneAdded(start);
      LeadsOne(start, [], start, PollReturns(awake));
      steps := [] + [PollReturns(awake)];
      phase := Handling(awake);
      if awake {
        LeadsOne(start, steps, Model(), ReadWakeup);
        HandleRead();
        steps := steps + [ReadWakeup];
      }
      ghost var mid := Model();
      ghost var more := HandleEvents(callbacks);
      LeadsOn(start, steps, mid, more, Model());
      steps := steps + more;
      mid := Model();
      more := DoPendingFunctors(during);
      LeadsOn(start, steps, mid, more, Model());
      steps := steps + more;
      assert executed == old(executed) + (old(pendingFunctors) + SpawnedBy(callbacks));
      RunKeeps(start, steps, Model());
    }

    method HandleEvents(callbacks: seq<Functor>) returns (ghost steps: seq<Step>)
      requires phase == Handling(false) && !callingPendingFunctors
      modifies this`pendingFunctors, this`enqueued, this`wakeupCount, this`inPlace
      ensures Leads(old(Model()), steps, Model())
      ensures Model() == WithQueued(old(Model()), SpawnedBy(callbacks)) && inPlace == old(inPlace) + callbacks
    {
      hide IsRun, After, Leads;
      ghost var start := Model();
      steps := [];
      NoneAdded(start);
      assert callbacks[..0] == [];
      for i := 0 to |callbacks|
        invariant Leads(start, steps, Model())
        invariant Model() == WithQueued(start, SpawnedBy(callbacks[..i])) && inPlace == old(inPlace) + callbacks[..i]
      {
        assert callbacks[..i + 1] == callbacks[..i] + [callbacks[i]] && callbacks[..i + 1][..i] == callbacks[..i];
        ghost var mid := Model();
        inPlace := inPlace + [callbacks[i]];
        ghost var more := Body(callbacks[i]);
        LeadsOn(start, steps, mid, more, Model());
        steps := steps + more;
      }
      assert callbacks[..|callbacks|] == callbacks;
    }
  }

  function SpawnedBy(callbacks: seq<Functor>): seq<Functor> {
    if callbacks == [] then [] else SpawnedBy(callbacks[..|callbacks| - 1]) + callbacks[|callbacks| - 1].spawns
  }
}
