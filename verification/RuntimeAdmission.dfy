/** Call admission, suspension and shutdown of the embedded runtime as a state machine over
    every interleaving (src/bridge/mt5_bridge.cpp:184-256, 2993-3151, 3813-3815). */
module RuntimeAdmission {
  import opened Options

  type CallId = nat

  /** Calls that the realtime poller makes for itself. */
  const POLLER: CallId := 0

  datatype Lifecycle = Stopped | Running | ShuttingDown

  /** A counted call waits for the interpreter, holds it, has given it up for a while, or has
      unlocked it for good and only its count is left to return. */
  datatype Phase = Waiting | Holding | Suspended | Leaving

  datatype Holder = Nobody | HeldBy(call: CallId) | HeldByShutdown | HeldByInitialize

  datatype ShutdownPhase = Idle | JoiningPoller | Draining | Finalizing

  /** An initialize at work, and one that has failed and finalizes the interpreter it created. */
  datatype StartPhase = NotStarting | Starting(owns: bool) | Abandoning

  datatype State = State(
    lifecycle: Lifecycle, initialized: bool, generation: nat, calls: map<CallId, Phase>, activeCount: int, interpreter: Holder,
    pollerAlive: bool, pollerStop: bool, shutdown: ShutdownPhase, starting: StartPhase)

  /** One atomic step of some thread: a critical section, or taking or returning a lock. */
  datatype Step =
    | Admit(call: CallId) | Acquire(call: CallId) | AcquireFails(call: CallId) | Suspend(call: CallId) | Unlock(call: CallId)
    | Leave(call: CallId) | BeginInitialize(owns: bool) | InitializeSucceeds | InitializeFails(created: bool) | Abandoned
    | StartPoller | PollerExits | BeginShutdown(byOwner: bool) | PollerJoined | Drained | Finalized

  const START := State(Stopped, false, 0, map[], 0, Nobody, false, false, Idle, NotStarting)

  /** Initialize and the end of shutdown hold the lifecycle mutex throughout. */
  predicate LifecycleFree(s: State) {
    s.shutdown != Finalizing && s.starting == NotStarting
  }

  /** While the lifecycle mutex is held no other critical section runs. */
  predicate Enabled(s: State, step: Step) {
    match step
    case Admit(c) => LifecycleFree(s) && c !in s.calls && (c == POLLER ==> s.pollerAlive)
    case Acquire(c) => c in s.calls && (s.calls[c].Waiting? || s.calls[c].Suspended?) && s.interpreter == Nobody
    case AcquireFails(c) => LifecycleFree(s) && c in s.calls && s.calls[c].Waiting?
    case Suspend(c) => c in s.calls && s.calls[c].Holding?
    case Unlock(c) => c in s.calls && s.calls[c].Holding?
    case Leave(c) => LifecycleFree(s) && c in s.calls && (s.calls[c].Leaving? || s.calls[c].Suspended?)
    case BeginInitialize(_) => LifecycleFree(s) && s.interpreter == Nobody
    case InitializeSucceeds => s.starting.Starting?
    case InitializeFails(_) => s.starting.Starting?
    case Abandoned => s.starting == Abandoning
    case StartPoller => LifecycleFree(s) && s.lifecycle.Running? && !s.pollerAlive
    case PollerExits => s.pollerAlive && (s.pollerStop || !s.lifecycle.Running?) && POLLER !in s.calls
    case BeginShutdown(_) => LifecycleFree(s)
    case PollerJoined => s.shutdown == JoiningPoller && !s.pollerAlive
    case Drained => LifecycleFree(s) && s.shutdown == Draining && s.activeCount == 0 && s.interpreter == Nobody
    case Finalized => s.shutdown == Finalizing
  }

  /** What the step does; a call that finds the runtime not running is turned away. */
  function Do(s: State, step: Step): State
    requires Enabled(s, step)
  {
    match step
    case Admit(c) =>
      if s.lifecycle != Running then s
      else s.(calls := s.calls[c := Waiting], activeCount := s.activeCount + 1)
    case Acquire(c) => s.(calls := s.calls[c := Holding], interpreter := HeldBy(c))
    case AcquireFails(c) => s.(calls := s.calls - {c}, activeCount := s.activeCount - 1)
    case Suspend(c) => s.(calls := s.calls[c := Suspended], interpreter := Nobody)
    case Unlock(c) => s.(calls := s.calls[c := Leaving], interpreter := Nobody)
    case Leave(c) => s.(calls := s.calls - {c}, activeCount := s.activeCount - 1)
    case BeginInitialize(owns) =>
      if s.lifecycle.ShuttingDown? || s.initialized then s
      else s.(starting := Starting(owns), interpreter := HeldByInitialize)
    case InitializeSucceeds =>
      s.(lifecycle := Running, initialized := true, generation := s.generation + 1, pollerStop := false,
         starting := NotStarting, interpreter := Nobody)
    case InitializeFails(created) =>
      if s.starting.owns && created then s.(starting := Abandoning) else s.(starting := NotStarting, interpreter := Nobody)
    case Abandoned => s.(starting := NotStarting, interpreter := Nobody)
    case StartPoller => s.(pollerAlive := true)
    case PollerExits => s.(pollerAlive := false)
    case BeginShutdown(byOwner) =>
      if s.lifecycle.ShuttingDown? || !s.initialized || !byOwner then s
      else s.(lifecycle := ShuttingDown, pollerStop := true, shutdown := JoiningPoller)
    case PollerJoined => s.(shutdown := Draining)
    case Drained => s.(shutdown := Finalizing, interpreter := HeldByShutdown)
    case Finalized => s.(shutdown := Idle, interpreter := Nobody, lifecycle := Stopped, initialized := false)
  }

  ghost predicate Sound(s: State) {
    && s.activeCount == |s.calls|
    && (forall c <- s.calls :: s.calls[c].Holding? <==> s.interpreter == HeldBy(c))
    && (s.interpreter.HeldBy? ==> s.interpreter.call in s.calls)
    && (s.interpreter == HeldByShutdown <==> s.shutdown == Finalizing)
    && (s.interpreter == HeldByInitialize <==> s.starting != NotStarting)
    && (s.starting != NotStarting ==> s.lifecycle.Stopped?)
    && (s.shutdown != Idle <==> s.lifecycle.ShuttingDown?)
    && (s.initialized <==> !s.lifecycle.Stopped?)
    && (s.lifecycle.Stopped? ==> s.calls == map[] && !s.pollerAlive)
    && (POLLER in s.calls ==> s.pollerAlive)
    && (s.shutdown == Draining || s.shutdown == Finalizing ==> !s.pollerAlive)
    && (s.shutdown == Finalizing ==> s.calls == map[])
    && (s.lifecycle.ShuttingDown? ==> s.pollerStop)
  }

  lemma RemovedCallShrinks(calls: map<CallId, Phase>, c: CallId)
    requires c in calls
    ensures |calls - {c}| == |calls| - 1
  {
    assert calls.Keys == (calls - {c}).Keys + {c};
  }

  lemma AddedCallGrows(calls: map<CallId, Phase>, c: CallId, phase: Phase)
    ensures |calls[c := phase]| == |calls| + if c in calls then 0 else 1
  {
    if c in calls { assert calls[c := phase].Keys == calls.Keys; } else { assert calls[c := phase].Keys == calls.Keys + {c}; }
  }

  lemma AdmitKeepsSound(s: State, c: CallId)
    requires Sound(s) && Enabled(s, Admit(c))
    ensures Sound(Do(s, Admit(c)))
  {
    AddedCallGrows(s.calls, c, Waiting);
  }

  lemma HolderKeepsSound(s: State, step: Step)
    requires Sound(s) && Enabled(s, step) && (step.Acquire? || step.Suspend? || step.Unlock?)
    ensures Sound(Do(s, step))
  {
    AddedCallGrows(s.calls, step.call, if step.Acquire? then Holding else if step.Suspend? then Suspended else Leaving);
  }

  lemma DepartureKeepsSound(s: State, step: Step)
    requires Sound(s) && Enabled(s, step) && (step.AcquireFails? || step.Leave?)
    ensures Sound(Do(s, step))
  {
    RemovedCallShrinks(s.calls, step.call);
  }

  lemma StartKeepsSound(s: State, step: Step)
    requires Sound(s) && Enabled(s, step)
    requires || step.BeginInitialize? || step.InitializeSucceeds? || step.InitializeFails? || step.Abandoned?
             || step.StartPoller? || step.PollerExits?
    ensures Sound(Do(s, step))
  {
  }

  lemma StopKeepsSound(s: State, step: Step)
    requires Sound(s) && Enabled(s, step)
    requires step.BeginShutdown? || step.PollerJoined? || step.Drained? || step.Finalized?
    ensures Sound(Do(s, step))
  {
  }

  lemma StepKeepsSound(s: State, step: Step)
    requires Sound(s) && Enabled(s, step)
    ensures Sound(Do(s, step))
  {
    hide Sound;
    hide Do;
    hide Enabled;
    match step {
      case Admit(c) => AdmitKeepsSound(s, c);
      case Acquire(_) => HolderKeepsSound(s, step);
      case Suspend(_) => HolderKeepsSound(s, step);
      case Unlock(_) => HolderKeepsSound(s, step);
      case AcquireFails(_) => DepartureKeepsSound(s, step);
      case Leave(_) => DepartureKeepsSound(s, step);
      case BeginInitialize(_) => StartKeepsSound(s, step);
      case InitializeSucceeds => StartKeepsSound(s, step);
      case InitializeFails(_) => StartKeepsSound(s, step);
      case Abandoned => StartKeepsSound(s, step);
      case StartPoller => StartKeepsSound(s, step);
      case PollerExits => StartKeepsSound(s, step);
      case _ => StopKeepsSound(s, step);
    }
  }

  // ----- runs

  ghost predicate IsRun(s: State, steps: seq<Step>)
    decreases |steps|
  {
    steps == [] || (Enabled(s, steps[0]) && IsRun(Do(s, steps[0]), steps[1..]))
  }

  ghost function After(s: State, steps: seq<Step>): State
    requires IsRun(s, steps)
    decreases |steps|
  {
    if steps == [] then s else After(Do(s, steps[0]), steps[1..])
  }

  lemma {:induction false} RunKeepsSound(s: State, steps: seq<Step>)
    requires Sound(s) && IsRun(s, steps)
    ensures Sound(After(s, steps))
    decreases |steps|
  {
    hide Enabled;
    if steps != [] {
      StepKeepsSound(s, steps[0]);
      RunKeepsSound(Do(s, steps[0]), steps[1..]);
    }
  }

  /** The interpreter is being finalized: by shutdown, or by an initialize that has failed. */
  predicate BeingFinalized(s: State) {
    s.shutdown == Finalizing || s.starting == Abandoning
  }

  /** In every interleaving: while the interpreter is finalized no counted call is in flight, the
      poller is gone, nobody else can take the interpreter, and only the finalizer can go on. */
  lemma DrainedBeforeFinalize(steps: seq<Step>)
    requires IsRun(START, steps) && BeingFinalized(After(START, steps))
    ensures var s := After(START, steps);
            && s.calls == map[] && s.activeCount == 0 && !s.pollerAlive
            && s.interpreter == (if s.shutdown == Finalizing then HeldByShutdown else HeldByInitialize)
            && forall step: Step | Enabled(s, step) :: step == if s.shutdown == Finalizing then Finalized else Abandoned
  {
    assert Sound(START);
    RunKeepsSound(START, steps);
    var s := After(START, steps);
    forall step: Step | Enabled(s, step) ensures step == if s.shutdown == Finalizing then Finalized else Abandoned {
      assert s.calls == map[];
    }
  }

  /** Between the start of shutdown and the next successful initialize no call is admitted: calls
      in flight can only leave. */
  lemma {:induction false} NoAdmissionUntilInitialized(s: State, steps: seq<Step>)
    requires Sound(s) && IsRun(s, steps) && !s.lifecycle.Running?
    requires After(s, steps).generation == s.generation
    ensures forall c <- After(s, steps).calls :: c in s.calls
    ensures !After(s, steps).lifecycle.Running?
    decreases |steps|
  {
    if steps != [] {
      StepKeepsSound(s, steps[0]);
      GenerationGrows(Do(s, steps[0]), steps[1..]);
      NoAdmissionUntilInitialized(Do(s, steps[0]), steps[1..]);
    }
  }

  lemma {:induction false} GenerationGrows(s: State, steps: seq<Step>)
    requires IsRun(s, steps)
    ensures After(s, steps).generation >= s.generation
    decreases |steps|
  {
    if steps != [] { GenerationGrows(Do(s, steps[0]), steps[1..]); }
  }

  // ----- what a running runtime grants

  /** A call that asks is in flight afterwards, counted once, exactly if the runtime runs; otherwise
      nothing changes. How many others are in flight does not matter. */
  lemma AdmittedIffRunning(s: State, c: CallId)
    requires Sound(s) && Enabled(s, Admit(c))
    ensures var t := Do(s, Admit(c));
            && (c in t.calls <==> s.lifecycle.Running?)
            && (s.lifecycle.Running? ==>
                  t == s.(calls := s.calls[c := Waiting], activeCount := |s.calls| + 1) && t.activeCount == |t.calls|)
            && (!s.lifecycle.Running? ==> t == s)
  {
    AddedCallGrows(s.calls, c, Waiting);
  }

  /** A call may ask whenever nobody holds the lifecycle mutex, and goes on once it gets the
      interpreter. */
  lemma CallsAreIndependent(s: State, c: CallId)
    requires Sound(s) && s.lifecycle.Running?
    ensures c !in s.calls && (c == POLLER ==> s.pollerAlive) ==> Enabled(s, Admit(c))
    ensures c in s.calls && !s.calls[c].Leaving? && s.interpreter == Nobody ==> Enabled(s, Acquire(c))
    ensures c in s.calls && s.interpreter == HeldBy(c) ==> Enabled(s, Suspend(c)) && Enabled(s, Unlock(c))
    ensures c in s.calls && (s.calls[c].Leaving? || s.calls[c].Suspended?) ==> Enabled(s, Leave(c))
  {
  }

  lemma Prepend(s: State, step: Step, rest: seq<Step>)
    requires Enabled(s, step) && IsRun(Do(s, step), rest)
    ensures IsRun(s, [step] + rest) && After(s, [step] + rest) == After(Do(s, step), rest)
  {
    assert ([step] + rest)[1..] == rest;
  }

  lemma OneStep(s: State, step: Step)
    requires Enabled(s, step)
    ensures IsRun(s, [step]) && After(s, [step]) == Do(s, step)
  {
    hide Do, Enabled;
    assert IsRun(Do(s, step), []) && After(Do(s, step), []) == Do(s, step);
    Prepend(s, step, []);
    assert [step] + [] == [step];
  }

  lemma TwoSteps(s: State, a: Step, b: Step)
    requires Enabled(s, a) && Enabled(Do(s, a), b)
    ensures IsRun(s, [a, b]) && After(s, [a, b]) == Do(Do(s, a), b)
  {
    hide Do, Enabled;
    OneStep(Do(s, a), b);
    Prepend(s, a, [b]);
    assert [a] + [b] == [a, b];
  }

  lemma StepsOfACall(s: State, c: CallId)
    requires Sound(s) && s.lifecycle.Running? && s.interpreter == Nobody && c !in s.calls && (c == POLLER ==> s.pollerAlive)
    ensures Enabled(s, Admit(c))
    ensures var admitted := Do(s, Admit(c));
            && Enabled(admitted, Acquire(c))
            && (var held := Do(admitted, Acquire(c));
                && Enabled(held, Suspend(c)) && Enabled(Do(held, Suspend(c)), Acquire(c)) && Do(Do(held, Suspend(c)), Acquire(c)) == held
                && Enabled(held, Unlock(c)) && Enabled(Do(held, Unlock(c)), Leave(c)) && Do(Do(held, Unlock(c)), Leave(c)) == s)
  {
    assert LifecycleFree(s);
    var held := Do(Do(s, Admit(c)), Acquire(c));
    assert held.calls[c := Leaving] - {c} == s.calls;
  }

  /** A whole call, suspended and resumed on the way or not, leaves a running runtime as it was,
      whatever other calls are in flight. */
  lemma WholeCallLeavesNoTrace(s: State, c: CallId, suspended: bool)
    requires Sound(s) && s.lifecycle.Running? && s.interpreter == Nobody && c !in s.calls && (c == POLLER ==> s.pollerAlive)
    ensures var middle := if suspended then [Suspend(c), Acquire(c)] else [];
            var steps := [Admit(c)] + ([Acquire(c)] + (middle + [Unlock(c), Leave(c)]));
            IsRun(s, steps) && After(s, steps) == s
  {
    StepsOfACall(s, c);
    hide Sound, IsRun, After, Do, Enabled;
    var admitted := Do(s, Admit(c));
    var held := Do(admitted, Acquire(c));
    var tail := [Unlock(c), Leave(c)];
    TwoSteps(held, Unlock(c), Leave(c));
    if suspended {
      Prepend(Do(held, Suspend(c)), Acquire(c), tail);
      Prepend(held, Suspend(c), [Acquire(c)] + tail);
      assert [Suspend(c), Acquire(c)] + tail == [Suspend(c)] + ([Acquire(c)] + tail);
    } else {
      assert [] + tail == tail;
    }
    var rest := (if suspended then [Suspend(c), Acquire(c)] else []) + tail;
    Prepend(admitted, Acquire(c), rest);
    Prepend(s, Admit(c), [Acquire(c)] + rest);
  }

  /** Initializing a stopped runtime reaches Running, under a new generation, or, where it fails,
      leaves the runtime as it was, finalizing first exactly an interpreter that it has created. */
  lemma InitializeReachesRunning(s: State, owns: bool, created: bool)
    requires Sound(s) && s.lifecycle.Stopped? && s.starting == NotStarting
    ensures var begin, failing := [BeginInitialize(owns), InitializeSucceeds], Do(Do(s, BeginInitialize(owns)), InitializeFails(created));
            && IsRun(s, begin)
            && After(s, begin) == s.(lifecycle := Running, initialized := true, generation := s.generation + 1, pollerStop := false)
            && IsRun(s, [BeginInitialize(owns), InitializeFails(created)])
            && if owns && created then BeingFinalized(failing) && IsRun(failing, [Abandoned]) && After(failing, [Abandoned]) == s
               else failing == s
  {
    assert s.interpreter == Nobody;
    TwoSteps(s, BeginInitialize(owns), InitializeSucceeds);
    TwoSteps(s, BeginInitialize(owns), InitializeFails(created));
    if owns && created { OneStep(Do(Do(s, BeginInitialize(owns)), InitializeFails(created)), Abandoned); }
  }

  /** Initializing anything but a stopped runtime changes nothing; a shutdown begins exactly for a
      running runtime and on behalf of its owner. */
  lemma LifecycleRequests(s: State, owns: bool, byOwner: bool)
    requires Sound(s) && LifecycleFree(s)
    ensures s.interpreter == Nobody ==>
              Enabled(s, BeginInitialize(owns)) && (s.lifecycle.Stopped? || Do(s, BeginInitialize(owns)) == s)
    ensures Enabled(s, BeginShutdown(byOwner))
    ensures var t := Do(s, BeginShutdown(byOwner));
            if s.lifecycle.Running? && byOwner then t == s.(lifecycle := ShuttingDown, pollerStop := true, shutdown := JoiningPoller)
            else t == s
  {
  }

  /** Once its calls are gone and its poller has stopped, a runtime that shuts down is stopped by the
      last three steps, ready to be initialized again. */
  lemma ShutdownStops(s: State)
    requires Sound(s) && s.shutdown == JoiningPoller && !s.pollerAlive && s.calls == map[]
    ensures var steps := [PollerJoined, Drained, Finalized];
            IsRun(s, steps) && After(s, steps) == s.(lifecycle := Stopped, initialized := false, shutdown := Idle)
  {
    var joined := Do(s, PollerJoined);
    TwoSteps(joined, Drained, Finalized);
    Prepend(s, PollerJoined, [Drained, Finalized]);
    assert [PollerJoined] + [Drained, Finalized] == [PollerJoined, Drained, Finalized];
  }

  /** The poller of a running runtime can be started whenever it is not alive, and it stops only when
      told to. */
  lemma PollerFollowsLifecycle(s: State)
    requires Sound(s) && s.lifecycle.Running?
    ensures Enabled(s, StartPoller) <==> !s.pollerAlive
    ensures !s.pollerAlive ==> Do(s, StartPoller) == s.(pollerAlive := true)
    ensures !s.pollerStop ==> !Enabled(s, PollerExits)
  {
  }

  // ----- progress of shutdown

  /** Unfinished business of one call; suspending and resuming does not reduce it. */
  function Weight(phase: Phase): nat {
    match phase case Waiting => 3 case Suspended => 3 case Holding => 2 case Leaving => 1
  }

  /** A step that brings shutdown on. */
  predicate Progress(s: State, step: Step)
    requires Enabled(s, step)
  {
    match step
    case Acquire(c) => true
    case Unlock(_) => true
    case Leave(_) => true
    case PollerExits => true
    case PollerJoined => true
    case Drained => true
    case Finalized => true
    case _ => false
  }

  /** A shutdown that has begun never gets stuck: until the runtime is stopped some step towards it
      is enabled. Nobody waits for the interpreter while holding what its holder needs. */
  lemma ShutdownNeverStuck(s: State)
    requires Sound(s) && s.lifecycle.ShuttingDown?
    ensures exists step: Step :: Enabled(s, step) && Progress(s, step)
  {
    if s.shutdown == Finalizing {
      assert Enabled(s, Finalized) && Progress(s, Finalized);
    } else if s.interpreter.HeldBy? {
      var c := s.interpreter.call;
      assert Enabled(s, Unlock(c)) && Progress(s, Unlock(c));
    } else if s.calls != map[] {
      var c :| c in s.calls;
      if s.calls[c].Leaving? {
        assert Enabled(s, Leave(c)) && Progress(s, Leave(c));
      } else {
        assert Enabled(s, Acquire(c)) && Progress(s, Acquire(c));
      }
    } else if s.pollerAlive {
      assert Enabled(s, PollerExits) && Progress(s, PollerExits);
    } else if s.shutdown == JoiningPoller {
      assert Enabled(s, PollerJoined) && Progress(s, PollerJoined);
    } else {
      assert Enabled(s, Drained) && Progress(s, Drained);
    }
  }

  /** Total unfinished business of the calls in flight. */
  ghost function Pending(calls: map<CallId, Phase>): nat
    decreases |calls|
  {
    if calls == map[] then 0
    else
      var c :| c in calls;
      Weight(calls[c]) + Pending(calls - {c})
  }

  lemma {:induction false} PendingRemove(calls: map<CallId, Phase>, c: CallId)
    requires c in calls
    ensures Pending(calls) == Weight(calls[c]) + Pending(calls - {c})
    decreases |calls|
  {
    var first :| first in calls && Pending(calls) == Weight(calls[first]) + Pending(calls - {first});
    if first != c {
      RemovedCallShrinks(calls, first);
      RemovedCallShrinks(calls, c);
      PendingRemove(calls - {first}, c);
      PendingRemove(calls - {c}, first);
      assert calls - {first} - {c} == calls - {c} - {first};
    }
  }

  lemma PendingUpdate(calls: map<CallId, Phase>, c: CallId, phase: Phase)
    requires c in calls
    ensures Pending(calls[c := phase]) + Weight(calls[c]) == Pending(calls) + Weight(phase)
  {
    PendingRemove(calls, c);
    PendingRemove(calls[c := phase], c);
    assert calls[c := phase] - {c} == calls - {c};
  }

  /** Steps left before the runtime can be stopped. */
  ghost function Distance(s: State): nat {
    Pending(s.calls) + (if s.pollerAlive then 1 else 0)
    + (match s.shutdown case Idle => 0 case JoiningPoller => 3 case Draining => 2 case Finalizing => 1)
  }

  /** Every progress step brings the stop strictly closer, and no other step of a closing runtime
      except a suspension takes it further away. */
  lemma ShutdownGetsCloser(s: State, step: Step)
    requires Sound(s) && s.lifecycle.ShuttingDown? && Enabled(s, step)
    ensures Progress(s, step) ==> Distance(Do(s, step)) < Distance(s)
    ensures !step.Suspend? ==> Distance(Do(s, step)) <= Distance(s)
    ensures step.Suspend? ==> Distance(Do(s, step)) <= Distance(s) + 1
  {
    match step {
      case Acquire(c) => PendingUpdate(s.calls, c, Holding);
      case Suspend(c) => PendingUpdate(s.calls, c, Suspended);
      case Unlock(c) => PendingUpdate(s.calls, c, Leaving);
      case AcquireFails(c) => PendingRemove(s.calls, c);
      case Leave(c) => PendingRemove(s.calls, c);
      case _ =>
    }
  }
}
