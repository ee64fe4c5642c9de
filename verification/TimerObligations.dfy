/**
 What the scheduler demands of its callers, as conditions on each call, and the runs that meet them: they never fault,
 and their timers fire on schedule.
 */
module TimerObligations {
  import opened Common
  import opened TimerSpec
  import opened TimerProofs

  // ---------- the obligations ----------

  /** Slot k is marked to fire in the event that is being dispatched, behind the slot that is firing. */
  predicate Pending(s: State, k: nat) {
    s.triggeredTimer < k < |s.triggered| && s.triggered[k]
  }

  /** How many slots there may be: triggered[] has only those there were when the event began. */
  function Room(s: State): nat {
    if s.triggered == [] then MAX_TIMERS else |s.triggered|
  }

  /** A call that a caller may make: it can be checked before the call. */
  predicate Permitted(s: State, c: Call)
    requires 1 <= s.numTimers <= |s.timers|
  {
    match c
    case Register(_, _, _, _) => FreeSlot(s.timers, s.numTimers, 1) < Room(s)
    case Activate(i, _, _) => 0 < i < s.numTimers && s.timers[i].inUse
    case Deactivate(i) => 0 < i < s.numTimers
    case Unregister(i) => 0 < i < s.numTimers && s.timers[i].inUse && (s.timers[i].active || !Pending(s, i))
  }

  /** Registered slots have a handler, active ones are registered. */
  predicate SlotHandled(t: Timer) {
    (t.inUse ==> t.funct.Some?) && (t.active ==> t.inUse)
  }

  /** No slot will be called that has no handler. */
  ghost predicate Handled(s: State)
    requires s.numTimers <= |s.timers|
  {
    && s.numTimers <= Room(s) <= MAX_TIMERS
    && (forall k :: 0 <= k < s.numTimers ==> SlotHandled(s.timers[k]))
    && (forall k: nat :: k < s.numTimers && Pending(s, k) ==> s.timers[k].inUse)
  }

  /** A state in which a timer call can be made. */
  ghost predicate Sound(s: State) {
    !s.faulted && Inv(s) && Handled(s)
  }

  /** The call is about slot i.  A registration never is: it takes a slot that is not in use. */
  predicate Names(c: Call, i: nat) {
    match c
    case Register(_, _, _, _) => false
    case Activate(j, _, _) => j == i
    case Deactivate(j) => j == i
    case Unregister(j) => j == i
  }

  /** A permitted call that is not about the slot to be spared, if one is. */
  predicate Allowed(s: State, c: Call, spared: Option<nat>)
    requires 1 <= s.numTimers <= |s.timers|
  {
    Permitted(s, c) && (spared.Some? ==> !Names(c, spared.value))
  }

  /** Each call is allowed when its turn comes. */
  ghost predicate AllAllowed(s: State, calls: seq<Call>, spared: Option<nat>)
    requires Good(s)
    decreases calls
  {
    calls == [] ||
    (!s.faulted && Allowed(s, calls[0], spared) && AllAllowed(ApplyCall(s, calls[0]), calls[1..], spared))
  }

  // ---------- the obligations along a run ----------

  /** The state in which FireSlot calls the handler of slot i. */
  function Called(s: State, i: nat, funct: Handler): State {
    s.(triggeredTimer := i, log := s.log + [Fired(i, funct, s.ticksTotal)])
  }

  /** The handler of slot i makes allowed calls where it is called. */
  ghost predicate FireObeys(s: State, i: nat, dev: Devices, spared: Option<nat>)
    requires Inv(s) && i < s.numTimers
  {
    s.timers[i].funct.Some? ==>
      var s1 := Called(s, i, s.timers[i].funct.value);
      AllAllowed(s1, HandlerCalls(s1, dev, i), spared)
  }

  /** So do those of the slots that are marked to fire, from slot i on, each in the state the ones before it leave. */
  ghost predicate DispatchObeys(s: State, i: nat, dev: Devices, spared: Option<nat>)
    requires Good(s)
    decreases MAX_TIMERS - i
  {
    s.faulted || s.numTimers <= i || |s.triggered| <= i ||
    if s.triggered[i] then FireObeys(s, i, dev, spared) && DispatchObeys(FireSlot(s, i, dev), i + 1, dev, spared)
    else DispatchObeys(s, i + 1, dev, spared)
  }

  ghost predicate TickObeys(s: State, dev: Devices, spared: Option<nat>)
    requires Good(s)
  {
    !s.faulted && s.currCountdown == 1 ==> DispatchObeys(Advance(s.(currCountdown := 0)), 0, dev, spared)
  }

  ghost predicate TicksObey(s: State, n: nat, dev: Devices, spared: Option<nat>)
    requires Good(s)
    decreases n
  {
    n == 0 || (TickObeys(s, dev, spared) && TicksObey(Tick1(s, dev), n - 1, dev, spared))
  }

  /** A request is allowed; the handlers that ticks call make allowed calls. */
  ghost predicate StepObeys(s: State, step: Step, dev: Devices, spared: Option<nat>)
    requires Good(s)
  {
    match step
    case OneTick => TickObeys(s, dev, spared)
    case Batch(n) => TicksObey(s, n, dev, spared)
    case Request(c) => !s.faulted && Allowed(s, c, spared)
  }

  /** Everybody keeps the obligations in the states the run comes to, and no call is about the slot to be spared. */
  ghost predicate RunObeys(s: State, steps: seq<Step>, dev: Devices, spared: Option<nat>)
    requires Good(s)
    decreases steps
  {
    steps != [] ==> StepObeys(s, steps[0], dev, spared) && RunObeys(Exec(s, steps[0], dev), steps[1..], dev, spared)
  }

  /** A sound state outside of events. */
  ghost predicate Quiet(s: State) {
    Sound(s) && s.triggered == [] && s.triggeredTimer == 0
  }

  // ---------- permitted calls do not fault ----------

  lemma PermittedCall(s: State, c: Call)
    requires Sound(s) && Permitted(s, c)
    ensures var r := ApplyCall(s, c);
      Sound(r) && r.triggered == s.triggered && r.triggeredTimer == s.triggeredTimer
  {
    hide Inv, ApplyRegister, ApplyActivate, ApplyDeactivate, ApplyUnregister, SlotHandled, Pending, Permitted, Room;
    match c
    case Register(_, _, _, _) => PermittedRegister(s, c);
    case Activate(_, _, _) => PermittedActivate(s, c);
    case Deactivate(_) => PermittedDeactivate(s, c);
    case Unregister(_) => PermittedUnregister(s, c);
  }

  lemma PermittedRegister(s: State, c: Call)
    requires Sound(s) && c.Register? && Permitted(s, c)
    ensures var r := ApplyRegister(s, c);
      !r.faulted && Handled(r) && r.triggered == s.triggered && r.triggeredTimer == s.triggeredTimer
  {
    hide NotOverdue, NullTimerRuns, FreeSlot, U32;
    assert forall k: nat :: k < s.numTimers && Pending(s, k) ==> s.timers[k].inUse;
  }

  lemma PermittedActivate(s: State, c: Call)
    requires Sound(s) && c.Activate? && Permitted(s, c)
    ensures var r := ApplyActivate(s, c);
      !r.faulted && Handled(r) && r.triggered == s.triggered && r.triggeredTimer == s.triggeredTimer
  {
    hide NotOverdue, NullTimerRuns, U32;
    assert SlotHandled(s.timers[c.i]);
  }

  lemma PermittedDeactivate(s: State, c: Call)
    requires Sound(s) && c.Deactivate? && Permitted(s, c)
    ensures var r := ApplyDeactivate(s, c);
      !r.faulted && Handled(r) && r.triggered == s.triggered && r.triggeredTimer == s.triggeredTimer
  {
    hide NotOverdue, NullTimerRuns;
    assert SlotHandled(s.timers[c.i]);
  }

  lemma PermittedUnregister(s: State, c: Call)
    requires Sound(s) && c.Unregister? && Permitted(s, c)
    ensures var r := ApplyUnregister(s, c);
      !r.faulted && Handled(r) && r.triggered == s.triggered && r.triggeredTimer == s.triggeredTimer
  {
    hide NotOverdue, NullTimerRuns;
  }

  lemma {:induction false} PermittedCalls(s: State, calls: seq<Call>, spared: Option<nat>)
    requires Sound(s) && AllAllowed(s, calls, spared)
    ensures var r := ApplyCalls(s, calls);
      Sound(r) && r.triggered == s.triggered && r.triggeredTimer == s.triggeredTimer
    decreases calls
  {
    hide ApplyCall, Handled, Permitted, Inv;
    if calls != [] {
      PermittedCall(s, calls[0]);
      PermittedCalls(ApplyCall(s, calls[0]), calls[1..], spared);
    }
  }

  /** A call faults exactly if there is no slot left for it, or it is about a slot that is not there. */
  lemma FaultsExactly(s: State, c: Call)
    requires Inv(s) && !s.faulted
    ensures ApplyCall(s, c).faulted <==>
            match c
            case Register(_, _, _, _) => s.numTimers == 64 && forall k :: 1 <= k < 64 ==> s.timers[k].inUse
            case Activate(i, _, _) => !(1 <= i < s.numTimers)
            case Deactivate(i) => !(1 <= i < s.numTimers)
            case Unregister(i) => !(1 <= i < s.numTimers && s.timers[i].inUse)
  {
    hide NotOverdue, NullTimerRuns, U32;
  }

  /** And an event does if it comes to a slot that was not there when it began, or calls one that has no handler. */
  lemma EventFaults(s: State, i: nat, dev: Devices)
    requires Inv(s) && !s.faulted && i < s.numTimers
    ensures |s.triggered| <= i ==> Dispatch(s, i, dev).faulted
    ensures s.timers[i].funct.None? ==> FireSlot(s, i, dev).faulted
  {
    hide ApplyCalls;
  }

  /** What holds before slot i has its turn in the second loop. */
  ghost predicate Ready(s: State, i: nat) {
    && !s.faulted && Inv(s) && s.triggeredTimer == 0 && s.triggered != []
    && s.numTimers <= |s.triggered| <= MAX_TIMERS
    && (forall k :: 0 <= k < s.numTimers ==> SlotHandled(s.timers[k]))
    && (forall k :: i <= k < s.numTimers && s.triggered[k] ==> s.timers[k].inUse)
  }

  lemma FireReady(s: State, i: nat, dev: Devices, spared: Option<nat>)
    requires Ready(s, i) && i < s.numTimers && s.triggered[i] && FireObeys(s, i, dev, spared)
    ensures Ready(FireSlot(s, i, dev), i + 1) && FireSlot(s, i, dev).triggered == s.triggered
  {
    hide Inv, ApplyCalls;
    ReadyBounds(s, i);
    assert SlotHandled(s.timers[i]) && s.timers[i].inUse;
    var s1 := Called(s, i, s.timers[i].funct.value);
    assert Inv(s1) by { SameInv(s, i, s1.log); }
    assert Sound(s1);
    var calls := HandlerCalls(s1, dev, i);
    PermittedCalls(s1, calls, spared);
    var s2 := ApplyCalls(s1, calls);
    SameInv(s2, 0, s2.log);
    forall k | i + 1 <= k < s2.numTimers && s2.triggered[k] ensures s2.timers[k].inUse {
      assert Pending(s2, k);
    }
  }

  lemma SameInv(s: State, i: nat, log: seq<Event>)
    requires Inv(s)
    ensures Inv(s.(triggeredTimer := i, log := log)) && s.(triggeredTimer := i, log := s.log) == s.(triggeredTimer := i)
  {
    forall k | 0 <= k < s.numTimers ensures NotOverdue(s.(triggeredTimer := i, log := log), s.timers[k]) {
      assert NotOverdue(s, s.timers[k]);
    }
  }

  lemma {:induction false} DispatchReady(s: State, i: nat, dev: Devices, spared: Option<nat>) returns (j: nat)
    requires Ready(s, i) && Good(s) && DispatchObeys(s, i, dev, spared)
    ensures Ready(Dispatch(s, i, dev), j)
    decreases MAX_TIMERS - i
  {
    hide FireSlot, FireObeys, Ready;
    ReadyBounds(s, i);
    j := i;
    if i < s.numTimers {
      if s.triggered[i] {
        FireReady(s, i, dev, spared);
        j := DispatchReady(FireSlot(s, i, dev), i + 1, dev, spared);
      } else {
        ReadyNext(s, i);
        j := DispatchReady(s, i + 1, dev, spared);
      }
    }
  }

  lemma ReadyBounds(s: State, i: nat)
    requires Ready(s, i)
    ensures !s.faulted && Inv(s) && s.numTimers <= |s.triggered| && s.numTimers <= |s.timers|
  {
  }

  lemma ReadyNext(s: State, i: nat)
    requires Ready(s, i)
    ensures Ready(s, i + 1)
  {
  }

  /** An event whose handlers keep the obligations does not fault. */
  lemma EventIsQuiet(s: State, dev: Devices, spared: Option<nat>)
    requires !s.faulted && Expired(s) && Quiet(s.(currCountdown := s.currCountdownPeriod))
    requires DispatchObeys(Advance(s), 0, dev, spared)
    ensures Quiet(CountdownEvent(s, dev))
  {
    hide Dispatch, DispatchObeys, Advance;
    var s1 := Advance(s);
    assert Ready(s1, 0) by { AdvanceReady(s); }
    var j := DispatchReady(s1, 0, dev, spared);
    ReadyQuiet(Dispatch(s1, 0, dev), j);
  }

  lemma AdvanceReady(s: State)
    requires !s.faulted && Expired(s) && Quiet(s.(currCountdown := s.currCountdownPeriod))
    ensures Ready(Advance(s), 0)
  {
    hide Advance, NextDeadline;
    var s1, now := Advance(s), s.ticksTotal + s.currCountdownPeriod;
    forall k | 0 <= k < s1.numTimers ensures SlotHandled(s1.timers[k]) && (s1.triggered[k] ==> s1.timers[k].inUse) {
      assert SlotHandled(s.timers[k]) && s1.timers[k] == Rearm(s.timers[k], now);
    }
  }

  lemma ReadyQuiet(s: State, i: nat)
    requires Ready(s, i)
    ensures Quiet(s.(triggered := []))
  {
    forall k | 0 <= k < s.numTimers ensures NotOverdue(s.(triggered := []), s.timers[k]) {
      assert NotOverdue(s, s.timers[k]);
    }
  }

  lemma TickIsQuiet(s: State, dev: Devices, spared: Option<nat>)
    requires Quiet(s) && TickObeys(s, dev, spared)
    ensures Quiet(Tick1(s, dev))
  {
    hide CountdownEvent, DispatchObeys, Advance;
    var s1 := s.(currCountdown := s.currCountdown - 1);
    if s1.currCountdown == 0 {
      PeriodRestored(s);
      EventIsQuiet(s1, dev, spared);
    } else {
      CountdownMoves(s, s1.currCountdown);
    }
  }

  lemma CountdownMoves(s: State, c: nat)
    requires Quiet(s) && 1 <= c <= s.currCountdownPeriod
    ensures Quiet(s.(currCountdown := c))
  {
    forall k | 0 <= k < s.numTimers ensures NotOverdue(s.(currCountdown := c), s.timers[k]) {
      assert NotOverdue(s, s.timers[k]);
    }
  }

  lemma PeriodRestored(s: State)
    requires Quiet(s)
    ensures var s1 := s.(currCountdown := 0); Expired(s1) && Quiet(s1.(currCountdown := s1.currCountdownPeriod))
  {
    CountdownMoves(s, s.currCountdownPeriod);
    assert s.(currCountdown := 0).(currCountdown := s.currCountdownPeriod) ==
           s.(currCountdown := s.currCountdownPeriod);
  }

  lemma {:induction false} TicksAreQuiet(s: State, n: nat, dev: Devices, spared: Option<nat>)
    requires Quiet(s) && TicksObey(s, n, dev, spared)
    ensures Quiet(Ticks(s, n, dev))
    decreases n
  {
    hide Tick1, TickObeys, Quiet;
    if n > 0 {
      TickIsQuiet(s, dev, spared);
      QuietIsGood(s);
      TicksAreQuiet(Tick1(s, dev), n - 1, dev, spared);
    }
  }

  lemma QuietIsGood(s: State)
    requires Quiet(s)
    ensures Good(s) && !s.faulted
  {
  }

  lemma ExecIsQuiet(s: State, step: Step, dev: Devices, spared: Option<nat>)
    requires Quiet(s) && StepObeys(s, step, dev, spared)
    ensures Quiet(Exec(s, step, dev))
  {
    hide Tick1, TickN, Ticks, ApplyCall, TickObeys, TicksObey, Inv, Handled, Permitted;
    match step
    case OneTick => TickIsQuiet(s, dev, spared);
    case Batch(n) => TickNIsTicks(s, n, dev); TicksAreQuiet(s, n, dev, spared);
    case Request(c) => PermittedCall(s, c);
  }

  /** A run in which everybody keeps the obligations never faults. */
  lemma {:induction false} RunNeverFaults(s: State, steps: seq<Step>, dev: Devices, spared: Option<nat>)
    requires Quiet(s) && RunObeys(s, steps, dev, spared)
    ensures Quiet(Run(s, steps, dev)) && !Run(s, steps, dev).faulted
    decreases steps
  {
    hide Exec, StepObeys, Inv, Handled;
    if steps != [] {
      ExecIsQuiet(s, steps[0], dev, spared);
      RunNeverFaults(Exec(s, steps[0], dev), steps[1..], dev, spared);
    }
  }

  lemma InitialIsQuiet()
    ensures Quiet(INITIAL)
    ensures forall i :: 1 <= i < 64 ==> !INITIAL.timers[i].inUse && !INITIAL.timers[i].active
  {
    assert FreeSlot(INITIAL.timers, 1, 1) == 1;
  }

  // ---------- timers that are left alone ----------

  /** Slot i is still in use in r, and no call wrote it on the way from s. */
  ghost predicate Spared(s: State, r: State, i: nat) {
    Touches(r.log, i) == Touches(s.log, i) && (r.faulted || (i < r.numTimers <= |r.timers| && r.timers[i].inUse))
  }

  /** Slot i is registered. */
  ghost predicate Taken(s: State, i: nat) {
    s.faulted || (i < s.numTimers <= |s.timers| && s.timers[i].inUse)
  }

  lemma CallSpares(s: State, c: Call, i: nat)
    requires Good(s) && Taken(s, i) && !Names(c, i)
    ensures Spared(s, ApplyCall(s, c), i)
  {
    hide Touches, NotOverdue, NullTimerRuns, U32;
    if !s.faulted {
      var slot := if c.Register? then FreeSlot(s.timers, s.numTimers, 1) else c.i;
      LogAppend(s.log, Touched(slot), i);
    }
  }

  lemma {:induction false} CallsSpare(s: State, calls: seq<Call>, i: nat)
    requires Good(s) && Taken(s, i) && AllAllowed(s, calls, Some(i))
    ensures Spared(s, ApplyCalls(s, calls), i)
    decreases calls
  {
    hide Touches, Good, ApplyCall;
    if calls != [] {
      CallSpares(s, calls[0], i);
      CallsSpare(ApplyCall(s, calls[0]), calls[1..], i);
    }
  }

  lemma FireSpares(s: State, k: nat, dev: Devices, i: nat)
    requires Inv(s) && !s.faulted && k < s.numTimers && Taken(s, i) && FireObeys(s, k, dev, Some(i))
    ensures Spared(s, FireSlot(s, k, dev), i)
  {
    hide Touches, Names, AllAllowed, ApplyCalls;
    if s.timers[k].funct.Some? {
      var s1 := Called(s, k, s.timers[k].funct.value);
      LogAppend(s.log, Fired(k, s.timers[k].funct.value, s.ticksTotal), i);
      CallsSpare(s1, HandlerCalls(s1, dev, k), i);
    }
  }

  lemma {:induction false} DispatchSpares(s: State, k: nat, dev: Devices, i: nat)
    requires Good(s) && Taken(s, i) && DispatchObeys(s, k, dev, Some(i))
    ensures Spared(s, Dispatch(s, k, dev), i)
    decreases MAX_TIMERS - k
  {
    hide Touches, FireObeys, FireSlot;
    if !s.faulted && k < s.numTimers && k < |s.triggered| {
      if s.triggered[k] {
        FireSpares(s, k, dev, i);
        DispatchSpares(FireSlot(s, k, dev), k + 1, dev, i);
      } else {
        DispatchSpares(s, k + 1, dev, i);
      }
    }
  }

  lemma TickSpares(s: State, dev: Devices, i: nat)
    requires Good(s) && Taken(s, i) && TickObeys(s, dev, Some(i))
    ensures Spared(s, Tick1(s, dev), i)
  {
    hide Touches, DispatchObeys, Dispatch, Advance;
    if !s.faulted && s.currCountdown == 1 {
      var s0 := s.(currCountdown := 0);
      var s1 := Advance(s0);
      assert s1.timers[i] == Rearm(s.timers[i], s1.ticksTotal);
      DispatchSpares(s1, 0, dev, i);
    }
  }

  lemma {:induction false} TicksSpare(s: State, n: nat, dev: Devices, i: nat)
    requires Good(s) && Taken(s, i) && TicksObey(s, n, dev, Some(i))
    ensures Spared(s, Ticks(s, n, dev), i)
    decreases n
  {
    hide Touches, TickObeys, Tick1, Good;
    if n > 0 {
      TickSpares(s, dev, i);
      TicksSpare(Tick1(s, dev), n - 1, dev, i);
    }
  }

  lemma ExecSpares(s: State, step: Step, dev: Devices, i: nat)
    requires Good(s) && Taken(s, i) && StepObeys(s, step, dev, Some(i))
    ensures Spared(s, Exec(s, step, dev), i)
  {
    hide Touches, TickObeys, TicksObey, Tick1, TickN, Ticks, ApplyCall, Good;
    match step
    case OneTick => TickSpares(s, dev, i);
    case Batch(n) => TickNIsTicks(s, n, dev); TicksSpare(s, n, dev, i);
    case Request(c) => CallSpares(s, c, i);
  }

  /** A registered slot to be spared is never written, and stays registered. */
  lemma {:induction false} RunSpares(s: State, steps: seq<Step>, dev: Devices, i: nat)
    requires Good(s) && Taken(s, i) && RunObeys(s, steps, dev, Some(i))
    ensures Spared(s, Run(s, steps, dev), i)
    decreases steps
  {
    hide Touches, StepObeys, Exec, Good;
    if steps != [] {
      ExecSpares(s, steps[0], dev, i);
      RunSpares(Exec(s, steps[0], dev), steps[1..], dev, i);
    }
  }

  // ---------- what a caller can rely on ----------

  /** Virtual time is what has been delivered, over every run in which everybody keeps the obligations. */
  lemma TimeIsDelivered(s: State, steps: seq<Step>, dev: Devices, spared: Option<nat>)
    requires Quiet(s) && RunObeys(s, steps, dev, spared)
    ensures TimeTicks(Run(s, steps, dev)) == TimeTicks(s) + Delivered(steps)
  {
    hide TimeTicks, Run, RunObeys, Inv, Handled;
    RunNeverFaults(s, steps, dev, spared);
    TimeOfUnfaultedRun(s, steps, dev);
  }

  /** What a run has to meet after call c about slot i: everybody keeps the obligations, and nobody names the slot. */
  ghost predicate LeftTo(s: State, c: Call, i: nat, steps: seq<Step>, dev: Devices)
    requires Quiet(s)
  {
    Permitted(s, c) && RunObeys(ApplyCall(s, c), steps, dev, Some(i))
  }

  /**
   Over any run, a continuous timer activated at time t with a period (0 counts as 1), and about which no other call is
   made, fires exactly at t + period, t + 2 * period, ..., floor((T - t) / period) times by time T; a one-shot fires
   exactly once, at t + period; whatever the other timers, the other callers and all callbacks do.
   */
  lemma ActivatedTimerFiresOnSchedule(s: State, i: nat, ticks: nat, continuous: bool, steps: seq<Step>, dev: Devices)
    returns (fired: seq<Firing>)
    requires Quiet(s) && LeftTo(s, Activate(i, ticks, continuous), i, steps, dev)
    ensures var s0 := ApplyCall(s, Activate(i, ticks, continuous));
      Firings(Run(s0, steps, dev).log, i) == Firings(s.log, i) + fired
    ensures i < |s.timers|
    ensures AsPromised(fired, s.timers[i].funct, TimeTicks(s), Max(ticks, 1), continuous,
              TimeTicks(s) + Delivered(steps))
  {
    hide Run, Touches, TimeTicks, Firings, AsPromised, RunObeys, Inv, Handled,
      ApplyCall;
    var c := Activate(i, ticks, continuous);
    ActivateSetsSlot(s, i, ticks, continuous);
    fired := StartedTimerFires(s, c, i, steps, dev);
  }

  /** The same for a timer that is registered as active; it gets the first free slot. */
  lemma RegisteredTimerFiresOnSchedule(s: State, funct: Handler, ticks: nat, continuous: bool, i: nat,
                                       steps: seq<Step>, dev: Devices)
    returns (fired: seq<Firing>)
    requires Quiet(s) && i == FreeSlot(s.timers, s.numTimers, 1)
    requires LeftTo(s, Register(funct, ticks, continuous, true), i, steps, dev)
    ensures var s0 := ApplyCall(s, Register(funct, ticks, continuous, true));
      Firings(Run(s0, steps, dev).log, i) == Firings(s.log, i) + fired
    ensures AsPromised(fired, Some(funct), TimeTicks(s), Max(ticks, 1), continuous, TimeTicks(s) + Delivered(steps))
  {
    hide Run, Touches, TimeTicks, Firings, AsPromised, RunObeys, Inv, Handled,
      ApplyCall, FreeSlot;
    var c := Register(funct, ticks, continuous, true);
    RegisterSetsSlot(s, funct, ticks, continuous, i);
    fired := StartedTimerFires(s, c, i, steps, dev);
  }

  /** The slot holds a timer that has been started now. */
  ghost predicate Started(s: State, i: nat, funct: Option<Handler>, ticks: nat, continuous: bool, t: nat) {
    && !s.faulted && i < s.numTimers <= |s.timers| && s.timers[i].inUse
    && s.timers[i].active && s.timers[i].continuous == continuous && s.timers[i].funct == funct
    && s.timers[i].period == Max(ticks, 1) && s.timers[i].timeToFire == t + Max(ticks, 1)
  }

  lemma ActivateSetsSlot(s: State, i: nat, ticks: nat, continuous: bool)
    requires Quiet(s) && Permitted(s, Activate(i, ticks, continuous))
    ensures var s0 := ApplyCall(s, Activate(i, ticks, continuous));
      && i < |s.timers| && Started(s0, i, s.timers[i].funct, ticks, continuous, TimeTicks(s))
      && Firings(s0.log, i) == Firings(s.log, i) && TimeTicks(s0) == TimeTicks(s)
  {
    hide Touches, Firings, NotOverdue, NullTimerRuns;
    LogAppend(s.log, Touched(i), i);
    CallEffect(s, Activate(i, ticks, continuous), i);
  }

  lemma RegisterSetsSlot(s: State, funct: Handler, ticks: nat, continuous: bool, i: nat)
    requires Quiet(s) && Permitted(s, Register(funct, ticks, continuous, true)) &&
      i == FreeSlot(s.timers, s.numTimers, 1)
    ensures var s0 := ApplyCall(s, Register(funct, ticks, continuous, true));
      && Started(s0, i, Some(funct), ticks, continuous, TimeTicks(s))
      && Firings(s0.log, i) == Firings(s.log, i) && TimeTicks(s0) == TimeTicks(s)
  {
    hide Touches, Firings, FreeSlot, NotOverdue, NullTimerRuns;
    LogAppend(s.log, Touched(i), i);
    CallEffect(s, Register(funct, ticks, continuous, true), i);
  }

  lemma StartedTimerFires(s: State, c: Call, i: nat, steps: seq<Step>, dev: Devices) returns (fired: seq<Firing>)
    requires Quiet(s) && LeftTo(s, c, i, steps, dev)
    requires var s0 := ApplyCall(s, c);
      i < |s0.timers| && Started(s0, i, s0.timers[i].funct, s0.timers[i].period, s0.timers[i].continuous, TimeTicks(s0))
    ensures var s0 := ApplyCall(s, c);
      && Firings(Run(s0, steps, dev).log, i) == Firings(s0.log, i) + fired
      && MIN_TIMER_PERIOD <= s0.timers[i].period
      && AsPromised(fired, s0.timers[i].funct, TimeTicks(s0), s0.timers[i].period, s0.timers[i].continuous,
                    TimeTicks(s0) + Delivered(steps))
  {
    hide Run, Touches, TimeTicks, Firings, AsPromised, RunObeys, Inv, Handled,
      ApplyCall;
    var s0 := ApplyCall(s, c);
    PermittedCall(s, c);
    RunNeverFaults(s0, steps, dev, Some(i));
    RunSpares(s0, steps, dev, i);
    fired := UntouchedTimerFires(s0, i, steps, dev);
  }

  // ---------- timers that are stopped ----------

  /** Slot i is registered and not active. */
  ghost predicate Idle(s: State, i: nat) {
    !s.faulted && i < s.numTimers <= |s.timers| && s.timers[i].inUse && !s.timers[i].active
  }

  /** A timer that is not active, and about which no call is made, fires nothing and stays as it is. */
  lemma IdleStays(s: State, i: nat, steps: seq<Step>, dev: Devices)
    requires Quiet(s) && Idle(s, i) && RunObeys(s, steps, dev, Some(i))
    ensures var r := Run(s, steps, dev);
      && Quiet(r) && i < r.numTimers <= |r.timers| && r.timers[i] == s.timers[i]
      && Firings(r.log, i) == Firings(s.log, i)
  {
    hide Run, Touches, TimeTicks, Firings, RunObeys, Inv, Handled;
    RunNeverFaults(s, steps, dev, Some(i));
    RunSpares(s, steps, dev, i);
    RunFollows(s, steps, dev, i);
  }

  /**
   Over any run, a timer that is deactivated, and about which no other call is made, never fires again; its slot is
   as it was but for the active flag, so the period is there for an activation that asks for none.
   */
  lemma StoppedTimerIsSilent(s: State, i: nat, steps: seq<Step>, dev: Devices)
    requires Quiet(s) && LeftTo(s, Deactivate(i), i, steps, dev) && s.timers[i].inUse
    ensures var r := Run(ApplyCall(s, Deactivate(i)), steps, dev);
      && Quiet(r) && i < r.numTimers <= |r.timers| && r.timers[i] == s.timers[i].(active := false)
      && Firings(r.log, i) == Firings(s.log, i)
  {
    hide Run, Touches, Firings, RunObeys, Handled, NotOverdue, NullTimerRuns;
    PermittedCall(s, Deactivate(i));
    LogAppend(s.log, Touched(i), i);
    IdleStays(ApplyCall(s, Deactivate(i)), i, steps, dev);
  }

  /** Nor does a timer fire that is registered as not active; it keeps what it was registered with. */
  lemma RegisteredIdleIsSilent(s: State, funct: Handler, ticks: nat, continuous: bool, i: nat, steps: seq<Step>,
                               dev: Devices)
    requires Quiet(s) && i == FreeSlot(s.timers, s.numTimers, 1)
    requires LeftTo(s, Register(funct, ticks, continuous, false), i, steps, dev)
    ensures var r := Run(ApplyCall(s, Register(funct, ticks, continuous, false)), steps, dev);
      && Quiet(r) && i < r.numTimers <= |r.timers| && r.timers[i].inUse && !r.timers[i].active
      && r.timers[i].period == Max(ticks, 1) && r.timers[i].continuous == continuous
      && r.timers[i].funct == Some(funct) && Firings(r.log, i) == Firings(s.log, i)
  {
    hide Run, Touches, Firings, RunObeys, Handled, NotOverdue, NullTimerRuns, FreeSlot;
    PermittedCall(s, Register(funct, ticks, continuous, false));
    LogAppend(s.log, Touched(i), i);
    IdleStays(ApplyCall(s, Register(funct, ticks, continuous, false)), i, steps, dev);
  }

  /** An idle timer can be given back; its slot is then what the next registration gets, unless a lower one is free. */
  lemma IdleSlotIsTakenAgain(s: State, i: nat, c: Call)
    requires Quiet(s) && Idle(s, i) && 0 < i && c.Register?
    ensures Permitted(s, Unregister(i))
    ensures var u, free := ApplyCall(s, Unregister(i)), FreeSlot(s.timers, s.numTimers, 1);
      && Quiet(u) && Permitted(u, c)
      && FreeSlot(u.timers, u.numTimers, 1) == if free < i then free else i
  {
    hide NotOverdue, NullTimerRuns, Handled;
    PermittedCall(s, Unregister(i));
    var u := ApplyCall(s, Unregister(i));
    var free, slot := FreeSlot(s.timers, s.numTimers, 1), FreeSlot(u.timers, u.numTimers, 1);
    assert !u.timers[i].inUse && forall k :: 0 <= k < |s.timers| && k != i ==> u.timers[k] == s.timers[k];
    assert slot <= i;
    assert s.numTimers <= MAX_TIMERS && i < MAX_TIMERS;
  }

  /** The state in which slot j has its turn, when slots i and on are dispatched. */
  function UpTo(s: State, i: nat, j: nat, dev: Devices): (r: State)
    requires Good(s)
    ensures Good(r)
    decreases j - i
  {
    if j <= i || s.faulted || s.numTimers <= i then s
    else if |s.triggered| <= i then s.(faulted := true)
    else UpTo(if s.triggered[i] then FireSlot(s, i, dev) else s, i + 1, j, dev)
  }

  lemma {:induction false} UpToReady(s: State, i: nat, j: nat, dev: Devices)
    requires Ready(s, i) && Good(s) && DispatchObeys(s, i, dev, None) && i <= j < UpTo(s, i, j, dev).numTimers
    ensures var d := UpTo(s, i, j, dev);
      && Ready(d, j) && DispatchObeys(d, j, dev, None) && Dispatch(s, i, dev) == Dispatch(d, j, dev)
    decreases j - i
  {
    hide FireSlot, FireObeys, Ready;
    ReadyBounds(s, i);
    if i < j {
      if i < s.numTimers {
        if s.triggered[i] {
          FireReady(s, i, dev, None);
          UpToReady(FireSlot(s, i, dev), i + 1, j, dev);
        } else {
          ReadyNext(s, i);
          UpToReady(s, i + 1, j, dev);
        }
      }
    }
  }

  lemma {:induction false} CallsConcat(s: State, a: seq<Call>, b: seq<Call>, spared: Option<nat>)
    requires Good(s) && AllAllowed(s, a + b, spared)
    ensures AllAllowed(s, a, spared) && AllAllowed(ApplyCalls(s, a), b, spared)
    ensures ApplyCalls(s, a + b) == ApplyCalls(ApplyCalls(s, a), b)
    decreases a
  {
    hide ApplyCall, Good, Allowed;
    if a == [] {
      assert a + b == b;
    } else {
      assert (a + b)[0] == a[0] && (a + b)[1..] == a[1..] + b;
      CallsConcat(ApplyCall(s, a[0]), a[1..], b, spared);
    }
  }

  /** The handler of slot j, called in d, makes the calls `before`, deactivates i, and makes the calls `after`. */
  ghost predicate StopsInHandler(d: State, j: nat, dev: Devices, before: seq<Call>, i: nat, after: seq<Call>) {
    && !d.faulted && Inv(d) && j < d.numTimers && d.timers[j].funct.Some?
    && HandlerCalls(Called(d, j, d.timers[j].funct.value), dev, j) == before + [Deactivate(i)] + after
  }

  /** The state in which the call is made. */
  function AtCall(d: State, j: nat, before: seq<Call>): State
    requires Inv(d) && j < d.numTimers && d.timers[j].funct.Some?
  {
    ApplyCalls(Called(d, j, d.timers[j].funct.value), before)
  }

  /** From then on nobody makes a call about slot i: not the handler, not those after it, and nobody in the run. */
  ghost predicate LeftInHandler(d: State, j: nat, dev: Devices, before: seq<Call>, i: nat, after: seq<Call>)
    requires StopsInHandler(d, j, dev, before, i, after)
  {
    var at := AtCall(d, j, before);
    && Good(at) && !at.faulted && i < at.numTimers && at.timers[i].inUse
    && AllAllowed(ApplyCall(at, Deactivate(i)), after, Some(i))
    && DispatchObeys(FireSlot(d, j, dev), j + 1, dev, Some(i))
  }

  /**
   A timer that is deactivated by a handler fires once more exactly if its slot is marked to fire in the same event and
   has not yet had its turn, and never after the event.
   */
  lemma StoppedByHandler(s: State, j: nat, before: seq<Call>, i: nat, after: seq<Call>, steps: seq<Step>, dev: Devices)
    requires !s.faulted && Expired(s) && Quiet(s.(currCountdown := s.currCountdownPeriod))
    requires DispatchObeys(Advance(s), 0, dev, None)
    requires var d := UpTo(Advance(s), 0, j, dev);
      && j < d.numTimers && j < |d.triggered| && d.triggered[j] && StopsInHandler(d, j, dev, before, i, after)
      && LeftInHandler(d, j, dev, before, i, after)
    requires RunObeys(CountdownEvent(s, dev), steps, dev, Some(i))
    ensures var at, r := AtCall(UpTo(Advance(s), 0, j, dev), j, before), Run(CountdownEvent(s, dev), steps, dev);
      && i < |at.timers| && i < r.numTimers <= |r.timers| && r.timers[i] == at.timers[i].(active := false)
      && Firings(r.log, i) == Firings(at.log, i) + if j < i then Marked(at, i) else []
  {
    hide Advance, UpTo, Dispatch, DispatchObeys, Run, RunObeys, FireSlot, AtCall, Firings, Touches, Ready, Inv, Handled,
      LeftInHandler, Marked, Expired, HandlerCalls;
    var first := Advance(s);
    AdvanceReady(s);
    ReadyBounds(first, 0);
    var d := UpTo(first, 0, j, dev);
    UpToReady(first, 0, j, dev);
    var at := AtCall(d, j, before);
    StoppedInDispatch(d, j, before, i, after, dev);
    EventIsQuiet(s, dev, None);
    var e := CountdownEvent(s, dev);
    assert e == Dispatch(d, j, dev).(triggered := []) by { EventIsDispatch(s, dev); }
    IdleStays(e, i, steps, dev);
  }

  lemma EventIsDispatch(s: State, dev: Devices)
    requires Expired(s) && !s.faulted
    ensures CountdownEvent(s, dev) == Dispatch(Advance(s), 0, dev).(triggered := [])
  {
    hide Dispatch, Advance;
  }

  lemma StoppedInDispatch(d: State, j: nat, before: seq<Call>, i: nat, after: seq<Call>, dev: Devices)
    requires Ready(d, j) && Good(d) && DispatchObeys(d, j, dev, None) && j < d.numTimers && d.triggered[j]
    requires StopsInHandler(d, j, dev, before, i, after) && LeftInHandler(d, j, dev, before, i, after)
    ensures var at, r := AtCall(d, j, before), Dispatch(d, j, dev);
      && !r.faulted && i < |at.timers| && i < r.numTimers <= |r.timers|
      && r.timers[i] == at.timers[i].(active := false) && r.timers[i].inUse
      && Firings(r.log, i) == Firings(at.log, i) + if j < i then Marked(at, i) else []
  {
    hide Firings, Touches, FireSlot, Dispatch, DispatchObeys, FireObeys, AtCall, Inv, Ready;
    ReadyBounds(d, j);
    DispatchUnfolds(d, j, dev);
    FireReady(d, j, dev, None);
    var f := FireSlot(d, j, dev);
    StoppedInFire(d, j, before, i, after, dev);
    var k := DispatchReady(f, j + 1, dev, Some(i));
    var r := Dispatch(f, j + 1, dev);
    ReadyBounds(r, k);
    DispatchSpares(f, j + 1, dev, i);
    DispatchEffect(f, j + 1, dev, i);
  }

  lemma DispatchUnfolds(d: State, j: nat, dev: Devices)
    requires Ready(d, j) && Good(d) && DispatchObeys(d, j, dev, None) && j < d.numTimers && d.triggered[j]
    ensures FireObeys(d, j, dev, None) && Dispatch(d, j, dev) == Dispatch(FireSlot(d, j, dev), j + 1, dev)
  {
    hide FireSlot, FireObeys;
  }

  lemma StoppedInFire(d: State, j: nat, before: seq<Call>, i: nat, after: seq<Call>, dev: Devices)
    requires Ready(d, j) && Good(d) && j < d.numTimers && d.triggered[j] && FireObeys(d, j, dev, None)
    requires StopsInHandler(d, j, dev, before, i, after) && LeftInHandler(d, j, dev, before, i, after)
    ensures var at, f := AtCall(d, j, before), FireSlot(d, j, dev);
      && i < |at.timers| && Idle(f, i) && f.timers[i] == at.timers[i].(active := false)
      && Firings(f.log, i) == Firings(at.log, i) && Marked(f, i) == Marked(at, i)
  {
    hide Firings, Touches, ApplyCalls, Inv, DispatchObeys, TimeTicks, AllAllowed, Ready;
    ReadyBounds(d, j);
    FireReady(d, j, dev, None);
    ReadyBounds(FireSlot(d, j, dev), j + 1);
    var s1 := Called(d, j, d.timers[j].funct.value);
    assert Inv(s1) by { SameInv(d, j, s1.log); }
    StoppedInCalls(s1, before, i, after);
  }

  lemma StoppedInCalls(s: State, before: seq<Call>, i: nat, after: seq<Call>)
    requires Good(s) && !s.faulted && AllAllowed(s, before + [Deactivate(i)] + after, None)
    requires !ApplyCalls(s, before + [Deactivate(i)] + after).faulted
    requires var at := ApplyCalls(s, before);
      && !at.faulted && i < at.numTimers && at.timers[i].inUse
      && AllAllowed(ApplyCall(at, Deactivate(i)), after, Some(i))
    ensures var at, f := ApplyCalls(s, before), ApplyCalls(s, before + [Deactivate(i)] + after);
      && i < |at.timers| && Idle(f, i) && f.timers[i] == at.timers[i].(active := false)
      && Firings(f.log, i) == Firings(at.log, i) && f.triggered == at.triggered && f.ticksTotal == at.ticksTotal
  {
    hide Firings, Touches, ApplyCalls, ApplyCall, TimeTicks, AllAllowed, Permitted;
    assert before + ([Deactivate(i)] + after) == before + [Deactivate(i)] + after;
    CallsConcat(s, before, [Deactivate(i)] + after, None);
    var at := ApplyCalls(s, before);
    assert 0 < i by { FirstAllowed(at, Deactivate(i), after); }
    CallsUnfold(at, Deactivate(i), after);
    Deactivated(at, i);
    CallsSpare(ApplyCall(at, Deactivate(i)), after, i);
    CallsEffect(ApplyCall(at, Deactivate(i)), after, i);
  }

  lemma FirstAllowed(s: State, c: Call, rest: seq<Call>)
    requires Good(s) && !s.faulted && AllAllowed(s, [c] + rest, None)
    ensures Permitted(s, c)
  {
    assert ([c] + rest)[0] == c;
  }

  lemma CallsUnfold(s: State, c: Call, rest: seq<Call>)
    requires Good(s)
    ensures ApplyCalls(s, [c] + rest) == ApplyCalls(ApplyCall(s, c), rest)
  {
    hide ApplyCall, Good;
    assert ([c] + rest)[0] == c && ([c] + rest)[1..] == rest;
  }

  /** The slot is as it was but for the active flag, and nothing has fired or become due. */
  lemma Deactivated(s: State, i: nat)
    requires Good(s) && !s.faulted && 0 < i < s.numTimers && s.timers[i].inUse
    ensures var r := ApplyCall(s, Deactivate(i));
      && Idle(r, i) && r.timers[i] == s.timers[i].(active := false)
      && r.triggered == s.triggered && r.ticksTotal == s.ticksTotal
      && Firings(r.log, i) == Firings(s.log, i)
  {
    hide Firings, Touches, NotOverdue, NullTimerRuns;
    LogAppend(s.log, Touched(i), i);
  }

  // ---------- handlers that keep the obligations ----------

  /** The state a handler is called in. */
  ghost predicate InCallback(s: State) {
    && Sound(s) && 0 < s.triggeredTimer < s.numTimers <= |s.triggered|
    && s.triggered[s.triggeredTimer] && s.timers[s.triggeredTimer].inUse
  }

  /** The slots are in use. */
  ghost predicate AllTaken(s: State, kept: set<nat>) {
    forall k :: k in kept ==> Taken(s, k)
  }

  /** The call does not give one of the slots back. */
  predicate Keeps(c: Call, kept: set<nat>) {
    c.Unregister? ==> c.i !in kept
  }

  /**
   Handlers that, while the slots they know of are in use, make allowed calls and give none of these slots back: in
   every state a handler might be called in, whether a run comes to it or not.
   */
  ghost predicate Obedient(dev: Devices, kept: set<nat>, spared: Option<nat>) {
    forall s: State :: InCallback(s) && AllTaken(s, kept) ==>
      AllAllowed(s, dev(s), spared) && forall k :: 0 <= k < |dev(s)| ==> Keeps(dev(s)[k], kept)
  }

  /** The requests of a run are allowed when they are made, and give none of the slots back. */
  ghost predicate RequestsAllowed(s: State, steps: seq<Step>, dev: Devices, kept: set<nat>, spared: Option<nat>)
    requires Good(s)
    decreases steps
  {
    steps != [] ==>
      && (steps[0].Request? ==> !s.faulted && Allowed(s, steps[0].c, spared) && Keeps(steps[0].c, kept))
      && RequestsAllowed(Exec(s, steps[0], dev), steps[1..], dev, kept, spared)
  }

  lemma CallKeeps(s: State, c: Call, kept: set<nat>)
    requires Good(s) && AllTaken(s, kept) && Keeps(c, kept)
    ensures AllTaken(ApplyCall(s, c), kept)
  {
    hide NotOverdue, NullTimerRuns, U32, TimeTicks;
    forall k | k in kept ensures Taken(ApplyCall(s, c), k) {
      assert Taken(s, k);
    }
  }

  lemma {:induction false} CallsKeep(s: State, calls: seq<Call>, kept: set<nat>)
    requires Good(s) && AllTaken(s, kept) && forall k :: 0 <= k < |calls| ==> Keeps(calls[k], kept)
    ensures AllTaken(ApplyCalls(s, calls), kept)
    decreases calls
  {
    hide AllTaken, ApplyCall, Good, Keeps;
    if calls != [] {
      CallKeeps(s, calls[0], kept);
      CallsKeep(ApplyCall(s, calls[0]), calls[1..], kept);
    }
  }

  lemma SameSlots(s: State, r: State, kept: set<nat>)
    requires AllTaken(s, kept) && s.faulted == r.faulted && r.numTimers == s.numTimers && |r.timers| == |s.timers|
    requires forall k :: 0 <= k < |s.timers| ==> r.timers[k].inUse == s.timers[k].inUse
    ensures AllTaken(r, kept)
  {
    forall k | k in kept ensures Taken(r, k) {
      assert Taken(s, k);
    }
  }

  lemma ObedientFire(s: State, i: nat, dev: Devices, kept: set<nat>, spared: Option<nat>)
    requires Obedient(dev, kept, spared) && Ready(s, i) && i < s.numTimers && s.triggered[i] && AllTaken(s, kept)
    ensures FireObeys(s, i, dev, spared) && AllTaken(FireSlot(s, i, dev), kept)
  {
    hide Inv, ApplyCalls, AllTaken, AllAllowed;
    ReadyBounds(s, i);
    assert SlotHandled(s.timers[i]) && s.timers[i].inUse;
    var s1 := Called(s, i, s.timers[i].funct.value);
    assert Inv(s1) by { SameInv(s, i, s1.log); }
    SameSlots(s, s1, kept);
    assert i > 0 ==> InCallback(s1);
    var calls := HandlerCalls(s1, dev, i);
    assert AllAllowed(s1, calls, spared) by {
      NoCalls(s1, spared);
    }
    CallsKeep(s1, calls, kept);
    SameSlots(ApplyCalls(s1, calls), FireSlot(s, i, dev), kept);
  }

  lemma NoCalls(s: State, spared: Option<nat>)
    requires Good(s)
    ensures AllAllowed(s, [], spared)
  {
  }

  lemma {:induction false} ObedientDispatch(s: State, i: nat, dev: Devices, kept: set<nat>, spared: Option<nat>)
    requires Obedient(dev, kept, spared) && Ready(s, i) && Good(s) && AllTaken(s, kept)
    ensures DispatchObeys(s, i, dev, spared) && AllTaken(Dispatch(s, i, dev), kept)
    decreases MAX_TIMERS - i
  {
    hide FireSlot, FireObeys, Obedient, Ready, AllTaken;
    ReadyBounds(s, i);
    if i < s.numTimers {
      if s.triggered[i] {
        ObedientFire(s, i, dev, kept, spared);
        FireReady(s, i, dev, spared);
        ObedientDispatch(FireSlot(s, i, dev), i + 1, dev, kept, spared);
      } else {
        ReadyNext(s, i);
        ObedientDispatch(s, i + 1, dev, kept, spared);
      }
    }
  }

  lemma ObedientTick(s: State, dev: Devices, kept: set<nat>, spared: Option<nat>)
    requires Obedient(dev, kept, spared) && Quiet(s) && AllTaken(s, kept)
    ensures TickObeys(s, dev, spared) && AllTaken(Tick1(s, dev), kept)
  {
    hide Dispatch, DispatchObeys, Obedient, Advance, AllTaken;
    var s0 := s.(currCountdown := s.currCountdown - 1);
    if s0.currCountdown == 0 {
      PeriodRestored(s);
      AdvanceReady(s0);
      var s1 := Advance(s0);
      SameSlots(s, s1, kept);
      ObedientDispatch(s1, 0, dev, kept, spared);
      SameSlots(Dispatch(s1, 0, dev), Tick1(s, dev), kept);
    } else {
      SameSlots(s, s0, kept);
    }
  }

  lemma {:induction false} ObedientTicks(s: State, n: nat, dev: Devices, kept: set<nat>, spared: Option<nat>)
    requires Obedient(dev, kept, spared) && Quiet(s) && AllTaken(s, kept)
    ensures TicksObey(s, n, dev, spared) && AllTaken(Ticks(s, n, dev), kept)
    decreases n
  {
    hide Tick1, TickObeys, Obedient, Quiet, AllTaken;
    QuietIsGood(s);
    if n > 0 {
      ObedientTick(s, dev, kept, spared);
      TickIsQuiet(s, dev, spared);
      ObedientTicks(Tick1(s, dev), n - 1, dev, kept, spared);
    }
  }

  lemma ObedientStep(s: State, step: Step, dev: Devices, kept: set<nat>, spared: Option<nat>)
    requires Obedient(dev, kept, spared) && Quiet(s) && AllTaken(s, kept)
    requires step.Request? ==> Allowed(s, step.c, spared) && Keeps(step.c, kept)
    ensures StepObeys(s, step, dev, spared) && AllTaken(Exec(s, step, dev), kept)
  {
    hide Tick1, TickN, Ticks, ApplyCall, TickObeys, TicksObey, Inv, Handled, Allowed, Obedient, AllTaken;
    match step
    case OneTick => ObedientTick(s, dev, kept, spared);
    case Batch(n) => TickNIsTicks(s, n, dev); ObedientTicks(s, n, dev, kept, spared);
    case Request(c) => CallKeeps(s, c, kept);
  }

  /** With obedient handlers it is enough that the requests are allowed. */
  lemma {:induction false} ObedientRun(s: State, steps: seq<Step>, dev: Devices, kept: set<nat>, spared: Option<nat>)
    requires Obedient(dev, kept, spared) && Quiet(s) && AllTaken(s, kept)
    requires RequestsAllowed(s, steps, dev, kept, spared)
    ensures RunObeys(s, steps, dev, spared)
    decreases steps
  {
    hide Exec, Obedient, Inv, Handled, Allowed, AllTaken, StepObeys;
    if steps != [] {
      ObedientStep(s, steps[0], dev, kept, spared);
      ExecIsQuiet(s, steps[0], dev, spared);
      ObedientRun(Exec(s, steps[0], dev), steps[1..], dev, kept, spared);
    }
  }

  /** A handler that starts its own timer again is obedient, whatever the period. */
  lemma RestartingIsObedient(ticks: nat, continuous: bool)
    ensures Obedient((s: State) => [Activate(s.triggeredTimer, ticks, continuous)], {}, None)
  {
    var dev: Devices := (s: State) => [Activate(s.triggeredTimer, ticks, continuous)];
    forall s: State | InCallback(s) ensures AllAllowed(s, dev(s), None) {
      OneCall(s, Activate(s.triggeredTimer, ticks, continuous), None);
    }
  }

  lemma OneCall(s: State, c: Call, spared: Option<nat>)
    requires Sound(s) && Allowed(s, c, spared)
    ensures AllAllowed(s, [c], spared)
  {
    hide Inv, ApplyCall;
    PermittedCall(s, c);
    assert [c][1..] == [];
  }

  /** The handlers only start and stop timers of these slots, in whatever states and however many. */
  ghost predicate Uses(dev: Devices, slots: set<nat>) {
    forall s: State, k: nat :: k < |dev(s)| ==> StartsOrStops(dev(s)[k], slots)
  }

  predicate StartsOrStops(c: Call, slots: set<nat>) {
    match c
    case Register(_, _, _, _) => false
    case Activate(i, _, _) => i in slots
    case Deactivate(i) => i in slots
    case Unregister(_) => false
  }

  /** Handlers that start and stop timers by the fixed slots they have been given are obedient. */
  lemma UsersAreObedient(dev: Devices, slots: set<nat>, spared: Option<nat>)
    requires Uses(dev, slots) && 0 !in slots && (spared.Some? ==> spared.value !in slots)
    ensures Obedient(dev, slots, spared)
  {
    hide AllTaken, AllAllowed, StartsOrStops;
    forall s: State | InCallback(s) && AllTaken(s, slots)
      ensures AllAllowed(s, dev(s), spared) && forall k :: 0 <= k < |dev(s)| ==> Keeps(dev(s)[k], slots)
    {
      UsesAllowed(s, dev(s), slots, spared);
    }
  }

  lemma {:induction false} UsesAllowed(s: State, calls: seq<Call>, slots: set<nat>, spared: Option<nat>)
    requires Sound(s) && AllTaken(s, slots) && 0 !in slots && (spared.Some? ==> spared.value !in slots)
    requires forall k :: 0 <= k < |calls| ==> StartsOrStops(calls[k], slots)
    ensures AllAllowed(s, calls, spared) && forall k :: 0 <= k < |calls| ==> Keeps(calls[k], slots)
    decreases calls
  {
    hide ApplyCall, Handled, Inv, AllTaken, Pending;
    if calls != [] {
      var c := calls[0];
      assert StartsOrStops(c, slots);
      assert Taken(s, c.i) by { OneOfAll(s, c.i, slots); }
      PermittedCall(s, c);
      CallKeeps(s, c, slots);
      UsesAllowed(ApplyCall(s, c), calls[1..], slots, spared);
      assert forall k :: 0 < k < |calls| ==> calls[k] == calls[1..][k - 1];
    }
  }

  lemma OneOfAll(s: State, k: nat, slots: set<nat>)
    requires AllTaken(s, slots) && k in slots
    ensures Taken(s, k)
  {
  }

  /** The handler of one slot starts another one, whose own handler makes no calls. */
  function Starting(i: nat, k: nat, ticks: nat): Devices {
    (s: State) => if s.triggeredTimer == i then [Activate(k, ticks, false)] else []
  }

  /**
   The two timers of the real-time clock: the handler of slot 1, which is left alone, starts slot 2 whenever it fires.
   Registered with the initial machine, they meet all that is asked, over any number of ticks.
   */
  lemma ClockTimersMeetAll(second: Call, update: Call, ticks: nat, n: nat)
    requires second.Register? && second.active && update.Register? && !update.active
    ensures Quiet(INITIAL)
    ensures LeftTo(INITIAL, second, 1, [Request(update), Batch(n)], Starting(1, 2, ticks))
  {
    hide Tick1, TickN, Obedient, Starting, Sound, Uses;
    var dev := Starting(1, 2, ticks);
    var steps := [Request(update), Batch(n)];
    assert Quiet(INITIAL) && Permitted(INITIAL, second) by { InitialIsQuiet(); }
    var s0 := ApplyCall(INITIAL, second);
    var s1 := ApplyCall(s0, update);
    ClockTimersRegistered(second, update);
    assert Uses(dev, {2}) by { StartingUses(1, 2, ticks); }
    UsersAreObedient(dev, {2}, Some(1));
    assert steps[1..] == [Batch(n)];
    assert RequestsAllowed(s1, [Batch(n)], dev, {2}, Some(1));
    ObedientRun(s1, [Batch(n)], dev, {2}, Some(1));
    assert StepObeys(s0, steps[0], dev, Some(1));
  }

  lemma StartingUses(i: nat, k: nat, ticks: nat)
    ensures Uses(Starting(i, k, ticks), {k})
  {
  }

  lemma ClockTimersRegistered(second: Call, update: Call)
    requires second.Register? && second.active && update.Register? && !update.active
    ensures Permitted(INITIAL, second)
    ensures var s0 := ApplyCall(INITIAL, second); Quiet(s0) && Permitted(s0, update)
    ensures var s1 := ApplyCall(ApplyCall(INITIAL, second), update); Quiet(s1) && AllTaken(s1, {2})
  {
    InitialIsQuiet();
    assert FreeSlot(INITIAL.timers, 1, 1) == 1;
    PermittedCall(INITIAL, second);
    var s0 := ApplyCall(INITIAL, second);
    assert FreeSlot(s0.timers, 2, 1) == 2;
    PermittedCall(s0, update);
  }

  // ---------- a timer that fires although it has been deactivated ----------

  /** The handler of slot 1 deactivates slot 2. */
  function Stopping(): Devices {
    (s: State) => if s.triggeredTimer == 1 then [Deactivate(2)] else []
  }

  /** Two one-shot timers that are due at the same time: the second one fires, although the first has stopped it. */
  lemma StoppedTimerFiresOnceMore()
    ensures var steps := [Request(Register(1, 5, false, true)), Request(Register(2, 5, false, true)), Batch(5)];
      var r := Run(INITIAL, steps, Stopping());
      && !r.faulted && r.log == [Touched(1), Touched(2), Fired(1, 1, 5), Touched(2), Fired(2, 2, 5)]
      && Firings(r.log, 2) == [Firing(Some(2), 5)]
  {
    hide Run, TickN, Tick1;
    var a, b := Register(1, 5, false, true), Register(2, 5, false, true);
    var steps := [Request(a), Request(b), Batch(5)];
    var s1 := ApplyCall(INITIAL, a);
    var s2 := ApplyCall(s1, b);
    TwoRegistered();
    assert steps[1..] == [Request(b), Batch(5)] && steps[1..][1..] == [Batch(5)] && [Batch(5)][1..] == [];
    RunUnfolds(INITIAL, steps, Stopping());
    RunUnfolds(s1, steps[1..], Stopping());
    RunUnfolds(s2, [Batch(5)], Stopping());
    var r := TickN(s2, 5, Stopping());
    RunOfNothing(r, Stopping());
    BothFire(s2);
    Logs();
  }

  lemma RunUnfolds(s: State, steps: seq<Step>, dev: Devices)
    requires Good(s) && steps != []
    ensures Run(s, steps, dev) == Run(Exec(s, steps[0], dev), steps[1..], dev)
  {
    hide Exec;
  }

  lemma RunOfNothing(s: State, dev: Devices)
    requires Good(s)
    ensures Run(s, [], dev) == s
  {
  }

  lemma Logs()
    ensures Firings([Touched(1), Touched(2), Fired(1, 1, 5), Touched(2), Fired(2, 2, 5)], 2) == [Firing(Some(2), 5)]
  {
    hide Firings, Touches;
    var a: seq<Event> := [];
    var b := a + [Touched(1)];
    var c := b + [Touched(2)];
    var d := c + [Fired(1, 1, 5)];
    var e := d + [Touched(2)];
    LogAppend(a, Touched(1), 2);
    LogAppend(b, Touched(2), 2);
    LogAppend(c, Fired(1, 1, 5), 2);
    LogAppend(d, Touched(2), 2);
    LogAppend(e, Fired(2, 2, 5), 2);
    assert e + [Fired(2, 2, 5)] == [Touched(1), Touched(2), Fired(1, 1, 5), Touched(2), Fired(2, 2, 5)];
    NothingFired();
    assert [] + [Firing(Some(2), 5)] == [Firing(Some(2), 5)];
  }

  lemma NothingFired()
    ensures Firings([], 2) == []
  {
  }

  /** Both timers are due 5 ticks from now, and nothing else is. */
  ghost predicate TwoDue(s: State) {
    && Quiet(s) && s.numTimers == 3 && s.currCountdown == s.currCountdownPeriod == 5 && s.ticksTotal == 0
    && s.timers[0] == NULL_TIMER
    && s.timers[1] == Timer(true, 5, 5, true, false, Some(1)) && s.timers[2] == Timer(true, 5, 5, true, false, Some(2))
    && s.log == [Touched(1), Touched(2)]
  }

  lemma TwoRegistered()
    ensures var s1 := ApplyCall(INITIAL, Register(1, 5, false, true)); Good(s1) && !s1.faulted
    ensures TwoDue(ApplyCall(ApplyCall(INITIAL, Register(1, 5, false, true)), Register(2, 5, false, true)))
  {
    InitialIsQuiet();
    assert FreeSlot(INITIAL.timers, 1, 1) == 1;
    PermittedCall(INITIAL, Register(1, 5, false, true));
    var s1 := ApplyCall(INITIAL, Register(1, 5, false, true));
    assert FreeSlot(s1.timers, 2, 1) == 2;
    PermittedCall(s1, Register(2, 5, false, true));
  }

  lemma BothFire(s: State)
    requires TwoDue(s)
    ensures var r := TickN(s, 5, Stopping());
      !r.faulted && r.log == [Touched(1), Touched(2), Fired(1, 1, 5), Touched(2), Fired(2, 2, 5)]
  {
    hide Dispatch, Advance, Inv, Handled, Expired;
    PeriodRestored(s);
    var e := s.(currCountdown := 0);
    TwoTriggered(s);
    BothDispatched(Advance(e));
    EventIsDispatch(e, Stopping());
    NoMoreTicks(CountdownEvent(e, Stopping()), Stopping());
  }

  lemma TwoTriggered(s: State)
    requires TwoDue(s)
    ensures var e := s.(currCountdown := 0);
      && Expired(e)
      && var d := Advance(e);
         && Inv(d) && !d.faulted && d.numTimers == 3 && d.triggered == [false, true, true] && d.ticksTotal == 5
         && d.timers[1].funct == Some(1) && d.timers[2].funct == Some(2) && d.timers[2].inUse && d.log == s.log
  {
    hide Advance, Handled;
    PeriodRestored(s);
    var d := Advance(s.(currCountdown := 0));
    assert |d.triggered| == 3 && !d.triggered[0] && d.triggered[1] && d.triggered[2];
    assert d.timers[1] == Rearm(s.timers[1], 5) && d.timers[2] == Rearm(s.timers[2], 5);
  }

  lemma NoMoreTicks(s: State, dev: Devices)
    requires Good(s)
    ensures TickN(s, 0, dev) == s
  {
  }

  lemma BothDispatched(d: State)
    requires Inv(d) && !d.faulted && d.numTimers == 3 && d.triggered == [false, true, true] && d.ticksTotal == 5
    requires d.timers[1].funct == Some(1) && d.timers[2].funct == Some(2) && d.timers[2].inUse
    ensures var r := Dispatch(d, 0, Stopping());
      !r.faulted && r.log == d.log + [Fired(1, 1, 5), Touched(2), Fired(2, 2, 5)]
  {
    hide Inv, FireSlot;
    FirstFires(d);
    var f := FireSlot(d, 1, Stopping());
    SecondFires(f);
    var g := FireSlot(f, 2, Stopping());
    assert Dispatch(d, 0, Stopping()) == Dispatch(d, 1, Stopping());
    assert Dispatch(d, 1, Stopping()) == Dispatch(f, 2, Stopping());
    assert Dispatch(f, 2, Stopping()) == Dispatch(g, 3, Stopping()) == g;
    assert d.log + [Fired(1, 1, 5), Touched(2)] + [Fired(2, 2, 5)] ==
           d.log + [Fired(1, 1, 5), Touched(2), Fired(2, 2, 5)];
  }

  lemma FirstFires(d: State)
    requires Inv(d) && !d.faulted && d.numTimers == 3 && d.ticksTotal == 5
    requires d.timers[1].funct == Some(1) && d.timers[2].inUse
    ensures var f := FireSlot(d, 1, Stopping());
      && Inv(f) && !f.faulted && f.numTimers == 3 && f.triggered == d.triggered && f.ticksTotal == 5
      && f.timers[2].funct == d.timers[2].funct && f.log == d.log + [Fired(1, 1, 5), Touched(2)]
  {
    hide NotOverdue, NullTimerRuns;
    var s1 := Called(d, 1, 1);
    SameInv(d, 1, s1.log);
    assert HandlerCalls(s1, Stopping(), 1) == [Deactivate(2)];
    assert [] == [Deactivate(2)][1..];
    Deactivated(s1, 2);
    var s2 := ApplyCall(s1, Deactivate(2));
    assert ApplyCalls(s1, [Deactivate(2)]) == s2;
    SameInv(s2, 0, s2.log);
    assert d.log + [Fired(1, 1, 5)] + [Touched(2)] == d.log + [Fired(1, 1, 5), Touched(2)];
  }

  lemma SecondFires(f: State)
    requires Inv(f) && !f.faulted && f.numTimers == 3 && f.ticksTotal == 5 && f.timers[2].funct == Some(2)
    ensures var g := FireSlot(f, 2, Stopping());
      Good(g) && !g.faulted && g.numTimers == 3 && g.log == f.log + [Fired(2, 2, 5)]
  {
    hide NotOverdue, NullTimerRuns;
    var s1 := Called(f, 2, 2);
    SameInv(f, 2, s1.log);
    assert HandlerCalls(s1, Stopping(), 2) == [];
    assert ApplyCalls(s1, []) == s1;
  }
}
