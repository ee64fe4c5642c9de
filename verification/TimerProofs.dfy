/** Properties of every run of the timer scheduler. */
module TimerProofs {
  import opened Common
  import opened TimerSpec

  // ---------- the batch form refines the simple form ----------

  /** One tick can always be taken off the front of a batch. */
  lemma TickNStep(s: State, n: nat, dev: Devices)
    requires Good(s) && 0 < n
    ensures TickN(s, n, dev) == TickN(Tick1(s, dev), n - 1, dev)
  {
    hide CountdownEvent;
    if !s.faulted && 1 < s.currCountdown {
      var s1 := Tick1(s, dev);
      assert s1.(currCountdown := 0) == s.(currCountdown := 0);
    }
  }

  /** The batch form is the simple form: same state, same callbacks, same order, same times, same faults. */
  lemma {:induction false} TickNIsTicks(s: State, n: nat, dev: Devices)
    requires Good(s)
    ensures TickN(s, n, dev) == Ticks(s, n, dev)
    decreases n
  {
    hide CountdownEvent, Tick1;
    if n > 0 {
      hide Good, TickN;
      TickNStep(s, n, dev);
      TickNIsTicks(Tick1(s, dev), n - 1, dev);
    }
  }

  // ---------- what the log says about one slot ----------

  /** Which handler was called, and when. */
  datatype Firing = Firing(funct: Option<Handler>, time: nat)

  /** What slot i fired, in order. */
  function Firings(log: seq<Event>, i: nat): seq<Firing> {
    if log == [] then []
    else
      var e := log[|log| - 1];
      Firings(log[..|log| - 1], i) + if e.Fired? && e.timer == i then [Firing(Some(e.funct), e.time)] else []
  }

  /** How many API calls wrote slot i. */
  function Touches(log: seq<Event>, i: nat): nat {
    if log == [] then 0
    else Touches(log[..|log| - 1], i) + if log[|log| - 1] == Touched(i) then 1 else 0
  }

  lemma LogAppend(log: seq<Event>, e: Event, i: nat)
    ensures Firings(log + [e], i) ==
            Firings(log, i) + if e.Fired? && e.timer == i then [Firing(Some(e.funct), e.time)] else []
    ensures Touches(log + [e], i) == Touches(log, i) + if e == Touched(i) then 1 else 0
  {
    assert (log + [e])[..|log|] == log;
  }

  /** Slot i is one of the numTimers slots of s, and no call wrote it on the way from s to r. */
  ghost predicate LeftAlone(s: State, r: State, i: nat) {
    !r.faulted && i < s.numTimers && Touches(r.log, i) == Touches(s.log, i)
  }

  /** From s to r no virtual time passed, and slot i, if left alone, kept its contents and fired exactly at `fired`. */
  ghost predicate Effect(s: State, r: State, i: nat, fired: seq<Firing>)
    requires Good(s) && Good(r)
  {
    && (s.faulted ==> r.faulted)
    && Touches(s.log, i) <= Touches(r.log, i)
    && (!r.faulted ==> TimeTicks(r) == TimeTicks(s) && r.ticksTotal == s.ticksTotal && r.triggered == s.triggered)
    && (LeftAlone(s, r, i) ==>
          i < r.numTimers && r.timers[i] == s.timers[i] && Firings(r.log, i) == Firings(s.log, i) + fired)
  }

  lemma CallEffect(s: State, c: Call, i: nat)
    requires Good(s)
    ensures Effect(s, ApplyCall(s, c), i, [])
  {
    hide Firings, Touches;
    if !s.faulted {
      var slot := if c.Register? then FreeSlot(s.timers, s.numTimers, 1) else c.i;
      LogAppend(s.log, Touched(slot), i);
    }
  }

  lemma {:induction false} CallsEffect(s: State, calls: seq<Call>, i: nat)
    requires Good(s)
    ensures Effect(s, ApplyCalls(s, calls), i, [])
    decreases calls
  {
    hide Good, ApplyCall, TimeTicks;
    if calls != [] {
      CallEffect(s, calls[0], i);
      CallsEffect(ApplyCall(s, calls[0]), calls[1..], i);
    }
  }

  lemma FireSlotEffect(s: State, k: nat, dev: Devices, i: nat)
    requires Inv(s) && !s.faulted && k < s.numTimers
    ensures Effect(s, FireSlot(s, k, dev), i, if k == i then [Firing(s.timers[k].funct, s.ticksTotal)] else [])
  {
    if s.timers[k].funct.Some? {
      var e := Fired(k, s.timers[k].funct.value, s.ticksTotal);
      var s1 := s.(triggeredTimer := k, log := s.log + [e]);
      hide Firings, Touches, HandlerCalls, ApplyCalls;
      LogAppend(s.log, e, i);
      CallsEffect(s1, HandlerCalls(s1, dev, k), i);
    }
  }

  /** What slot i fires if it is marked. */
  function Marked(s: State, i: nat): seq<Firing> {
    if i < |s.triggered| && i < |s.timers| && s.triggered[i] then [Firing(s.timers[i].funct, s.ticksTotal)] else []
  }

  lemma {:induction false} DispatchEffect(s: State, k: nat, dev: Devices, i: nat)
    requires Good(s)
    ensures Effect(s, Dispatch(s, k, dev), i, if k <= i then Marked(s, i) else [])
    decreases MAX_TIMERS - k
  {
    hide Firings, Touches, FireSlot, TimeTicks;
    if !s.faulted && k < s.numTimers && k < |s.triggered| {
      var s1 := if s.triggered[k] then FireSlot(s, k, dev) else s;
      if s.triggered[k] {
        FireSlotEffect(s, k, dev, i);
      }
      DispatchEffect(s1, k + 1, dev, i);
    }
  }

  /** A countdown event fires a slot that is left alone once if it is due now, not at all otherwise, and re-arms it. */
  lemma EventEffect(s: State, dev: Devices, i: nat)
    requires Expired(s)
    ensures var r := CountdownEvent(s, dev);
      && (s.faulted ==> r.faulted)
      && Touches(s.log, i) <= Touches(r.log, i)
      && (!r.faulted ==> TimeTicks(r) == s.ticksTotal + s.currCountdownPeriod)
      && (LeftAlone(s, r, i) ==>
            var now := s.ticksTotal + s.currCountdownPeriod;
            && i < r.numTimers && r.timers[i] == Rearm(s.timers[i], now)
            && Firings(r.log, i) == Firings(s.log, i) + if IsDue(s.timers[i], now) then
                 [Firing(s.timers[i].funct, now)] else [])
  {
    hide Firings, Touches, Dispatch, Advance, TimeTicks;
    if !s.faulted {
      DispatchEffect(Advance(s), 0, dev, i);
      SameTime(Dispatch(Advance(s), 0, dev));
    }
  }

  lemma SameTime(s: State)
    ensures TimeTicks(s.(triggered := [])) == TimeTicks(s)
  {
  }

  // ---------- the schedule of a timer ----------

  /** What a timer that nobody touches has to fire, up to and including `now`. */
  function Schedule(t: Timer, now: nat): seq<Firing>
    requires MIN_TIMER_PERIOD <= t.period
    decreases t.active, now - t.timeToFire
  {
    if !t.active || now < t.timeToFire then []
    else [Firing(t.funct, t.timeToFire)] + Schedule(Rearm(t, t.timeToFire), now)
  }

  /** What the slot of a timer that nobody touches holds at time `now`. */
  function SlotAt(t: Timer, now: nat): Timer
    requires MIN_TIMER_PERIOD <= t.period
    decreases t.active, now - t.timeToFire
  {
    if !t.active || now < t.timeToFire then t else SlotAt(Rearm(t, t.timeToFire), now)
  }

  lemma {:induction false} ScheduleSplits(t: Timer, a: nat, b: nat)
    requires MIN_TIMER_PERIOD <= t.period && a <= b
    ensures SlotAt(t, a).period == t.period
    ensures Schedule(t, b) == Schedule(t, a) + Schedule(SlotAt(t, a), b)
    ensures SlotAt(t, b) == SlotAt(SlotAt(t, a), b)
    decreases t.active, a - t.timeToFire
  {
    if t.active && t.timeToFire <= a {
      ScheduleSplits(Rearm(t, t.timeToFire), a, b);
    }
  }

  /** The j-th time a continuous timer fires. */
  function NthTime(t: Timer, j: nat): nat {
    t.timeToFire + j * t.period
  }

  lemma {:induction false} ScheduleElements(t: Timer, now: nat)
    requires MIN_TIMER_PERIOD <= t.period && t.active && t.continuous
    ensures forall j :: 0 <= j < |Schedule(t, now)| ==> Schedule(t, now)[j] == Firing(t.funct, NthTime(t, j))
    decreases now - t.timeToFire
  {
    if t.timeToFire <= now {
      var next := Rearm(t, t.timeToFire);
      ScheduleElements(next, now);
      forall j | 0 <= j < |Schedule(t, now)| ensures Schedule(t, now)[j] == Firing(t.funct, NthTime(t, j)) {
        if j > 0 {
          assert Schedule(t, now)[j] == Schedule(next, now)[j - 1] == Firing(t.funct, NthTime(next, j - 1));
          Distribute(j, t.period);
        }
      }
    }
  }

  lemma Distribute(j: int, p: int)
    ensures (j - 1) * p + p == j * p
  {
  }

  lemma {:induction false} ScheduleLength(t: Timer, now: nat)
    requires MIN_TIMER_PERIOD <= t.period && t.active && t.continuous && t.timeToFire <= now
    ensures |Schedule(t, now)| == (now - t.timeToFire) / t.period + 1
    decreases now - t.timeToFire
  {
    var next := Rearm(t, t.timeToFire);
    if next.timeToFire <= now {
      ScheduleLength(next, now);
      DivStep(now - t.timeToFire, t.period);
    } else {
      DivModUnique(now - t.timeToFire, t.period, 0, now - t.timeToFire);
    }
  }

  lemma DivStep(x: nat, p: nat)
    requires 1 <= p <= x
    ensures x / p == (x - p) / p + 1
  {
    DivModUnique(x, p, (x - p) / p + 1, (x - p) % p);
  }

  // ---------- runs ----------

  datatype Step = OneTick | Batch(n: nat) | Request(c: Call)

  function Exec(s: State, step: Step, dev: Devices): (r: State)
    requires Good(s)
    ensures Good(r)
  {
    match step
    case OneTick => Tick1(s, dev)
    case Batch(n) => TickN(s, n, dev)
    case Request(c) => ApplyCall(s, c)
  }

  function Run(s: State, steps: seq<Step>, dev: Devices): (r: State)
    requires Good(s)
    ensures Good(r)
    decreases steps
  {
    if steps == [] then s else Run(Exec(s, steps[0], dev), steps[1..], dev)
  }

  /** From s to r slot i, if left alone, fired exactly when its schedule says and holds what its schedule says. */
  ghost predicate Follows(s: State, r: State, i: nat)
    requires Good(s) && Good(r)
  {
    && (s.faulted ==> r.faulted)
    && Touches(s.log, i) <= Touches(r.log, i)
    && (!r.faulted ==> TimeTicks(s) <= TimeTicks(r))
    && (LeftAlone(s, r, i) ==>
          && i < r.numTimers
          && r.timers[i] == SlotAt(s.timers[i], TimeTicks(r))
          && Firings(r.log, i) == Firings(s.log, i) + Schedule(s.timers[i], TimeTicks(r)))
  }

  /** Nothing is due at the time a good state stands at. */
  lemma FollowsReflexive(s: State, i: nat)
    requires Good(s)
    ensures Follows(s, s, i)
  {
    hide Firings, Touches;
    if LeftAlone(s, s, i) {
      assert NotOverdue(s, s.timers[i]);
    }
  }

  lemma FollowsTransitive(s: State, m: State, r: State, i: nat)
    requires Good(s) && Good(m) && Good(r) && Follows(s, m, i) && Follows(m, r, i)
    ensures Follows(s, r, i)
  {
    hide Firings, Touches, TimeTicks, Schedule, SlotAt;
    if LeftAlone(s, r, i) {
      ScheduleSplits(s.timers[i], TimeTicks(m), TimeTicks(r));
    }
  }

  lemma CallFollows(s: State, c: Call, i: nat)
    requires Good(s)
    ensures Follows(s, ApplyCall(s, c), i)
  {
    hide Firings, Touches, ApplyCall;
    CallEffect(s, c, i);
  }

  lemma TickFollows(s: State, dev: Devices, i: nat)
    requires Good(s)
    ensures Follows(s, Tick1(s, dev), i)
    ensures !Tick1(s, dev).faulted ==> TimeTicks(Tick1(s, dev)) == TimeTicks(s) + 1
  {
    hide Firings, Touches, CountdownEvent;
    var r := Tick1(s, dev);
    if !s.faulted {
      if s.currCountdown == 1 {
        EventEffect(s.(currCountdown := 0), dev, i);
      }
      if LeftAlone(s, r, i) {
        var t := s.timers[i];
        assert NotOverdue(s, t);
        var next := Rearm(t, t.timeToFire);
        assert Schedule(next, t.timeToFire) == [] && SlotAt(next, t.timeToFire) == next;
      }
    }
  }

  lemma {:induction false} TicksFollow(s: State, n: nat, dev: Devices, i: nat)
    requires Good(s)
    ensures Follows(s, Ticks(s, n, dev), i)
    ensures !Ticks(s, n, dev).faulted ==> TimeTicks(Ticks(s, n, dev)) == TimeTicks(s) + n
    decreases n
  {
    hide TimeTicks, Tick1, Good, LeftAlone, Firings, Touches;
    if n == 0 {
      FollowsReflexive(s, i);
    } else {
      TickFollows(s, dev, i);
      TicksFollow(Tick1(s, dev), n - 1, dev, i);
      FollowsTransitive(s, Tick1(s, dev), Ticks(s, n, dev), i);
    }
  }

  lemma ExecFollows(s: State, step: Step, dev: Devices, i: nat)
    requires Good(s)
    ensures Follows(s, Exec(s, step, dev), i)
  {
    hide Good, Follows, Tick1, TickN, Ticks, ApplyCall;
    match step
    case OneTick => TickFollows(s, dev, i);
    case Batch(n) => TickNIsTicks(s, n, dev); TicksFollow(s, n, dev, i);
    case Request(c) => CallFollows(s, c, i);
  }

  lemma {:induction false} RunFollows(s: State, steps: seq<Step>, dev: Devices, i: nat)
    requires Good(s)
    ensures Follows(s, Run(s, steps, dev), i)
    decreases steps
  {
    hide Good, Follows, Exec;
    if steps == [] {
      FollowsReflexive(s, i);
    } else {
      ExecFollows(s, steps[0], dev, i);
      RunFollows(Exec(s, steps[0], dev), steps[1..], dev, i);
      FollowsTransitive(s, Exec(s, steps[0], dev), Run(s, steps, dev), i);
    }
  }

  /** The virtual time a run delivers: its ticks, one by one or in batches, and nothing for API calls. */
  function Delivered(steps: seq<Step>): nat {
    if steps == [] then 0
    else (match steps[0] case OneTick => 1 case Batch(n) => n case Request(_) => 0) + Delivered(steps[1..])
  }

  /** A run that has not faulted has moved virtual time by what it delivered. */
  lemma {:induction false} TimeOfUnfaultedRun(s: State, steps: seq<Step>, dev: Devices)
    requires Good(s) && !Run(s, steps, dev).faulted
    ensures TimeTicks(Run(s, steps, dev)) == TimeTicks(s) + Delivered(steps)
    ensures !s.faulted
    decreases steps
  {
    hide TimeTicks, Good, Follows, Tick1, TickN, Ticks, ApplyCall;
    if steps == [] {
    } else {
      var m := Exec(s, steps[0], dev);
      TimeOfUnfaultedRun(m, steps[1..], dev);
      ExecTime(s, steps[0], dev);
    }
  }

  lemma ExecTime(s: State, step: Step, dev: Devices)
    requires Good(s) && !Exec(s, step, dev).faulted
    ensures !s.faulted && TimeTicks(Exec(s, step, dev)) == TimeTicks(s) + Delivered([step])
  {
    assert [step][1..] == [];
    hide TimeTicks, Good, Tick1, TickN, Ticks, ApplyCall;
    match step
    case OneTick => TickFollows(s, dev, 0);
    case Batch(n) => TickNIsTicks(s, n, dev); TicksFollow(s, n, dev, 0);
    case Request(c) => CallEffect(s, c, 0);
  }

  /** What is promised to a timer activated at time t: its handler is called each multiple of `ticks` later, or once. */
  ghost predicate AsPromised(fired: seq<Firing>, funct: Option<Handler>, t: nat, ticks: nat, continuous: bool, now: nat)
    requires 1 <= ticks && t <= now
  {
    if continuous then
      && |fired| == (now - t) / ticks
      && forall j :: 0 <= j < |fired| ==> fired[j] == Firing(funct, t + (j + 1) * ticks)
    else
      fired == if t + ticks <= now then [Firing(funct, t + ticks)] else []
  }

  lemma ScheduleFromActivation(timer: Timer, t: nat, now: nat)
    requires MIN_TIMER_PERIOD <= timer.period && timer.active
    requires timer.timeToFire == t + timer.period && t <= now
    ensures AsPromised(Schedule(timer, now), timer.funct, t, timer.period, timer.continuous, now)
  {
    if timer.continuous {
      ScheduleElements(timer, now);
      forall j | 0 <= j < |Schedule(timer, now)|
        ensures Schedule(timer, now)[j] == Firing(timer.funct, t + (j + 1) * timer.period)
      {
        Distribute(j + 1, timer.period);
      }
      if timer.timeToFire <= now {
        ScheduleLength(timer, now);
        DivStep(now - t, timer.period);
      } else {
        DivModUnique(now - t, timer.period, 0, now - t);
      }
    }
  }

  /**
   Over any run in which nobody writes its slot, an active timer that is due one period after time t fires as promised,
   whatever the other timers, the other callers and all callbacks do.
   */
  lemma UntouchedTimerFires(s: State, i: nat, steps: seq<Step>, dev: Devices) returns (fired: seq<Firing>)
    requires Good(s) && LeftAlone(s, Run(s, steps, dev), i) && i < |s.timers|
    requires s.timers[i].active && MIN_TIMER_PERIOD <= s.timers[i].period
    requires s.timers[i].timeToFire == TimeTicks(s) + s.timers[i].period
    ensures Firings(Run(s, steps, dev).log, i) == Firings(s.log, i) + fired
    ensures AsPromised(fired, s.timers[i].funct, TimeTicks(s), s.timers[i].period, s.timers[i].continuous,
              TimeTicks(s) + Delivered(steps))
  {
    hide Run, Good, Touches, TimeTicks, Schedule, Firings, AsPromised, SlotAt;
    RunFollows(s, steps, dev, i);
    TimeOfUnfaultedRun(s, steps, dev);
    fired := Schedule(s.timers[i], TimeTicks(s) + Delivered(steps));
    ScheduleFromActivation(s.timers[i], TimeTicks(s), TimeTicks(s) + Delivered(steps));
  }
}
