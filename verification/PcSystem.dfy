/**
 The timer half of bx_pc_system_c, updating its timer slots and counters in place.
 Each method is proved against the function of the same name on states.
 */
module PcSystem {
  import opened Common
  import opened TimerSpec
  import opened TimerProofs

  class BxPcSystem {
    const timer: array<Timer>
    var numTimers: nat
    var triggeredTimer: nat
    var currCountdown: nat
    var currCountdownPeriod: nat
    var ticksTotal: nat
    var lastTimeUsec: nat
    var usecSinceLast: nat

    // the local array of countdownEvent, empty outside of it
    var triggered: seq<bool>

    // not in the source: what the handlers do, what happened, and whether a caller broke its obligations
    const devices: Devices
    var log: seq<Event>
    var faulted: bool

    function View(): State
      reads this, timer
    {
      State(timer[..], numTimers, triggeredTimer, triggered,
        currCountdown, currCountdownPeriod, ticksTotal, log, faulted)
    }

    ghost predicate Valid()
      reads this, timer
    {
      timer.Length == MAX_TIMERS && Good(View())
    }

    constructor (devices: Devices)
      ensures Valid() && fresh(timer) && View() == INITIAL && this.devices == devices
      ensures timer.Length == 64 && numTimers == 1 && ticksTotal == 0
      ensures currCountdown == currCountdownPeriod == 0xffff_ffff
      ensures timer[0] == Timer(true, 0xffff_ffff, 0xffff_ffff, true, true, Some(NULL_TIMER_HANDLER))
      ensures forall i :: 1 <= i < 64 ==> timer[i] == Timer(false, 0, 0, false, false, None)
      ensures lastTimeUsec == usecSinceLast == 0
    {
      this.devices := devices;
      timer := new Timer[MAX_TIMERS](i => if i == 0 then NULL_TIMER else Timer(false, 0, 0, false, false, None));
      numTimers, triggeredTimer, triggered := 1, 0, [];
      currCountdown, currCountdownPeriod := NULL_TIMER_INTERVAL, NULL_TIMER_INTERVAL;
      ticksTotal, lastTimeUsec, usecSinceLast := 0, 0, 0;
      log, faulted := [], false;
      new;
      assert timer[..] == INITIAL.timers;
    }

    method TimeTicks() returns (t: nat)
      requires Valid() && !faulted
      ensures t == TimerSpec.TimeTicks(View())
    {
      t := ticksTotal + U32(currCountdownPeriod - currCountdown);
    }

    /** The search of register_timer_ticks, from slot 1 as slot 0 is reserved for the null timer. */
    method SearchSlot() returns (i: nat)
      requires Valid() && !faulted
      ensures i == FreeSlot(timer[..], numTimers, 1)
    {
      i := 1;
      while i < numTimers
        invariant 1 <= i <= numTimers
        invariant FreeSlot(timer[..], numTimers, 1) == FreeSlot(timer[..], numTimers, i)
      {
        if !timer[i].inUse {
          break;
        }
        i := i + 1;
      }
    }

    /** register_timer_ticks; `id` is MAX_TIMERS when the 64 slots are used up, which faults the model. */
    method RegisterTimerTicks(funct: Handler, ticks: nat, continuous: bool, active: bool) returns (id: nat)
      requires Valid() && !faulted
      modifies this, timer
      ensures Valid() && unchanged(this`lastTimeUsec) && unchanged(this`usecSinceLast)
      ensures View() == ApplyCall(old(View()), Register(funct, ticks, continuous, active))
      ensures id == FreeSlot(old(timer[..]), old(numTimers), 1)
      ensures id < MAX_TIMERS ==> !faulted && timer[id].funct == Some(funct)
    {
      hide NotOverdue, NullTimerRuns, FreeSlot, U32;
      ghost var before := View();
      var n := ticks;
      if n < MIN_TIMER_PERIOD {
        n := MIN_TIMER_PERIOD;
      }
      id := SearchSlot();
      if id == MAX_TIMERS {
        faulted := true;
        return;
      }
      timer[id] := Timer(true, n, ticksTotal + U32(currCountdownPeriod - currCountdown) + n,
        active, continuous, Some(funct));
      log := log + [Touched(id)];
      if active {
        if n < currCountdown {
          currCountdownPeriod := U32(currCountdownPeriod - U32(currCountdown - U32(n)));
          currCountdown := U32(n);
        }
      }
      if id == numTimers {
        numTimers := numTimers + 1;
      }
      assert View() == ApplyCall(before, Register(funct, ticks, continuous, active));
      hide Inv;
    }

    method ActivateTimerTicks(i: nat, ticks: nat, continuous: bool)
      requires Valid() && !faulted
      modifies this, timer
      ensures Valid() && unchanged(this`lastTimeUsec) && unchanged(this`usecSinceLast)
      ensures View() == ApplyCall(old(View()), Activate(i, ticks, continuous))
    {
      hide NotOverdue, NullTimerRuns, FreeSlot, U32;
      ghost var before := View();
      if i == 0 || numTimers <= i {
        faulted := true;
        return;
      }
      var n := ticks;
      if n < MIN_TIMER_PERIOD {
        n := MIN_TIMER_PERIOD;
      }
      timer[i] := timer[i].(period := n, timeToFire := ticksTotal + U32(currCountdownPeriod - currCountdown) + n,
                            active := true, continuous := continuous);
      log := log + [Touched(i)];
      if n < currCountdown {
        currCountdownPeriod := U32(currCountdownPeriod - U32(currCountdown - U32(n)));
        currCountdown := U32(n);
      }
      assert View() == ApplyCall(before, Activate(i, ticks, continuous));
      hide Inv;
    }

    /** register_timer: the period in microseconds, mIps ticks each. */
    method RegisterTimer(funct: Handler, useconds: nat, continuous: bool, active: bool, mIps: real) returns (id: nat)
      requires Valid() && !faulted && 0.0 < mIps
      modifies this, timer
      ensures Valid() && unchanged(this`lastTimeUsec) && unchanged(this`usecSinceLast)
      ensures View() == ApplyCall(old(View()), Register(funct, TicksOf(useconds, mIps), continuous, active))
    {
      id := RegisterTimerTicks(funct, TicksOf(useconds, mIps), continuous, active);
    }

    /** activate_timer: 0 microseconds stand for the period the timer already has. */
    method ActivateTimer(i: nat, useconds: nat, continuous: bool, mIps: real)
      requires Valid() && !faulted && 0.0 < mIps
      modifies this, timer
      ensures Valid() && unchanged(this`lastTimeUsec) && unchanged(this`usecSinceLast)
      ensures i < old(numTimers) && useconds == 0 ==>
        View() == ApplyCall(old(View()), Activate(i, old(timer[i].period), continuous))
      ensures i >= old(numTimers) || useconds != 0 ==>
        View() == ApplyCall(old(View()), Activate(i, TicksOf(useconds, mIps), continuous))
    {
      if i == 0 || numTimers <= i {
        faulted := true;
        return;
      }
      var ticks;
      if useconds == 0 {
        ticks := timer[i].period;
      } else {
        ticks := TicksOf(useconds, mIps);
        if ticks < MIN_TIMER_PERIOD {
          ticks := MIN_TIMER_PERIOD;
        }
      }
      ActivateTimerTicks(i, ticks, continuous);
    }

    method DeactivateTimer(i: nat)
      requires Valid() && !faulted
      modifies this, timer
      ensures Valid() && unchanged(this`lastTimeUsec) && unchanged(this`usecSinceLast)
      ensures View() == ApplyCall(old(View()), Deactivate(i))
      ensures 0 < i < old(numTimers) ==> timer[..] == old(timer[..])[i := old(timer[i]).(active := false)]
    {
      hide NotOverdue, NullTimerRuns, FreeSlot, U32;
      ghost var before := View();
      if i == 0 || numTimers <= i {
        faulted := true;
        return;
      }
      timer[i] := timer[i].(active := false);
      log := log + [Touched(i)];
      assert View() == ApplyCall(before, Deactivate(i));
      hide Inv;
    }

    method UnregisterTimer(i: nat) returns (ok: bool)
      requires Valid() && !faulted
      modifies this, timer
      ensures Valid() && unchanged(this`lastTimeUsec) && unchanged(this`usecSinceLast)
      ensures View() == ApplyCall(old(View()), Unregister(i))
      ensures ok ==>
        var free := Timer(false, 0x7fff_ffff_ffff_ffff, 0x7fff_ffff_ffff_ffff, false, false, None);
        && i < timer.Length && timer[..] == old(timer[..])[i := free]
        && numTimers == if i + 1 == old(numTimers) then i else old(numTimers)
      ensures ok <==> 0 < i < old(numTimers) && old(timer[i]).inUse && !old(timer[i]).active
    {
      hide NotOverdue, NullTimerRuns, FreeSlot, U32;
      ghost var before := View();
      if i == 0 || numTimers <= i || !timer[i].inUse {
        faulted := true;
        return false;
      }
      if timer[i].active {
        return false;
      }
      timer[i] := timer[i].(inUse := false, period := MAX_BIT64S, timeToFire := MAX_BIT64S,
        continuous := false, funct := None);
      log := log + [Touched(i)];
      if i == numTimers - 1 {
        numTimers := numTimers - 1;
      }
      ok := true;
      assert View() == ApplyCall(before, Unregister(i));
      hide Inv;
    }

    /** What a handler asks for, one call after the other. */
    method Perform(calls: seq<Call>)
      requires Valid()
      modifies this, timer
      ensures Valid() && unchanged(this`lastTimeUsec) && unchanged(this`usecSinceLast)
      ensures View() == ApplyCalls(old(View()), calls)
    {
      hide Good, ApplyCall;
      var k := 0;
      while k < |calls| && !faulted
        invariant k <= |calls| && Valid()
        invariant unchanged(this`lastTimeUsec) && unchanged(this`usecSinceLast)
        invariant ApplyCalls(View(), calls[k..]) == ApplyCalls(old(View()), calls)
      {
        assert calls[k..][0] == calls[k] && calls[k..][1..] == calls[k + 1..];
        match calls[k] {
          case Register(funct, ticks, continuous, active) =>
            var _ := RegisterTimerTicks(funct, ticks, continuous, active);
          case Activate(i, ticks, continuous) => ActivateTimerTicks(i, ticks, continuous);
          case Deactivate(i) => DeactivateTimer(i);
          case Unregister(i) => var _ := UnregisterTimer(i);
        }
        k := k + 1;
      }
      if faulted {
        FaultedCalls(View(), calls[k..]);
      } else {
        assert calls[k..] == [];
      }
    }

    lemma {:induction false} FaultedCalls(s: State, calls: seq<Call>)
      requires s.faulted
      ensures ApplyCalls(s, calls) == s
    {
      if calls != [] {
        FaultedCalls(s, calls[1..]);
      }
    }

    /** One round of the first loop of countdownEvent: re-arm slot i if it is due, and keep the minimum. */
    method ServiceSlot(i: nat, minimum: Deadline) returns (triggered: bool, minTimeToFire: Deadline)
      requires i < timer.Length
      modifies timer
      ensures timer[i] == Rearm(old(timer[i]), ticksTotal)
      ensures forall k :: 0 <= k < timer.Length && k != i ==> timer[k] == old(timer[k])
      ensures triggered == IsDue(old(timer[i]), ticksTotal)
      ensures minTimeToFire == Earlier(minimum, Rearm(old(timer[i]), ticksTotal))
    {
      triggered, minTimeToFire := false, minimum;
      if timer[i].active {
        if ticksTotal == timer[i].timeToFire {
          triggered := true;
          if !timer[i].continuous {
            timer[i] := timer[i].(active := false);
          } else {
            timer[i] := timer[i].(timeToFire := timer[i].timeToFire + timer[i].period);
            if minTimeToFire.Never? || timer[i].timeToFire < minTimeToFire.time {
              minTimeToFire := At(timer[i].timeToFire);
            }
          }
        } else {
          if minTimeToFire.Never? || timer[i].timeToFire < minTimeToFire.time {
            minTimeToFire := At(timer[i].timeToFire);
          }
        }
      }
    }

    /** The first loop of countdownEvent.  triggered[] is written for the slots there are now, and no further. */
    method ServiceSlots() returns (triggered: seq<bool>, minTimeToFire: Deadline)
      requires numTimers <= timer.Length
      modifies timer
      ensures timer[..] == RearmAll(old(timer[..]), numTimers, ticksTotal)
      ensures triggered == Triggered(old(timer[..]), numTimers, ticksTotal)
      ensures minTimeToFire == MinTimeToFire(timer[..], numTimers)
    {
      ghost var slots := timer[..];
      ghost var rearmed := RearmAll(slots, numTimers, ticksTotal);
      ghost var due := Triggered(slots, numTimers, ticksTotal);
      hide RearmAll, Rearm, IsDue, Earlier, Triggered;
      triggered, minTimeToFire := [], Never;
      var i := 0;
      while i < numTimers
        invariant 0 <= i <= numTimers && triggered == due[..i]
        invariant forall k :: 0 <= k < timer.Length ==> timer[k] == if k < i then rearmed[k] else slots[k]
        invariant minTimeToFire == MinTimeToFire(rearmed, i)
      {
        var fires;
        fires, minTimeToFire := ServiceSlot(i, minTimeToFire);
        triggered := triggered + [fires];
        i := i + 1;
      }
      assert timer[..] == rearmed;
    }

    /** countdownEvent up to the callbacks: the clock, the due timers and the next countdown. */
    method ServiceTimers()
      requires timer.Length == MAX_TIMERS && !faulted && Expired(View())
      modifies this, timer
      ensures Valid() && unchanged(this`lastTimeUsec) && unchanged(this`usecSinceLast)
      ensures View() == Advance(old(View()))
    {
      hide Inv, Expired, Advance, RearmAll, MinTimeToFire, Triggered, U32;
      ghost var before := View();
      ticksTotal := ticksTotal + currCountdownPeriod;
      ExpiredBounds(before);
      var minTimeToFire;
      triggered, minTimeToFire := ServiceSlots();
      AdvanceIs(before, timer[..], triggered, minTimeToFire);
      currCountdown := U32(minTimeToFire.time - ticksTotal);
      currCountdownPeriod := currCountdown;
    }

    lemma AdvanceIs(s: State, timers: seq<Timer>, triggered: seq<bool>, d: Deadline)
      requires Expired(s) && !s.faulted && s.numTimers <= |s.timers| == |timers|
      requires timers == RearmAll(s.timers, s.numTimers, s.ticksTotal + s.currCountdownPeriod)
      requires triggered == Triggered(s.timers, s.numTimers, s.ticksTotal + s.currCountdownPeriod)
      requires d == MinTimeToFire(timers, s.numTimers)
      ensures d.At?
      ensures var now := s.ticksTotal + s.currCountdownPeriod;
        Advance(s) == s.(ticksTotal := now, timers := timers, triggered := triggered,
                         currCountdown := U32(d.time - now), currCountdownPeriod := U32(d.time - now))
    {
      hide Expired, Inv, RearmAll, MinTimeToFire, U32, Triggered, NextDeadline;
      var deadline := NextDeadline(s);
    }

    lemma SlotBound(s: State)
      requires Good(s) && !s.faulted
      ensures s.numTimers <= MAX_TIMERS
    {
    }

    lemma ExpiredBounds(s: State)
      requires Expired(s) && !s.faulted
      ensures s.numTimers <= |s.timers|
    {
    }

    /** The second loop of countdownEvent. */
    method RunCallbacks()
      requires Valid()
      modifies this, timer
      ensures Valid() && unchanged(this`lastTimeUsec) && unchanged(this`usecSinceLast)
      ensures View() == Dispatch(old(View()), 0, devices)
    {
      hide Inv, FireSlot, ApplyCalls;
      var i := 0;
      while i < numTimers && !faulted
        invariant Valid() && i <= MAX_TIMERS
        invariant unchanged(this`lastTimeUsec) && unchanged(this`usecSinceLast)
        invariant Dispatch(View(), i, devices) == Dispatch(old(View()), 0, devices)
        decreases MAX_TIMERS - i, !faulted
      {
        SlotBound(View());
        if |triggered| <= i {
          faulted := true;
        } else {
          if triggered[i] {
            FireTimer(i);
          }
          i := i + 1;
        }
      }
    }

    method FireTimer(i: nat)
      requires Valid() && !faulted && i < numTimers
      modifies this, timer
      ensures Valid() && unchanged(this`lastTimeUsec) && unchanged(this`usecSinceLast)
      ensures View() == FireSlot(old(View()), i, devices)
    {
      hide ApplyCalls;
      match timer[i].funct {
        case None => faulted := true;
        case Some(h) =>
          triggeredTimer := i;
          log := log + [Fired(i, h, ticksTotal)];
          Perform(HandlerCalls(View(), devices, i));
          triggeredTimer := 0;
      }
    }

    method CountdownEvent()
      requires timer.Length == MAX_TIMERS && !faulted && Expired(View())
      modifies this, timer
      ensures Valid() && unchanged(this`lastTimeUsec) && unchanged(this`usecSinceLast)
      ensures View() == TimerSpec.CountdownEvent(old(View()), devices)
    {
      hide NotOverdue, NullTimerRuns, Advance, Dispatch;
      ServiceTimers();
      RunCallbacks();
      triggered := [];
      assert View() == TimerSpec.CountdownEvent(old(View()), devices);
    }

    method Tick1()
      requires Valid() && !faulted
      modifies this, timer
      ensures Valid() && unchanged(this`lastTimeUsec) && unchanged(this`usecSinceLast)
      ensures View() == TimerSpec.Tick1(old(View()), devices)
    {
      hide TimerSpec.CountdownEvent;
      currCountdown := currCountdown - 1;
      if currCountdown == 0 {
        CountdownEvent();
      }
    }

    method TickN(ticks: nat)
      requires Valid() && !faulted
      modifies this, timer
      ensures Valid() && unchanged(this`lastTimeUsec) && unchanged(this`usecSinceLast)
      ensures View() == TimerSpec.TickN(old(View()), ticks, devices)
      ensures View() == Ticks(old(View()), ticks, devices)
    {
      hide TimerSpec.CountdownEvent;
      var n := ticks;
      while currCountdown <= n && !faulted
        invariant Valid() && 0 <= n
        invariant unchanged(this`lastTimeUsec) && unchanged(this`usecSinceLast)
        invariant TimerSpec.TickN(View(), n, devices) == TimerSpec.TickN(old(View()), ticks, devices)
        decreases n, !faulted
      {
        n := n - currCountdown;
        currCountdown := 0;
        CountdownEvent();
      }
      if !faulted {
        currCountdown := currCountdown - n;
      }
      TickNIsTicks(old(View()), ticks, devices);
    }

    /** timeUsec is what time_usec() returns now. */
    method TimeUsecSequential(timeUsec: nat) returns (t: nat)
      requires lastTimeUsec <= timeUsec
      modifies this`lastTimeUsec, this`usecSinceLast
      ensures lastTimeUsec == timeUsec && t == lastTimeUsec + usecSinceLast
      ensures t == Max(timeUsec, old(lastTimeUsec + usecSinceLast)) + 1
    {
      if timeUsec != lastTimeUsec {
        var diff := timeUsec - lastTimeUsec;
        lastTimeUsec := timeUsec;
        if usecSinceLast <= diff {
          usecSinceLast := 0;
        } else {
          usecSinceLast := usecSinceLast - diff;
        }
      }
      usecSinceLast := usecSinceLast + 1;
      t := timeUsec + usecSinceLast;
    }
  }

  /** (Bit64u) (double(useconds) * m_ips), with m_ips exact. */
  function TicksOf(useconds: nat, mIps: real): nat
    requires 0.0 < mIps
  {
    (useconds as real * mIps).Floor
  }
}
