/**
 The virtual-time timer scheduler of pc_system.cc and pc_system.h, as functions on a state value.

 Up to 64 timers share one 32-bit countdown.  The state carries a log of what happened (which timer
 fired when, which slot an API call wrote), and a device is an arbitrary function from the whole state,
 log included, to the list of timer calls its handler makes.  A call that breaks an obligation of the
 callers (the ones BX_TIMER_DEBUG would panic on) puts the state in the `faulted` condition, where it stays.
 */
module TimerSpec {
  import opened Common

  const MAX_TIMERS := 64
  const NULL_TIMER_INTERVAL := 0xffff_ffff
  const MIN_TIMER_PERIOD := 1
  const MAX_BIT64S := 0x7fff_ffff_ffff_ffff

  /** What funct and this_ptr identify together. */
  type Handler = nat
  const NULL_TIMER_HANDLER: Handler := 0

  datatype Timer = Timer(inUse: bool, period: nat, timeToFire: nat,
    active: bool, continuous: bool, funct: Option<Handler>)

  datatype Call =
    | Register(funct: Handler, ticks: nat, continuous: bool, active: bool)
    | Activate(i: nat, ticks: nat, continuous: bool)
    | Deactivate(i: nat)
    | Unregister(i: nat)

  datatype Event =
    | Fired(timer: nat, funct: Handler, time: nat)
    | Touched(timer: nat)  // an API call wrote this slot

  /** triggered is the local array of countdownEvent while its callbacks run, and empty otherwise. */
  datatype State = State(
    timers: seq<Timer>, numTimers: nat, triggeredTimer: nat, triggered: seq<bool>,
    currCountdown: nat, currCountdownPeriod: nat, ticksTotal: nat,
    log: seq<Event>, faulted: bool)

  /** The handlers of all devices: the calls made by the handler of `triggeredTimer` in the given state. */
  type Devices = State -> seq<Call>

  /** The time a callback run from the current countdown cycle sees; 32-bit subtraction as in time_ticks. */
  function TimeTicks(s: State): (t: nat) {
    s.ticksTotal + U32(s.currCountdownPeriod - s.currCountdown)
  }

  function AtLeastMin(ticks: nat): nat {
    if ticks < MIN_TIMER_PERIOD then MIN_TIMER_PERIOD else ticks
  }

  // ---------- the invariant ----------

  ghost predicate NullTimerRuns(s: State)
    requires 0 < |s.timers|
  {
    var t := s.timers[0];
    && t.inUse && t.active && t.continuous
    && t.period == NULL_TIMER_INTERVAL && t.funct == Some(NULL_TIMER_HANDLER)
    && t.timeToFire <= s.ticksTotal + NULL_TIMER_INTERVAL
  }

  /** The slot is not due before the end of the running countdown, and its period is a real one. */
  ghost predicate NotOverdue(s: State, t: Timer) {
    && MIN_TIMER_PERIOD <= t.period
    && (t.active ==> s.ticksTotal + s.currCountdownPeriod <= t.timeToFire)
  }

  ghost predicate Inv(s: State) {
    && |s.timers| == MAX_TIMERS
    && 1 <= s.numTimers <= MAX_TIMERS
    && 1 <= s.currCountdown <= s.currCountdownPeriod <= NULL_TIMER_INTERVAL
    && NullTimerRuns(s)
    && forall i :: 0 <= i < s.numTimers ==> NotOverdue(s, s.timers[i])
  }

  ghost predicate Good(s: State) {
    s.faulted || Inv(s)
  }

  // ---------- API calls ----------

  /** The first unused slot from i on, or numTimers: slot 0 is reserved for the null timer. */
  function FreeSlot(timers: seq<Timer>, numTimers: nat, i: nat): (slot: nat)
    requires i <= numTimers <= |timers|
    ensures i <= slot <= numTimers
    ensures slot < numTimers ==> !timers[slot].inUse
    ensures forall k :: i <= k < slot ==> timers[k].inUse
    decreases numTimers - i
  {
    if i < numTimers && timers[i].inUse then FreeSlot(timers, numTimers, i + 1) else i
  }

  /** A timer that has to fire before the current countdown ends makes countdown and period smaller by the delta. */
  function Shorten(s: State, ticks: nat): State {
    if ticks < s.currCountdown then
      s.(currCountdownPeriod := U32(s.currCountdownPeriod - U32(s.currCountdown - U32(ticks))),
         currCountdown := U32(ticks))
    else s
  }

  function WriteSlot(s: State, i: nat, t: Timer): State
    requires i < |s.timers|
  {
    s.(timers := s.timers[i := t], log := s.log + [Touched(i)])
  }

  function ApplyRegister(s: State, c: Call): (r: State)
    requires c.Register? && Inv(s)
  {
    var ticks := AtLeastMin(c.ticks);
    var i := FreeSlot(s.timers, s.numTimers, 1);
    if i == MAX_TIMERS then s.(faulted := true)
    else
      var t := Timer(true, ticks, TimeTicks(s) + ticks, c.active, c.continuous, Some(c.funct));
      var s1 := WriteSlot(s, i, t);
      var s2 := if c.active then Shorten(s1, ticks) else s1;
      if i == s.numTimers then s2.(numTimers := s.numTimers + 1) else s2
  }

  function ApplyActivate(s: State, c: Call): (r: State)
    requires c.Activate? && Inv(s)
  {
    if c.i == 0 || s.numTimers <= c.i then s.(faulted := true)
    else
      var ticks := AtLeastMin(c.ticks);
      var t := s.timers[c.i].(period := ticks, timeToFire := TimeTicks(s) + ticks,
        active := true, continuous := c.continuous);
      Shorten(WriteSlot(s, c.i, t), ticks)
  }

  function ApplyDeactivate(s: State, c: Call): (r: State)
    requires c.Deactivate? && Inv(s)
  {
    if c.i == 0 || s.numTimers <= c.i then s.(faulted := true)
    else WriteSlot(s, c.i, s.timers[c.i].(active := false))
  }

  /** An active timer is refused: the panic message is given and 0 is returned with nothing changed. */
  function ApplyUnregister(s: State, c: Call): (r: State)
    requires c.Unregister? && Inv(s)
  {
    if c.i == 0 || s.numTimers <= c.i || !s.timers[c.i].inUse then s.(faulted := true)
    else if s.timers[c.i].active then s
    else
      var s1 := WriteSlot(s, c.i, s.timers[c.i].(inUse := false, period := MAX_BIT64S, timeToFire := MAX_BIT64S,
                                                 continuous := false, funct := None));
      if c.i == s.numTimers - 1 then s1.(numTimers := s.numTimers - 1) else s1
  }

  /** Every API call keeps the invariant, takes no virtual time and only adds to the log. */
  function ApplyCall(s: State, c: Call): (r: State)
    requires Good(s)
    ensures Good(r)
  {
    if s.faulted then s
    else match c
      case Register(_, _, _, _) => ApplyRegister(s, c)
      case Activate(_, _, _) => ApplyActivate(s, c)
      case Deactivate(_) => ApplyDeactivate(s, c)
      case Unregister(_) => ApplyUnregister(s, c)
  }

  /** The calls of one handler, in order. */
  function ApplyCalls(s: State, calls: seq<Call>): (r: State)
    requires Good(s)
    ensures Good(r)
    decreases calls
  {
    if calls == [] then s else ApplyCalls(ApplyCall(s, calls[0]), calls[1..])
  }

  // ---------- the countdown event ----------

  /** The earliest time to fire; (Bit64u)-1 in the source is the Never here. */
  datatype Deadline = Never | At(time: nat)

  function Earlier(d: Deadline, t: Timer): Deadline {
    if t.active && (d.Never? || t.timeToFire < d.time) then At(t.timeToFire) else d
  }

  function MinTimeToFire(timers: seq<Timer>, n: nat): (d: Deadline)
    requires n <= |timers|
    ensures forall i :: 0 <= i < n && timers[i].active ==> d.At? && d.time <= timers[i].timeToFire
    ensures d.At? ==> exists i :: 0 <= i < n && timers[i].active && timers[i].timeToFire == d.time
  {
    if n == 0 then Never else Earlier(MinTimeToFire(timers, n - 1), timers[n - 1])
  }

  predicate IsDue(t: Timer, now: nat) {
    t.active && t.timeToFire == now
  }

  /** What a due timer becomes before any callback runs: re-armed if continuous, inactive if one-shot. */
  function Rearm(t: Timer, now: nat): Timer {
    if !IsDue(t, now) then t
    else if t.continuous then t.(timeToFire := t.timeToFire + t.period)
    else t.(active := false)
  }

  function RearmAll(timers: seq<Timer>, n: nat, now: nat): (r: seq<Timer>)
    requires n <= |timers|
    ensures |r| == |timers|
    ensures forall i :: 0 <= i < |r| ==> r[i] == if i < n then Rearm(timers[i], now) else timers[i]
  {
    seq(|timers|, i requires 0 <= i < |timers| => if i < n then Rearm(timers[i], now) else timers[i])
  }

  function Triggered(timers: seq<Timer>, n: nat, now: nat): (r: seq<bool>)
    requires n <= |timers|
    ensures |r| == n
    ensures forall i :: 0 <= i < n ==> r[i] == IsDue(timers[i], now)
  {
    seq(n, i requires 0 <= i < n => IsDue(timers[i], now))
  }

  /** A state whose countdown has reached 0 but is otherwise one that keeps the invariant. */
  ghost predicate Expired(s: State) {
    s.faulted || (s.currCountdown == 0 && 1 <= s.currCountdownPeriod && Inv(s.(currCountdown := s.currCountdownPeriod)))
  }

  /**
   The first loop changes exactly the slots it marks as triggered, which are the active ones due now; afterwards
   no active slot is due any more, and the null timer is, within its interval.
   */
  lemma RearmedSlots(s: State)
    requires Expired(s) && !s.faulted
    ensures var now := s.ticksTotal + s.currCountdownPeriod;
      var r, triggered := RearmAll(s.timers, s.numTimers, now), Triggered(s.timers, s.numTimers, now);
      && (forall i :: 0 <= i < s.numTimers ==> (triggered[i] <==> r[i] != s.timers[i]))
      && (forall i :: 0 <= i < s.numTimers ==> (triggered[i] <==> s.timers[i].active && s.timers[i].timeToFire == now))
      && (forall i :: 0 <= i < s.numTimers && r[i].active ==> now < r[i].timeToFire)
      && r[0].active && r[0].timeToFire <= now + NULL_TIMER_INTERVAL
  {
    var now := s.ticksTotal + s.currCountdownPeriod;
    var r := RearmAll(s.timers, s.numTimers, now);
    forall i | 0 <= i < s.numTimers
      ensures (IsDue(s.timers[i], now) <==> r[i] != s.timers[i]) && (r[i].active ==> now < r[i].timeToFire)
    {
      assert NotOverdue(s.(currCountdown := s.currCountdownPeriod), s.timers[i]);
    }
  }

  lemma EarliestDeadline(s: State)
    requires Expired(s) && !s.faulted
    ensures var now := s.ticksTotal + s.currCountdownPeriod;
      var d := MinTimeToFire(RearmAll(s.timers, s.numTimers, now), s.numTimers);
      d.At? && now < d.time <= now + NULL_TIMER_INTERVAL
  {
    RearmedSlots(s);
    hide RearmAll, MinTimeToFire, NullTimerRuns, NotOverdue;
  }

  /** The time the countdown started now has to end at: never further away than the null timer. */
  function NextDeadline(s: State): (deadline: nat)
    requires Expired(s) && !s.faulted
    ensures var now := s.ticksTotal + s.currCountdownPeriod;
      && MinTimeToFire(RearmAll(s.timers, s.numTimers, now), s.numTimers) == At(deadline)
      && now < deadline <= now + NULL_TIMER_INTERVAL
  {
    EarliestDeadline(s);
    MinTimeToFire(RearmAll(s.timers, s.numTimers, s.ticksTotal + s.currCountdownPeriod), s.numTimers).time
  }

  /** The clock moved to the end of the period, what is due re-armed, and the countdown to the deadline started. */
  function Serviced(s: State, deadline: nat): State
    requires s.numTimers <= |s.timers|
  {
    var now := s.ticksTotal + s.currCountdownPeriod;
    var countdown := U32(deadline - now);
    s.(ticksTotal := now, timers := RearmAll(s.timers, s.numTimers, now),
       triggered := Triggered(s.timers, s.numTimers, now),
       currCountdown := countdown, currCountdownPeriod := countdown)
  }

  /** The first loop: advance the clock, re-arm what is due, start the next countdown; U32 is the cast to Bit32u. */
  function Advance(s: State): (r: State)
    requires Expired(s) && !s.faulted
    ensures Inv(r)
    ensures TimeTicks(r) == r.ticksTotal == s.ticksTotal + s.currCountdownPeriod
    ensures r.log == s.log && r.numTimers == s.numTimers && !r.faulted
    ensures r.timers == RearmAll(s.timers, s.numTimers, r.ticksTotal)
    ensures r.triggered == Triggered(s.timers, s.numTimers, r.ticksTotal) && r.triggeredTimer == s.triggeredTimer
    ensures exists i :: 0 <= i < r.numTimers && r.timers[i].active &&
                        r.timers[i].timeToFire == r.ticksTotal + r.currCountdown
  {
    Serviced(s, NextDeadline(s))
  }

  /** nullTimer makes no call; every other handler may make any. */
  function HandlerCalls(s: State, dev: Devices, i: nat): seq<Call> {
    if i == 0 then [] else dev(s)
  }

  /** Fires slot i: log it, run the handler with triggeredTimer set, reset triggeredTimer. */
  function FireSlot(s: State, i: nat, dev: Devices): (r: State)
    requires Inv(s) && i < s.numTimers
    ensures Good(r)
  {
    match s.timers[i].funct
    case None => s.(faulted := true)
    case Some(h) =>
      var s1 := s.(triggeredTimer := i, log := s.log + [Fired(i, h, s.ticksTotal)]);
      ApplyCalls(s1, HandlerCalls(s1, dev, i)).(triggeredTimer := 0)
  }

  /** The second loop, from slot i on.  triggered[] was only written for the slots there were when the event began. */
  function Dispatch(s: State, i: nat, dev: Devices): (r: State)
    requires Good(s)
    ensures Good(r)
    decreases MAX_TIMERS - i
  {
    if s.faulted || s.numTimers <= i then s
    else if |s.triggered| <= i then s.(faulted := true)
    else Dispatch(if s.triggered[i] then FireSlot(s, i, dev) else s, i + 1, dev)
  }

  function CountdownEvent(s: State, dev: Devices): (r: State)
    requires Expired(s)
    ensures Good(r)
  {
    if s.faulted then s
    else Dispatch(Advance(s), 0, dev).(triggered := [])
  }

  // ---------- ticking ----------

  function Tick1(s: State, dev: Devices): (r: State)
    requires Good(s)
    ensures Good(r)
  {
    if s.faulted then s
    else
      var s1 := s.(currCountdown := s.currCountdown - 1);
      if s1.currCountdown == 0 then CountdownEvent(s1, dev) else s1
  }

  function TickN(s: State, n: nat, dev: Devices): (r: State)
    requires Good(s)
    ensures Good(r)
    decreases n
  {
    if s.faulted then s
    else if s.currCountdown <= n then
      TickN(CountdownEvent(s.(currCountdown := 0), dev), n - s.currCountdown, dev)
    else s.(currCountdown := s.currCountdown - n)
  }

  /** n single ticks, the simple form. */
  function Ticks(s: State, n: nat, dev: Devices): (r: State)
    requires Good(s)
    ensures Good(r)
    decreases n
  {
    if n == 0 then s else Ticks(Tick1(s, dev), n - 1, dev)
  }

  /** The constructor followed by initialize(). */
  const INITIAL := State([NULL_TIMER] + seq(MAX_TIMERS - 1, _ => Timer(false, 0, 0, false, false, None)),
                         1, 0, [], NULL_TIMER_INTERVAL, NULL_TIMER_INTERVAL, 0, [], false)
  const NULL_TIMER := Timer(true, NULL_TIMER_INTERVAL, NULL_TIMER_INTERVAL, true, true, Some(NULL_TIMER_HANDLER))
}
