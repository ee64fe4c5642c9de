/** The readings of time_usec_sequential over a run: always ahead of virtual time, and no further than they must be. */
module SequentialTime {
  import opened Common
  import opened TimerSpec
  import opened TimerProofs
  import opened TimerObligations
  import opened PcSystem

  /** time_usec: virtual microseconds, with m_ips an exact number of ticks per microsecond. */
  function TimeUsec(ticks: nat, mIps: real): nat
    requires 0.0 < mIps
  {
    var q := ticks as real / mIps;
    QuotientMonotone(0, ticks, mIps);
    q.Floor
  }

  lemma QuotientMonotone(a: nat, b: nat, mIps: real)
    requires 0.0 < mIps && a <= b
    ensures a as real / mIps <= b as real / mIps
    ensures 0 as real / mIps == 0.0
  {
    var x, y := a as real / mIps, b as real / mIps;
    assert x * mIps <= y * mIps;
  }

  /** Virtual time does not run backwards, so neither does time_usec: what time_usec_sequential needs. */
  lemma TimeUsecMonotone(a: nat, b: nat, mIps: real)
    requires 0.0 < mIps && a <= b
    ensures TimeUsec(a, mIps) <= TimeUsec(b, mIps)
  {
    QuotientMonotone(a, b, mIps);
  }

  /**
   A period in microseconds is made the greatest number of ticks that takes no longer: a timer that is due that many
   ticks from 0 is due when time_usec has not passed the period, and one tick later it has been reached.
   */
  lemma PeriodInTicks(useconds: nat, mIps: real, ticks: nat)
    requires 0.0 < mIps
    ensures ticks <= TicksOf(useconds, mIps) <==> ticks as real / mIps <= useconds as real
    ensures TimeUsec(TicksOf(useconds, mIps), mIps) <= useconds <= TimeUsec(TicksOf(useconds, mIps) + 1, mIps)
  {
    var n := TicksOf(useconds, mIps);
    QuotientBound(ticks, useconds, mIps);
    QuotientBound(n, useconds, mIps);
    QuotientBound(n + 1, useconds, mIps);
  }

  lemma QuotientBound(ticks: nat, useconds: nat, mIps: real)
    requires 0.0 < mIps
    ensures ticks as real / mIps <= useconds as real <==> ticks as real <= useconds as real * mIps
  {
    var q := ticks as real / mIps;
    assert q * mIps == ticks as real;
    if q <= useconds as real {
      assert q * mIps <= useconds as real * mIps;
    } else {
      assert q * mIps > useconds as real * mIps;
    }
  }

  /** What successive calls return when time_usec reads `times` and the reading before them was `previous`. */
  function Readings(previous: nat, times: seq<nat>): seq<nat>
    decreases times
  {
    if times == [] then []
    else
      var t := Max(times[0], previous) + 1;
      [t] + Readings(t, times[1..])
  }

  /** Strictly increasing from `previous` on, and each strictly ahead of virtual time. */
  ghost predicate Ahead(readings: seq<nat>, previous: nat, times: seq<nat>) {
    && |readings| == |times|
    && (forall j :: 0 <= j < |times| ==> times[j] < readings[j])
    && (0 < |times| ==> previous < readings[0])
    && (forall j, k :: 0 <= j < k < |times| ==> readings[j] < readings[k])
  }

  /** Whatever time_usec reads, the readings are strictly increasing and strictly ahead of it. */
  lemma {:induction false} ReadingsAreAhead(previous: nat, times: seq<nat>)
    ensures Ahead(Readings(previous, times), previous, times)
    decreases times
  {
    if times != [] {
      var t := Max(times[0], previous) + 1;
      ReadingsAreAhead(t, times[1..]);
      var all, rest := Readings(previous, times), Readings(t, times[1..]);
      assert all[0] == t && all[1..] == rest;
      forall j | 0 < j < |times| ensures times[j] < all[j] && t < all[j] {
        assert all[j] == rest[j - 1] && times[j] == times[1..][j - 1];
        assert t < rest[0] <= rest[j - 1];
      }
      forall j, k | 0 <= j < k < |times| ensures all[j] < all[k] {
        if j > 0 {
          assert all[j] == rest[j - 1] < rest[k - 1] == all[k];
        }
      }
    }
  }

  /** And no other such sequence is below them anywhere. */
  lemma {:induction false} ReadingsAreLeast(previous: nat, times: seq<nat>, other: seq<nat>)
    requires Ahead(other, previous, times)
    ensures |Readings(previous, times)| == |other|
    ensures forall j :: 0 <= j < |other| ==> Readings(previous, times)[j] <= other[j]
    decreases times
  {
    LeastFrom(previous, times, other, previous);
  }

  lemma {:induction false} LeastFrom(previous: nat, times: seq<nat>, other: seq<nat>, from: nat)
    requires previous <= from && Ahead(other, from, times)
    ensures |Readings(previous, times)| == |other|
    ensures forall j :: 0 <= j < |other| ==> Readings(previous, times)[j] <= other[j]
    decreases times
  {
    if times != [] {
      var t := Max(times[0], previous) + 1;
      LeastFrom(t, times[1..], other[1..], other[0]);
      forall j | 0 < j < |other| ensures Readings(previous, times)[j] <= other[j] {
        assert Readings(previous, times)[j] == Readings(t, times[1..])[j - 1] <= other[1..][j - 1];
      }
    }
  }

  // ---------- a run of the machine ----------

  /** Ticks and timer requests, and between them readings of the clock. */
  datatype Action = Do(step: Step) | Read

  /** What time_usec reads at each of the readings, if virtual time starts at t. */
  function Times(t: nat, actions: seq<Action>, mIps: real): seq<nat>
    requires 0.0 < mIps
    decreases actions
  {
    if actions == [] then []
    else
      match actions[0]
      case Do(step) => Times(t + Delivered([step]), actions[1..], mIps)
      case Read => [TimeUsec(t, mIps)] + Times(t, actions[1..], mIps)
  }

  function Steps(actions: seq<Action>): seq<Step>
    decreases actions
  {
    if actions == [] then []
    else (match actions[0] case Do(step) => [step] case Read => []) + Steps(actions[1..])
  }

  /** What a run of actions comes to after its first one. */
  lemma RunFirst(s: State, actions: seq<Action>, dev: Devices)
    requires actions != [] && Good(s) && RunObeys(s, Steps(actions), dev, None)
    ensures var a, rest := actions[0], Steps(actions[1..]);
      var r := if a.Do? then Exec(s, a.step, dev) else s;
      && (a.Do? ==> StepObeys(s, a.step, dev, None))
      && RunObeys(r, rest, dev, None) && Run(s, Steps(actions), dev) == Run(r, rest, dev)
  {
    hide Good, Exec, StepObeys;
    if actions[0].Do? {
      assert Steps(actions)[0] == actions[0].step && Steps(actions)[1..] == Steps(actions[1..]);
    } else {
      assert Steps(actions) == Steps(actions[1..]);
    }
  }

  lemma RunNothing(s: State, dev: Devices)
    requires Good(s)
    ensures Run(s, Steps([]), dev) == s
  {
  }

  /** A step of the machine that keeps the obligations leaves it quiet, with virtual time moved by what it delivers. */
  method Perform(pc: BxPcSystem, step: Step)
    requires pc.Valid() && Quiet(pc.View()) && StepObeys(pc.View(), step, pc.devices, None)
    modifies pc, pc.timer
    ensures pc.Valid() && pc.View() == Exec(old(pc.View()), step, pc.devices) && Quiet(pc.View())
    ensures TimeTicks(pc.View()) == old(TimeTicks(pc.View())) + Delivered([step])
    ensures pc.lastTimeUsec == old(pc.lastTimeUsec) && pc.usecSinceLast == old(pc.usecSinceLast)
  {
    hide Quiet, TimeTicks, Ticks, TickN, Tick1, ApplyCall, StepObeys, Delivered;
    QuietIsGood(pc.View());
    ExecIsQuiet(pc.View(), step, pc.devices, None);
    QuietIsGood(Exec(pc.View(), step, pc.devices));
    ExecTime(pc.View(), step, pc.devices);
    match step {
      case OneTick => pc.Tick1();
      case Batch(n) => pc.TickN(n);
      case Request(c) =>
        assert [c][1..] == [];
        pc.Perform([c]);
    }
  }

  /** The readings still to come, of a clock that last returned `previous`, from virtual time t on. */
  function Coming(previous: nat, t: nat, actions: seq<Action>, mIps: real): seq<nat>
    requires 0.0 < mIps
  {
    Readings(previous, Times(t, actions, mIps))
  }

  lemma ComingUnfolds(previous: nat, t: nat, actions: seq<Action>, mIps: real)
    requires 0.0 < mIps && actions != []
    ensures Coming(previous, t, actions, mIps) ==
            match actions[0]
            case Do(step) => Coming(previous, t + Delivered([step]), actions[1..], mIps)
            case Read =>
              var r := Max(TimeUsec(t, mIps), previous) + 1;
              [r] + Coming(r, t, actions[1..], mIps)
  {
    hide Delivered, TimeUsec;
    if actions[0].Read? {
      var times := Times(t, actions, mIps);
      assert times[0] == TimeUsec(t, mIps) && times[1..] == Times(t, actions[1..], mIps);
    }
  }

  /** The machine between two actions: quiet, and its clock has not read ahead of virtual time. */
  ghost predicate InSession(pc: BxPcSystem, mIps: real)
    requires 0.0 < mIps
    reads pc, pc.timer
  {
    pc.Valid() && Quiet(pc.View()) && pc.lastTimeUsec <= TimeUsec(TimeTicks(pc.View()), mIps)
  }

  /** An action, before the rest of them. */
  method Act(pc: BxPcSystem, action: Action, ghost rest: seq<Action>, mIps: real) returns (out: seq<nat>)
    requires 0.0 < mIps && InSession(pc, mIps)
    requires action.Do? ==> StepObeys(pc.View(), action.step, pc.devices, None)
    modifies pc, pc.timer
    ensures InSession(pc, mIps)
    ensures pc.View() == if action.Do? then Exec(old(pc.View()), action.step, pc.devices) else old(pc.View())
    ensures Coming(old(pc.lastTimeUsec + pc.usecSinceLast), old(TimeTicks(pc.View())), [action] + rest, mIps) ==
            out + Coming(pc.lastTimeUsec + pc.usecSinceLast, TimeTicks(pc.View()), rest, mIps)
  {
    hide Quiet, TimeTicks, Exec, StepObeys, TimeUsec, Delivered, Coming;
    ghost var before := TimeTicks(pc.View());
    ComingUnfolds(pc.lastTimeUsec + pc.usecSinceLast, before, [action] + rest, mIps);
    assert ([action] + rest)[1..] == rest;
    match action {
      case Do(step) =>
        Perform(pc, step);
        TimeUsecMonotone(before, TimeTicks(pc.View()), mIps);
        out := [];
      case Read =>
        QuietIsGood(pc.View());
        var ticks := pc.TimeTicks();
        var reading := pc.TimeUsecSequential(TimeUsec(ticks, mIps));
        out := [reading];
    }
  }

  /**
   In every run of the machine in which requests and handlers keep the obligations, the clock readings are those of
   time_usec at the ticks delivered so far: strictly increasing and ahead of virtual time.
   */
  method Session(pc: BxPcSystem, actions: seq<Action>, mIps: real) returns (readings: seq<nat>)
    requires 0.0 < mIps && InSession(pc, mIps) && RunObeys(pc.View(), Steps(actions), pc.devices, None)
    modifies pc, pc.timer
    ensures InSession(pc, mIps) && pc.View() == Run(old(pc.View()), Steps(actions), pc.devices)
    ensures var times := Times(old(TimeTicks(pc.View())), actions, mIps);
      var previous := old(pc.lastTimeUsec + pc.usecSinceLast);
      readings == Readings(previous, times) && Ahead(readings, previous, times)
  {
    hide Quiet, TimeTicks, Exec, TimeUsec, Ahead, InSession, Readings, Times, Good, Run, StepObeys, RunObeys, Steps;
    SessionIsGood(pc, mIps);
    readings := [];
    ghost var s, t, previous := pc.View(), TimeTicks(pc.View()), pc.lastTimeUsec + pc.usecSinceLast;
    ReadingsAreAhead(previous, Times(t, actions, mIps));
    assert actions[0..] == actions;
    var i := 0;
    while i < |actions|
      invariant 0 <= i <= |actions| && InSession(pc, mIps) && Good(pc.View())
      invariant RunObeys(pc.View(), Steps(actions[i..]), pc.devices, None)
      invariant Run(pc.View(), Steps(actions[i..]), pc.devices) == Run(s, Steps(actions), pc.devices)
      invariant readings + Coming(pc.lastTimeUsec + pc.usecSinceLast, TimeTicks(pc.View()), actions[i..], mIps) ==
                Coming(previous, t, actions, mIps)
    {
      assert actions[i..][0] == actions[i] && actions[i..][1..] == actions[i + 1..];
      assert actions[i..] == [actions[i]] + actions[i + 1..];
      RunFirst(pc.View(), actions[i..], pc.devices);
      var out := Act(pc, actions[i], actions[i + 1..], mIps);
      SessionIsGood(pc, mIps);
      readings := readings + out;
      i := i + 1;
    }
    NoneComing(pc.lastTimeUsec + pc.usecSinceLast, TimeTicks(pc.View()), mIps);
    assert actions[i..] == [];
    RunNothing(pc.View(), pc.devices);
  }

  lemma SessionIsGood(pc: BxPcSystem, mIps: real)
    requires 0.0 < mIps
    ensures InSession(pc, mIps) ==> Good(pc.View())
  {
  }

  lemma NoneComing(previous: nat, t: nat, mIps: real)
    requires 0.0 < mIps
    ensures Coming(previous, t, [], mIps) == []
  {
  }

  /** A session of a machine that has just been constructed. */
  method Boot(devices: Devices, actions: seq<Action>, mIps: real) returns (readings: seq<nat>)
    requires 0.0 < mIps && RunObeys(INITIAL, Steps(actions), devices, None)
    ensures readings == Readings(0, Times(0, actions, mIps)) && Ahead(readings, 0, Times(0, actions, mIps))
  {
    hide Quiet, Run, RunObeys, Steps, Readings, Times, Ahead, Good;
    InitialIsQuiet();
    var pc := new BxPcSystem(devices);
    readings := Session(pc, actions, mIps);
  }
}
