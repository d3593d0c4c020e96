/** The kernel state that a forced-idle write touches, and the write itself. */
module ForcedIdle {
  import opened Linux
  import opened Selector
  import opened Irq
  import opened Sequencing

  /** Deadline of the C7 wake timer, computed as lines 117-119 do on a 64-bit
      kernel: the `unsigned long` product NSEC_PER_USEC * timer_interval_us
      (modulo 2^64), cast to `s64` by `ktime_set(0, ...)`, then added to `now`
      by `ktime_add`, which wraps. */
  function WakeDeadline(now: s64, durationUs: u64): (r: s64)
    ensures (r as int - (now as int + durationUs as int * 1000)) % TWO_TO_64 == 0
  {
    var nsecs := (NSEC_PER_USEC * durationUs as int) % TWO_TO_64;
    var interval := ToS64(nsecs);
    ToS64(now as int + interval as int)
  }

  /** Without wrap-around the wake timer fires exactly `durationUs`
      microseconds after `now`. */
  lemma WakeDeadlineExact(now: s64, durationUs: u64)
    requires durationUs as int * 1000 < 0x8000_0000_0000_0000
    requires now as int + durationUs as int * 1000 < 0x8000_0000_0000_0000
    ensures WakeDeadline(now, durationUs) as int == now as int + durationUs as int * NSEC_PER_USEC
    ensures WakeDeadline(now, durationUs) >= now
  {
    var nsecs := (NSEC_PER_USEC * durationUs as int) % TWO_TO_64;
    assert nsecs == durationUs as int * 1000;
    assert ToS64(nsecs) as int == nsecs;
  }

  /** The code does not bound the duration: the largest one wraps to a
      deadline one microsecond before `now`. */
  lemma LargestDurationWrapsIntoThePast(now: s64)
    requires now as int >= -0x8000_0000_0000_0000 + 1000
    ensures WakeDeadline(now, 0xFFFF_FFFF_FFFF_FFFF) as int == now as int - 1000
  {
    var nsecs := (NSEC_PER_USEC * 0xFFFF_FFFF_FFFF_FFFF) % TWO_TO_64;
    assert nsecs == TWO_TO_64 - 1000;
    assert ToS64(nsecs) as int == -1000;
  }

  /** The wake timer a validated request arms: C7 at `WakeDeadline`, OIST none. */
  function WakeTimer(req: Request, now: s64, durationUs: u64): Option<int> {
    if req.idleState == T23X_CPUIDLE_C7_STATE then Some(WakeDeadline(now, durationUs) as int) else None
  }

  /** The interrupt descriptor table, the calling CPU's preemption, tick,
      critical-timing and interrupt state, the next programmed tick event and
      the driver's `forced_idle_state` selector. `trace` records, in order,
      every side effect a forced-idle write performs. */
  class KernelState {
    var forcedIdleState: bv64
    const irqDescs: array<Slot>
    var preemptCount: nat
    var tickIdle: bool
    var criticalTimingsStopped: bool
    var localIrqsDisabled: bool
    var nextEvent: Option<int>
    ghost var trace: seq<Event>

    /** The state a debugfs write handler runs in: the tick running, critical
        timings tracked, local interrupts enabled. */
    predicate InProcessContext()
      reads this
    {
      !tickIdle && !criticalTimingsStopped && !localIrqsDisabled
    }

    constructor (table: array<Slot>)
      ensures irqDescs == table && forcedIdleState == 0
      ensures preemptCount == 0 && InProcessContext() && nextEvent == None
      ensures trace == []
    {
      irqDescs := table;
      forcedIdleState := 0;
      preemptCount := 0;
      tickIdle, criticalTimingsStopped, localIrqsDisabled := false, false, false;
      nextEvent := None;
      trace := [];
    }

    /** A write to the `forced_idle_state` attribute stores the selector. */
    method SetForcedIdleState(v: bv64)
      modifies this`forcedIdleState
      ensures forcedIdleState == v
    {
      forcedIdleState := v;
    }

    /** `suspend_all_device_irqs`: disable every descriptor except the timer,
        walking the table in order. */
    method SuspendAllDeviceIrqs()
      modifies irqDescs, this`trace
      ensures irqDescs[..] == Suspended(old(irqDescs[..]))
      ensures trace == old(trace) + [Do(DeviceIrqsOff)]
    {
      ghost var t := irqDescs[..];
      var i := 0;
      while i < irqDescs.Length
        invariant 0 <= i <= irqDescs.Length
        invariant irqDescs[..i] == Suspended(t[..i])
        invariant forall j | i <= j < irqDescs.Length :: irqDescs[j] == t[j]
        modifies irqDescs
      {
        var slot := irqDescs[i];
        // for_each_irq_desc visits only numbers that have a descriptor
        if slot.Some? && !IsTimerIrq(slot) {
          irqDescs[i] := Some(DisableIrq(slot.value));
        }
        assert t[..i + 1][..i] == t[..i];
        assert irqDescs[..i + 1] == irqDescs[..i] + [SuspendSlot(t[i])];
        i := i + 1;
      }
      assert t[..i] == t;
      trace := trace + [Do(DeviceIrqsOff)];
    }

    /** `resume_all_device_irqs`: enable every descriptor except the timer,
        walking the table in order. */
    method ResumeAllDeviceIrqs()
      modifies irqDescs, this`trace
      ensures irqDescs[..] == Resumed(old(irqDescs[..]))
      ensures trace == old(trace) + [Undo(DeviceIrqsOff)]
    {
      ghost var t := irqDescs[..];
      var i := 0;
      while i < irqDescs.Length
        invariant 0 <= i <= irqDescs.Length
        invariant irqDescs[..i] == Resumed(t[..i])
        invariant forall j | i <= j < irqDescs.Length :: irqDescs[j] == t[j]
        modifies irqDescs
      {
        var slot := irqDescs[i];
        if slot.Some? && !IsTimerIrq(slot) {
          irqDescs[i] := Some(EnableIrq(slot.value));
        }
        assert t[..i + 1][..i] == t[..i];
        assert irqDescs[..i + 1] == irqDescs[..i] + [ResumeSlot(t[i])];
        i := i + 1;
      }
      assert t[..i] == t;
      trace := trace + [Undo(DeviceIrqsOff)];
    }

    method PreemptDisable()
      modifies this`preemptCount, this`trace
      ensures preemptCount == old(preemptCount) + 1
      ensures trace == old(trace) + [Do(PreemptionOff)]
    {
      preemptCount := preemptCount + 1;
      trace := trace + [Do(PreemptionOff)];
    }

    method PreemptEnableNoResched()
      requires preemptCount > 0
      modifies this`preemptCount, this`trace
      ensures preemptCount == old(preemptCount) - 1
      ensures trace == old(trace) + [Undo(PreemptionOff)]
    {
      preemptCount := preemptCount - 1;
      trace := trace + [Undo(PreemptionOff)];
    }

    method TickNohzIdleEnter()
      modifies this`tickIdle, this`trace
      ensures tickIdle
      ensures trace == old(trace) + [Do(TickIdle)]
    {
      tickIdle := true;
      trace := trace + [Do(TickIdle)];
    }

    method TickNohzIdleExit()
      modifies this`tickIdle, this`trace
      ensures !tickIdle
      ensures trace == old(trace) + [Undo(TickIdle)]
    {
      tickIdle := false;
      trace := trace + [Undo(TickIdle)];
    }

    method StopCriticalTimings()
      modifies this`criticalTimingsStopped, this`trace
      ensures criticalTimingsStopped
      ensures trace == old(trace) + [Do(CriticalTimingsOff)]
    {
      criticalTimingsStopped := true;
      trace := trace + [Do(CriticalTimingsOff)];
    }

    method StartCriticalTimings()
      modifies this`criticalTimingsStopped, this`trace
      ensures !criticalTimingsStopped
      ensures trace == old(trace) + [Undo(CriticalTimingsOff)]
    {
      criticalTimingsStopped := false;
      trace := trace + [Undo(CriticalTimingsOff)];
    }

    method LocalIrqDisable()
      modifies this`localIrqsDisabled, this`trace
      ensures localIrqsDisabled
      ensures trace == old(trace) + [Do(LocalIrqsOff)]
    {
      localIrqsDisabled := true;
      trace := trace + [Do(LocalIrqsOff)];
    }

    method LocalIrqEnable()
      modifies this`localIrqsDisabled, this`trace
      ensures !localIrqsDisabled
      ensures trace == old(trace) + [Undo(LocalIrqsOff)]
    {
      localIrqsDisabled := false;
      trace := trace + [Undo(LocalIrqsOff)];
    }

    /** `tick_program_event(deadline, true)`: the next tick event fires at `deadline`. */
    method TickProgramEvent(deadline: int)
      modifies this`nextEvent, this`trace
      ensures nextEvent == Some(deadline)
      ensures trace == old(trace) + [ProgramTimer(deadline)]
    {
      nextEvent := Some(deadline);
      trace := trace + [ProgramTimer(deadline)];
    }

    /** `CPU_PM_CPU_IDLE_ENTER_PARAM(psci_cpu_suspend_enter, ...)`: the hook's
        result is the input `result`. It is entered with local interrupts off. */
    method CpuIdleEnter(idleState: bv32, psciState: bv32, result: int) returns (ret: int)
      requires localIrqsDisabled
      modifies this`trace
      ensures ret == result
      ensures trace == old(trace) + [IdleEnter(idleState, psciState)]
    {
      trace := trace + [IdleEnter(idleState, psciState)];
      ret := result;
    }

    /** Lines 109-113 of `forced_idle_write`: the five entry steps, in order. */
    method Quiesce()
      modifies irqDescs, this`preemptCount, this`tickIdle, this`criticalTimingsStopped,
        this`localIrqsDisabled, this`trace
      ensures irqDescs[..] == Suspended(old(irqDescs[..]))
      ensures preemptCount == old(preemptCount) + 1
      ensures tickIdle && criticalTimingsStopped && localIrqsDisabled
      ensures trace == old(trace) + Dos(EntrySteps())
    {
      SuspendAllDeviceIrqs();
      PreemptDisable();
      TickNohzIdleEnter();
      StopCriticalTimings();
      LocalIrqDisable();
    }

    /** Lines 128-132 of `forced_idle_write`: the five undo steps, last entry step first. */
    method Unwind()
      requires preemptCount > 0
      modifies irqDescs, this`preemptCount, this`tickIdle, this`criticalTimingsStopped,
        this`localIrqsDisabled, this`trace
      ensures irqDescs[..] == Resumed(old(irqDescs[..]))
      ensures preemptCount == old(preemptCount) - 1
      ensures InProcessContext()
      ensures trace == old(trace) + Undos(EntrySteps())
    {
      LocalIrqEnable();
      StartCriticalTimings();
      TickNohzIdleExit();
      PreemptEnableNoResched();
      ResumeAllDeviceIrqs();
    }

    /** Lines 115-126 of `forced_idle_write`: with the CPU quiesced, arm the
        wake timer for C7 only, then call the firmware when the kernel has the
        idle-enter hook; the result is 0 without it. */
    method IdleWithWakeTimer(req: Request, durationUs: u64, now: s64, idleEnterResult: Option<int>)
      returns (ret: int, ghost timer: Option<int>)
      requires localIrqsDisabled
      modifies this`nextEvent, this`trace
      ensures timer == WakeTimer(req, now, durationUs)
      ensures ret == if idleEnterResult.Some? then idleEnterResult.value else 0
      ensures nextEvent == if timer.Some? then timer else old(nextEvent)
      ensures trace == old(trace) + IdleBody(req.idleState, req.psciState, timer, idleEnterResult.Some?)
    {
      timer := None;
      if req.idleState == T23X_CPUIDLE_C7_STATE {
        var deadline := WakeDeadline(now, durationUs) as int;
        TickProgramEvent(deadline);
        timer := Some(deadline);
      }
      ret := 0;
      if idleEnterResult.Some? {
        ret := CpuIdleEnter(req.idleState, req.psciState, idleEnterResult.value);
      }
    }

    /** Lines 109-134 of `forced_idle_write`, for a request that passed
        validation: quiesce, idle, unwind. */
    method RunForcedIdle(req: Request, durationUs: u64, now: s64, idleEnterResult: Option<int>) returns (ret: int)
      modifies this, irqDescs
      ensures
        var timer := WakeTimer(req, now, durationUs);
        && ret == (if idleEnterResult.Some? then idleEnterResult.value else 0)
        && irqDescs[..] == old(irqDescs[..])
        && preemptCount == old(preemptCount)
        && InProcessContext()
        && nextEvent == (if timer.Some? then timer else old(nextEvent))
        && forcedIdleState == old(forcedIdleState)
        && trace == old(trace) + WriteTrace(req.idleState, req.psciState, timer, idleEnterResult.Some?)
    {
      ghost var table0, trace0 := irqDescs[..], trace;
      Quiesce();
      ghost var table1, trace1 := irqDescs[..], trace;
      ghost var timer;
      ret, timer := IdleWithWakeTimer(req, durationUs, now, idleEnterResult);
      assert irqDescs[..] == table1;
      ghost var trace2 := trace;
      Unwind();
      ResumeUndoesSuspend(table0);
      assert irqDescs[..] == table0;
      AppendWriteTrace(trace0, req.idleState, req.psciState, timer, idleEnterResult.Some?, trace1, trace2, trace);
    }

    /** `forced_idle_write`: validate the selector before touching anything,
        then run the forced-idle period. `now` is the value `ktime_get`
        returns; `idleEnterResult` is what the idle-enter hook returns, or
        `None` when the kernel is built without it. */
    method ForcedIdleWrite(durationUs: u64, now: s64, idleEnterResult: Option<int>) returns (ret: int)
      modifies this, irqDescs
      ensures Decode(old(forcedIdleState)).Err? ==>
        ret == -EINVAL && unchanged(this) && unchanged(irqDescs)
      ensures Decode(old(forcedIdleState)).Ok? ==>
        var req := Decode(old(forcedIdleState)).value;
        var timer := WakeTimer(req, now, durationUs);
        && ret == (if idleEnterResult.Some? then idleEnterResult.value else 0)
        && irqDescs[..] == old(irqDescs[..])
        && preemptCount == old(preemptCount)
        && InProcessContext()
        && nextEvent == (if timer.Some? then timer else old(nextEvent))
        && forcedIdleState == old(forcedIdleState)
        && trace == old(trace) + WriteTrace(req.idleState, req.psciState, timer, idleEnterResult.Some?)
    {
      var decoded := Decode(forcedIdleState);
      if decoded.Err? {
        return decoded.error;
      }
      ret := RunForcedIdle(decoded.value, durationUs, now, idleEnterResult);
    }
  }
}

/** Three writes against one descriptor table, with the results the idle-enter
    hook gives (its index on success, -1 on failure): C7 arms the timer one
    millisecond ahead, OIST with bit 30 passes a failure through, OIST without
    bit 30 is refused, and after each write the table is as it was. */
method ScenarioHarness(table: array<Irq.Slot>)
  modifies table
{
  var k := new ForcedIdle.KernelState(table);
  ghost var t0 := table[..];
  var now: Linux.s64 := 5_000;
  Selector.SelectorScenarios();
  ForcedIdle.WakeDeadlineExact(now, 1000);

  k.SetForcedIdleState(7);
  var ret := k.ForcedIdleWrite(1000, now, Linux.Some(7));
  assert ret == 7 && k.nextEvent == Linux.Some(1_005_000);
  assert table[..] == t0 && k.InProcessContext() && k.preemptCount == 0;

  k.SetForcedIdleState(0x4000_0008);
  ret := k.ForcedIdleWrite(500, now, Linux.Some(-1));
  assert ret == -1 && k.nextEvent == Linux.Some(1_005_000);
  assert table[..] == t0;

  k.SetForcedIdleState(8);
  ghost var before := k.trace;
  ret := k.ForcedIdleWrite(500, now, Linux.Some(8));
  assert ret == -Linux.EINVAL && k.trace == before;
}
