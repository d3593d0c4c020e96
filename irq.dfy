/** The interrupt descriptor table as the forced-idle driver sees it, and the
    effect of `suspend_all_device_irqs` / `resume_all_device_irqs` on it,
    stated over a snapshot of the table. */
module Irq {
  import opened Linux

  /** Action flags from include/linux/interrupt.h. */
  const IRQF_TIMER_BIT: bv32 := 0x0000_0200    // __IRQF_TIMER
  const IRQF_NO_SUSPEND: bv32 := 0x0000_4000
  const IRQF_NO_THREAD: bv32 := 0x0001_0000

  /** IRQF_TIMER is __IRQF_TIMER | IRQF_NO_SUSPEND | IRQF_NO_THREAD. */
  const IRQF_TIMER: bv32 := IRQF_TIMER_BIT | IRQF_NO_SUSPEND | IRQF_NO_THREAD

  datatype IrqAction = IrqAction(flags: bv32)

  /** A descriptor: its (first) action, if any, and its disable depth. The line
      is masked exactly while the depth is positive. */
  datatype IrqDesc = IrqDesc(action: Option<IrqAction>, depth: nat)

  /** A slot of the table: `None` for an interrupt number without a descriptor. */
  type Slot = Option<IrqDesc>

  /** `is_timer_irq`: a present descriptor whose action carries a timer flag. */
  predicate IsTimerIrq(slot: Slot)
    ensures IsTimerIrq(slot) ==> slot.Some? && slot.value.action.Some?
    ensures slot.Some? && slot.value.action.Some? ==>
      (IsTimerIrq(slot) <==>
        var f := slot.value.action.value.flags;
        f & IRQF_TIMER_BIT != 0 || f & IRQF_NO_SUSPEND != 0 || f & IRQF_NO_THREAD != 0)
  {
    slot.Some? && slot.value.action.Some? && slot.value.action.value.flags & IRQF_TIMER != 0
  }

  /** The population both loops act on: every descriptor that
      `for_each_irq_desc` visits (it skips numbers without a descriptor) and
      that is not the timer. */
  predicate IsDeviceIrq(slot: Slot) {
    slot.Some? && !IsTimerIrq(slot)
  }

  predicate Masked(d: IrqDesc) { d.depth > 0 }

  /** `__disable_irq`: one more level of disabling. */
  function DisableIrq(d: IrqDesc): IrqDesc {
    d.(depth := d.depth + 1)
  }

  /** `__enable_irq`: one level less; at depth 0 the kernel only warns about
      an unbalanced enable and leaves the descriptor as it is. */
  function EnableIrq(d: IrqDesc): IrqDesc {
    if d.depth == 0 then d else d.(depth := d.depth - 1)
  }

  /** One iteration of the suspend loop. */
  function SuspendSlot(slot: Slot): Slot {
    if IsDeviceIrq(slot) then Some(DisableIrq(slot.value)) else slot
  }

  /** One iteration of the resume loop. */
  function ResumeSlot(slot: Slot): Slot {
    if IsDeviceIrq(slot) then Some(EnableIrq(slot.value)) else slot
  }

  /** The table after `suspend_all_device_irqs` has visited every slot of `t`, in order. */
  function Suspended(t: seq<Slot>): (r: seq<Slot>)
    ensures |r| == |t|
  {
    if t == [] then [] else Suspended(t[..|t| - 1]) + [SuspendSlot(t[|t| - 1])]
  }

  /** The table after `resume_all_device_irqs` has visited every slot of `t`, in order. */
  function Resumed(t: seq<Slot>): (r: seq<Slot>)
    ensures |r| == |t|
  {
    if t == [] then [] else Resumed(t[..|t| - 1]) + [ResumeSlot(t[|t| - 1])]
  }

  /** Suspend disables every device descriptor exactly once, keeping its action,
      masks it, and leaves timer descriptors and empty slots as they were. */
  lemma {:induction false} SuspendedAt(t: seq<Slot>, i: nat)
    requires i < |t|
    ensures |Suspended(t)| == |t|
    ensures IsDeviceIrq(t[i]) ==>
      Suspended(t)[i] == Some(IrqDesc(t[i].value.action, t[i].value.depth + 1)) && Masked(Suspended(t)[i].value)
    ensures !IsDeviceIrq(t[i]) ==> Suspended(t)[i] == t[i]
  {
    if i < |t| - 1 {
      SuspendedAt(t[..|t| - 1], i);
    } else if |t| > 1 {
      SuspendedAt(t[..|t| - 1], 0);
    }
  }

  /** Resume re-enables every device descriptor once (a descriptor already at
      depth 0 stays there) and leaves timer descriptors and empty slots as they were. */
  lemma {:induction false} ResumedAt(t: seq<Slot>, i: nat)
    requires i < |t|
    ensures |Resumed(t)| == |t|
    ensures IsDeviceIrq(t[i]) ==>
      Resumed(t)[i] == Some(IrqDesc(t[i].value.action, if t[i].value.depth == 0 then 0 else t[i].value.depth - 1))
    ensures !IsDeviceIrq(t[i]) ==> Resumed(t)[i] == t[i]
  {
    if i < |t| - 1 {
      ResumedAt(t[..|t| - 1], i);
    } else if |t| > 1 {
      ResumedAt(t[..|t| - 1], 0);
    }
  }

  /** Suspend changes no slot's membership of the population, so resume visits
      exactly the descriptors suspend disabled. */
  lemma SuspendKeepsPopulation(t: seq<Slot>, i: nat)
    requires i < |t|
    ensures |Suspended(t)| == |t|
    ensures IsDeviceIrq(Suspended(t)[i]) <==> IsDeviceIrq(t[i])
    ensures IsTimerIrq(Suspended(t)[i]) <==> IsTimerIrq(t[i])
  {
    SuspendedAt(t, i);
  }

  /** The pair restores the table: resuming right after suspending gives every
      descriptor back its disable depth. */
  lemma {:induction false} ResumeUndoesSuspend(t: seq<Slot>)
    ensures Resumed(Suspended(t)) == t
  {
    if t != [] {
      var n := |t| - 1;
      assert t[..n] + [t[n]] == t;
      ResumedSnoc(Suspended(t[..n]), SuspendSlot(t[n]));
      ResumeUndoesSuspend(t[..n]);
      assert ResumeSlot(SuspendSlot(t[n])) == t[n];
    }
  }

  /** Resuming one more slot appends its resumed value. */
  lemma ResumedSnoc(a: seq<Slot>, x: Slot)
    ensures Resumed(a + [x]) == Resumed(a) + [ResumeSlot(x)]
  {
    assert (a + [x])[..|a|] == a;
  }
}
