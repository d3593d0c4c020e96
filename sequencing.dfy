/** The order of side effects in `forced_idle_write`: five entry steps, the
    optional wake timer and the firmware call, then the five undo steps. */
module Sequencing {
  import opened Linux

  /** The five entry steps, each of which has an undoing counterpart:
      suspend_all_device_irqs / resume_all_device_irqs,
      preempt_disable / preempt_enable_no_resched,
      tick_nohz_idle_enter / tick_nohz_idle_exit,
      stop_critical_timings / start_critical_timings,
      local_irq_disable / local_irq_enable. */
  datatype Step = DeviceIrqsOff | PreemptionOff | TickIdle | CriticalTimingsOff | LocalIrqsOff

  /** An observable side effect of a forced-idle write. */
  datatype Event =
    | Do(step: Step)
    | Undo(step: Step)
    | ProgramTimer(deadline: int)               // tick_program_event
    | IdleEnter(idleState: bv32, psciState: bv32) // CPU_PM_CPU_IDLE_ENTER_PARAM(psci_cpu_suspend_enter, ...)

  /** The entry steps in the order the write performs them. */
  function EntrySteps(): seq<Step> {
    [DeviceIrqsOff, PreemptionOff, TickIdle, CriticalTimingsOff, LocalIrqsOff]
  }

  /** Performing `steps` in order. */
  function Dos(steps: seq<Step>): (r: seq<Event>)
    ensures |r| == |steps|
  {
    if steps == [] then [] else [Do(steps[0])] + Dos(steps[1..])
  }

  /** Undoing `steps`, last one first. */
  function Undos(steps: seq<Step>): (r: seq<Event>)
    ensures |r| == |steps|
  {
    if steps == [] then [] else Undos(steps[1..]) + [Undo(steps[0])]
  }

  /** `body` run inside the steps: enter them all, run the body, undo them all. */
  function Bracket(steps: seq<Step>, body: seq<Event>): seq<Event> {
    Dos(steps) + body + Undos(steps)
  }

  /** Neither an entry nor an undo event. */
  predicate Plain(e: Event) { e.ProgramTimer? || e.IdleEnter? }

  /** Every entry step is matched by its own undo, in last-in first-out order. */
  ghost predicate WellNested(t: seq<Event>)
    decreases |t|
  {
    (forall i | 0 <= i < |t| :: Plain(t[i])) ||
    (|t| >= 2 && t[0].Do? && t[|t| - 1] == Undo(t[0].step) && WellNested(t[1..|t| - 1]))
  }

  /** What happens while the CPU is quiesced: the wake timer when one is
      armed, then the firmware call when the kernel has the idle-enter hook. */
  function IdleBody(idleState: bv32, psciState: bv32, timer: Option<int>, hasIdleEnter: bool): (r: seq<Event>)
    ensures forall i | 0 <= i < |r| :: Plain(r[i])
  {
    (if timer.Some? then [ProgramTimer(timer.value)] else []) +
    (if hasIdleEnter then [IdleEnter(idleState, psciState)] else [])
  }

  /** The events of one accepted forced-idle write. */
  function WriteTrace(idleState: bv32, psciState: bv32, timer: Option<int>, hasIdleEnter: bool): seq<Event> {
    Bracket(EntrySteps(), IdleBody(idleState, psciState, timer, hasIdleEnter))
  }

  /** Appending the three phases of a write one after another builds its trace. */
  lemma AppendWriteTrace(t0: seq<Event>, idleState: bv32, psciState: bv32, timer: Option<int>, hasIdleEnter: bool,
                         t1: seq<Event>, t2: seq<Event>, t3: seq<Event>)
    requires t1 == t0 + Dos(EntrySteps())
    requires t2 == t1 + IdleBody(idleState, psciState, timer, hasIdleEnter)
    requires t3 == t2 + Undos(EntrySteps())
    ensures t3 == t0 + WriteTrace(idleState, psciState, timer, hasIdleEnter)
  {
    var d, b, u := Dos(EntrySteps()), IdleBody(idleState, psciState, timer, hasIdleEnter), Undos(EntrySteps());
    assert t3 == t0 + (d + b + u);
  }

  /** The k-th undo event undoes the k-th step from the end. */
  lemma {:induction false} UndosAt(steps: seq<Step>, k: nat)
    requires k < |steps|
    ensures Undos(steps)[k] == Undo(steps[|steps| - 1 - k])
  {
    if k < |steps| - 1 {
      UndosAt(steps[1..], k);
    }
  }

  /** The k-th event of `Dos(steps)` performs the k-th step. */
  lemma {:induction false} DosAt(steps: seq<Step>, k: nat)
    requires k < |steps|
    ensures Dos(steps)[k] == Do(steps[k])
  {
    if k > 0 {
      DosAt(steps[1..], k - 1);
    }
  }

  /** Whatever the body, as long as it enters and undoes nothing itself, a
      bracketed run is well nested. */
  lemma {:induction false} BracketIsWellNested(steps: seq<Step>, body: seq<Event>)
    requires forall i | 0 <= i < |body| :: Plain(body[i])
    ensures WellNested(Bracket(steps, body))
    decreases |steps|
  {
    var t := Bracket(steps, body);
    if steps != [] {
      var inner := Bracket(steps[1..], body);
      calc {
        t;
        Dos(steps) + body + Undos(steps);
        ([Do(steps[0])] + Dos(steps[1..])) + body + (Undos(steps[1..]) + [Undo(steps[0])]);
        { assert inner == Dos(steps[1..]) + body + Undos(steps[1..]); }
        [Do(steps[0])] + inner + [Undo(steps[0])];
      }
      assert t[0] == Do(steps[0]) && t[|t| - 1] == Undo(steps[0]);
      assert t[1..|t| - 1] == inner;
      BracketIsWellNested(steps[1..], body);
    } else {
      assert t == body;
    }
  }

  /** Every accepted write undoes each of its five steps, in exactly reverse
      order, whether or not a timer is armed and whatever the firmware does. */
  lemma WriteTraceIsWellNested(idleState: bv32, psciState: bv32, timer: Option<int>, hasIdleEnter: bool)
    ensures WellNested(WriteTrace(idleState, psciState, timer, hasIdleEnter))
    ensures forall k | 0 <= k < 5 ::
      WriteTrace(idleState, psciState, timer, hasIdleEnter)[k] == Do(EntrySteps()[k])
    ensures forall k | 0 <= k < 5 ::
      var t := WriteTrace(idleState, psciState, timer, hasIdleEnter);
      t[|t| - 1 - k] == Undo(EntrySteps()[k])
  {
    BracketIsWellNested(EntrySteps(), IdleBody(idleState, psciState, timer, hasIdleEnter));
    var t := WriteTrace(idleState, psciState, timer, hasIdleEnter);
    forall k | 0 <= k < 5
      ensures t[k] == Do(EntrySteps()[k])
      ensures t[|t| - 1 - k] == Undo(EntrySteps()[k])
    {
      DosAt(EntrySteps(), k);
      UndosAt(EntrySteps(), 4 - k);
    }
  }
}
