# Forced idle on Tegra23x CPUs, modelled in Dafny

This project models the debugfs forced-idle facility of the Tegra23x cpuidle
debug driver (`drivers/cpuidle/cpuidle-debugfs-tegra23x.c`). A user stores a
64-bit selector in `forced_idle_state`, then writes a duration in
microseconds to `forced_idle_duration_us`. The write handler
`forced_idle_write` validates the selector (C7 with the fixed PSCI parameter
`0x40000007`, or OIST with the selector's low word as parameter, which must
carry bit 30), disables every non-timer interrupt descriptor, disables
preemption, enters tick-idle mode, stops critical timings, disables local
interrupts, arms a wake timer for C7, calls the firmware through the CPU PM
idle-enter hook, and then undoes the five steps in reverse order. Probing the
driver checks the MCE firmware version and creates the debugfs directory.

Files:

- `linux.dfy` (module `Linux`): `u32`/`u64`/`s64`, the `s64` cast, errno values, `Option`/`Result`.
- `selector.dfy` (module `Selector`): the selector decoder and its properties.
  The masks are related to arithmetic readings of the selector (`Kind` = selector
  mod 16, `LowWord` = selector mod 2^32, `TypeBitSet` = bit 30).
- `irq.dfy` (module `Irq`): interrupt descriptors (`action` flags and disable
  depth), `is_timer_irq`, and the effect of one suspend or resume pass over a
  table snapshot (`Suspended`, `Resumed`), with the lemma that resume undoes suspend.
- `sequencing.dfy` (module `Sequencing`): the events a write performs, the
  trace of an accepted write, and the proof that it is well nested (every
  entry step is undone, last in first out).
- `forced_idle.dfy` (module `ForcedIdle`): class `KernelState` holding the
  descriptor table as an array, the CPU's preemption count, tick-idle,
  critical-timing and local-interrupt flags, the next programmed tick event,
  the selector, and a ghost event trace. The two IRQ loops run in place over
  the array; `ForcedIdleWrite` is proved against `Selector.Decode`,
  `Irq.ResumeUndoesSuspend` and `Sequencing.WriteTrace`.
- `ScenarioHarness` (end of `forced_idle.dfy`): three writes against one
  table (C7 with 1000 us, OIST 0x40000008, OIST 8), with hook results 7 and -1 whose asserted outcomes
  follow from the contracts alone.
- `probe.dfy` (module `Probe`): `check_mce_version`, `cpuidle_debugfs_init`
  and the probe, over the firmware query result and the directory outcome.

Inputs that stand for hardware, firmware and the kernel clock:

- `ktime_get` is the parameter `now` (an `s64`) of `ForcedIdleWrite`.
- What `CPU_PM_CPU_IDLE_ENTER_PARAM(psci_cpu_suspend_enter, ...)` returns (the
  idle-enter hook's result) is the parameter `idleEnterResult` (`None` when the kernel is at or below 4.15.0
  and the call is compiled out, so the write returns 0).
- What `tegra_mce_read_versions` reports is an `MceVersions` value, and
  TEGRA_ARI_VERSION_MAJOR is the parameter `requiredMajor`.
- Whether `debugfs_create_dir` returned non-NULL is the parameter `dirCreated`.

Two modelling choices follow the code closely:

- `suspend_all_device_irqs`/`resume_all_device_irqs` call `__disable_irq`/`__enable_irq`,
  which count a disable depth per descriptor. The model keeps that depth, so
  it also covers lines that were already disabled before the write.
- The write returns whatever `CPU_PM_CPU_IDLE_ENTER_PARAM` yields (or 0 when
  that call is compiled out). The model takes that value as an input and
  passes it through unchanged.

## Model

| member | source | states |
|---|---|---|
| Selector.Decode | drivers/cpuidle/cpuidle-debugfs-tegra23x.c:94-107 | a selector is accepted iff its kind is 7, or its kind is 8 and bit 30 is set; the idle state is the kind; C7's parameter is 0x40000007; OIST's parameter is the selector's low 32 bits; every refusal is -EINVAL |
| Selector.MasksAreReadings | drivers/cpuidle/cpuidle-debugfs-tegra23x.c:94-100 | masking with 0xF and 0xFFFFFFFF and testing bit 30 agree with reading the selector modulo 16, modulo 2^32 and bit 30 by division |
| Selector.C7ParamIsFixed | drivers/cpuidle/cpuidle-debugfs-tegra23x.c:94-97 | any two selectors of kind 7 decode to the same request (7, 0x40000007), whatever their other bits |
| Selector.OistParamIsLowWord | drivers/cpuidle/cpuidle-debugfs-tegra23x.c:98-103 | for kind 8, bit 30 set gives parameter = low 32 bits exactly, bit 30 clear gives -EINVAL |
| Selector.DecodeIgnoresHighWord | drivers/cpuidle/cpuidle-debugfs-tegra23x.c:94-107 | the decision and the request depend only on the selector's low 32 bits |
| Selector.AcceptedRequestsAreWellFormed | drivers/cpuidle/cpuidle-debugfs-tegra23x.c:94-107 | an accepted request names C7 or OIST and its PSCI parameter carries the extended power-state type bit |
| Selector.SelectorScenarios | drivers/cpuidle/cpuidle-debugfs-tegra23x.c:94-107 | selector 7 gives (7, 0x40000007), 0x40000008 gives (8, 0x40000008), 8 is refused with -EINVAL |
| Irq.IsTimerIrq | drivers/cpuidle/cpuidle-debugfs-tegra23x.c:48-51 | holds only for a present descriptor with an action, and for such a descriptor exactly when its flags carry one of the three bits making up IRQF_TIMER |
| Irq.Suspended | drivers/cpuidle/cpuidle-debugfs-tegra23x.c:53-69 | one in-order suspend pass over the table; keeps the table's length (its per-slot effect is `Irq.SuspendedAt`) |
| Irq.Resumed | drivers/cpuidle/cpuidle-debugfs-tegra23x.c:71-86 | one in-order resume pass over the table; keeps the table's length (its per-slot effect is `Irq.ResumedAt`) |
| Irq.SuspendKeepsPopulation | drivers/cpuidle/cpuidle-debugfs-tegra23x.c:48-51 | disabling does not change which descriptors `is_timer_irq` holds for, so resume visits exactly the descriptors suspend disabled |
| Irq.SuspendedAt | drivers/cpuidle/cpuidle-debugfs-tegra23x.c:53-69 | after suspend every present non-timer descriptor has depth one higher, the same action and is masked; timer descriptors and empty slots are unchanged |
| Irq.ResumedAt | drivers/cpuidle/cpuidle-debugfs-tegra23x.c:71-86 | after resume every present non-timer descriptor has depth one lower (staying at 0 if it was 0); timer descriptors and empty slots are unchanged |
| Irq.ResumeUndoesSuspend | drivers/cpuidle/cpuidle-debugfs-tegra23x.c:53-86 | resume right after suspend gives back exactly the original table |
| Sequencing.UndosAt | drivers/cpuidle/cpuidle-debugfs-tegra23x.c:128-132 | the k-th undo event undoes the k-th entry step counted from the end |
| Sequencing.DosAt | drivers/cpuidle/cpuidle-debugfs-tegra23x.c:109-113 | the k-th entry event performs the k-th entry step |
| Sequencing.BracketIsWellNested | drivers/cpuidle/cpuidle-debugfs-tegra23x.c:109-132 | entering steps, running a body that enters and undoes nothing, then undoing the steps in reverse gives a well-nested trace |
| Sequencing.WriteTraceIsWellNested | drivers/cpuidle/cpuidle-debugfs-tegra23x.c:109-132 | an accepted write's trace is well nested and its first five and last five events are the five entry steps and their undos in reverse order, with or without the timer and the firmware call |
| Linux.ToS64 | drivers/cpuidle/cpuidle-debugfs-tegra23x.c:117-119 | the `s64` reading of an integer lies in the `s64` range, is congruent to it modulo 2^64, and equals it when it already fits |
| ForcedIdle.WakeDeadline | drivers/cpuidle/cpuidle-debugfs-tegra23x.c:117-119 | the deadline, computed with the 64-bit product, the `s64` cast and the wrapping add, is congruent modulo 2^64 to now + duration_us * 1000 |
| ForcedIdle.WakeDeadlineExact | drivers/cpuidle/cpuidle-debugfs-tegra23x.c:117-119 | when neither the product nor the sum leaves the `s64` range, the deadline is exactly now + duration_us * NSEC_PER_USEC and not before now |
| ForcedIdle.LargestDurationWrapsIntoThePast | drivers/cpuidle/cpuidle-debugfs-tegra23x.c:90-119 | the code does not bound the duration: a duration of 2^64 - 1 us arms the timer 1000 ns before now |
| ForcedIdle.KernelState.SetForcedIdleState | drivers/cpuidle/cpuidle-debugfs-tegra23x.c:147-148 | a write to the `forced_idle_state` attribute stores the selector and changes nothing else |
| ForcedIdle.KernelState.SuspendAllDeviceIrqs | drivers/cpuidle/cpuidle-debugfs-tegra23x.c:53-69 | the loop leaves the table equal to `Suspended` of the old table and records one suspend event |
| ForcedIdle.KernelState.ResumeAllDeviceIrqs | drivers/cpuidle/cpuidle-debugfs-tegra23x.c:71-86 | the loop leaves the table equal to `Resumed` of the old table and records one resume event |
| ForcedIdle.KernelState.PreemptDisable | drivers/cpuidle/cpuidle-debugfs-tegra23x.c:110 | preemption count goes up by one |
| ForcedIdle.KernelState.TickNohzIdleEnter | drivers/cpuidle/cpuidle-debugfs-tegra23x.c:111 | the tick enters idle mode |
| ForcedIdle.KernelState.StopCriticalTimings | drivers/cpuidle/cpuidle-debugfs-tegra23x.c:112 | critical-timing tracking stops |
| ForcedIdle.KernelState.LocalIrqDisable | drivers/cpuidle/cpuidle-debugfs-tegra23x.c:113 | local interrupts are disabled |
| ForcedIdle.KernelState.TickProgramEvent | drivers/cpuidle/cpuidle-debugfs-tegra23x.c:120 | the next tick event is the given deadline |
| ForcedIdle.KernelState.CpuIdleEnter | drivers/cpuidle/cpuidle-debugfs-tegra23x.c:124-125 | entered only with local interrupts disabled; returns the idle-enter hook's result and records the call with its idle state and PSCI parameter |
| ForcedIdle.KernelState.LocalIrqEnable | drivers/cpuidle/cpuidle-debugfs-tegra23x.c:128 | local interrupts are enabled |
| ForcedIdle.KernelState.StartCriticalTimings | drivers/cpuidle/cpuidle-debugfs-tegra23x.c:129 | critical-timing tracking resumes |
| ForcedIdle.KernelState.TickNohzIdleExit | drivers/cpuidle/cpuidle-debugfs-tegra23x.c:130 | the tick leaves idle mode |
| ForcedIdle.KernelState.PreemptEnableNoResched | drivers/cpuidle/cpuidle-debugfs-tegra23x.c:131 | preemption count goes down by one; requires it to be positive |
| ForcedIdle.KernelState.Quiesce | drivers/cpuidle/cpuidle-debugfs-tegra23x.c:109-113 | all device IRQs suspended, preemption count one higher, tick idle, critical timings stopped, local IRQs off, and the five entry events recorded in order |
| ForcedIdle.KernelState.Unwind | drivers/cpuidle/cpuidle-debugfs-tegra23x.c:128-132 | device IRQs resumed, preemption count one lower, tick running, critical timings tracked, local IRQs on, and the five undo events recorded in reverse entry order |
| ForcedIdle.KernelState.IdleWithWakeTimer | drivers/cpuidle/cpuidle-debugfs-tegra23x.c:115-126 | a timer is armed at `WakeDeadline(now, duration_us)` for C7 only; OIST leaves the next event alone; the result is the idle-enter hook's result, or 0 when the call is compiled out |
| ForcedIdle.KernelState.RunForcedIdle | drivers/cpuidle/cpuidle-debugfs-tegra23x.c:109-134 | for a validated request: the table and preemption count end as they began, the tick, critical-timing and local-IRQ flags end in process context, the timer is armed for C7 only at `WakeDeadline`, the result is the idle-enter hook's result (0 when compiled out), and the trace is the well-nested write trace |
| ForcedIdle.KernelState.ForcedIdleWrite | drivers/cpuidle/cpuidle-debugfs-tegra23x.c:88-135 | a refused selector returns -EINVAL with nothing changed; an accepted one behaves as `RunForcedIdle` on the decoded request, whatever the idle-enter hook returns |
| Probe.ProbeDriver | drivers/cpuidle/cpuidle-debugfs-tegra23x.c:161-178 | debugfs init is attempted iff the version query reported no error and the major version is at least the required one; -ENODEV iff it is not attempted; -ENOMEM iff attempted and `debugfs_create_dir` returned NULL; 0 iff attempted and it returned non-NULL |
| Probe.ProbeIgnoresMinor | drivers/cpuidle/cpuidle-debugfs-tegra23x.c:36-46 | the minor firmware version never changes the probe's outcome |
| Probe.ProbeBindsOnlyWhenUsable | drivers/cpuidle/cpuidle-debugfs-tegra23x.c:161-178 | the probe returns 0, -ENODEV or -ENOMEM, and 0 exactly when the version check passes and debugfs init returns 0 |

## Left out

- `sound/soc/tegra-alt/tegra_asoc_machine_alt.h`: only enumerations and prototypes, with no behaviour to model.
- The per-descriptor spinlocks and the unlocked global selector: the model is single-threaded, so no other CPU changes the selector or a descriptor's timer flag during a write.
- The internals of `__disable_irq`/`__enable_irq`: only the disable depth is kept (a line is masked while its depth is positive); the chip-level mask, startup and resend, and the suspended-state check in `__enable_irq` are not modelled. An enable at depth 0 only warns in the kernel and is a no-op here. The model's depth is unbounded, while the kernel's `irq_desc.depth` is an `unsigned int` whose `depth++` wraps at UINT_MAX; `Irq.ResumeUndoesSuspend` does not cover that wrap, after which suspend then resume would leave the line enabled.
- The value of IRQF_TIMER is taken from include/linux/interrupt.h, which is not part of this model.
- `for_each_irq_desc` is not part of this model; it is taken to visit every interrupt number in order and to skip numbers that have no descriptor.
- `tick_nohz_idle_enter/exit`, `stop/start_critical_timings` and `local_irq_disable/enable` are flags; `preempt_disable`/`preempt_enable_no_resched` a counter; `tick_program_event` records the last programmed deadline. Rescheduling, clock-event hardware and tick restart are not modelled.
- The expansion of `CPU_PM_CPU_IDLE_ENTER_PARAM` is not part of this model: in mainline kernels it returns the idle index (7 or 8) on success and -1 on any failure, including a failing `cpu_pm_enter` before the firmware is called. The model leaves the result unconstrained.
- `ktime_set` clamps to KTIME_MAX only for large seconds; with 0 seconds as here that branch is never taken and is not modelled. `ktime_add` is taken to wrap, as the kernel's build flags make signed overflow do.
- ForcedIdle.KernelState.ForcedIdleWrite: restores the preemption count and the IRQ table exactly, but restores the tick, critical-timing and local-IRQ flags only to the process-context values (`InProcessContext`), not to whatever they were before, because the undo calls set them unconditionally.
- Kernel log messages (`pr_err`) are not modelled.
- Probe.ProbeDriver: the return convention of `debugfs_create_dir` is outside the model; `dirCreated` says only whether it returned non-NULL. On kernels where it reports failure with an ERR_PTR, line 144 does not catch the failure and the probe returns 0.
- debugfs file creation, `debugfs_remove_recursive`, the remove callback, platform-driver registration and device-tree matching are glue and are not modelled; only the outcome of `debugfs_create_dir` is.
