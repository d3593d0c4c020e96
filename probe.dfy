/** Whether the driver binds: the MCE firmware version gate and the debugfs
    directory. The firmware query and the directory creation are inputs. */
module Probe {
  import opened Linux

  /** What `tegra_mce_read_versions` reports: an error code and the version
      numbers it fills in. */
  datatype MceVersions = MceVersions(err: int, major: u32, minor: u32)

  /** `check_mce_version`: the query succeeded and the major version is at
      least `requiredMajor` (TEGRA_ARI_VERSION_MAJOR, defined outside this model). */
  function CheckMceVersion(v: MceVersions, requiredMajor: u32): bool {
    if v.err == 0 && v.major >= requiredMajor then true else false
  }

  /** `cpuidle_debugfs_init`: -ENOMEM when `debugfs_create_dir` returns NULL,
      otherwise the two attribute files are created and the result is 0. */
  function DebugfsInit(dirCreated: bool): int {
    if !dirCreated then -ENOMEM else 0
  }

  /** The outcome of a probe: its return value and whether it reached
      `cpuidle_debugfs_init`. */
  datatype ProbeOutcome = ProbeOutcome(ret: int, initAttempted: bool)

  /** `tegra23x_cpuidle_debug_probe`. */
  function ProbeDriver(v: MceVersions, requiredMajor: u32, dirCreated: bool): (r: ProbeOutcome)
    ensures r.initAttempted <==> v.err == 0 && v.major >= requiredMajor
    ensures r.ret == -ENODEV <==> !r.initAttempted
    ensures r.ret == -ENOMEM <==> r.initAttempted && !dirCreated
    ensures r.ret == 0 <==> r.initAttempted && dirCreated
  {
    if !CheckMceVersion(v, requiredMajor) then
      ProbeOutcome(-ENODEV, false)
    else
      var ret := DebugfsInit(dirCreated);
      if ret != 0 then ProbeOutcome(ret, true) else ProbeOutcome(0, true)
  }

  /** The minor version never affects the probe. */
  lemma ProbeIgnoresMinor(v: MceVersions, minor: u32, requiredMajor: u32, dirCreated: bool)
    ensures ProbeDriver(v, requiredMajor, dirCreated) == ProbeDriver(v.(minor := minor), requiredMajor, dirCreated)
  {
  }

  /** The driver binds (probe returns 0) exactly when the firmware is recent
      enough and the directory exists; otherwise it returns one of the two errors. */
  lemma ProbeBindsOnlyWhenUsable(v: MceVersions, requiredMajor: u32, dirCreated: bool)
    ensures ProbeDriver(v, requiredMajor, dirCreated).ret in {0, -ENODEV, -ENOMEM}
    ensures ProbeDriver(v, requiredMajor, dirCreated).ret == 0 <==>
      CheckMceVersion(v, requiredMajor) && DebugfsInit(dirCreated) == 0
  {
  }
}
