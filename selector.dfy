/** Decoding and validation of the `forced_idle_state` selector, the 64-bit
    value a user writes to debugfs before triggering a forced idle period. */
module Selector {
  import opened Linux

  /** Idle-state kinds carried in the low four bits of the selector. */
  const T23X_CPUIDLE_C7_STATE: bv32 := 7
  const T23X_OIST_STATE: bv32 := 8

  /** PSCI power-state parameter that selects C7. */
  const C7_PSCI_PARAM: bv32 := 0x4000_0007

  /** Extended power-state type bit (bit 30) that an OIST parameter must carry. */
  const POWER_STATE_TYPE_MASK: bv32 := 1 << 30

  /** A validated request: the idle-state index handed to the CPU PM hook
      and the PSCI parameter handed to the firmware. */
  datatype Request = Request(idleState: bv32, psciState: bv32)

  /* Reference readings of the selector, stated with arithmetic rather than masks. */

  /** The idle-state kind: the selector modulo 16. */
  function Kind(sel: bv64): bv64 { sel % 16 }

  /** The selector's low 32-bit word. */
  function LowWord(sel: bv64): bv64 { sel % 0x1_0000_0000 }

  /** Whether bit 30 of the selector is one. */
  predicate TypeBitSet(sel: bv64) { (sel / 0x4000_0000) % 2 == 1 }

  /** The checks at the head of `forced_idle_write`: accept C7 with the fixed
      parameter, accept OIST with the selector's low word as parameter when it
      carries the extended type bit, refuse everything else with -EINVAL. */
  function Decode(sel: bv64): (r: Result<Request, int>)
    ensures r.Ok? <==> Kind(sel) == 7 || (Kind(sel) == 8 && TypeBitSet(sel))
    ensures r.Ok? ==> r.value.idleState as bv64 == Kind(sel)
    ensures r.Ok? && Kind(sel) == 7 ==> r.value.psciState == 0x4000_0007
    ensures r.Ok? && Kind(sel) == 8 ==> r.value.psciState as bv64 == LowWord(sel)
    ensures r.Err? ==> r.error == -EINVAL
  {
    MasksAreReadings(sel);
    var idleState := (sel & 0xF) as bv32;
    if idleState == T23X_CPUIDLE_C7_STATE then
      Ok(Request(idleState, C7_PSCI_PARAM))
    else if idleState == T23X_OIST_STATE then
      var psciState := (sel & 0xFFFF_FFFF) as bv32;
      if psciState & POWER_STATE_TYPE_MASK == 0 then Err(-EINVAL)
      else Ok(Request(idleState, psciState))
    else
      Err(-EINVAL)
  }

  /** The masks `forced_idle_write` applies agree with the arithmetic readings. */
  lemma MasksAreReadings(sel: bv64)
    ensures ((sel & 0xF) as bv32) as bv64 == Kind(sel)
    ensures ((sel & 0xFFFF_FFFF) as bv32) as bv64 == LowWord(sel)
    ensures (((sel & 0xFFFF_FFFF) as bv32) & POWER_STATE_TYPE_MASK != 0) == TypeBitSet(sel)
  {
  }

  /** C7 ignores every selector bit above the kind. */
  lemma C7ParamIsFixed(sel: bv64, other: bv64)
    requires Kind(sel) == 7 && Kind(other) == 7
    ensures Decode(sel) == Decode(other) == Ok(Request(7, C7_PSCI_PARAM))
  {
  }

  /** OIST hands the firmware the selector's low word exactly, and only when
      bit 30 is set; without it the request is refused. */
  lemma OistParamIsLowWord(sel: bv64)
    requires Kind(sel) == 8
    ensures TypeBitSet(sel) ==> Decode(sel) == Ok(Request(8, (sel & 0xFFFF_FFFF) as bv32))
    ensures !TypeBitSet(sel) ==> Decode(sel) == Err(-EINVAL)
  {
  }

  /** Only the low 32 bits of the selector matter. */
  lemma DecodeIgnoresHighWord(sel: bv64)
    ensures Decode(sel) == Decode(LowWord(sel))
  {
    assert LowWord(sel) & 0xF == sel & 0xF;
    assert LowWord(sel) & 0xFFFF_FFFF == sel & 0xFFFF_FFFF;
  }

  /** Every accepted request names C7 or OIST, and an OIST parameter carries the type bit. */
  lemma AcceptedRequestsAreWellFormed(sel: bv64)
    requires Decode(sel).Ok?
    ensures Decode(sel).value.idleState in {T23X_CPUIDLE_C7_STATE, T23X_OIST_STATE}
    ensures Decode(sel).value.psciState & POWER_STATE_TYPE_MASK != 0
  {
  }

  /** Three concrete selectors: plain C7, OIST with bit 30, OIST without it. */
  lemma SelectorScenarios()
    ensures Decode(7) == Ok(Request(7, 0x4000_0007))
    ensures Decode(0x4000_0008) == Ok(Request(8, 0x4000_0008))
    ensures Decode(8) == Err(-EINVAL)
  {
  }
}
