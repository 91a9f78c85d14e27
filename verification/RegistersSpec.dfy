/** What registers.c computes: which of the 37 physical slots stands for which register. */
module RegistersSpec {
  import opened Words

  const SLOTS: nat := 37
  const CPSR: nat := 31

  // Processor modes, as the low five bits of the CPSR.
  const USR := 0x10
  const FIQ := 0x11
  const IRQ := 0x12
  const SVC := 0x13
  const ABT := 0x17
  const UND := 0x1b
  const SYS := 0x1f

  type file = regs: seq<word> | |regs| == SLOTS witness seq(SLOTS, _ => 0)

  function Mode(regs: file): (m: byte)
    ensures m < 32
  {
    regs[CPSR] % 32
  }

  predicate ModeHasSpsr(mode: byte) { mode != USR && mode != SYS }

  function Slot(reg: nat, mode: byte): (slot: nat)
    requires reg < 16
    ensures slot <= 30
  {
    if reg < 8 then reg
    else if reg < 13 then (if mode == FIQ then reg + 16 else reg)
    else if reg < 15 then
      if mode == FIQ then reg + 16
      else if mode == IRQ then reg + 9
      else if mode == SVC then reg + 3
      else if mode == ABT then reg + 5
      else if mode == UND then reg + 7
      else reg
    else reg
  }

  datatype Option<T> = None | Some(value: T)

  /** A mode without an SPSR slot reads zero and drops writes. */
  function SpsrSlot(mode: byte): (slot: Option<nat>)
    ensures slot.Some? ==> 32 <= slot.value <= 36
  {
    if mode == FIQ then Some(36)
    else if mode == IRQ then Some(35)
    else if mode == SVC then Some(32)
    else if mode == ABT then Some(33)
    else if mode == UND then Some(34)
    else None
  }

  function ReadSpsr(regs: file, mode: byte): word
  {
    match SpsrSlot(mode)
    case Some(k) => regs[k]
    case None => 0
  }

  function WriteSpsr(regs: file, mode: byte, value: word): file
  {
    match SpsrSlot(mode)
    case Some(k) => regs[k := value]
    case None => regs
  }
}
