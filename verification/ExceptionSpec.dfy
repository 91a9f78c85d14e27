/** arm_exception.c as functions on states. */
module ExceptionSpec {
  import opened Words
  import opened Machine

  const RESET := 1
  const END_SIMULATION := 9

  /** The 24-bit number of a software interrupt, as the handler reads it back from memory. */
  function SwiNumber(s: State, u: Uninit): nat
  {
    LoadWord(s, Minus(ReadReg(s, 15), 8), u) % 0x100_0000
  }

  /** The characters the handler prints: the low byte of R0 on software interrupt 1. */
  function Printed(s: State, exception: byte, u: Uninit): seq<byte>
  {
    if exception == SOFTWARE_INTERRUPT && SwiNumber(s, u) == 1 then [ReadReg(s, 0) % 0x100] else []
  }

  /** arm_exception */
  function Exception(s: State, exception: byte, u: Uninit): Outcome
  {
    var number := SwiNumber(s, u);
    if exception == SOFTWARE_INTERRUPT && number == 0x12_3456 then Outcome(s, END_SIMULATION)
    else if exception == SOFTWARE_INTERRUPT && number == 1 then Outcome(s, 0)
    else Outcome(if exception == RESET then WriteReg(SetCpsr(s, 0x1d3), 15, 0) else s, exception)
  }
}
