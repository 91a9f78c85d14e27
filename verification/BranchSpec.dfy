/** arm_branch_other.c as functions on states. */
module BranchSpec {
  import opened Words
  import opened Machine
  import opened Decode

  /** sign_extend_30 of the 24-bit field, as the word the cast to uint32_t gives. */
  function SignExtend30(value: word): word
  {
    if value / 0x80_0000 % 2 == 1 then OrW(value, 0xFFC0_0000) else value
  }

  /** arm_branch: B, and BL when bit 24 is set. */
  function Branch(s: State, ins: word): State
  {
    var pc := ReadReg(s, 15);
    var target := Plus(pc, Lsl(SignExtend30(ins % 0x100_0000), 2));
    WriteReg(if BitP(ins) then WriteReg(s, 14, Minus(pc, 4)) else s, 15, target)
  }

  /** arm_coprocessor_others_swi */
  function Swi(s: State): Outcome
  {
    Outcome(WriteReg(s, 14, Minus(ReadReg(s, 15), 4)), SOFTWARE_INTERRUPT)
  }

  /** arm_miscellaneous: only MRS is executed. */
  function Miscellaneous(s: State, ins: word): Outcome
  {
    if ins / 0x80_0000 % 32 != 2 || ins / 0x10_0000 % 4 != 0 then Outcome(s, UNDEFINED_INSTRUCTION)
    else if Rd(ins) == 15 then Outcome(s, -1)
    else Outcome(WriteReg(s, Rd(ins), if BitB(ins) then SpsrOf(s) else CpsrOf(s)), 0)
  }
}
