/** The shifter operand of data-processing instructions (arm_data_processing.c, ARM DDI 0100 section A5.1). */
module ShifterSpec {
  import opened Words
  import opened RegistersSpec
  import opened Machine
  import opened Decode

  /** shifter_operand and shifter_carry_out. */
  datatype Shifted = Shifted(operand: word, carry: int)

  const LSL := 0
  const LSR := 1
  const ASR := 2
  const ROR := 3

  /** The rotation expression (x >> s) | (x << (32 - s)). */
  function RotateRight(x: word, s: nat): word
    requires 0 < s < 32
  {
    OrW(Lsr(x, s), Lsl(x, 32 - s))
  }

  function ShiftByImmediate(rm: word, shift: nat, imm: nat, c: nat): Shifted
    requires shift < 4 && imm < 32 && c < 2
  {
    if shift == LSL then
      if imm == 0 then Shifted(rm, c) else Shifted(Lsl(rm, imm), GetBit(rm, 32 - imm))
    else if shift == LSR then
      if imm == 0 then Shifted(0, GetBit(rm, 31)) else Shifted(Lsr(rm, imm), GetBit(rm, imm - 1))
    else if shift == ASR then
      if imm == 0 then Shifted(if GetBit(rm, 31) == 0 then 0 else 0xFF, GetBit(rm, 31))
      else Shifted(Lsr(rm, imm), GetBit(rm, imm - 1))
    else
      if imm == 0 then Shifted(OrW(Lsl(c, 31), Lsr(rm, 1)), GetBit(rm, 0))
      else Shifted(RotateRight(rm, imm), GetBit(rm, imm - 1))
  }

  function ShiftByRegister(rm: word, shift: nat, amount: byte, c: nat): Shifted
    requires shift < 4 && c < 2
  {
    if amount == 0 then Shifted(rm, c)
    else if shift == LSL then
      if amount < 32 then Shifted(Lsl(rm, amount), GetBit(rm, 32 - amount))
      else if amount == 32 then Shifted(rm, GetBit(rm, 0))
      else Shifted(0, 0)
    else if shift == LSR then
      if amount < 32 then Shifted(Lsr(rm, amount), GetBit(rm, amount - 1))
      else if amount == 32 then Shifted(0, GetBit(rm, 31))
      else Shifted(0, 0)
    else if shift == ASR then
      if amount < 32 then Shifted(Lsr(rm, amount), GetBit(rm, amount - 1))
      else Shifted(if GetBit(rm, 31) == 0 then 0 else 0xFFFF_FFFF, GetBit(rm, 31))
    else
      if amount % 32 == 0 then Shifted(rm, GetBit(rm, 31))
      else Shifted(RotateRight(rm, amount % 32), GetBit(rm, amount % 32 - 1))
  }

  /** The rotated 8-bit immediate. With no rotation C shifts by 32, which is undefined; the value
      taken is the one section A5.1.3 asks for. */
  function RotatedImmediate(rotate: nat, immed: byte, c: nat): Shifted
    requires rotate < 16 && c < 2
  {
    if rotate == 0 then Shifted(immed, c)
    else
      var operand := RotateRight(immed, 2 * rotate);
      Shifted(operand, GetBit(operand, 31))
  }

  function FlagC(s: State): (c: nat)
    ensures c < 2
  {
    GetBit(CpsrOf(s), 29)
  }

  /** The operand of a register-form instruction; None is the NULL of the unhandled encodings. */
  function ShifterValues(s: State, ins: word, c: nat): Option<Shifted>
    requires c < 2
  {
    var rm := ReadReg(s, Rm(ins));
    if !Bit4(ins) then Some(ShiftByImmediate(rm, ShiftType(ins), ShiftImm(ins), c))
    else if !Bit7(ins) then Some(ShiftByRegister(rm, ShiftType(ins), ReadReg(s, Rs(ins)) % 0x100, c))
    else None
  }

  /** shift_index_calculator of arm_load_store.c (section A5.2.4). */
  function LoadStoreIndex(rm: word, imm: nat, shift: nat, c: nat): word
    requires imm < 32 && shift < 4 && c < 2
  {
    if shift == LSL then Lsl(rm, imm)
    else if shift == LSR then if imm == 0 then 0 else Lsr(rm, imm)
    else if shift == ASR then
      if imm == 0 then (if GetBit(rm, 31) == 1 then 0xFFFF_FFFF else 0) else Lsr(rm, imm)
    else if imm == 0 then OrW(Lsr(c, 31), Lsr(rm, 1)) else RotateRight(rm, imm)
  }
}
