/** Loads and stores of arm_load_store.c as functions on states (ARM DDI 0100, sections A5.2 and A5.3). */
module LoadStoreSpec {
  import opened Words
  import opened Machine
  import opened Decode
  import opened ShifterSpec

  /** The value the address calculator returns, as -1, for encodings it does not handle. */
  const NO_ADDRESS: word := 0xFFFF_FFFF

  function SignExtend8(v: byte): word { OrW(if v / 0x80 % 2 == 1 then 0xFFFF_FF00 else 0, v) }

  function SignExtend16(v: half): word { OrW(if v / 0x8000 % 2 == 1 then 0xFFFF_0000 else 0, v) }

  /** An address, with the state after base writeback. */
  datatype Located = Located(state: State, address: word)

  function Offset(base: word, up: bool, index: word): word
  {
    if up then Plus(base, index) else Minus(base, index)
  }

  /** Pre-indexed with or without writeback (P = 1), or post-indexed (P = 0 and W = 0). */
  function Indexed(s: State, ins: word, index: word): Located
    requires BitP(ins) || !BitW(ins)
  {
    var base := ReadReg(s, Rn(ins));
    var moved := Offset(base, BitU(ins), index);
    if BitP(ins) then Located(if BitW(ins) then WriteReg(s, Rn(ins), moved) else s, moved)
    else Located(WriteReg(s, Rn(ins), moved), base)
  }

  predicate PlainRegisterOffset(ins: word) { ins / 0x10 % 0x100 == 0 }   // bits 11..4

  function Index2(s: State, ins: word): word
  {
    if !BitI(ins) then Offset12(ins)
    else if PlainRegisterOffset(ins) then ReadReg(s, ins % 32)           // bits 4..0
    else LoadStoreIndex(ReadReg(s, Rm(ins)), ShiftImm(ins), ShiftType(ins), FlagC(s))
  }

  /** calculate_address */
  function CalculateAddress(s: State, ins: word): Located
  {
    if BitP(ins) || !BitW(ins) then Indexed(s, ins, Index2(s, ins)) else Located(s, NO_ADDRESS)
  }

  function Offset8(ins: word): byte { Rs(ins) * 16 + Rm(ins) }

  function Index3(s: State, ins: word): word
  {
    if BitB(ins) then Offset8(ins) else ReadReg(s, Rm(ins))
  }

  /** calculate_address_mode3; with P = 0 and W = 1 its result is a variable it never assigns. */
  function CalculateAddressMode3(s: State, ins: word, unassigned: word): Located
  {
    if BitP(ins) || !BitW(ins) then Indexed(s, ins, Index3(s, ins)) else Located(s, unassigned)
  }

  /** LDR, STR, LDRB and STRB at an address. */
  function WordOrByte(s: State, ins: word, address: word, u: Uninit): State
  {
    if BitL(ins) then
      WriteReg(s, Rd(ins), if BitB(ins) then LoadByte(s, address, u) else LoadWord(s, address, u))
    else if BitB(ins) then StoreByte(s, address, ReadReg(s, Rd(ins)) % 0x100)
    else StoreWord(s, address, ReadReg(s, Rd(ins)))
  }

  /** STRH, LDRH, LDRSB and LDRSH at an address. */
  function HalfOrSigned(s: State, ins: word, address: word, u: Uninit): Outcome
  {
    var kind := ins / 0x10 % 16;                                         // bits 7..4
    if Rd(ins) == 15 then Outcome(s, UNDEFINED_INSTRUCTION)
    else if !BitL(ins) then Outcome(StoreHalf(s, address, ReadReg(s, Rd(ins)) % 0x1_0000), 0)
    else if kind == 0xB then Outcome(WriteReg(s, Rd(ins), LoadHalf(s, address, u)), 0)
    else if kind == 0xD then Outcome(WriteReg(s, Rd(ins), SignExtend8(LoadByte(s, address, u))), 0)
    else if kind == 0xF then Outcome(WriteReg(s, Rd(ins), SignExtend16(LoadHalf(s, address, u))), 0)
    else Outcome(s, UNDEFINED_INSTRUCTION)
  }

  /** arm_load_store. Mode 3 accesses have already gone through the mode 2 calculator. */
  function LoadStore(s: State, ins: word, u: Uninit): Outcome
  {
    var first := CalculateAddress(s, ins);
    if first.address == NO_ADDRESS then Outcome(first.state, UNDEFINED_INSTRUCTION)
    else if Bit26(ins) then Outcome(WordOrByte(first.state, ins, first.address, u), 0)
    else
      var second := CalculateAddressMode3(first.state, ins, u.value);
      HalfOrSigned(second.state, ins, second.address, u)
  }
}
