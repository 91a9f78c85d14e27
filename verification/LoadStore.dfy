/** The single loads and stores of arm_load_store.c on the processor object. */
module LoadStore {
  import opened Words
  import opened Machine
  import opened Decode
  import opened ShifterSpec
  import opened LoadStoreSpec
  import opened Core

  method ShiftIndexCalculator(rm: word, imm: nat, shift: nat, flagC: nat) returns (index: word)
    requires imm < 32 && shift < 4 && flagC < 2
    ensures index == LoadStoreIndex(rm, imm, shift, flagC)
  {
    hide GetBit, Lsl, Lsr, OrW, RotateRight;
    index := 0;
    match shift
    case 0 => index := Lsl(rm, imm);
    case 1 => if imm == 0 { index := 0; } else { index := Lsr(rm, imm); }
    case 2 =>
      if imm == 0 {
        if GetBit(rm, 31) == 1 { index := 0xFFFF_FFFF; } else { index := 0; }
      } else { index := Lsr(rm, imm); }
    case _ =>
      if imm == 0 { index := OrW(Lsr(flagC, 31), Lsr(rm, 1)); }
      else {
        var turn := imm % 32;
        index := RotateRight(rm, turn);
      }
  }

  /** The indexing statements that the addressing forms of both calculators repeat; `address` keeps its
      value in the form they do not handle. */
  method Index(p: ArmCore, ins: word, rn: word, index: word, before: word) returns (address: word)
    requires p.Valid() && rn == ReadReg(p.St(), Rn(ins))
    modifies p.reg.slots
    ensures Located(p.St(), address) ==
      if BitP(ins) || !BitW(ins) then Indexed(old(p.St()), ins, index) else Located(old(p.St()), before)
  {
    hide ReadReg, WriteReg;
    address := before;
    if BitP(ins) {
      if BitU(ins) { address := Plus(rn, index); } else { address := Minus(rn, index); }
      if BitW(ins) { p.WriteRegister(Rn(ins), address); }
    } else if !BitW(ins) {
      address := rn;
      if BitU(ins) { p.WriteRegister(Rn(ins), Plus(rn, index)); } else { p.WriteRegister(Rn(ins), Minus(rn, index)); }
    }
  }

  /** calculate_address_mode3; `unassigned` is what its local variable held. */
  method ArmCalculateAddressMode3(p: ArmCore, ins: word, unassigned: word) returns (address: word)
    requires p.Valid()
    modifies p.reg.slots
    ensures Located(p.St(), address) == CalculateAddressMode3(old(p.St()), ins, unassigned)
  {
    hide ReadReg, Indexed, BitP, BitW;
    var rn := p.ReadRegister(Rn(ins));
    if BitB(ins) {
      var immedH, immedL := Rs(ins), Rm(ins);
      var offset8: byte := immedH * 16 + immedL;
      address := Index(p, ins, rn, offset8, unassigned);
    } else {
      var rm := p.ReadRegister(Rm(ins));
      address := Index(p, ins, rn, rm, unassigned);
    }
  }

  /** calculate_address */
  method ArmCalculateAddress(p: ArmCore, ins: word) returns (address: word)
    requires p.Valid()
    modifies p.reg.slots
    ensures Located(p.St(), address) == CalculateAddress(old(p.St()), ins)
  {
    hide ReadReg, Indexed, BitP, BitW, GetBit, LoadStoreIndex;
    var rn := p.ReadRegister(Rn(ins));
    if !BitI(ins) {
      address := Index(p, ins, rn, Offset12(ins), NO_ADDRESS);
    } else if PlainRegisterOffset(ins) {
      var rm := p.ReadRegister(ins % 32);
      address := Index(p, ins, rn, rm, NO_ADDRESS);
    } else {
      var rm := p.ReadRegister(Rm(ins));
      var cpsr := p.ReadCpsr();
      var index := ShiftIndexCalculator(rm, ShiftImm(ins), ShiftType(ins), GetBit(cpsr, 29));
      address := Index(p, ins, rn, index, NO_ADDRESS);
    }
  }

  /** arm_load_store */
  method ArmLoadStore(p: ArmCore, ins: word, u: Uninit) returns (code: int)
    requires p.Valid()
    modifies p.reg.slots, p.mem.data
    ensures Outcome(p.St(), code) == LoadStoreSpec.LoadStore(old(p.St()), ins, u)
  {
    hide ReadReg, Indexed, Index2, Index3, SignExtend8, SignExtend16, LoadByte, LoadHalf, LoadWord, StoreByte;
    hide StoreHalf, StoreWord;
    var address := ArmCalculateAddress(p, ins);
    if address == 0xFFFF_FFFF {
      return UNDEFINED_INSTRUCTION;
    }
    var rd := Rd(ins);
    if Bit26(ins) {
      if !BitB(ins) {
        if BitL(ins) {
          var val := p.ReadWord(address, u);
          p.WriteRegister(rd, val);
        } else {
          var val := p.ReadRegister(rd);
          p.WriteWord(address, val);
        }
      } else {
        if BitL(ins) {
          var val := p.ReadByte(address, u);
          p.WriteRegister(rd, val);
        } else {
          var val := p.ReadRegister(rd);
          p.WriteByte(address, val % 0x100);
        }
      }
      return 0;
    }
    address := ArmCalculateAddressMode3(p, ins, u.value);
    if !BitL(ins) {
      if rd == 15 {
        return UNDEFINED_INSTRUCTION;
      }
      var val := p.ReadRegister(rd);
      p.WriteHalf(address, val % 0x1_0000);
      return 0;
    }
    match ins / 0x10 % 16
    case 0xB =>
      if rd == 15 { return UNDEFINED_INSTRUCTION; }
      var val := p.ReadHalf(address, u);
      p.WriteRegister(rd, val);
      return 0;
    case 0xD =>
      if rd == 15 { return UNDEFINED_INSTRUCTION; }
      var val := p.ReadByte(address, u);
      p.WriteRegister(rd, SignExtend8(val));
      return 0;
    case 0xF =>
      if rd == 15 { return UNDEFINED_INSTRUCTION; }
      var val := p.ReadHalf(address, u);
      p.WriteRegister(rd, SignExtend16(val));
      return 0;
    case _ =>
      return UNDEFINED_INSTRUCTION;
  }
}
