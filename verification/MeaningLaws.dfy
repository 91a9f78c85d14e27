/** The interpreter does to every instruction word what its form means. */
module MeaningLaws {
  import opened Words
  import opened Machine
  import opened Decode
  import opened ShifterSpec
  import opened ShifterLaws
  import opened DataProcessingSpec
  import opened AluLaws
  import opened LoadStoreSpec
  import opened LoadStoreLaws
  import opened BranchSpec
  import opened InstructionSpec
  import opened DispatchLaws
  import opened Assembly
  import opened AssemblyLaws
  import opened Meaning
  import M = MemorySpec

  // ----- the shifters -----

  function AsShifted(op: Operand): Shifted { Shifted(op.value, op.carry) }

  predicate OneBit(op: Operand) { op.carry == 0 || op.carry == 1 }

  lemma LeftShift(rm: word, n: nat)
    requires n > 0
    ensures OneBit(ShiftedLeft(rm, n))
    ensures n <= 32 ==> ShiftedLeft(rm, n) == Operand(Lsl(rm, n), GetBit(rm, 32 - n))
    ensures n > 32 ==> ShiftedLeft(rm, n) == Operand(0, 0)
  {
    hide Pow2;
    if n <= 32 {
      ShiftLeftSplits(rm, n);
      var q, r := rm / Pow2(32 - n), rm % Pow2(32 - n) * Pow2(n);
      DivModUnique(rm * Pow2(n), 0x1_0000_0000, q, r);
    } else {
      LslTooFar(rm, n);
      NoLowBits(rm * Pow2(n));
    }
  }

  lemma NoLowBits(x: int)
    requires x % 0x2_0000_0000 == 0
    ensures Wrap(x) == 0 && x / 0x1_0000_0000 % 2 == 0
  {
    var k := x / 0x2_0000_0000;
    DivModUnique(x, 0x1_0000_0000, 2 * k, 0);
  }

  lemma RightShift(rm: word, n: nat)
    requires n > 0
    ensures OneBit(ShiftedRight(rm, n))
    ensures ShiftedRight(rm, n) == Operand(Lsr(rm, n), GetBit(rm, n - 1))
    ensures n >= 32 ==> Lsr(rm, n) == 0
    ensures n > 32 ==> GetBit(rm, n - 1) == 0
  {
    if n >= 32 {
      WordBelowPow2(rm, n);
    }
    if n > 32 {
      WordBelowPow2(rm, n - 1);
    }
  }

  lemma TopBitOf(x: word)
    ensures x / 0x8000_0000 == if x < 0x8000_0000 then 0 else 1
  {
  }

  lemma ConstantShifts(rm: word, shift: field2, amount: field5, c: nat)
    requires c < 2
    ensures ShiftByImmediate(rm, shift, amount, c) == AsShifted(ShiftedByConstant(rm, shift, amount, c))
    ensures OneBit(ShiftedByConstant(rm, shift, amount, c))
  {
    hide Lsl, Lsr, GetBit, OrW, RotateRight, Ror, ShiftedLeft, ShiftedRight;
    Bit31(rm);
    TopBitOf(rm);
    if amount > 0 {
      LeftShift(rm, amount);
      RightShift(rm, amount);
      AllRotationsAgree(rm, amount, 1, 1, 0, c);
      TopBitOf(Ror(rm, amount));
    } else {
      RightShift(rm, 32);
      ExtendValue(rm, c);
      BitZero(rm);
    }
  }

  lemma RegisterShifts(rm: word, shift: field2, amount: byte, c: nat)
    requires c < 2
    ensures ShiftByRegister(rm, shift, amount, c) == AsShifted(ShiftedByRegister(rm, shift, amount, c))
    ensures OneBit(ShiftedByRegister(rm, shift, amount, c))
  {
    hide Lsl, Lsr, GetBit, OrW, RotateRight, Ror, ShiftedLeft, ShiftedRight;
    Bit31(rm);
    TopBitOf(rm);
    BitZero(rm);
    if amount > 0 {
      LeftShift(rm, amount);
      RightShift(rm, amount);
      AllRotationsAgree(rm, 1, amount, 1, 0, c);
      TopBitOf(Ror(rm, amount));
    }
  }

  lemma ConstantRotations(rotate: nibble, immed: byte, c: nat)
    requires c < 2
    ensures RotatedImmediate(rotate, immed, c) == AsShifted(RotatedConstant(rotate, immed, c))
    ensures OneBit(RotatedConstant(rotate, immed, c))
  {
    hide GetBit, RotateRight, Ror;
    if rotate > 0 {
      AllRotationsAgree(0, 1, 1, rotate, immed, c);
      TopBitOf(Ror(immed, 2 * rotate));
    }
  }

  lemma ScaledIndexes(rm: word, shift: field2, amount: field5, c: nat)
    requires c < 2
    ensures LoadStoreIndex(rm, amount, shift, c) == Index(rm, shift, amount)
  {
    hide Pow2, GetBit, OrW, RotateRight, ArithmeticShift, Ror;
    AddressShifter(rm, amount, shift, 0);
    ExtendValue(rm, c);
    ExtendValue(rm, 0);
    Bit31(rm);
  }

  // ----- results and flags -----

  lemma {:induction false} LogicalSum(opcode: nibble, a: word, b: word, c: nat, n: nat)
    requires n <= 32 && c < 2 && !IsArithmetic(opcode)
    ensures LogicalValue(opcode, a, b, n) == DataProcessingSpec.Result(opcode, a, b, c) % Pow2(n)
  {
    hide Result, LogicalBit, GetBit;
    if n > 0 {
      LogicalSum(opcode, a, b, c, n - 1);
      LogicalBits(opcode, a, b, c, n - 1);
      BitBelow(Result(opcode, a, b, c), n);
      BitBelow(a, n);
      BitBelow(b, n);
    }
  }

  lemma BitBelow(x: nat, n: nat)
    requires n > 0
    ensures x % Pow2(n) == x % Pow2(n - 1) + (if GetBit(x, n - 1) == 1 then Pow2(n - 1) else 0)
    ensures GetBit(x, n - 1) == x / Pow2(n - 1) % 2
  {
    DivDiv(x, Pow2(n - 1), 2);
  }

  lemma Values(opcode: nibble, a: word, b: word, c: nat)
    requires c < 2
    ensures Value(opcode, a, b, c) == Result(opcode, a, b, c)
  {
    hide AndW, OrW, XorW, NotW, LogicalValue;
    if !IsArithmetic(opcode) {
      LogicalSum(opcode, a, b, c, 32);
      Pow2Of32();
    }
  }

  lemma FlagConditions(opcode: nibble, a: word, op: Operand, c: nat, seen: word)
    requires c < 2 && OneBit(op)
    ensures CarryOut(opcode, a, op, c) == CarryFlag(opcode, a, op.value, op.carry != 0, c)
    ensures IsArithmetic(opcode) ==>
      Overflow(opcode, a, op.value, c, seen) == OverflowFlag(opcode, seen, a, op.value, c)
    ensures IsLogical(opcode) == !IsArithmetic(opcode)
  {
    hide OverflowFrom;
    OverflowMeaning(seen, a, op.value);
    OverflowMeaning(seen, op.value, a);
    OverflowMeaning(seen, a, WithComplement(op.value, c));
    OverflowMeaning(seen, op.value, WithComplement(a, c));
    Complements(op.value, c);
    Complements(a, c);
  }

  lemma Complements(x: word, c: nat)
    requires c < 2
    ensures WithComplement(x, c) == Wrap(x - 1 - c)
  {
  }

  lemma FlagWords(opcode: nibble, cpsr: word, a: word, op: Operand, stale: word)
    requires OneBit(op)
    ensures FlagsSet(opcode, cpsr, a, op, stale) == Flags(opcode, cpsr, stale, a, op.value, op.carry != 0)
  {
    hide GetBit, Value, Result, Flags, CarryOut, CarryFlag, Overflow, OverflowFlag, IsLogical, IsArithmetic;
    FlagDigits(cpsr);
    var c := GetBit(cpsr, 29);
    var y := Flags(opcode, cpsr, stale, a, op.value, op.carry != 0);
    FlagsOf(opcode, cpsr, stale, a, op.value, op.carry != 0);
    Values(opcode, a, op.value, c);
    FlagConditions(opcode, a, op, c, if 8 <= opcode < 12 then stale else Value(opcode, a, op.value, c));
    var value := Value(opcode, a, op.value, c);
    TopBitOf(value);
    var v := if IsArithmetic(opcode) then Overflow(opcode, a, op.value, c, if 8 <= opcode < 12 then stale else value)
             else cpsr / 0x1000_0000 % 2 == 1;
    Reassembled(y, value >= 0x8000_0000, value == 0, CarryOut(opcode, a, op, c), v);
  }

  lemma Reassembled(y: word, n: bool, z: bool, c: bool, v: bool)
    requires GetBit(y, 31) == Digit(n) && GetBit(y, 30) == Digit(z)
    requires GetBit(y, 29) == Digit(c) && GetBit(y, 28) == Digit(v)
    ensures y == WithFlags(n, z, c, v, y % 0x1000_0000)
  {
    hide GetBit, Digit;
    FlagDigits(y);
  }

  lemma Operations(s: State, ins: word, op: Operand)
    requires OneBit(op)
    ensures Operate(s, ins, AsShifted(op)) == Operation(s, Opcode(ins), BitL(ins), Rn(ins), Rd(ins), op)
  {
    hide GetBit, Value, Result, Flags, FlagsSet, ReadReg, WriteReg, Opcode, BitL, Rn, Rd, SpsrOf;
    FlagDigits(CpsrOf(s));
    FlagWords(Opcode(ins), CpsrOf(s), ReadReg(s, Rn(ins)), op, ReadReg(s, Rd(ins)));
    Values(Opcode(ins), ReadReg(s, Rn(ins)), op.value, FlagC(s));
    var v := Result(Opcode(ins), ReadReg(s, Rn(ins)), op.value, FlagC(s));
    SameSpsr(s, WriteReg(s, Rd(ins), v));
  }

  // ----- single transfers -----

  lemma Transfers(s: State, ins: word, index: word, u: Uninit)
    requires Bit26(ins) && index == Index2(s, ins)
    ensures LoadStore(s, ins, u) ==
      Transferred(s, BitP(ins), BitU(ins), BitB(ins), BitW(ins), BitL(ins), Rn(ins), Rd(ins), index, u)
  {
    hide ReadReg, WriteReg, Index2, LoadByte, LoadWord, M.WriteByte, M.WriteWord, Bit26, BitP, BitU, BitB, BitW, BitL;
    hide Rn, Rd, HalfOrSigned, Wrap;
    SameLoads(s, Rn(ins), Offset(ReadReg(s, Rn(ins)), BitU(ins), index), u);
  }

  /** Loads do not look at registers. */
  lemma SameLoads(s: State, r: nat, v: word, u: Uninit)
    requires r < 16
    ensures forall a: word :: LoadByte(WriteReg(s, r, v), a, u) == LoadByte(s, a, u)
    ensures forall a: word :: LoadHalf(WriteReg(s, r, v), a, u) == LoadHalf(s, a, u)
    ensures forall a: word :: LoadWord(WriteReg(s, r, v), a, u) == LoadWord(s, a, u)
  {
  }

  lemma ScaledIndexOf(s: State, ins: word)
    requires BitI(ins)
    ensures Index2(s, ins) == Index(ReadReg(s, Rm(ins)), ShiftType(ins), ShiftImm(ins))
  {
    hide ReadReg, BitI, Index, LoadStoreIndex;
    ScaledIndexes(ReadReg(s, Rm(ins)), ShiftType(ins), ShiftImm(ins), FlagC(s));
    if PlainRegisterOffset(ins) {
      PlainOffsetRegister(ins);
      NoShiftFields(ins);
      ScaledIndexes(ReadReg(s, Rm(ins)), 0, 0, FlagC(s));
      IdentityShifts(ReadReg(s, Rm(ins)), 0, 0, FlagC(s));
    }
  }

  lemma NoShiftFields(ins: word)
    requires PlainRegisterOffset(ins)
    ensures ShiftType(ins) == 0 && ShiftImm(ins) == 0
  {
    var x := ins / 0x10;
    DivDiv(ins, 0x10, 2);
    DivDiv(ins, 0x10, 8);
    var k := x / 0x100;
    Digits(x, k * 0x80, 0, 2);
    Digits(x, k * 0x20, 0, 8);
    Digits(k * 0x80, k * 0x20, 0, 4);
    Digits(k * 0x20, k, 0, 0x20);
  }

  // ----- the extra transfers -----

  lemma ExtensionWords(b: byte, h: half)
    ensures SignExtend8(b) == if b < 0x80 then b else 0xFFFF_FF00 + b
    ensures SignExtend16(h) == if h < 0x8000 then h else 0xFFFF_0000 + h
  {
    hide SignExtend8, SignExtend16;
    SignExtensions(b, h);
  }

  lemma ExtraAccesses(s: State, ins: word, kind: field2, a: word, u: Uninit)
    requires ins / 0x10 % 16 == 9 + 2 * kind
    ensures HalfOrSigned(s, ins, a, u) == ExtraAccess(s, BitL(ins), Rd(ins), kind, a, u)
  {
    hide ReadReg, WriteReg, BitL, Rd, LoadByte, LoadHalf, SignExtend8, SignExtend16, M.WriteHalf;
    ExtensionWords(LoadByte(s, a, u), LoadHalf(s, a, u));
  }

  lemma Extras(s: State, ins: word, f: Form, u: Uninit)
    requires f.Extra? && Mode3(ins)
    requires BitP(ins) == f.p && BitU(ins) == f.u && BitB(ins) == f.b && BitW(ins) == f.w && BitL(ins) == f.l
    requires Rn(ins) == f.rn && Rd(ins) == f.rd && Rs(ins) == f.high && Rm(ins) == f.low4
    requires Offset12(ins) == f.high * 0x100 + 0x90 + f.kind * 0x20 + f.low4 && ins / 0x10 % 16 == 9 + 2 * f.kind
    ensures LoadStore(s, ins, u) == ExtraTransferred(s, f, u)
  {
    hide ReadReg, WriteReg, BitP, BitU, BitB, BitW, BitL, Rn, Rd, Rs, Rm, Offset12, BitI, Bit26, InsType, Bit7, Bit4;
    hide HalfOrSigned, ExtraAccess, Wrap, WordOrByte, LoadStoreIndex, GetBit;
    Mode3Fields(ins);
    ImmediateIndex(s, ins);
    var first := CalculateAddress(s, ins);
    var second := CalculateAddressMode3(first.state, ins, u.value);
    ExtraAccesses(second.state, ins, f.kind, second.address, u);
  }

  // ----- branches -----

  lemma HalfField(field: field24)
    ensures field / 0x80_0000 == 1 && field / 0x40_0000 % 2 == 0 <==> 0x80_0000 <= field < 0xC0_0000
    ensures Distance(field) == 4 * Signed24(field) + if 0x80_0000 <= field < 0xC0_0000 then 0x100_0000 else 0
  {
  }

  lemma AheadAgain(x: word, next: word)
    requires Minus(x, 4) == next
    ensures x == Plus(next, 4)
  {
  }

  lemma Jumps(s: State, ins: word)
    ensures Branch(s, ins) == Jumped(s, BitP(ins), ins % 0x100_0000)
  {
    hide ReadReg, WriteReg, SignExtend30, Lsl, BitP, Wrap, Distance, Signed24;
    var pc, next, field := ReadReg(s, 15), Shown(s.regs[15]), ins % 0x100_0000;
    BranchTarget(s, ins);
    PcAhead(s);
    AheadAgain(pc, next);
    HalfField(field);
    WrapSum(next + 4, 4 * Signed24(field));
    WrapSum(next + 4 + 4 * Signed24(field), 0x100_0000);
    var target := Plus(pc, Lsl(SignExtend30(field), 2));
    WritePc(s, target);
    WritePc(WriteReg(s, 14, next), target);
  }

  lemma Statuses(s: State, ins: word)
    requires InsType(ins) == 0 && ToMiscellaneous(ins)
    ensures Miscellaneous(s, ins) == StatusRead(s, BitB(ins), BitW(ins), Rd(ins))
  {
    hide WriteReg, SpsrOf, InsType, BitP, BitU, BitL, BitB, BitW, Rd;
    MrsField(ins);
  }

  lemma Interrupts(s: State)
    ensures Swi(s) == Outcome(WriteReg(s, 14, Shown(s.regs[15])), SOFTWARE_INTERRUPT)
  {
    hide ReadReg, WriteReg;
    PcAhead(s);
  }

  // ----- every instruction -----

  /** Whatever the condition field, every instruction word but a block transfer does what its form means. By
      `EveryWord` no word is left out. */
  lemma EveryInstruction(s: State, cond: nibble, f: Form, u: Uninit)
    requires WellFormed(f) && !f.Block?
    ensures Dispatch(s, Encode(cond, f), u) == Effect(s, f, u)
  {
    hide ReadReg, WriteReg, Operation, ShiftByImmediate, ShiftByRegister, ShiftedByConstant, ShiftedByRegister;
    hide RotatedImmediate, RotatedConstant, Encode, LoadStore, Transferred, ExtraTransferred, Index, Jumped, Branch;
    hide StatusRead, Miscellaneous, Shown, Swi, Operate, InsType, Bit7, Bit4, ToMiscellaneous, Index2, Rn, Rd, Rm;
    hide GetBit, Opcode, ShiftImm, ShiftType, Rs, BitL, BitP, BitU, BitB, BitW, BitI, Bit26, Offset12, RotateImm;
    hide Immed8, Cond;
    var ins := Encode(cond, f);
    var c := FlagC(s);
    FlagDigits(CpsrOf(s));
    match f {
      case ByImmediate(_, _, _, _, amount, shift, rm) =>
        FieldsByImmediate(cond, f, ins);
        ConstantShifts(ReadReg(s, rm), shift, amount, c);
        Operations(s, ins, ShiftedByConstant(ReadReg(s, rm), shift, amount, c));
      case ByRegister(_, _, _, _, rs, shift, rm) =>
        FieldsByRegister(cond, f, ins);
        var amount: byte := ReadReg(s, rs) % 0x100;
        RegisterShifts(ReadReg(s, rm), shift, amount, c);
        Operations(s, ins, ShiftedByRegister(ReadReg(s, rm), shift, amount, c));
      case Immediate(_, _, _, _, rotate, immed) =>
        FieldsImmediate(cond, f, ins);
        ConstantRotations(rotate, immed, c);
        Operations(s, ins, RotatedConstant(rotate, immed, c));
      case Status(_, _, _, _, _) =>
        FieldsStatus(cond, f, ins);
        Statuses(s, ins);
      case Extra(_, _, _, _, _, _, _, _, _, _) =>
        FieldsExtra(cond, f, ins);
        Extras(s, ins, f, u);
      case Transfer(_, _, _, _, _, _, _, offset) =>
        FieldsTransfer(cond, f, ins);
        ImmediateIndex(s, ins);
        Transfers(s, ins, offset, u);
      case Scaled(_, _, _, _, _, _, _, amount, shift, _, rm) =>
        FieldsScaled(cond, f, ins);
        ScaledIndexOf(s, ins);
        Transfers(s, ins, Index(ReadReg(s, rm), shift, amount), u);
      case Jump(_, _) =>
        FieldsNumber(cond, f, ins);
        Jumps(s, ins);
      case Coprocessor(_, _) => FieldsNumber(cond, f, ins);
      case Interrupt(_, _) =>
        FieldsNumber(cond, f, ins);
        Interrupts(s);
    }
  }

  lemma ImmediateIndex(s: State, ins: word)
    ensures !BitI(ins) ==> Index2(s, ins) == Offset12(ins)
  {
    hide ReadReg, LoadStoreIndex, BitI;
  }
}
