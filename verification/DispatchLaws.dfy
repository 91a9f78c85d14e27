/** Branches, conditions, and what the decoder sends where. */
module DispatchLaws {
  import opened Words
  import opened Machine
  import opened Decode
  import opened Conditions
  import opened ShifterSpec
  import opened DataProcessingSpec
  import opened LoadStoreSpec
  import opened BranchSpec
  import opened InstructionSpec

  // ----- conditions -----

  /** Codes 0 to 13 come in pairs that exclude each other and leave nothing out; 14 always passes and
      15 never does. */
  lemma ConditionPairs(cpsr: word, cond: nat)
    requires cond < 16
    ensures cond < 14 && cond % 2 == 0 ==> Passes(cpsr, cond + 1) == !Passes(cpsr, cond)
    ensures cond == AL ==> Passes(cpsr, cond)
    ensures cond == 15 ==> !Passes(cpsr, cond)
  {
    hide GetBit;
  }

  // ----- dispatch -----

  /** Whatever reaches the register-form decoder gets a shifter result, never NULL; and a comparison
      that reaches it has S set. */
  lemma ShifterIsTotal(s: State, ins: word, c: nat)
    requires c < 2 && InsType(ins) == 0 && !ToMiscellaneous(ins) && !(Bit7(ins) && Bit4(ins))
    ensures ShifterValues(s, ins, c).Some?
    ensures IsCompare(Opcode(ins)) ==> BitL(ins)
  {
    hide ReadReg, ShiftByImmediate, ShiftByRegister, Bit7, Bit4;
    OpcodeBits(ins / 0x20_0000, ins);
  }

  /** The comparisons are the opcodes with P = 1 and U = 0. */
  lemma OpcodeBits(x: nat, ins: word)
    requires x == ins / 0x20_0000
    ensures IsCompare(Opcode(ins)) <==> BitP(ins) && !BitU(ins)
  {
    assert ins / 0x80_0000 == x / 4 && ins / 0x100_0000 == x / 8;
    var q, r := x / 16, x % 16;
    DivModUnique(x, 4, 4 * q + r / 4, r % 4);
    DivModUnique(x, 8, 2 * q + r / 8, r % 8);
    assert (4 * q + r / 4) % 2 == r / 4 % 2 && (2 * q + r / 8) % 2 == r / 8;
  }

  /** The register named by bits 4..0 in the unscaled register offset is the one named by bits 3..0:
      bit 4 is clear on that path. */
  lemma PlainOffsetRegister(ins: word)
    requires PlainRegisterOffset(ins)
    ensures ins % 32 == Rm(ins) < 16
  {
  }

  /** A halfword or signed access reaches the load/store code unless it is a store with P = 1 and
      U = 0. Those are executed as MRS: memory keeps its contents, and with W = 0 the register that
      should have been stored is overwritten by the CPSR, or the SPSR when bit 22 is set; or refused, with
      W = 1 as undefined and with the PC as that register with code -1. */
  lemma StoreHalfDownExecutesMrs(s: State, ins: word, u: Uninit)
    requires InsType(ins) == 0 && Bit7(ins) && Bit4(ins)
    ensures !(BitP(ins) && !BitU(ins) && !BitL(ins)) ==> Dispatch(s, ins, u) == LoadStore(s, ins, u)
    ensures BitP(ins) && !BitU(ins) && !BitL(ins) ==>
      var r := Dispatch(s, ins, u);
      && r.state.mem == s.mem
      && (BitW(ins) ==> r == Outcome(s, UNDEFINED_INSTRUCTION))
      && (!BitW(ins) && Rd(ins) == 15 ==> r == Outcome(s, -1))
      && (!BitW(ins) && Rd(ins) != 15 ==>
            r == Outcome(WriteReg(s, Rd(ins), if BitB(ins) then SpsrOf(s) else CpsrOf(s)), 0))
  {
    hide ReadReg, WriteReg, LoadStore, SpsrOf, Bit7, Bit4, Rd;
    MrsField(ins);
  }

  lemma MrsField(ins: word)
    requires InsType(ins) == 0
    ensures ins / 0x80_0000 % 32 == 2 <==> BitP(ins) && !BitU(ins)
    ensures ins / 0x10_0000 % 4 == 0 <==> !BitW(ins) && !BitL(ins)
  {
    var x := ins / 0x80_0000;
    assert ins / 0x100_0000 == x / 2 && ins / 0x200_0000 == x / 4;
    FiveBits(x);
    var y := ins / 0x10_0000;
    assert ins / 0x20_0000 == y / 2;
  }

  lemma FiveBits(x: nat)
    requires x / 4 % 8 == 0
    ensures x % 32 == 2 <==> x / 2 % 2 == 1 && x % 2 == 0
  {
    var q, r := x / 32, x % 32;
    DivModUnique(x, 4, 8 * q + r / 4, r % 4);
    DivModUnique(8 * q + r / 4, 8, q, r / 4);
    DivModUnique(x, 2, 16 * q + r / 2, r % 2);
    DivModUnique(16 * q + r / 2, 2, 8 * q + r / 4, r / 2 % 2);
  }

  // ----- branches -----

  /** A 24-bit field as a signed number. */
  function Signed24(value: nat): int { if value < 0x80_0000 then value else value - 0x100_0000 }

  lemma {:induction false} OrHigh(h: nat, l: nat, g: nat, k: nat)
    requires l < Pow2(k)
    ensures h * Pow2(k) >= 0 && g * Pow2(k) >= 0
    ensures Or(h * Pow2(k) + l, g * Pow2(k)) == Or(h, g) * Pow2(k) + l
  {
    hide Or;
    NonNegative(h, Pow2(k));
    NonNegative(g, Pow2(k));
    if k > 0 {
      var p := Pow2(k - 1);
      assert Pow2(k) == 2 * p && l / 2 < p;
      hide Pow2;
      OrHigh(h, l / 2, g, k - 1);
      OrTwiceHigh(h, l, g, p);
    }
  }

  lemma OrTwiceHigh(h: nat, l: nat, g: nat, p: nat)
    requires h * p >= 0 && g * p >= 0 && Or(h * p + l / 2, g * p) == Or(h, g) * p + l / 2
    ensures h * (2 * p) >= 0 && g * (2 * p) >= 0
    ensures Or(h * (2 * p) + l, g * (2 * p)) == Or(h, g) * (2 * p) + l
  {
    hide Or;
    Doubles(h, p);
    Doubles(g, p);
    Doubles(Or(h, g), p);
    OrTwice(h * p + l / 2, l % 2, g * p);
  }

  lemma OrTwice(x: nat, b: nat, y: nat)
    requires b < 2
    ensures Or(2 * x + b, 2 * y) == 2 * Or(x, y) + b
  {
    var m, n := 2 * x + b, 2 * y;
    assert m / 2 == x && n / 2 == y && m % 2 == b && n % 2 == 0;
  }

  /** sign_extend_30 sets bits 31..22 of a negative field, bit 22 included. */
  lemma ExtendedField(value: nat)
    requires value < 0x100_0000
    ensures SignExtend30(value) ==
      if value < 0x80_0000 then value else 0xFFC0_0000 + value % 0x40_0000
  {
    if value >= 0x80_0000 {
      hide Or, Pow2;
      var h, l := value / 0x40_0000, value % 0x40_0000;
      Pow2Of22();
      OrHigh(h, l, 0x3FF, 22);
      TenBits(h);
    }
  }

  lemma Pow2Of22()
    ensures Pow2(22) == 0x40_0000
  {
    assert Pow2(8) == 0x100;
    Pow2Add(8, 8);
    Pow2Add(16, 6);
  }

  lemma TenBits(h: nat)
    requires h == 2 || h == 3
    ensures Or(h, 0x3FF) == 0x3FF
  {
    assert Or(0, 0xFF) == 0xFF;
    assert Or(1, 0x1FF) == 0x1FF;
  }

  /** A branch goes to the PC plus four times the signed field, except when the field has bit 23 set
      and bit 22 clear: then it goes 2^24 bytes too far. */
  lemma BranchTarget(s: State, ins: word)
    ensures var field := ins % 0x100_0000;
      var wanted := Plus(ReadReg(s, 15), 4 * Signed24(field));
      var target := Plus(ReadReg(s, 15), Lsl(SignExtend30(field), 2));
      && Branch(s, ins).regs[15] == target
      && (target == wanted <==> !(field / 0x80_0000 == 1 && field / 0x40_0000 % 2 == 0))
      && (target != wanted ==> target == Plus(wanted, 0x100_0000))
  {
    hide ReadReg, Pow2, Wrap, SignExtend30;
    var pc, field := ReadReg(s, 15), ins % 0x100_0000;
    ExtendedField(field);
    assert Pow2(2) == 4 by { PowerOfTwo(); }
    var e := SignExtend30(field) as int;
    WrapRight(pc, 4 * e);
    var extra := if field / 0x80_0000 == 1 && field / 0x40_0000 % 2 == 0 then 0x100_0000 else 0;
    FieldDigits(field);
    assert 4 * e == 4 * Signed24(field) + extra + (if field < 0x80_0000 then 0 else 4 * 0x1_0000_0000);
    WrapTurns(pc + 4 * Signed24(field) + extra, if field < 0x80_0000 then 0 else 4);
    WrapSum(pc + 4 * Signed24(field), extra);
    DifferentWraps(pc + 4 * Signed24(field), extra);
  }

  lemma PowerOfTwo()
    ensures Pow2(2) == 4
  {
  }

  lemma FieldDigits(field: nat)
    requires field < 0x100_0000
    ensures field >= 0x80_0000 ==>
      field == 0x80_0000 + field / 0x40_0000 % 2 * 0x40_0000 + field % 0x40_0000 && field / 0x80_0000 == 1
    ensures field < 0x80_0000 ==> field / 0x80_0000 == 0
  {
  }

  lemma WrapRight(x: int, y: int)
    ensures Wrap(x + Wrap(y)) == Wrap(x + y)
  {
  }

  lemma WrapTurns(x: int, k: int)
    ensures Wrap(x + k * 0x1_0000_0000) == Wrap(x)
  {
  }

  lemma DifferentWraps(x: int, d: nat)
    requires d < 0x1_0000_0000
    ensures Wrap(x + d) == Wrap(x) <==> d == 0
  {
  }

  /** MOV PC, LR */
  const MOV_PC_LR: word := 0xE1A0_F00E

  lemma MovFields()
    ensures var i := MOV_PC_LR;
      && InsType(i) == 0 && !ToMiscellaneous(i) && !Bit7(i) && !Bit4(i) && Opcode(i) == MOV && !BitL(i)
      && Rd(i) == 15 && Rm(i) == 14 && ShiftType(i) == LSL && ShiftImm(i) == 0
  {
  }

  /** BL, with the program counter already stepped over it, leaves in LR that program counter with bit 1
      cleared, and MOV PC, LR executed later with that LR, in any state, goes there: to the instruction
      after the BL exactly when bit 1 of its address is clear. */
  lemma CallAndReturn(s: State, ins: word, t: State, u: Uninit)
    requires InsType(ins) == 5 && BitP(ins)
    requires ReadReg(t, 14) == ReadReg(Dispatch(s, ins, u).state, 14)
    ensures var next := s.regs[15];
      var back := next - next / 2 % 2 * 2;
      && ReadReg(Dispatch(s, ins, u).state, 14) == back
      && Dispatch(t, MOV_PC_LR, u) == Outcome(t.(regs := t.regs[15 := back]), 0)
      && (back == next <==> next / 2 % 2 == 0)
  {
    hide WriteReg, ReadReg, Rn, Flags, SignExtend30, Lsl, MOV_PC_LR, Opcode, BitL, BitP, BitU, Bit7, Bit4, Rd, Rm;
    hide ShiftType, ShiftImm, InsType, ToMiscellaneous;
    PcAhead(s);
    var pc := ReadReg(s, 15);
    var linked := WriteReg(s, 14, Minus(pc, 4));
    var target := Plus(pc, Lsl(SignExtend30(ins % 0x100_0000), 2));
    ReadAfterWrite(s, 14, Minus(pc, 4), 14);
    ReadAfterWrite(linked, 15, target, 14);
    MovFields();
    WritePc(t, ReadReg(t, 14));
  }

  lemma WritePc(t: State, v: word)
    ensures WriteReg(t, 15, v) == t.(regs := t.regs[15 := v])
  {
  }

  /** The program counter as instructions see it, four ahead, loses bit 1 and nothing else. */
  lemma PcAhead(s: State)
    ensures var pc := s.regs[15]; Minus(ReadReg(s, 15), 4) == pc - pc / 2 % 2 * 2
  {
    hide AndW;
    var pc := s.regs[15];
    MaskIsClrBit(Plus(pc, 4));
    FourAhead(pc);
  }

  lemma FourAhead(pc: word)
    ensures Plus(pc, 4) / 2 % 2 == pc / 2 % 2
    ensures Minus(Plus(pc, 4) - pc / 2 % 2 * 2, 4) == pc - pc / 2 % 2 * 2
  {
    var b := pc / 2 % 2;
    assert pc >= 2 * b;
    assert Plus(pc, 4) == if pc < 0xFFFF_FFFC then pc + 4 else pc - 0xFFFF_FFFC;
  }

  /** The mask 0xFFFFFFFD clears bit 1. */
  lemma MaskIsClrBit(v: word)
    ensures AndW(v, 0xFFFF_FFFD) == v - v / 2 % 2 * 2
  {
    hide And;
    assert Pow2(1) == 2;
    assert NotW(Lsl(1, 1)) == 0xFFFF_FFFD;
    ClrBitValue(v, 1);
  }
}
