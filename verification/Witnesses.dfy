/** Encoded instructions on which the code departs from the manual, or that show a bound is reached. */
module Witnesses {
  import opened Words
  import opened RegistersSpec
  import opened Machine
  import opened Decode
  import opened Conditions
  import opened ShifterSpec
  import opened DataProcessingSpec
  import opened LoadStoreSpec
  import opened MultipleSpec
  import opened BranchSpec
  import opened ExceptionSpec
  import opened InstructionSpec
  import opened AluLaws
  import opened LoadStoreLaws
  import opened ExtensionLaws
  import opened MultipleLaws
  import opened DispatchLaws
  import opened RunLaws
  import opened StepLaws
  import opened Assembly
  import opened MeaningLaws
  import M = MemorySpec

  // ----- data processing -----

  /** MOV R0, R1, LSL R2 */
  const MOV_LSL: word := 0xE1A0_0211

  /** With 32 in R2 the register shifted out of sight is left as it was. */
  lemma ShiftLeftBy32(s: State, u: Uninit)
    requires ReadReg(s, 2) == 32
    ensures ReadReg(Dispatch(s, MOV_LSL, u).state, 0) == ReadReg(s, 1)
  {
    hide ReadReg, WriteReg, Flags, GetBit, MOV_LSL, InsType, ToMiscellaneous, Bit7, Bit4, Opcode, BitL, Rd, Rm, Rs;
    hide ShiftType;
    MovLslFields();
    ReadAfterWrite(s, 0, ReadReg(s, 1), 0);
  }

  lemma MovLslFields()
    ensures var i := MOV_LSL;
      && InsType(i) == 0 && !ToMiscellaneous(i) && !Bit7(i) && Bit4(i) && Opcode(i) == MOV && !BitL(i)
      && Rd(i) == 0 && Rm(i) == 1 && Rs(i) == 2 && ShiftType(i) == LSL
  {
  }

  /** MOV R0, R1, ASR #1 */
  const MOV_ASR: word := 0xE1A0_00C1

  /** The smallest number halved becomes positive; the manual asks for 0xC0000000. */
  lemma HalveSmallest(s: State, u: Uninit)
    requires ReadReg(s, 1) == 0x8000_0000
    ensures ReadReg(Dispatch(s, MOV_ASR, u).state, 0) == 0x4000_0000
  {
    hide ReadReg, WriteReg, Flags, GetBit, MOV_ASR, InsType, ToMiscellaneous, Bit7, Bit4, Opcode, BitL, Rd, Rm;
    hide ShiftImm, ShiftType;
    MovAsrFields();
    assert Pow2(1) == 2;
    ReadAfterWrite(s, 0, 0x4000_0000, 0);
  }

  lemma MovAsrFields()
    ensures var i := MOV_ASR;
      && InsType(i) == 0 && !ToMiscellaneous(i) && !Bit4(i) && Opcode(i) == MOV && !BitL(i)
      && Rd(i) == 0 && Rm(i) == 1 && ShiftImm(i) == 1 && ShiftType(i) == ASR
  {
  }

  /** ADDS R0, R0, R1 */
  const ADDS: word := 0xE090_0001

  /** All ones plus one is zero without a carry. */
  lemma AddWithoutCarry(s: State, u: Uninit)
    requires ReadReg(s, 0) == 0xFFFF_FFFF && ReadReg(s, 1) == 1
    ensures var s' := Dispatch(s, ADDS, u).state; ReadReg(s', 0) == 0 && !Passes(CpsrOf(s'), CS)
  {
    hide ReadReg, WriteReg, GetBit, Operate, ADDS, InsType, ToMiscellaneous, Bit7, Bit4, Opcode, BitL, Rd, Rn, Rm;
    hide ShiftImm, ShiftType;
    AddsFields();
    OperationEffect(s, ADDS, Shifted(1, FlagC(s)));
  }

  lemma AddsFields()
    ensures var i := ADDS;
      && InsType(i) == 0 && !ToMiscellaneous(i) && !Bit4(i) && Opcode(i) == ADD && BitL(i)
      && Rd(i) == 0 && Rn(i) == 0 && Rm(i) == 1 && ShiftImm(i) == 0 && ShiftType(i) == LSL
  {
    assert ADDS / 0x2_0000 == 0x7048 && ADDS % 0x1_0000 == 1;
  }

  /** SUBS R2, R0, R1 */
  const SUBS: word := 0xE050_2001

  /** After 1 - 2 the flags say that 1 is not less than 2. */
  lemma OneNotLessThanTwo(s: State, u: Uninit)
    requires ReadReg(s, 0) == 1 && ReadReg(s, 1) == 2
    ensures var cpsr := CpsrOf(Dispatch(s, SUBS, u).state); Passes(cpsr, GE) && !Passes(cpsr, LT)
  {
    hide ReadReg, GetBit, Operate, SUBS, InsType, ToMiscellaneous, Bit7, Bit4, Opcode, BitL, Rd, Rn, Rm, ShiftImm;
    hide ShiftType, Passes;
    SubtractionFields();
    SignedConditionsAfterSubtraction(s, SUBS, Shifted(2, FlagC(s)));
  }

  /** SBCS R2, R0, R1 */
  const SBCS: word := 0xE0D0_2001

  /** After 1 - 2 without a borrow coming in the flags report no borrow, and an overflow. */
  lemma CarryAndOverflowWrong(s: State, u: Uninit)
    requires ReadReg(s, 0) == 1 && ReadReg(s, 1) == 2 && FlagC(s) == 1
    ensures var cpsr := CpsrOf(Dispatch(s, SBCS, u).state); Passes(cpsr, CS) && Passes(cpsr, VS)
  {
    hide ReadReg, GetBit, Operate, SBCS, InsType, ToMiscellaneous, Bit7, Bit4, Opcode, BitL, Rd, Rn, Rm, ShiftImm;
    hide ShiftType, Passes;
    SubtractionFields();
    CarryAfterSubtractWithCarry(s, SBCS, Shifted(2, 1));
    OverflowAfterSubtractWithCarry(s, SBCS, Shifted(2, 1));
  }

  lemma SubtractionFields()
    ensures var i := SUBS;
      && InsType(i) == 0 && !ToMiscellaneous(i) && !Bit4(i) && Opcode(i) == SUB && BitL(i)
      && Rd(i) == 2 && Rn(i) == 0 && Rm(i) == 1 && ShiftImm(i) == 0 && ShiftType(i) == LSL
    ensures var i := SBCS;
      && InsType(i) == 0 && !ToMiscellaneous(i) && !Bit4(i) && Opcode(i) == SBC && BitL(i)
      && Rd(i) == 2 && Rn(i) == 0 && Rm(i) == 1 && ShiftImm(i) == 0 && ShiftType(i) == LSL
  {
    assert SUBS / 0x2_0000 == 0x7028 && SUBS % 0x1_0000 == 0x2001;
    assert SBCS / 0x2_0000 == 0x7068 && SBCS % 0x1_0000 == 0x2001;
  }

  // ----- loads, stores and branches -----

  /** MUL R0, R1, R2 */
  const MUL: word := 0xE000_0291

  /** A multiplication stores a half of R0, after moving R0 down twice, at the address it has moved to. */
  lemma MultiplyStoresHalf(s: State, u: Uninit)
    requires ReadReg(s, 0) != 0xFFFF_FFFF
    ensures var address := Minus(ReadReg(s, 0), 0x291);
      var value := Minus(address, ReadReg(s, 1));
      Dispatch(s, MUL, u) == Outcome(StoreHalf(WriteReg(s, 0, value), address, value % 0x1_0000), 0)
  {
    hide ReadReg, WriteReg, GetBit, MUL, InsType, ToMiscellaneous, Bit7, Bit4, BitP, BitW, BitU, BitB, BitL, Rd, Rn;
    hide Rm, Offset12, LoadStore, M.WriteHalf, BitI, Bit26;
    MulFields();
    WritebackAccess(s, MUL, u);
    ReadAfterWrite(s, 0, TwiceMoved(s, MUL), 0);
  }

  lemma MulFields()
    ensures var i := MUL;
      && InsType(i) == 0 && !ToMiscellaneous(i) && Bit7(i) && Bit4(i) && !BitP(i) && !BitW(i) && !BitU(i) && !BitB(i)
      && !BitL(i) && Rd(i) == 0 && Rn(i) == 0 && Rm(i) == 1 && Offset12(i) == 0x291
  {
  }

  /** MULS R0, R1, R2 */
  const MULS: word := 0xE010_0291

  /** With S set it is undefined, after it has moved R0 twice. */
  lemma MultiplyMovesTwice(s: State, u: Uninit)
    requires ReadReg(s, 0) != 0xFFFF_FFFF
    ensures Dispatch(s, MULS, u) ==
      Outcome(WriteReg(s, 0, Minus(Minus(ReadReg(s, 0), 0x291), ReadReg(s, 1))), UNDEFINED_INSTRUCTION)
  {
    hide ReadReg, WriteReg, MULS, InsType, BitP, BitW, BitU, BitB, BitL, Rd, Rn, Rm, Offset12, Dispatch;
    MulsFields();
    NoMultiplyNoSwap(s, MULS, u);
  }

  lemma MulsFields()
    ensures var i := MULS;
      && i / 0x10 % 16 == 9 && InsType(i) == 0 && !BitP(i) && !BitW(i) && !BitU(i) && !BitB(i) && BitL(i)
      && Rd(i) == 0 && Rn(i) == 0 && Rm(i) == 1 && Offset12(i) == 0x291
  {
  }

  /** SWP R1, R2, [R3] */
  const SWP: word := 0xE103_1092

  /** A swap reads no memory and writes none: it copies the CPSR into R1. */
  lemma SwapCopiesCpsr(s: State, u: Uninit)
    ensures Dispatch(s, SWP, u) == Outcome(WriteReg(s, 1, CpsrOf(s)), 0)
  {
    hide ReadReg, WriteReg, SWP, InsType, BitP, BitW, BitU, BitB, BitL, Rd, Rn, Dispatch, SpsrOf, Reached;
    SwpFields();
    NoMultiplyNoSwap(s, SWP, u);
  }

  lemma SwpFields()
    ensures var i := SWP;
      && i / 0x10 % 16 == 9 && InsType(i) == 0 && BitP(i) && !BitU(i) && !BitW(i) && !BitB(i) && !BitL(i)
      && Rd(i) == 1
  {
  }

  /** MRS R0, CPSR and MRS R0, SPSR do what they should. */
  lemma StatusReads(s: State, u: Uninit)
    ensures Dispatch(s, 0xE10F_0000, u) == Outcome(WriteReg(s, 0, CpsrOf(s)), 0)
    ensures Dispatch(s, 0xE14F_0000, u) == Outcome(WriteReg(s, 0, SpsrOf(s)), 0)
  {
    hide Dispatch, WriteReg, SpsrOf;
    EveryInstruction(s, 14, Status(false, false, 15, 0, 0), u);
    EveryInstruction(s, 14, Status(true, false, 15, 0, 0), u);
  }

  /** STRH R1, [R2, #-2] */
  const STRH_DOWN: word := 0xE142_10B2

  /** A half store downwards overwrites the register it should store by the SPSR. */
  lemma StoreHalfOverwritesRegister(s: State, u: Uninit)
    ensures Dispatch(s, STRH_DOWN, u) == Outcome(WriteReg(s, 1, SpsrOf(s)), 0)
  {
    hide WriteReg, SpsrOf, Dispatch, STRH_DOWN, InsType, Bit7, Bit4, BitP, BitU, BitL, BitW, BitB, Rd;
    StrhFields();
    StoreHalfDownExecutesMrs(s, STRH_DOWN, u);
  }

  lemma StrhFields()
    ensures var i := STRH_DOWN;
      && InsType(i) == 0 && Bit7(i) && Bit4(i) && BitP(i) && !BitU(i) && !BitL(i) && !BitW(i) && BitB(i) && Rd(i) == 1
  {
  }

  /** B with the most negative field. */
  const BRANCH_BACK: word := 0xEA80_0000

  /** It goes 2^24 bytes less far back than it should. */
  lemma BranchFallsShort(s: State)
    ensures Branch(s, BRANCH_BACK).regs[15] == Plus(Plus(ReadReg(s, 15), 4 * -0x80_0000), 0x100_0000)
  {
    hide ReadReg, Branch, SignExtend30;
    BranchTarget(s, BRANCH_BACK);
  }

  // ----- a base in its own list -----

  /** STMDB R0!, {R0, R1} */
  const STMDB: word := 0xE920_0003

  /** LDMIA R0!, {R0, R1} */
  const LDMIA: word := 0xE8B0_0003

  /** The list of a word ending in 0003 is R0 and R1. */
  lemma {:induction false} TwoListed(ins: word, n: nat)
    requires ins % 0x1_0000 == 3 && n <= 16
    ensures Count(ins, n) == if n < 2 then n else 2
    ensures n < 16 ==> (Listed(ins, n) <==> n < 2)
  {
    hide GetBit;
    if n < 16 {
      assert Pow2(16) == 0x1_0000 by { SixteenBits(); }
      LowBits(ins, n, 16);
      BitsOfThree(n);
    }
    if n > 0 {
      TwoListed(ins, n - 1);
    }
  }

  lemma BitsOfThree(i: nat)
    ensures GetBit(3, i) == if i < 2 then 1 else 0
  {
    if i >= 2 {
      Pow2Mono(2, i);
      assert Pow2(2) == 4;
      DivModUnique(3, Pow2(i), 0, 3);
    }
  }

  /** Pushed and popped together with R1, the stack pointer R0 does not come back to 8. */
  lemma BaseInListLost(s: State, u: Uninit)
    requires ReadReg(s, 0) == 8 && |s.mem| >= 8
    ensures var t := Dispatch(Dispatch(s, STMDB, u).state, LDMIA, u).state;
      ReadReg(t, 1) == ReadReg(s, 1) && ReadReg(t, 0) != 8
  {
    hide ReadReg, WriteReg, GetBit, Count, StoreBelow, LoadBelow, STMDB, LDMIA, InsType, BitP, BitU, BitW, BitB;
    hide BitL, Rn, LoadStoreMultiple;
    BlockFields();
    forall i: nat | i < 16 ensures Listed(STMDB, i) == Listed(LDMIA, i) == (i < 2) {
      TwoListed(STMDB, i);
      TwoListed(LDMIA, i);
    }
    TwoListed(STMDB, 16);
    assert AddrMultiple(s, STMDB).start == 0;
    StoreThenLoad(s, STMDB, LoadStoreMultiple(s, STMDB, u).state, LDMIA, u);
  }

  lemma BlockFields()
    ensures var i := STMDB;
      && i % 0x1_0000 == 3 && InsType(i) == 4 && Rn(i) == 0
      && BitP(i) && !BitU(i) && BitW(i) && !BitB(i) && !BitL(i)
    ensures var i := LDMIA;
      && i % 0x1_0000 == 3 && InsType(i) == 4 && Rn(i) == 0
      && !BitP(i) && BitU(i) && BitW(i) && !BitB(i) && BitL(i)
  {
  }

  // ----- leaving Supervisor mode -----

  /** MOVS PC, R0 */
  const MOVS_PC: word := 0xE1B0_F000

  /** LDMIB R0, {PC} */
  const LDMIB_PC: word := 0xE990_8000

  lemma MovsFields()
    ensures var i := MOVS_PC;
      && InsType(i) == 0 && !ToMiscellaneous(i) && !Bit7(i) && !Bit4(i) && Opcode(i) == MOV && BitL(i) && Rd(i) == 15
      && Cond(i) == AL
  {
  }

  lemma MovsWord()
    ensures M.Word([0xE1, 0xB0, 0xF0, 0x00], true) == MOVS_PC
  {
  }

  lemma LdmWord()
    ensures M.Word([0xE9, 0x90, 0x80, 0x00], true) == LDMIB_PC
  {
  }

  /** Executed at reset, MOVS PC, R0 puts the SPSR, which is zero, into the CPSR: mode number 0. */
  lemma ResetToModeZero(mem: seq<byte>, u: StepUninit)
    requires 4 <= |mem| <= 0x7FFF_FFFF && mem[..4] == [0xE1, 0xB0, 0xF0, 0x00]
    ensures var s := Step(Created(seq(37, _ => 0), mem, true), u).state; CpsrOf(s) == 0 && ModeOf(s) == 0
  {
    hide Step, MOVS_PC, InsType, ToMiscellaneous, Bit7, Bit4, Opcode, BitL, Rd, Cond, Created, Dispatch, SpsrOf;
    hide Passes;
    var s0 := Created(seq(37, _ => 0), mem, true);
    AtReset(mem, true);
    MovsFields();
    assert mem[0..4] == mem[..4];
    assert NextInstruction(s0) == MOVS_PC by { MovsWord(); }
    AlwaysPasses(CpsrOf(s0));
    FetchResult(s0, u.fetch);
    var f := Fetch(s0, u.fetch);
    SameSpsr(s0, f.state);
    ExecutedAlone(s0, u);
    SupervisorHasSpsr(f.state);
    ControlValue(f.state, MOVS_PC, u.execute);
  }

  lemma SupervisorHasSpsr(s: State)
    requires CpsrOf(s) == 0x1d3
    ensures ModeHasSpsr(ModeOf(s))
  {
  }

  lemma AlwaysPasses(cpsr: word)
    ensures Passes(cpsr, AL)
  {
  }

  lemma AtReset(mem: seq<byte>, be: bool)
    requires |mem| <= 0x7FFF_FFFF
    ensures var s := Created(seq(37, _ => 0), mem, be);
      && s.mem == mem && s.be == be && s.regs[15] == 0 && CpsrOf(s) == 0x1d3 && SpsrOf(s) == 0 && ReadReg(s, 0) == 0
  {
  }

  /** A step whose fetch and condition succeed leaves what the instruction leaves. */
  lemma ExecutedAlone(s: State, u: StepUninit)
    ensures var f := Fetch(s, u.fetch);
      f.status == 0 && Passes(CpsrOf(f.state), Cond(f.ins)) ==>
        Step(s, u).state == Dispatch(f.state, f.ins, u.execute).state
  {
    hide Dispatch, Passes, Fetch, Exception, Step;
    ExceptionKeepsPc(s, u);
  }

  lemma LdmFields()
    ensures var i := LDMIB_PC;
      && i % 0x1_0000 == 0x8000 && InsType(i) == 4 && Rn(i) == 0 && Cond(i) == AL
      && BitP(i) && BitU(i) && !BitW(i) && !BitB(i) && BitL(i)
  {
  }

  /** The list of a word ending in 8000 is the PC. */
  lemma {:induction false} PcListed(ins: word, n: nat)
    requires ins % 0x1_0000 == 0x8000 && n < 16
    ensures Count(ins, n) == 0
    ensures Listed(ins, n) <==> n == 15
  {
    hide GetBit;
    SixteenBits();
    LowBits(ins, n, 16);
    TopBitAlone(n);
    if n > 0 {
      PcListed(ins, n - 1);
    }
  }

  lemma {:induction false} PowerBits(n: nat, i: nat)
    requires i <= n
    ensures GetBit(Pow2(n), i) == if i == n then 1 else 0
  {
    if i > 0 {
      PowerBits(n - 1, i - 1);
      GetBitHalves(Pow2(n), i);
    }
  }

  lemma TopBitAlone(i: nat)
    requires i < 16
    ensures GetBit(0x8000, i) == if i == 15 then 1 else 0
  {
    hide GetBit;
    PowerBits(15, i);
    assert Pow2(15) == 0x8000;
  }

  /** Executed at reset, LDMIB R0, {PC} of an odd word puts the SPSR with the T bit into the CPSR. */
  lemma ResetToThumbBit(mem: seq<byte>, u: StepUninit)
    requires 8 <= |mem| <= 0x7FFF_FFFF && mem[..8] == [0xE9, 0x90, 0x80, 0x00, 0, 0, 0, 1]
    ensures var s := Step(Created(seq(37, _ => 0), mem, true), u).state; CpsrOf(s) == 0x20 && ModeOf(s) == 0
  {
    hide Step, LDMIB_PC, InsType, BitP, BitU, BitL, BitW, BitB, Rn, Cond, Created, Dispatch, SpsrOf, Passes, GetBit;
    hide Count, ReadReg, LoadBelow, ClrBit, SetBit;
    var s0 := Created(seq(37, _ => 0), mem, true);
    AtReset(mem, true);
    LdmFields();
    assert mem[0..4] == mem[..8][..4] == [0xE9, 0x90, 0x80, 0x00];
    assert NextInstruction(s0) == LDMIB_PC by { LdmWord(); }
    AlwaysPasses(CpsrOf(s0));
    FetchResult(s0, u.fetch);
    var f := Fetch(s0, u.fetch);
    SameSpsr(s0, f.state);
    ExecutedAlone(s0, u);
    PcListed(LDMIB_PC, 15);
    ReadAfterFetch(s0, f.state, 0);
    OddPcWord(f.state, u.execute);
    ControlValue(f.state, LDMIB_PC, u.execute);
    TBit(0);
  }

  lemma OddPcWord(s: State, u: Uninit)
    requires ReadReg(s, 0) == 0 && s.be && |s.mem| >= 8 && s.mem[4..8] == [0, 0, 0, 1]
    ensures PcWord(s, LDMIB_PC, u) == 1
  {
    hide LDMIB_PC, InsType, BitP, BitU, BitL, BitW, BitB, Rn, Cond, GetBit, Count, ReadReg, LoadBelow, LoadWord;
    LdmFields();
    PcListed(LDMIB_PC, 15);
    var b := AddrMultiple(s, LDMIB_PC);
    var l := LoadBelow(b.state, LDMIB_PC, b.start, 15, u);
    assert Home(b.start, LDMIB_PC, 15) == 4;
    LoadInRange(l.state, 4, Uninit(u.buffer, l.word));
  }

  // ----- interrupts -----

  /** SWI 0x123456 at address 2 does not end the program: the handler reads its number from address 0. */
  lemma InterruptMisread(s: State, u: StepUninit)
    requires s.be && s.regs[15] == 2 && |s.mem| >= 6 && s.mem[..6] == [0, 0, 0xEF, 0x12, 0x34, 0x56]
    ensures NextInstruction(s) == 0xEF12_3456 && Step(s, u).code == SOFTWARE_INTERRUPT
  {
    hide Step, StepPrints, ReadReg, WriteReg, Passes, Plus;
    assert s.mem[2..6] == s.mem[..6][2..6] == [0xEF, 0x12, 0x34, 0x56];
    assert s.mem[0..4] == s.mem[..6][0..4] == [0, 0, 0xEF, 0x12];
    AlwaysPasses(CpsrOf(s));
    SoftwareInterrupt(s, u);
  }

  /** MRC p4, 0, R3, c2, c6, 2 at address 0 ends it. */
  lemma CoprocessorEndsProgram(s: State, u: StepUninit)
    requires s.be && s.regs[15] == 0 && |s.mem| >= 4 && s.mem[..4] == [0xEE, 0x12, 0x34, 0x56]
    ensures IsCoprocessorOperation(NextInstruction(s)) && Step(s, u).code == END_SIMULATION
  {
    hide Step, StepPrints, ReadReg, WriteReg, Passes, Plus;
    assert s.mem[0..4] == s.mem[..4];
    AlwaysPasses(CpsrOf(s));
    SwiEndsProgram(s, u);
  }
}
