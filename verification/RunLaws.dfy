/** What whole runs of the interpreter can and cannot change. */
module RunLaws {
  import opened Words
  import opened RegistersSpec
  import opened Machine
  import opened Decode
  import opened Conditions
  import opened ShifterSpec
  import opened DataProcessingSpec
  import opened LoadStoreSpec
  import opened MultipleSpec
  import opened BranchSpec
  import opened ExceptionSpec
  import opened InstructionSpec
  import opened AluLaws

  /** Modes whose registers are slots 0 to 17: Supervisor, and mode number 0. */
  predicate LowMode(mode: byte) { mode == SVC || mode == 0 }

  /** Memory keeps its size, no SPSR moves, and from a low mode no slot of another exception mode. */
  predicate Framed(s: State, s': State)
  {
    && |s'.mem| == |s.mem| && s'.be == s.be
    && (forall k :: 32 <= k < 37 ==> s'.regs[k] == s.regs[k])
    && (LowMode(ModeOf(s)) ==> forall k :: 18 <= k < 31 ==> s'.regs[k] == s.regs[k])
  }

  lemma FramedThrough(s: State, t: State, s': State)
    requires Framed(s, t) && CpsrOf(t) == CpsrOf(s) && Framed(t, s')
    ensures Framed(s, s')
  {
  }

  lemma WriteFramed(s: State, r: nat, v: word)
    requires r < 16
    ensures Framed(s, WriteReg(s, r, v)) && CpsrOf(WriteReg(s, r, v)) == CpsrOf(s)
  {
  }

  lemma CpsrFramed(s: State, v: word)
    ensures Framed(s, SetCpsr(s, v)) && CpsrOf(SetCpsr(s, v)) == v
  {
  }

  lemma MemoryFramed(s: State, mem: seq<byte>)
    requires |mem| == |s.mem|
    ensures Framed(s, s.(mem := mem)) && CpsrOf(s.(mem := mem)) == CpsrOf(s)
  {
  }

  lemma LoadStoreFramed(s: State, ins: word, u: Uninit)
    ensures Framed(s, LoadStore(s, ins, u).state) && CpsrOf(LoadStore(s, ins, u).state) == CpsrOf(s)
  {
    hide Framed, WriteReg, ReadReg, Index2, Index3, LoadWord, LoadHalf, LoadByte, SignExtend8, SignExtend16, Offset;
    hide Rd, Rn;
    AddressFramed(s, ins);
    var first := CalculateAddress(s, ins);
    if first.address != NO_ADDRESS {
      if Bit26(ins) {
        WordOrByteFramed(first.state, ins, first.address, u);
        FramedThrough(s, first.state, WordOrByte(first.state, ins, first.address, u));
      } else {
        var second := CalculateAddressMode3(first.state, ins, u.value);
        IndexedFramed(first.state, ins, Index3(first.state, ins));
        HalfFramed(second.state, ins, second.address, u);
        FramedThrough(s, first.state, second.state);
        FramedThrough(s, second.state, HalfOrSigned(second.state, ins, second.address, u).state);
      }
    }
  }

  lemma IndexedFramed(s: State, ins: word, index: word)
    requires BitP(ins) || !BitW(ins)
    ensures Framed(s, Indexed(s, ins, index).state) && CpsrOf(Indexed(s, ins, index).state) == CpsrOf(s)
  {
    hide Framed, WriteReg, ReadReg;
    WriteFramed(s, Rn(ins), Offset(ReadReg(s, Rn(ins)), BitU(ins), index));
    CpsrFramed(s, CpsrOf(s));
    Unchanged(s);
  }

  lemma Unchanged(s: State)
    ensures Framed(s, s)
  {
  }

  lemma AddressFramed(s: State, ins: word)
    ensures Framed(s, CalculateAddress(s, ins).state) && CpsrOf(CalculateAddress(s, ins).state) == CpsrOf(s)
  {
    hide Framed, Indexed, Index2;
    Unchanged(s);
    if BitP(ins) || !BitW(ins) {
      IndexedFramed(s, ins, Index2(s, ins));
    }
  }

  lemma WordOrByteFramed(s: State, ins: word, a: word, u: Uninit)
    ensures Framed(s, WordOrByte(s, ins, a, u)) && CpsrOf(WordOrByte(s, ins, a, u)) == CpsrOf(s)
  {
    hide Framed, WriteReg, ReadReg, LoadWord, LoadByte;
    if BitL(ins) {
      WriteFramed(s, Rd(ins), if BitB(ins) then LoadByte(s, a, u) else LoadWord(s, a, u));
    } else {
      MemoryFramed(s, WordOrByte(s, ins, a, u).mem);
    }
  }

  lemma HalfFramed(s: State, ins: word, a: word, u: Uninit)
    ensures var s' := HalfOrSigned(s, ins, a, u).state; Framed(s, s') && CpsrOf(s') == CpsrOf(s)
  {
    hide Framed, WriteReg, ReadReg, LoadHalf, LoadByte, SignExtend8, SignExtend16;
    Unchanged(s);
    if Rd(ins) != 15 {
      WriteFramed(s, Rd(ins), LoadHalf(s, a, u));
      WriteFramed(s, Rd(ins), SignExtend8(LoadByte(s, a, u)));
      WriteFramed(s, Rd(ins), SignExtend16(LoadHalf(s, a, u)));
      MemoryFramed(s, StoreHalf(s, a, ReadReg(s, Rd(ins)) % 0x1_0000).mem);
    }
  }

  lemma {:induction false} LoadBelowFramed(s: State, ins: word, start: word, n: nat, u: Uninit)
    requires n <= 16
    ensures Framed(s, LoadBelow(s, ins, start, n, u).state)
  {
    hide Framed, WriteReg, LoadWord, Home, GetBit;
    Unchanged(s);
    if n > 0 {
      LoadBelowFramed(s, ins, start, n - 1, u);
      if Listed(ins, n - 1) {
        var l := LoadBelow(s, ins, start, n - 1, u);
        var w := LoadWord(l.state, Home(start, ins, n - 1), Uninit(u.buffer, l.word));
        WriteFramed(l.state, n - 1, w);
        FramedThrough(s, l.state, WriteReg(l.state, n - 1, w));
      }
    }
  }

  /** A load multiple with the PC in its list. */
  predicate LoadsPc(ins: word) { BitL(ins) && !BitB(ins) && Listed(ins, 15) }

  lemma MultipleFramed(s: State, ins: word, u: Uninit)
    ensures var s' := LoadStoreMultiple(s, ins, u).state;
      && Framed(s, s')
      && (!LoadsPc(ins) ==> CpsrOf(s') == CpsrOf(s))
      && (LoadsPc(ins) ==> CpsrOf(s') == ClrBit(CpsrOf(s), 5) || CpsrOf(s') == SetBit(SpsrOf(s), 5))
  {
    hide Framed, WriteReg, ReadReg, LoadWord, Home, GetBit, ClrBit, SetBit, LoadBelow, StoreBelow, LoadPc, SpsrOf;
    Unchanged(s);
    if !BitB(ins) {
      var b := AddrMultiple(s, ins);
      BlockFramed(s, ins);
      if BitL(ins) {
        var l := LoadBelow(b.state, ins, b.start, 15, u);
        LoadBelowFramed(b.state, ins, b.start, 15, u);
        FramedThrough(s, b.state, l.state);
        var w := LoadWord(l.state, Home(b.start, ins, 15), Uninit(u.buffer, l.word));
        LoadPcFramed(l.state, w);
        FramedSpsr(s, l.state);
        FramedThrough(s, l.state, LoadPc(l.state, w));
      } else {
        MemoryFramed(b.state, Stm(s, ins).mem);
        assert Stm(s, ins) == b.state.(mem := Stm(s, ins).mem);
        FramedThrough(s, b.state, Stm(s, ins));
      }
    }
  }

  lemma FramedSpsr(s: State, t: State)
    requires Framed(s, t) && CpsrOf(s) == CpsrOf(t)
    ensures SpsrOf(s) == SpsrOf(t)
  {
    SameSpsr(s, t);
  }

  lemma BlockFramed(s: State, ins: word)
    ensures Framed(s, AddrMultiple(s, ins).state) && CpsrOf(AddrMultiple(s, ins).state) == CpsrOf(s)
  {
    hide Framed, WriteReg, ReadReg, Count;
    Unchanged(s);
    var base, size := ReadReg(s, Rn(ins)), 4 * Count(ins, 16);
    WriteFramed(s, Rn(ins), if BitU(ins) then Plus(base, size) else Minus(base, size));
  }

  lemma LoadPcFramed(s: State, w: word)
    ensures Framed(s, LoadPc(s, w))
    ensures CpsrOf(LoadPc(s, w)) == if w % 2 == 0 then ClrBit(CpsrOf(s), 5) else SetBit(SpsrOf(s), 5)
  {
    hide Framed, WriteReg, ClrBit, SetBit, AndW, SpsrOf;
    var t := WriteReg(s, 15, AndW(w, 0xFFFF_FFFE));
    WriteFramed(s, 15, AndW(w, 0xFFFF_FFFE));
    FramedSpsr(s, t);
    CpsrFramed(t, ClrBit(CpsrOf(t), 5));
    CpsrFramed(t, SetBit(SpsrOf(t), 5));
    FramedThrough(s, t, LoadPc(s, w));
  }

  lemma OperateFramed(s: State, ins: word, op: Shifted)
    ensures Framed(s, Operate(s, ins, op).state)
  {
    hide Framed, Flags, Result, ReadReg, WriteReg, SpsrOf;
    var flags := Flags(Opcode(ins), CpsrOf(s), ReadReg(s, Rd(ins)), ReadReg(s, Rn(ins)), op.operand, op.carry != 0);
    var v := Result(Opcode(ins), ReadReg(s, Rn(ins)), op.operand, FlagC(s));
    CpsrFramed(s, flags);
    WriteFramed(s, Rd(ins), v);
    var t := WriteReg(s, Rd(ins), v);
    CpsrFramed(t, flags);
    CpsrFramed(t, SpsrOf(t));
    FramedThrough(s, t, SetCpsr(t, flags));
    FramedThrough(s, t, SetCpsr(t, SpsrOf(t)));
  }

  /** The instructions that may change the CPSR below the flags: a data-processing instruction with S
      set and the PC as destination, in a mode with an SPSR; and a load multiple of the PC. */
  predicate ChangesControl(s: State, ins: word)
  {
    match InsType(ins)
    case 0 => !ToMiscellaneous(ins) && !(Bit7(ins) && Bit4(ins)) && RestoresCpsr(s, ins)
    case 1 => RestoresCpsr(s, ins)
    case 4 => LoadsPc(ins)
    case _ => false
  }

  lemma BranchFramed(s: State, ins: word)
    ensures Framed(s, Branch(s, ins)) && CpsrOf(Branch(s, ins)) == CpsrOf(s)
    ensures Framed(s, Swi(s).state) && CpsrOf(Swi(s).state) == CpsrOf(s)
    ensures Framed(s, Miscellaneous(s, ins).state) && CpsrOf(Miscellaneous(s, ins).state) == CpsrOf(s)
  {
    hide Framed, WriteReg, ReadReg, SpsrOf, SignExtend30, Lsl;
    Unchanged(s);
    var pc := ReadReg(s, 15);
    WriteFramed(s, 14, Minus(pc, 4));
    var t := if BitP(ins) then WriteReg(s, 14, Minus(pc, 4)) else s;
    WriteFramed(t, 15, Plus(pc, Lsl(SignExtend30(ins % 0x100_0000), 2)));
    FramedThrough(s, t, Branch(s, ins));
    WriteFramed(s, Rd(ins), if BitB(ins) then SpsrOf(s) else CpsrOf(s));
  }

  /** What one instruction did: `changes` says whether it could touch the CPSR below the flags. */
  predicate Controlled(s: State, r: Outcome, changes: bool)
  {
    && Framed(s, r.state)
    && r.code in {0, -1, UNDEFINED_INSTRUCTION, SOFTWARE_INTERRUPT}
    && (!changes ==> CpsrOf(r.state) % 0x1000_0000 == CpsrOf(s) % 0x1000_0000)
    && (changes ==>
          CpsrOf(r.state) == SpsrOf(s)
          || CpsrOf(r.state) == ClrBit(CpsrOf(s), 5)
          || CpsrOf(r.state) == SetBit(SpsrOf(s), 5))
  }

  lemma OperateControlled(s: State, ins: word, op: Shifted)
    ensures Controlled(s, Operate(s, ins, op), RestoresCpsr(s, ins))
  {
    hide Framed, Operate, ClrBit, SetBit, SpsrOf, RestoresCpsr;
    OperateFramed(s, ins, op);
    OperateCodes(s, ins, op);
    CpsrFrame(s, ins, op);
  }

  lemma TransfersControlled(s: State, ins: word, u: Uninit)
    ensures Controlled(s, LoadStore(s, ins, u), false)
    ensures Controlled(s, LoadStoreMultiple(s, ins, u), LoadsPc(ins))
  {
    hide Framed, LoadStore, LoadStoreMultiple, ClrBit, SetBit, SpsrOf, LoadsPc;
    LoadStoreFramed(s, ins, u);
    LoadStoreCodes(s, ins, u);
    MultipleFramed(s, ins, u);
  }

  lemma OthersControlled(s: State, ins: word)
    ensures Controlled(s, Outcome(Branch(s, ins), 0), false) && Controlled(s, Swi(s), false)
    ensures Controlled(s, Miscellaneous(s, ins), false) && Controlled(s, Outcome(s, UNDEFINED_INSTRUCTION), false)
  {
    hide Framed, Branch, ClrBit, SetBit, SpsrOf, WriteReg, ReadReg;
    Unchanged(s);
    BranchFramed(s, ins);
  }

  /** Every instruction keeps its hands off the CPSR below the flags unless it is one of the two kinds,
      and none of them returns the reset code. */
  lemma DispatchControlled(s: State, ins: word, u: Uninit)
    ensures Controlled(s, Dispatch(s, ins, u), ChangesControl(s, ins))
  {
    hide Controlled, LoadStore, LoadStoreMultiple, Branch, Swi, Miscellaneous, DataProcessingShift;
    hide DataProcessingImmediate, RestoresCpsr, LoadsPc, FlagC, ReadReg, WriteReg, InsType, Bit7, Bit4;
    hide ToMiscellaneous;
    OthersControlled(s, ins);
    TransfersControlled(s, ins, u);
    if !(Bit7(ins) && Bit4(ins)) {
      ShiftControlled(s, ins);
    }
    ImmediateControlled(s, ins);
  }

  lemma ShiftControlled(s: State, ins: word)
    requires !(Bit7(ins) && Bit4(ins))
    ensures Controlled(s, DataProcessingShift(s, ins), RestoresCpsr(s, ins))
  {
    hide Controlled, Operate, ShiftByImmediate, ShiftByRegister, RestoresCpsr, ReadReg;
    OperateControlled(s, ins, ShifterValues(s, ins, FlagC(s)).value);
  }

  lemma ImmediateControlled(s: State, ins: word)
    ensures Controlled(s, DataProcessingImmediate(s, ins), RestoresCpsr(s, ins))
  {
    hide Controlled, Operate, RotatedImmediate, RestoresCpsr, FlagC;
    OperateControlled(s, ins, RotatedImmediate(RotateImm(ins), Immed8(ins), FlagC(s)));
  }

  lemma LoadStoreCodes(s: State, ins: word, u: Uninit)
    ensures LoadStore(s, ins, u).code in {0, UNDEFINED_INSTRUCTION}
    ensures LoadStoreMultiple(s, ins, u).code in {0, UNDEFINED_INSTRUCTION}
  {
    hide CalculateAddress, CalculateAddressMode3, WordOrByte, ReadReg, WriteReg, LoadHalf, LoadByte;
  }

  lemma OperateCodes(s: State, ins: word, op: Shifted)
    ensures Operate(s, ins, op).code in {0, UNDEFINED_INSTRUCTION}
  {
    hide Flags, Result, ReadReg, WriteReg;
  }

  // ----- steps and runs -----

  /** The next step executes an instruction that may change the CPSR below the flags. */
  predicate StepChangesControl(s: State, u: StepUninit)
  {
    var f := Fetch(s, u.fetch);
    f.status == 0 && Passes(CpsrOf(f.state), Cond(f.ins)) && ChangesControl(f.state, f.ins)
  }

  lemma StepControlled(s: State, u: StepUninit)
    ensures var s' := Step(s, u).state;
      && Framed(s, s')
      && (!StepChangesControl(s, u) ==> CpsrOf(s') % 0x1000_0000 == CpsrOf(s) % 0x1000_0000)
      && (StepChangesControl(s, u) ==>
            CpsrOf(s') == SpsrOf(s) || CpsrOf(s') == ClrBit(CpsrOf(s), 5) || CpsrOf(s') == SetBit(SpsrOf(s), 5))
  {
    hide Framed, WriteReg, ReadReg, ClrBit, SetBit, SpsrOf, Dispatch, ChangesControl, Passes, Cond, Exception;
    var f := Fetch(s, u.fetch);
    FetchFramed(s, u.fetch);
    FramedSpsr(s, f.state);
    DispatchControlled(f.state, f.ins, u.execute);
    var r := Execute(s, u);
    FramedThrough(s, f.state, Dispatch(f.state, f.ins, u.execute).state);
    Unchanged(f.state);
    HandlerKeeps(r, u.handler);
  }

  lemma FetchFramed(s: State, u: Uninit)
    ensures Framed(s, Fetch(s, u).state) && CpsrOf(Fetch(s, u).state) == CpsrOf(s)
    ensures Fetch(s, u).status in {0, -1}
  {
    hide Framed, WriteReg;
    WriteFramed(s, 15, Plus(s.regs[Slot(15, ModeOf(s))], 4));
  }

  /** The handler changes the state only on reset, which no instruction raises. */
  lemma HandlerKeeps(r: Outcome, u: Uninit)
    requires r.code in {0, -1, UNDEFINED_INSTRUCTION, SOFTWARE_INTERRUPT}
    ensures Exception(r.state, r.code % 0x100, u).state == r.state
  {
    hide LoadWord, ReadReg, WriteReg;
  }

  predicate IsReset(e: Event) { e.Raised? && e.exception == RESET }

  /** Only a reset from outside reaches past the program counter and the CPSR's flags. */
  lemma RaisedEffect(s: State, exception: byte, u: Uninit)
    ensures var s' := Exception(s, exception, u).state;
      && Framed(s, s')
      && s' == if exception == RESET then s.(regs := s.regs[CPSR := 0x1d3][15 := 0]) else s
  {
    hide LoadWord, ReadReg;
  }

  /** The event may change the CPSR below the flags: a step that executes one of the two kinds of
      instruction, or a reset. */
  predicate EventChangesControl(s: State, e: Event)
  {
    if e.Tick? then StepChangesControl(s, e.u) else IsReset(e)
  }

  lemma EventControlled(s: State, e: Event)
    ensures Framed(s, After(s, e))
    ensures !EventChangesControl(s, e) ==> CpsrOf(After(s, e)) % 0x1000_0000 == CpsrOf(s) % 0x1000_0000
  {
    hide Framed, Step, StepChangesControl, ClrBit, SetBit, SpsrOf, Exception;
    match e
    case Tick(u) => StepControlled(s, u);
    case Raised(exception, u) => RaisedEffect(s, exception, u);
  }

  /** Over any run of steps and outside exceptions, whatever uninitialised data it meets: the SPSRs and
      the size of the memory never change, and the CPSR below the flags changes only if some step
      executes one of the two kinds of instruction that may change it, or a reset arrives. */
  lemma {:induction false} RunKeepsControl(s: State, es: seq<Event>)
    ensures var s' := Run(s, es);
      && |s'.mem| == |s.mem|
      && (forall k :: 32 <= k < 37 ==> s'.regs[k] == s.regs[k])
      && ((forall i :: 0 <= i < |es| ==> !EventChangesControl(Run(s, es[..i]), es[i])) ==>
            CpsrOf(s') % 0x1000_0000 == CpsrOf(s) % 0x1000_0000)
    decreases |es|
  {
    hide After, EventChangesControl;
    if es != [] {
      var before := es[..|es| - 1];
      RunKeepsControl(s, before);
      EventControlled(Run(s, before), es[|es| - 1]);
      forall i | 0 <= i < |before| ensures before[..i] == es[..i] && before[i] == es[i] {
      }
    }
  }

  /** What holds from reset on. */
  predicate SinceReset(s: State)
  {
    && CpsrOf(s) % 0x1000_0000 in {0x1d3, 0x0, 0x20}
    && forall k :: 18 <= k < 37 && k != CPSR ==> s.regs[k] == 0
  }

  lemma {:induction false} RunSinceReset(s: State, es: seq<Event>)
    requires SinceReset(s)
    ensures SinceReset(Run(s, es))
    decreases |es|
  {
    hide After, SinceReset;
    if es != [] {
      var before := es[..|es| - 1];
      RunSinceReset(s, before);
      EventSinceReset(Run(s, before), es[|es| - 1]);
    }
  }

  lemma EventSinceReset(s: State, e: Event)
    requires SinceReset(s)
    ensures SinceReset(After(s, e))
  {
    hide Step, Exception;
    match e
    case Tick(u) => StepSinceReset(s, u);
    case Raised(exception, u) => RaisedEffect(s, exception, u);
  }

  lemma StepSinceReset(s: State, u: StepUninit)
    requires SinceReset(s)
    ensures SinceReset(Step(s, u).state)
  {
    hide Step, StepChangesControl, ClrBit, SetBit;
    StepControlled(s, u);
    LowModes(s);
    TBit(CpsrOf(s));
    TBit(0);
  }

  lemma LowModes(s: State)
    requires SinceReset(s)
    ensures LowMode(ModeOf(s)) && ModeOf(s) == CpsrOf(s) % 0x1000_0000 % 32 && SpsrOf(s) == 0
  {
  }

  lemma TBit(x: word)
    ensures x % 0x1000_0000 in {0x1d3, 0x0, 0x20} ==> ClrBit(x, 5) % 0x1000_0000 in {0x1d3, 0x0, 0x20}
    ensures x == 0 ==> SetBit(x, 5) == 0x20
  {
    hide SetBit, ClrBit;
    assert Pow2(5) == 32;
    ClrBitValue(x, 5);
    SetBitValue(x, 5);
  }

  /** The word a load multiple finds for the PC. */
  function PcWord(s: State, ins: word, u: Uninit): word
  {
    var b := AddrMultiple(s, ins);
    var l := LoadBelow(b.state, ins, b.start, 15, u);
    LoadWord(l.state, Home(b.start, ins, 15), Uninit(u.buffer, l.word))
  }

  /** The instructions that take the processor out of Supervisor mode: an S form with the PC as
      destination, or a load multiple of an odd PC. */
  predicate LeavesSupervisor(s: State, ins: word, u: Uninit)
  {
    ChangesControl(s, ins) && (InsType(ins) == 4 ==> PcWord(s, ins, u) % 2 == 1)
  }

  predicate StepLeaves(s: State, u: StepUninit)
  {
    var f := Fetch(s, u.fetch);
    f.status == 0 && Passes(CpsrOf(f.state), Cond(f.ins)) && LeavesSupervisor(f.state, f.ins, u.execute)
  }

  /** What a control-changing instruction puts into the CPSR. */
  lemma ControlValue(s: State, ins: word, u: Uninit)
    requires ChangesControl(s, ins)
    ensures CpsrOf(Dispatch(s, ins, u).state) ==
      if InsType(ins) != 4 then SpsrOf(s)
      else if PcWord(s, ins, u) % 2 == 0 then ClrBit(CpsrOf(s), 5)
      else SetBit(SpsrOf(s), 5)
  {
    hide ReadReg, WriteReg, Branch, Swi, Miscellaneous, Operate, ShiftByImmediate, ShiftByRegister;
    hide RotatedImmediate, LoadStore, LoadStoreMultiple, PcWord, RestoresCpsr, LoadsPc, ClrBit, SetBit, SpsrOf;
    hide FlagC, Opcode, BitL, Rd;
    match InsType(ins)
    case 0 => RestoredCpsr(s, ins, ShifterValues(s, ins, FlagC(s)).value);
    case 1 => RestoredCpsr(s, ins, RotatedImmediate(RotateImm(ins), Immed8(ins), FlagC(s)));
    case _ => LoadedCpsr(s, ins, u);
  }

  lemma RestoredCpsr(s: State, ins: word, op: Shifted)
    requires RestoresCpsr(s, ins)
    ensures CpsrOf(Operate(s, ins, op).state) == SpsrOf(s)
  {
    hide Operate, SpsrOf, ModeHasSpsr;
    PcDestination(s, ins, op);
  }

  lemma LoadedCpsr(s: State, ins: word, u: Uninit)
    requires LoadsPc(ins)
    ensures CpsrOf(LoadStoreMultiple(s, ins, u).state) ==
      if PcWord(s, ins, u) % 2 == 0 then ClrBit(CpsrOf(s), 5) else SetBit(SpsrOf(s), 5)
  {
    hide Framed, WriteReg, ReadReg, LoadWord, Home, GetBit, ClrBit, SetBit, LoadBelow, StoreBelow, LoadPc, SpsrOf;
    hide AddrMultiple;
    var b := AddrMultiple(s, ins);
    var l := LoadBelow(b.state, ins, b.start, 15, u);
    BlockFramed(s, ins);
    LoadBelowFramed(b.state, ins, b.start, 15, u);
    FramedThrough(s, b.state, l.state);
    FramedSpsr(s, l.state);
    LoadPcFramed(l.state, PcWord(s, ins, u));
  }

  /** From a state reached since reset, a step is in mode 0 afterwards exactly when it was before or the
      step executes one of those instructions. */
  lemma StepMode(s: State, u: StepUninit)
    requires SinceReset(s)
    ensures ModeOf(Step(s, u).state) == 0 <==> ModeOf(s) == 0 || StepLeaves(s, u)
    ensures ModeOf(Step(s, u).state) in {SVC, 0}
  {
    hide WriteReg, ReadReg, ClrBit, SetBit, SpsrOf, Dispatch, ChangesControl, Passes, Cond, Exception, PcWord;
    hide InsType, SinceReset, Framed;
    var f, s' := Fetch(s, u.fetch), Step(s, u).state;
    StepSinceReset(s, u);
    LowModes(s);
    LowModes(s');
    FetchFramed(s, u.fetch);
    FramedSpsr(s, f.state);
    StepControlled(s, u);
    if StepChangesControl(s, u) {
      DispatchControlled(f.state, f.ins, u.execute);
      HandlerKeeps(Dispatch(f.state, f.ins, u.execute), u.handler);
      ControlValue(f.state, f.ins, u.execute);
      TBitModes(s, CpsrOf(s));
    }
  }

  lemma TBitModes(s: State, x: word)
    requires SinceReset(s) && x == CpsrOf(s)
    ensures ClrBit(x, 5) % 32 == x % 32 && SetBit(0, 5) % 32 == 0
    ensures ModeOf(s) == SVC <==> x % 0x1000_0000 == 0x1d3
  {
    hide SetBit, ClrBit;
    assert Pow2(5) == 32;
    ClrBitValue(x, 5);
    SetBitValue(0, 5);
    TBit(0);
  }

  /** From a state reached since reset, an event leaves the processor in mode 0 exactly when it is no reset
      and the processor was there before or executes one of those instructions: nothing but a reset from
      outside leads out of mode 0. */
  lemma EventMode(s: State, e: Event)
    requires SinceReset(s)
    ensures ModeOf(After(s, e)) == 0 <==> !IsReset(e) && (ModeOf(s) == 0 || Leaves(s, e))
    ensures IsReset(e) ==> ModeOf(After(s, e)) == SVC && CpsrOf(After(s, e)) == 0x1d3 && After(s, e).regs[15] == 0
  {
    hide Step, StepLeaves, SinceReset, Exception;
    match e
    case Tick(u) => StepMode(s, u);
    case Raised(exception, u) => RaisedEffect(s, exception, u);
  }

  predicate Leaves(s: State, e: Event) { e.Tick? && StepLeaves(s, e.u) }

  /** Some step of the run executed one of those instructions, and no reset followed. */
  predicate HasLeft(s: State, es: seq<Event>)
  {
    exists i :: 0 <= i < |es| && Leaves(Run(s, es[..i]), es[i]) && forall j :: i < j < |es| ==> !IsReset(es[j])
  }

  lemma HasLeftLast(s: State, es: seq<Event>)
    requires es != []
    ensures var before, last := es[..|es| - 1], es[|es| - 1];
      HasLeft(s, es) <==> Leaves(Run(s, before), last) || (HasLeft(s, before) && !IsReset(last))
  {
    hide Run, Leaves, IsReset;
    var n := |es| - 1;
    var before := es[..n];
    forall i | 0 <= i < n ensures before[..i] == es[..i] && before[i] == es[i] {
    }
    if HasLeft(s, before) && !IsReset(es[n]) {
      var i :| 0 <= i < n && Leaves(Run(s, before[..i]), before[i]) && forall j :: i < j < n ==> !IsReset(before[j]);
      assert Leaves(Run(s, es[..i]), es[i]) && forall j :: i < j < |es| ==> !IsReset(es[j]);
    }
    if HasLeft(s, es) && !Leaves(Run(s, before), es[n]) {
      var i :| 0 <= i < |es| && Leaves(Run(s, es[..i]), es[i]) && forall j :: i < j < |es| ==> !IsReset(es[j]);
      assert Leaves(Run(s, before[..i]), before[i]) && forall j :: i < j < n ==> !IsReset(before[j]);
    }
  }

  /** Over a run from such a state in Supervisor mode: the mode is 0 at the end exactly when the run has
      executed one of those instructions and has not been reset since. */
  lemma {:induction false} RunMode(s: State, es: seq<Event>)
    requires SinceReset(s) && ModeOf(s) == SVC
    ensures ModeOf(Run(s, es)) == 0 <==> HasLeft(s, es)
    decreases |es|
  {
    hide After, SinceReset, StepLeaves, ModeOf, HasLeft;
    if es != [] {
      var before, last := es[..|es| - 1], es[|es| - 1];
      RunMode(s, before);
      RunSinceReset(s, before);
      EventMode(Run(s, before), last);
      HasLeftLast(s, es);
    } else {
      assert !HasLeft(s, es) by { NothingLeft(s); }
    }
  }

  lemma NothingLeft(s: State)
    ensures !HasLeft(s, [])
  {
  }

  /** After creation the processor is in Supervisor mode with interrupts disabled, the PC at 0 and the stack
      pointer at the end of memory; nothing else has been written. */
  lemma AfterReset(regs: file, mem: seq<byte>, be: bool)
    requires |mem| <= 0x7FFF_FFFF
    ensures var s := Created(regs, mem, be);
      && s.mem == mem && s.be == be && CpsrOf(s) == 0x1d3 && ModeOf(s) == SVC
      && s.regs[15] == 0 && ReadReg(s, 13) == |mem| && ReadReg(s, 15) == 4
      && (forall k :: 0 <= k < 37 && k != CPSR && k != 15 && k != Slot(13, SVC) ==> s.regs[k] == regs[k])
  {
    hide AndW;
    EvenWord();
  }

  lemma EvenWord()
    ensures AndW(4, 0xFFFF_FFFD) == 4
  {
  }

  lemma CreatedSinceReset(mem: seq<byte>, be: bool)
    requires |mem| <= 0x7FFF_FFFF
    ensures var s := Created(seq(37, _ => 0), mem, be); SinceReset(s) && ModeOf(s) == SVC
  {
  }

  /** Every state that can be reached from reset, whatever is executed and raised: the mode is the undefined
      number 0 if one of those instructions was executed after the last reset, and Supervisor otherwise,
      never User; the CPSR below the flags is one of three values; every SPSR is still zero, and so are
      the banked registers of the Abort, Undefined, IRQ and FIQ modes. */
  lemma ReachableFromReset(mem: seq<byte>, be: bool, es: seq<Event>)
    requires |mem| <= 0x7FFF_FFFF
    ensures var s0 := Created(seq(37, _ => 0), mem, be);
      var s := Run(s0, es);
      && ModeOf(s) == (if HasLeft(s0, es) then 0 else SVC)
      && CpsrOf(s) % 0x1000_0000 in {0x1d3, 0x0, 0x20}
      && (forall k :: 18 <= k < 37 && k != CPSR ==> s.regs[k] == 0)
  {
    hide Run, ModeOf, Created, HasLeft;
    var s0 := Created(seq(37, _ => 0), mem, be);
    CreatedSinceReset(mem, be);
    RunSinceReset(s0, es);
    LowModes(Run(s0, es));
    RunMode(s0, es);
  }
}
