/** What a single step may touch, and how a program ends. */
module StepLaws {
  import opened Words
  import opened RegistersSpec
  import opened RegistersLaws
  import opened Machine
  import opened Decode
  import opened Conditions
  import opened ShifterSpec
  import opened DataProcessingSpec
  import opened LoadStoreSpec
  import opened MultipleSpec
  import opened BranchSpec
  import opened ExceptionSpec
  import opened InstructionSpec
  import opened DispatchLaws
  import opened MultipleLaws
  import opened RunLaws
  import M = MemorySpec

  // ----- the registers an instruction names as destinations -----

  predicate NamedByTransfer(ins: word, q: nat)
  {
    (q == Rn(ins) && (!BitP(ins) || BitW(ins))) || (BitL(ins) && q == Rd(ins))
  }

  predicate NamedByOperation(ins: word, q: nat) { !IsCompare(Opcode(ins)) && q == Rd(ins) }

  predicate Named(ins: word, q: nat)
  {
    match InsType(ins)
    case 0 =>
      if ToMiscellaneous(ins) then q == Rd(ins)
      else if Bit7(ins) && Bit4(ins) then NamedByTransfer(ins, q)
      else NamedByOperation(ins, q)
    case 1 => NamedByOperation(ins, q)
    case 2 => NamedByTransfer(ins, q)
    case 3 => NamedByTransfer(ins, q)
    case 4 => (q == Rn(ins) && BitW(ins)) || (BitL(ins) && Listed(ins, q))
    case 5 => q == 15 || (BitP(ins) && q == 14)
    case 6 => false
    case _ => q == 14
  }

  predicate StoresToMemory(ins: word)
  {
    match InsType(ins)
    case 0 => !ToMiscellaneous(ins) && Bit7(ins) && Bit4(ins) && !BitL(ins)
    case 2 => !BitL(ins)
    case 3 => !BitL(ins)
    case 4 => !BitL(ins) && !BitB(ins)
    case _ => false
  }

  /** Slot `k` is not where the current mode keeps any register of `named`. */
  predicate Elsewhere(s: State, k: nat, named: set<nat>)
  {
    k < 31 && forall q :: q in named && q < 16 ==> Slot(q, ModeOf(s)) != k
  }

  lemma WriteElsewhere(s: State, r: nat, v: word, k: nat, named: set<nat>)
    requires r < 16 && r in named && Elsewhere(s, k, named)
    ensures WriteReg(s, r, v).regs[k] == s.regs[k] && Elsewhere(WriteReg(s, r, v), k, named)
  {
  }

  lemma IndexedElsewhere(s: State, ins: word, index: word, k: nat, named: set<nat>)
    requires BitP(ins) || !BitW(ins)
    requires Elsewhere(s, k, named) && (!BitP(ins) || BitW(ins) ==> Rn(ins) in named)
    ensures var t := Indexed(s, ins, index).state;
      t.mem == s.mem && t.regs[k] == s.regs[k] && Elsewhere(t, k, named)
  {
    hide Elsewhere, WriteReg, ReadReg;
    if !BitP(ins) || BitW(ins) {
      WriteElsewhere(s, Rn(ins), Offset(ReadReg(s, Rn(ins)), BitU(ins), index), k, named);
    }
  }

  lemma TransferElsewhere(s: State, ins: word, u: Uninit, k: nat, named: set<nat>)
    requires Elsewhere(s, k, named) && forall q: nat :: q < 16 && NamedByTransfer(ins, q) ==> q in named
    ensures var t := LoadStore(s, ins, u).state;
      t.regs[k] == s.regs[k] && (BitL(ins) ==> t.mem == s.mem)
  {
    hide Elsewhere, WriteReg, ReadReg, Indexed, Index2, Index3, LoadWord, LoadHalf, LoadByte, SignExtend8;
    hide SignExtend16;
    if BitP(ins) || !BitW(ins) {
      IndexedElsewhere(s, ins, Index2(s, ins), k, named);
      var first := CalculateAddress(s, ins);
      if first.address != NO_ADDRESS {
        if Bit26(ins) {
          WordElsewhere(first.state, ins, first.address, u, k, named);
        } else {
          IndexedElsewhere(first.state, ins, Index3(first.state, ins), k, named);
          var second := CalculateAddressMode3(first.state, ins, u.value);
          HalfElsewhere(second.state, ins, second.address, u, k, named);
        }
      }
    }
  }

  lemma WordElsewhere(s: State, ins: word, a: word, u: Uninit, k: nat, named: set<nat>)
    requires Elsewhere(s, k, named) && (BitL(ins) ==> Rd(ins) in named)
    ensures var t := WordOrByte(s, ins, a, u); t.regs[k] == s.regs[k] && (BitL(ins) ==> t.mem == s.mem)
  {
    hide Elsewhere, WriteReg, ReadReg, LoadWord, LoadByte;
    if BitL(ins) {
      WriteElsewhere(s, Rd(ins), if BitB(ins) then LoadByte(s, a, u) else LoadWord(s, a, u), k, named);
    }
  }

  lemma HalfElsewhere(s: State, ins: word, a: word, u: Uninit, k: nat, named: set<nat>)
    requires Elsewhere(s, k, named) && (BitL(ins) ==> Rd(ins) in named)
    ensures var t := HalfOrSigned(s, ins, a, u).state; t.regs[k] == s.regs[k] && (BitL(ins) ==> t.mem == s.mem)
  {
    hide Elsewhere, WriteReg, ReadReg, LoadHalf, LoadByte, SignExtend8, SignExtend16;
    if BitL(ins) && Rd(ins) != 15 {
      WriteElsewhere(s, Rd(ins), LoadHalf(s, a, u), k, named);
      WriteElsewhere(s, Rd(ins), SignExtend8(LoadByte(s, a, u)), k, named);
      WriteElsewhere(s, Rd(ins), SignExtend16(LoadHalf(s, a, u)), k, named);
    }
  }

  lemma {:induction false} LoadsElsewhere(s: State, ins: word, start: word, n: nat, u: Uninit, k: nat, named: set<nat>)
    requires n <= 16 && Elsewhere(s, k, named) && forall q: nat :: q < n && Listed(ins, q) ==> q in named
    ensures var t := LoadBelow(s, ins, start, n, u).state; t.regs[k] == s.regs[k] && Elsewhere(t, k, named)
  {
    hide Elsewhere, WriteReg, LoadWord, Home, GetBit;
    if n > 0 {
      LoadsElsewhere(s, ins, start, n - 1, u, k, named);
      if Listed(ins, n - 1) {
        var l := LoadBelow(s, ins, start, n - 1, u);
        WriteElsewhere(l.state, n - 1, LoadWord(l.state, Home(start, ins, n - 1), Uninit(u.buffer, l.word)), k, named);
      }
    }
  }

  lemma MultipleElsewhere(s: State, ins: word, u: Uninit, k: nat, named: set<nat>)
    requires Elsewhere(s, k, named) && (BitW(ins) ==> Rn(ins) in named)
    requires BitL(ins) ==> forall q: nat :: q < 16 && Listed(ins, q) ==> q in named
    ensures var t := LoadStoreMultiple(s, ins, u).state;
      t.regs[k] == s.regs[k] && (BitL(ins) || BitB(ins) ==> t.mem == s.mem)
  {
    hide Elsewhere, WriteReg, ReadReg, LoadWord, Home, GetBit, LoadBelow, StoreBelow, Count, AndW, ClrBit, SetBit;
    if !BitB(ins) {
      var b := AddrMultiple(s, ins);
      var base, size := ReadReg(s, Rn(ins)), 4 * Count(ins, 16);
      if BitW(ins) {
        WriteElsewhere(s, Rn(ins), if BitU(ins) then Plus(base, size) else Minus(base, size), k, named);
      }
      if BitL(ins) {
        LoadsElsewhere(b.state, ins, b.start, 15, u, k, named);
        var l := LoadBelow(b.state, ins, b.start, 15, u);
        if Listed(ins, 15) {
          var w := LoadWord(l.state, Home(b.start, ins, 15), Uninit(u.buffer, l.word));
          WriteElsewhere(l.state, 15, AndW(w, 0xFFFF_FFFE), k, named);
          BelowCpsr(l.state, k, named);
        }
      }
    }
  }

  lemma BelowCpsr(s: State, k: nat, named: set<nat>)
    requires Elsewhere(s, k, named)
    ensures k < 31
  {
  }

  lemma OperateElsewhere(s: State, ins: word, op: Shifted, k: nat, named: set<nat>)
    requires Elsewhere(s, k, named) && (!IsCompare(Opcode(ins)) ==> Rd(ins) in named)
    ensures Operate(s, ins, op).state.regs[k] == s.regs[k] && Operate(s, ins, op).state.mem == s.mem
  {
    hide Elsewhere, WriteReg, ReadReg, Flags, Result;
    BelowCpsr(s, k, named);
    if !IsCompare(Opcode(ins)) {
      WriteElsewhere(s, Rd(ins), Result(Opcode(ins), ReadReg(s, Rn(ins)), op.operand, FlagC(s)), k, named);
    }
  }

  lemma BranchElsewhere(s: State, ins: word, k: nat, named: set<nat>)
    requires Elsewhere(s, k, named)
    ensures 15 in named && (BitP(ins) ==> 14 in named) ==> Branch(s, ins).regs[k] == s.regs[k]
    ensures 14 in named ==> Swi(s).state.regs[k] == s.regs[k]
    ensures Rd(ins) in named ==> Miscellaneous(s, ins).state.regs[k] == s.regs[k]
    ensures Branch(s, ins).mem == Swi(s).state.mem == Miscellaneous(s, ins).state.mem == s.mem
  {
    hide Elsewhere, WriteReg, ReadReg, SpsrOf, SignExtend30, Lsl;
    var pc := ReadReg(s, 15);
    if 14 in named {
      WriteElsewhere(s, 14, Minus(pc, 4), k, named);
    }
    if 15 in named && (BitP(ins) ==> 14 in named) {
      var t := if BitP(ins) then WriteReg(s, 14, Minus(pc, 4)) else s;
      WriteElsewhere(t, 15, Plus(pc, Lsl(SignExtend30(ins % 0x100_0000), 2)), k, named);
    }
    if Rd(ins) in named {
      WriteElsewhere(s, Rd(ins), if BitB(ins) then SpsrOf(s) else CpsrOf(s), k, named);
    }
  }

  /** An instruction changes no register but those it names, as the current mode sees them: all other
      registers of the mode, and every register banked for another mode, keep their values; and only
      stores change memory. */
  lemma DispatchTouchesOnlyNamed(s: State, ins: word, u: Uninit, k: nat)
    requires k < 31 && forall q: nat :: q < 16 && Named(ins, q) ==> Slot(q, ModeOf(s)) != k
    ensures Dispatch(s, ins, u).state.regs[k] == s.regs[k]
    ensures !StoresToMemory(ins) ==> Dispatch(s, ins, u).state.mem == s.mem
  {
    hide WriteReg, ReadReg, Branch, Swi, Miscellaneous, LoadStore, LoadStoreMultiple, Operate, ShiftByImmediate;
    hide ShiftByRegister, RotatedImmediate, Slot, GetBit, InsType, Bit7, Bit4, BitP, BitU, BitL, BitW, BitB, Rn, Rd;
    hide Opcode, FlagC;
    var named: set<nat> := set q: nat | q < 16 && Named(ins, q);
    assert Elsewhere(s, k, named);
    BranchElsewhere(s, ins, k, named);
    match InsType(ins)
    case 0 =>
      if ToMiscellaneous(ins) {
      } else if Bit7(ins) && Bit4(ins) {
        TransferElsewhere(s, ins, u, k, named);
      } else {
        OperateElsewhere(s, ins, ShifterValues(s, ins, FlagC(s)).value, k, named);
      }
    case 1 => OperateElsewhere(s, ins, RotatedImmediate(RotateImm(ins), Immed8(ins), FlagC(s)), k, named);
    case 2 => TransferElsewhere(s, ins, u, k, named);
    case 3 => TransferElsewhere(s, ins, u, k, named);
    case 4 => MultipleElsewhere(s, ins, u, k, named);
    case _ =>
  }

  // ----- steps -----

  /** The word at the program counter, when all of it is in memory. */
  predicate CanFetch(s: State) { s.regs[15] + 4 <= |s.mem| }

  function NextInstruction(s: State): word
    requires CanFetch(s)
  {
    WordAt(s, s.regs[15])
  }

  /** The state with the program counter stepped. */
  function Advanced(s: State): State { s.(regs := s.regs[15 := Plus(s.regs[15], 4)]) }

  lemma FetchResult(s: State, u: Uninit)
    ensures Fetch(s, u).state == Advanced(s)
    ensures CanFetch(s) ==> Fetch(s, u).status == 0 && Fetch(s, u).ins == NextInstruction(s)
    ensures Fetch(s, u).status != 0 <==> s.regs[15] >= |s.mem|
  {
    hide M.Word;
    if CanFetch(s) {
      assert M.Bytes(s.mem, s.regs[15], 4, u.buffer) == s.mem[s.regs[15]..s.regs[15] + 4];
    }
  }

  /** A step moves the program counter to the next word unless the instruction it executes names R15;
      in particular when the fetch or the condition fails. */
  lemma StepAdvances(s: State, u: StepUninit)
    ensures var f := Fetch(s, u.fetch);
      (f.status == 0 && Passes(CpsrOf(f.state), Cond(f.ins)) && Named(f.ins, 15))
      || Step(s, u).state.regs[15] == Plus(s.regs[15], 4)
  {
    hide ReadReg, WriteReg, Dispatch, Named, Passes, Cond, LoadWord;
    var f := Fetch(s, u.fetch);
    FetchResult(s, u.fetch);
    if f.status == 0 && Passes(CpsrOf(f.state), Cond(f.ins)) && !Named(f.ins, 15) {
      forall q: nat | q < 16 && Named(f.ins, q) ensures Slot(q, ModeOf(f.state)) != 15 {
        SlotInjective(q, 15, ModeOf(f.state));
      }
      DispatchTouchesOnlyNamed(f.state, f.ins, u.execute, 15);
    }
    ExceptionKeepsPc(s, u);
  }

  lemma ExceptionKeepsPc(s: State, u: StepUninit)
    ensures Step(s, u).state == Execute(s, u).state
  {
    hide ReadReg, WriteReg, Dispatch, Passes, Cond, LoadWord;
    var f := Fetch(s, u.fetch);
    FetchResult(s, u.fetch);
    NoResetCode(f.state, f.ins, u.execute);
  }

  /** No instruction returns the reset code. */
  lemma NoResetCode(s: State, ins: word, u: Uninit)
    ensures Dispatch(s, ins, u).code in {0, -1, UNDEFINED_INSTRUCTION, SOFTWARE_INTERRUPT}
  {
    hide Framed, ReadReg, WriteReg, Dispatch, ChangesControl;
    DispatchControlled(s, ins, u);
  }

  /** The code the handler gives a software interrupt of each number. */
  function Verdict(number: nat): int
  {
    if number == 0x12_3456 then END_SIMULATION else if number == 1 then 0 else SOFTWARE_INTERRUPT
  }

  /** A step over a software interrupt: the handler fetches a word a second time to find its number, and
      by that number ends the program (0x123456), prints the low byte of R0 (1), or reports the interrupt.
      The word is the instruction itself exactly when bit 1 of its address is clear, and exactly then the
      link register gets the address of the next one. */
  lemma SoftwareInterrupt(s: State, u: StepUninit)
    requires CanFetch(s)
    requires Passes(CpsrOf(s), Cond(NextInstruction(s))) && InsType(NextInstruction(s)) == 7
    ensures var pc, s' := s.regs[15], Step(s, u).state;
      var number := WordAt(s, Shown(pc)) % 0x100_0000;
      && Step(s, u).code == Verdict(number)
      && StepPrints(s, u) == (if number == 1 then [ReadReg(s, 0) % 0x100] else [])
      && s' == WriteReg(Advanced(s), 14, Shown(Plus(pc, 4)))
      && ReadReg(s', 14) == Shown(Plus(pc, 4))
    ensures var pc := s.regs[15];
      (Shown(pc) == pc <==> pc / 2 % 2 == 0) && (Shown(Plus(pc, 4)) == Plus(pc, 4) <==> pc / 2 % 2 == 0)
  {
    hide ReadReg, WriteReg, Passes, Cond, InsType, M.Word, LoadWord, Fetch, Plus, Minus, Exception, Printed;
    hide LoadStore, LoadStoreMultiple, DataProcessingShift, DataProcessingImmediate, Branch, Miscellaneous;
    hide ToMiscellaneous, Bit7, Bit4;
    FetchResult(s, u.fetch);
    var f := Fetch(s, u.fetch);
    var pc := s.regs[15];
    NextPc(pc);
    PcAhead(f.state);
    ReadAfterFetch(s, f.state, 0);
    var t := WriteReg(f.state, 14, Shown(Plus(pc, 4)));
    assert Execute(s, u) == Outcome(t, SOFTWARE_INTERRUPT);
    SwiHandled(f.state, pc, u.handler);
  }

  lemma ReadAfterFetch(s: State, t: State, r: nat)
    requires r < 15 && t == s.(regs := s.regs[15 := Plus(s.regs[15], 4)])
    ensures ReadReg(t, r) == ReadReg(s, r)
  {
    SlotInjective(r, 15, ModeOf(s));
  }

  lemma SwiHandled(s: State, pc: word, u: Uninit)
    requires pc + 4 <= |s.mem| && s.regs[15] == Plus(pc, 4)
    ensures var t := WriteReg(s, 14, Shown(Plus(pc, 4)));
      var number := WordAt(s, Shown(pc)) % 0x100_0000;
      && Exception(t, SOFTWARE_INTERRUPT, u) == Outcome(t, Verdict(number))
      && Printed(t, SOFTWARE_INTERRUPT, u) == (if number == 1 then [ReadReg(s, 0) % 0x100] else [])
      && ReadReg(t, 14) == Shown(Plus(pc, 4))
  {
    hide ReadReg, WriteReg, M.Word, LoadWord, Plus, Minus;
    NextPc(pc);
    PcAhead(s);
    EightBack(ReadReg(s, 15));
    var next := Shown(Plus(pc, 4));
    var t := WriteReg(s, 14, next);
    ReadAfterWrite(s, 14, next, 15);
    ReadAfterWrite(s, 14, next, 14);
    ReadAfterWrite(s, 14, next, 0);
    LoadInRange(t, Shown(pc), u);
  }

  lemma EightBack(x: word)
    ensures Minus(x, 8) == Minus(Minus(x, 4), 4)
  {
    hide Wrap;
    WrapSum(x - 4, -4);
  }

  lemma NextPc(pc: word)
    ensures Plus(pc, 4) / 2 % 2 == pc / 2 % 2 && Minus(Shown(Plus(pc, 4)), 4) == Shown(pc)
  {
    hide Plus, Minus;
    FourAhead(pc);
  }

  /** Wherever bit 1 of its address is clear, a word with bits 27..25 set is handled by its own low 24
      bits: the program ends at SWI 0x123456 or at the coprocessor operation with those low bits. */
  lemma SwiEndsProgram(s: State, u: StepUninit)
    requires CanFetch(s) && s.regs[15] / 2 % 2 == 0
    requires Passes(CpsrOf(s), Cond(NextInstruction(s))) && InsType(NextInstruction(s)) == 7
    ensures Step(s, u).code == Verdict(NextInstruction(s) % 0x100_0000)
    ensures Step(s, u).code == END_SIMULATION <==> NextInstruction(s) % 0x100_0000 == 0x12_3456
    ensures Step(s, u).state.mem == s.mem && ReadReg(Step(s, u).state, 14) == Plus(s.regs[15], 4)
  {
    hide ReadReg, Plus, Step, Passes, Cond, InsType, M.Word;
    SoftwareInterrupt(s, u);
  }

  predicate IsInterrupt(ins: word) { ins / 0x100_0000 % 16 == 15 }

  /** CDP, MCR and MRC. */
  predicate IsCoprocessorOperation(ins: word) { ins / 0x100_0000 % 16 == 14 }

  /** A coprocessor operation does everything the software interrupt with the same condition and the same
      low 24 bits would do in its place, instead of being undefined: neither the decoder nor the handler
      reads bit 24. */
  lemma CoprocessorOperation(s: State, t: State, u: StepUninit)
    requires CanFetch(s) && Passes(CpsrOf(s), Cond(NextInstruction(s)))
    requires t.regs == s.regs && CanFetch(t) && s.regs[15] / 2 % 2 == 0
    requires IsCoprocessorOperation(NextInstruction(s)) && NextInstruction(t) == NextInstruction(s) + 0x100_0000
    ensures IsInterrupt(NextInstruction(t)) && Step(s, u).state.mem == s.mem
    ensures Step(s, u) == Outcome(Step(t, u).state.(mem := s.mem, be := s.be), Step(t, u).code)
    ensures StepPrints(s, u) == StepPrints(t, u)
  {
    hide WriteReg, ReadReg, Slot, Passes, Cond, InsType, WordAt, Plus, Step, StepPrints;
    SetBit24(NextInstruction(s));
    SoftwareInterrupt(s, u);
    SoftwareInterrupt(t, u);
    var next := s.regs[15 := Plus(s.regs[15], 4)];
    SameWrite(s.(regs := next), t.(regs := next), 14, Shown(Plus(s.regs[15], 4)));
    SameRead(s, t, 0);
  }

  lemma SameWrite(s: State, t: State, r: nat, v: word)
    requires r < 16 && s.regs == t.regs
    ensures WriteReg(s, r, v) == WriteReg(t, r, v).(mem := s.mem, be := s.be)
  {
  }

  lemma SetBit24(ins: word)
    requires IsCoprocessorOperation(ins)
    ensures ins + 0x100_0000 < 0x1_0000_0000 && IsInterrupt(ins + 0x100_0000)
    ensures Cond(ins + 0x100_0000) == Cond(ins) && (ins + 0x100_0000) % 0x100_0000 == ins % 0x100_0000
    ensures InsType(ins) == InsType(ins + 0x100_0000) == 7
  {
    var x := ins / 0x100_0000;
    assert (ins + 0x100_0000) / 0x100_0000 == x + 1;
    assert ins / 0x200_0000 == x / 2 && (ins + 0x100_0000) / 0x200_0000 == (x + 1) / 2;
    assert ins / 0x1000_0000 == x / 16 && (ins + 0x100_0000) / 0x1000_0000 == (x + 1) / 16;
  }

  /** LDC and STC are reported undefined. */
  lemma CoprocessorTransfer(s: State, u: StepUninit)
    requires CanFetch(s) && Passes(CpsrOf(s), Cond(NextInstruction(s))) && InsType(NextInstruction(s)) == 6
    ensures Step(s, u) == Outcome(Advanced(s), UNDEFINED_INSTRUCTION)
  {
    hide ReadReg, WriteReg, Passes, Cond, InsType, LoadWord, Fetch, Plus, NextInstruction;
    FetchResult(s, u.fetch);
  }
}
