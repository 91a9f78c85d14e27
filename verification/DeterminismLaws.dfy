/** When a step, and a run, owe nothing to the uninitialised data of the C program. */
module DeterminismLaws {
  import opened Words
  import opened Machine
  import opened Decode
  import opened Conditions
  import opened ShifterSpec
  import opened LoadStoreSpec
  import opened MultipleSpec
  import opened BranchSpec
  import opened ExceptionSpec
  import opened DataProcessingSpec
  import opened InstructionSpec
  import opened MultipleLaws
  import opened RunLaws
  import opened StepLaws
  import M = MemorySpec

  // ----- accesses -----

  /** A read that lies in memory does not depend on what the C locals held. */
  lemma ReadsAgree(s: State, a: word, u: Uninit, u': Uninit)
    ensures a < |s.mem| ==> LoadByte(s, a, u) == LoadByte(s, a, u')
    ensures a + 2 <= |s.mem| ==> LoadHalf(s, a, u) == LoadHalf(s, a, u')
    ensures a + 4 <= |s.mem| ==> LoadWord(s, a, u) == LoadWord(s, a, u')
  {
    hide M.Half, M.Word;
    if a + 2 <= |s.mem| {
      assert M.Bytes(s.mem, a, 2, u.buffer) == M.Bytes(s.mem, a, 2, u'.buffer);
    }
    if a + 4 <= |s.mem| {
      LoadInRange(s, a, u);
      LoadInRange(s, a, u');
    }
  }

  /** How many bytes a single load or store reads once it has its address. */
  function Width(ins: word): nat
  {
    if !BitL(ins) then 0
    else if Bit26(ins) then (if BitB(ins) then 1 else 4)
    else if Rd(ins) == 15 || ins / 0x10 % 16 !in {0xB, 0xD, 0xF} then 0
    else if ins / 0x10 % 16 == 0xD then 1
    else 2
  }

  predicate Within(s: State, a: word, width: nat) { width > 0 ==> a + width <= |s.mem| }

  /** All that an instruction reads lies in memory. Stores, and whatever is refused, read nothing. */
  predicate TransferWithin(s: State, ins: word)
  {
    var first := CalculateAddress(s, ins);
    first.address == NO_ADDRESS
    || Within(s, if Bit26(ins) then first.address else CalculateAddressMode3(first.state, ins, 0).address, Width(ins))
  }

  predicate BlockWithin(s: State, ins: word)
  {
    BitL(ins) && !BitB(ins) ==>
      forall i: nat :: i < 16 && Listed(ins, i) ==> Home(AddrMultiple(s, ins).start, ins, i) + 4 <= |s.mem|
  }

  predicate ReadsWithin(s: State, ins: word)
  {
    match InsType(ins)
    case 0 => !ToMiscellaneous(ins) && Bit7(ins) && Bit4(ins) ==> TransferWithin(s, ins)
    case 2 => TransferWithin(s, ins)
    case 3 => TransferWithin(s, ins)
    case 4 => BlockWithin(s, ins)
    case _ => true
  }

  lemma TransferDetermined(s: State, ins: word, u: Uninit, u': Uninit)
    requires TransferWithin(s, ins)
    ensures LoadStore(s, ins, u) == LoadStore(s, ins, u')
  {
    hide ReadReg, WriteReg, Index2, Index3, LoadByte, LoadHalf, LoadWord, SignExtend8, SignExtend16, Bit26, BitB;
    hide BitL, BitP, BitU, BitW, Rd, Rn, M.WriteByte, M.WriteHalf, M.WriteWord;
    var first := CalculateAddress(s, ins);
    if first.address != NO_ADDRESS {
      var second := CalculateAddressMode3(first.state, ins, 0);
      ReadsAgree(first.state, first.address, u, u');
      ReadsAgree(second.state, second.address, u, u');
    }
  }

  lemma {:induction false} LoadsDetermined(s: State, ins: word, start: word, n: nat, u: Uninit, u': Uninit)
    requires n <= 16
    requires forall i: nat :: i < n && Listed(ins, i) ==> Home(start, ins, i) + 4 <= |s.mem|
    ensures LoadBelow(s, ins, start, n, u).state == LoadBelow(s, ins, start, n, u').state
  {
    hide GetBit, Home, WriteReg, LoadWord;
    if n > 0 {
      LoadsDetermined(s, ins, start, n - 1, u, u');
      if Listed(ins, n - 1) {
        var l, l' := LoadBelow(s, ins, start, n - 1, u), LoadBelow(s, ins, start, n - 1, u');
        ReadsAgree(l.state, Home(start, ins, n - 1), Uninit(u.buffer, l.word), Uninit(u'.buffer, l'.word));
      }
    }
  }

  lemma MultipleDetermined(s: State, ins: word, u: Uninit, u': Uninit)
    requires BlockWithin(s, ins)
    ensures LoadStoreMultiple(s, ins, u) == LoadStoreMultiple(s, ins, u')
  {
    hide GetBit, Home, WriteReg, ReadReg, LoadWord, LoadBelow, StoreBelow, Count, LoadPc;
    if BitL(ins) && !BitB(ins) {
      var b := AddrMultiple(s, ins);
      LoadsDetermined(b.state, ins, b.start, 15, u, u');
      var l, l' := LoadBelow(b.state, ins, b.start, 15, u), LoadBelow(b.state, ins, b.start, 15, u');
      ReadsAgree(l.state, Home(b.start, ins, 15), Uninit(u.buffer, l.word), Uninit(u'.buffer, l'.word));
    }
  }

  lemma DispatchDetermined(s: State, ins: word, u: Uninit, u': Uninit)
    requires ReadsWithin(s, ins)
    ensures Dispatch(s, ins, u) == Dispatch(s, ins, u')
  {
    hide LoadStore, LoadStoreMultiple, TransferWithin, BlockWithin, DataProcessingShift, DataProcessingImmediate;
    hide Branch, Swi, Miscellaneous, InsType, Bit7, Bit4, ToMiscellaneous;
    match InsType(ins)
    case 0 =>
      if !ToMiscellaneous(ins) && Bit7(ins) && Bit4(ins) {
        TransferDetermined(s, ins, u, u');
      }
    case 2 => TransferDetermined(s, ins, u, u');
    case 3 => TransferDetermined(s, ins, u, u');
    case 4 => MultipleDetermined(s, ins, u, u');
    case _ =>
  }

  // ----- steps -----

  /** The instruction word lies in memory or begins past its end, where the fetch fails; and so does all
      that the instruction reads, if its condition passes. */
  predicate StepWithin(s: State)
  {
    s.regs[15] >= |s.mem|
    || (CanFetch(s)
        && (Passes(CpsrOf(s), Cond(NextInstruction(s))) ==> ReadsWithin(Advanced(s), NextInstruction(s))))
  }

  /** Then a step does and prints the same whatever the C locals held. The second look that the exception
      handler takes at a software interrupt needs no condition of its own. */
  lemma StepDetermined(s: State, u: StepUninit, u': StepUninit)
    requires StepWithin(s)
    ensures Step(s, u) == Step(s, u') && StepPrints(s, u) == StepPrints(s, u')
  {
    hide Dispatch, Passes, Cond, Fetch, ReadsWithin, NextInstruction, Plus, WriteReg, ReadReg, LoadWord, InsType;
    FetchResult(s, u.fetch);
    FetchResult(s, u'.fetch);
    if CanFetch(s) && Passes(CpsrOf(s), Cond(NextInstruction(s))) {
      var ins := NextInstruction(s);
      if InsType(ins) == 7 {
        SoftwareInterrupt(s, u);
        SoftwareInterrupt(s, u');
      } else {
        DispatchDetermined(Advanced(s), ins, u.execute, u'.execute);
        OnlyInterruptsInterrupt(Advanced(s), ins, u.execute);
      }
    }
  }

  /** The code of a software interrupt comes from no other instruction. */
  lemma OnlyInterruptsInterrupt(s: State, ins: word, u: Uninit)
    requires InsType(ins) != 7
    ensures Dispatch(s, ins, u).code in {0, -1, UNDEFINED_INSTRUCTION}
  {
    hide LoadStore, LoadStoreMultiple, Operate, Branch, Bit7, Bit4, ToMiscellaneous, ReadReg, WriteReg, SpsrOf;
    hide Rd, ShiftByImmediate, ShiftByRegister, RotatedImmediate;
    LoadStoreCodes(s, ins, u);
    if !(Bit7(ins) && Bit4(ins)) {
      OperateCodes(s, ins, ShifterValues(s, ins, FlagC(s)).value);
    }
    OperateCodes(s, ins, RotatedImmediate(RotateImm(ins), Immed8(ins), FlagC(s)));
  }

  // ----- runs -----

  /** The same event, up to what the C locals hold during it. */
  predicate SameEvent(e: Event, e': Event)
  {
    (e.Tick? && e'.Tick?) || (e.Raised? && e'.Raised? && e.exception == e'.exception)
  }

  /** Two runs of the same events, each step of the first within memory, go through the same states. An
      exception from outside needs no condition: it leaves its state without looking at memory. */
  lemma {:induction false} RunDetermined(s: State, es: seq<Event>, es': seq<Event>)
    requires |es| == |es'| && forall i :: 0 <= i < |es| ==> SameEvent(es[i], es'[i])
    requires forall i :: 0 <= i < |es| && es[i].Tick? ==> StepWithin(Run(s, es[..i]))
    ensures Run(s, es) == Run(s, es')
    decreases |es|
  {
    hide StepWithin, Step, Exception;
    if es != [] {
      var n := |es| - 1;
      var before := es[..n];
      forall i | 0 <= i < n && before[i].Tick? ensures StepWithin(Run(s, before[..i])) {
        assert before[..i] == es[..i] && before[i] == es[i];
      }
      RunDetermined(s, before, es'[..n]);
      var t := Run(s, before);
      match es[n] {
        case Tick(u) => StepDetermined(t, u, es'[n].u);
        case Raised(exception, u) =>
          RaisedEffect(t, exception, u);
          RaisedEffect(t, exception, es'[n].handler);
      }
    }
  }

  // ----- a load multiple past the end of memory -----

  /** The variable that holds the word between two loads: the last word loaded, if any was. */
  lemma {:induction false} WordBetween(s: State, ins: word, start: word, n: nat, u: Uninit, p: nat)
    requires n <= 16
    ensures Count(ins, n) == 0 ==> LoadBelow(s, ins, start, n, u).word == u.value
    ensures p < n && Listed(ins, p) && Count(ins, p) + 1 == Count(ins, n) ==>
      LoadBelow(s, ins, start, n, u).word == LoadBelow(s, ins, start, p + 1, u).word
  {
    hide GetBit, Home, WriteReg, LoadWord;
    if n > 0 {
      WordBetween(s, ins, start, n - 1, u, p);
      if p < n {
        CountBetween(ins, p, n - 1);
      }
    }
  }

  /** A listed register whose home begins past the end of memory gets the word of the listed register
      before it once more, and the lowest of all the content of an unassigned variable: so the last word
      that was in memory fills all registers after it, up to the program counter, for which this is the
      word that `LoadPc` is given. */
  lemma LoadedPastTheEnd(s: State, ins: word, start: word, u: Uninit, q: nat)
    requires q < 16 && Listed(ins, q) && Home(start, ins, q) >= |s.mem|
    ensures var l := LoadBelow(s, ins, start, 15, u).state;
      var w := LoadBelow(s, ins, start, q + 1, u).word;
      && (q < 15 ==> ReadReg(l, q) == w)
      && (Count(ins, q) == 0 ==> w == u.value)
      && (forall p: nat :: p < q && Listed(ins, p) && Count(ins, p) + 1 == Count(ins, q) ==> w == ReadReg(l, p))
  {
    hide GetBit, Home, WriteReg, ReadReg;
    WordBetween(s, ins, start, q, u, 0);
    if q < 15 {
      LastWrite(s, ins, start, q, u);
    }
    forall p: nat | p < q && Listed(ins, p) && Count(ins, p) + 1 == Count(ins, q)
      ensures LoadBelow(s, ins, start, q + 1, u).word == ReadReg(LoadBelow(s, ins, start, 15, u).state, p)
    {
      WordBetween(s, ins, start, q, u, p);
      LastWrite(s, ins, start, p, u);
    }
  }

  /** Once loaded, a register keeps its word to the end. */
  lemma LastWrite(s: State, ins: word, start: word, q: nat, u: Uninit)
    requires q < 15 && Listed(ins, q)
    ensures ReadReg(LoadBelow(s, ins, start, 15, u).state, q) == LoadBelow(s, ins, start, q + 1, u).word
  {
    hide GetBit, Home, WriteReg, ReadReg, LoadWord;
    var l := LoadBelow(s, ins, start, q, u);
    ReadAfterWrite(l.state, q, LoadWord(l.state, Home(start, ins, q), Uninit(u.buffer, l.word)), q);
    KeptToTheEnd(s, ins, start, q, 15, u);
  }

  lemma {:induction false} KeptToTheEnd(s: State, ins: word, start: word, q: nat, n: nat, u: Uninit)
    requires q < n <= 15
    ensures ReadReg(LoadBelow(s, ins, start, n, u).state, q) == ReadReg(LoadBelow(s, ins, start, q + 1, u).state, q)
    decreases n
  {
    hide GetBit, Home, WriteReg, ReadReg, LoadWord;
    if q + 1 < n {
      KeptToTheEnd(s, ins, start, q, n - 1, u);
      var l := LoadBelow(s, ins, start, n - 1, u);
      if Listed(ins, n - 1) {
        ReadAfterWrite(l.state, n - 1, LoadWord(l.state, Home(start, ins, n - 1), Uninit(u.buffer, l.word)), q);
      }
    }
  }
}
