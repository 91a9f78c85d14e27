/** What a load or store multiple finds and leaves, register by register, from the fields of its word. */
module BlockLaws {
  import opened Words
  import opened RegistersSpec
  import opened Machine
  import opened Decode
  import opened MultipleSpec
  import opened MultipleLaws
  import opened InstructionSpec
  import opened Assembly
  import opened AssemblyLaws
  import M = MemorySpec
  import ML = MemoryLaws

  // ----- the list as a set -----

  predicate InList(list: half, i: nat) { list / Pow2(i) % 2 == 1 }

  /** The registers below `n` in the list. */
  function Members(list: half, n: nat): set<nat> { set i: nat | i < n && InList(list, i) }

  /** How many registers of the list come before register `i`. */
  function Rank(list: half, i: nat): nat { |Members(list, i)| }

  lemma {:induction false} CountIsRank(ins: word, list: half, n: nat)
    requires list == ins % 0x1_0000 && n <= 16
    ensures Count(ins, n) == Rank(list, n)
  {
    hide Pow2;
    if n == 0 {
      assert Members(list, 0) == {};
    } else {
      CountIsRank(ins, list, n - 1);
      ListedIsMember(ins, list, n - 1);
      var before := Members(list, n - 1);
      assert Members(list, n) == if InList(list, n - 1) then before + {n - 1} else before;
    }
  }

  lemma ListedIsMember(ins: word, list: half, i: nat)
    requires list == ins % 0x1_0000 && i < 16
    ensures Listed(ins, i) <==> InList(list, i)
  {
    SixteenBits();
    LowBits(ins, i, 16);
  }

  // ----- the addresses -----

  /** Where register `i` goes: one word for each register of the list, in order, upwards from the base
      (IA) or the word above it (IB), or ending at the base (DA) or the word below it (DB). */
  function Place(base: word, f: Form, i: nat): word
    requires f.Block?
  {
    var before, from := 4 * Rank(f.list, i), 4 * (Rank(f.list, 16) - Rank(f.list, i));
    if f.u then Wrap(base + before + if f.p then 4 else 0) else Wrap(base - from + if f.p then 0 else 4)
  }

  /** The base afterwards, if it is written back. */
  function MovedBase(base: word, f: Form): word
    requires f.Block?
  {
    var size := 4 * Rank(f.list, 16);
    Wrap(if f.u then base + size else base - size)
  }

  /** The state with the base written back, if it is. */
  function Rebased(s: State, f: Form): State
    requires f.Block?
  {
    if f.w then WriteReg(s, f.rn, MovedBase(ReadReg(s, f.rn), f)) else s
  }

  lemma BlockAddresses(s: State, ins: word, cond: nibble, f: Form)
    requires f.Block? && ins == Encode(cond, f)
    ensures AddrMultiple(s, ins).state == Rebased(s, f)
    ensures forall i: nat :: i < 16 ==>
      Home(AddrMultiple(s, ins).start, ins, i) == Place(ReadReg(s, f.rn), f, i)
      && (Listed(ins, i) <==> InList(f.list, i))
  {
    hide ReadReg, WriteReg, Rank, Count, GetBit, Pow2, Encode, BitP, BitU, BitW, Rn, Wrap;
    FieldsBlock(cond, f, ins);
    CountIsRank(ins, f.list, 16);
    var start := AddrMultiple(s, ins).start;
    forall i: nat | i < 16
      ensures Home(start, ins, i) == Place(ReadReg(s, f.rn), f, i) && (Listed(ins, i) <==> InList(f.list, i))
    {
      CountIsRank(ins, f.list, i);
      ListedIsMember(ins, f.list, i);
      StartToHome(ReadReg(s, f.rn), 4 * Rank(f.list, 16), 4 * Rank(f.list, i));
    }
  }

  lemma StartToHome(base: word, size: int, before: int)
    ensures Plus(base, before) == Wrap(base + before)
    ensures Plus(Plus(base, 4), before) == Wrap(base + before + 4)
    ensures Plus(Minus(base, size), before) == Wrap(base - (size - before))
    ensures Plus(Minus(base, size - 4), before) == Wrap(base - (size - before) + 4)
  {
    hide Wrap;
    WrapSum(base + 4, before);
    WrapSum(base - size, before);
    WrapSum(base - (size - 4), before);
  }

  // ----- store multiple -----

  /** Address `j` holds no byte of a listed register. */
  predicate Outside(base: word, f: Form, j: nat)
    requires f.Block?
  {
    forall i: nat :: i < 16 && InList(f.list, i) ==> !(Place(base, f, i) <= j < Place(base, f, i) + 4)
  }

  /** STM in all four modes, with and without writeback: every listed register is found at its place (a
      listed base as it is after writeback), no other byte changes, and no register but a written-back
      base. With bit 22 set it is refused. */
  lemma BlockStore(s: State, cond: nibble, f: Form, u: Uninit)
    requires f.Block? && !f.l
    ensures var r, base, rebased := Dispatch(s, Encode(cond, f), u), ReadReg(s, f.rn), Rebased(s, f);
      if f.b then r == Outcome(s, UNDEFINED_INSTRUCTION)
      else
        && r.code == 0 && r.state.regs == rebased.regs && r.state.be == s.be && |r.state.mem| == |s.mem|
        && (forall i: nat :: i < 16 && InList(f.list, i) && Place(base, f, i) + 4 <= |s.mem| ==>
              WordAt(r.state, Place(base, f, i)) == ReadReg(rebased, i))
        && (forall j: nat :: j < |s.mem| && Outside(base, f, j) ==> r.state.mem[j] == s.mem[j])
  {
    hide ReadReg, WriteReg, Rank, Count, GetBit, Encode, BitP, BitU, BitW, BitB, BitL, Rn, InsType, Place, Home;
    hide InList, AddrMultiple, Rebased, StoreBelow, M.Word, M.Bytes4, Stm;
    var ins, base := Encode(cond, f), ReadReg(s, f.rn);
    FieldsBlock(cond, f, ins);
    BlockAddresses(s, ins, cond, f);
    RebasedMemory(s, f);
    StmLayout(s, ins);
    var b, t := AddrMultiple(s, ins), Stm(s, ins);
    if !f.b {
      StmKeepsOrder(s, ins);
      forall i: nat | i < 16 && InList(f.list, i) && Place(base, f, i) + 4 <= |s.mem|
        ensures WordAt(t, Place(base, f, i)) == ReadReg(Rebased(s, f), i)
      {
        assert Listed(ins, i);
        ML.WordRoundTrip(ReadReg(b.state, i), s.be, s.be);
      }
      forall j: nat | j < |s.mem| && Outside(base, f, j) ensures t.mem[j] == s.mem[j] {
        assert !InSomeHome(b.start, ins, 16, j);
      }
    }
  }

  lemma RebasedMemory(s: State, f: Form)
    requires f.Block?
    ensures Rebased(s, f).mem == s.mem && Rebased(s, f).be == s.be && CpsrOf(Rebased(s, f)) == CpsrOf(s)
    ensures forall k :: 31 <= k < 37 ==> Rebased(s, f).regs[k] == s.regs[k]
  {
    hide ReadReg, Rank;
  }

  lemma StmKeepsOrder(s: State, ins: word)
    ensures Stm(s, ins).be == s.be
  {
    hide ReadReg, Count, GetBit;
  }

  // ----- load multiple -----

  /** LDM in all four modes, with and without writeback. As the mode of the loads sees them, every listed
      register but the PC has the word at its place, and every other one what it had, the base after
      writeback; a listed PC has its word without bit 0, and that bit makes the T bit: cleared in the CPSR,
      or set in the SPSR that then replaces the CPSR. Memory is not written. */
  lemma BlockLoad(s: State, cond: nibble, f: Form, u: Uninit)
    requires f.Block? && f.l
    ensures var r, base, rebased := Dispatch(s, Encode(cond, f), u), ReadReg(s, f.rn), Rebased(s, f);
      if f.b then r == Outcome(s, UNDEFINED_INSTRUCTION)
      else
        && r.code == 0 && r.state.mem == s.mem && r.state.be == s.be
        && (forall i: nat :: i < 15 ==>
              var found := r.state.regs[Slot(i, ModeOf(s))];
              if InList(f.list, i) then Place(base, f, i) + 4 <= |s.mem| ==> found == WordAt(s, Place(base, f, i))
              else found == rebased.regs[Slot(i, ModeOf(s))])
        && (if InList(f.list, 15) then
              Place(base, f, 15) + 4 <= |s.mem| ==>
                var w := WordAt(s, Place(base, f, 15));
                && r.state.regs[15] == w - w % 2
                && CpsrOf(r.state) == if w % 2 == 0 then WithBit5(CpsrOf(s), 0) else WithBit5(SpsrOf(s), 1)
            else r.state.regs[15] == rebased.regs[15] && CpsrOf(r.state) == CpsrOf(s))
  {
    hide ReadReg, WriteReg, Rank, Count, GetBit, Encode, BitP, BitU, BitW, BitB, BitL, Rn, InsType, Place, Home;
    hide InList, AddrMultiple, Rebased, LoadBelow, M.Word, LoadPc, LoadWord, WithBit5, SpsrOf, Slot;
    var ins, base := Encode(cond, f), ReadReg(s, f.rn);
    FieldsBlock(cond, f, ins);
    BlockAddresses(s, ins, cond, f);
    RebasedMemory(s, f);
    var b := AddrMultiple(s, ins);
    var l := LoadBelow(b.state, ins, b.start, 15, u);
    LoadBelowSpsr(b.state, ins, b.start, 15, u);
    SameSpsr(s, l.state);
    assert ModeOf(b.state) == ModeOf(l.state) == ModeOf(s);
    forall i: nat | i < 15
      ensures if InList(f.list, i) then
                Place(base, f, i) + 4 <= |s.mem| ==> l.state.regs[Slot(i, ModeOf(s))] == WordAt(s, Place(base, f, i))
              else l.state.regs[Slot(i, ModeOf(s))] == Rebased(s, f).regs[Slot(i, ModeOf(s))]
    {
      Loaded(b.state, ins, b.start, 15, u, i);
      ReadIsSlot(l.state, i);
      ReadIsSlot(b.state, i);
    }
    KeepsPc(b.state, ins, b.start, 15, u);
    var home := Home(b.start, ins, 15);
    var w := LoadWord(l.state, home, Uninit(u.buffer, l.word));
    PcLoaded(l.state, w);
    if home + 4 <= |s.mem| {
      LoadInRange(l.state, home, Uninit(u.buffer, l.word));
    }
    var r := Dispatch(s, ins, u);
    if !f.b {
      assert r.state == if Listed(ins, 15) then LoadPc(l.state, w) else l.state;
      forall i: nat | i < 15 ensures r.state.regs[Slot(i, ModeOf(s))] == l.state.regs[Slot(i, ModeOf(s))] {
      }
    }
  }

  /** A word with bit 5 replaced. */
  function WithBit5(x: word, b: nat): word
    requires b < 2
  {
    x - x / 32 % 2 * 32 + b * 32
  }

  lemma ReadIsSlot(s: State, i: nat)
    requires i < 15
    ensures ReadReg(s, i) == s.regs[Slot(i, ModeOf(s))]
  {
  }

  lemma {:induction false} KeepsPc(s: State, ins: word, start: word, n: nat, u: Uninit)
    requires n <= 15
    ensures LoadBelow(s, ins, start, n, u).state.regs[15] == s.regs[15]
  {
    hide GetBit, Home, LoadWord;
    if n > 0 {
      KeepsPc(s, ins, start, n - 1, u);
    }
  }

  lemma PcLoaded(s: State, w: word)
    ensures var t := LoadPc(s, w);
      && t.mem == s.mem && t.be == s.be && t.regs[15] == w - w % 2
      && (forall i: nat :: i < 15 ==> t.regs[Slot(i, ModeOf(s))] == s.regs[Slot(i, ModeOf(s))])
      && CpsrOf(t) == if w % 2 == 0 then WithBit5(CpsrOf(s), 0) else WithBit5(SpsrOf(s), 1)
  {
    hide AndW, SetBit, ClrBit, SpsrOf;
    EvenPart(w);
    SameSpsr(s, WriteReg(s, 15, AndW(w, 0xFFFF_FFFE)));
    Bit5(CpsrOf(s));
    Bit5(SpsrOf(s));
  }

  lemma Bit5(x: word)
    ensures ClrBit(x, 5) == WithBit5(x, 0) && SetBit(x, 5) == WithBit5(x, 1)
  {
    hide SetBit, ClrBit;
    assert Pow2(5) == 32;
    ClrBitValue(x, 5);
    SetBitValue(x, 5);
  }
}
