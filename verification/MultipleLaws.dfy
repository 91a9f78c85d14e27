/** What load and store multiple do to memory and registers, together and against single transfers. */
module MultipleLaws {
  import opened Words
  import opened RegistersSpec
  import opened Machine
  import opened Decode
  import opened MultipleSpec
  import M = MemorySpec
  import ML = MemoryLaws

  // ----- the homes of the listed registers -----

  lemma {:induction false} CountBetween(ins: word, i: nat, k: nat)
    requires i <= k
    ensures Count(ins, i) <= Count(ins, k) <= Count(ins, i) + (k - i)
    ensures i < k ==> Count(ins, i) + GetBit(ins, i) <= Count(ins, k)
    decreases k
  {
    hide GetBit;
    if i < k {
      CountBetween(ins, i, k - 1);
    }
  }

  /** A home inside the memory is followed by the homes of all higher registers. */
  lemma HomesAscend(start: word, ins: word, i: nat, k: nat)
    requires i < k <= 16 && Listed(ins, i) && Home(start, ins, i) <= M.MAX_SIZE
    ensures Home(start, ins, k) >= Home(start, ins, i) + 4
    ensures Home(start, ins, k) == Home(start, ins, i) + 4 * (Count(ins, k) - Count(ins, i))
  {
    hide GetBit, Count;
    CountBetween(ins, i, k);
    var d := 4 * (Count(ins, k) - Count(ins, i));
    WrapSum(start + 4 * Count(ins, i), d);
  }

  /** A home far below another one's end means the lower register comes first. */
  lemma HomesApart(start: word, ins: word, i: nat, k: nat)
    requires i < k < 16 && Listed(ins, i)
    requires Home(start, ins, i) <= M.MAX_SIZE || Home(start, ins, k) <= M.MAX_SIZE
    ensures Home(start, ins, i) > M.MAX_SIZE || Home(start, ins, i) + 4 <= Home(start, ins, k)
  {
    hide GetBit, Count;
    if Home(start, ins, i) <= M.MAX_SIZE {
      HomesAscend(start, ins, i, k);
    }
  }

  // ----- layout and frame of a store multiple -----

  lemma {:induction false} StoredWord(s: State, ins: word, start: word, n: nat, i: nat)
    requires i < n <= 16 && Listed(ins, i) && Home(start, ins, i) + 4 <= |s.mem|
    ensures var a := Home(start, ins, i);
      StoreBelow(s, ins, start, n).mem[a..a + 4] == M.Bytes4(ReadReg(s, i), s.be)
  {
    hide GetBit, Home, M.Bytes4, ReadReg;
    var before := StoreBelow(s, ins, start, n - 1);
    var a := Home(start, ins, i);
    if n - 1 == i {
      SameRead(before, s, i);
      StoreThenSlice(before.mem, a, M.Bytes4(ReadReg(s, i), s.be));
    } else {
      StoredWord(s, ins, start, n - 1, i);
      if Listed(ins, n - 1) {
        HomesAscend(start, ins, i, n - 1);
        StoreAbove(before.mem, Home(start, ins, n - 1), M.Bytes4(ReadReg(before, n - 1), s.be), a);
      }
    }
  }

  lemma StoreThenSlice(mem: seq<byte>, a: word, bs: seq<byte>)
    requires |bs| == 4 && a + 4 <= |mem|
    ensures M.Store(mem, a, bs)[a..a + 4] == bs
  {
  }

  lemma StoreAbove(mem: seq<byte>, a: word, bs: seq<byte>, below: nat)
    requires below + 4 <= |mem| && below + 4 <= a
    ensures M.Store(mem, a, bs)[below..below + 4] == mem[below..below + 4]
  {
  }

  /** Address `j` is in the home of a listed register below `n`. */
  predicate InSomeHome(start: word, ins: word, n: nat, j: nat)
  {
    exists i: nat :: i < n && Listed(ins, i) && Home(start, ins, i) <= j < Home(start, ins, i) + 4
  }

  lemma {:induction false} UntouchedByte(s: State, ins: word, start: word, n: nat, j: nat)
    requires n <= 16 && j < |s.mem| && !InSomeHome(start, ins, n, j)
    ensures StoreBelow(s, ins, start, n).mem[j] == s.mem[j]
  {
    hide GetBit, Home, M.Bytes4, ReadReg;
    if n > 0 {
      assert !InSomeHome(start, ins, n - 1, j);
      UntouchedByte(s, ins, start, n - 1, j);
    }
  }

  /** Store multiple, in all four modes: each listed register whose home is in memory is found there,
      the k-th lowest at start + 4k; no byte outside the homes changes, hence none outside the block
      when it lies in memory; and no register but the base moves. */
  lemma StmLayout(s: State, ins: word)
    ensures var b, s' := AddrMultiple(s, ins), Stm(s, ins);
      && s'.regs == b.state.regs && |s'.mem| == |s.mem|
      && (forall i: nat :: i < 16 && Listed(ins, i) && Home(b.start, ins, i) + 4 <= |s.mem| ==>
            s'.mem[Home(b.start, ins, i)..Home(b.start, ins, i) + 4] == M.Bytes4(ReadReg(b.state, i), s.be))
      && (forall j: nat :: j < |s.mem| && !InSomeHome(b.start, ins, 16, j) ==> s'.mem[j] == s.mem[j])
      && (b.start + 4 * Count(ins, 16) <= |s.mem| ==>
            forall j: nat :: j < |s.mem| && !(b.start <= j < b.start + 4 * Count(ins, 16)) ==> s'.mem[j] == s.mem[j])
  {
    hide GetBit, Home, M.Bytes4, ReadReg, StoreBelow, InSomeHome, Count;
    var b := AddrMultiple(s, ins);
    forall i: nat | i < 16 && Listed(ins, i) && Home(b.start, ins, i) + 4 <= |s.mem|
      ensures Stm(s, ins).mem[Home(b.start, ins, i)..Home(b.start, ins, i) + 4] == M.Bytes4(ReadReg(b.state, i), s.be)
    {
      StoredWord(b.state, ins, b.start, 16, i);
    }
    forall j: nat | j < |s.mem| && !InSomeHome(b.start, ins, 16, j) ensures Stm(s, ins).mem[j] == s.mem[j] {
      UntouchedByte(b.state, ins, b.start, 16, j);
    }
    if b.start + 4 * Count(ins, 16) <= |s.mem| {
      forall j: nat | j < |s.mem| && !(b.start <= j < b.start + 4 * Count(ins, 16))
        ensures !InSomeHome(b.start, ins, 16, j)
      {
        HomesInBlock(b.start, ins, j);
      }
    }
  }

  lemma HomesInBlock(start: word, ins: word, j: nat)
    requires start + 4 * Count(ins, 16) <= M.MAX_SIZE && !(start <= j < start + 4 * Count(ins, 16))
    ensures !InSomeHome(start, ins, 16, j)
  {
    hide GetBit, Count;
    forall i: nat | i < 16 && Listed(ins, i)
      ensures start <= Home(start, ins, i) && Home(start, ins, i) + 4 <= start + 4 * Count(ins, 16)
    {
      CountBetween(ins, i, 16);
    }
  }

  // ----- load multiple -----

  /** The word at `a` when all of it is in memory. */
  function WordAt(s: State, a: word): word
    requires a + 4 <= |s.mem|
  {
    M.Word(s.mem[a..a + 4], s.be)
  }

  lemma LoadInRange(s: State, a: word, u: Uninit)
    requires a + 4 <= |s.mem|
    ensures LoadWord(s, a, u) == WordAt(s, a)
  {
    hide M.Word;
    assert M.Bytes(s.mem, a, 4, u.buffer) == s.mem[a..a + 4];
  }

  /** What a register holds after the loads: its home's word if it was loaded, else what it held. */
  lemma {:induction false} Loaded(s: State, ins: word, start: word, n: nat, u: Uninit, q: nat)
    requires n <= 15 && q < 16
    ensures var l := LoadBelow(s, ins, start, n, u).state;
      && (q >= n || !Listed(ins, q) ==> ReadReg(l, q) == ReadReg(s, q))
      && (q < n && Listed(ins, q) && Home(start, ins, q) + 4 <= |s.mem| ==>
            ReadReg(l, q) == WordAt(s, Home(start, ins, q)))
  {
    hide GetBit, Home, M.Word, ReadReg, WriteReg, LoadWord;
    if n > 0 {
      Loaded(s, ins, start, n - 1, u, q);
      if Listed(ins, n - 1) {
        var l := LoadBelow(s, ins, start, n - 1, u);
        var a := Home(start, ins, n - 1);
        var v := Uninit(u.buffer, l.word);
        ReadAfterWrite(l.state, n - 1, LoadWord(l.state, a, v), q);
        if a + 4 <= |s.mem| {
          LoadInRange(l.state, a, v);
        }
      }
    }
  }

  /** Loading the PC: bit 0 of the word is dropped and becomes the T bit. The CPSR the architecture
      asks for, with bit 5 set or cleared and nothing else changed, is what is left exactly when bit 0 is
      clear, or the SPSR that is used as a source instead agrees with the CPSR outside bit 5. */
  lemma LoadedPc(s: State, ins: word, u: Uninit)
    requires BitL(ins) && !BitB(ins) && Listed(ins, 15)
    requires Home(AddrMultiple(s, ins).start, ins, 15) + 4 <= |s.mem|
    ensures var s' := LoadStoreMultiple(s, ins, u).state;
      var w := WordAt(s, Home(AddrMultiple(s, ins).start, ins, 15));
      && s'.regs[15] == w - w % 2
      && (CpsrOf(s') == PutBit(CpsrOf(s), 5, w % 2 == 1) <==>
            w % 2 == 0 || SetBit(SpsrOf(s), 5) == SetBit(CpsrOf(s), 5))
  {
    hide ReadReg, Count, GetBit, LoadBelow, Home, M.Word, SetBit, ClrBit, AndW, SpsrOf, LoadWord;
    var b := AddrMultiple(s, ins);
    var l := LoadBelow(b.state, ins, b.start, 15, u);
    var v := Uninit(u.buffer, l.word);
    LoadInRange(l.state, Home(b.start, ins, 15), v);
    var w := LoadWord(l.state, Home(b.start, ins, 15), v);
    EvenPart(w);
    LoadBelowSpsr(b.state, ins, b.start, 15, u);
    SameSpsr(s, l.state);
    SameSpsr(s, WriteReg(l.state, 15, AndW(w, 0xFFFF_FFFE)));
  }

  lemma EvenPart(w: word)
    ensures AndW(w, 0xFFFF_FFFE) == w - w % 2
  {
    hide And;
    assert Pow2(0) == 1;
    assert NotW(Lsl(1, 0)) == 0xFFFF_FFFE;
    ClrBitValue(w, 0);
  }

  lemma {:induction false} LoadBelowSpsr(s: State, ins: word, start: word, n: nat, u: Uninit)
    requires n <= 16
    ensures var t := LoadBelow(s, ins, start, n, u).state; forall k :: 31 <= k < 37 ==> t.regs[k] == s.regs[k]
  {
    hide GetBit, Home, LoadWord, Slot;
    if n > 0 {
      LoadBelowSpsr(s, ins, start, n - 1, u);
    }
  }

  // ----- a store multiple and the load multiple that undoes it -----

  predicate SameList(ins: word, ins': word)
  {
    forall i: nat :: i < 16 ==> Listed(ins, i) == Listed(ins', i)
  }

  lemma {:induction false} SameCount(ins: word, ins': word, n: nat)
    requires n <= 16 && SameList(ins, ins')
    ensures Count(ins, n) == Count(ins', n)
  {
    hide GetBit;
    if n > 0 {
      SameCount(ins, ins', n - 1);
      assert Listed(ins, n - 1) == Listed(ins', n - 1);
    }
  }

  /** DB/IA, IA/DB, IB/DA, DA/IB with writeback: the load starts where the store did and ends on the
      base the store started from. */
  lemma ComplementaryBlocks(s: State, ins: word, t: State, ins': word)
    requires BitW(ins) && BitW(ins') && BitP(ins) != BitP(ins') && BitU(ins) != BitU(ins')
    requires Rn(ins) == Rn(ins') != 15 && SameList(ins, ins')
    requires ReadReg(t, Rn(ins)) == ReadReg(AddrMultiple(s, ins).state, Rn(ins))
    ensures AddrMultiple(t, ins').start == AddrMultiple(s, ins).start
    ensures ReadReg(AddrMultiple(t, ins').state, Rn(ins)) == ReadReg(s, Rn(ins))
  {
    hide ReadReg, Count, GetBit, WriteReg;
    SameCount(ins, ins', 16);
    var base, size := ReadReg(s, Rn(ins)), 4 * Count(ins, 16);
    var moved := if BitU(ins) then Plus(base, size) else Minus(base, size);
    ReadAfterWrite(s, Rn(ins), moved, Rn(ins));
    ReadAfterWrite(t, Rn(ins), if BitU(ins') then Plus(moved, size) else Minus(moved, size), Rn(ins));
    WrapThere(base, size);
  }

  lemma WrapThere(base: word, size: nat)
    ensures Minus(Plus(base, size), size) == base && Plus(Minus(base, size), size) == base
    ensures Minus(Plus(base, size), size - 4) == Plus(base, 4)
    ensures Plus(Minus(base, size), 4) == Minus(base, size - 4)
  {
    hide Wrap;
    WrapSum(base + size, 0 - size);
    WrapSum(base - size, size);
    WrapSum(base + size, 4 - size);
    WrapSum(base - size, 4);
    assert Wrap(base) == base by { WrapWord(base); }
  }

  /** A store multiple with writeback, then the complementary load multiple with writeback, over any
      list of R0 to R14 whose homes are in memory. Whatever happened to the processor in between, as
      long as memory and the base register are those the store left: every listed register but the
      base is restored, all others but the base are left alone, and the base is restored exactly when
      it is not in the list itself. */
  lemma StoreThenLoad(s: State, ins: word, t: State, ins': word, u: Uninit)
    requires !BitB(ins) && !BitL(ins) && !BitB(ins') && BitL(ins')
    requires BitW(ins) && BitW(ins') && BitP(ins) != BitP(ins') && BitU(ins) != BitU(ins')
    requires Rn(ins) == Rn(ins') != 15 && SameList(ins, ins') && !Listed(ins, 15)
    requires forall i: nat :: i < 15 && Listed(ins, i) ==> Home(AddrMultiple(s, ins).start, ins, i) + 4 <= |s.mem|
    requires var s' := LoadStoreMultiple(s, ins, u).state;
      t.mem == s'.mem && t.be == s'.be && ReadReg(t, Rn(ins)) == ReadReg(s', Rn(ins))
    ensures var t' := LoadStoreMultiple(t, ins', u).state;
      && (forall i: nat :: i < 15 && Listed(ins, i) && i != Rn(ins) ==> ReadReg(t', i) == ReadReg(s, i))
      && (forall i: nat :: i < 16 && !Listed(ins, i) && i != Rn(ins) ==> ReadReg(t', i) == ReadReg(t, i))
      && (ReadReg(t', Rn(ins)) == ReadReg(s, Rn(ins)) <==> !Listed(ins, Rn(ins)))
      && t'.mem == t.mem && CpsrOf(t') == CpsrOf(t)
  {
    hide ReadReg, Count, GetBit, WriteReg, LoadBelow, StoreBelow, Home, M.Word, M.Bytes4;
    var rn, b := Rn(ins), AddrMultiple(s, ins);
    var s' := Stm(s, ins);
    SameRead(s', b.state, rn);
    ComplementaryBlocks(s, ins, t, ins');
    var b' := AddrMultiple(t, ins');
    var t' := LoadBelow(b'.state, ins', b'.start, 15, u).state;
    assert Listed(ins', 15) == Listed(ins, 15);
    forall i: nat | i < 16
      ensures i < 15 && Listed(ins, i) ==> ReadReg(t', i) == ReadReg(b.state, i)
      ensures !Listed(ins, i) ==> ReadReg(t', i) == ReadReg(b'.state, i)
    {
      Loaded(b'.state, ins', b'.start, 15, u, i);
      assert Listed(ins', i) == Listed(ins, i);
      if i < 15 && Listed(ins, i) {
        SameHome(b.start, ins, ins', i);
        StoredWord(b.state, ins, b.start, 16, i);
        ML.WordRoundTrip(ReadReg(b.state, i), s.be, s.be);
      }
    }
    OnlyBaseMoves(s, ins);
    OnlyBaseMoves(t, ins');
    if Listed(ins, rn) {
      BaseMoves(s, ins);
    }
  }

  /** With nothing in between, and the base not listed, the pair is the identity on all registers. */
  lemma StoreThenLoadAtOnce(s: State, ins: word, ins': word, u: Uninit)
    requires !BitB(ins) && !BitL(ins) && !BitB(ins') && BitL(ins')
    requires BitW(ins) && BitW(ins') && BitP(ins) != BitP(ins') && BitU(ins) != BitU(ins')
    requires Rn(ins) == Rn(ins') != 15 && SameList(ins, ins') && !Listed(ins, 15) && !Listed(ins, Rn(ins))
    requires forall i: nat :: i < 15 && Listed(ins, i) ==> Home(AddrMultiple(s, ins).start, ins, i) + 4 <= |s.mem|
    ensures var t := LoadStoreMultiple(LoadStoreMultiple(s, ins, u).state, ins', u).state;
      CpsrOf(t) == CpsrOf(s) && forall i: nat :: i < 16 ==> ReadReg(t, i) == ReadReg(s, i)
  {
    hide ReadReg, Count, GetBit, WriteReg, LoadBelow, StoreBelow, Home, M.Word, M.Bytes4;
    var s' := Stm(s, ins);
    StoreThenLoad(s, ins, s', ins', u);
    OnlyBaseMoves(s, ins);
    forall i: nat | i < 16 && i != Rn(ins) ensures ReadReg(s', i) == ReadReg(s, i) {
      SameRead(s', AddrMultiple(s, ins).state, i);
    }
  }

  lemma SameHome(start: word, ins: word, ins': word, i: nat)
    requires i < 16 && SameList(ins, ins')
    ensures Home(start, ins, i) == Home(start, ins', i)
  {
    hide GetBit, Count;
    SameCount(ins, ins', i);
  }

  lemma OnlyBaseMoves(s: State, ins: word)
    ensures forall i: nat :: i < 16 && i != Rn(ins) ==> ReadReg(AddrMultiple(s, ins).state, i) == ReadReg(s, i)
  {
    hide ReadReg, Count, GetBit, WriteReg;
    var base, size := ReadReg(s, Rn(ins)), 4 * Count(ins, 16);
    forall i: nat | i < 16 && i != Rn(ins) ensures ReadReg(AddrMultiple(s, ins).state, i) == ReadReg(s, i) {
      ReadAfterWrite(s, Rn(ins), if BitU(ins) then Plus(base, size) else Minus(base, size), i);
    }
  }

  /** A non-empty list moves the base to a different word. */
  lemma BaseMoves(s: State, ins: word)
    requires BitW(ins) && Rn(ins) != 15 && Listed(ins, Rn(ins))
    ensures ReadReg(AddrMultiple(s, ins).state, Rn(ins)) != ReadReg(s, Rn(ins))
  {
    hide ReadReg, Count, GetBit, WriteReg;
    var base, size := ReadReg(s, Rn(ins)), 4 * Count(ins, 16);
    CountBetween(ins, Rn(ins), 16);
    CountBetween(ins, 0, 16);
    ReadAfterWrite(s, Rn(ins), if BitU(ins) then Plus(base, size) else Minus(base, size), Rn(ins));
    SmallStep(base, size);
  }

  lemma SmallStep(base: word, size: nat)
    requires 0 < size <= 64
    ensures Plus(base, size) != base && Minus(base, size) != base
  {
  }
}
