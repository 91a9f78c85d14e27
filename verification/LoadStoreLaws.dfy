/** Halfword and signed accesses (ARM DDI 0100, section A5.3), which first run the mode 2 calculator. */
module LoadStoreLaws {
  import opened Words
  import opened Machine
  import opened Decode
  import opened LoadStoreSpec
  import opened MultipleLaws
  import opened InstructionSpec
  import M = MemorySpec
  import ML = MemoryLaws

  // ----- sign extension -----

  /** The extended word reads, as a signed number, as the narrow value does. */
  lemma SignExtensions(b: byte, h: half)
    ensures Signed(SignExtend8(b)) == (if b < 0x80 then b else b as int - 0x100)
    ensures Signed(SignExtend16(h)) == (if h < 0x8000 then h else h as int - 0x1_0000)
  {
    assert Pow2(8) == 0x100;
    Pow2Add(8, 8);
    OrDisjoint(0xFF_FFFF, b, 8);
    OrDisjoint(0xFFFF, h, 16);
  }

  // ----- the address of a mode 3 access -----

  /** Bits 27..25 clear, bits 7 and 4 set. All of these that dispatch sends here are taken as mode 3: the
      loads, and the stores but for P = 1, U = 0 (`ExtensionLaws`). */
  predicate Mode3(ins: word) { InsType(ins) == 0 && Bit7(ins) && Bit4(ins) }

  /** Where the mode 2 calculator, run first, would put the access. */
  function Preliminary(s: State, ins: word): word
  {
    Offset(ReadReg(s, Rn(ins)), BitU(ins), Offset12(ins))
  }

  lemma Mode3Fields(ins: word)
    requires InsType(ins) == 0
    ensures !Bit26(ins) && !BitI(ins)
    ensures Bit7(ins) ==> Offset12(ins) >= 0x80
  {
    BitsOfType(ins / 0x200_0000);
    assert ins / 0x400_0000 == ins / 0x200_0000 / 2;
    if Bit7(ins) {
      Bit7InOffset(ins);
    }
  }

  lemma BitsOfType(x: nat)
    ensures x % 8 == 0 ==> x % 2 == 0 && x / 2 % 2 == 0
  {
  }

  lemma Bit7InOffset(ins: word)
    requires ins / 0x80 % 2 == 1
    ensures ins % 0x1000 >= 0x80
  {
    var q, r := ins / 0x1000, ins % 0x1000;
    if r < 0x80 {
      DivModUnique(ins, 0x80, 32 * q, r);
    }
  }

  /** P = 1, W = 0: nothing is written back; the access is refused only when the mode 2 address happens
      to be 0xFFFFFFFF, and otherwise goes to the mode 3 address. */
  lemma OffsetForm(s: State, ins: word, u: Uninit)
    requires Mode3(ins) && BitP(ins) && !BitW(ins)
    ensures LoadStore(s, ins, u) ==
      if Preliminary(s, ins) == NO_ADDRESS then Outcome(s, UNDEFINED_INSTRUCTION)
      else HalfOrSigned(s, ins, Offset(ReadReg(s, Rn(ins)), BitU(ins), Index3(s, ins)), u)
  {
    hide ReadReg, WriteReg, HalfOrSigned, Index3, Offset, Bit26, BitI, BitP, BitU, BitW, Rn, Offset12, InsType;
    hide Bit7, Bit4;
    Mode3Fields(ins);
  }

  /** What a load of the given kind (bits 7..4) finds where the half `low` was stored. */
  function SeenAs(kind: nat, low: half, be: bool): word
  {
    if kind == 0xB then low
    else if kind == 0xF then SignExtend16(low)
    else SignExtend8(if be then low / 0x100 else low % 0x100)
  }

  /** STRH, then LDRH, LDRSH or LDRSB of the same address in the offset form: the load finds the low half
      of the stored register, zero- or sign-extended, or its first byte in the byte order of the build;
      and each access leaves all registers but its destination alone. Between the two only memory and
      byte order need to be kept. (Dispatch sends no STRH with a subtracted offset here.) */
  lemma StoreHalfThenLoad(s: State, ins: word, t: State, ins': word, u: Uninit)
    requires Mode3(ins) && BitP(ins) && !BitW(ins) && !BitL(ins) && Rd(ins) != 15
    requires Mode3(ins') && BitP(ins') && !BitW(ins') && BitL(ins') && Rd(ins') != 15
    requires ins' / 0x10 % 16 in {0xB, 0xD, 0xF}
    requires Preliminary(s, ins) != NO_ADDRESS && Preliminary(t, ins') != NO_ADDRESS
    requires var a := Offset(ReadReg(s, Rn(ins)), BitU(ins), Index3(s, ins));
      a + 2 <= |s.mem| && a == Offset(ReadReg(t, Rn(ins')), BitU(ins'), Index3(t, ins'))
    requires var s' := LoadStore(s, ins, u).state; t.mem == s'.mem && t.be == s'.be
    ensures LoadStore(s, ins, u).state.regs == s.regs
    ensures var low := ReadReg(s, Rd(ins)) % 0x1_0000;
      LoadStore(t, ins', u) ==
        Outcome(WriteReg(t, Rd(ins'), SeenAs(ins' / 0x10 % 16, low, s.be)), 0)
  {
    hide ReadReg, WriteReg, Index3, Offset, BitP, BitU, BitW, BitL, Rn, Rd, Mode3, LoadStore, SignExtend16;
    hide Preliminary, SignExtend8, M.Bytes2, M.Half;
    OffsetForm(s, ins, u);
    OffsetForm(t, ins', u);
    var a := Offset(ReadReg(s, Rn(ins)), BitU(ins), Index3(s, ins));
    var low: half := ReadReg(s, Rd(ins)) % 0x1_0000;
    ML.WriteThenRead(s.mem, a, 0, low, s.be, s.be, 0, u.value % 0x1_0000, u.buffer);
    FirstByte(s.mem, a, low, s.be);
  }

  lemma FirstByte(mem: seq<byte>, a: word, h: half, be: bool)
    requires a < |mem|
    ensures M.WriteHalf(mem, a, h, be)[a] == if be then h / 0x100 else h % 0x100
  {
  }

  /** The base as the mode 3 calculator reads it when the first calculator has moved it. */
  function OnceMoved(s: State, ins: word): word
  {
    var moved := Preliminary(s, ins);
    if Rn(ins) == 15 then AndW(Plus(moved, 4), 0xFFFF_FFFD) else moved
  }

  /** The base after both calculators: moved by the 12 low bits, then by the mode 3 offset, for which a
      register offset that is the base itself has already moved. */
  function TwiceMoved(s: State, ins: word): word
  {
    var moved := OnceMoved(s, ins);
    var register := if Rm(ins) == Rn(ins) then moved else ReadReg(s, Rm(ins));
    Offset(moved, BitU(ins), if BitB(ins) then Offset8(ins) else register)
  }

  /** P = 1, W = 1, or P = 0, W = 0: the base is left moved twice, and the access goes to the twice
      moved base when P = 1 and to the once moved one when P = 0. */
  lemma WritebackAccess(s: State, ins: word, u: Uninit)
    requires Mode3(ins) && BitP(ins) == BitW(ins)
    requires CalculateAddress(s, ins).address != NO_ADDRESS
    ensures LoadStore(s, ins, u) ==
      HalfOrSigned(WriteReg(s, Rn(ins), TwiceMoved(s, ins)), ins,
                   if BitP(ins) then TwiceMoved(s, ins) else OnceMoved(s, ins), u)
  {
    hide AndW, ReadReg, WriteReg, Offset, Offset8, Bit26, BitI, BitP, BitU, BitW, BitB, BitL, Rn, Rd, Rm, Offset12;
    hide InsType, Bit7, Bit4, HalfOrSigned;
    Mode3Fields(ins);
    var rn, moved := Rn(ins), Preliminary(s, ins);
    ReadAfterWrite(s, rn, moved, rn);
    ReadAfterWrite(s, rn, moved, Rm(ins));
    WriteTwice(s, rn, moved, TwiceMoved(s, ins));
  }

  /** Where the architecture puts a mode 3 access: the base offset once, or the base itself after which
      it moves (P = 0). */
  function Architectural(s: State, ins: word): word
  {
    if BitP(ins) then Offset(ReadReg(s, Rn(ins)), BitU(ins), Index3(s, ins)) else ReadReg(s, Rn(ins))
  }

  /** With writeback the base left behind is the architectural one exactly when the base register is
      subtracted from itself; the address of the access is the architectural one exactly when besides
      P = 1. */
  lemma WritebackMovesTwice(s: State, ins: word, u: Uninit)
    requires Mode3(ins) && BitP(ins) == BitW(ins) && Rn(ins) != 15
    requires BitL(ins) ==> Rd(ins) != Rn(ins)
    requires CalculateAddress(s, ins).address != NO_ADDRESS
    ensures var rn, base := Rn(ins), ReadReg(s, Rn(ins));
      var final := ReadReg(LoadStore(s, ins, u).state, rn);
      var selfSubtracted := !BitB(ins) && Rm(ins) == rn && !BitU(ins);
      && final == TwiceMoved(s, ins)
      && (final == Offset(base, BitU(ins), Index3(s, ins)) <==> selfSubtracted)
      && ((if BitP(ins) then final else Preliminary(s, ins)) == Architectural(s, ins) <==> selfSubtracted && BitP(ins))
  {
    hide ReadReg, WriteReg, Offset, Offset8, Bit26, BitI, BitP, BitU, BitW, BitB, BitL, CalculateAddress, Rn, Rd;
    hide Rm, Offset12, InsType, Bit7, Bit4, HalfOrSigned, LoadStore;
    Mode3Fields(ins);
    var rn, base := Rn(ins), ReadReg(s, Rn(ins));
    var final := TwiceMoved(s, ins);
    WritebackAccess(s, ins, u);
    ReadAfterWrite(s, rn, final, rn);
    KeepsOthers(WriteReg(s, rn, final), ins, if BitP(ins) then final else Preliminary(s, ins), u, rn);
    if !BitB(ins) && Rm(ins) == rn {
      MovedWithIndex(base, BitU(ins), Offset12(ins));
    } else {
      MovedApart(base, BitU(ins), Offset12(ins), if BitB(ins) then Offset8(ins) else ReadReg(s, Rm(ins)));
    }
    MovedAway(base, BitU(ins), Offset12(ins));
  }

  /** What the access does there: STRH puts the half into memory at that address, and LDRH finds the half
      that memory holds at it. */
  lemma WritebackEffect(s: State, ins: word, u: Uninit)
    requires Mode3(ins) && BitP(ins) == BitW(ins) && Rd(ins) != 15
    requires CalculateAddress(s, ins).address != NO_ADDRESS
    ensures var r := LoadStore(s, ins, u);
      var a := if BitP(ins) then TwiceMoved(s, ins) else OnceMoved(s, ins);
      && (!BitL(ins) ==>
            var value := if Rd(ins) == Rn(ins) then TwiceMoved(s, ins) else ReadReg(s, Rd(ins));
            r.code == 0 && r.state.mem == M.WriteHalf(s.mem, a, value % 0x1_0000, s.be))
      && (BitL(ins) && ins / 0x10 % 16 == 0xB ==>
            r.code == 0 && r.state.mem == s.mem && ReadReg(r.state, Rd(ins)) == LoadHalf(s, a, u))
  {
    hide ReadReg, WriteReg, BitP, BitU, BitW, BitB, BitL, CalculateAddress, SignExtend8, SignExtend16, M.ReadHalf;
    hide M.WriteHalf, Rn, Rd, Rm, TwiceMoved, OnceMoved, Preliminary, Mode3, LoadStore;
    WritebackAccess(s, ins, u);
    var final := TwiceMoved(s, ins);
    var t := WriteReg(s, Rn(ins), final);
    var a := if BitP(ins) then final else OnceMoved(s, ins);
    ReadAfterWrite(s, Rn(ins), final, Rd(ins));
    ReadAfterWrite(t, Rd(ins), LoadHalf(t, a, u), Rd(ins));
  }

  lemma MovedAway(base: word, up: bool, far: nat)
    requires 0x80 <= far < 0x1000
    ensures Offset(base, up, far) != base
  {
    hide Wrap;
    NotAMultiple(base, far);
    NotAMultiple(base, 0 - far);
    WrapWord(base);
  }

  lemma MovedWithIndex(base: word, up: bool, far: nat)
    requires 0x80 <= far < 0x1000
    ensures var moved := Offset(base, up, far);
      Offset(moved, up, moved) == Offset(base, up, base) <==> !up
  {
    hide Wrap;
    if up {
      var moved := Plus(base, far);
      WrapSum(base + far, moved);
      WrapSum(base + far, base + far);
      assert Wrap(moved + (base + far)) == Wrap(2 * base + 2 * far);
      NotAMultiple(2 * base, 2 * far);
    }
  }

  lemma KeepsOthers(s: State, ins: word, a: word, u: Uninit, q: nat)
    requires q < 16 && (q != Rd(ins) || !BitL(ins))
    ensures ReadReg(HalfOrSigned(s, ins, a, u).state, q) == ReadReg(s, q)
  {
    hide ReadReg, WriteReg, LoadHalf, LoadByte, SignExtend8, SignExtend16, Rd;
    if Rd(ins) != 15 {
      if BitL(ins) {
        ReadAfterWrite(s, Rd(ins), LoadHalf(s, a, u), q);
        ReadAfterWrite(s, Rd(ins), SignExtend8(LoadByte(s, a, u)), q);
        ReadAfterWrite(s, Rd(ins), SignExtend16(LoadHalf(s, a, u)), q);
      }
      SameRead(s, StoreHalf(s, a, ReadReg(s, Rd(ins)) % 0x1_0000), q);
    }
  }

  lemma MovedApart(base: word, up: bool, far: nat, near: word)
    requires 0x80 <= far < 0x1000
    ensures Offset(Offset(base, up, far), up, near) != Offset(base, up, near)
  {
    hide Wrap;
    if up {
      WrapSum(base + far, near);
      NotAMultiple(base as int + near as int, far);
    } else {
      WrapSum(base - far, 0 - near);
      NotAMultiple(base as int - near as int, 0 - far);
    }
  }

  lemma NotAMultiple(x: int, d: int)
    requires 0 < d < 0x1_0000_0000 || -0x1_0000_0000 < d < 0
    ensures Wrap(x + d) != Wrap(x)
  {
  }

  // ----- mode 2 -----

  /** P = 0 and W = 1 (the T forms) is refused without touching anything. */
  lemma TranslatedFormsRefused(s: State, ins: word, u: Uninit)
    requires !BitP(ins) && BitW(ins)
    ensures LoadStore(s, ins, u) == Outcome(s, UNDEFINED_INSTRUCTION)
  {
    hide ReadReg, WriteReg;
  }

  /** Words with bits 27..25 equal to 010 or 011 are the mode 2 transfers, and dispatch sends them here. */
  lemma Mode2(s: State, ins: word, u: Uninit)
    requires InsType(ins) in {2, 3}
    ensures Bit26(ins) && Dispatch(s, ins, u) == LoadStore(s, ins, u)
  {
    hide LoadStore;
    DivDiv(ins, 0x200_0000, 2);
    DivDiv(ins / 0x200_0000, 2, 4);
  }

  /** A word stored by STR is seen by LDRB one byte at a time, most significant byte first exactly in
      the big-endian build. The addressing forms of the two are free, and between them only memory and
      byte order need to be kept. */
  lemma StoredWordByBytes(s: State, str: word, t: State, ldrb: word, i: nat, u: Uninit)
    requires InsType(str) in {2, 3} && !BitL(str) && !BitB(str)
    requires InsType(ldrb) in {2, 3} && BitL(ldrb) && BitB(ldrb)
    requires i < 4 && CalculateAddress(s, str).address + 4 <= |s.mem|
    requires CalculateAddress(t, ldrb).address == CalculateAddress(s, str).address + i
    requires var s' := Dispatch(s, str, u).state; t.mem == s'.mem && t.be == s'.be
    ensures var value := ReadReg(CalculateAddress(s, str).state, Rd(str));
      var seen := value / [1, 0x100, 0x1_0000, 0x100_0000][if s.be then 3 - i else i] % 0x100;
      Dispatch(t, ldrb, u) == Outcome(WriteReg(CalculateAddress(t, ldrb).state, Rd(ldrb), seen), 0)
  {
    hide ReadReg, WriteReg, Bit26, BitL, BitB, Rd, M.Bytes4, CalculateAddress, LoadWord, HalfOrSigned, Dispatch;
    hide InsType;
    Mode2(s, str, u);
    Mode2(t, ldrb, u);
    KeepsMemory(s, str);
    KeepsMemory(t, ldrb);
    var a := CalculateAddress(s, str).address;
    var v := ReadReg(CalculateAddress(s, str).state, Rd(str));
    assert t.mem[a + i] == M.Bytes4(v, s.be)[i];
    BytesInOrder(v, s.be, i);
  }

  /** Calculating an address touches neither memory nor the byte order. */
  lemma KeepsMemory(s: State, ins: word)
    ensures CalculateAddress(s, ins).state.mem == s.mem && CalculateAddress(s, ins).state.be == s.be
  {
    hide ReadReg, Index2;
  }

  lemma BytesInOrder(v: word, be: bool, i: nat)
    requires i < 4
    ensures M.Bytes4(v, be)[i] == v / [1, 0x100, 0x1_0000, 0x100_0000][if be then 3 - i else i] % 0x100
  {
  }

  /** A store with pre-indexed writeback, then a load with post-indexed writeback the other way by the
      same offset, of a word or of a byte: the base is back and the load finds what was stored, however
      the offset is given and whatever else happened in between. */
  lemma PushThenPop(s: State, ins: word, t: State, ins': word, u: Uninit)
    requires InsType(ins) in {2, 3} && BitP(ins) && BitW(ins) && !BitL(ins)
    requires InsType(ins') in {2, 3} && !BitP(ins') && !BitW(ins') && BitL(ins')
    requires BitU(ins) != BitU(ins') && BitB(ins) == BitB(ins') && Rn(ins) == Rn(ins') != 15 && Rd(ins) != Rn(ins)
    requires Index2(s, ins) == Index2(t, ins')
    requires Offset(ReadReg(s, Rn(ins)), BitU(ins), Index2(s, ins)) + (if BitB(ins) then 1 else 4) <= |s.mem|
    requires var s' := Dispatch(s, ins, u).state;
      t.mem == s'.mem && t.be == s'.be && ReadReg(t, Rn(ins)) == ReadReg(s', Rn(ins))
    ensures var value := ReadReg(s, Rd(ins));
      Dispatch(t, ins', u) == Outcome(
        WriteReg(WriteReg(t, Rn(ins), ReadReg(s, Rn(ins))), Rd(ins'), if BitB(ins) then value % 0x100 else value), 0)
  {
    hide ReadReg, WriteReg, Bit26, BitP, BitU, BitW, BitB, BitL, Rn, Rd, Index2, M.Bytes4, M.Word, LoadWord, Wrap;
    hide HalfOrSigned, Index3, Dispatch, InsType;
    Mode2(s, ins, u);
    Mode2(t, ins', u);
    var base, index, v := ReadReg(s, Rn(ins)), Index2(s, ins), ReadReg(s, Rd(ins));
    var a := Offset(base, BitU(ins), index);
    OffsetBack(base, BitU(ins), index);
    ReadAfterWrite(s, Rn(ins), a, Rn(ins));
    ReadAfterWrite(s, Rn(ins), a, Rd(ins));
    SameRead(WordOrByte(WriteReg(s, Rn(ins), a), ins, a, u), WriteReg(s, Rn(ins), a), Rn(ins));
    var moved := WriteReg(t, Rn(ins), base);
    if !BitB(ins) {
      LoadInRange(moved, a, u);
      StoreThenSlice(s.mem, a, M.Bytes4(v, s.be));
      ML.WordRoundTrip(v, s.be, s.be);
    }
  }

  lemma OffsetBack(base: word, up: bool, index: word)
    ensures Offset(Offset(base, up, index), !up, index) == base
  {
    hide Wrap;
    WrapSum(base as int + index as int, 0 - index);
    WrapSum(base as int - index as int, index);
    WrapWord(base);
  }
}
