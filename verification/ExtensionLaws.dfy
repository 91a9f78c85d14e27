/** What becomes of the words with bits 27..25 clear and bits 7 and 4 set: the multiplies, swaps, and
    halfword, signed and doubleword transfers of the architecture. */
module ExtensionLaws {
  import opened Words
  import opened Machine
  import opened Decode
  import opened LoadStoreSpec
  import opened InstructionSpec
  import opened LoadStoreLaws
  import opened DispatchLaws
  import M = MemorySpec

  /** The address the mode 2 calculator, run first, returns to `arm_load_store`. */
  function FirstAddress(s: State, ins: word): word
  {
    if BitP(ins) then Preliminary(s, ins) else ReadReg(s, Rn(ins))
  }

  /** The state and the address of the access once both calculators have run. */
  function Reached(s: State, ins: word): Located
  {
    if BitP(ins) && !BitW(ins) then Located(s, Offset(ReadReg(s, Rn(ins)), BitU(ins), Index3(s, ins)))
    else Located(WriteReg(s, Rn(ins), TwiceMoved(s, ins)), if BitP(ins) then TwiceMoved(s, ins) else OnceMoved(s, ins))
  }

  /** What a load with the given bits 7..4 brings from an address, extended to a word. */
  function Brought(kind: nat, s: State, a: word, u: Uninit): word
  {
    if kind == 0xB then LoadHalf(s, a, u)
    else if kind == 0xD then SignExtend8(LoadByte(s, a, u))
    else SignExtend16(LoadHalf(s, a, u))
  }

  /** Every one of these words. Stores with P = 1 and U = 0 are taken for MRS. Of the others, P = 0 with
      W = 1 is refused untouched; one whose first address is 0xFFFFFFFF is refused after the base has
      moved once, where it moves at all; and the rest reach the address above, where those with the PC as
      Rd are refused, every L = 0 stores the low half of Rd whatever bits 6 and 5 say, and an L = 1 loads
      or, with bits 6 and 5 clear, is refused. */
  lemma ExtensionSpace(s: State, ins: word, u: Uninit)
    requires Mode3(ins)
    ensures var r, at, kind := Dispatch(s, ins, u), Reached(s, ins), ins / 0x10 % 16;
      if BitP(ins) && !BitU(ins) && !BitL(ins) then
        r == if BitW(ins) then Outcome(s, UNDEFINED_INSTRUCTION)
             else if Rd(ins) == 15 then Outcome(s, -1)
             else Outcome(WriteReg(s, Rd(ins), if BitB(ins) then SpsrOf(s) else CpsrOf(s)), 0)
      else if !BitP(ins) && BitW(ins) then r == Outcome(s, UNDEFINED_INSTRUCTION)
      else if FirstAddress(s, ins) == NO_ADDRESS then
        r == Outcome(if BitP(ins) && !BitW(ins) then s else WriteReg(s, Rn(ins), Preliminary(s, ins)),
                     UNDEFINED_INSTRUCTION)
      else if Rd(ins) == 15 then r == Outcome(at.state, UNDEFINED_INSTRUCTION)
      else if !BitL(ins) then
        r == Outcome(StoreHalf(at.state, at.address, ReadReg(at.state, Rd(ins)) % 0x1_0000), 0)
      else if kind == 9 then r == Outcome(at.state, UNDEFINED_INSTRUCTION)
      else r == Outcome(WriteReg(at.state, Rd(ins), Brought(kind, at.state, at.address, u)), 0)
  {
    hide ReadReg, WriteReg, Dispatch, SpsrOf, TwiceMoved, OnceMoved, Rn, Rd, BitP, BitU, BitL, BitW, BitB, Offset;
    hide Index3, Bit7, Bit4, SignExtend8, SignExtend16, LoadHalf, LoadByte, M.WriteHalf, InsType, Bit26, BitI, Offset12;
    Mode3Fields(ins);
    Kinds(ins);
    StoreHalfDownExecutesMrs(s, ins, u);
    if BitP(ins) && !BitW(ins) {
      OffsetForm(s, ins, u);
    } else if !BitP(ins) && BitW(ins) {
      TranslatedFormsRefused(s, ins, u);
    } else if FirstAddress(s, ins) != NO_ADDRESS {
      WritebackAccess(s, ins, u);
    }
  }

  lemma Kinds(ins: word)
    requires Bit7(ins) && Bit4(ins)
    ensures ins / 0x10 % 16 in {9, 0xB, 0xD, 0xF}
  {
    FourBits(ins);
  }

  /** Bits 7 and 4 within bits 7..4. */
  lemma FourBits(ins: word)
    ensures ins / 0x80 % 2 == ins / 0x10 % 16 / 8 && ins / 0x10 % 2 == ins / 0x10 % 16 % 2
  {
    var x := ins / 0x10;
    DivDiv(ins, 0x10, 8);
    DivDiv(x, 8, 2);
    DivDiv(x, 2, 8);
    DivModUnique(x % 16, 8, x / 8 % 2, x % 8);
    DivModUnique(x % 16, 2, x / 2 % 8, x % 2);
  }

  predicate IsMultiply(ins: word) { InsType(ins) == 0 && ins / 0x10 % 16 == 9 && !BitP(ins) }

  predicate IsSwap(ins: word)
  {
    InsType(ins) == 0 && ins / 0x10 % 16 == 9 && BitP(ins) && !BitU(ins) && !BitW(ins) && !BitL(ins)
  }

  /** No multiplication multiplies and no swap swaps. MLA, UMLAL and SMLAL (W = 1) are refused untouched;
      MUL, UMULL and SMULL move their bits 19..16 register twice and with S set are then refused, without
      S store a half; SWP and SWPB are executed as MRS. */
  lemma NoMultiplyNoSwap(s: State, ins: word, u: Uninit)
    requires (IsMultiply(ins) || IsSwap(ins)) && Rd(ins) != 15
    ensures var r, at := Dispatch(s, ins, u), Reached(s, ins);
      && (IsMultiply(ins) && BitW(ins) ==> r == Outcome(s, UNDEFINED_INSTRUCTION))
      && (IsMultiply(ins) && !BitW(ins) && ReadReg(s, Rn(ins)) != 0xFFFF_FFFF ==>
            at.state == WriteReg(s, Rn(ins), TwiceMoved(s, ins)) && at.address == OnceMoved(s, ins)
            && r == if BitL(ins) then Outcome(at.state, UNDEFINED_INSTRUCTION)
                    else Outcome(StoreHalf(at.state, at.address, ReadReg(at.state, Rd(ins)) % 0x1_0000), 0))
      && (IsSwap(ins) ==>
            r == Outcome(WriteReg(s, Rd(ins), if BitB(ins) then SpsrOf(s) else CpsrOf(s)), 0))
      && (IsSwap(ins) || BitW(ins) || BitL(ins) ==> r.state.mem == s.mem)
  {
    hide ReadReg, WriteReg, Dispatch, SpsrOf, TwiceMoved, OnceMoved, Rn, Rd, BitP, BitU, BitL, BitW, BitB, Offset;
    hide Index3, Bit7, Bit4, SignExtend8, SignExtend16, LoadHalf, LoadByte, M.WriteHalf, InsType, Offset12, Preliminary;
    Nine(ins);
    ExtensionSpace(s, ins, u);
  }

  lemma Nine(ins: word)
    requires ins / 0x10 % 16 == 9
    ensures Bit7(ins) && Bit4(ins)
  {
    FourBits(ins);
  }
}
