/** The load and store multiple loops of arm_load_store.c on the processor object. */
module Multiple {
  import opened Words
  import opened Machine
  import opened Decode
  import opened MultipleSpec
  import opened Core

  /** Number_of_Set_Bits_In */
  method NumberOfSetBitsIn(ins: word) returns (res: int)
    ensures res == Count(ins, 16)
  {
    res := 0;
    for i := 0 to 16
      invariant res == Count(ins, i)
    {
      res := res + GetBit(ins, i);
    }
  }

  /** addr_ls_multiple */
  method AddrLsMultiple(p: ArmCore, ins: word) returns (start: word, end: word)
    requires p.Valid()
    modifies p.reg.slots
    ensures Block(p.St(), start, end) == AddrMultiple(old(p.St()), ins)
  {
    hide ReadReg, Count, GetBit;
    var base := p.ReadRegister(Rn(ins));
    var n := NumberOfSetBitsIn(ins);
    if BitP(ins) && BitU(ins) {
      start := Plus(base, 4);
      end := Plus(base, 4 * n);
      if BitW(ins) { p.WriteRegister(Rn(ins), Plus(base, n * 4)); }
    } else if BitP(ins) && !BitU(ins) {
      start := Minus(base, 4 * n);
      end := Minus(base, 4);
      if BitW(ins) { p.WriteRegister(Rn(ins), Minus(base, n * 4)); }
    } else if !BitP(ins) && BitU(ins) {
      start := base;
      end := Plus(base, 4 * n - 4);
      if BitW(ins) { p.WriteRegister(Rn(ins), Plus(base, n * 4)); }
    } else {
      start := Minus(base, 4 * n - 4);
      end := base;
      if BitW(ins) { p.WriteRegister(Rn(ins), Minus(base, n * 4)); }
    }
  }

  /** One more register visited moves the running address by four exactly when it is listed. */
  lemma NextHome(start: word, ins: word, i: nat)
    ensures Home(start, ins, i + 1) == if Listed(ins, i) then Plus(Home(start, ins, i), 4) else Home(start, ins, i)
  {
    hide GetBit;
  }

  /** The block ends four bytes before the address the loops reach, whatever the base and the list. */
  lemma BlockEnd(s: State, ins: word)
    ensures var b := AddrMultiple(s, ins); b.end == Minus(Home(b.start, ins, 16), 4)
  {
    hide ReadReg, Count, GetBit, WriteReg, Wrap;
    var base, size := ReadReg(s, Rn(ins)) as int, 4 * Count(ins, 16);
    var b := AddrMultiple(s, ins);
    var offset := if BitP(ins) && BitU(ins) then 4 else if BitP(ins) then -size else if BitU(ins) then 0 else 4 - size;
    assert b.start == Wrap(base + offset) && b.end == Wrap(base + offset + size - 4) by {
      assert base + 0 == base && Wrap(base) == base by { WrapWord(base); }
    }
    WrapSum(base + offset, size);
    WrapSum(base + offset + size, -4);
  }

  /** instruction_stm1 */
  method InstructionStm1(p: ArmCore, ins: word) returns (code: int)
    requires p.Valid()
    modifies p.reg.slots, p.mem.data
    ensures Outcome(p.St(), code) == Outcome(Stm(old(p.St()), ins), 0)
  {
    hide ReadReg, Count, GetBit, AddrMultiple, StoreWord, Home;
    var start, end := AddrLsMultiple(p, ins);
    ghost var s := p.St();
    var address := start;
    assert Home(start, ins, 0) == start by { HomeZero(start, ins); }
    for i := 0 to 16
      invariant p.St() == StoreBelow(s, ins, start, i)
      invariant address == Home(start, ins, i)
    {
      NextHome(start, ins, i);
      if GetBit(ins, i) == 1 {
        var value := p.ReadRegister(i);
        p.WriteWord(address, value);
        address := Plus(address, 4);
      }
    }
    BlockEnd(old(p.St()), ins);
    assert end == Minus(address, 4);
    return 0;
  }

  lemma HomeZero(start: word, ins: word)
    ensures Home(start, ins, 0) == start
  {
  }

  /** instruction_ldm1 */
  method InstructionLdm1(p: ArmCore, ins: word, u: Uninit) returns (code: int)
    requires p.Valid()
    modifies p.reg.slots
    ensures Outcome(p.St(), code) == Outcome(Ldm(old(p.St()), ins, u), 0)
  {
    hide ReadReg, Count, GetBit, AddrMultiple, LoadWord, Home, ClrBit, SetBit, AndW, WriteReg;
    var start, end := AddrLsMultiple(p, ins);
    ghost var s := p.St();
    var address, word := start, u.value;
    assert Home(start, ins, 0) == start by { HomeZero(start, ins); }
    for i := 0 to 15
      invariant Loading(p.St(), word) == LoadBelow(s, ins, start, i, u)
      invariant address == Home(start, ins, i)
    {
      NextHome(start, ins, i);
      if GetBit(ins, i) == 1 {
        word := p.ReadWord(address, Uninit(u.buffer, word));
        p.WriteRegister(i, word);
        address := Plus(address, 4);
      }
    }
    NextHome(start, ins, 15);
    if GetBit(ins, 15) == 1 {
      word := p.ReadWord(address, Uninit(u.buffer, word));
      p.WriteRegister(15, AndW(word, 0xFFFF_FFFE));
      var tBit := word % 2;
      if tBit == 0 {
        var cpsr := p.ReadCpsr();
        p.WriteCpsr(ClrBit(cpsr, 5));
      } else {
        var spsr := p.ReadSpsr();
        p.WriteCpsr(SetBit(spsr, 5));
      }
      address := Plus(address, 4);
    }
    BlockEnd(old(p.St()), ins);
    assert end == Minus(address, 4);
    return 0;
  }

  /** arm_load_store_multiple */
  method ArmLoadStoreMultiple(p: ArmCore, ins: word, u: Uninit) returns (code: int)
    requires p.Valid()
    modifies p.reg.slots, p.mem.data
    ensures Outcome(p.St(), code) == LoadStoreMultiple(old(p.St()), ins, u)
  {
    hide Ldm, Stm;
    if BitL(ins) && !BitB(ins) {
      var _ := InstructionLdm1(p, ins, u);
    } else if !BitL(ins) && !BitB(ins) {
      var _ := InstructionStm1(p, ins);
    } else {
      return UNDEFINED_INSTRUCTION;
    }
    return 0;
  }
}
