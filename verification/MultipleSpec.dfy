/** Load and store multiple of arm_load_store.c as functions on states (ARM DDI 0100, section A5.4). */
module MultipleSpec {
  import opened Words
  import opened Machine
  import opened Decode

  /** How many of the registers below `n` are in the list. */
  function Count(ins: word, n: nat): (k: nat)
    ensures k <= n
    decreases n, ins
  {
    if n == 0 then 0 else Count(ins, n - 1) + GetBit(ins, n - 1)
  }

  /** The state after base writeback, and the first and last addresses of the block. */
  datatype Block = Block(state: State, start: word, end: word)

  /** addr_ls_multiple: IB, DB, IA, DA by bits P and U. */
  function AddrMultiple(s: State, ins: word): Block
  {
    var base, size := ReadReg(s, Rn(ins)), 4 * Count(ins, 16);
    var s' := if BitW(ins) then WriteReg(s, Rn(ins), if BitU(ins) then Plus(base, size) else Minus(base, size)) else s;
    if BitP(ins) && BitU(ins) then Block(s', Plus(base, 4), Plus(base, size))
    else if BitP(ins) then Block(s', Minus(base, size), Minus(base, 4))
    else if BitU(ins) then Block(s', base, Plus(base, size - 4))
    else Block(s', Minus(base, size - 4), base)
  }

  /** The address a listed register is stored at: four bytes for each listed register below it. */
  function Home(start: word, ins: word, i: nat): word { Plus(start, 4 * Count(ins, i)) }

  /** Store the listed registers below `n`, lowest first. */
  function StoreBelow(s: State, ins: word, start: word, n: nat): (s': State)
    requires n <= 16
    ensures s'.regs == s.regs && s'.be == s.be && |s'.mem| == |s.mem|
    decreases n, ins
  {
    if n == 0 then s
    else
      var t := StoreBelow(s, ins, start, n - 1);
      if Listed(ins, n - 1) then StoreWord(t, Home(start, ins, n - 1), ReadReg(t, n - 1)) else t
  }

  /** A state, and what the local variable `word` holds. */
  datatype Loading = Loading(state: State, word: word)

  /** Load the listed registers below `n`, lowest first; a failed read leaves `word` as it was. */
  function LoadBelow(s: State, ins: word, start: word, n: nat, u: Uninit): (l': Loading)
    requires n <= 16
    ensures l'.state.mem == s.mem && l'.state.be == s.be && CpsrOf(l'.state) == CpsrOf(s)
    decreases n, ins
  {
    if n == 0 then Loading(s, u.value)
    else
      var l := LoadBelow(s, ins, start, n - 1, u);
      if Listed(ins, n - 1) then
        var word := LoadWord(l.state, Home(start, ins, n - 1), Uninit(u.buffer, l.word));
        Loading(WriteReg(l.state, n - 1, word), word)
      else l
  }

  /** The program counter is loaded without bit 0, which decides the T bit: clear it in the CPSR, or
      set it in the SPSR and write that to the CPSR. */
  function LoadPc(s: State, word: word): State
  {
    var s' := WriteReg(s, 15, AndW(word, 0xFFFF_FFFE));
    if word % 2 == 0 then SetCpsr(s', ClrBit(CpsrOf(s'), 5)) else SetCpsr(s', SetBit(SpsrOf(s'), 5))
  }

  /** instruction_stm1 */
  function Stm(s: State, ins: word): State
  {
    var b := AddrMultiple(s, ins);
    StoreBelow(b.state, ins, b.start, 16)
  }

  /** instruction_ldm1 */
  function Ldm(s: State, ins: word, u: Uninit): State
  {
    var b := AddrMultiple(s, ins);
    var l := LoadBelow(b.state, ins, b.start, 15, u);
    if Listed(ins, 15) then
      LoadPc(l.state, LoadWord(l.state, Home(b.start, ins, 15), Uninit(u.buffer, l.word)))
    else l.state
  }

  /** arm_load_store_multiple */
  function LoadStoreMultiple(s: State, ins: word, u: Uninit): Outcome
  {
    if BitB(ins) then Outcome(s, UNDEFINED_INSTRUCTION)
    else Outcome(if BitL(ins) then Ldm(s, ins, u) else Stm(s, ins), 0)
  }
}
