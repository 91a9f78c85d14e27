/** The processor state as a value, and what arm_core.c makes of registers and memory. */
module Machine {
  import opened Words
  import opened RegistersSpec
  import M = MemorySpec

  /** Registers, memory, and the byte order fixed when the simulator is built. */
  datatype Raw = State(regs: file, mem: seq<byte>, be: bool)

  type State = s: Raw | |s.mem| <= M.MAX_SIZE witness State(seq(37, _ => 0), [], true)

  /** What C locals hold before they are assigned: the byte buffer of a multi-byte read, and the
      variable a failed read leaves alone. */
  datatype Uninit = Uninit(buffer: M.Junk, value: word)

  // Codes an instruction can return besides 0 and -1.
  const UNDEFINED_INSTRUCTION := 7
  const SOFTWARE_INTERRUPT := 8

  /** The state an instruction leaves and the code it returns; 0 is success. */
  datatype Outcome = Outcome(state: State, code: int)

  function CpsrOf(s: State): word { s.regs[CPSR] }

  function SetCpsr(s: State, value: word): State { s.(regs := s.regs[CPSR := value]) }

  function ModeOf(s: State): byte { Mode(s.regs) }

  function SpsrOf(s: State): word { ReadSpsr(s.regs, ModeOf(s)) }

  /** arm_read_register: the program counter reads four ahead, with bit 1 cleared. */
  function ReadReg(s: State, r: nat): word
    requires r < 16
  {
    var value := s.regs[Slot(r, ModeOf(s))];
    if r == 15 then AndW(Plus(value, 4), 0xFFFF_FFFD) else value
  }

  /** What instructions see of an address in the program counter: bit 1 reads as 0. */
  function Shown(pc: word): word { pc - pc / 2 % 2 * 2 }

  function WriteReg(s: State, r: nat, value: word): (s': State)
    requires r < 16
    ensures s'.mem == s.mem && s'.be == s.be
    ensures CpsrOf(s') == CpsrOf(s)
    ensures forall k :: 31 <= k < 37 ==> s'.regs[k] == s.regs[k]
  {
    s.(regs := s.regs[Slot(r, ModeOf(s)) := value])
  }

  /** The SPSR in view depends on the CPSR and the SPSR slots alone. */
  lemma SameSpsr(s: State, t: State)
    requires forall k :: 31 <= k < SLOTS ==> t.regs[k] == s.regs[k]
    ensures SpsrOf(s) == SpsrOf(t)
  {
  }

  lemma ReadAfterWrite(s: State, r: nat, value: word, q: nat)
    requires r < 16 && q < 16
    ensures ReadReg(WriteReg(s, r, value), q) ==
      if q != r then ReadReg(s, q) else if r == 15 then AndW(Plus(value, 4), 0xFFFF_FFFD) else value
  {
  }

  lemma WriteTwice(s: State, r: nat, v: word, w: word)
    requires r < 16
    ensures WriteReg(WriteReg(s, r, v), r, w) == WriteReg(s, r, w)
  {
  }

  lemma SameRead(s: State, t: State, r: nat)
    requires r < 16 && s.regs == t.regs
    ensures ReadReg(s, r) == ReadReg(t, r)
  {
  }

  function LoadByte(s: State, a: word, u: Uninit): byte
  {
    M.ReadByte(s.mem, a, u.value % 0x100).value
  }

  function LoadHalf(s: State, a: word, u: Uninit): half
  {
    M.ReadHalf(s.mem, a, s.be, u.value % 0x1_0000, u.buffer).value
  }

  function LoadWord(s: State, a: word, u: Uninit): word
  {
    M.ReadWord(s.mem, a, s.be, u.value, u.buffer).value
  }

  function StoreByte(s: State, a: word, v: byte): State { s.(mem := M.WriteByte(s.mem, a, v)) }

  function StoreHalf(s: State, a: word, v: half): State { s.(mem := M.WriteHalf(s.mem, a, v, s.be)) }

  function StoreWord(s: State, a: word, v: word): State { s.(mem := M.WriteWord(s.mem, a, v, s.be)) }

  /** arm_create: reset (Supervisor mode, interrupts disabled, PC at 0), then the stack pointer at the
      end of memory. */
  function Created(regs: file, mem: seq<byte>, be: bool): State
    requires |mem| <= M.MAX_SIZE
  {
    WriteReg(WriteReg(SetCpsr(State(regs, mem, be), 0x1d3), 15, 0), 13, |mem|)
  }

  datatype Fetched = Fetched(status: int, ins: word, state: State)

  /** arm_fetch: read the word at the program counter and step the program counter over it. */
  function Fetch(s: State, u: Uninit): Fetched
  {
    var pc := s.regs[Slot(15, ModeOf(s))];
    var r := M.ReadWord(s.mem, pc, s.be, u.value, u.buffer);
    Fetched(r.status, r.value, WriteReg(s, 15, Plus(pc, 4)))
  }
}
