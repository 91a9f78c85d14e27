/** What each form of instruction does, as arithmetic on the fields it was assembled from: the manual's
    operation (ARM DDI 0100, chapters A4 and A5) with the interpreter's departures spelled out. Nothing
    here goes through the decoder, the shifters or the flag sequences of the interpreter. */
module Meaning {
  import opened Words
  import opened RegistersSpec
  import opened Machine
  import opened ShifterLaws
  import opened Assembly

  // ----- shifter operands: the value and the carry-out (0 or 1) -----

  datatype Operand = Operand(value: word, carry: int)

  /** rm shifted by a constant; 0 stands for 32 in LSR and ASR, and for one place through the carry in ROR.
      ASR shifts in zeros, and ASR #32 of a negative word leaves 0xFF. */
  function ShiftedByConstant(rm: word, shift: field2, amount: field5, c: nat): Operand
    requires c < 2
  {
    match shift
    case 0 => if amount == 0 then Operand(rm, c) else ShiftedLeft(rm, amount)
    case 1 => ShiftedRight(rm, if amount == 0 then 32 else amount)
    case 2 =>
      if amount > 0 then ShiftedRight(rm, amount)
      else if rm < 0x8000_0000 then Operand(0, 0) else Operand(0xFF, 1)
    case _ => if amount > 0 then Rotated(rm, amount) else Operand(c * 0x8000_0000 + rm / 2, rm % 2)
  }

  /** rm shifted by the low byte of a register. LSL by 32 leaves the word as it was; ASR shifts in zeros up
      to 31 places. */
  function ShiftedByRegister(rm: word, shift: field2, amount: byte, c: nat): Operand
    requires c < 2
  {
    if amount == 0 then Operand(rm, c)
    else
      match shift
      case 0 => if amount == 32 then Operand(rm, rm % 2) else ShiftedLeft(rm, amount)
      case 1 => ShiftedRight(rm, amount)
      case 2 =>
        if amount < 32 then ShiftedRight(rm, amount)
        else if rm < 0x8000_0000 then Operand(0, 0) else Operand(0xFFFF_FFFF, 1)
      case _ => Rotated(rm, amount)
  }

  /** The low 32 bits of the product, and the bit above them. */
  function ShiftedLeft(rm: word, n: nat): Operand { Operand(Wrap(rm * Pow2(n)), rm * Pow2(n) / 0x1_0000_0000 % 2) }

  /** The quotient, and the last bit that fell off. */
  function ShiftedRight(rm: word, n: nat): Operand
    requires n > 0
  {
    Operand(LogicalShift(rm, n), rm / Pow2(n - 1) % 2)
  }

  /** n single places to the right, and the bit that came round last. */
  function Rotated(rm: word, n: nat): Operand { Operand(Ror(rm, n), Ror(rm, n) / 0x8000_0000) }

  function RotatedConstant(rotate: nibble, immed: byte, c: nat): Operand
  {
    if rotate == 0 then Operand(immed, c) else Rotated(immed, 2 * rotate)
  }

  // ----- data processing -----

  /** One bit of a logical result from the bits of Rn and the operand. */
  predicate LogicalBit(opcode: nat, a: bool, b: bool)
  {
    match opcode
    case 0 => a && b        // AND
    case 8 => a && b        // TST
    case 1 => a != b        // EOR
    case 9 => a != b        // TEQ
    case 12 => a || b       // ORR
    case 13 => b            // MOV
    case 14 => a && !b      // BIC
    case _ => !b            // MVN
  }

  /** The number made of the lowest n bits of a logical result. */
  function LogicalValue(opcode: nat, a: word, b: word, n: nat): (x: nat)
  {
    if n == 0 then 0
    else
      LogicalValue(opcode, a, b, n - 1)
      + if LogicalBit(opcode, a / Pow2(n - 1) % 2 == 1, b / Pow2(n - 1) % 2 == 1) then Pow2(n - 1) else 0
  }

  /** The operands of an addition or subtraction: `first` plus or minus `second`, and what is added to a
      sum or taken from a difference besides. */
  datatype Arithmetic = Arithmetic(first: word, second: word, subtract: bool, extra: nat)

  function ArithmeticOf(opcode: nat, a: word, b: word, c: nat): Arithmetic
    requires c < 2
  {
    match opcode
    case 2 => Arithmetic(a, b, true, 0)        // SUB
    case 10 => Arithmetic(a, b, true, 0)       // CMP
    case 3 => Arithmetic(b, a, true, 0)        // RSB
    case 5 => Arithmetic(a, b, false, c)       // ADC
    case 6 => Arithmetic(a, b, true, 1 - c)    // SBC
    case 7 => Arithmetic(b, a, true, 1 - c)    // RSC
    case _ => Arithmetic(a, b, false, 0)       // ADD, CMN
  }

  predicate IsArithmetic(opcode: nat) { 2 <= opcode < 8 || opcode == 10 || opcode == 11 }

  function Value(opcode: nibble, a: word, b: word, c: nat): word
    requires c < 2
  {
    if IsArithmetic(opcode) then
      var x := ArithmeticOf(opcode, a, b, c);
      if x.subtract then Wrap(x.first - x.second - x.extra) else Wrap(x.first as int + x.second as int + x.extra)
    else Wrap(LogicalValue(opcode, a, b, 32))
  }

  /** What the flags of a subtraction take for the second operand: SBC and RSC subtract 1 + C from it, where
      1 - C should be added. */
  function Adjusted(opcode: nat, second: word, c: nat): word
  {
    if opcode == 6 || opcode == 7 then Wrap(second - 1 - c) else second
  }

  /** C: the shifter's carry-out; never, after an addition; no borrow, after a subtraction. */
  predicate CarryOut(opcode: nibble, a: word, op: Operand, c: nat)
    requires c < 2
  {
    if !IsArithmetic(opcode) then op.carry == 1
    else
      var x := ArithmeticOf(opcode, a, op.value, c);
      x.subtract && x.first >= Adjusted(opcode, x.second, c)
  }

  /** V, by the rule for additions in all cases; `seen` is the word the rule takes for the result. */
  predicate Overflow(opcode: nibble, a: word, b: word, c: nat, seen: word)
    requires c < 2
  {
    var x := ArithmeticOf(opcode, a, b, c);
    SameSign(x.first, Adjusted(opcode, x.second, c)) && !SameSign(seen, x.first)
  }

  /** The flags written over the top four bits of the CPSR. The comparisons show the rule for V the old Rd. */
  function FlagsSet(opcode: nibble, cpsr: word, a: word, op: Operand, stale: word): word
  {
    var c := cpsr / 0x2000_0000 % 2;
    var value := Value(opcode, a, op.value, c);
    var overflow :=
      if IsArithmetic(opcode) then Overflow(opcode, a, op.value, c, if 8 <= opcode < 12 then stale else value)
      else cpsr / 0x1000_0000 % 2 == 1;
    WithFlags(value >= 0x8000_0000, value == 0, CarryOut(opcode, a, op, c), overflow, cpsr % 0x1000_0000)
  }

  function WithFlags(n: bool, z: bool, c: bool, v: bool, low: nat): word
    requires low < 0x1000_0000
  {
    Digit(n) * 0x8000_0000 + Digit(z) * 0x4000_0000 + Digit(c) * 0x2000_0000 + Digit(v) * 0x1000_0000 + low
  }

  /** A comparison sets the flags and nothing else. The others write Rd, and that is all with S clear; with
      S set they set the flags, or with the PC as Rd copy SPSR to CPSR where there is an SPSR. */
  function Operation(s: State, opcode: nibble, setFlags: bool, rn: nibble, rd: nibble, op: Operand): Outcome
  {
    var a, cpsr := ReadReg(s, rn), CpsrOf(s);
    var flags := FlagsSet(opcode, cpsr, a, op, ReadReg(s, rd));
    if 8 <= opcode < 12 then Outcome(SetCpsr(s, flags), 0)
    else
      var s' := WriteReg(s, rd, Value(opcode, a, op.value, cpsr / 0x2000_0000 % 2));
      if !setFlags then Outcome(s', 0)
      else if rd != 15 then Outcome(SetCpsr(s', flags), 0)
      else if ModeOf(s) == USR || ModeOf(s) == SYS then Outcome(s', UNDEFINED_INSTRUCTION)
      else Outcome(SetCpsr(s', SpsrOf(s)), 0)
  }

  // ----- single transfers -----

  /** The scaled register: shifted as section A5.2.4 asks for, but ASR shifts in zeros up to 31 places, and
      RRX leaves the carry flag out. */
  function Index(rm: word, shift: field2, amount: field5): word
  {
    if shift == 2 && amount > 0 then LogicalShift(rm, amount) else ScaledIndex(rm, amount, shift, 0)
  }

  function Moved(base: word, up: bool, index: word): word
  {
    if up then Wrap(base as int + index as int) else Wrap(base - index)
  }

  /** LDR, STR, LDRB, STRB. P = 1 accesses the moved base, P = 0 the base, which then moves; P = 0 with W = 1
      is refused, and so is the address 0xFFFFFFFF, after the base has moved. */
  function Transferred(s: State, p: bool, u: bool, b: bool, w: bool, l: bool, rn: nibble, rd: nibble, index: word,
                       junk: Uninit): Outcome
  {
    var base := ReadReg(s, rn);
    var moved := Moved(base, u, index);
    var address := if p then moved else base;
    var s' := if p && !w then s else WriteReg(s, rn, moved);
    if !p && w then Outcome(s, UNDEFINED_INSTRUCTION)
    else if address == 0xFFFF_FFFF then Outcome(s', UNDEFINED_INSTRUCTION)
    else if l && b then Outcome(WriteReg(s', rd, LoadByte(s, address, junk)), 0)
    else if l then Outcome(WriteReg(s', rd, LoadWord(s, address, junk)), 0)
    else if b then Outcome(StoreByte(s', address, ReadReg(s', rd) % 0x100), 0)
    else Outcome(StoreWord(s', address, ReadReg(s', rd)), 0)
  }

  /** STRH, LDRH, LDRSB and LDRSH at an address. Without L it is a half store; with L the kind says what is
      loaded, and 0 (the multiplies) is refused, as is the PC for Rd in any case. */
  function ExtraAccess(s: State, l: bool, rd: nibble, kind: field2, address: word, junk: Uninit): Outcome
  {
    if rd == 15 then Outcome(s, UNDEFINED_INSTRUCTION)
    else if !l then Outcome(StoreHalf(s, address, ReadReg(s, rd) % 0x1_0000), 0)
    else
      match kind
      case 0 => Outcome(s, UNDEFINED_INSTRUCTION)
      case 1 => Outcome(WriteReg(s, rd, LoadHalf(s, address, junk)), 0)
      case 2 =>
        var v := LoadByte(s, address, junk);
        Outcome(WriteReg(s, rd, if v < 0x80 then v else 0xFFFF_FF00 + v), 0)
      case _ =>
        var v := LoadHalf(s, address, junk);
        Outcome(WriteReg(s, rd, if v < 0x8000 then v else 0xFFFF_0000 + v), 0)
  }

  /** The multiply and extra load/store space. The base moves by bits 11..0 first, as for LDR, and then from
      there by the 8-bit offset or Rm; the access is at the second place. */
  function ExtraTransferred(s: State, f: Form, junk: Uninit): Outcome
    requires f.Extra?
  {
    var base, still := ReadReg(s, f.rn), f.p && !f.w;
    var once := Moved(base, f.u, f.high * 0x100 + 0x90 + f.kind * 0x20 + f.low4);
    var s1 := if still then s else WriteReg(s, f.rn, once);
    var again := ReadReg(s1, f.rn);
    var twice := Moved(again, f.u, if f.b then f.high * 0x10 + f.low4 else ReadReg(s1, f.low4));
    var s2 := if still then s else WriteReg(s1, f.rn, twice);
    if !f.p && f.w then Outcome(s, UNDEFINED_INSTRUCTION)
    else if (if f.p then once else base) == 0xFFFF_FFFF then Outcome(s1, UNDEFINED_INSTRUCTION)
    else ExtraAccess(s2, f.l, f.rd, f.kind, if f.p then twice else again, junk)
  }

  // ----- branches and the rest -----

  /** How far a branch goes: four times the signed field, and 2^24 too far up where the field has bit 23 set
      and bit 22 clear. */
  function Distance(field: field24): int
  {
    if field < 0x80_0000 then 4 * field
    else if field >= 0xC0_0000 then 4 * (field - 0x100_0000)
    else 4 * (field - 0x100_0000) + 0x100_0000
  }

  function Jumped(s: State, link: bool, field: field24): State
  {
    var next := Shown(s.regs[15]);
    var s' := if link then WriteReg(s, 14, next) else s;
    s'.(regs := s'.regs[15 := Wrap(next + 4 + Distance(field))])
  }

  /** MRS; with W set (MSR) it is undefined. */
  function StatusRead(s: State, b: bool, w: bool, rd: nibble): Outcome
  {
    if w then Outcome(s, UNDEFINED_INSTRUCTION)
    else if rd == 15 then Outcome(s, -1)
    else Outcome(WriteReg(s, rd, if b then SpsrOf(s) else CpsrOf(s)), 0)
  }

  /** What an instruction of any form but a block transfer does to a state whose PC has been stepped. */
  function Effect(s: State, f: Form, junk: Uninit): Outcome
    requires !f.Block?
  {
    var c := CpsrOf(s) / 0x2000_0000 % 2;
    match f
    case ByImmediate(opcode, setFlags, rn, rd, amount, shift, rm) =>
      Operation(s, opcode, setFlags, rn, rd, ShiftedByConstant(ReadReg(s, rm), shift, amount, c))
    case ByRegister(opcode, setFlags, rn, rd, rs, shift, rm) =>
      Operation(s, opcode, setFlags, rn, rd, ShiftedByRegister(ReadReg(s, rm), shift, ReadReg(s, rs) % 0x100, c))
    case Immediate(opcode, setFlags, rn, rd, rotate, immed) =>
      Operation(s, opcode, setFlags, rn, rd, RotatedConstant(rotate, immed, c))
    case Status(b, w, _, rd, _) => StatusRead(s, b, w, rd)
    case Extra(_, _, _, _, _, _, _, _, _, _) => ExtraTransferred(s, f, junk)
    case Transfer(p, u, b, w, l, rn, rd, offset) => Transferred(s, p, u, b, w, l, rn, rd, offset, junk)
    case Scaled(p, u, b, w, l, rn, rd, amount, shift, _, rm) =>
      Transferred(s, p, u, b, w, l, rn, rd, Index(ReadReg(s, rm), shift, amount), junk)
    case Jump(link, field) => Outcome(Jumped(s, link, field), 0)
    case Coprocessor(_, _) => Outcome(s, UNDEFINED_INSTRUCTION)
    case Interrupt(_, _) => Outcome(WriteReg(s, 14, Shown(s.regs[15])), SOFTWARE_INTERRUPT)
  }
}
