/** Instruction words put together from their fields, as the manual draws them (ARM DDI 0100, section A3.1). */
module Assembly {
  import opened Words

  type nibble = x: int | 0 <= x < 16

  type field5 = x: int | 0 <= x < 32

  type field2 = x: int | 0 <= x < 4

  type field12 = x: int | 0 <= x < 0x1000

  type field24 = x: int | 0 <= x < 0x100_0000

  /** The forms of instruction that the interpreter tells apart, without the condition. */
  datatype Form =
    | ByImmediate(opcode: nibble, s: bool, rn: nibble, rd: nibble, amount: field5, shift: field2, rm: nibble)
    | ByRegister(opcode: nibble, s: bool, rn: nibble, rd: nibble, rs: nibble, shift: field2, rm: nibble)
    | Immediate(opcode: nibble, s: bool, rn: nibble, rd: nibble, rotate: nibble, immed: byte)
    | Status(b: bool, w: bool, rn: nibble, rd: nibble, low: field12)
    | Extra(p: bool, u: bool, b: bool, w: bool, l: bool, rn: nibble, rd: nibble,
            high: nibble, kind: field2, low4: nibble)
    | Transfer(p: bool, u: bool, b: bool, w: bool, l: bool, rn: nibble, rd: nibble, offset: field12)
    | Scaled(p: bool, u: bool, b: bool, w: bool, l: bool, rn: nibble, rd: nibble,
             amount: field5, shift: field2, bit4: bool, rm: nibble)
    | Block(p: bool, u: bool, b: bool, w: bool, l: bool, rn: nibble, list: half)
    | Jump(link: bool, target: field24)
    | Coprocessor(bit24: bool, rest: field24)
    | Interrupt(bit24: bool, number: field24)

  /** Comparisons without S, and stores with P = 1 and U = 0 in the multiply and extra load/store space,
      are words of the `Status` form. */
  predicate WellFormed(f: Form)
  {
    match f
    case ByImmediate(opcode, s, _, _, _, _, _) => 8 <= opcode < 12 ==> s
    case ByRegister(opcode, s, _, _, _, _, _) => 8 <= opcode < 12 ==> s
    case Extra(p, u, _, _, l, _, _, _, _, _) => p && !u ==> l
    case _ => true
  }

  /** Bits 24..20 of a transfer. */
  function Pubwl(p: bool, u: bool, b: bool, w: bool, l: bool): (x: nat)
    ensures x < 32
  {
    Digit(p) * 16 + Digit(u) * 8 + Digit(b) * 4 + Digit(w) * 2 + Digit(l)
  }

  /** Bits 27..20. */
  function Upper(f: Form): (x: nat)
    ensures x < 256
  {
    match f
    case ByImmediate(opcode, s, _, _, _, _, _) => opcode * 2 + Digit(s)
    case ByRegister(opcode, s, _, _, _, _, _) => opcode * 2 + Digit(s)
    case Immediate(opcode, s, _, _, _, _) => 0x20 + opcode * 2 + Digit(s)
    case Status(b, w, _, _, _) => 0x10 + Digit(b) * 4 + Digit(w) * 2
    case Extra(p, u, b, w, l, _, _, _, _, _) => Pubwl(p, u, b, w, l)
    case Transfer(p, u, b, w, l, _, _, _) => 0x40 + Pubwl(p, u, b, w, l)
    case Scaled(p, u, b, w, l, _, _, _, _, _, _) => 0x60 + Pubwl(p, u, b, w, l)
    case Block(p, u, b, w, l, _, _) => 0x80 + Pubwl(p, u, b, w, l)
    case Jump(link, target) => 0xA0 + Digit(link) * 16 + target / 0x10_0000
    case Coprocessor(bit24, rest) => 0xC0 + Digit(bit24) * 16 + rest / 0x10_0000
    case Interrupt(bit24, number) => 0xE0 + Digit(bit24) * 16 + number / 0x10_0000
  }

  /** Bits 19..0. */
  function Lower(f: Form): (x: nat)
    ensures x < 0x10_0000
  {
    match f
    case ByImmediate(_, _, rn, rd, amount, shift, rm) =>
      rn * 0x1_0000 + rd * 0x1000 + amount * 0x80 + shift * 0x20 + rm
    case ByRegister(_, _, rn, rd, rs, shift, rm) =>
      rn * 0x1_0000 + rd * 0x1000 + rs * 0x100 + shift * 0x20 + 0x10 + rm
    case Immediate(_, _, rn, rd, rotate, immed) => rn * 0x1_0000 + rd * 0x1000 + rotate * 0x100 + immed
    case Status(_, _, rn, rd, low) => rn * 0x1_0000 + rd * 0x1000 + low
    case Extra(_, _, _, _, _, rn, rd, high, kind, low4) =>
      rn * 0x1_0000 + rd * 0x1000 + high * 0x100 + 0x90 + kind * 0x20 + low4
    case Transfer(_, _, _, _, _, rn, rd, offset) => rn * 0x1_0000 + rd * 0x1000 + offset
    case Scaled(_, _, _, _, _, rn, rd, amount, shift, bit4, rm) =>
      rn * 0x1_0000 + rd * 0x1000 + amount * 0x80 + shift * 0x20 + Digit(bit4) * 0x10 + rm
    case Block(_, _, _, _, _, rn, list) => rn * 0x1_0000 + list
    case Jump(_, target) => target % 0x10_0000
    case Coprocessor(_, rest) => rest % 0x10_0000
    case Interrupt(_, number) => number % 0x10_0000
  }

  function Encode(cond: nibble, f: Form): word { cond * 0x1000_0000 + Upper(f) * 0x10_0000 + Lower(f) }
}
