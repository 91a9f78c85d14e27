/** The decoder's fields of an assembled word are the ones it was assembled from, and every word is
    assembled from some. */
module AssemblyLaws {
  import opened Words
  import opened Decode
  import opened InstructionSpec
  import opened Assembly

  // ----- the fields of a word -----

  lemma Parts(ins: word, cond: nibble, upper: nat, lower: nat)
    requires upper < 256 && lower < 0x10_0000 && ins == cond * 0x1000_0000 + upper * 0x10_0000 + lower
    ensures ins / 0x10_0000 == cond * 256 + upper && ins % 0x10_0000 == lower
  {
  }

  /** Bits 31..20. */
  lemma UpperFields(ins: word, cond: nibble, upper: nat, lower: nat)
    requires upper < 256 && lower < 0x10_0000 && ins == cond * 0x1000_0000 + upper * 0x10_0000 + lower
    ensures Cond(ins) == cond && InsType(ins) == upper / 32 && Opcode(ins) == upper / 2 % 16
    ensures BitI(ins) == (upper / 32 % 2 == 1) && Bit26(ins) == (upper / 64 % 2 == 1)
    ensures BitP(ins) == (upper / 16 % 2 == 1) && BitU(ins) == (upper / 8 % 2 == 1)
    ensures BitB(ins) == (upper / 4 % 2 == 1) && BitW(ins) == (upper / 2 % 2 == 1) && BitL(ins) == (upper % 2 == 1)
  {
    var x := cond * 256 + upper;
    Parts(ins, cond, upper, lower);
    Shifted2(ins, x);
    HighDigits(cond, upper);
  }

  lemma Shifted2(ins: word, x: nat)
    requires ins / 0x10_0000 == x
    ensures ins / 0x20_0000 == x / 2 && ins / 0x40_0000 == x / 4 && ins / 0x80_0000 == x / 8
    ensures ins / 0x100_0000 == x / 16 && ins / 0x200_0000 == x / 32 && ins / 0x400_0000 == x / 64
    ensures ins / 0x1000_0000 == x / 256
  {
    DivDiv(ins, 0x10_0000, 2);
    DivDiv(ins, 0x10_0000, 4);
    DivDiv(ins, 0x10_0000, 8);
    DivDiv(ins, 0x10_0000, 16);
    DivDiv(ins, 0x10_0000, 32);
    DivDiv(ins, 0x10_0000, 64);
    DivDiv(ins, 0x10_0000, 256);
  }

  /** A digit of a number does not depend on what is above it. */
  lemma Inside(x: nat, a: nat, r: nat, p: nat, w: nat)
    requires p > 0 && w > 0 && x == a * (w * p) + r
    ensures x / p % w == r / p % w
  {
    var q := r / p;
    assert a * (w * p) == a * w * p;
    assert (a * w + q) * p == a * w * p + q * p;
    NonNegative(a, w);
    DivModUnique(x, p, a * w + q, r % p);
    assert (a + q / w) * w == a * w + q / w * w;
    DivModUnique(a * w + q, w, a + q / w, q % w);
  }

  lemma HighDigits(cond: nibble, upper: nat)
    requires upper < 256
    ensures var x := cond * 256 + upper;
      && x / 256 == cond && x / 32 % 8 == upper / 32 && x / 2 % 16 == upper / 2 % 16
      && x / 32 % 2 == upper / 32 % 2 && x / 64 % 2 == upper / 64 % 2 && x / 16 % 2 == upper / 16 % 2
      && x / 8 % 2 == upper / 8 % 2 && x / 4 % 2 == upper / 4 % 2 && x / 2 % 2 == upper / 2 % 2 && x % 2 == upper % 2
  {
    var x := cond * 256 + upper;
    Inside(x, cond, upper, 32, 8);
    Inside(x, cond * 8, upper, 2, 16);
    Inside(x, cond * 2, upper, 64, 2);
    Inside(x, cond * 4, upper, 32, 2);
    Inside(x, cond * 8, upper, 16, 2);
    Inside(x, cond * 16, upper, 8, 2);
    Inside(x, cond * 32, upper, 4, 2);
    Inside(x, cond * 64, upper, 2, 2);
    Ends(cond, upper);
  }

  lemma Ends(cond: nibble, upper: nat)
    requires upper < 256
    ensures var x := cond * 256 + upper; x / 256 == cond && x % 2 == upper % 2
    ensures upper / 32 % 8 == upper / 32
  {
  }

  /** Bits 19..0, taken apart as Rn, Rd and the rest. */
  lemma LowerFields(ins: word, high: nat, rn: nibble, rd: nibble, low: nat)
    requires low < 0x1000 && ins == high * 0x10_0000 + rn * 0x1_0000 + rd * 0x1000 + low
    ensures Rn(ins) == rn && Rd(ins) == rd && Offset12(ins) == low
    ensures ins / 0x10 % 0x100 == low / 16 && ins / 0x10 % 16 == low / 16 % 16 && ins % 32 == low % 32
    ensures Rs(ins) == low / 256 == RotateImm(ins) && ShiftImm(ins) == low / 128 && ShiftType(ins) == low / 32 % 4
    ensures Bit7(ins) == (low / 128 % 2 == 1) && Bit4(ins) == (low / 16 % 2 == 1)
    ensures Rm(ins) == low % 16 && Immed8(ins) == low % 256
  {
    var y := high * 256 + rn * 16 + rd;
    assert ins == y * 0x1000 + low;
    Digits(ins, y, low, 0x1000);
    LowDigits(ins, y, low);
    assert ins / 0x1_0000 == y / 16 by { DivDiv(ins, 0x1000, 16); }
    assert y / 16 % 16 == rn && y % 16 == rd;
  }

  lemma Digits(x: nat, q: nat, r: nat, d: nat)
    requires r < d && x == q * d + r
    ensures x / d == q && x % d == r
  {
    DivModUnique(x, d, q, r);
  }

  lemma LowDigits(ins: word, y: nat, low: nat)
    requires low < 0x1000 && ins == y * 0x1000 + low
    ensures ins % 32 == low % 32 && ins % 16 == low % 16 && ins % 256 == low % 256
    ensures ins / 0x10 % 0x100 == low / 16 && ins / 0x10 % 16 == low / 16 % 16 && ins / 0x10 % 2 == low / 16 % 2
    ensures ins / 0x20 % 4 == low / 32 % 4 && ins / 0x80 % 32 == low / 128 && ins / 0x80 % 2 == low / 128 % 2
    ensures ins / 0x100 % 16 == low / 256
  {
    Inside(ins, y * 128, low, 1, 32);
    Inside(ins, y * 256, low, 1, 16);
    Inside(ins, y * 16, low, 1, 256);
    Inside(ins, y, low, 0x10, 0x100);
    Inside(ins, y * 16, low, 0x10, 16);
    Inside(ins, y * 128, low, 0x10, 2);
    Inside(ins, y * 32, low, 0x20, 4);
    Inside(ins, y, low, 0x80, 32);
    Inside(ins, y * 16, low, 0x80, 2);
    Inside(ins, y, low, 0x100, 16);
    SmallFields(low);
  }

  lemma SmallFields(low: nat)
    requires low < 0x1000
    ensures low / 16 % 0x100 == low / 16 && low / 128 % 32 == low / 128 && low / 256 % 16 == low / 256
  {
  }

  // ----- the fields of each form -----

  lemma OperationBits(opcode: nibble, s: bool, upper: nat, i: nat)
    requires i < 2 && upper == i * 0x20 + opcode * 2 + Digit(s)
    ensures upper / 32 == i && upper / 2 % 16 == opcode && (upper % 2 == 1 <==> s)
    ensures upper / 16 % 2 == 1 && upper / 8 % 2 == 0 <==> 8 <= opcode < 12
  {
  }

  lemma TransferBits(t: nat, p: bool, u: bool, b: bool, w: bool, l: bool, upper: nat)
    requires t < 8 && upper == t * 0x20 + Pubwl(p, u, b, w, l)
    ensures upper / 32 == t && (upper / 16 % 2 == 1 <==> p) && (upper / 8 % 2 == 1 <==> u)
    ensures (upper / 4 % 2 == 1 <==> b) && (upper / 2 % 2 == 1 <==> w) && (upper % 2 == 1 <==> l)
  {
    var dp, du, db, dw, dl := Digit(p), Digit(u), Digit(b), Digit(w), Digit(l);
    BinaryDigits(t, dp, du, db, dw, dl);
  }

  lemma BinaryDigits(t: nat, p: nat, u: nat, b: nat, w: nat, l: nat)
    requires p < 2 && u < 2 && b < 2 && w < 2 && l < 2
    ensures var x := t * 32 + p * 16 + u * 8 + b * 4 + w * 2 + l;
      && x / 32 == t && x / 16 % 2 == p && x / 8 % 2 == u && x / 4 % 2 == b && x / 2 % 2 == w && x % 2 == l
  {
    var x := t * 32 + p * 16 + u * 8 + b * 4 + w * 2 + l;
    Digits(x, 16 * t + p * 8 + u * 4 + b * 2 + w, l, 2);
    Digits(x, 8 * t + p * 4 + u * 2 + b, w * 2 + l, 4);
    Digits(x, 4 * t + p * 2 + u, b * 4 + w * 2 + l, 8);
    Digits(x, 2 * t + p, u * 8 + b * 4 + w * 2 + l, 16);
    Digits(x, t, p * 16 + u * 8 + b * 4 + w * 2 + l, 32);
    Digits(16 * t + p * 8 + u * 4 + b * 2 + w, 8 * t + p * 4 + u * 2 + b, w, 2);
    Digits(8 * t + p * 4 + u * 2 + b, 4 * t + p * 2 + u, b, 2);
    Digits(4 * t + p * 2 + u, 2 * t + p, u, 2);
    Digits(2 * t + p, t, p, 2);
  }

  lemma ShiftBits(amount: field5, shift: field2, b: nat, rm: nibble, low: nat)
    requires b < 2 && low == amount * 0x80 + shift * 0x20 + b * 0x10 + rm
    ensures low < 0x1000 && low / 128 == amount && low / 32 % 4 == shift && low / 16 % 2 == b && low % 16 == rm
    ensures low / 128 % 2 == amount % 2 && low / 256 == amount / 2
  {
    assert low / 32 == amount * 4 + shift && low / 16 == amount * 8 + shift * 2 + b;
  }

  lemma OperationUpper(ins: word, cond: nibble, i: nat, opcode: nibble, s: bool, lower: nat)
    requires i < 2 && lower < 0x10_0000
    requires ins == cond * 0x1000_0000 + (i * 0x20 + opcode * 2 + Digit(s)) * 0x10_0000 + lower
    ensures Cond(ins) == cond && InsType(ins) == i && Opcode(ins) == opcode && BitL(ins) == s
    ensures BitP(ins) && !BitU(ins) <==> 8 <= opcode < 12
  {
    var upper := i * 0x20 + opcode * 2 + Digit(s);
    UpperFields(ins, cond, upper, lower);
    hide Cond, InsType, Opcode, BitL, BitP, BitU;
    OperationBits(opcode, s, upper, i);
  }

  lemma TransferUpper(ins: word, cond: nibble, t: nat, p: bool, u: bool, b: bool, w: bool, l: bool, lower: nat)
    requires t < 8 && lower < 0x10_0000
    requires ins == cond * 0x1000_0000 + (t * 0x20 + Pubwl(p, u, b, w, l)) * 0x10_0000 + lower
    ensures Cond(ins) == cond && InsType(ins) == t && BitI(ins) == (t % 2 == 1) && Bit26(ins) == (t / 2 % 2 == 1)
    ensures BitP(ins) == p && BitU(ins) == u && BitB(ins) == b && BitW(ins) == w && BitL(ins) == l
  {
    var upper := t * 0x20 + Pubwl(p, u, b, w, l);
    UpperFields(ins, cond, upper, lower);
    hide Cond, InsType, BitL, BitP, BitU, BitB, BitW, BitI, Bit26, Pubwl;
    TransferBits(t, p, u, b, w, l, upper);
    TypeBits(upper);
  }

  lemma TypeBits(upper: nat)
    ensures upper / 64 == upper / 32 / 2
  {
  }

  lemma ShiftLower(ins: word, high: nat, rn: nibble, rd: nibble, amount: field5, shift: field2, b: nat, rm: nibble)
    requires b < 2
    requires ins == high * 0x10_0000 + rn * 0x1_0000 + rd * 0x1000 + amount * 0x80 + shift * 0x20 + b * 0x10 + rm
    ensures Rn(ins) == rn && Rd(ins) == rd && Rm(ins) == rm && ShiftImm(ins) == amount && ShiftType(ins) == shift
    ensures Rs(ins) == amount / 2 && Bit4(ins) == (b == 1) && Bit7(ins) == (amount % 2 == 1)
    ensures Offset12(ins) == amount * 0x80 + shift * 0x20 + b * 0x10 + rm
  {
    var low := amount * 0x80 + shift * 0x20 + b * 0x10 + rm;
    LowerFields(ins, high, rn, rd, low);
    hide Bit7, Bit4, Rn, Rd, Rs, Rm, Offset12, ShiftImm, ShiftType;
    ShiftBits(amount, shift, b, rm, low);
  }

  lemma FieldsByImmediate(cond: nibble, f: Form, ins: word)
    requires f.ByImmediate? && WellFormed(f) && ins == Encode(cond, f)
    ensures Cond(ins) == cond && InsType(ins) == 0 && !ToMiscellaneous(ins) && !Bit4(ins)
    ensures Opcode(ins) == f.opcode && BitL(ins) == f.s && Rn(ins) == f.rn && Rd(ins) == f.rd
    ensures ShiftImm(ins) == f.amount && ShiftType(ins) == f.shift && Rm(ins) == f.rm
  {
    hide Cond, InsType, Bit4, Bit7, Opcode, BitL, BitP, BitU, Rn, Rd, Rs, ShiftImm, ShiftType, Rm, Offset12;
    OperationUpper(ins, cond, 0, f.opcode, f.s, Lower(f));
    ShiftLower(ins, cond * 256 + Upper(f), f.rn, f.rd, f.amount, f.shift, 0, f.rm);
  }

  lemma FieldsByRegister(cond: nibble, f: Form, ins: word)
    requires f.ByRegister? && WellFormed(f) && ins == Encode(cond, f)
    ensures Cond(ins) == cond && InsType(ins) == 0 && !ToMiscellaneous(ins) && Bit4(ins) && !Bit7(ins)
    ensures Opcode(ins) == f.opcode && BitL(ins) == f.s && Rn(ins) == f.rn && Rd(ins) == f.rd
    ensures Rs(ins) == f.rs && ShiftType(ins) == f.shift && Rm(ins) == f.rm
  {
    hide Cond, InsType, Bit4, Bit7, Opcode, BitL, BitP, BitU, Rn, Rd, Rs, ShiftImm, ShiftType, Rm, Offset12;
    OperationUpper(ins, cond, 0, f.opcode, f.s, Lower(f));
    ShiftLower(ins, cond * 256 + Upper(f), f.rn, f.rd, 2 * f.rs, f.shift, 1, f.rm);
  }

  lemma FieldsImmediate(cond: nibble, f: Form, ins: word)
    requires f.Immediate? && ins == Encode(cond, f)
    ensures Cond(ins) == cond && InsType(ins) == 1
    ensures Opcode(ins) == f.opcode && BitL(ins) == f.s && Rn(ins) == f.rn && Rd(ins) == f.rd
    ensures RotateImm(ins) == f.rotate && Immed8(ins) == f.immed
  {
    var low := f.rotate * 0x100 + f.immed;
    assert low / 256 == f.rotate && low % 256 == f.immed;
    hide Cond, InsType, Bit4, Bit7, Opcode, BitL, BitP, BitU, Rn, Rd, Rs, ShiftImm, ShiftType, Rm, Offset12;
    hide RotateImm, Immed8;
    OperationUpper(ins, cond, 1, f.opcode, f.s, Lower(f));
    LowerFields(ins, cond * 256 + Upper(f), f.rn, f.rd, low);
  }

  lemma FieldsStatus(cond: nibble, f: Form, ins: word)
    requires f.Status? && ins == Encode(cond, f)
    ensures Cond(ins) == cond && InsType(ins) == 0 && ToMiscellaneous(ins)
    ensures BitB(ins) == f.b && BitW(ins) == f.w && !BitL(ins) && BitP(ins) && !BitU(ins)
    ensures Rn(ins) == f.rn && Rd(ins) == f.rd && Offset12(ins) == f.low
  {
    hide Cond, InsType, Bit4, Bit7, BitL, BitP, BitU, BitB, BitW, BitI, Bit26, Rn, Rd, Rs, ShiftImm, ShiftType, Rm;
    hide Offset12, RotateImm, Immed8;
    TransferUpper(ins, cond, 0, true, false, f.b, f.w, false, Lower(f));
    LowerFields(ins, cond * 256 + Upper(f), f.rn, f.rd, f.low);
  }

  lemma FieldsExtra(cond: nibble, f: Form, ins: word)
    requires f.Extra? && WellFormed(f) && ins == Encode(cond, f)
    ensures Cond(ins) == cond && InsType(ins) == 0 && !ToMiscellaneous(ins) && Bit7(ins) && Bit4(ins)
    ensures BitP(ins) == f.p && BitU(ins) == f.u && BitB(ins) == f.b && BitW(ins) == f.w && BitL(ins) == f.l
    ensures Rn(ins) == f.rn && Rd(ins) == f.rd && Rs(ins) == f.high && Rm(ins) == f.low4
    ensures Offset12(ins) == f.high * 0x100 + 0x90 + f.kind * 0x20 + f.low4 && ins / 0x10 % 16 == 9 + 2 * f.kind
    ensures ShiftType(ins) == f.kind
  {
    var low := f.high * 0x100 + 0x90 + f.kind * 0x20 + f.low4;
    KindBits(f.high, f.kind, f.low4);
    hide Cond, InsType, Bit7, Bit4, BitL, BitP, BitU, BitB, BitW, BitI, Bit26, Rn, Rd, Rs, Rm, Offset12, ShiftImm;
    hide ShiftType, Pubwl, RotateImm, Immed8;
    TransferUpper(ins, cond, 0, f.p, f.u, f.b, f.w, f.l, Lower(f));
    ShiftLower(ins, cond * 256 + Upper(f), f.rn, f.rd, 2 * f.high + 1, f.kind, 1, f.low4);
    OddAmount(f.high);
    KindField(ins, (cond * 256 + Upper(f)) * 256 + f.rn * 16 + f.rd, low);
  }

  lemma OddAmount(high: nibble)
    ensures (2 * high + 1) / 2 == high && (2 * high + 1) % 2 == 1
  {
  }

  lemma KindField(ins: word, y: nat, low: nat)
    requires low < 0x1000 && ins == y * 0x1000 + low
    ensures ins / 0x10 % 16 == low / 16 % 16
  {
    Inside(ins, y * 16, low, 0x10, 16);
  }

  lemma KindBits(high: nibble, kind: field2, low4: nibble)
    ensures (high * 0x100 + 0x90 + kind * 0x20 + low4) / 16 % 16 == 9 + 2 * kind
  {
    assert (high * 0x100 + 0x90 + kind * 0x20 + low4) / 16 == high * 16 + 9 + 2 * kind;
  }

  lemma FieldsTransfer(cond: nibble, f: Form, ins: word)
    requires f.Transfer? && ins == Encode(cond, f)
    ensures Cond(ins) == cond && InsType(ins) == 2 && Bit26(ins) && !BitI(ins)
    ensures BitP(ins) == f.p && BitU(ins) == f.u && BitB(ins) == f.b && BitW(ins) == f.w && BitL(ins) == f.l
    ensures Rn(ins) == f.rn && Rd(ins) == f.rd && Offset12(ins) == f.offset
  {
    hide Cond, InsType, Bit4, Bit7, BitL, BitP, BitU, BitB, BitW, BitI, Bit26, Rn, Rd, Rs, ShiftImm, ShiftType, Rm;
    hide Offset12, RotateImm, Immed8, Pubwl;
    TransferUpper(ins, cond, 2, f.p, f.u, f.b, f.w, f.l, Lower(f));
    LowerFields(ins, cond * 256 + Upper(f), f.rn, f.rd, f.offset);
  }

  lemma FieldsScaled(cond: nibble, f: Form, ins: word)
    requires f.Scaled? && ins == Encode(cond, f)
    ensures Cond(ins) == cond && InsType(ins) == 3 && Bit26(ins) && BitI(ins)
    ensures BitP(ins) == f.p && BitU(ins) == f.u && BitB(ins) == f.b && BitW(ins) == f.w && BitL(ins) == f.l
    ensures Rn(ins) == f.rn && Rd(ins) == f.rd
    ensures ShiftImm(ins) == f.amount && ShiftType(ins) == f.shift && Rm(ins) == f.rm
    ensures Bit4(ins) == f.bit4
  {
    hide Cond, InsType, Bit4, Bit7, BitL, BitP, BitU, BitB, BitW, BitI, Bit26, Rn, Rd, Rs, ShiftImm, ShiftType, Rm;
    hide Offset12, Pubwl;
    TransferUpper(ins, cond, 3, f.p, f.u, f.b, f.w, f.l, Lower(f));
    ShiftLower(ins, cond * 256 + Upper(f), f.rn, f.rd, f.amount, f.shift, Digit(f.bit4), f.rm);
  }

  lemma FieldsBlock(cond: nibble, f: Form, ins: word)
    requires f.Block? && ins == Encode(cond, f)
    ensures Cond(ins) == cond && InsType(ins) == 4 && ins % 0x1_0000 == f.list && Rn(ins) == f.rn
    ensures BitP(ins) == f.p && BitU(ins) == f.u && BitB(ins) == f.b && BitW(ins) == f.w && BitL(ins) == f.l
  {
    hide Cond, InsType, Bit4, Bit7, BitL, BitP, BitU, BitB, BitW, BitI, Bit26, Rn, Rd, Rs, ShiftImm, ShiftType, Rm;
    hide Offset12, Pubwl, RotateImm, Immed8;
    TransferUpper(ins, cond, 4, f.p, f.u, f.b, f.w, f.l, Lower(f));
    ListParts(f.list);
    LowerFields(ins, cond * 256 + Upper(f), f.rn, f.list / 0x1000, f.list % 0x1000);
    Digits(ins, (cond * 256 + Upper(f)) * 16 + f.rn, f.list, 0x1_0000);
  }

  lemma ListParts(list: half)
    ensures list == list / 0x1000 * 0x1000 + list % 0x1000 && list / 0x1000 < 16
  {
  }

  /** The forms whose last 24 bits are one number. */
  lemma NumberFields(ins: word, cond: nibble, t: nat, bit24: bool, number: field24)
    requires t < 8
    requires ins == cond * 0x1000_0000 + (t * 0x20 + Digit(bit24) * 16 + number / 0x10_0000) * 0x10_0000
                      + number % 0x10_0000
    ensures Cond(ins) == cond && InsType(ins) == t && BitP(ins) == bit24 && ins % 0x100_0000 == number
  {
    var upper := t * 0x20 + Digit(bit24) * 16 + number / 0x10_0000;
    UpperFields(ins, cond, upper, number % 0x10_0000);
    hide Cond, InsType, Opcode, BitL, BitP, BitU, BitB, BitW, BitI, Bit26;
    NumberBits(t, Digit(bit24), number / 0x10_0000);
    Digits(ins, cond * 16 + t * 2 + Digit(bit24), number, 0x100_0000);
  }

  lemma FieldsNumber(cond: nibble, f: Form, ins: word)
    requires (f.Jump? || f.Coprocessor? || f.Interrupt?) && ins == Encode(cond, f)
    ensures Cond(ins) == cond
    ensures f.Jump? ==> InsType(ins) == 5 && BitP(ins) == f.link && ins % 0x100_0000 == f.target
    ensures f.Coprocessor? ==> InsType(ins) == 6 && BitP(ins) == f.bit24 && ins % 0x100_0000 == f.rest
    ensures f.Interrupt? ==> InsType(ins) == 7 && BitP(ins) == f.bit24 && ins % 0x100_0000 == f.number
  {
    hide Cond, InsType, BitP;
    match f {
      case Jump(link, target) => NumberFields(ins, cond, 5, link, target);
      case Coprocessor(bit24, rest) => NumberFields(ins, cond, 6, bit24, rest);
      case Interrupt(bit24, number) => NumberFields(ins, cond, 7, bit24, number);
    }
  }

  lemma NumberBits(t: nat, d: nat, top: nat)
    requires t < 8 && d < 2 && top < 16
    ensures var x := t * 32 + d * 16 + top; x / 32 == t && x / 16 % 2 == d
  {
    assert (t * 32 + d * 16 + top) / 16 == 2 * t + d;
  }

  // ----- every word -----

  /** The form of a word. */
  function Disassemble(ins: word): (f: Form)
  {
    var rn, rd, rm, rs := Rn(ins), Rd(ins), Rm(ins), Rs(ins);
    var p, u, b, w, l := BitP(ins), BitU(ins), BitB(ins), BitW(ins), BitL(ins);
    match InsType(ins)
    case 0 =>
      if p && !u && !l then Status(b, w, rn, rd, Offset12(ins))
      else if !Bit4(ins) then ByImmediate(Opcode(ins), l, rn, rd, ShiftImm(ins), ShiftType(ins), rm)
      else if !Bit7(ins) then ByRegister(Opcode(ins), l, rn, rd, rs, ShiftType(ins), rm)
      else Extra(p, u, b, w, l, rn, rd, rs, ShiftType(ins), rm)
    case 1 => Immediate(Opcode(ins), l, rn, rd, RotateImm(ins), Immed8(ins))
    case 2 => Transfer(p, u, b, w, l, rn, rd, Offset12(ins))
    case 3 => Scaled(p, u, b, w, l, rn, rd, ShiftImm(ins), ShiftType(ins), Bit4(ins), rm)
    case 4 => Block(p, u, b, w, l, rn, ins % 0x1_0000)
    case 5 => Jump(p, ins % 0x100_0000)
    case 6 => Coprocessor(p, ins % 0x100_0000)
    case _ => Interrupt(p, ins % 0x100_0000)
  }

  lemma HighSplit(ins: word)
    ensures ins == ins / 0x1000_0000 * 0x1000_0000 + ins / 0x10_0000 % 256 * 0x10_0000 + ins % 0x10_0000
  {
    DivDiv(ins, 0x10_0000, 256);
  }

  lemma UpperSplit(upper: nat)
    requires upper < 256
    ensures upper == upper / 32 * 32 + upper / 2 % 16 * 2 + upper % 2
    ensures upper == upper / 32 * 32 + upper / 16 % 2 * 16 + upper % 16
    ensures upper == upper / 32 * 32 + upper / 16 % 2 * 16 + upper / 8 % 2 * 8 + upper / 4 % 2 * 4 + upper / 2 % 2 * 2
                     + upper % 2
  {
    DivDiv(upper, 2, 16);
    DivDiv(upper, 16, 2);
    DivDiv(upper, 8, 2);
    DivDiv(upper, 4, 2);
    DivDiv(upper, 2, 2);
  }

  lemma LowerSplit(lower: nat)
    requires lower < 0x10_0000
    ensures lower == lower / 0x1_0000 * 0x1_0000 + lower % 0x1_0000
    ensures lower == lower / 0x1_0000 * 0x1_0000 + lower / 0x1000 % 16 * 0x1000 + lower % 0x1000
  {
    DivDiv(lower, 0x1000, 16);
  }

  lemma LowSplit(low: nat)
    requires low < 0x1000
    ensures low == low / 128 * 128 + low / 32 % 4 * 32 + low / 16 % 2 * 16 + low % 16
    ensures low / 128 == low / 256 * 2 + low / 128 % 2 && low == low / 256 * 256 + low % 256
  {
    DivDiv(low, 32, 4);
    DivDiv(low, 16, 2);
    DivDiv(low, 128, 2);
  }

  /** Bits 27..20 in the three ways they are read. */
  lemma UpperJoined(ins: word)
    ensures var upper, t := ins / 0x10_0000 % 256, InsType(ins);
      && t < 8
      && upper == t * 32 + Opcode(ins) * 2 + Digit(BitL(ins))
      && upper == t * 32 + Pubwl(BitP(ins), BitU(ins), BitB(ins), BitW(ins), BitL(ins))
      && upper == t * 32 + Digit(BitP(ins)) * 16 + ins % 0x100_0000 / 0x10_0000
    ensures 8 <= Opcode(ins) < 12 <==> BitP(ins) && !BitU(ins)
  {
    var upper := ins / 0x10_0000 % 256;
    HighSplit(ins);
    UpperFields(ins, ins / 0x1000_0000, upper, ins % 0x10_0000);
    NumberTop(ins);
    hide InsType, Opcode, BitP, BitU, BitB, BitW, BitL, BitI, Bit26, Cond;
    UpperSplit(upper);
    OpcodeRange(upper);
  }

  lemma NumberTop(ins: word)
    ensures ins % 0x100_0000 / 0x10_0000 == ins / 0x10_0000 % 256 % 16
  {
    var x := ins / 0x10_0000;
    DivDiv(ins, 0x10_0000, 16);
    DivDiv(x, 16, 16);
    Digits(ins % 0x100_0000, x % 16, ins % 0x10_0000, 0x10_0000);
    DivModUnique(x % 256, 16, x / 16 % 16, x % 16);
  }

  lemma NumberRest(ins: word)
    ensures ins % 0x100_0000 % 0x10_0000 == ins % 0x10_0000
  {
    DivDiv(ins, 0x10_0000, 16);
    Digits(ins % 0x100_0000, ins / 0x10_0000 % 16, ins % 0x10_0000, 0x10_0000);
  }

  lemma OpcodeRange(upper: nat)
    requires upper < 256
    ensures 8 <= upper / 2 % 16 < 12 <==> upper / 16 % 2 == 1 && upper / 8 % 2 == 0
  {
    var x := upper / 2;
    DivDiv(upper, 2, 8);
    DivDiv(upper, 2, 4);
    DivDiv(x, 8, 2);
    DivDiv(x, 4, 4);
    DivDiv(x / 4, 2, 2);
    DivDiv(x, 4, 2);
  }

  lemma DisassembledUpper(ins: word)
    ensures Upper(Disassemble(ins)) == ins / 0x10_0000 % 256
  {
    hide InsType, Opcode, BitP, BitU, BitB, BitW, BitL, Rn, Rd, Rm, Rs, Offset12, ShiftImm, ShiftType, Bit4, Bit7;
    hide RotateImm, Immed8, Pubwl;
    UpperJoined(ins);
    if InsType(ins) == 0 {
      hide Digit;
      StatusBits(BitB(ins), BitW(ins));
    }
  }

  lemma StatusBits(b: bool, w: bool)
    ensures Pubwl(true, false, b, w, false) == 16 + Digit(b) * 4 + Digit(w) * 2
  {
  }

  lemma DisassembledForm(ins: word)
    ensures WellFormed(Disassemble(ins))
  {
    hide InsType, Opcode, BitP, BitU, BitB, BitW, BitL, Rn, Rd, Rm, Rs, Offset12, ShiftImm, ShiftType, Bit4, Bit7;
    hide RotateImm, Immed8;
    UpperJoined(ins);
  }

  /** Bits 19..0 in the ways they are read. */
  lemma LowerJoined(ins: word)
    ensures var lower, top := ins % 0x10_0000, Rn(ins) * 0x1_0000 + Rd(ins) * 0x1000;
      && lower == top + Offset12(ins)
      && lower == top + ShiftImm(ins) * 0x80 + ShiftType(ins) * 0x20 + Digit(Bit4(ins)) * 0x10 + Rm(ins)
      && lower == top + Rs(ins) * 0x100 + Digit(Bit7(ins)) * 0x80 + ShiftType(ins) * 0x20 + Digit(Bit4(ins)) * 0x10
                  + Rm(ins)
      && lower == top + RotateImm(ins) * 0x100 + Immed8(ins)
      && lower == Rn(ins) * 0x1_0000 + ins % 0x1_0000
  {
    var lower := ins % 0x10_0000;
    LowerSplit(lower);
    LowSplit(lower % 0x1000);
    DivDiv(ins, 0x1_0000, 16);
    LowerFields(ins, ins / 0x10_0000, lower / 0x1_0000, lower / 0x1000 % 16, lower % 0x1000);
    hide Bit7, Bit4, Rn, Rd, Rs, Rm, Offset12, ShiftImm, ShiftType, RotateImm, Immed8;
    Digits(ins, ins / 0x10_0000 * 16 + lower / 0x1_0000, lower % 0x1_0000, 0x1_0000);
  }

  lemma DisassembledLower(ins: word)
    ensures Lower(Disassemble(ins)) == ins % 0x10_0000
  {
    LowerJoined(ins);
    NumberRest(ins);
    hide InsType, Opcode, BitP, BitU, BitB, BitW, BitL, Rn, Rd, Rm, Rs, Offset12, ShiftImm, ShiftType, Bit4, Bit7;
    hide RotateImm, Immed8, Pubwl;
  }

  /** Every word is the assembly of its form and condition: the forms leave no word out. */
  lemma EveryWord(ins: word)
    ensures WellFormed(Disassemble(ins)) && Encode(ins / 0x1000_0000, Disassemble(ins)) == ins
  {
    hide Disassemble, Upper, Lower;
    DisassembledForm(ins);
    DisassembledUpper(ins);
    DisassembledLower(ins);
    HighSplit(ins);
  }

  /** And of no other: taking an assembled word apart gives back what it was assembled from. */
  lemma OneForm(cond: nibble, f: Form)
    requires WellFormed(f)
    ensures Disassemble(Encode(cond, f)) == f && Cond(Encode(cond, f)) == cond
  {
    hide Encode, InsType, Opcode, BitP, BitU, BitB, BitW, BitL, Rn, Rd, Rm, Rs, Offset12, ShiftImm, ShiftType, Bit4;
    hide Bit7, RotateImm, Immed8, Cond, BitI, Bit26;
    var ins := Encode(cond, f);
    match f {
      case ByImmediate(_, _, _, _, _, _, _) => FieldsByImmediate(cond, f, ins);
      case ByRegister(_, _, _, _, _, _, _) => FieldsByRegister(cond, f, ins);
      case Immediate(_, _, _, _, _, _) => FieldsImmediate(cond, f, ins);
      case Status(_, _, _, _, _) => FieldsStatus(cond, f, ins);
      case Extra(_, _, _, _, _, _, _, _, _, _) => FieldsExtra(cond, f, ins);
      case Transfer(_, _, _, _, _, _, _, _) => FieldsTransfer(cond, f, ins);
      case Scaled(_, _, _, _, _, _, _, _, _, _, _) => FieldsScaled(cond, f, ins);
      case Block(_, _, _, _, _, _, _) => FieldsBlock(cond, f, ins);
      case Jump(_, _) => FieldsNumber(cond, f, ins);
      case Coprocessor(_, _) => FieldsNumber(cond, f, ins);
      case Interrupt(_, _) => FieldsNumber(cond, f, ins);
    }
  }
}
