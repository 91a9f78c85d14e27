/** What the shifters mean as arithmetic, and where they agree with each other and with the manual. */
module ShifterLaws {
  import opened Words
  import opened ShifterSpec

  // ----- rotation -----

  /** Rotation right by one place: the low bit goes round to the top. */
  function RotateOne(y: word): word { y / 2 + y % 2 * 0x8000_0000 }

  /** Rotation right by one place, n times. */
  function Ror(x: word, n: nat): word
    decreases n, x
  {
    if n == 0 then x else RotateOne(Ror(x, n - 1))
  }

  lemma HalfTurnPowers(n: nat)
    requires 0 < n <= 32
    ensures Pow2(n - 1) * Pow2(32 - n) == 0x8000_0000
  {
    Pow2Add(n - 1, 32 - n);
    Pow2Of31();
  }

  lemma {:induction false} RorClosedForm(x: word, n: nat)
    requires n <= 32
    ensures Ror(x, n) == x / Pow2(n) + x % Pow2(n) * Pow2(32 - n)
  {
    if n == 0 {
      assert x / 1 == x;
    } else {
      RorClosedForm(x, n - 1);
      var p, c := Pow2(n - 1), Pow2(32 - n);
      assert Pow2(n) == 2 * p && Pow2(32 - (n - 1)) == 2 * c;
      HalfTurnPowers(n);
      RorStep(x, p, c);
    }
  }

  lemma RorStep(x: word, p: int, c: int)
    requires p > 0 && c > 0 && p * c == 0x8000_0000
    requires 0 <= x / p + x % p * (2 * c) < 0x1_0000_0000
    ensures RotateOne(x / p + x % p * (2 * c)) == x / (2 * p) + x % (2 * p) * c
  {
    var q, r := x / p, x % p;
    DivDiv(x, p, 2);
    Halve(q, r * c);
    Doubles(r, c);
    var b := q % 2;
    assert (b * p + r) * c == b * 0x8000_0000 + r * c by {
      Regroup(b, r, c, p);
      assert c * p == p * c;
    }
  }

  lemma Halve(q: int, k: int)
    ensures (q + 2 * k) / 2 == q / 2 + k && (q + 2 * k) % 2 == q % 2
  {
  }

  lemma RorZero(x: word)
    ensures Ror(x, 0) == x
  {
  }

  lemma RorFullTurn(x: word, turn: nat)
    requires turn == 32
    ensures Ror(x, turn) == x
  {
    RorClosedForm(x, turn);
    WordBelowPow2(x, turn);
    DivModUnique(x, Pow2(turn), 0, x);
  }

  lemma {:induction false} RorCompose(x: word, a: nat, b: nat)
    ensures Ror(Ror(x, a), b) == Ror(x, a + b)
  {
    if b > 0 {
      RorCompose(x, a, b - 1);
    }
  }

  lemma {:induction false} RorTurns(x: word, turn: nat, r: nat, k: nat)
    requires Ror(x, turn) == x
    ensures k * turn >= 0 && Ror(x, k * turn + r) == Ror(x, r)
    decreases k
  {
    NonNegative(k, turn);
    if k > 0 {
      RorTurns(x, turn, r, k - 1);
      var m := (k - 1) * turn + r;
      MulStep(k, turn);
      RorCompose(x, turn, m);
    }
  }

  lemma RorModulo(x: word, n: nat)
    ensures Ror(x, n) == Ror(x, n % 32)
  {
    var turn := 32;
    RorFullTurn(x, turn);
    RorTurns(x, turn, n % 32, n / 32);
  }

  /** Rotations compose by adding their amounts modulo 32. */
  lemma {:induction false} RotationsAdd(x: word, a: nat, b: nat)
    ensures Ror(Ror(x, a), b) == Ror(x, (a + b) % 32)
  {
    RorCompose(x, a, b);
    RorModulo(x, a + b);
  }

  lemma SplitProduct(x: word, p: int, c: int)
    requires p > 0 && c > 0 && p * c == 0x1_0000_0000
    ensures x * p == x / c * 0x1_0000_0000 + x % c * p
    ensures 0 <= x % c * p < 0x1_0000_0000
    ensures Wrap(x * p) == x % c * p
  {
    Regroup(x / c, x % c, p, c);
    RemainderBound(0, x % c, p, c);
    DivModUnique(x * p, 0x1_0000_0000, x / c, x % c * p);
  }

  /** Shifting a word left keeps the bits that fit, and the ones that fall off are the quotient. */
  lemma ShiftLeftSplits(x: word, s: nat)
    requires s <= 32
    ensures Pow2(s) * Pow2(32 - s) == 0x1_0000_0000
    ensures x * Pow2(s) == x / Pow2(32 - s) * 0x1_0000_0000 + x % Pow2(32 - s) * Pow2(s)
    ensures 0 <= x % Pow2(32 - s) * Pow2(s) < 0x1_0000_0000
    ensures Lsl(x, s) == x % Pow2(32 - s) * Pow2(s)
  {
    var p, c := Pow2(s), Pow2(32 - s);
    assert p * c == 0x1_0000_0000 by {
      Pow2Add(s, 32 - s);
      Pow2Of32();
    }
    SplitProduct(x, p, c);
  }

  lemma QuotientBelow(x: int, p: int, c: int)
    requires p > 0 && 0 <= x < p * c
    ensures x / p < c
  {
  }

  lemma RotateRightIsRor(x: word, s: nat)
    requires 0 < s < 32
    ensures RotateRight(x, s) == Ror(x, s)
    ensures RotateRight(x, s) / 0x8000_0000 == GetBit(x, s - 1)
  {
    hide Pow2, Ror, Or;
    ShiftLeftSplits(x, 32 - s);
    var p, c := Pow2(s), Pow2(32 - s);
    var q, r := x / p, x % p;
    QuotientBelow(x, p, c);
    OrCommutes(q, r * c);
    OrDisjoint(r, q, 32 - s);
    RorClosedForm(x, s);
    RorTop(x, s);
  }

  lemma {:induction false} OrCommutes(x: nat, y: nat)
    ensures Or(x, y) == Or(y, x)
  {
    if x > 0 && y > 0 {
      OrCommutes(x / 2, y / 2);
    }
  }

  /** The top bit after rotating is the last bit that went round. */
  lemma RorTop(x: word, s: nat)
    requires 0 < s <= 32
    ensures Ror(x, s) / 0x8000_0000 == GetBit(x, s - 1)
  {
    RorClosedForm(x, s - 1);
    var p, c, y := Pow2(s - 1), Pow2(32 - s), Ror(x, s - 1);
    Doubles(x % p, c);
    Halve(x / p, x % p * c);
    TopBit(y);
  }

  lemma TopBit(y: word)
    ensures RotateOne(y) / 0x8000_0000 == y % 2
  {
  }

  lemma ImmediateRotation(immed: byte, rotate: nat, c: nat)
    requires 0 < rotate < 16 && c < 2
    ensures RotatedImmediate(rotate, immed, c).operand == Ror(immed, 2 * rotate)
    ensures RotatedImmediate(rotate, immed, c).carry == Ror(immed, 2 * rotate) / 0x8000_0000
  {
    RotateRightIsRor(immed, 2 * rotate);
    Bit31(Ror(immed, 2 * rotate));
  }

  /** Every rotation in the interpreter is the same rotation: rotated immediates, ROR by immediate,
      ROR by register (all 255 nonzero amounts) and the load/store ROR; where a carry is produced it
      is the top bit of the result. */
  lemma AllRotationsAgree(rm: word, imm: nat, amount: byte, rotate: nat, immed: byte, c: nat)
    requires 0 < imm < 32 && 0 < amount && 0 < rotate < 16 && c < 2
    ensures ShiftByImmediate(rm, ROR, imm, c) == Shifted(Ror(rm, imm), Ror(rm, imm) / 0x8000_0000)
    ensures ShiftByRegister(rm, ROR, amount, c) == Shifted(Ror(rm, amount), Ror(rm, amount) / 0x8000_0000)
    ensures RotatedImmediate(rotate, immed, c) == Shifted(Ror(immed, 2 * rotate), Ror(immed, 2 * rotate) / 0x8000_0000)
    ensures LoadStoreIndex(rm, imm, ROR, c) == Ror(rm, imm)
  {
    hide Ror, Pow2, RotateRight, GetBit, Lsl, Lsr;
    RotateRightIsRor(rm, imm);
    RorModulo(rm, amount);
    if amount % 32 == 0 {
      RorZero(rm);
      Bit31(rm);
    } else {
      RotateRightIsRor(rm, amount % 32);
    }
    ImmediateRotation(immed, rotate, c);
  }

  // ----- logical shifts -----

  /** No shift at all - LSL #0, a register amount of 0, an unrotated immediate - hands the value and
      the carry flag through. */
  lemma IdentityShifts(rm: word, shift: nat, immed: byte, c: nat)
    requires shift < 4 && c < 2
    ensures ShiftByImmediate(rm, LSL, 0, c) == ShiftByRegister(rm, shift, 0, c) == Shifted(rm, c)
    ensures RotatedImmediate(0, immed, c) == Shifted(immed, c)
    ensures LoadStoreIndex(rm, 0, LSL, c) == rm
  {
    hide GetBit, RotateRight, OrW, Lsr;
    PowerZero();
  }

  lemma HalvingStep(rm: word, s: nat)
    requires s >= 1
    ensures 2 * (rm / Pow2(s)) + GetBit(rm, s - 1) == rm / Pow2(s - 1)
  {
    DivDiv(rm, Pow2(s - 1), 2);
  }

  /** LSR, by an immediate (0 standing for 32) or by a register: operand and carry-out together are
      the operand shifted one place less. */
  lemma LsrIsDivision(rm: word, imm: nat, amount: byte, c: nat)
    requires imm < 32 && 0 < amount && c < 2
    ensures var r := ShiftByImmediate(rm, LSR, imm, c);
      2 * r.operand + r.carry == rm / Pow2(if imm == 0 then 31 else imm - 1)
    ensures var r := ShiftByRegister(rm, LSR, amount, c);
      2 * r.operand + r.carry == rm / Pow2(amount - 1)
  {
    hide Pow2, GetBit;
    HalvingStep(rm, if imm == 0 then 32 else imm);
    HalvingStep(rm, amount);
    WordBelowPow2(rm, 32);
    if amount >= 32 {
      WordBelowPow2(rm, amount);
    }
    if amount > 32 {
      WordBelowPow2(rm, amount - 1);
    }
  }

  lemma {:induction false} LslStep(rm: word, s: nat)
    requires 1 <= s <= 32
    ensures Lsl(rm, s) + GetBit(rm, 32 - s) * 0x1_0000_0000 == rm * Pow2(s) % 0x2_0000_0000
  {
    hide Pow2, Lsl;
    ShiftLeftSplits(rm, s);
    Low33Bits(rm / Pow2(32 - s), Lsl(rm, s));
  }

  lemma Low33Bits(q: nat, lo: word)
    ensures (q * 0x1_0000_0000 + lo) % 0x2_0000_0000 == q % 2 * 0x1_0000_0000 + lo
  {
    var h := q / 2;
    assert q * 0x1_0000_0000 + lo == h * 0x2_0000_0000 + (q % 2 * 0x1_0000_0000 + lo);
  }

  lemma PowerZero()
    ensures Pow2(0) == 1
  {
  }

  lemma {:induction false} LslTooFar(rm: word, s: nat)
    requires s > 32
    ensures rm * Pow2(s) % 0x2_0000_0000 == 0
  {
    hide Pow2;
    var p := Pow2(s - 33);
    Pow2Of33();
    Pow2Add(33, s - 33);
    FactorOut(rm, 0x2_0000_0000, p);
    DivModUnique(rm * Pow2(s), 0x2_0000_0000, rm * p, 0);
  }

  lemma FactorOut(x: int, k: int, p: int)
    ensures x * (k * p) == x * p * k
  {
  }

  lemma Pow2Of33()
    ensures Pow2(33) == 0x2_0000_0000
  {
    Pow2Of32();
    Pow2Add(32, 1);
    assert Pow2(1) == 2;
  }

  /** LSL by 1 or more: operand and carry-out are the low 33 bits of the product; the one exception
      is a register amount of exactly 32, where the operand comes back unshifted. */
  lemma LslIsMultiplication(rm: word, imm: nat, amount: byte, c: nat)
    requires 0 < imm < 32 && 0 < amount && c < 2
    ensures var r := ShiftByImmediate(rm, LSL, imm, c);
      r.operand + 0x1_0000_0000 * r.carry == rm * Pow2(imm) % 0x2_0000_0000
    ensures var r := ShiftByRegister(rm, LSL, amount, c);
      r.operand + 0x1_0000_0000 * r.carry == rm * Pow2(amount) % 0x2_0000_0000 <==> amount != 32 || rm == 0
  {
    hide Pow2, GetBit, Lsl;
    LslStep(rm, imm);
    if amount <= 32 {
      LslStep(rm, amount);
    } else {
      LslTooFar(rm, amount);
    }
    if amount == 32 {
      ShiftLeftSplits(rm, 32);
      assert rm % Pow2(0) == 0 by { PowerZero(); }
    }
  }

  // ----- arithmetic shift right -----

  /** What section A5.1.9 asks for: the signed value divided by 2^s, rounded down. */
  function ArithmeticShift(rm: word, s: nat): word { Wrap(Signed(rm) / Pow2(s)) }

  lemma NegativeShift(rm: word, s: nat)
    requires rm >= 0x8000_0000 && s <= 32
    ensures ArithmeticShift(rm, s) == rm / Pow2(s) + 0x1_0000_0000 - Pow2(32 - s)
  {
    var p, k := Pow2(s), Pow2(32 - s);
    assert p * k == 0x1_0000_0000 by {
      Pow2Add(s, 32 - s);
      Pow2Of32();
    }
    FloorOfNegative(rm, p, k);
  }

  lemma FloorOfNegative(rm: word, p: int, k: int)
    requires p > 0 && k > 0 && p * k == 0x1_0000_0000
    ensures (rm - 0x1_0000_0000) / p == rm / p - k
    ensures 0 <= rm / p < k <= 0x1_0000_0000
  {
    var q, r := rm / p, rm % p;
    MulStep(p, k);
    assert (q - k) * p == q * p - p * k;
    DivModUnique(rm - 0x1_0000_0000, p, q - k, r);
    QuotientBelow(rm, p, k);
    ShiftBound(p, k);
  }

  lemma ShiftBound(p: int, k: int)
    requires p > 0 && k > 0 && p * k == 0x1_0000_0000
    ensures k <= 0x1_0000_0000
  {
  }

  lemma PositiveShift(rm: word, s: nat)
    requires rm < 0x8000_0000
    ensures ArithmeticShift(rm, s) == rm / Pow2(s)
    ensures s >= 31 ==> rm / Pow2(s) == 0
  {
    DivNoBigger(rm, Pow2(s));
    if s >= 31 {
      Pow2Of31();
      Pow2Mono(31, s);
      DivModUnique(rm, Pow2(s), 0, rm);
    }
  }

  /** ASR is shifted in logically, so the immediate form is right exactly for non-negative operands.
      On a negative one an amount of 1 to 31 is too small by 2^32 - 2^(32-s), and #32 leaves 0xFF. */
  lemma AsrByImmediate(rm: word, imm: nat, c: nat)
    requires imm < 32 && c < 2
    ensures var r, s := ShiftByImmediate(rm, ASR, imm, c), if imm == 0 then 32 else imm;
      && (r.operand == ArithmeticShift(rm, s) <==> rm < 0x8000_0000)
      && r.carry == GetBit(rm, s - 1)
      && (rm >= 0x8000_0000 && imm > 0 ==> r.operand == ArithmeticShift(rm, s) + Pow2(32 - s) - 0x1_0000_0000)
      && (rm >= 0x8000_0000 && imm == 0 ==> ArithmeticShift(rm, s) == 0xFFFF_FFFF && r.operand == 0xFF)
  {
    hide Pow2, GetBit, ArithmeticShift;
    var s := if imm == 0 then 32 else imm;
    Bit31(rm);
    if rm < 0x8000_0000 {
      PositiveShift(rm, s);
    } else {
      NegativeShift(rm, s);
      SmallerPower(s);
      if imm == 0 {
        AllOnes(rm, 32);
      }
    }
  }

  lemma SmallerPower(s: nat)
    requires s >= 1
    ensures s <= 32 ==> Pow2(32 - s) <= 0x8000_0000
  {
    if s <= 32 {
      Pow2Of31();
      Pow2Mono(32 - s, 31);
    }
  }

  /** The register form is right exactly when the operand is non-negative, or the amount is 0 or at
      least 32; its carry-out is always the last bit an arithmetic shift drops. */
  lemma AsrByRegister(rm: word, amount: byte, c: nat)
    requires c < 2
    ensures ShiftByRegister(rm, ASR, amount, c).operand == ArithmeticShift(rm, amount) <==>
      rm < 0x8000_0000 || amount == 0 || amount >= 32
    ensures amount > 0 ==> ShiftByRegister(rm, ASR, amount, c).carry == Signed(rm) / Pow2(amount - 1) % 2
  {
    if amount > 0 {
      AsrCarry(rm, amount);
    }
    hide Pow2, GetBit, ArithmeticShift;
    Bit31(rm);
    if amount == 0 {
      assert ArithmeticShift(rm, 0) == rm by { NoShift(rm); }
    } else if rm < 0x8000_0000 {
      PositiveShift(rm, amount);
    } else if amount < 32 {
      NegativeShift(rm, amount);
      SmallerPower(amount);
    } else {
      AllOnes(rm, amount);
    }
  }

  lemma AsrCarry(rm: word, s: nat)
    requires s > 0
    ensures Signed(rm) / Pow2(s - 1) % 2 == GetBit(rm, if s <= 32 then s - 1 else 31)
  {
    hide Pow2;
    Bit31(rm);
    if rm < 0x8000_0000 {
      PositiveShift(rm, s - 1);
    } else if s <= 32 {
      var p, k := Pow2(s - 1), Pow2(32 - s);
      HalfTurnPowers(s);
      Doubles(p, k);
      FloorOfNegative(rm, p, 2 * k);
      EvenStep(rm / p, k);
    } else {
      Pow2Of32();
      Pow2Mono(32, s - 1);
      DivModUnique(rm - 0x1_0000_0000, Pow2(s - 1), -1, rm - 0x1_0000_0000 + Pow2(s - 1));
    }
  }

  lemma EvenStep(q: int, k: int)
    ensures (q - 2 * k) % 2 == q % 2
  {
  }

  lemma NoShift(rm: word)
    ensures ArithmeticShift(rm, 0) == rm
  {
    PowerZero();
  }

  lemma AllOnes(rm: word, s: nat)
    requires rm >= 0x8000_0000 && s >= 32
    ensures ArithmeticShift(rm, s) == 0xFFFF_FFFF
  {
    hide Pow2;
    Pow2Of32();
    Pow2Mono(32, s);
    DivModUnique(rm - 0x1_0000_0000, Pow2(s), -1, rm - 0x1_0000_0000 + Pow2(s));
  }

  // ----- rotate with extend, and the two immediate shifters side by side -----

  /** RRX rotates the 33-bit value made of the carry flag and the operand. */
  lemma RrxRotates33Bits(rm: word, c: nat)
    requires c < 2
    ensures var r := ShiftByImmediate(rm, ROR, 0, c); 2 * r.operand + r.carry == rm + c * 0x1_0000_0000
  {
    ExtendValue(rm, c);
  }

  lemma ExtendValue(rm: word, c: nat)
    requires c < 2
    ensures OrW(Lsl(c, 31), Lsr(rm, 1)) == c * 0x8000_0000 + rm / 2
    ensures OrW(Lsr(c, 31), Lsr(rm, 1)) == rm / 2
  {
    var top := Pow2(31);
    Pow2Of31();
    assert Lsr(rm, 1) == rm / 2;
    assert Lsl(c, 31) == c * top by {
      assert c == 0 || c == 1;
    }
    OrDisjoint(c, rm / 2, 31);
    assert Lsr(c, 31) == 0;
  }

  /** The address shifter and the data-processing shifter agree everywhere except on ASR #32 of a
      negative operand and on RRX with the carry flag set. */
  lemma ImmediateShiftersAgree(rm: word, shift: nat, imm: nat, c: nat)
    requires shift < 4 && imm < 32 && c < 2
    ensures LoadStoreIndex(rm, imm, shift, c) == ShiftByImmediate(rm, shift, imm, c).operand <==>
      !(shift == ASR && imm == 0 && rm >= 0x8000_0000) && !(shift == ROR && imm == 0 && c == 1)
  {
    hide Pow2, GetBit, OrW, RotateRight;
    Bit31(rm);
    ExtendValue(rm, c);
    PowerZero();
  }

  /** The index section A5.2.4 asks for: a shift or rotation as arithmetic, where amount 0 stands for 32
      in LSR and ASR, and for one place through the carry flag in ROR. */
  function ScaledIndex(rm: word, imm: nat, shift: nat, c: nat): word
    requires imm < 32 && shift < 4 && c < 2
  {
    if shift == LSL then Wrap(rm * Pow2(imm))
    else if shift == LSR then LogicalShift(rm, if imm == 0 then 32 else imm)
    else if shift == ASR then ArithmeticShift(rm, if imm == 0 then 32 else imm)
    else if imm == 0 then c * 0x8000_0000 + rm / 2
    else Ror(rm, imm)
  }

  function LogicalShift(rm: word, s: nat): word
  {
    DivNoBigger(rm, Pow2(s));
    rm / Pow2(s)
  }

  /** The address shifter gives that index except exactly on ASR of a negative register by 1 to 31, and
      on RRX with the carry flag set. */
  lemma AddressShifter(rm: word, imm: nat, shift: nat, c: nat)
    requires imm < 32 && shift < 4 && c < 2
    ensures LoadStoreIndex(rm, imm, shift, c) == ScaledIndex(rm, imm, shift, c) <==>
      !(shift == ASR && imm > 0 && rm >= 0x8000_0000) && !(shift == ROR && imm == 0 && c == 1)
  {
    hide Pow2, GetBit, OrW, RotateRight, ArithmeticShift, Ror;
    if shift == LSR {
      WordBelowPow2(rm, 32);
    } else if shift == ASR {
      AsrByImmediate(rm, imm, c);
      Bit31(rm);
    } else if shift == ROR {
      ExtendValue(rm, c);
      if imm > 0 {
        RotateRightIsRor(rm, imm);
      }
    }
  }
}
