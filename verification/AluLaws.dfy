/** What the flags and the results of the data-processing instructions mean. */
module AluLaws {
  import opened Words
  import opened RegistersSpec
  import opened Machine
  import opened Decode
  import opened ShifterSpec
  import opened DataProcessingSpec
  import opened Conditions
  import Meaning

  // ----- the flag bits -----

  lemma FlagPowers()
    ensures Pow2(28) == 0x1000_0000 && Pow2(29) == 0x2000_0000 && Pow2(30) == 0x4000_0000 && Pow2(31) == 0x8000_0000
  {
    Pow2Of31();
    assert Pow2(29) == 2 * Pow2(28) && Pow2(30) == 2 * Pow2(29) && Pow2(31) == 2 * Pow2(30);
  }

  lemma FlagDigits(x: word)
    ensures GetBit(x, 30) == x / 0x4000_0000 % 2
    ensures GetBit(x, 29) == x / 0x2000_0000 % 2
    ensures GetBit(x, 28) == x / 0x1000_0000 % 2
    ensures x == GetBit(x, 31) * 0x8000_0000 + GetBit(x, 30) * 0x4000_0000 + GetBit(x, 29) * 0x2000_0000
                 + GetBit(x, 28) * 0x1000_0000 + x % 0x1000_0000
  {
    hide Pow2;
    FlagPowers();
    Bit31(x);
  }

  /** The flags can be read off from a word assembled out of them. */
  lemma Assembled(n: nat, z: nat, c: nat, v: nat, low: nat, y: word)
    requires n < 2 && z < 2 && c < 2 && v < 2 && low < 0x1000_0000
    requires y == n * 0x8000_0000 + z * 0x4000_0000 + c * 0x2000_0000 + v * 0x1000_0000 + low
    ensures GetBit(y, 31) == n && GetBit(y, 30) == z && GetBit(y, 29) == c && GetBit(y, 28) == v
    ensures y % 0x1000_0000 == low
  {
    hide Pow2, GetBit;
    FlagDigits(y);
    Bit31(y);
    var top := y / 0x1000_0000;
    assert top == n * 8 + z * 4 + c * 2 + v;
    assert y / 0x2000_0000 == top / 2 && y / 0x4000_0000 == top / 4 && y / 0x8000_0000 == top / 8;
  }

  /** Writing one flag leaves the other three, and the 28 bits below them, as they were. */
  lemma PutFlag(x: word, i: nat, b: bool)
    requires 28 <= i < 32
    ensures var y := PutBit(x, i, b);
      && y % 0x1000_0000 == x % 0x1000_0000
      && GetBit(y, 31) == (if i == 31 then Digit(b) else GetBit(x, 31))
      && GetBit(y, 30) == (if i == 30 then Digit(b) else GetBit(x, 30))
      && GetBit(y, 29) == (if i == 29 then Digit(b) else GetBit(x, 29))
      && GetBit(y, 28) == (if i == 28 then Digit(b) else GetBit(x, 28))
  {
    hide Pow2, PutBit, GetBit;
    PutBitValue(x, i, b);
    FlagPowers();
    FlagDigits(x);
    var d := Digit(b);
    Assembled(if i == 31 then d else GetBit(x, 31), if i == 30 then d else GetBit(x, 30),
              if i == 29 then d else GetBit(x, 29), if i == 28 then d else GetBit(x, 28),
              x % 0x1000_0000, PutBit(x, i, b));
  }

  /** The flag sequences set exactly their flags; the logical one keeps V. */
  lemma FlagsMeaning(cpsr: word, result: word, carry: bool, overflow: bool)
    ensures var y := LogicalFlags(cpsr, result, carry);
      && y % 0x1000_0000 == cpsr % 0x1000_0000
      && GetBit(y, 31) == result / 0x8000_0000 && GetBit(y, 30) == Digit(result == 0)
      && GetBit(y, 29) == Digit(carry) && GetBit(y, 28) == GetBit(cpsr, 28)
    ensures var y := ArithmeticFlags(cpsr, result, carry, overflow);
      && y % 0x1000_0000 == cpsr % 0x1000_0000
      && GetBit(y, 31) == result / 0x8000_0000 && GetBit(y, 30) == Digit(result == 0)
      && GetBit(y, 29) == Digit(carry) && GetBit(y, 28) == Digit(overflow)
  {
    hide Pow2, PutBit, GetBit;
    Bit31(result);
    PutFlag(cpsr, 31, GetBit(result, 31) == 1);
    var y1 := PutBit(cpsr, 31, GetBit(result, 31) == 1);
    PutFlag(y1, 30, result == 0);
    var y2 := PutBit(y1, 30, result == 0);
    PutFlag(y2, 29, carry);
    PutFlag(PutBit(y2, 29, carry), 28, overflow);
  }

  /** The carry test compares a sum that has already wrapped, so it never reports a carry. */
  lemma CarryNeverReported(a: word, b: word, c: nat)
    ensures !CarryFrom(a, b, c)
  {
  }

  lemma SignBit(x: word)
    ensures GetBit(x, 31) == if x < 0x8000_0000 then 0 else 1
  {
    hide Pow2, GetBit;
    Bit31(x);
  }

  lemma OverflowMeaning(rd: word, rn: word, operand: word)
    ensures OverflowFrom(rd, rn, operand) <==>
      (rn < 0x8000_0000 <==> operand < 0x8000_0000) && !(rd < 0x8000_0000 <==> rn < 0x8000_0000)
  {
    hide Pow2, GetBit;
    SignBit(rd);
    SignBit(rn);
    SignBit(operand);
  }

  /** The flags an operation computes, spelled out: what C and V are for each arithmetic opcode. */
  lemma FlagsOf(opcode: nat, cpsr: word, stale: word, rn: word, operand: word, carry: bool)
    requires opcode < 16
    ensures var c := GetBit(cpsr, 29);
      var y, r := Flags(opcode, cpsr, stale, rn, operand, carry), Result(opcode, rn, operand, c);
      && y % 0x1000_0000 == cpsr % 0x1000_0000
      && GetBit(y, 31) == r / 0x8000_0000 && GetBit(y, 30) == Digit(r == 0)
      && GetBit(y, 29) == Digit(CarryFlag(opcode, rn, operand, carry, c))
      && GetBit(y, 28) == if IsLogical(opcode) then GetBit(cpsr, 28)
                          else Digit(OverflowFlag(opcode, if IsCompare(opcode) then stale else r, rn, operand, c))
  {
    hide Pow2, PutBit, GetBit, Result, CarryFlag, OverflowFlag, LogicalFlags, ArithmeticFlags;
    var c := GetBit(cpsr, 29);
    var r := Result(opcode, rn, operand, c);
    FlagsMeaning(cpsr, r, CarryFlag(opcode, rn, operand, carry, c),
                 OverflowFlag(opcode, if IsCompare(opcode) then stale else r, rn, operand, c));
  }

  // ----- conditions after an addition or a comparison -----

  /** After ADDS and ADCS the signed conditions decide the sign of the unbounded sum, wrapping or not. */
  lemma SignedConditionsAfterAddition(s: State, ins: word, op: Shifted)
    requires (Opcode(ins) == ADD || Opcode(ins) == ADC) && BitL(ins) && Rd(ins) != 15
    ensures var s' := Operate(s, ins, op).state;
      var rn := ReadReg(s, Rn(ins));
      var sum := Signed(rn) + Signed(op.operand) + (if Opcode(ins) == ADC then FlagC(s) else 0);
      && ReadReg(s', Rd(ins)) == Wrap(sum)
      && (Passes(CpsrOf(s'), GE) <==> sum >= 0)
      && (Passes(CpsrOf(s'), LT) <==> sum < 0)
      && (Passes(CpsrOf(s'), GT) <==> sum > 0)
      && (Passes(CpsrOf(s'), LE) <==> sum <= 0)
      && (Passes(CpsrOf(s'), MI) <==> Wrap(sum) >= 0x8000_0000) && (Passes(CpsrOf(s'), PL) <==> Wrap(sum) < 0x8000_0000)
      && (Passes(CpsrOf(s'), VS) <==> !(-0x8000_0000 <= sum < 0x8000_0000))
      && (Passes(CpsrOf(s'), VC) <==> -0x8000_0000 <= sum < 0x8000_0000)
      && (Passes(CpsrOf(s'), EQ) <==> Wrap(sum) == 0)
  {
    hide Pow2, PutBit, GetBit, Flags, OverflowFrom, ReadReg, OverflowFlag, Result, CarryFlag;
    var rn, rd, opcode := ReadReg(s, Rn(ins)), Rd(ins), Opcode(ins);
    var c := FlagC(s);
    var r := AdditionResult(opcode, rn, op.operand, c);
    FlagsOf(opcode, CpsrOf(s), ReadReg(s, rd), rn, op.operand, op.carry != 0);
    OverflowMeaning(r, rn, op.operand);
    SumSigns(rn, op.operand, if opcode == ADC then c else 0);
    OperationEffect(s, ins, op);
  }

  lemma AdditionResult(opcode: nat, rn: word, operand: word, c: nat) returns (r: word)
    requires (opcode == ADD || opcode == ADC) && c < 2
    ensures r == Result(opcode, rn, operand, c) == Wrap(rn as int + operand as int + (if opcode == ADC then c else 0))
    ensures forall rd: word :: OverflowFlag(opcode, rd, rn, operand, c) == OverflowFrom(rd, rn, operand)
  {
    r := Result(opcode, rn, operand, c);
  }

  lemma SumSigns(a: word, b: word, c: nat)
    requires c < 2
    ensures var sum, r := Signed(a) + Signed(b) + c, Wrap(a as int + b as int + c);
      && Wrap(sum) == r
      && (var overflow := (a < 0x8000_0000 <==> b < 0x8000_0000) && !(r < 0x8000_0000 <==> a < 0x8000_0000);
          && ((r >= 0x8000_0000 <==> overflow) <==> sum >= 0)
          && (overflow <==> !(-0x8000_0000 <= sum < 0x8000_0000))
          && (r == 0 ==> sum <= 0)
          && (sum == 0 ==> r == 0))
  {
  }

  /** After CMP the unsigned conditions compare Rn with the shifter operand. */
  lemma UnsignedConditionsAfterCompare(s: State, ins: word, op: Shifted)
    requires Opcode(ins) == CMP
    ensures var cpsr := CpsrOf(Operate(s, ins, op).state);
      var a, b := ReadReg(s, Rn(ins)), op.operand;
      && (Passes(cpsr, EQ) <==> a == b) && (Passes(cpsr, NE) <==> a != b)
      && (Passes(cpsr, CS) <==> a >= b) && (Passes(cpsr, CC) <==> a < b)
      && (Passes(cpsr, HI) <==> a > b) && (Passes(cpsr, LS) <==> a <= b)
      && (Passes(cpsr, MI) <==> Minus(a, b) >= 0x8000_0000) && (Passes(cpsr, PL) <==> Minus(a, b) < 0x8000_0000)
  {
    hide Pow2, PutBit, GetBit, Flags, ReadReg, OverflowFrom;
    FlagsOf(CMP, CpsrOf(s), ReadReg(s, Rd(ins)), ReadReg(s, Rn(ins)), op.operand, op.carry != 0);
  }

  /** After a logical operation with S set, or TST or TEQ: the conditions on N and Z read the result, those on
      C the shifter's carry-out, and those on V what V was before. */
  lemma ConditionsAfterLogical(s: State, ins: word, op: Shifted)
    requires IsLogical(Opcode(ins)) && (IsCompare(Opcode(ins)) || (BitL(ins) && Rd(ins) != 15))
    ensures var cpsr, r := CpsrOf(Operate(s, ins, op).state),
                           Result(Opcode(ins), ReadReg(s, Rn(ins)), op.operand, FlagC(s));
      && (Passes(cpsr, MI) <==> r >= 0x8000_0000) && (Passes(cpsr, PL) <==> r < 0x8000_0000)
      && (Passes(cpsr, EQ) <==> r == 0) && (Passes(cpsr, NE) <==> r != 0)
      && (Passes(cpsr, CS) <==> op.carry != 0) && (Passes(cpsr, CC) <==> op.carry == 0)
      && Passes(cpsr, VS) == Passes(CpsrOf(s), VS) && Passes(cpsr, VC) == Passes(CpsrOf(s), VC)
  {
    hide Pow2, PutBit, GetBit, Flags, ReadReg, OverflowFrom, Result;
    FlagsOf(Opcode(ins), CpsrOf(s), ReadReg(s, Rd(ins)), ReadReg(s, Rn(ins)), op.operand, op.carry != 0);
  }

  /** The operands of a subtraction in order: first minus second. */
  function Minuend(s: State, ins: word, op: Shifted): word
  {
    if Opcode(ins) == RSB || Opcode(ins) == RSC then op.operand else ReadReg(s, Rn(ins))
  }

  function Subtrahend(s: State, ins: word, op: Shifted): word
  {
    if Opcode(ins) == RSB || Opcode(ins) == RSC then ReadReg(s, Rn(ins)) else op.operand
  }

  /** The unbounded difference a - b - borrow has the sign of a, where the two have the same sign, or
      fits in 32 bits, where they do not. */
  predicate KeepsSign(a: word, b: word, borrow: nat)
  {
    var d := Signed(a) - Signed(b) - borrow;
    if SameSign(a, b) then d >= 0 <==> a < 0x8000_0000 else -0x8000_0000 <= d < 0x8000_0000
  }

  /** When V, computed by the rule for additions, is right after a - b: for SUBS and RSBS a condition on
      the operands alone; CMP shows the rule the old Rd instead of the difference. */
  predicate OverflowRight(s: State, ins: word, op: Shifted)
  {
    var a, b := Minuend(s, ins, op), Subtrahend(s, ins, op);
    if Opcode(ins) == CMP && SameSign(a, b) then SameSign(ReadReg(s, Rd(ins)), a) else KeepsSign(a, b, 0)
  }

  /** After SUBS, RSBS and CMP: GE and LT decide the signed comparison exactly when V is right, and GT
      and LE exactly when V is right or the operands are equal. */
  lemma SignedConditionsAfterSubtraction(s: State, ins: word, op: Shifted)
    requires Opcode(ins) == CMP || ((Opcode(ins) == SUB || Opcode(ins) == RSB) && BitL(ins) && Rd(ins) != 15)
    ensures var a, b := Minuend(s, ins, op), Subtrahend(s, ins, op);
      var cpsr := CpsrOf(Operate(s, ins, op).state);
      && ((Passes(cpsr, GE) <==> Signed(a) >= Signed(b)) <==> OverflowRight(s, ins, op))
      && ((Passes(cpsr, LT) <==> Signed(a) < Signed(b)) <==> OverflowRight(s, ins, op))
      && ((Passes(cpsr, GT) <==> Signed(a) > Signed(b)) <==> a == b || OverflowRight(s, ins, op))
      && ((Passes(cpsr, LE) <==> Signed(a) <= Signed(b)) <==> a == b || OverflowRight(s, ins, op))
  {
    hide Pow2, PutBit, GetBit, Flags, ReadReg, OverflowFrom;
    var opcode, a, b := Opcode(ins), Minuend(s, ins, op), Subtrahend(s, ins, op);
    var stale := ReadReg(s, Rd(ins));
    FlagsOf(opcode, CpsrOf(s), stale, ReadReg(s, Rn(ins)), op.operand, op.carry != 0);
    OverflowMeaning(if opcode == CMP then stale else Minus(a, b), a, b);
    DifferenceSigns(a, b);
  }

  /** After CMN the same conditions decide the sign of the unbounded sum: GE and LT exactly when the
      operands differ in sign or the old Rd, shown to the overflow rule, has the sign of the wrapped sum,
      and GT and LE then or when the wrapped sum is 0. */
  lemma SignedConditionsAfterCmn(s: State, ins: word, op: Shifted)
    requires Opcode(ins) == CMN
    ensures var a, b := ReadReg(s, Rn(ins)), op.operand;
      var cpsr, sum := CpsrOf(Operate(s, ins, op).state), Signed(a) + Signed(b);
      var right := !SameSign(a, b) || SameSign(ReadReg(s, Rd(ins)), Plus(a, b));
      && ((Passes(cpsr, GE) <==> sum >= 0) <==> right)
      && ((Passes(cpsr, LT) <==> sum < 0) <==> right)
      && ((Passes(cpsr, GT) <==> sum > 0) <==> Plus(a, b) == 0 || right)
      && ((Passes(cpsr, LE) <==> sum <= 0) <==> Plus(a, b) == 0 || right)
  {
    hide Pow2, PutBit, GetBit, Flags, ReadReg, OverflowFrom;
    var a, b, stale := ReadReg(s, Rn(ins)), op.operand, ReadReg(s, Rd(ins));
    FlagsOf(CMN, CpsrOf(s), stale, a, b, op.carry != 0);
    OverflowMeaning(stale, a, b);
    SumSigns(a, b, 0);
  }

  lemma DifferenceSigns(a: word, b: word)
    ensures SameSign(a, b) ==> (Minus(a, b) < 0x8000_0000 <==> Signed(a) >= Signed(b))
    ensures !SameSign(a, b) ==> (a < 0x8000_0000 <==> Signed(a) >= Signed(b))
    ensures !SameSign(a, b) ==> (KeepsSign(a, b, 0) <==> SameSign(Minus(a, b), a))
    ensures Minus(a, b) == 0 <==> a == b
  {
  }

  /** After SBCS and RSCS, VS tells whether a - b - (1 - C) leaves the signed range exactly when that
      difference keeps the sign of a, or b is so close above 0 or above 2^31 that the 1 + C the code
      subtracts from it changes its sign. */
  lemma OverflowAfterSubtractWithCarry(s: State, ins: word, op: Shifted)
    requires (Opcode(ins) == SBC || Opcode(ins) == RSC) && BitL(ins) && Rd(ins) != 15
    ensures var a, b, c := Minuend(s, ins, op), Subtrahend(s, ins, op), FlagC(s);
      var d := Signed(a) - Signed(b) - (1 - c);
      (Passes(CpsrOf(Operate(s, ins, op).state), VS) <==> !(-0x8000_0000 <= d < 0x8000_0000)) <==>
        KeepsSign(a, b, 1 - c) || b % 0x8000_0000 <= c
  {
    hide Pow2, PutBit, GetBit, Flags, ReadReg, OverflowFrom, WithComplement;
    var a, b, c := Minuend(s, ins, op), Subtrahend(s, ins, op), FlagC(s);
    FlagsOf(Opcode(ins), CpsrOf(s), ReadReg(s, Rd(ins)), ReadReg(s, Rn(ins)), op.operand, op.carry != 0);
    OverflowMeaning(Wrap(a as int - b as int - (1 - c)), a, WithComplement(b, c));
    BorrowSigns(a, b, c);
  }

  lemma BorrowSigns(a: word, b: word, c: nat)
    requires c < 2
    ensures var d, r := Signed(a) - Signed(b) - (1 - c), Wrap(a as int - b as int - (1 - c));
      && (KeepsSign(a, b, 1 - c) <==> SameSign(r, a))
      && (SameSign(WithComplement(b, c), b) <==> b % 0x8000_0000 > c)
      && (!(-0x8000_0000 <= d < 0x8000_0000) <==> !SameSign(a, b) && !SameSign(r, a))
  {
  }

  /** After SBCS and RSCS the carry flag should say that no borrow was needed, a >= b + (1 - C). The
      code subtracts 1 + C from b instead of adding 1 - C, so the flag is wrong exactly on this range. */
  lemma CarryAfterSubtractWithCarry(s: State, ins: word, op: Shifted)
    requires (Opcode(ins) == SBC || Opcode(ins) == RSC) && BitL(ins) && Rd(ins) != 15
    ensures var a, b, c := Minuend(s, ins, op), Subtrahend(s, ins, op), FlagC(s);
      (Passes(CpsrOf(Operate(s, ins, op).state), CS) <==> a >= b + (1 - c)) <==>
        !(if b >= 1 + c then b - 1 - c <= a < b + 1 - c else b + 1 - c <= a < 0x1_0000_0000 + b - 1 - c)
  {
    hide Pow2, PutBit, GetBit, Flags, ReadReg, OverflowFrom, WithComplement, Result;
    FlagsOf(Opcode(ins), CpsrOf(s), ReadReg(s, Rd(ins)), ReadReg(s, Rn(ins)), op.operand, op.carry != 0);
    BorrowRange(Minuend(s, ins, op), Subtrahend(s, ins, op), FlagC(s));
  }

  lemma BorrowRange(a: word, b: word, c: nat)
    requires c < 2
    ensures (!BorrowFrom(a, WithComplement(b, c)) <==> a >= b + (1 - c)) <==>
      !(if b >= 1 + c then b - 1 - c <= a < b + 1 - c else b + 1 - c <= a < 0x1_0000_0000 + b - 1 - c)
  {
  }

  // ----- logical results, and the comparisons beside the operations they imitate -----

  lemma LogicalBits(opcode: nat, rn: word, operand: word, c: nat, i: nat)
    requires opcode < 16 && IsLogical(opcode) && c < 2 && i < 32
    ensures GetBit(Result(opcode, rn, operand, c), i) == 1 <==>
      Meaning.LogicalBit(opcode, GetBit(rn, i) == 1, GetBit(operand, i) == 1)
  {
    hide GetBit, And, Or, Xor, NotW;
    BitsOfAnd(rn, operand, i);
    BitsOfAnd(rn, NotW(operand), i);
    BitsOfOr(rn, operand, i);
    BitsOfXor(rn, operand, i);
    BitsOfNot(operand, i);
  }

  /** A logical result is the word with those bits, and no other word is. */
  lemma LogicalResult(opcode: nat, rn: word, operand: word, c: nat, w: word)
    requires opcode < 16 && IsLogical(opcode) && c < 2
    ensures w == Result(opcode, rn, operand, c) <==>
      forall i: nat :: i < 32 ==>
        (GetBit(w, i) == 1 <==> Meaning.LogicalBit(opcode, GetBit(rn, i) == 1, GetBit(operand, i) == 1))
  {
    hide GetBit, Result, Meaning.LogicalBit, Pow2;
    var r := Result(opcode, rn, operand, c);
    forall i: nat | i < 32
      ensures GetBit(r, i) == 1 <==> Meaning.LogicalBit(opcode, GetBit(rn, i) == 1, GetBit(operand, i) == 1)
    {
      LogicalBits(opcode, rn, operand, c, i);
    }
    if forall i: nat :: i < 32 ==>
        (GetBit(w, i) == 1 <==> Meaning.LogicalBit(opcode, GetBit(rn, i) == 1, GetBit(operand, i) == 1)) {
      Pow2Of32();
      SameBits(w, r, 32);
    }
  }

  /** TST, TEQ, CMP and CMN beside AND, EOR, SUB and ADD. */
  function Twin(opcode: nat): nat
    requires IsCompare(opcode)
  {
    if opcode == TST then AND else if opcode == TEQ then EOR else if opcode == CMP then SUB else ADD
  }

  /** A comparison leaves the flags of the operation it imitates, on any destination but the PC, and
      nothing else. V can differ, and
      does exactly when operands of equal sign meet an old Rd whose sign is not that of the result. */
  lemma CompareLikeTwin(s: State, opcode: nat, rd: nat, rn: word, operand: word, carry: bool, d: nat)
    requires IsCompare(opcode) && rd < 16 && d < 15
    ensures var compared := CpsrOf(Alu(s, opcode, true, rd, rn, operand, carry).state);
      var operated := CpsrOf(Alu(s, Twin(opcode), true, d, rn, operand, carry).state);
      var result := Result(opcode, rn, operand, FlagC(s));
      && Alu(s, opcode, true, rd, rn, operand, carry) == Outcome(SetCpsr(s, compared), 0)
      && GetBit(compared, 31) == GetBit(operated, 31) && GetBit(compared, 30) == GetBit(operated, 30)
      && GetBit(compared, 29) == GetBit(operated, 29) && compared % 0x1000_0000 == operated % 0x1000_0000
      && (GetBit(compared, 28) != GetBit(operated, 28) <==>
            !IsLogical(opcode) && (rn < 0x8000_0000 <==> operand < 0x8000_0000)
            && !(ReadReg(s, rd) < 0x8000_0000 <==> result < 0x8000_0000))
  {
    hide Pow2, PutBit, GetBit, Flags, ReadReg, OverflowFrom, AndW, XorW;
    var stale := ReadReg(s, rd);
    FlagsOf(opcode, CpsrOf(s), stale, rn, operand, carry);
    FlagsOf(Twin(opcode), CpsrOf(s), ReadReg(s, d), rn, operand, carry);
    var result := Result(opcode, rn, operand, FlagC(s));
    OverflowMeaning(stale, rn, operand);
    OverflowMeaning(result, rn, operand);
  }

  /** With the PC as destination the result is written there in every case; then S decides: off, done;
      on, CPSR becomes SPSR, or where there is none the instruction is reported undefined. */
  lemma PcDestination(s: State, ins: word, op: Shifted)
    requires !IsCompare(Opcode(ins)) && Rd(ins) == 15
    ensures var r := Operate(s, ins, op);
      && r.state.regs[15] == Result(Opcode(ins), ReadReg(s, Rn(ins)), op.operand, FlagC(s))
      && (forall k :: 0 <= k < 37 && k != 15 && k != CPSR ==> r.state.regs[k] == s.regs[k])
      && (CpsrOf(r.state) == if BitL(ins) && ModeHasSpsr(ModeOf(s)) then SpsrOf(s) else CpsrOf(s))
      && (r.code == if BitL(ins) && !ModeHasSpsr(ModeOf(s)) then UNDEFINED_INSTRUCTION else 0)
  {
    hide Flags, Result, GetBit, AndW;
  }

  // ----- arithmetic on pairs of words -----

  function Pair(hi: word, lo: word): int { hi * 0x1_0000_0000 + lo }

  const TWO64 := 0x1_0000_0000_0000_0000

  /** What one result-writing operation with S set does for a destination other than the PC. */
  lemma OperationEffect(s: State, ins: word, op: Shifted)
    requires !IsCompare(Opcode(ins)) && Rd(ins) != 15
    ensures var s', v := Operate(s, ins, op).state, Result(Opcode(ins), ReadReg(s, Rn(ins)), op.operand, FlagC(s));
      && ReadReg(s', Rd(ins)) == v
      && (forall q: nat :: q < 16 && q != Rd(ins) ==> ReadReg(s', q) == ReadReg(s, q))
      && (BitL(ins) ==>
            FlagC(s') == Digit(CarryFlag(Opcode(ins), ReadReg(s, Rn(ins)), op.operand, op.carry != 0, FlagC(s))))
  {
    hide Pow2, PutBit, GetBit, Flags, Result, CarryFlag, OverflowFlag, AndW;
    var rd, rn := Rd(ins), ReadReg(s, Rn(ins));
    var v := Result(Opcode(ins), rn, op.operand, FlagC(s));
    var flags := Flags(Opcode(ins), CpsrOf(s), ReadReg(s, rd), rn, op.operand, op.carry != 0);
    FlagsOf(Opcode(ins), CpsrOf(s), ReadReg(s, rd), rn, op.operand, op.carry != 0);
    KeepsMode(s, rd, v, flags);
    forall q: nat | q < 16 ensures ReadReg(SetCpsr(WriteReg(s, rd, v), flags), q) == ReadReg(WriteReg(s, rd, v), q) {
    }
    forall q: nat | q < 16 && q != rd ensures ReadReg(WriteReg(s, rd, v), q) == ReadReg(s, q) {
      ReadAfterWrite(s, rd, v, q);
    }
    ReadAfterWrite(s, rd, v, rd);
  }

  /** Setting flags does not change the mode, whose number is in the bits below them. */
  lemma KeepsMode(s: State, rd: nat, v: word, flags: word)
    requires rd < 16 && flags % 0x1000_0000 == CpsrOf(s) % 0x1000_0000
    ensures ModeOf(SetCpsr(WriteReg(s, rd, v), flags)) == ModeOf(s)
    ensures ModeOf(SetCpsr(s, flags)) == ModeOf(s)
  {
    assert flags % 32 == flags % 0x1000_0000 % 32 && CpsrOf(s) % 32 == CpsrOf(s) % 0x1000_0000 % 32;
  }

  lemma PairDifference(a: word, b: word, x: word, y: word)
    ensures var borrow := if a < x then 1 else 0;
      Pair(Wrap(b as int - y as int - borrow), Minus(a, x)) == (Pair(b, a) - Pair(y, x)) % TWO64
  {
    var borrow := if a < x then 1 else 0;
    var hi := b as int - y as int - borrow;
    var k := if hi < 0 then 1 else 0;
    assert Wrap(hi) == hi + k * 0x1_0000_0000;
    assert Minus(a, x) == a as int - x as int + borrow * 0x1_0000_0000;
    DivModUnique(Pair(b, a) - Pair(y, x), TWO64, -k, Pair(Wrap(hi), Minus(a, x)));
  }

  lemma PairSum(a: word, b: word, x: word, y: word)
    ensures var carried := if a as int + x as int >= 0x1_0000_0000 then 0x1_0000_0000 else 0;
      Pair(Plus(b, y), Plus(a, x)) == (Pair(b, a) + Pair(y, x) - carried) % TWO64
  {
    var carried := if a as int + x as int >= 0x1_0000_0000 then 0x1_0000_0000 else 0;
    var k := if b as int + y as int >= 0x1_0000_0000 then 1 else 0;
    assert Plus(b, y) == b as int + y as int - k * 0x1_0000_0000;
    assert Plus(a, x) == a as int + x as int - carried;
    DivModUnique(Pair(b, a) + Pair(y, x) - carried, TWO64, k, Pair(Plus(b, y), Plus(a, x)));
  }

  /** SUBS on the low words then SBC on the high words, or RSBS then RSC, subtract 64-bit numbers
      exactly. The two halves of each number are read where the instructions read them. */
  lemma TwoWordSubtraction(s: State, ins1: word, op1: Shifted, ins2: word, op2: Shifted)
    requires BitL(ins1) && Rd(ins1) != 15 && Rd(ins2) != 15 && Rd(ins1) != Rd(ins2)
    requires (Opcode(ins1) == SUB && Opcode(ins2) == SBC) || (Opcode(ins1) == RSB && Opcode(ins2) == RSC)
    ensures var s1 := Operate(s, ins1, op1).state;
      var s2 := Operate(s1, ins2, op2).state;
      var registers := Pair(ReadReg(s1, Rn(ins2)), ReadReg(s, Rn(ins1)));
      var operands := Pair(op2.operand, op1.operand);
      Pair(ReadReg(s2, Rd(ins2)), ReadReg(s2, Rd(ins1))) ==
        (if Opcode(ins1) == SUB then registers - operands else operands - registers) % TWO64
  {
    hide Pow2, GetBit, ReadReg, Operate, Pair;
    var s1 := Operate(s, ins1, op1).state;
    OperationEffect(s, ins1, op1);
    OperationEffect(s1, ins2, op2);
    var lo, hi := ReadReg(s, Rn(ins1)), ReadReg(s1, Rn(ins2));
    if Opcode(ins1) == SUB {
      PairDifference(lo, hi, op1.operand, op2.operand);
    } else {
      PairDifference(op1.operand, op2.operand, lo, hi);
    }
  }

  /** ADDS then ADC lose the carry between the words: the result is short by 2^32, modulo 2^64,
      exactly when the low words carry. */
  lemma TwoWordAddition(s: State, ins1: word, op1: Shifted, ins2: word, op2: Shifted)
    requires BitL(ins1) && Rd(ins1) != 15 && Rd(ins2) != 15 && Rd(ins1) != Rd(ins2)
    requires Opcode(ins1) == ADD && Opcode(ins2) == ADC
    ensures var s1 := Operate(s, ins1, op1).state;
      var s2 := Operate(s1, ins2, op2).state;
      var sum := Pair(ReadReg(s1, Rn(ins2)), ReadReg(s, Rn(ins1))) + Pair(op2.operand, op1.operand);
      var carries := ReadReg(s, Rn(ins1)) as int + op1.operand as int >= 0x1_0000_0000;
      var stored := Pair(ReadReg(s2, Rd(ins2)), ReadReg(s2, Rd(ins1)));
      && stored == (sum - (if carries then 0x1_0000_0000 else 0)) % TWO64
      && (stored == sum % TWO64 <==> !carries)
  {
    hide Pow2, GetBit, ReadReg, Operate, Pair, Result, CarryFlag, FlagC;
    var s1 := Operate(s, ins1, op1).state;
    OperationEffect(s, ins1, op1);
    OperationEffect(s1, ins2, op2);
    AddThenAdc(ReadReg(s, Rn(ins1)), op1.operand, op1.carry != 0, FlagC(s), ReadReg(s1, Rn(ins2)), op2.operand);
    PairSum(ReadReg(s, Rn(ins1)), ReadReg(s1, Rn(ins2)), op1.operand, op2.operand);
    ShortBy(Pair(ReadReg(s1, Rn(ins2)), ReadReg(s, Rn(ins1))) + Pair(op2.operand, op1.operand));
  }

  /** The carry flag ADDS leaves is always clear, so ADC adds nothing. */
  lemma AddThenAdc(a: word, x: word, carry: bool, c: nat, b: word, y: word)
    requires c < 2
    ensures Result(ADD, a, x, c) == Plus(a, x) && !CarryFlag(ADD, a, x, carry, c) && Result(ADC, b, y, 0) == Plus(b, y)
  {
  }

  lemma ShortBy(x: int)
    ensures (x - 0x1_0000_0000) % TWO64 != x % TWO64
  {
  }

  /** The plain register operand `Rm`. */
  predicate PlainOperand(ins: word)
  {
    !Bit4(ins) && ShiftType(ins) == LSL && ShiftImm(ins) == 0
  }

  /** On plain registers, with the low result kept away from the high words' registers, the pair works
      on what the registers held at the start: SUBS/SBC and RSBS/RSC are a 64-bit subtraction. */
  lemma RegisterPairSubtraction(s: State, ins1: word, ins2: word)
    requires PlainOperand(ins1) && PlainOperand(ins2)
    requires BitL(ins1)
    requires (Opcode(ins1) == SUB && Opcode(ins2) == SBC) || (Opcode(ins1) == RSB && Opcode(ins2) == RSC)
    requires Rd(ins1) != 15 && Rd(ins2) != 15 && Rd(ins1) !in {Rd(ins2), Rn(ins2), Rm(ins2)}
    ensures var s2 := DataProcessingShift(DataProcessingShift(s, ins1).state, ins2).state;
      var first := Pair(ReadReg(s, Rn(ins2)), ReadReg(s, Rn(ins1)));
      var second := Pair(ReadReg(s, Rm(ins2)), ReadReg(s, Rm(ins1)));
      Pair(ReadReg(s2, Rd(ins2)), ReadReg(s2, Rd(ins1))) ==
        (if Opcode(ins1) == SUB then first - second else second - first) % TWO64
  {
    hide Pow2, GetBit, ReadReg, Operate, Pair;
    var op1 := ShifterValues(s, ins1, FlagC(s)).value;
    var s1 := Operate(s, ins1, op1).state;
    OperationEffect(s, ins1, op1);
    TwoWordSubtraction(s, ins1, op1, ins2, ShifterValues(s1, ins2, FlagC(s1)).value);
  }

  /** Likewise ADDS/ADC are a 64-bit addition short by 2^32 exactly when the low registers carry. */
  lemma RegisterPairAddition(s: State, ins1: word, ins2: word)
    requires PlainOperand(ins1) && PlainOperand(ins2)
    requires BitL(ins1) && Opcode(ins1) == ADD && Opcode(ins2) == ADC
    requires Rd(ins1) != 15 && Rd(ins2) != 15 && Rd(ins1) !in {Rd(ins2), Rn(ins2), Rm(ins2)}
    ensures var s2 := DataProcessingShift(DataProcessingShift(s, ins1).state, ins2).state;
      var sum := Pair(ReadReg(s, Rn(ins2)), ReadReg(s, Rn(ins1))) + Pair(ReadReg(s, Rm(ins2)), ReadReg(s, Rm(ins1)));
      var carries := ReadReg(s, Rn(ins1)) as int + ReadReg(s, Rm(ins1)) as int >= 0x1_0000_0000;
      var stored := Pair(ReadReg(s2, Rd(ins2)), ReadReg(s2, Rd(ins1)));
      && stored == (sum - (if carries then 0x1_0000_0000 else 0)) % TWO64
      && (stored == sum % TWO64 <==> !carries)
  {
    hide Pow2, GetBit, ReadReg, Operate, Pair;
    var op1 := ShifterValues(s, ins1, FlagC(s)).value;
    var s1 := Operate(s, ins1, op1).state;
    OperationEffect(s, ins1, op1);
    TwoWordAddition(s, ins1, op1, ins2, ShifterValues(s1, ins2, FlagC(s1)).value);
  }

  // ----- what an instruction may do to the CPSR -----

  /** The S form with the PC as destination, in a mode with an SPSR. */
  predicate RestoresCpsr(s: State, ins: word)
  {
    !IsCompare(Opcode(ins)) && BitL(ins) && Rd(ins) == 15 && ModeHasSpsr(ModeOf(s))
  }

  /** Except when it restores the CPSR, a data-processing instruction changes at most the four flags,
      and a logical one keeps V; SPSRs and memory never change. */
  lemma CpsrFrame(s: State, ins: word, op: Shifted)
    ensures var s' := Operate(s, ins, op).state;
      && s'.mem == s.mem && s'.be == s.be
      && (forall k :: 32 <= k < 37 ==> s'.regs[k] == s.regs[k])
      && (RestoresCpsr(s, ins) ==> CpsrOf(s') == SpsrOf(s))
      && (!RestoresCpsr(s, ins) ==> CpsrOf(s') % 0x1000_0000 == CpsrOf(s) % 0x1000_0000)
      && (!RestoresCpsr(s, ins) && IsLogical(Opcode(ins)) ==> GetBit(CpsrOf(s'), 28) == GetBit(CpsrOf(s), 28))
  {
    hide Pow2, PutBit, GetBit, Flags, Result, AndW, ReadReg;
    FlagsOf(Opcode(ins), CpsrOf(s), ReadReg(s, Rd(ins)), ReadReg(s, Rn(ins)), op.operand, op.carry != 0);
  }
}
