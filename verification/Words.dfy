/** Machine words as bounded integers, with the bit macros of util.h and C's unsigned shifts. */
module Words {
  type byte = x: int | 0 <= x < 0x100
  type half = x: int | 0 <= x < 0x1_0000
  type word = x: int | 0 <= x < 0x1_0000_0000

  /** The value an unsigned 32-bit computation leaves behind. */
  function Wrap(x: int): word { x % 0x1_0000_0000 }

  /** x + y and x - y on uint32_t. */
  function Plus(x: int, y: int): word { Wrap(x + y) }

  function Minus(x: int, y: int): word { Wrap(x - y) }

  /** Wrapping a partial sum first makes no difference. */
  lemma WrapSum(x: int, y: int)
    ensures Wrap(Wrap(x) + y) == Wrap(x + y)
  {
  }

  lemma WrapWord(x: word)
    ensures Wrap(x) == x
  {
  }

  /** The two's-complement reading of a word. */
  function Signed(x: word): int { if x < 0x8000_0000 then x else x - 0x1_0000_0000 }

  predicate SameSign(a: word, b: word) { a < 0x8000_0000 <==> b < 0x8000_0000 }

  function Pow2(n: nat): (p: int)
    ensures p >= 1
  {
    if n == 0 then 1 else 2 * Pow2(n - 1)
  }

  function Digit(b: bool): (d: nat)
    ensures d <= 1
  {
    if b then 1 else 0
  }

  // ----- util.h macros -----

  /** get_bit(x, i) */
  function GetBit(x: nat, i: nat): (b: int)
    ensures 0 <= b <= 1
  {
    x / Pow2(i) % 2
  }

  function And(x: nat, y: nat): (r: nat)
    ensures r <= x && r <= y
  {
    if x == 0 || y == 0 then 0 else 2 * And(x / 2, y / 2) + (if x % 2 == 1 && y % 2 == 1 then 1 else 0)
  }

  function Or(x: nat, y: nat): (r: nat)
    ensures x <= r && y <= r && r <= x + y
  {
    if x == 0 then y else if y == 0 then x
    else 2 * Or(x / 2, y / 2) + (if x % 2 == 1 || y % 2 == 1 then 1 else 0)
  }

  function Xor(x: nat, y: nat): (r: nat)
    ensures r <= x + y
  {
    if x == 0 then y else if y == 0 then x
    else 2 * Xor(x / 2, y / 2) + (if x % 2 == y % 2 then 0 else 1)
  }

  lemma {:induction false} OrBound(x: nat, y: nat, n: nat)
    requires x < Pow2(n) && y < Pow2(n)
    ensures Or(x, y) < Pow2(n)
  {
    if n > 0 && x > 0 && y > 0 {
      OrBound(x / 2, y / 2, n - 1);
    }
  }

  lemma {:induction false} XorBound(x: nat, y: nat, n: nat)
    requires x < Pow2(n) && y < Pow2(n)
    ensures Xor(x, y) < Pow2(n)
  {
    if n > 0 && x > 0 && y > 0 {
      XorBound(x / 2, y / 2, n - 1);
    }
  }

  lemma Pow2Of32()
    ensures Pow2(32) == 0x1_0000_0000
  {
    assert Pow2(8) == 0x100;
    Pow2Add(8, 8);
    Pow2Add(16, 16);
  }

  lemma Pow2Of31()
    ensures Pow2(31) == 0x8000_0000
  {
    assert Pow2(8) == 0x100;
    Pow2Add(8, 8);
    Pow2Add(16, 15);
  }

  lemma Bit31(x: word)
    ensures GetBit(x, 31) == x / 0x8000_0000
  {
    Pow2Of31();
  }

  // Bitwise operators on words.

  function AndW(x: word, y: word): word { And(x, y) }

  function OrW(x: word, y: word): word
  {
    Pow2Of32();
    OrBound(x, y, 32);
    Or(x, y)
  }

  function XorW(x: word, y: word): word
  {
    Pow2Of32();
    XorBound(x, y, 32);
    Xor(x, y)
  }

  function NotW(x: word): word { 0xFFFF_FFFF - x }

  /** x << s on uint32_t. */
  function Lsl(x: word, s: nat): word { Wrap(x * Pow2(s)) }

  /** x >> s on uint32_t. */
  function Lsr(x: word, s: nat): word
  {
    DivNoBigger(x, Pow2(s));
    x / Pow2(s)
  }

  /** set_bit(x, i) */
  function SetBit(x: word, i: nat): word
    requires i < 32
  {
    OrW(x, Lsl(1, i))
  }

  /** clr_bit(x, i) */
  function ClrBit(x: word, i: nat): word
    requires i < 32
  {
    AndW(x, NotW(Lsl(1, i)))
  }

  /** The if/else pair the flag code repeats: set the bit or clear it. */
  function PutBit(x: word, i: nat, b: bool): word
    requires i < 32
  {
    if b then SetBit(x, i) else ClrBit(x, i)
  }

  // ----- arithmetic facts -----

  lemma DivNoBigger(x: nat, d: int)
    requires d >= 1
    ensures 0 <= x / d <= x
  {
  }

  lemma {:induction false} Pow2Add(a: nat, b: nat)
    ensures Pow2(a + b) == Pow2(a) * Pow2(b)
    decreases a
  {
    if a > 0 {
      Pow2Add(a - 1, b);
    }
  }

  lemma SmallMultiple(k: int, d: int)
    requires d > 0 && -d < k * d < d
    ensures k == 0
  {
  }

  /** The quotient and remainder of a division are determined by their defining equation. */
  lemma DivModUnique(x: int, d: int, q: int, r: int)
    requires d > 0 && 0 <= r < d && x == q * d + r
    ensures x / d == q && x % d == r
  {
    var q', r' := x / d, x % d;
    assert x == q' * d + r';
    assert (q - q') * d == q * d - q' * d;
    SmallMultiple(q - q', d);
  }

  lemma Regroup(q: int, r: int, a: int, b: int)
    ensures (q * b + r) * a == q * (a * b) + r * a
  {
    assert (q * b) * a == q * (a * b);
  }

  lemma RemainderBound(r: int, s: int, a: int, b: int)
    requires 0 <= r < a && 0 <= s < b
    ensures 0 <= s * a + r < a * b
  {
    assert (s + 1) * a <= b * a;
  }

  lemma DivDiv(x: nat, a: int, b: int)
    requires a > 0 && b > 0
    ensures a * b > 0
    ensures x / (a * b) == x / a / b
    ensures x % (a * b) == x / a % b * a + x % a
  {
    var q, r := x / a, x % a;
    var q', r' := q / b, q % b;
    assert x == q * a + r && q == q' * b + r';
    Regroup(q', r', a, b);
    RemainderBound(r, r', a, b);
    DivModUnique(x, a * b, q', r' * a + r);
  }

  lemma {:induction false} Pow2Mono(a: nat, b: nat)
    requires a <= b
    ensures Pow2(a) <= Pow2(b)
    decreases b
  {
    if a < b {
      Pow2Mono(a, b - 1);
    }
  }

  /** Every word shifts right by 32 or more to nothing. */
  lemma {:induction false} WordBelowPow2(x: word, n: nat)
    requires n >= 32
    ensures x < Pow2(n) && x / Pow2(n) == 0
  {
    Pow2Of32();
    Pow2Mono(32, n);
    DivModUnique(x, Pow2(n), 0, x);
  }

  lemma GetBitHalves(x: nat, i: nat)
    ensures i > 0 ==> GetBit(x, i) == GetBit(x / 2, i - 1)
  {
    if i > 0 {
      DivDiv(x, 2, Pow2(i - 1));
    }
  }

  // ----- what the bit macros compute -----

  lemma {:induction false} OrPow2(x: nat, i: nat)
    ensures Or(x, Pow2(i)) == if GetBit(x, i) == 1 then x else x + Pow2(i)
  {
    if x == 0 {
      DivModUnique(0, Pow2(i), 0, 0);
    } else if i > 0 {
      OrPow2(x / 2, i - 1);
      GetBitHalves(x, i);
    }
  }

  lemma {:induction false} AndOnes(x: nat, n: nat)
    requires x < Pow2(n)
    ensures And(x, Pow2(n) - 1) == x
  {
    if x > 0 && n > 0 {
      AndOnes(x / 2, n - 1);
    }
  }

  lemma AndStep(x: nat, y: nat)
    ensures And(x, y) == 2 * And(x / 2, y / 2) + (if x % 2 == 1 && y % 2 == 1 then 1 else 0)
  {
    assert And(0, y / 2) == And(x / 2, 0) == 0;
  }

  lemma AndHalves(x: nat, y: nat)
    ensures And(x, 2 * y) == 2 * And(x / 2, y)
    ensures And(x, 2 * y + 1) == 2 * And(x / 2, y) + x % 2
  {
    hide And;
    AndStep(x, 2 * y);
    AndStep(x, 2 * y + 1);
    assert (2 * y + 1) / 2 == y && (2 * y + 1) % 2 == 1;
  }

  lemma BitZero(x: nat)
    ensures GetBit(x, 0) == x % 2
  {
    assert Pow2(0) == 1;
  }

  lemma AndNotOne(x: nat, n: nat)
    requires x < 2 * Pow2(n)
    ensures And(x, 2 * (Pow2(n) - 1)) == x - x % 2
  {
    hide And, Pow2;
    AndOnes(x / 2, n);
    AndHalves(x, Pow2(n) - 1);
  }

  lemma {:induction false} AndNotPow2(x: nat, i: nat, n: nat, mask: nat)
    requires x < Pow2(n) && i < n && mask == Pow2(n) - 1 - Pow2(i)
    ensures And(x, mask) == if GetBit(x, i) == 1 then x - Pow2(i) else x
  {
    var half := mask / 2;
    if i == 0 {
      AndNotOne(x, n - 1);
      BitZero(x);
    } else {
      assert half == Pow2(n - 1) - 1 - Pow2(i - 1);
      hide And, GetBit;
      AndNotPow2(x / 2, i - 1, n - 1, half);
      AndHalves(x, half);
      GetBitHalves(x, i);
    }
  }

  lemma Pow2Below32(i: nat)
    requires i < 32
    ensures Pow2(i) < 0x1_0000_0000 && Lsl(1, i) == Pow2(i)
  {
    Pow2Of32();
    Pow2Mono(i + 1, 32);
  }

  lemma {:induction false} SetBitValue(x: word, i: nat)
    requires i < 32
    ensures SetBit(x, i) == if GetBit(x, i) == 1 then x else x + Pow2(i)
  {
    Pow2Below32(i);
    OrPow2(x, i);
  }

  lemma ClrBitValue(x: word, i: nat)
    requires i < 32
    ensures ClrBit(x, i) == if GetBit(x, i) == 1 then x - Pow2(i) else x
  {
    Pow2Below32(i);
    var n := 32;
    assert Pow2(n) == 0x1_0000_0000 by { Pow2Of32(); }
    AndNotPow2(x, i, n, NotW(Lsl(1, i)));
  }

  /** Putting a bit replaces its contribution to the word's value and nothing else. */
  lemma PutBitValue(x: word, i: nat, b: bool)
    requires i < 32
    ensures PutBit(x, i, b) == x + (if b then Pow2(i) else 0) - (if GetBit(x, i) == 1 then Pow2(i) else 0)
  {
    if b {
      SetBitValue(x, i);
    } else {
      ClrBitValue(x, i);
    }
  }

  lemma OrHalves(x: nat, y: nat)
    ensures Or(2 * x, y) == 2 * Or(x, y / 2) + y % 2
  {
  }

  lemma MulStep(k: int, t: int)
    ensures k * t == (k - 1) * t + t
  {
  }

  lemma Doubles(x: int, p: int)
    ensures x * (2 * p) == 2 * (x * p)
  {
  }

  lemma NonNegative(x: int, p: int)
    requires x >= 0 && p >= 0
    ensures x * p >= 0
  {
  }

  /** A field shifted above another one is joined to it by addition. */
  lemma {:induction false} OrDisjoint(x: nat, y: nat, k: nat)
    requires y < Pow2(k)
    ensures x * Pow2(k) >= 0 && Or(x * Pow2(k), y) == x * Pow2(k) + y
  {
    NonNegative(x, Pow2(k));
    if k > 0 {
      OrDisjoint(x, y / 2, k - 1);
      Doubles(x, Pow2(k - 1));
      OrHalves(x * Pow2(k - 1), y);
    }
  }

  // ----- the bitwise operators, bit by bit -----

  lemma ZeroBits(i: nat)
    ensures GetBit(0, i) == 0
  {
    DivModUnique(0, Pow2(i), 0, 0);
  }

  lemma {:induction false} BitsOfAnd(x: nat, y: nat, i: nat)
    ensures GetBit(And(x, y), i) == if GetBit(x, i) == 1 && GetBit(y, i) == 1 then 1 else 0
  {
    ZeroBits(i);
    if i > 0 && x > 0 && y > 0 {
      BitsOfAnd(x / 2, y / 2, i - 1);
      Halved(x, y, i);
    }
  }

  lemma {:induction false} BitsOfOr(x: nat, y: nat, i: nat)
    ensures GetBit(Or(x, y), i) == if GetBit(x, i) == 1 || GetBit(y, i) == 1 then 1 else 0
  {
    ZeroBits(i);
    if i > 0 && x > 0 && y > 0 {
      BitsOfOr(x / 2, y / 2, i - 1);
      Halved(x, y, i);
    }
  }

  lemma {:induction false} BitsOfXor(x: nat, y: nat, i: nat)
    ensures GetBit(Xor(x, y), i) == if GetBit(x, i) == GetBit(y, i) then 0 else 1
  {
    ZeroBits(i);
    if i > 0 && x > 0 && y > 0 {
      BitsOfXor(x / 2, y / 2, i - 1);
      Halved(x, y, i);
    }
  }

  lemma HalfOfAnd(x: nat, y: nat)
    ensures And(x, y) / 2 == And(x / 2, y / 2)
  {
    assert And(0, y / 2) == And(x / 2, 0) == 0;
  }

  lemma HalfOfOr(x: nat, y: nat)
    ensures Or(x, y) / 2 == Or(x / 2, y / 2)
  {
    assert Or(0, y / 2) == y / 2 && Or(x / 2, 0) == x / 2;
  }

  lemma HalfOfXor(x: nat, y: nat)
    ensures Xor(x, y) / 2 == Xor(x / 2, y / 2)
  {
    assert Xor(0, y / 2) == y / 2 && Xor(x / 2, 0) == x / 2;
  }

  /** One place up, the operators and their operands are those of the halves. */
  lemma Halved(x: nat, y: nat, i: nat)
    requires i > 0 && x > 0 && y > 0
    ensures GetBit(x, i) == GetBit(x / 2, i - 1) && GetBit(y, i) == GetBit(y / 2, i - 1)
    ensures GetBit(And(x, y), i) == GetBit(And(x / 2, y / 2), i - 1)
    ensures GetBit(Or(x, y), i) == GetBit(Or(x / 2, y / 2), i - 1)
    ensures GetBit(Xor(x, y), i) == GetBit(Xor(x / 2, y / 2), i - 1)
  {
    hide GetBit, And, Or, Xor;
    HalfOfAnd(x, y);
    HalfOfOr(x, y);
    HalfOfXor(x, y);
    GetBitHalves(x, i);
    GetBitHalves(y, i);
    GetBitHalves(And(x, y), i);
    GetBitHalves(Or(x, y), i);
    GetBitHalves(Xor(x, y), i);
  }

  lemma {:induction false} BitsOfComplement(x: nat, i: nat, n: nat, mask: nat)
    requires x < Pow2(n) && i < n && mask == Pow2(n) - 1 - x
    ensures GetBit(mask, i) == 1 - GetBit(x, i)
  {
    if i > 0 {
      BitsOfComplement(x / 2, i - 1, n - 1, mask / 2);
      GetBitHalves(x, i);
      GetBitHalves(mask, i);
    }
  }

  lemma BitsOfNot(x: word, i: nat)
    requires i < 32
    ensures GetBit(NotW(x), i) == 1 - GetBit(x, i)
  {
    hide GetBit;
    var n := 32;
    assert Pow2(n) == 0x1_0000_0000 by { Pow2Of32(); }
    BitsOfComplement(x, i, n, NotW(x));
  }

  /** Words with the same bits are the same. */
  lemma {:induction false} SameBits(x: nat, y: nat, n: nat)
    requires x < Pow2(n) && y < Pow2(n)
    requires forall i: nat :: i < n ==> GetBit(x, i) == GetBit(y, i)
    ensures x == y
  {
    if n > 0 {
      forall i: nat | i < n - 1 ensures GetBit(x / 2, i) == GetBit(y / 2, i) {
        GetBitHalves(x, i + 1);
        GetBitHalves(y, i + 1);
        assert GetBit(x, i + 1) == GetBit(y, i + 1);
      }
      SameBits(x / 2, y / 2, n - 1);
      assert GetBit(x, 0) == x % 2 && GetBit(y, 0) == y % 2;
    }
  }

  // ----- the low bits of a word -----

  /** The bits below `n` are those of the remainder by 2^n. */
  lemma {:induction false} LowBits(x: nat, i: nat, n: nat)
    requires i < n
    ensures GetBit(x, i) == GetBit(x % Pow2(n), i)
  {
    Halves(x, Pow2(n - 1));
    if i > 0 {
      hide GetBit;
      LowBits(x / 2, i - 1, n - 1);
      GetBitHalves(x, i);
      GetBitHalves(x % Pow2(n), i);
    } else {
      BitZero(x);
      BitZero(x % Pow2(n));
    }
  }

  lemma Halves(x: nat, p: nat)
    requires p > 0
    ensures x % (2 * p) / 2 == x / 2 % p && x % (2 * p) % 2 == x % 2
  {
    DivDiv(x, 2, p);
    DivModUnique(x % (2 * p), 2, x / 2 % p, x % 2);
  }

  lemma SixteenBits()
    ensures Pow2(16) == 0x1_0000
  {
    assert Pow2(8) == 0x100;
    Pow2Add(8, 8);
  }
}
