/** The memory refines a map from addresses to bytes. */
module MemoryLaws {
  import opened Words
  import opened MemorySpec

  /** reverse_4 of util.h: the bytes of a word in the opposite order. */
  function Reverse4(v: word): word
  {
    v % 0x100 * 0x100_0000 + v / 0x100 % 0x100 * 0x1_0000 + v / 0x1_0000 % 0x100 * 0x100 + v / 0x100_0000
  }

  /** reverse_2 of util.h. */
  function Reverse2(v: half): half { v % 0x100 * 0x100 + v / 0x100 }

  lemma Digits(v: word)
    ensures v == v / 0x100_0000 * 0x100_0000 + v / 0x1_0000 % 0x100 * 0x1_0000 + v / 0x100 % 0x100 * 0x100 + v % 0x100
  {
    var q1 := v / 0x100;
    var q2 := q1 / 0x100;
    assert q2 == v / 0x1_0000 && q2 / 0x100 == v / 0x100_0000;
  }

  lemma WordRoundTrip(v: word, be: bool, be': bool)
    ensures Word(Bytes4(v, be), be') == if be == be' then v else Reverse4(v)
  {
    Digits(v);
  }

  lemma HalfRoundTrip(v: half, be: bool, be': bool)
    ensures Half(Bytes2(v, be), be') == if be == be' then v else Reverse2(v)
  {
  }

  /** What was just stored is what is fetched. */
  lemma FetchStored(mem: seq<byte>, a: word, bs: seq<byte>, junk: Junk)
    requires |mem| <= MAX_SIZE && a + |bs| <= |mem| && |bs| > 0
    ensures Bytes(Store(mem, a, bs), a, |bs|, junk) == bs
  {
  }

  /** A word written and read back: the same value under the same byte order, the byte-reversed
      value under the other one; likewise for halves. */
  lemma WriteThenRead(mem: seq<byte>, a: word, w: word, h: half, be: bool, be': bool,
                      prev: word, prevHalf: half, junk: Junk)
    requires |mem| <= MAX_SIZE
    ensures a + 4 <= |mem| ==>
      ReadWord(WriteWord(mem, a, w, be), a, be', prev, junk) == Access(0, if be == be' then w else Reverse4(w))
    ensures a + 2 <= |mem| ==>
      ReadHalf(WriteHalf(mem, a, h, be), a, be', prevHalf, junk) == Access(0, if be == be' then h else Reverse2(h))
  {
    if a + 4 <= |mem| {
      FetchStored(mem, a, Bytes4(w, be), junk);
      WordRoundTrip(w, be, be');
    }
    if a + 2 <= |mem| {
      FetchStored(mem, a, Bytes2(h, be), junk);
      HalfRoundTrip(h, be, be');
    }
  }

  /** Stores to ranges that do not meet can be exchanged. */
  lemma StoresCommute(mem: seq<byte>, a: word, bs: seq<byte>, a': word, bs': seq<byte>)
    requires a + |bs| <= a' || a' + |bs'| <= a
    ensures Store(Store(mem, a, bs), a', bs') == Store(Store(mem, a', bs'), a, bs)
  {
  }

  /** A word store is two half stores, the most significant half first in memory exactly when
      the order is big-endian. */
  lemma WordIsTwoHalves(mem: seq<byte>, a: word, v: word, be: bool)
    requires a + 2 < 0x1_0000_0000
    ensures WriteWord(mem, a, v, be) ==
      WriteHalf(WriteHalf(mem, a, if be then v / 0x1_0000 else v % 0x1_0000, be),
                a + 2, if be then v % 0x1_0000 else v / 0x1_0000, be)
  {
    var hi, lo := v / 0x1_0000, v % 0x1_0000;
    HalvesOfWord(v, be);
    var first, second := if be then hi else lo, if be then lo else hi;
    StoreInTwo(mem, a, Bytes2(first, be), Bytes2(second, be));
  }

  lemma HalvesOfWord(v: word, be: bool)
    ensures var hi, lo := v / 0x1_0000, v % 0x1_0000;
      Bytes4(v, be) == if be then Bytes2(hi, be) + Bytes2(lo, be) else Bytes2(lo, be) + Bytes2(hi, be)
  {
    HalfDigits(v);
  }

  lemma HalfDigits(v: word)
    ensures v / 0x100_0000 == v / 0x1_0000 / 0x100
    ensures v / 0x100 % 0x100 == v % 0x1_0000 / 0x100
    ensures v % 0x100 == v % 0x1_0000 % 0x100
  {
  }

  lemma StoreInTwo(mem: seq<byte>, a: word, bs: seq<byte>, bs': seq<byte>)
    requires a + |bs| < 0x1_0000_0000
    requires a < |mem| || |mem| <= a + |bs|
    ensures Store(mem, a, bs + bs') == Store(Store(mem, a, bs), a + |bs|, bs')
  {
  }

  // ----- whole histories of writes -----

  datatype Write =
    | ByteWrite(a: word, b: byte)
    | HalfWrite(a: word, h: half, be: bool)
    | WordWrite(a: word, w: word, be: bool)
  {
    /** The bytes the write puts in memory, from address `a` on. */
    function Image(): seq<byte>
    {
      match this
      case ByteWrite(_, b) => [b]
      case HalfWrite(_, h, be) => Bytes2(h, be)
      case WordWrite(_, w, be) => Bytes4(w, be)
    }
  }

  function Apply(mem: seq<byte>, w: Write): (mem': seq<byte>)
    ensures |mem'| == |mem|
  {
    match w
    case ByteWrite(a, b) => WriteByte(mem, a, b)
    case HalfWrite(a, h, be) => WriteHalf(mem, a, h, be)
    case WordWrite(a, x, be) => WriteWord(mem, a, x, be)
  }

  function ApplyAll(mem: seq<byte>, ws: seq<Write>): (mem': seq<byte>)
    ensures |mem'| == |mem|
  {
    if ws == [] then mem else Apply(ApplyAll(mem, ws[..|ws| - 1]), ws[|ws| - 1])
  }

  /** The abstract byte map: the byte of the latest write that covers `j`, else the initial one. */
  function LastByte(mem: seq<byte>, ws: seq<Write>, j: nat): byte
    requires j < |mem|
  {
    if ws == [] then mem[j]
    else
      var w := ws[|ws| - 1];
      if w.a <= j < w.a + |w.Image()| then w.Image()[j - w.a] else LastByte(mem, ws[..|ws| - 1], j)
  }

  lemma {:induction false} HistoryByte(mem: seq<byte>, ws: seq<Write>, j: nat)
    requires j < |mem|
    ensures ApplyAll(mem, ws)[j] == LastByte(mem, ws, j)
  {
    if ws != [] {
      HistoryByte(mem, ws[..|ws| - 1], j);
    }
  }

  function LastBytes(mem: seq<byte>, ws: seq<Write>, a: nat, n: nat): (bs: seq<byte>)
    requires a + n <= |mem|
    ensures |bs| == n
  {
    seq<byte>(n, i requires 0 <= i < n => LastByte(mem, ws, a + i))
  }

  lemma HistoryBytes(mem: seq<byte>, ws: seq<Write>, a: word, n: nat, junk: Junk)
    requires |mem| <= MAX_SIZE && a + n <= |mem|
    ensures Bytes(ApplyAll(mem, ws), a, n, junk) == LastBytes(mem, ws, a, n)
  {
    var after := ApplyAll(mem, ws);
    var bs, last := Bytes(after, a, n, junk), LastBytes(mem, ws, a, n);
    forall i | 0 <= i < n ensures bs[i] == last[i] {
      assert Wrap(a + i) == a + i;
      HistoryByte(mem, ws, a + i);
    }
  }

  /** After any history of writes of any widths and byte orders, in range or not, an in-range read
      of any width and byte order assembles the last byte written at each of its addresses. */
  lemma {:induction false} ReadAfterHistory(mem: seq<byte>, ws: seq<Write>, a: word, be: bool,
                         prev: byte, prevHalf: half, prevWord: word, junk: Junk)
    requires |mem| <= MAX_SIZE
    ensures a < |mem| ==> ReadByte(ApplyAll(mem, ws), a, prev) == Access(0, LastByte(mem, ws, a))
    ensures a + 2 <= |mem| ==>
      ReadHalf(ApplyAll(mem, ws), a, be, prevHalf, junk) == Access(0, Half(LastBytes(mem, ws, a, 2), be))
    ensures a + 4 <= |mem| ==>
      ReadWord(ApplyAll(mem, ws), a, be, prevWord, junk) == Access(0, Word(LastBytes(mem, ws, a, 4), be))
  {
    if a < |mem| {
      HistoryByte(mem, ws, a);
    }
    if a + 2 <= |mem| {
      HistoryBytes(mem, ws, a, 2, junk);
    }
    if a + 4 <= |mem| {
      HistoryBytes(mem, ws, a, 4, junk);
    }
  }
}
