/** What memory.c computes, as functions on the bytes of a memory. */
module MemorySpec {
  import opened Words

  /** The size is kept in a C `int`. */
  const MAX_SIZE := 0x7FFF_FFFF

  /** What a local C buffer holds before it is assigned, keyed by the address each byte stands for. */
  type Junk = word -> byte

  /** A status code (0 or -1) with the value left in the caller's variable. */
  datatype Access<T> = Access(status: int, value: T)

  // ----- byte order: the bytes of a value, in increasing address order -----

  function Bytes2(v: half, be: bool): (bs: seq<byte>)
    ensures |bs| == 2
  {
    if be then [v / 0x100, v % 0x100] else [v % 0x100, v / 0x100]
  }

  function Bytes4(v: word, be: bool): (bs: seq<byte>)
    ensures |bs| == 4
  {
    if be then [v / 0x100_0000, v / 0x1_0000 % 0x100, v / 0x100 % 0x100, v % 0x100]
    else [v % 0x100, v / 0x100 % 0x100, v / 0x1_0000 % 0x100, v / 0x100_0000]
  }

  function Half(bs: seq<byte>, be: bool): half
    requires |bs| == 2
  {
    var b0: int, b1: int := bs[0], bs[1];
    if be then b0 * 0x100 + b1 else b1 * 0x100 + b0
  }

  function Word(bs: seq<byte>, be: bool): word
    requires |bs| == 4
  {
    var b0: int, b1: int, b2: int, b3: int := bs[0], bs[1], bs[2], bs[3];
    if be then b0 * 0x100_0000 + b1 * 0x1_0000 + b2 * 0x100 + b3
    else b3 * 0x100_0000 + b2 * 0x1_0000 + b1 * 0x100 + b0
  }

  // ----- accesses on memory contents -----

  function ByteAt(mem: seq<byte>, a: word, junk: Junk): byte
  {
    if a < |mem| then mem[a] else junk(a)
  }

  function Bytes(mem: seq<byte>, a: word, n: nat, junk: Junk): (bs: seq<byte>)
    ensures |bs| == n
    ensures forall i :: 0 <= i < n ==> bs[i] == ByteAt(mem, Wrap(a + i), junk)
  {
    seq<byte>(n, i requires 0 <= i < n => ByteAt(mem, Wrap(a + i), junk))
  }

  function ReadByte(mem: seq<byte>, a: word, prev: byte): Access<byte>
  {
    if a < |mem| then Access(0, mem[a]) else Access(-1, prev)
  }

  function ReadHalf(mem: seq<byte>, a: word, be: bool, prev: half, junk: Junk): Access<half>
  {
    if a < |mem| then Access(0, Half(Bytes(mem, a, 2, junk), be)) else Access(-1, prev)
  }

  function ReadWord(mem: seq<byte>, a: word, be: bool, prev: word, junk: Junk): Access<word>
  {
    if a < |mem| then Access(0, Word(Bytes(mem, a, 4, junk), be)) else Access(-1, prev)
  }

  /** Memory after storing `bs` from address `a` on: nothing at all when `a` is out of range,
      and bytes falling off the end are dropped. */
  function Store(mem: seq<byte>, a: word, bs: seq<byte>): (mem': seq<byte>)
    ensures |mem'| == |mem|
    ensures forall j {:trigger mem'[j]} :: 0 <= j < |mem| ==>
      mem'[j] == if a < |mem| && a <= j < a + |bs| then bs[j - a] else mem[j]
  {
    seq<byte>(|mem|, j requires 0 <= j < |mem| => if a < |mem| && a <= j < a + |bs| then bs[j - a] else mem[j])
  }

  function WriteByte(mem: seq<byte>, a: word, v: byte): seq<byte> { Store(mem, a, [v]) }

  function WriteHalf(mem: seq<byte>, a: word, v: half, be: bool): seq<byte> { Store(mem, a, Bytes2(v, be)) }

  function WriteWord(mem: seq<byte>, a: word, v: word, be: bool): seq<byte> { Store(mem, a, Bytes4(v, be)) }

  lemma StoreNext(mem: seq<byte>, a: word, bs: seq<byte>, i: nat)
    requires i < |bs| && a + i < 0x1_0000_0000 && a < |mem|
    ensures Store(mem, a, bs[..i + 1]) == Store(Store(mem, a, bs[..i]), a + i, [bs[i]])
  {
  }
}
