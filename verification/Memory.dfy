/** memory.c: a byte array read and written in place at three widths and two byte orders. */
module MemoryArea {
  import opened Words
  import opened MemorySpec

  class Memory {
    const bigEndianHost: bool
    const data: array<byte>

    ghost predicate Valid()
    {
      data.Length <= MAX_SIZE
    }

    constructor (size: nat, bigEndianHost: bool)
      requires size <= MAX_SIZE
      ensures Valid() && fresh(data) && data.Length == size && this.bigEndianHost == bigEndianHost
    {
      data := new byte[size];
      this.bigEndianHost := bigEndianHost;
    }

    /** The access order differs from the host's, so the bytes are reversed on the way. */
    predicate Swapped(be: bool)
    {
      (!bigEndianHost && be) || (bigEndianHost && !be)
    }

    method ReadByte(address: word, prev: byte) returns (status: int, value: byte)
      requires Valid()
      ensures Access(status, value) == MemorySpec.ReadByte(data[..], address, prev)
    {
      if address < data.Length {
        return 0, data[address];
      }
      return -1, prev;
    }

    /** The local buffer of a multi-byte read, filled byte by byte; bytes past the end of the
        memory keep the buffer's old contents. */
    method Gather(address: word, n: nat, junk: Junk) returns (buffer: array<byte>)
      requires Valid() && address < data.Length && n <= 4
      ensures fresh(buffer) && buffer[..] == Bytes(data[..], address, n, junk)
    {
      buffer := new byte[n](i requires 0 <= i < n => junk(Wrap(address + i)));
      for i := 0 to n
        invariant forall k :: 0 <= k < i ==> buffer[k] == ByteAt(data[..], Wrap(address + k), junk)
        invariant forall k :: i <= k < n ==> buffer[k] == junk(Wrap(address + k))
        invariant data[..] == old(data[..])
      {
        var _, b := ReadByte(Wrap(address + i), buffer[i]);
        buffer[i] := b;
      }
    }

    method ReadHalf(address: word, be: bool, prev: half, junk: Junk) returns (status: int, value: half)
      requires Valid()
      ensures Access(status, value) == MemorySpec.ReadHalf(data[..], address, be, prev, junk)
    {
      if address < data.Length {
        var buffer := Gather(address, 2, junk);
        var rep := new byte[2];
        if Swapped(be) {
          for i := 0 to 2
            invariant forall k :: 0 <= k < i ==> rep[k] == buffer[1 - k]
            invariant buffer[..] == Bytes(data[..], address, 2, junk)
          {
            rep[i] := buffer[1 - i];
          }
        } else {
          for i := 0 to 2
            invariant forall k :: 0 <= k < i ==> rep[k] == buffer[k]
            invariant buffer[..] == Bytes(data[..], address, 2, junk)
          {
            rep[i] := buffer[i];
          }
        }
        return 0, Half(rep[..], bigEndianHost);
      }
      return -1, prev;
    }

    method ReadWord(address: word, be: bool, prev: word, junk: Junk) returns (status: int, value: word)
      requires Valid()
      ensures Access(status, value) == MemorySpec.ReadWord(data[..], address, be, prev, junk)
    {
      if address < data.Length {
        var buffer := Gather(address, 4, junk);
        var rep := new byte[4];
        if Swapped(be) {
          for i := 0 to 4
            invariant forall k :: 0 <= k < i ==> rep[k] == buffer[3 - k]
            invariant buffer[..] == Bytes(data[..], address, 4, junk)
          {
            rep[i] := buffer[3 - i];
          }
        } else {
          for i := 0 to 4
            invariant forall k :: 0 <= k < i ==> rep[k] == buffer[k]
            invariant buffer[..] == Bytes(data[..], address, 4, junk)
          {
            rep[i] := buffer[i];
          }
        }
        return 0, Word(rep[..], bigEndianHost);
      }
      return -1, prev;
    }

    method WriteByte(address: word, value: byte) returns (status: int)
      requires Valid()
      modifies data
      ensures data[..] == MemorySpec.WriteByte(old(data[..]), address, value)
      ensures status == if address < data.Length then 0 else -1
    {
      if address < data.Length {
        data[address] := value;
        return 0;
      }
      return -1;
    }

    /** The write loop of both multi-byte stores: byte i of `buffer`, or byte n-1-i when swapped. */
    method Scatter(address: word, buffer: array<byte>, swapped: bool, ghost ordered: seq<byte>)
      requires Valid() && address < data.Length && buffer != data && buffer.Length <= 4
      requires |ordered| == buffer.Length
      requires !swapped ==> buffer[..] == ordered
      requires swapped ==> forall i :: 0 <= i < |ordered| ==> ordered[i] == buffer[|ordered| - 1 - i]
      modifies data
      ensures data[..] == Store(old(data[..]), address, ordered)
    {
      var n := buffer.Length;
      ghost var before := data[..];
      assert before == Store(before, address, ordered[..0]);
      for i := 0 to n
        invariant data[..] == Store(before, address, ordered[..i])
        invariant !swapped ==> buffer[..] == ordered
        invariant swapped ==> forall k :: 0 <= k < |ordered| ==> ordered[k] == buffer[|ordered| - 1 - k]
      {
        StoreNext(before, address, ordered, i);
        assert Wrap(address + i) == address + i;
        assert ordered[i] == if swapped then buffer[n - 1 - i] else buffer[i];
        var _ := WriteByte(Wrap(address + i), if swapped then buffer[n - 1 - i] else buffer[i]);
      }
      assert ordered[..n] == ordered;
    }

    method WriteHalf(address: word, value: half, be: bool) returns (status: int)
      requires Valid()
      modifies data
      ensures data[..] == MemorySpec.WriteHalf(old(data[..]), address, value, be)
      ensures status == if address < data.Length then 0 else -1
    {
      if address < data.Length {
        var rep := Bytes2(value, bigEndianHost);
        var buffer := new byte[2](i requires 0 <= i < 2 => rep[i]);
        Scatter(address, buffer, Swapped(be), Bytes2(value, be));
        return 0;
      }
      return -1;
    }

    method WriteWord(address: word, value: word, be: bool) returns (status: int)
      requires Valid()
      modifies data
      ensures data[..] == MemorySpec.WriteWord(old(data[..]), address, value, be)
      ensures status == if address < data.Length then 0 else -1
    {
      if address < data.Length {
        var rep := Bytes4(value, bigEndianHost);
        var buffer := new byte[4](i requires 0 <= i < 4 => rep[i]);
        Scatter(address, buffer, Swapped(be), Bytes4(value, be));
        return 0;
      }
      return -1;
    }
  }
}
