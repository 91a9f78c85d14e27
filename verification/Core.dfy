/** arm_core.c: the processor object over its register file and its memory. */
module Core {
  import opened Words
  import opened RegistersSpec
  import opened RegisterFile
  import opened MemoryArea
  import opened Machine

  class ArmCore {
    const reg: Registers
    const mem: Memory
    const be: bool

    ghost predicate Valid()
    {
      reg.Valid() && mem.Valid() && reg.slots as object != mem.data as object
    }

    ghost function St(): State
      requires Valid()
      reads reg.slots, mem.data
    {
      State(reg.slots[..], mem.data[..], be)
    }

    constructor (reg: Registers, mem: Memory, be: bool)
      requires reg.Valid() && mem.Valid() && reg.slots as object != mem.data as object
      modifies reg.slots
      ensures this.reg == reg && this.mem == mem && this.be == be && Valid()
      ensures St() == Created(old(reg.slots[..]), mem.data[..], be)
    {
      this.reg := reg;
      this.mem := mem;
      this.be := be;
      new;
      WriteCpsr(0x1d3);
      WriteRegister(15, 0);
      WriteRegister(13, mem.data.Length);
    }

    method ReadRegister(r: nat) returns (value: word)
      requires Valid() && r < 16
      ensures value == ReadReg(St(), r)
    {
      var mode := reg.GetMode();
      value := reg.Read(r, mode);
      if r == 15 {
        value := Plus(value, 4);
        value := AndW(value, 0xFFFF_FFFD);
      }
    }

    method WriteRegister(r: nat, value: word)
      requires Valid() && r < 16
      modifies reg.slots
      ensures St() == WriteReg(old(St()), r, value)
    {
      var mode := reg.GetMode();
      reg.Write(r, mode, value);
    }

    method ReadCpsr() returns (value: word)
      requires Valid()
      ensures value == CpsrOf(St())
    {
      value := reg.ReadCpsr();
    }

    method WriteCpsr(value: word)
      requires Valid()
      modifies reg.slots
      ensures St() == SetCpsr(old(St()), value)
    {
      reg.WriteCpsr(value);
    }

    method ReadSpsr() returns (value: word)
      requires Valid()
      ensures value == SpsrOf(St())
    {
      var mode := reg.GetMode();
      value := reg.ReadSpsr(mode);
    }

    method CurrentModeHasSpsr() returns (has: bool)
      requires Valid()
      ensures has == ModeHasSpsr(ModeOf(St()))
    {
      has := reg.CurrentModeHasSpsr();
    }

    // The memory accessors return the variable the C caller passes in: `u.value` is what it held.

    method ReadByte(address: word, u: Uninit) returns (value: byte)
      requires Valid()
      ensures value == LoadByte(St(), address, u)
    {
      var status;
      status, value := mem.ReadByte(address, u.value % 0x100);
    }

    method ReadHalf(address: word, u: Uninit) returns (value: half)
      requires Valid()
      ensures value == LoadHalf(St(), address, u)
    {
      var status;
      status, value := mem.ReadHalf(address, be, u.value % 0x1_0000, u.buffer);
    }

    method ReadWord(address: word, u: Uninit) returns (value: word)
      requires Valid()
      ensures value == LoadWord(St(), address, u)
    {
      var status;
      status, value := mem.ReadWord(address, be, u.value, u.buffer);
    }

    method WriteByte(address: word, value: byte)
      requires Valid()
      modifies mem.data
      ensures St() == StoreByte(old(St()), address, value)
    {
      var _ := mem.WriteByte(address, value);
    }

    method WriteHalf(address: word, value: half)
      requires Valid()
      modifies mem.data
      ensures St() == StoreHalf(old(St()), address, value)
    {
      var _ := mem.WriteHalf(address, value, be);
    }

    method WriteWord(address: word, value: word)
      requires Valid()
      modifies mem.data
      ensures St() == StoreWord(old(St()), address, value)
    {
      var _ := mem.WriteWord(address, value, be);
    }

    method FetchInstruction(u: Uninit) returns (status: int, ins: word)
      requires Valid()
      modifies reg.slots
      ensures Fetched(status, ins, St()) == Fetch(old(St()), u)
    {
      var mode := reg.GetMode();
      var address := reg.Read(15, mode);
      reg.Write(15, mode, Plus(address, 4));
      status, ins := mem.ReadWord(address, be, u.value, u.buffer);
    }
  }
}
