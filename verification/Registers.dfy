/** registers.c: the banked register file, 37 slots updated in place. */
module RegisterFile {
  import opened Words
  import opened RegistersSpec

  class Registers {
    const slots: array<word>

    ghost predicate Valid()
    {
      slots.Length == 37
    }

    constructor ()
      ensures Valid() && fresh(slots)
      ensures slots[..] == seq(37, _ => 0)
    {
      slots := new word[37](_ => 0);
    }

    method GetMode() returns (mode: byte)
      requires Valid()
      ensures mode == Mode(slots[..])
    {
      mode := slots[CPSR] % 32;
    }

    method CurrentModeHasSpsr() returns (has: bool)
      requires Valid()
      ensures has == ModeHasSpsr(Mode(slots[..]))
    {
      var mode := GetMode();
      has := !(mode == USR || mode == SYS);
    }

    method InAPrivilegedMode() returns (privileged: bool)
      requires Valid()
      ensures privileged == (Mode(slots[..]) != USR)
    {
      var mode := GetMode();
      privileged := mode != USR;
    }

    method Read(reg: nat, mode: byte) returns (value: word)
      requires Valid() && reg < 16
      ensures value == slots[..][Slot(reg, mode)]
    {
      if reg < 8 {
        value := slots[reg];
      } else if reg < 13 {
        if mode == FIQ { value := slots[reg + 16]; } else { value := slots[reg]; }
      } else if reg < 15 {
        match mode
        case 0x11 => value := slots[reg + 16];
        case 0x12 => value := slots[reg + 9];
        case 0x13 => value := slots[reg + 3];
        case 0x17 => value := slots[reg + 5];
        case 0x1b => value := slots[reg + 7];
        case _ => value := slots[reg];
      } else {
        value := slots[reg];
      }
    }

    method Write(reg: nat, mode: byte, value: word)
      requires Valid() && reg < 16
      modifies slots
      ensures slots[..] == old(slots[..])[Slot(reg, mode) := value]
    {
      if reg < 8 {
        slots[reg] := value;
      } else if reg < 13 {
        if mode == FIQ { slots[reg + 16] := value; } else { slots[reg] := value; }
      } else if reg < 15 {
        match mode
        case 0x11 => slots[reg + 16] := value;
        case 0x12 => slots[reg + 9] := value;
        case 0x13 => slots[reg + 3] := value;
        case 0x17 => slots[reg + 5] := value;
        case 0x1b => slots[reg + 7] := value;
        case _ => slots[reg] := value;
      } else {
        slots[reg] := value;
      }
    }

    method ReadCpsr() returns (value: word)
      requires Valid()
      ensures value == slots[..][CPSR]
    {
      value := slots[CPSR];
    }

    method WriteCpsr(value: word)
      requires Valid()
      modifies slots
      ensures slots[..] == old(slots[..])[CPSR := value]
    {
      slots[CPSR] := value;
    }

    method ReadSpsr(mode: byte) returns (value: word)
      requires Valid()
      ensures value == RegistersSpec.ReadSpsr(slots[..], mode)
    {
      match mode
      case 0x11 => value := slots[36];
      case 0x12 => value := slots[35];
      case 0x13 => value := slots[32];
      case 0x17 => value := slots[33];
      case 0x1b => value := slots[34];
      case _ => value := 0;
    }

    method WriteSpsr(mode: byte, value: word)
      requires Valid()
      modifies slots
      ensures slots[..] == RegistersSpec.WriteSpsr(old(slots[..]), mode, value)
    {
      match mode
      case 0x11 => slots[36] := value;
      case 0x12 => slots[35] := value;
      case 0x13 => slots[32] := value;
      case 0x17 => slots[33] := value;
      case 0x1b => slots[34] := value;
      case _ =>
    }
  }
}
