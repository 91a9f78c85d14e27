/** arm_data_processing.c on the processor object: the barrel shifter and the two 16-case decoders. */
module DataProcessing {
  import opened Words
  import opened RegistersSpec
  import opened Machine
  import opened Decode
  import opened ShifterSpec
  import opened DataProcessingSpec
  import opened Core

  /** The switch of the immediate shifts. */
  method ImmediateShift(rm: word, shift: nat, imm: nat, flagC: nat) returns (r: Shifted)
    requires shift < 4 && imm < 32 && flagC < 2
    ensures r == ShiftByImmediate(rm, shift, imm, flagC)
  {
    hide GetBit, Lsl, Lsr, OrW, RotateRight;
    var operand: word, carry;
    match shift {
    case 0 =>
      if imm == 0 { operand, carry := rm, flagC; }
      else { operand, carry := Lsl(rm, imm), GetBit(rm, 32 - imm); }
    case 1 =>
      if imm == 0 { operand, carry := 0, GetBit(rm, 31); }
      else { operand, carry := Lsr(rm, imm), GetBit(rm, imm - 1); }
    case 2 =>
      if imm == 0 {
        if GetBit(rm, 31) == 0 { operand, carry := 0, GetBit(rm, 31); }
        else { operand, carry := 0xFF, GetBit(rm, 31); }
      } else { operand, carry := Lsr(rm, imm), GetBit(rm, imm - 1); }
    case _ =>
      if imm == 0 { operand, carry := OrW(Lsl(flagC, 31), Lsr(rm, 1)), GetBit(rm, 0); }
      else { operand, carry := RotateRight(rm, imm), GetBit(rm, imm - 1); }
    }
    r := Shifted(operand, carry);
  }

  /** The switch of the register shifts, on the low byte of Rs. */
  method RegisterShift(rm: word, shift: nat, amount: byte, flagC: nat) returns (r: Shifted)
    requires shift < 4 && flagC < 2
    ensures r == ShiftByRegister(rm, shift, amount, flagC)
  {
    hide GetBit, Lsl, Lsr, OrW, RotateRight;
    if amount == 0 {
      return Shifted(rm, flagC);
    }
    var operand: word, carry;
    match shift {
    case 0 =>
      if amount < 32 { operand, carry := Lsl(rm, amount), GetBit(rm, 32 - amount); }
      else if amount == 32 { operand, carry := rm, GetBit(rm, 0); }
      else { operand, carry := 0, 0; }
    case 1 =>
      if amount < 32 { operand, carry := Lsr(rm, amount), GetBit(rm, amount - 1); }
      else if amount == 32 { operand, carry := 0, GetBit(rm, 31); }
      else { operand, carry := 0, 0; }
    case 2 =>
      if amount < 32 { operand, carry := Lsr(rm, amount), GetBit(rm, amount - 1); }
      else if GetBit(rm, 31) == 0 { operand, carry := 0, GetBit(rm, 31); }
      else { operand, carry := 0xFFFF_FFFF, GetBit(rm, 31); }
    case _ =>
      var low := amount % 32;
      if low == 0 { operand, carry := rm, GetBit(rm, 31); }
      else { operand, carry := RotateRight(rm, low), GetBit(rm, low - 1); }
    }
    r := Shifted(operand, carry);
  }

  /** shifter_values_calculator. Its first two tests fill the result for encodings that the switch
      of the immediate shifts then assigns again. */
  method ShifterValuesCalculator(p: ArmCore, ins: word, flagC: nat) returns (r: Option<Shifted>)
    requires p.Valid() && flagC < 2
    ensures r == ShifterValues(p.St(), ins, flagC)
  {
    var rm := p.ReadRegister(Rm(ins));
    var result := Shifted(0, 0);
    if ins / 0x10 % 0x100 == 0 {
      result := Shifted(rm, flagC);
    }
    if ins / 0x10 % 0x100 == 6 {
      result := Shifted(OrW(Lsl(flagC, 31), Lsr(rm, 1)), GetBit(rm, 0));
    }
    if !Bit4(ins) {
      result := ImmediateShift(rm, ShiftType(ins), ShiftImm(ins), flagC);
      return Some(result);
    }
    if !Bit7(ins) {
      var rs := p.ReadRegister(Rs(ins));
      result := RegisterShift(rm, ShiftType(ins), rs % 0x100, flagC);
      return Some(result);
    }
    return None;
  }

  // The statement sequences that the cases of both switches repeat.

  method SetLogicalFlags(p: ArmCore, cpsr: word, result: word, carry: bool)
    requires p.Valid()
    modifies p.reg.slots
    ensures p.St() == SetCpsr(old(p.St()), LogicalFlags(cpsr, result, carry))
  {
    var v := cpsr;
    if GetBit(result, 31) == 1 { v := SetBit(v, 31); } else { v := ClrBit(v, 31); }
    if result == 0 { v := SetBit(v, 30); } else { v := ClrBit(v, 30); }
    if carry { v := SetBit(v, 29); } else { v := ClrBit(v, 29); }
    p.WriteCpsr(v);
  }

  method SetArithmeticFlags(p: ArmCore, cpsr: word, result: word, carry: bool, overflow: bool)
    requires p.Valid()
    modifies p.reg.slots
    ensures p.St() == SetCpsr(old(p.St()), ArithmeticFlags(cpsr, result, carry, overflow))
  {
    var v := cpsr;
    if GetBit(result, 31) == 1 { v := SetBit(v, 31); } else { v := ClrBit(v, 31); }
    if result == 0 { v := SetBit(v, 30); } else { v := ClrBit(v, 30); }
    if carry { v := SetBit(v, 29); } else { v := ClrBit(v, 29); }
    if overflow { v := SetBit(v, 28); } else { v := ClrBit(v, 28); }
    p.WriteCpsr(v);
  }

  /** S set and Rd the program counter. */
  method RestoreCpsr(p: ArmCore) returns (code: int)
    requires p.Valid()
    modifies p.reg.slots
    ensures var s := old(p.St());
      Outcome(p.St(), code) == if ModeHasSpsr(ModeOf(s)) then Outcome(SetCpsr(s, SpsrOf(s)), 0)
                               else Outcome(s, UNDEFINED_INSTRUCTION)
  {
    var has := p.CurrentModeHasSpsr();
    if has {
      var spsr := p.ReadSpsr();
      p.WriteCpsr(spsr);
      return 0;
    }
    return UNDEFINED_INSTRUCTION;
  }

  method FinishLogical(p: ArmCore, rd: nat, setFlags: bool, value: word, cpsr: word, carry: bool) returns (code: int)
    requires p.Valid() && rd < 16
    modifies p.reg.slots
    ensures Outcome(p.St(), code) == WriteResult(old(p.St()), rd, setFlags, value, LogicalFlags(cpsr, value, carry))
  {
    p.WriteRegister(rd, value);
    var rdValue := p.ReadRegister(rd);
    ReadAfterWrite(old(p.St()), rd, value, rd);
    code := 0;
    if setFlags && rd == 15 {
      code := RestoreCpsr(p);
    } else if setFlags {
      SetLogicalFlags(p, cpsr, rdValue, carry);
    }
  }

  method FinishArithmetic(p: ArmCore, rd: nat, setFlags: bool, value: word, cpsr: word, carry: bool,
                          rn: word, operand: word)
    returns (code: int)
    requires p.Valid() && rd < 16
    modifies p.reg.slots
    ensures Outcome(p.St(), code) == WriteResult(old(p.St()), rd, setFlags, value,
      ArithmeticFlags(cpsr, value, carry, OverflowFrom(value, rn, operand)))
  {
    p.WriteRegister(rd, value);
    var rdValue := p.ReadRegister(rd);
    ReadAfterWrite(old(p.St()), rd, value, rd);
    code := 0;
    if setFlags && rd == 15 {
      code := RestoreCpsr(p);
    } else if setFlags {
      SetArithmeticFlags(p, cpsr, rdValue, carry, OverflowFrom(rdValue, rn, operand));
    }
  }

  /** arm_data_processing_shift */
  method ArmDataProcessingShift(p: ArmCore, ins: word) returns (code: int)
    requires p.Valid() && !(Bit7(ins) && Bit4(ins))
    modifies p.reg.slots
    ensures Outcome(p.St(), code) == DataProcessingShift(old(p.St()), ins)
  {
    hide Plus, Minus, Wrap, WriteReg, SetCpsr, SpsrOf, Rn, Rd, Opcode, BitL, AndW, OrW, XorW, NotW, LogicalFlags;
    hide ArithmeticFlags, WriteResult, GetBit, OverflowFrom, BorrowFrom, CarryFrom, WithComplement, RotateRight;
    hide ShiftByImmediate, ShiftByRegister, ReadReg, Lsl, Lsr;
    var rn := p.ReadRegister(Rn(ins));
    var rd := Rd(ins);
    var rdValue := p.ReadRegister(rd);
    var s := BitL(ins);
    var cpsr := p.ReadCpsr();
    var c := GetBit(cpsr, 29);
    var shifter := ShifterValuesCalculator(p, ins, c);
    var operand, carry := shifter.value.operand, shifter.value.carry != 0;
    var opcode := Opcode(ins);
    match opcode
    case 0 => code := FinishLogical(p, rd, s, AndW(rn, operand), cpsr, carry);
    case 1 => code := FinishLogical(p, rd, s, XorW(rn, operand), cpsr, carry);
    case 2 => code := FinishArithmetic(p, rd, s, Minus(rn, operand), cpsr, !BorrowFrom(rn, operand), rn, operand);
    case 3 => code := FinishArithmetic(p, rd, s, Minus(operand, rn), cpsr, !BorrowFrom(operand, rn), operand, rn);
    case 4 => code := FinishArithmetic(p, rd, s, Plus(rn, operand), cpsr, CarryFrom(rn, operand, c), rn, operand);
    case 5 =>
      code := FinishArithmetic(p, rd, s, Wrap(rn as int + operand as int + c), cpsr,
                               CarryFrom(rn, operand, c), rn, operand);
    case 6 =>
      code := FinishArithmetic(p, rd, s, Wrap(rn as int - operand as int - (1 - c)), cpsr,
                               !BorrowFrom(rn, WithComplement(operand, c)), rn, WithComplement(operand, c));
    case 7 =>
      code := FinishArithmetic(p, rd, s, Wrap(operand as int - rn as int - (1 - c)), cpsr,
                               !BorrowFrom(operand, WithComplement(rn, c)), operand, WithComplement(rn, c));
    case 8 => SetLogicalFlags(p, cpsr, AndW(rn, operand), carry); code := 0;
    case 9 => SetLogicalFlags(p, cpsr, XorW(rn, operand), carry); code := 0;
    case 10 =>
      SetArithmeticFlags(p, cpsr, Minus(rn, operand), !BorrowFrom(rn, operand), OverflowFrom(rdValue, rn, operand));
      code := 0;
    case 11 =>
      SetArithmeticFlags(p, cpsr, Plus(rn, operand), CarryFrom(rn, operand, 0), OverflowFrom(rdValue, rn, operand));
      code := 0;
    case 12 => code := FinishLogical(p, rd, s, OrW(rn, operand), cpsr, carry);
    case 13 => code := FinishLogical(p, rd, s, operand, cpsr, carry);
    case 14 => code := FinishLogical(p, rd, s, AndW(rn, NotW(operand)), cpsr, carry);
    case _ => code := FinishLogical(p, rd, s, NotW(operand), cpsr, carry);
  }

  /** The operand at the head of arm_data_processing_immediate_msr. */
  method ImmediateOperand(rotate: nat, immed: byte, c: nat) returns (operand: word, carry: bool)
    requires rotate < 16 && c < 2
    ensures var op := RotatedImmediate(rotate, immed, c); operand == op.operand && (carry <==> op.carry != 0)
  {
    operand := immed;
    var carryOut := c;
    if rotate != 0 {
      operand := RotateRight(immed, 2 * rotate);
      carryOut := GetBit(operand, 31);
    }
    carry := carryOut != 0;
  }

  /** arm_data_processing_immediate_msr */
  method ArmDataProcessingImmediate(p: ArmCore, ins: word) returns (code: int)
    requires p.Valid()
    modifies p.reg.slots
    ensures Outcome(p.St(), code) == DataProcessingImmediate(old(p.St()), ins)
  {
    hide Plus, Minus, Wrap, WriteReg, SetCpsr, SpsrOf, Lsl, Lsr, AndW, OrW, XorW, NotW, LogicalFlags;
    hide ArithmeticFlags, WriteResult, GetBit, OverflowFrom, BorrowFrom, CarryFrom, WithComplement;
    hide RotatedImmediate, Immed8, ReadReg, Rn, Rd, Opcode, BitL;
    var rotate := RotateImm(ins);
    var immed := Immed8(ins);
    var cpsr := p.ReadCpsr();
    var c := GetBit(cpsr, 29);
    var operand, carry := ImmediateOperand(rotate, immed, c);
    var rn := p.ReadRegister(Rn(ins));
    var rd := Rd(ins);
    var rdValue := p.ReadRegister(rd);
    var s := BitL(ins);
    var opcode := Opcode(ins);
    match opcode
    case 0 => code := FinishLogical(p, rd, s, AndW(rn, operand), cpsr, carry);
    case 1 => code := FinishLogical(p, rd, s, XorW(rn, operand), cpsr, carry);
    case 2 => code := FinishArithmetic(p, rd, s, Minus(rn, operand), cpsr, !BorrowFrom(rn, operand), rn, operand);
    case 3 => code := FinishArithmetic(p, rd, s, Minus(operand, rn), cpsr, !BorrowFrom(operand, rn), operand, rn);
    case 4 => code := FinishArithmetic(p, rd, s, Plus(rn, operand), cpsr, CarryFrom(rn, operand, c), rn, operand);
    case 5 =>
      code := FinishArithmetic(p, rd, s, Wrap(rn as int + operand as int + c), cpsr,
                               CarryFrom(rn, operand, c), rn, operand);
    case 6 =>
      code := FinishArithmetic(p, rd, s, Wrap(rn as int - operand as int - (1 - c)), cpsr,
                               !BorrowFrom(rn, WithComplement(operand, c)), rn, WithComplement(operand, c));
    case 7 =>
      code := FinishArithmetic(p, rd, s, Wrap(operand as int - rn as int - (1 - c)), cpsr,
                               !BorrowFrom(operand, WithComplement(rn, c)), operand, WithComplement(rn, c));
    case 8 => SetLogicalFlags(p, cpsr, AndW(rn, operand), carry); code := 0;
    case 9 => SetLogicalFlags(p, cpsr, XorW(rn, operand), carry); code := 0;
    case 10 =>
      SetArithmeticFlags(p, cpsr, Minus(rn, operand), !BorrowFrom(rn, operand), OverflowFrom(rdValue, rn, operand));
      code := 0;
    case 11 =>
      SetArithmeticFlags(p, cpsr, Plus(rn, operand), CarryFrom(rn, operand, 0), OverflowFrom(rdValue, rn, operand));
      code := 0;
    case 12 => code := FinishLogical(p, rd, s, OrW(rn, operand), cpsr, carry);
    case 13 => code := FinishLogical(p, rd, s, operand, cpsr, carry);
    case 14 => code := FinishLogical(p, rd, s, AndW(rn, NotW(operand)), cpsr, carry);
    case _ => code := FinishLogical(p, rd, s, NotW(operand), cpsr, carry);
  }
}
