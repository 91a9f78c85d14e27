/** The sixteen data-processing operations as one function (arm_data_processing.c). */
module DataProcessingSpec {
  import opened Words
  import opened RegistersSpec
  import opened Machine
  import opened Decode
  import opened ShifterSpec

  // Opcodes, bits 24..21.
  const AND := 0
  const EOR := 1
  const SUB := 2
  const RSB := 3
  const ADD := 4
  const ADC := 5
  const SBC := 6
  const RSC := 7
  const TST := 8
  const TEQ := 9
  const CMP := 10
  const CMN := 11
  const ORR := 12
  const MOV := 13
  const BIC := 14
  const MVN := 15

  predicate CarryFrom(a: word, b: word, c: nat) { Wrap(a as int + b as int + c) > 0xFFFF_FFFF }

  predicate BorrowFrom(a: word, b: word) { a < b }

  /** The rule for additions, which the interpreter uses for subtractions too. */
  predicate OverflowFrom(rd: word, rn: word, operand: word)
  {
    GetBit(rn, 31) == GetBit(operand, 31) && GetBit(rd, 31) != GetBit(rn, 31)
  }

  /** N and Z from the result, then C. */
  function LogicalFlags(cpsr: word, result: word, carry: bool): word
  {
    PutBit(PutBit(PutBit(cpsr, 31, GetBit(result, 31) == 1), 30, result == 0), 29, carry)
  }

  function ArithmeticFlags(cpsr: word, result: word, carry: bool, overflow: bool): word
  {
    PutBit(LogicalFlags(cpsr, result, carry), 28, overflow)
  }

  predicate IsLogical(opcode: nat)
  {
    opcode == AND || opcode == EOR || opcode == TST || opcode == TEQ || opcode >= ORR
  }

  /** The four comparisons write no register. */
  predicate IsCompare(opcode: nat) { TST <= opcode <= CMN }

  function Result(opcode: nat, rn: word, operand: word, c: nat): word
    requires opcode < 16 && c < 2
  {
    match opcode
    case 0 => AndW(rn, operand)
    case 1 => XorW(rn, operand)
    case 2 => Minus(rn, operand)
    case 3 => Minus(operand, rn)
    case 4 => Plus(rn, operand)
    case 5 => Wrap(rn as int + operand as int + c)
    case 6 => Wrap(rn as int - operand as int - (1 - c))
    case 7 => Wrap(operand as int - rn as int - (1 - c))
    case 8 => AndW(rn, operand)
    case 9 => XorW(rn, operand)
    case 10 => Minus(rn, operand)
    case 11 => Plus(rn, operand)
    case 12 => OrW(rn, operand)
    case 13 => operand
    case 14 => AndW(rn, NotW(operand))
    case _ => NotW(operand)
  }

  /** operand + ~FLAG_c on uint32_t: the complement is taken after promotion to int. */
  function WithComplement(operand: word, c: nat): word
    requires c < 2
  {
    Wrap(operand as int + 0xFFFF_FFFF - c)
  }

  /** The C flag; logical operations take the shifter's carry-out. */
  predicate CarryFlag(opcode: nat, rn: word, operand: word, carry: bool, c: nat)
    requires opcode < 16 && c < 2
  {
    if IsLogical(opcode) then carry
    else if opcode == SUB || opcode == CMP then !BorrowFrom(rn, operand)
    else if opcode == RSB then !BorrowFrom(operand, rn)
    else if opcode == SBC then !BorrowFrom(rn, WithComplement(operand, c))
    else if opcode == RSC then !BorrowFrom(operand, WithComplement(rn, c))
    else CarryFrom(rn, operand, if opcode == CMN then 0 else c)
  }

  /** The V flag of an arithmetic operation. `rd` is Rd as read when the rule is applied: the result,
      except that the comparisons never write it. */
  predicate OverflowFlag(opcode: nat, rd: word, rn: word, operand: word, c: nat)
    requires opcode < 16 && c < 2
  {
    if opcode == RSB then OverflowFrom(rd, operand, rn)
    else if opcode == SBC then OverflowFrom(rd, rn, WithComplement(operand, c))
    else if opcode == RSC then OverflowFrom(rd, operand, WithComplement(rn, c))
    else OverflowFrom(rd, rn, operand)
  }

  /** CPSR after the flags are set; `stale` is Rd before the instruction. */
  function Flags(opcode: nat, cpsr: word, stale: word, rn: word, operand: word, carry: bool): word
    requires opcode < 16
  {
    var c := GetBit(cpsr, 29);
    var result := Result(opcode, rn, operand, c);
    var carryOut := CarryFlag(opcode, rn, operand, carry, c);
    if IsLogical(opcode) then LogicalFlags(cpsr, result, carryOut)
    else
      ArithmeticFlags(cpsr, result, carryOut,
                      OverflowFlag(opcode, if IsCompare(opcode) then stale else result, rn, operand, c))
  }

  /** Write Rd; with S set, either restore CPSR from SPSR (Rd is the PC) or set the flags. */
  function WriteResult(s: State, rd: nat, setFlags: bool, value: word, flags: word): Outcome
    requires rd < 16
  {
    var s1 := WriteReg(s, rd, value);
    if !setFlags then Outcome(s1, 0)
    else if rd != 15 then Outcome(SetCpsr(s1, flags), 0)
    else if ModeHasSpsr(ModeOf(s1)) then Outcome(SetCpsr(s1, SpsrOf(s1)), 0)
    else Outcome(s1, UNDEFINED_INSTRUCTION)
  }

  /** One data-processing operation on given operands. */
  function Alu(s: State, opcode: nat, setFlags: bool, rd: nat, rn: word, operand: word, carry: bool): Outcome
    requires opcode < 16 && rd < 16
  {
    var flags := Flags(opcode, CpsrOf(s), ReadReg(s, rd), rn, operand, carry);
    if IsCompare(opcode) then Outcome(SetCpsr(s, flags), 0)
    else WriteResult(s, rd, setFlags, Result(opcode, rn, operand, FlagC(s)), flags)
  }

  function Operate(s: State, ins: word, op: Shifted): Outcome
  {
    Alu(s, Opcode(ins), BitL(ins), Rd(ins), ReadReg(s, Rn(ins)), op.operand, op.carry != 0)
  }

  /** arm_data_processing_shift; the precondition keeps it off the encodings where the shifter is NULL. */
  function DataProcessingShift(s: State, ins: word): Outcome
    requires !(Bit7(ins) && Bit4(ins))
  {
    Operate(s, ins, ShifterValues(s, ins, FlagC(s)).value)
  }

  /** arm_data_processing_immediate_msr */
  function DataProcessingImmediate(s: State, ins: word): Outcome
  {
    Operate(s, ins, RotatedImmediate(RotateImm(ins), Immed8(ins), FlagC(s)))
  }
}
