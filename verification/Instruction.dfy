/** arm_instruction.c on the processor object. */
module Instruction {
  import opened Words
  import opened Machine
  import opened Decode
  import opened DataProcessingSpec
  import opened DataProcessing
  import opened LoadStore
  import opened Multiple
  import opened Branching
  import opened ExceptionHandler
  import opened InstructionSpec
  import opened Core
  import Conditions

  /** arm_condition */
  method ArmCondition(p: ArmCore, ins: word) returns (passes: bool)
    requires p.Valid()
    ensures passes == Conditions.Passes(CpsrOf(p.St()), Cond(ins))
  {
    hide GetBit;
    var cpsr := p.ReadCpsr();
    var n, z, c, v := GetBit(cpsr, 31), GetBit(cpsr, 30), GetBit(cpsr, 29), GetBit(cpsr, 28);
    match Cond(ins)
    case 0 => passes := z == 1;
    case 1 => passes := z != 1;
    case 2 => passes := c == 1;
    case 3 => passes := c != 1;
    case 4 => passes := n == 1;
    case 5 => passes := n != 1;
    case 6 => passes := v == 1;
    case 7 => passes := v != 1;
    case 8 => passes := c == 1 && z != 1;
    case 9 => passes := c != 1 || z == 1;
    case 10 => passes := n == v;
    case 11 => passes := n != v;
    case 12 => passes := z != 1 && n == v;
    case 13 => passes := z == 1 || n != v;
    case 14 => passes := true;
    case _ => passes := false;
  }

  /** arm_execute_instruction */
  method ArmExecuteInstruction(p: ArmCore, u: StepUninit) returns (code: int)
    requires p.Valid()
    modifies p.reg.slots, p.mem.data
    ensures Outcome(p.St(), code) == Execute(old(p.St()), u)
  {
    hide Fetch, Conditions.Passes, DataProcessingShift, DataProcessingImmediate, BitP, BitU, BitL, Bit7, Bit4;
    hide InsType, LoadStoreSpec.LoadStore, MultipleSpec.LoadStoreMultiple, BranchSpec.Branch, BranchSpec.Swi;
    hide BranchSpec.Miscellaneous;
    var status, ins := p.FetchInstruction(u.fetch);
    if status != 0 {
      return -1;
    }
    var passes := ArmCondition(p, ins);
    if !passes {
      return 0;
    }
    match InsType(ins)
    case 0 =>
      if BitP(ins) && !BitU(ins) && !BitL(ins) {
        code := ArmMiscellaneous(p, ins);
      } else if Bit7(ins) && Bit4(ins) {
        code := ArmLoadStore(p, ins, u.execute);
      } else {
        code := ArmDataProcessingShift(p, ins);
      }
    case 1 => code := ArmDataProcessingImmediate(p, ins);
    case 2 => code := ArmLoadStore(p, ins, u.execute);
    case 3 => code := ArmLoadStore(p, ins, u.execute);
    case 4 => code := ArmLoadStoreMultiple(p, ins, u.execute);
    case 5 => code := ArmBranch(p, ins);
    case 6 => code := UNDEFINED_INSTRUCTION;
    case _ => code := ArmCoprocessorOthersSwi(p, ins);
  }

  /** arm_step */
  method ArmStep(p: ArmCore, u: StepUninit) returns (code: int, printed: seq<byte>)
    requires p.Valid()
    modifies p.reg.slots, p.mem.data
    ensures Outcome(p.St(), code) == Step(old(p.St()), u)
    ensures printed == StepPrints(old(p.St()), u)
  {
    hide Execute, ExceptionSpec.Exception, ExceptionSpec.Printed;
    printed := [];
    code := ArmExecuteInstruction(p, u);
    if code != 0 {
      code, printed := ArmException(p, code % 0x100, u.handler);
    }
  }
}
