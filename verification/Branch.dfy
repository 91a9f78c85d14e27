/** arm_branch_other.c on the processor object. */
module Branching {
  import opened Words
  import opened Machine
  import opened Decode
  import opened BranchSpec
  import opened Core

  /** arm_branch */
  method ArmBranch(p: ArmCore, ins: word) returns (code: int)
    requires p.Valid()
    modifies p.reg.slots
    ensures Outcome(p.St(), code) == Outcome(Branch(old(p.St()), ins), 0)
  {
    hide ReadReg, WriteReg, SignExtend30, Lsl;
    var pc := p.ReadRegister(15);
    var offset := Lsl(SignExtend30(ins % 0x100_0000), 2);
    var target := Plus(pc, offset);
    if BitP(ins) {
      p.WriteRegister(14, Minus(pc, 4));
    }
    p.WriteRegister(15, target);
    return 0;
  }

  /** arm_coprocessor_others_swi */
  method ArmCoprocessorOthersSwi(p: ArmCore, ins: word) returns (code: int)
    requires p.Valid()
    modifies p.reg.slots
    ensures Outcome(p.St(), code) == Swi(old(p.St()))
  {
    hide ReadReg, WriteReg;
    var pc := p.ReadRegister(15);
    p.WriteRegister(14, Minus(pc, 4));
    return SOFTWARE_INTERRUPT;
  }

  /** arm_miscellaneous */
  method ArmMiscellaneous(p: ArmCore, ins: word) returns (code: int)
    requires p.Valid()
    modifies p.reg.slots
    ensures Outcome(p.St(), code) == Miscellaneous(old(p.St()), ins)
  {
    hide ReadReg, WriteReg, SpsrOf;
    if ins / 0x80_0000 % 32 == 2 && ins / 0x10_0000 % 4 == 0 {
      var rd := Rd(ins);
      if rd == 15 {
        return -1;
      }
      var value: word;
      if BitB(ins) { value := p.ReadSpsr(); } else { value := p.ReadCpsr(); }
      p.WriteRegister(rd, value);
      return 0;
    }
    return UNDEFINED_INSTRUCTION;
  }
}
