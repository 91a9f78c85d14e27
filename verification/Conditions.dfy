/** arm_condition of arm_instruction.c: the condition field against the flags (ARM DDI 0100, section A3.2). */
module Conditions {
  import opened Words

  // Condition codes, bits 31..28.
  const EQ := 0
  const NE := 1
  const CS := 2
  const CC := 3
  const MI := 4
  const PL := 5
  const VS := 6
  const VC := 7
  const HI := 8
  const LS := 9
  const GE := 10
  const LT := 11
  const GT := 12
  const LE := 13
  const AL := 14

  predicate Passes(cpsr: word, cond: nat)
  {
    var n, z, c, v := GetBit(cpsr, 31) == 1, GetBit(cpsr, 30) == 1, GetBit(cpsr, 29) == 1, GetBit(cpsr, 28) == 1;
    match cond
    case 0 => z
    case 1 => !z
    case 2 => c
    case 3 => !c
    case 4 => n
    case 5 => !n
    case 6 => v
    case 7 => !v
    case 8 => c && !z
    case 9 => !c || z
    case 10 => n == v
    case 11 => n != v
    case 12 => !z && n == v
    case 13 => z || n != v
    case 14 => true
    case _ => false
  }
}
