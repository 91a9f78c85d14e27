/** Instruction fields: get_bit(ins, i) is ins / 2^i % 2 and get_bits(ins, h, l) is
    ins / 2^l % 2^(h-l+1); the single-bit macros keep their names from arm_constants.h. */
module Decode {
  import opened Words

  function Cond(ins: word): nat { ins / 0x1000_0000 }              // 31..28
  function InsType(ins: word): (t: nat) ensures t < 8 { ins / 0x200_0000 % 8 }        // 27..25
  predicate Bit26(ins: word) { ins / 0x400_0000 % 2 == 1 }
  predicate BitI(ins: word) { ins / 0x200_0000 % 2 == 1 }          // 25
  predicate BitP(ins: word) { ins / 0x100_0000 % 2 == 1 }          // 24
  predicate BitU(ins: word) { ins / 0x80_0000 % 2 == 1 }           // 23
  predicate BitB(ins: word) { ins / 0x40_0000 % 2 == 1 }           // 22
  predicate BitW(ins: word) { ins / 0x20_0000 % 2 == 1 }           // 21
  predicate BitL(ins: word) { ins / 0x10_0000 % 2 == 1 }           // 20, also the S bit
  function Opcode(ins: word): (x: nat) ensures x < 16 { ins / 0x20_0000 % 16 }         // 24..21
  function Rn(ins: word): (r: nat) ensures r < 16 { ins / 0x1_0000 % 16 }  // 19..16
  function Rd(ins: word): (r: nat) ensures r < 16 { ins / 0x1000 % 16 }    // 15..12
  function Rs(ins: word): (r: nat) ensures r < 16 { ins / 0x100 % 16 }     // 11..8
  function Rm(ins: word): (r: nat) ensures r < 16 { ins % 16 }             // 3..0
  function ShiftImm(ins: word): (k: nat) ensures k < 32 { ins / 0x80 % 32 }            // 11..7
  function ShiftType(ins: word): (t: nat) ensures t < 4 { ins / 0x20 % 4 }            // 6..5
  predicate Bit7(ins: word) { ins / 0x80 % 2 == 1 }
  predicate Bit4(ins: word) { ins / 0x10 % 2 == 1 }
  function RotateImm(ins: word): (k: nat) ensures k < 16 { ins / 0x100 % 16 }          // 11..8
  function Immed8(ins: word): byte { ins % 0x100 }                 // 7..0
  function Offset12(ins: word): (k: nat) ensures k < 0x1000 { ins % 0x1000 }  // 11..0

  /** Bit `i` of the register list of a load or store multiple. */
  predicate Listed(ins: word, i: nat) { GetBit(ins, i) == 1 }
}
