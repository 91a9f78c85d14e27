# Armator interpreter: a verified model

A model in Dafny 4.11 of the ARMv5T interpreter at the heart of this simulator: the memory, the banked
register file, the barrel shifter and the two data-processing decoders, single and multiple loads and
stores, branches, the exception handler, and the dispatch that makes one step of a program out of them.

The code is modelled as written, including where it departs from its own comments or from the ARM
Architecture Reference Manual (ARM DDI 0100). Where it does, a lemma says for which inputs code and manual
agree, and what the code does on the others.

## How it is organised

- `*Spec.dfy`, `Machine.dfy`, `Decode.dfy`, `Conditions.dfy`: what each C function computes, as functions on
  values. A `State` is the 37 register slots, the bytes of memory and the byte order of the build.
- `Memory.dfy`, `Registers.dfy`, `Core.dfy`, `DataProcessing.dfy`, `LoadStore.dfy`, `Multiple.dfy`, `Branch.dfy`,
  `Exception.dfy`, `Instruction.dfy`: the code itself. `Memory`, `Registers` and `ArmCore` are classes whose arrays are updated in
  place; every method is proved to leave exactly the state its function gives, so that the laws below hold of
  the methods. `Multiple.InstructionStm1` and `InstructionLdm1` carry the source's run-time assertion as an `assert`.
- `*Laws.dfy`: the properties, stated over the functions for all inputs, all states and all runs.
- `Assembly.dfy`: instruction words put together from their fields; `Meaning.dfy`: what each form does, as arithmetic
  on those fields, independent of the interpreter's decoder, shifters and flag code. `MeaningLaws.EveryInstruction`
  proves the interpreter against it, `AssemblyLaws.EveryWord` that no word is left out, `BlockLaws` the block
  transfers register by register, and `ExecutionLaws` carries both to whole steps.
- `Witnesses.dfy`: encoded instructions at which the code departs from the manual, and two that leave
  Supervisor mode.
- `Words.dfy`: 32-bit words as bounded integers, wrap-around written out, bit operations by recursion.

Modelling decisions:

- The accessors between the interpreter and its registers and memory follow `arm_core.c`: `arm_create` (lines 50-66)
  resets the processor, `arm_read_register` (84-101) adds four to the program counter and clears bit 1, `arm_fetch`
  (167-182) steps the program counter over the fetched word. The exception handler follows `arm_exception.c` (32-63):
  only a reset changes the state, and a software interrupt reads its own instruction again. The bit macros are those
  of `util.h` (30-34).
- Uninitialised C locals are inputs. `Uninit.value` is what a variable held before a failed read leaves it alone,
  and `Uninit.buffer` what the local buffer of a multi-byte read held, keyed by the address of the missing byte;
  a read that crosses the end of memory therefore has a definite result, and the laws hold for every such content.
  The address that `calculate_address_mode3` leaves unassigned is such an input too.
  `DeterminismLaws` shows which steps and runs do not depend on them.
- A run is a sequence of events: steps, and exceptions of any number raised between two steps, as the irq listener of
  `arm_simulator.c` (lines 99-103) does under the lock that each step holds too.
- The size of a memory is a C `int`, so it is at most 2^31 - 1.
- `is_big_endian()` is a constant of a `Memory` object; the results are proved not to depend on it. The byte order
  of accesses is a constant of `ArmCore`; everything is proved for both.
- The rotated immediate with no rotation shifts by 32 in C, which is undefined; the value of section A5.1.3 is taken.
  Left shifts into the sign bit take the two's-complement result.
- `ArmDataProcessingShift` has a precondition: bits 7 and 4 not both set. Outside it the C code would follow a NULL
  pointer; `DispatchLaws.ShifterIsTotal` and the verified dispatch show that it never does.
- In each switch of the two decoders the statements that all cases repeat (write Rd, read it back, set the flags or
  restore the CPSR) are written once, in `FinishLogical`, `FinishArithmetic` and the methods they call. The three
  addressing forms of mode 2 and of mode 3 share their indexing statements, in `Index`, in the same way.

## Where code and manual differ

| where | result |
|---|---|
| `carryFrom` compares a wrapped sum | never reports a carry: `AluLaws.CarryNeverReported`; ADDS/ADC pairs are short by 2^32 exactly when the low words carry: `AluLaws.TwoWordAddition` |
| `OverflowFrom` used for subtraction, CMP with the stale Rd | exact condition: `AluLaws.SignedConditionsAfterSubtraction`, `AluLaws.SignedConditionsAfterCmn` |
| SBC flags use `~FLAG_c` | exact range of wrong carries: `AluLaws.CarryAfterSubtractWithCarry`; exact condition for V: `AluLaws.OverflowAfterSubtractWithCarry` |
| ASR is logical; #32 gives 0xFF | exact conditions and errors: `ShifterLaws.AsrByImmediate`, `ShifterLaws.AsrByRegister` |
| LSL by a register amount of 32 | the only wrong amount, for every nonzero operand: `ShifterLaws.LslIsMultiplication` |
| logical ASR and RRX without carry in the address shifter | `ShifterLaws.AddressShifter`, `ShifterLaws.ImmediateShiftersAgree` |
| mode 3 accesses run the mode 2 calculator first | `LoadStoreLaws.OffsetForm`, `LoadStoreLaws.WritebackAccess`, `LoadStoreLaws.WritebackMovesTwice` |
| bits 7..4 are tested for loads only, after P = 1, U = 0, L = 0 has gone to the miscellaneous decoder | what each multiply, swap, halfword and doubleword encoding does: `ExtensionLaws.ExtensionSpace`, `ExtensionLaws.NoMultiplyNoSwap` |
| bits 27..25 = 111 run as software interrupts | coprocessor operations can end the program: `StepLaws.CoprocessorOperation` |
| only bit 1 of the PC is cleared on a read | exact condition for calls and software interrupts: `DispatchLaws.CallAndReturn`, `StepLaws.SoftwareInterrupt` |
| base in the list of a writeback STM/LDM pair | restored exactly when not listed: `MultipleLaws.StoreThenLoad` |
| LDM of the PC takes the T case from the SPSR | `MultipleLaws.LoadedPc` |
| `sign_extend_30` sets bit 22 | exact condition and error: `DispatchLaws.BranchTarget` |
| STRH with P = 1, U = 0 goes to the miscellaneous decoder | executed as MRS: `DispatchLaws.StoreHalfDownExecutesMrs` |
| no instruction writes an SPSR | from reset the mode is Supervisor, or number 0 if an S form with Rd the PC or an LDM of an odd PC was executed since the last reset: `RunLaws.ReachableFromReset` |

## Model

| member | source | states |
|---|---|---|
| MemoryArea.Memory.ReadByte | memory.c:64-72 | the byte at the address with status 0, or status -1 and the variable unchanged |
| MemoryArea.Memory.ReadHalf | memory.c:74-95 | the half at the address in the requested byte order, on either host; -1 and the variable unchanged out of range |
| MemoryArea.Memory.ReadWord | memory.c:97-118 | the same for words |
| MemoryArea.Memory.WriteByte | memory.c:120-128 | memory with that byte replaced, or untouched and status -1 |
| MemoryArea.Memory.WriteHalf | memory.c:130-151 | memory with the two bytes of the value in the requested order, on either host; bytes past the end dropped |
| MemoryArea.Memory.WriteWord | memory.c:153-174 | the same for words |
| MemoryLaws.WriteThenRead | memory.c:74-174 | a word or half written in range reads back as itself in the same byte order and byte-reversed in the other |
| MemoryLaws.WordIsTwoHalves | memory.c:130-174 | a word store is two half stores, high half first exactly in big-endian order, also when it crosses the end of memory |
| MemoryLaws.StoresCommute | memory.c:120-174 | stores to ranges that do not meet can be exchanged |
| MemoryLaws.ReadAfterHistory | memory.c:64-174 | after any history of writes of any widths and orders, in range or not, an in-range read of any width assembles the last byte written at each address |
| RegisterFile.Registers.constructor | registers.c:31-35 | 37 zero slots |
| RegisterFile.Registers.GetMode | registers.c:41-44 | the low five bits of the CPSR |
| RegisterFile.Registers.CurrentModeHasSpsr | registers.c:46-56 | true in every mode but User and System |
| RegisterFile.Registers.InAPrivilegedMode | registers.c:58-64 | true in every mode but User |
| RegisterFile.Registers.Read | registers.c:66-106 | the content of the slot the register has in the mode |
| RegisterFile.Registers.Write | registers.c:143-181 | that slot replaced and no other |
| RegisterFile.Registers.ReadSpsr | registers.c:113-141 | the SPSR of the mode, 0 where there is none |
| RegisterFile.Registers.WriteSpsr | registers.c:187-212 | the SPSR of the mode replaced, nothing where there is none |
| RegistersLaws.SlotsAreTheNames | registers.c:66-212 | the slots are in bijection with the 37 architectural register names of section A2.4, and the slot code follows it for every mode number: the 25 undefined ones use the User registers and have no SPSR slot, although the code says they have an SPSR |
| RegistersLaws.SlotInjective | registers.c:66-106 | within any mode, defined or not, distinct registers have distinct slots |
| RegistersLaws.FileAfterHistory | registers.c:66-212 | after any history of writes, each in any mode number, defined or not, each architectural register holds the last value written to it |
| Core.ArmCore.constructor | README:37-38 | the reset state (arm_core.c lines 50-66): Supervisor mode, PC 0, stack pointer at the end of memory |
| Core.ArmCore.ReadRegister | README:37-38 | the register of the current mode; the PC reads four ahead with bit 1 clear (arm_core.c lines 84-101) |
| Core.ArmCore.WriteRegister | README:37-38 | the register of the current mode replaced, nothing else (arm_core.c lines 120-127) |
| Core.ArmCore.FetchInstruction | arm_instruction.c:74-91 | the word at the PC, and the PC stepped over it (arm_core.c lines 167-182) |
| ShifterLaws.RotationsAdd | arm_load_store.c:78-87 | rotations compose by adding their amounts modulo 32 |
| ShifterLaws.AllRotationsAgree | arm_data_processing.c:836-854 | immediate operands, ROR by immediate, ROR by register (all 255 nonzero amounts) and the load/store ROR are one rotation; carry-out is bit 31 of the result |
| ShifterLaws.IdentityShifts | arm_data_processing.c:790-795 | no shift hands the value and the carry flag through, in every form |
| ShifterLaws.LsrIsDivision | arm_data_processing.c:804-815 | 2 * operand + carry-out is the operand shifted one place less, for all immediate and register amounts |
| ShifterLaws.LslIsMultiplication | arm_data_processing.c:867-886 | operand and carry-out are the low 33 bits of Rm * 2^s, except exactly for a register amount of 32 with Rm nonzero |
| ShifterLaws.AsrByImmediate | arm_data_processing.c:817-834 | ASR by immediate is right exactly when Rm is non-negative; the exact error otherwise; the carry-out is always right |
| ShifterLaws.AsrByRegister | arm_data_processing.c:908-930 | ASR by register is right exactly when Rm is non-negative or the amount is 0 or at least 32; the carry-out is always right |
| ShifterLaws.RrxRotates33Bits | arm_data_processing.c:837-841 | RRX rotates the 33 bits of carry flag and operand |
| ShifterLaws.ImmediateShiftersAgree | arm_load_store.c:46-90 | the two immediate shifters agree except exactly on ASR #32 of a negative operand and RRX with the carry set |
| ShifterLaws.AddressShifter | arm_load_store.c:46-90 | the scaled index is the shift or rotation of section A5.2.4 as arithmetic except exactly on ASR of a negative register by 1 to 31 and on RRX with the carry set |
| MeaningLaws.ConstantShifts | arm_data_processing.c:790-858 | the operand and carry-out of all four shifts by a constant as arithmetic: low 32 bits of a product and the bit above, quotient and last bit out, rotation and its top bit, 33-bit rotation |
| MeaningLaws.RegisterShifts | arm_data_processing.c:860-960 | the same for all four shifts by any register amount |
| MeaningLaws.ConstantRotations | arm_data_processing.c:403-420 | an immediate operand is its byte rotated by twice the amount, the carry-out its top bit |
| DataProcessing.ShifterValuesCalculator | arm_data_processing.c:760-964 | operand and carry-out of the register forms, NULL exactly when bits 7 and 4 are both set |
| DataProcessing.ArmDataProcessingShift | arm_data_processing.c:35-393 | the 16-case switch on register operands leaves the state and code of one function of opcode, S, Rd, Rn, operand and carry-out |
| DataProcessing.ArmDataProcessingImmediate | arm_data_processing.c:395-758 | the second 16-case switch refines the same function |
| DataProcessing.RestoreCpsr | arm_data_processing.c:110-113 | CPSR becomes SPSR where the mode has one, else UNDEFINED_INSTRUCTION and no change |
| AluLaws.CarryNeverReported | arm_data_processing.c:970-972 | the carry test is false for all operands |
| AluLaws.FlagsMeaning | arm_data_processing.c:74-81 | the flag sequences set exactly N, Z, C (and V), keep all 28 bits below, and the logical one keeps V |
| AluLaws.LogicalBits | arm_data_processing.c:66-106 | each bit of a logical result is the manual's operation on that bit of Rn and of the operand |
| AluLaws.LogicalResult | arm_data_processing.c:66-106 | a word is the result of a logical operation if and only if its 32 bits are those |
| AluLaws.CompareLikeTwin | arm_data_processing.c:237-300 | TST, TEQ, CMP, CMN, whatever their Rd field, leave the flags of AND, EOR, SUB, ADD on a destination other than the PC and nothing else; exactly when V differs |
| AluLaws.SignedConditionsAfterAddition | arm_data_processing.c:150-192 | after ADDS and ADCS, GE, LT, GT, LE decide the sign of the unbounded signed sum with the incoming carry; VS its overflow; Rd is the sum modulo 2^32 |
| AluLaws.UnsignedConditionsAfterCompare | arm_data_processing.c:268-283 | after CMP, EQ, NE, CS, CC, HI, LS decide the unsigned comparison of Rn with the operand, MI and PL the sign of the wrapped difference |
| AluLaws.ConditionsAfterLogical | arm_data_processing.c:64-106 | after a logical operation with S, TST or TEQ: MI, PL, EQ, NE read the result, CS and CC the shifter carry-out, VS and VC the old V |
| AluLaws.SignedConditionsAfterSubtraction | arm_data_processing.c:979-981 | after SUBS, RSBS and CMP, GE and LT decide the signed comparison if and only if a condition on the operands (for CMP also the old Rd) holds; GT and LE if and only if it holds or the operands are equal |
| AluLaws.SignedConditionsAfterCmn | arm_data_processing.c:979-981 | after CMN with any Rd field, GE and LT decide the sign of the unbounded sum if and only if the operands differ in sign or the old Rd has the sign of the wrapped sum; GT and LE then or when the wrapped sum is 0 |
| AluLaws.CarryAfterSubtractWithCarry | arm_data_processing.c:194-210 | after SBCS and RSCS the carry is right if and only if the first operand is outside an exact range |
| AluLaws.OverflowAfterSubtractWithCarry | arm_data_processing.c:979-981 | after SBCS and RSCS, VS tells signed overflow if and only if the difference keeps the sign of the first operand or subtracting ~FLAG_c's 1 + C changes the sign of the second |
| AluLaws.TwoWordSubtraction | arm_data_processing.c:108-148 | SUBS then SBC, and RSBS then RSC, subtract 64-bit numbers exactly, for all operand forms |
| AluLaws.RegisterPairSubtraction | arm_data_processing.c:194-213 | on plain registers with a non-clobbering low destination, SUBS/SBC and RSBS/RSC subtract what the registers held at the start |
| AluLaws.TwoWordAddition | arm_data_processing.c:150-192 | ADDS then ADC is right modulo 2^64 if and only if the low words do not carry, and short by 2^32 otherwise |
| AluLaws.RegisterPairAddition | arm_data_processing.c:150-192 | on plain registers with a non-clobbering low destination, ADDS/ADC is short by 2^32 of the sum of what the registers held at the start exactly when the low ones carry |
| AluLaws.CpsrFrame | arm_data_processing.c:64-393 | unless it restores the CPSR an operation changes at most the four flags, a logical one keeps V; memory and SPSRs never change |
| MeaningLaws.Operations | arm_data_processing.c:64-393 | each of the sixteen operations as arithmetic: the result of each opcode (logical ones bit by bit), the whole CPSR after S, Rd alone written without S, the cases of the PC as Rd, the comparisons |
| LoadStore.ShiftIndexCalculator | arm_load_store.c:46-90 | the scaled register index |
| LoadStore.ArmCalculateAddress | arm_load_store.c:174-318 | mode 2 address and base writeback, 0xFFFFFFFF for unhandled forms |
| LoadStore.ArmCalculateAddressMode3 | arm_load_store.c:97-170 | mode 3 address and base writeback; with P = 0 and W = 1 the unassigned local and no writeback |
| LoadStore.ArmLoadStore | arm_load_store.c:320-418 | LDR, STR, LDRB, STRB, STRH, LDRH, LDRSB, LDRSH with their writebacks and return codes |
| LoadStoreLaws.SignExtensions | arm_load_store.c:30-44 | the extended word has the signed value of the byte or half |
| LoadStoreLaws.OffsetForm | arm_load_store.c:320-418 | mode 3 with P = 1, W = 0 writes nothing back and is refused only when the mode 2 address is 0xFFFFFFFF |
| LoadStoreLaws.StoreHalfThenLoad | arm_load_store.c:368-409 | STRH then LDRH, LDRSH or LDRSB of the address gives the low half zero- or sign-extended, or its first byte sign-extended, whatever happened to registers in between; stated on the access, which dispatch does not reach for a store with a subtracted offset |
| LoadStoreLaws.WritebackMovesTwice | arm_load_store.c:97-170 | mode 3 with writeback leaves the architectural base exactly when the base register is subtracted from itself, and accesses the architectural address exactly when besides P = 1 |
| LoadStoreLaws.WritebackAccess | arm_load_store.c:97-170 | mode 3 with writeback is the plain access at the twice-moved base (P = 1) or the once-moved one (P = 0), with the base register holding the twice-moved base |
| LoadStoreLaws.WritebackEffect | arm_load_store.c:368-409 | the half STRH puts into memory and the one LDRH finds are at that address |
| LoadStoreLaws.StoredWordByBytes | Examples/example2.s:11-15 | a word stored by a dispatched STR is read by dispatched LDRBs byte by byte, most significant first exactly in the big-endian build, for all addressing forms and whatever happened to registers in between |
| LoadStoreLaws.PushThenPop | arm_load_store.c:329-352 | dispatched: pre-indexed store then opposite post-indexed load restores the base and finds the word or byte, for all offset forms |
| MeaningLaws.Transfers | arm_load_store.c:174-352 | LDR, STR, LDRB, STRB in every form: address and final base as arithmetic on Rn and the index, what Rd or memory gets, and the refusals |
| MeaningLaws.ScaledIndexOf | arm_load_store.c:226-281 | the index of the register forms is Rm shifted by the type and amount of the word, as arithmetic |
| MeaningLaws.Extras | arm_load_store.c:320-418 | the multiply and extra load/store space in every form: both moves of the base, the address, and what Rd or memory gets |
| Multiple.NumberOfSetBitsIn | arm_load_store.c:423-430 | the number of listed registers |
| Multiple.AddrLsMultiple | arm_load_store.c:432-458 | first and last address and base writeback in the four modes |
| Multiple.NextHome | arm_load_store.c:467-473 | the running address is start + 4 * (listed registers visited) |
| Multiple.BlockEnd | arm_load_store.c:486-503 | the run-time assertion holds in all four modes for every list and every base modulo 2^32 |
| Multiple.InstructionStm1 | arm_load_store.c:491-505 | the store loop leaves the state of the register-by-register definition, and its assertion never fails |
| Multiple.InstructionLdm1 | arm_load_store.c:461-488 | the same for the load loop, with PC, T bit and SPSR |
| Multiple.ArmLoadStoreMultiple | arm_load_store.c:507-519 | the L and B bits choose LDM, STM or UNDEFINED_INSTRUCTION |
| MultipleLaws.StmLayout | arm_load_store.c:491-505 | each listed register is found at start + 4k for the k-th lowest; no byte outside the block changes; no register but the base moves |
| BlockLaws.BlockStore | arm_load_store.c:432-519 | a dispatched STM in each of IA, IB, DA, DB, with and without writeback: register i is found at base plus or minus four times the number of listed registers before or from it, no other byte and no register but a written-back base changes; refused with bit 22 |
| BlockLaws.BlockLoad | arm_load_store.c:432-519 | a dispatched LDM likewise: each listed register has the word at its place, every other what it had, PC and CPSR by bit 0 of the loaded PC |
| MultipleLaws.Loaded | arm_load_store.c:467-473 | after the load loop each listed register holds the word of its home and the others are unchanged |
| MultipleLaws.LoadedPc | arm_load_store.c:474-485 | the PC loses bit 0; the CPSR is the architectural one exactly when bit 0 is clear or SPSR and CPSR agree outside bit 5 |
| MultipleLaws.StoreThenLoad | arm_load_store.c:432-505 | writeback STM then complementary writeback LDM restores every listed register whatever happened in between, and the base exactly when it is not listed |
| MultipleLaws.StoreThenLoadAtOnce | arm_load_store.c:432-505 | with nothing in between and the base not listed, the pair leaves all sixteen registers and the CPSR as they were |
| TransferLaws.StoreMultipleIsPushes | arm_load_store.c:491-505 | dispatching STMDB Rn!, list leaves the state of dispatching STR Rk, [Rn, #-4]! from highest to lowest register, for every base and every list without Rn |
| TransferLaws.LoadMultipleIsPops | arm_load_store.c:461-488 | dispatching LDMIA Rn!, list leaves the state of dispatching LDR Rk, [Rn], #4 from lowest to highest register, for blocks in memory and lists without Rn and PC |
| Branching.ArmBranch | arm_branch_other.c:42-58 | target and link register of B and BL |
| Branching.ArmCoprocessorOthersSwi | arm_branch_other.c:60-64 | link register set, SOFTWARE_INTERRUPT returned |
| Branching.ArmMiscellaneous | arm_branch_other.c:66-86 | MRS, refused with Rd the PC; all else UNDEFINED_INSTRUCTION |
| ExceptionHandler.ArmException | arm_instruction.c:123-131 | end of simulation, console call with the byte printed, reset, or the code handed back (arm_exception.c lines 32-63) |
| DispatchLaws.ExtendedField | arm_branch_other.c:29-40 | a negative field has bits 31..22 set, bit 22 included |
| DispatchLaws.BranchTarget | arm_branch_other.c:42-58 | the target is PC + 4 * field except exactly when bit 23 is set and bit 22 clear, and then 2^24 too high |
| MeaningLaws.Jumps | arm_branch_other.c:42-58 | B and BL: the whole state, the target as the address of the next instruction plus four times the signed field, with the error |
| MeaningLaws.Statuses | arm_branch_other.c:66-86 | MRS of CPSR or SPSR, and the refusals, for every word of the form |
| DispatchLaws.CallAndReturn | Examples/example1.s:3-11 | BL leaves the address of the next instruction with bit 1 cleared in LR, and MOV PC, LR goes there from any state: to the next instruction exactly when bit 1 of its address is clear |
| Instruction.ArmCondition | arm_instruction.c:31-72 | the condition field against the flags |
| DispatchLaws.ConditionPairs | arm_instruction.c:38-71 | conditions come in exclusive and exhaustive pairs; AL always passes, 15 never |
| DispatchLaws.ShifterIsTotal | arm_instruction.c:93-101 | everything that reaches the register-form decoder has a shifter result, and its comparisons have S set |
| DispatchLaws.PlainOffsetRegister | arm_load_store.c:229-230 | the register read by bits 4..0 is the one named by bits 3..0 |
| DispatchLaws.StoreHalfDownExecutesMrs | arm_instruction.c:95-98 | halfword and signed accesses reach the load/store code except STRH with P = 1, U = 0, which executes as MRS, or is refused: undefined with W = 1, code -1 with Rd the PC |
| ExtensionLaws.ExtensionSpace | arm_instruction.c:94-101 | the state and code of every dispatched word with bits 27..25 clear and bits 7 and 4 set: MRS and its refusals, P = 0 with W = 1 refused, first address 0xFFFFFFFF refused after the base moved, Rd the PC refused, L = 0 a half store whatever bits 6 and 5, L = 1 a load, or a refusal with bits 6 and 5 clear |
| ExtensionLaws.NoMultiplyNoSwap | arm_instruction.c:94-101 | MLA, UMLAL and SMLAL are refused untouched; MUL, UMULL and SMULL move their bits 19..16 register twice and store a half, or with S set are refused; SWP and SWPB execute as MRS |
| Instruction.ArmExecuteInstruction | arm_instruction.c:74-121 | fetch, condition and dispatch |
| AssemblyLaws.EveryWord | arm_instruction.c:74-119 | every 32-bit word is the assembly of its condition and a well-formed form: assembling the disassembled word gives the word back |
| AssemblyLaws.OneForm | arm_instruction.c:74-119 | and of no other: disassembling an assembled word gives the condition and the form back |
| MeaningLaws.EveryInstruction | arm_instruction.c:92-119 | dispatching an assembled word of any form but a block transfer has the effect defined on the fields it was assembled from, in state and code, through decoder, shifter, operation, addressing and access |
| ExecutionLaws.ConditionTable | arm_instruction.c:31-72 | the sixteen conditions on a CPSR assembled from its flags: a test chosen by the upper three bits, inverted by the lowest |
| ExecutionLaws.StepSkips | arm_instruction.c:74-121 | a failed condition gives code 0 and a failed fetch 255, each changing only the PC and printing nothing |
| Instruction.ArmStep | arm_instruction.c:123-131 | one step with the exception handler: state, code and what is printed |
| ExecutionLaws.StepDispatches | arm_instruction.c:123-131 | a step whose condition passes leaves what its instruction leaves and hands its code on |
| ExecutionLaws.StepEffect | arm_instruction.c:74-131 | a step over a word assembled from a condition that passes and a form has the effect of the form |
| StepLaws.DispatchTouchesOnlyNamed | arm_instruction.c:92-119 | no instruction changes a register it does not name, in its own mode or another's, and only stores change memory |
| StepLaws.StepAdvances | arm_instruction.c:74-131 | a step leaves the PC at the next word unless the executed instruction names R15 |
| StepLaws.NoResetCode | arm_instruction.c:92-119 | no instruction returns the reset code |
| StepLaws.SwiEndsProgram | arm_constants.h:57-62 | wherever bit 1 of its address is clear, a word with bits 27..25 set is handled by its own low 24 bits: 0x123456 ends the program, 1 succeeds, any other is reported |
| StepLaws.CoprocessorOperation | arm_instruction.c:114-115 | CDP, MCR and MRC leave the registers, memory, code and print of the software interrupt with the same condition and low 24 bits: bit 24 is never read |
| StepLaws.CoprocessorTransfer | arm_instruction.c:112-113 | LDC and STC are reported undefined and change only the PC |
| StepLaws.SoftwareInterrupt | arm_instruction.c:123-131 | a step over a software interrupt at any address: its code, the byte it prints and its link register; the number handled is its own and the link the next address exactly when bit 1 of its address is clear |
| RunLaws.DispatchControlled | arm_instruction.c:92-119 | an instruction changes CPSR[27:0] only if it is an S form with Rd the PC in a mode with an SPSR, or LDM with the PC listed; the values it can then take |
| RunLaws.ControlValue | arm_instruction.c:92-119 | the value each of those instructions leaves in the CPSR, by the loaded PC's low bit for LDM |
| RunLaws.StepControlled | arm_instruction.c:123-131 | the same for a whole step, fetch and handler included |
| RunLaws.RunKeepsControl | arm_instruction.c:123-131 | over any run of steps and exceptions raised between them (arm_simulator.c lines 99-103), CPSR[27:0] is unchanged if no step executes one of the two kinds of instruction and no reset arrives; SPSRs and memory size never change |
| RunLaws.AfterReset | README:37-38 | after creation: Supervisor mode, PC 0, R13 the size of memory, no other register written (arm_core.c lines 50-66) |
| RunLaws.ReachableFromReset | arm_instruction.c:74-131 | in every state reached from reset by steps and outside exceptions, the mode is 0 if a control-changing S form or an LDM of an odd PC was executed after the last reset and Supervisor otherwise, CPSR[27:0] is one of three values, and all SPSRs and the Abort, Undefined, IRQ and FIQ banks are zero |
| RunLaws.StepMode | arm_instruction.c:123-131 | since reset, a step ends in mode 0 exactly when it began there or executes one of those instructions; else in Supervisor mode |
| RunLaws.RunMode | arm_instruction.c:123-131 | a run of steps and outside exceptions from Supervisor mode ends in mode 0 exactly when a step executed one of them and no reset followed |
| RunLaws.EventMode | arm_instruction.c:123-131 | one event: mode 0 is left by a reset from outside and by nothing else |
| DeterminismLaws.StepDetermined | arm_instruction.c:74-131 | if the instruction word, and what the instruction reads, lies in memory, or the fetch fails, a step has one outcome and one output whatever the unassigned locals hold; the handler's second look needs no condition |
| DeterminismLaws.RunDetermined | arm_instruction.c:74-131 | two runs of the same events, each step within memory, end in the same state whatever the unassigned locals hold |
| DeterminismLaws.LoadedPastTheEnd | arm_load_store.c:461-488 | a listed register whose home begins past the end of memory gets the word loaded before it again, the first of all the unassigned local |
| Witnesses.ResetToModeZero | arm_data_processing.c:323-342 | MOVS PC, R0 executed at reset puts the processor in mode number 0 |
| Witnesses.ResetToThumbBit | arm_load_store.c:474-485 | LDMIB R0, {PC} of an odd word at reset leaves 0x20 in the CPSR |
| Witnesses.ShiftLeftBy32 | arm_data_processing.c:867-886 | MOV R0, R1, LSL R2 with 32 in R2 copies R1 |
| Witnesses.HalveSmallest | arm_data_processing.c:817-834 | MOV R0, R1, ASR #1 of -2^31 gives 2^30 |
| Witnesses.AddWithoutCarry | arm_data_processing.c:150-170 | ADDS R0, R0, R1 of 2^32 - 1 and 1 gives 0 with the carry clear |
| Witnesses.OneNotLessThanTwo | arm_data_processing.c:979-981 | SUBS R2, R0, R1 of 1 and 2 leaves GE true and LT false |
| Witnesses.CarryAndOverflowWrong | arm_data_processing.c:194-210 | SBCS R2, R0, R1 of 1 and 2 with the carry set leaves C and V set |
| Witnesses.MultiplyStoresHalf | arm_load_store.c:320-418 | MUL R0, R1, R2 moves R0 down twice and stores half of it |
| Witnesses.MultiplyMovesTwice | arm_load_store.c:320-418 | MULS R0, R1, R2 is undefined after it has moved R0 twice |
| Witnesses.SwapCopiesCpsr | arm_instruction.c:94-96 | SWP R1, R2, [R3] copies the CPSR into R1 |
| Witnesses.StoreHalfOverwritesRegister | arm_instruction.c:95-98 | STRH R1, [R2, #-2] copies the SPSR into R1 |
| Witnesses.StatusReads | arm_branch_other.c:66-80 | 0xE10F0000 copies the CPSR and 0xE14F0000 the SPSR into R0 |
| Witnesses.BranchFallsShort | arm_branch_other.c:29-58 | the furthest backward branch lands 2^24 bytes too high |
| Witnesses.BaseInListLost | arm_load_store.c:432-505 | STMDB R0!, {R0, R1} then LDMIA R0!, {R0, R1} from R0 = 8 restores R1 and not R0 |
| Witnesses.InterruptMisread | arm_instruction.c:123-131 | SWI 0x123456 at address 2 does not end the program (arm_exception.c lines 41-48) |
| Witnesses.CoprocessorEndsProgram | arm_instruction.c:114-115 | the MRC word 0xEE123456 ends the program |

## Left out

- The gdb server, the scanner, the irq sender and the traces. A debugger can write registers between steps; the runs of `RunLaws` are made of steps and of the exceptions the irq listener raises, without a debugger.
- Allocation failure and NULL handles: allocation is taken to succeed.
- The cycle counter.
- arm_read_usr_register, arm_write_usr_register and arm_write_spsr: no instruction calls them.
- Coprocessors and MSR: the code has neither. LDC and STC are reported undefined, CDP, MCR and MRC run as software interrupts, and an MSR immediate as the comparison with the same opcode bits, which the model does too.
- set_bits, asr, ror and the reverse macros of util.h, and the unused macros of arm_instruction.h.
- DataProcessing.ArmDataProcessingShift: is not modelled for bits 7 and 4 both set, where the C code would dereference NULL; the dispatch never calls it so.
- MultipleLaws.StoreThenLoad: says nothing about lists with R15 or with R15 as base, which the architecture leaves unpredictable or which change the PC.
