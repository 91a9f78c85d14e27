/** One step of a program, from the word at the program counter to its effect. */
module ExecutionLaws {
  import opened Words
  import opened Machine
  import opened Decode
  import opened Conditions
  import opened InstructionSpec
  import opened MultipleLaws
  import opened RunLaws
  import opened StepLaws
  import opened DeterminismLaws
  import opened Assembly
  import opened AssemblyLaws
  import opened Meaning
  import opened MeaningLaws
  import AluLaws

  /** The condition field (section A3.2): its upper three bits choose a test of the flags N, Z, C and V, its
      lowest bit inverts it; 14 is always and 15 never. */
  lemma ConditionTable(n: bool, z: bool, c: bool, v: bool, low: nat, cond: nibble)
    requires low < 0x1000_0000
    ensures var test := [z, c, n, v, c && !z, n == v, n == v && !z, true][cond / 2];
      Passes(WithFlags(n, z, c, v, low), cond) <==> cond < 15 && test != (cond % 2 == 1)
  {
    hide GetBit;
    AluLaws.Assembled(Digit(n), Digit(z), Digit(c), Digit(v), low, WithFlags(n, z, c, v, low));
  }

  /** A step whose condition passes does what the instruction does to the state with the PC stepped, and hands
      its code on, -1 as an unsigned char; software interrupts are for the handler (`SoftwareInterrupt`). */
  lemma StepDispatches(s: State, u: StepUninit)
    requires CanFetch(s) && Passes(CpsrOf(s), Cond(NextInstruction(s))) && InsType(NextInstruction(s)) != 7
    ensures var r := Dispatch(Advanced(s), NextInstruction(s), u.execute);
      Step(s, u) == Outcome(r.state, if r.code == -1 then 0xFF else r.code) && StepPrints(s, u) == []
  {
    hide Dispatch, Passes, Cond, Fetch, NextInstruction, InsType, Advanced, ReadReg, LoadWord, WriteReg;
    FetchResult(s, u.fetch);
    OnlyInterruptsInterrupt(Advanced(s), NextInstruction(s), u.execute);
    SameFlags(s);
  }

  lemma SameFlags(s: State)
    ensures CpsrOf(Advanced(s)) == CpsrOf(s)
  {
    hide Plus;
  }

  /** A step over the word assembled from a condition and a form has the form's effect if the condition
      passes on the flags. */
  lemma StepEffect(s: State, cond: nibble, f: Form, u: StepUninit)
    requires WellFormed(f) && !f.Block? && !f.Interrupt? && CanFetch(s) && WordAt(s, s.regs[15]) == Encode(cond, f)
    requires Passes(CpsrOf(s), cond)
    ensures var r := Effect(Advanced(s), f, u.execute);
      Step(s, u) == Outcome(r.state, if r.code == -1 then 0xFF else r.code) && StepPrints(s, u) == []
  {
    hide Dispatch, Passes, Step, StepPrints, Effect, Encode, Cond, InsType, WordAt, Advanced;
    CondOf(cond, f);
    EveryInstruction(Advanced(s), cond, f, u.execute);
    StepDispatches(s, u);
  }

  lemma CondOf(cond: nibble, f: Form)
    ensures Cond(Encode(cond, f)) == cond && (InsType(Encode(cond, f)) == 7 <==> f.Interrupt?)
  {
    UpperFields(Encode(cond, f), cond, Upper(f), Lower(f));
  }

  /** A step whose condition fails, and a step whose fetch fails, change nothing but the PC and print nothing;
      the first succeeds, the second hands on the handler's answer to -1. */
  lemma StepSkips(s: State, u: StepUninit)
    ensures CanFetch(s) && !Passes(CpsrOf(s), Cond(NextInstruction(s))) ==> Step(s, u) == Outcome(Advanced(s), 0)
    ensures s.regs[15] >= |s.mem| ==> Step(s, u) == Outcome(Advanced(s), 0xFF)
    ensures (CanFetch(s) && !Passes(CpsrOf(s), Cond(NextInstruction(s)))) || s.regs[15] >= |s.mem| ==>
      StepPrints(s, u) == []
  {
    hide Dispatch, Passes, Cond, Fetch, NextInstruction, Advanced, ReadReg, LoadWord, WriteReg;
    FetchResult(s, u.fetch);
    FetchFramed(s, u.fetch);
    SameFlags(s);
  }
}
