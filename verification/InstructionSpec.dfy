/** arm_instruction.c as functions on states: dispatch, one step, and runs of events. */
module InstructionSpec {
  import opened Words
  import opened Machine
  import opened Decode
  import opened Conditions
  import opened DataProcessingSpec
  import opened LoadStoreSpec
  import opened MultipleSpec
  import opened BranchSpec
  import opened ExceptionSpec

  /** The first test of the data-processing class: P = 1, U = 0, bit 20 = 0. */
  predicate ToMiscellaneous(ins: word) { BitP(ins) && !BitU(ins) && !BitL(ins) }

  /** The switch on bits 27..25. */
  function Dispatch(s: State, ins: word, u: Uninit): Outcome
  {
    match InsType(ins)
    case 0 =>
      if ToMiscellaneous(ins) then Miscellaneous(s, ins)
      else if Bit7(ins) && Bit4(ins) then LoadStore(s, ins, u)
      else DataProcessingShift(s, ins)
    case 1 => DataProcessingImmediate(s, ins)
    case 2 => LoadStore(s, ins, u)
    case 3 => LoadStore(s, ins, u)
    case 4 => LoadStoreMultiple(s, ins, u)
    case 5 => Outcome(Branch(s, ins), 0)
    case 6 => Outcome(s, UNDEFINED_INSTRUCTION)
    case _ => Swi(s)
  }

  /** Unassigned locals of the fetch, of the instruction and of the exception handler. */
  datatype StepUninit = StepUninit(fetch: Uninit, execute: Uninit, handler: Uninit)

  /** arm_execute_instruction */
  function Execute(s: State, u: StepUninit): Outcome
  {
    var f := Fetch(s, u.fetch);
    if f.status != 0 then Outcome(f.state, -1)
    else if Passes(CpsrOf(f.state), Cond(f.ins)) then Dispatch(f.state, f.ins, u.execute)
    else Outcome(f.state, 0)
  }

  /** arm_step; the code is cut to an unsigned char on its way to the handler. */
  function Step(s: State, u: StepUninit): Outcome
  {
    var r := Execute(s, u);
    if r.code != 0 then Exception(r.state, r.code % 0x100, u.handler) else r
  }

  /** What a step prints. */
  function StepPrints(s: State, u: StepUninit): seq<byte>
  {
    var r := Execute(s, u);
    if r.code != 0 then Printed(r.state, r.code % 0x100, u.handler) else []
  }

  /** What happens to the processor: a step, or an exception that arm_simulator.c raises between steps. */
  datatype Event = Tick(u: StepUninit) | Raised(exception: byte, handler: Uninit)

  function After(s: State, e: Event): State
  {
    match e
    case Tick(u) => Step(s, u).state
    case Raised(exception, u) => Exception(s, exception, u).state
  }

  /** The state after the events in turn. */
  function Run(s: State, es: seq<Event>): State
    decreases |es|
  {
    if es == [] then s else After(Run(s, es[..|es| - 1]), es[|es| - 1])
  }
}
