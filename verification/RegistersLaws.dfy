/** The 37 slots refine a map from architectural register names (ARM DDI 0100, section A2.4). */
module RegistersLaws {
  import opened Words
  import opened RegistersSpec

  datatype Bank = User | Fiq | Irq | Svc | Abt | Und

  /** The architecture's name of a register: bank `User` also holds the registers that modes share. */
  datatype Name = General(reg: nat, bank: Bank) | Cpsr | Spsr(bank: Bank)

  predicate DefinedMode(mode: byte)
  {
    mode == USR || mode == FIQ || mode == IRQ || mode == SVC || mode == ABT || mode == UND || mode == SYS
  }

  /** User and System modes use the same registers; so does every mode number the architecture leaves
      undefined. */
  function BankOf(mode: byte): Bank
  {
    if mode == FIQ then Fiq else if mode == IRQ then Irq else if mode == SVC then Svc
    else if mode == ABT then Abt else if mode == UND then Und else User
  }

  /** R0-R7 and R15 are shared by all modes, R8-R12 are banked for FIQ alone, R13 and R14 for every
      exception mode. */
  predicate Banked(reg: nat, bank: Bank)
  {
    match bank
    case User => true
    case Fiq => 8 <= reg < 15
    case _ => 13 <= reg < 15
  }

  function NameOf(reg: nat, mode: byte): Name
    requires reg < 16
  {
    var bank := BankOf(mode);
    General(reg, if Banked(reg, bank) then bank else User)
  }

  /** The names of the 37 registers of the architecture. */
  predicate Valid(n: Name)
  {
    match n
    case General(reg, bank) => reg < 16 && Banked(reg, bank)
    case Cpsr => true
    case Spsr(bank) => bank != User
  }

  /** Where the file keeps each register. */
  function Place(n: Name): nat
    requires Valid(n)
  {
    match n
    case General(reg, User) => reg
    case General(reg, Fiq) => reg + 16
    case General(reg, Irq) => reg + 9
    case General(reg, Svc) => reg + 3
    case General(reg, Abt) => reg + 5
    case General(reg, Und) => reg + 7
    case Cpsr => CPSR
    case Spsr(Fiq) => 36
    case Spsr(Irq) => 35
    case Spsr(Svc) => 32
    case Spsr(Abt) => 33
    case Spsr(_) => 34
  }

  /** The inverse of `Place`. */
  function Occupant(slot: nat): (n: Name)
    requires slot < 37
    ensures Valid(n) && Place(n) == slot
  {
    if slot < 16 then General(slot, User)
    else if slot < 18 then General(slot - 3, Svc)
    else if slot < 20 then General(slot - 5, Abt)
    else if slot < 22 then General(slot - 7, Und)
    else if slot < 24 then General(slot - 9, Irq)
    else if slot < 31 then General(slot - 16, Fiq)
    else if slot == 31 then Cpsr
    else if slot == 32 then Spsr(Svc)
    else if slot == 33 then Spsr(Abt)
    else if slot == 34 then Spsr(Und)
    else if slot == 35 then Spsr(Irq)
    else Spsr(Fiq)
  }

  /** The slots and the names are in bijection, and the slot code of registers.c follows it for every
      mode number. Of the modes without an SPSR slot, only User and System are reported to have none. */
  lemma SlotsAreTheNames(n: Name, reg: nat, mode: byte)
    requires Valid(n)
    ensures Place(n) < 37 && Occupant(Place(n)) == n
    ensures reg < 16 ==>
      Valid(NameOf(reg, mode)) && Slot(reg, mode) == Place(NameOf(reg, mode))
    ensures BankOf(mode) != User ==> SpsrSlot(mode) == Some(Place(Spsr(BankOf(mode))))
    ensures BankOf(mode) == User ==> SpsrSlot(mode) == None
    ensures SpsrSlot(mode).None? && ModeHasSpsr(mode) <==> !DefinedMode(mode)
  {
  }

  /** Within any one mode, defined or not, distinct registers have distinct slots. */
  lemma SlotInjective(r: nat, r': nat, mode: byte)
    requires r < 16 && r' < 16 && r != r'
    ensures Slot(r, mode) != Slot(r', mode)
  {
  }

  // ----- whole histories of writes -----

  datatype Write = ToRegister(reg: nat, mode: byte, value: word) | ToCpsr(value: word) | ToSpsr(mode: byte, value: word)

  predicate Allowed(w: Write)
  {
    match w
    case ToRegister(reg, _, _) => reg < 16
    case _ => true
  }

  function Apply(regs: file, w: Write): file
    requires Allowed(w)
  {
    match w
    case ToRegister(reg, mode, value) => regs[Slot(reg, mode) := value]
    case ToCpsr(value) => regs[CPSR := value]
    case ToSpsr(mode, value) => WriteSpsr(regs, mode, value)
  }

  function ApplyAll(regs: file, ws: seq<Write>): file
    requires forall w :: w in ws ==> Allowed(w)
  {
    if ws == [] then regs else Apply(ApplyAll(regs, ws[..|ws| - 1]), ws[|ws| - 1])
  }

  /** The architectural register a write names; none for the SPSR of a mode without one. */
  function Target(w: Write): Option<Name>
    requires Allowed(w)
  {
    match w
    case ToRegister(reg, mode, _) => Some(NameOf(reg, mode))
    case ToCpsr(_) => Some(Cpsr)
    case ToSpsr(mode, _) => if BankOf(mode) == User then None else Some(Spsr(BankOf(mode)))
  }

  /** The abstract register map: the value of the latest write to `n`, else the initial one. */
  function LastWrite(regs: file, ws: seq<Write>, n: Name): word
    requires Valid(n) && forall w :: w in ws ==> Allowed(w)
  {
    SlotsAreTheNames(n, 0, USR);
    if ws == [] then regs[Place(n)]
    else
      var w := ws[|ws| - 1];
      if Target(w) == Some(n) then w.value else LastWrite(regs, ws[..|ws| - 1], n)
  }

  /** After any history of writes in any modes, each register holds the last value written to its
      architectural name: nothing else moves it, and no write is lost. */
  lemma {:induction false} FileAfterHistory(regs: file, ws: seq<Write>, n: Name)
    requires Valid(n) && forall w :: w in ws ==> Allowed(w)
    ensures Place(n) < 37 && ApplyAll(regs, ws)[Place(n)] == LastWrite(regs, ws, n)
  {
    SlotsAreTheNames(n, 0, USR);
    if ws != [] {
      FileAfterHistory(regs, ws[..|ws| - 1], n);
      var w := ws[|ws| - 1];
      assert w in ws && Allowed(w);
      match w
      case ToRegister(reg, mode, _) =>
        SlotsAreTheNames(n, reg, mode);
        SlotsAreTheNames(NameOf(reg, mode), reg, mode);
      case ToCpsr(_) =>
      case ToSpsr(mode, _) =>
        SlotsAreTheNames(n, 0, mode);
        if BankOf(mode) != User {
          SlotsAreTheNames(Spsr(BankOf(mode)), 0, mode);
        }
    }
  }
}
