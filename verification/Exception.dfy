/** arm_exception.c on the processor object. */
module ExceptionHandler {
  import opened Words
  import opened Machine
  import opened ExceptionSpec
  import opened Core

  /** arm_exception, with what putchar is given. */
  method ArmException(p: ArmCore, exception: byte, u: Uninit) returns (code: int, printed: seq<byte>)
    requires p.Valid()
    modifies p.reg.slots
    ensures Outcome(p.St(), code) == Exception(old(p.St()), exception, u)
    ensures printed == Printed(old(p.St()), exception, u)
  {
    hide ReadReg, WriteReg, LoadWord;
    printed := [];
    if exception == SOFTWARE_INTERRUPT {
      var address := p.ReadRegister(15);
      address := Minus(address, 8);
      var instruction := p.ReadWord(address, u);
      var number := instruction % 0x100_0000;
      if number == 0x12_3456 {
        return END_SIMULATION, printed;
      }
      if number == 1 {
        var value := p.ReadRegister(0);
        return 0, [value % 0x100];
      }
    }
    if exception == RESET {
      p.WriteCpsr(0x1d3);
      p.WriteRegister(15, 0);
    }
    return exception, printed;
  }
}
