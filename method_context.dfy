/** The mutable register context of one visit (MethodContext): a fixed-length register
    file with a parameter window at its end, and a return slot. */
module Contexts {
  import opened Values

  class MethodContext {
    var registers: seq<RegisterStore>
    var returnRegister: Option<RegisterStore>
    /** First register of the parameter window: the last parameterCount registers. */
    const parameterStart: nat
    const parameterCount: nat

    /** A context with every register unknown and an empty return slot. */
    constructor (registerCount: nat, parameterCount: nat)
      requires parameterCount <= registerCount
      ensures registers == seq(registerCount, _ => UnknownStore)
      ensures returnRegister == None
      ensures this.parameterCount == parameterCount
      ensures parameterStart == registerCount - parameterCount
    {
      registers := seq(registerCount, _ => UnknownStore);
      returnRegister := None;
      this.parameterCount := parameterCount;
      parameterStart := registerCount - parameterCount;
    }

    /** The value this context holds, as the graph records it. */
    function Snapshot(): Context
      reads this
    {
      Context(registers, returnRegister)
    }

    /** readRegister: fails with InvalidRegister outside the register file. */
    function ReadRegister(register: int): (r: Outcome<RegisterStore>)
      reads this
      ensures r.Success? <==> 0 <= register < |registers|
      ensures r.Success? ==> r.value == registers[register]
      ensures r.Failure? ==> r.fault == InvalidRegister(register)
    {
      if 0 <= register < |registers| then Success(registers[register]) else Failure(InvalidRegister(register))
    }

    /** pokeRegister: overwrites one register; an index outside the file is refused. */
    method PokeRegister(register: int, store: RegisterStore) returns (ok: bool)
      modifies this
      ensures ok == (0 <= register < |old(registers)|)
      ensures registers == if ok then old(registers)[register := store] else old(registers)
      ensures returnRegister == old(returnRegister)
    {
      ok := 0 <= register < |registers|;
      if ok {
        registers := registers[register := store];
      }
    }

    /** setParameter: writes parameter `index` into the parameter window. */
    method SetParameter(index: int, store: RegisterStore) returns (ok: bool)
      modifies this
      ensures ok == (0 <= parameterStart + index < |old(registers)|)
      ensures registers == if ok then old(registers)[parameterStart + index := store] else old(registers)
      ensures returnRegister == old(returnRegister)
    {
      ok := PokeRegister(parameterStart + index, store);
    }

    /** assignReturnRegister: fills the return slot and touches no register. */
    method AssignReturnRegister(store: RegisterStore)
      modifies this
      ensures returnRegister == Some(store)
      ensures registers == old(registers)
    {
      returnRegister := Some(store);
    }
  }
}
