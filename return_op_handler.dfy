/** The return handler (ReturnOpHandler): copies one register into the return slot and
    ends the path, having no successor. */
module ReturnOp {
  import opened Values
  import opened Instructions
  import opened Contexts

  /** The handler's successor list is fixed to the empty one at construction. */
  datatype ReturnOpHandler = ReturnOpHandler(address: int, opName: string, register: nat)

  /** create: the returned register is register A of the one-register instruction. */
  function Create(instruction: Instruction, address: int): (h: ReturnOpHandler)
    ensures h.register == instruction.registerA
    ensures h.address == address && h.opName == instruction.opName
  {
    ReturnOpHandler(address, instruction.opName, instruction.registerA)
  }

  /** getPossibleChildren: none, so the instruction is terminal. */
  function PossibleChildren(h: ReturnOpHandler): seq<int>
  {
    []
  }

  /** The effect of execute on a context value. */
  function Apply(h: ReturnOpHandler, ctx: Context): (r: Outcome<Step>)
    ensures r.Success? <==> h.register < |ctx.registers|
    ensures r.Failure? ==> r.fault == InvalidRegister(h.register)
    ensures r.Success? ==> r.value.context.returnRegister == Some(ctx.registers[h.register])
    ensures r.Success? ==> r.value.context.registers == ctx.registers
    ensures r.Success? ==> r.value.successors == []
  {
    if h.register < |ctx.registers| then
      Success(Step(Context(ctx.registers, Some(ctx.registers[h.register])), PossibleChildren(h)))
    else
      Failure(InvalidRegister(h.register))
  }

  /** execute, in place on a mutable context: the return slot receives the register's
      value, every register stays as it was, and no successor is produced. */
  method Execute(h: ReturnOpHandler, mctx: MethodContext) returns (r: Outcome<seq<int>>)
    modifies mctx
    ensures Apply(h, old(mctx.Snapshot())).Success? ==>
      r == Success([]) && mctx.Snapshot() == Apply(h, old(mctx.Snapshot())).value.context
    ensures Apply(h, old(mctx.Snapshot())).Failure? ==>
      r == Failure(InvalidRegister(h.register)) && mctx.Snapshot() == old(mctx.Snapshot())
  {
    var read := mctx.ReadRegister(h.register);
    if read.Failure? {
      return Failure(read.fault);
    }
    mctx.AssignReturnRegister(read.value);
    r := Success(PossibleChildren(h));
  }
}
