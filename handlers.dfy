/** Handler dispatch: the handler a template node carries, chosen once when the graph is
    built, and the uniform way the executor runs it. */
module Handlers {
  import opened Values
  import opened Instructions
  import IfOp
  import ReturnOp

  /** Branches and returns are modelled in full; every other opcode stands for a
      sequential instruction that leaves the context alone and continues at the next address. */
  datatype Handler =
    | IfHandler(ifOp: IfOp.IfOpHandler)
    | ReturnHandler(returnOp: ReturnOp.ReturnOpHandler)
    | SequentialHandler(address: int, opName: string, childAddress: int)

  /** The factory's choice of handler for one instruction at a given address (or index). */
  function CreateHandler(instruction: Instruction, address: int): (h: Handler)
    ensures HandlerAddress(h) == address
    ensures instruction.kind == IfOp ==> h == IfHandler(IfOp.Create(instruction, address))
    ensures instruction.kind == ReturnOp ==> h == ReturnHandler(ReturnOp.Create(instruction, address))
    ensures instruction.kind == OtherOp ==> h.SequentialHandler? && h.childAddress == address + instruction.codeUnits
  {
    match instruction.kind
    case IfOp => IfHandler(IfOp.Create(instruction, address))
    case ReturnOp => ReturnHandler(ReturnOp.Create(instruction, address))
    case OtherOp => SequentialHandler(address, instruction.opName, address + instruction.codeUnits)
  }

  /** getAddress. */
  function HandlerAddress(h: Handler): int
  {
    match h
    case IfHandler(i) => i.address
    case ReturnHandler(r) => r.address
    case SequentialHandler(a, _, _) => a
  }

  /** execute: the context after the handler ran and its successor addresses. No handler
      changes a register; only a return changes the context at all, and then only its return
      slot. A branch continues at one or both of its possible children, a return nowhere, and
      any other instruction at the address after it. */
  function Execute(h: Handler, ctx: Context): (r: Outcome<Step>)
    ensures r.Success? ==> r.value.context.registers == ctx.registers
    ensures r.Success? && !h.ReturnHandler? ==> r.value.context == ctx
    ensures h.IfHandler? ==> (r.Success? <==> IfOp.Execute(h.ifOp, ctx).Success?)
    ensures h.IfHandler? && r.Failure? ==> r.fault == IfOp.Execute(h.ifOp, ctx).fault
    ensures h.IfHandler? && r.Success? ==>
      r.value.successors == IfOp.Execute(h.ifOp, ctx).value
      && 1 <= |r.value.successors| <= 2
      && forall k :: 0 <= k < |r.value.successors| ==> r.value.successors[k] in IfOp.PossibleChildren(h.ifOp)
    ensures h.ReturnHandler? ==> (r.Success? <==> h.returnOp.register < |ctx.registers|)
    ensures h.ReturnHandler? && r.Failure? ==> r.fault == InvalidRegister(h.returnOp.register)
    ensures h.ReturnHandler? && r.Success? ==>
      r.value.successors == [] && r.value.context.returnRegister == Some(ctx.registers[h.returnOp.register])
    ensures h.SequentialHandler? ==> r.Success? && r.value.successors == [h.childAddress]
  {
    match h
    case IfHandler(i) =>
      (match IfOp.Execute(i, ctx)
       case Success(s) =>
         IfOp.ExecuteWithinPossibleChildren(i, ctx);
         Success(Step(ctx, s))
       case Failure(f) => Failure(f))
    case ReturnHandler(ret) => ReturnOp.Apply(ret, ctx)
    case SequentialHandler(_, _, child) => Success(Step(ctx, [child]))
  }
}
