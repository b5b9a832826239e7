/** The instruction model handed over by the bytecode parser: only the facts the engine reads. */
module Instructions {

  /** Instruction formats the handlers distinguish (22t: two registers and an offset;
      21t: one register and an offset; 11x: one register). */
  datatype Format = Format22t | Format21t | Format11x | OtherFormat

  /** Opcode family, as the handler factory dispatches on it. */
  datatype OpKind = IfOp | ReturnOp | OtherOp

  /** One instruction: its position (index) and code address in the method, its opcode,
      operand registers A and B, branch offset, width in code units, and whether the
      opcode can continue to another instruction. */
  datatype Instruction = Instruction(
    index: nat,
    address: nat,
    kind: OpKind,
    opName: string,
    format: Format,
    registerA: nat,
    registerB: nat,
    codeOffset: int,
    codeUnits: nat,
    canContinue: bool)
}
