/** The conditional-branch handler (IfOpHandler): six comparison predicates, the
    register-to-register and register-to-zero forms, and the ambiguous-predicate rule. */
module IfOp {
  import opened Values
  import opened Instructions

  datatype IfType = Equal | NotEqual | Less | LessOrEqual | Greater | GreaterOrEqual

  /** The successor meaning "the instruction that follows" (InstructionExecutor.NEXT_INSTRUCTION). */
  const NextInstruction: int := -1

  /** String.contains. */
  predicate Contains(s: string, sub: string)
    decreases |s|
  {
    |sub| <= |s| && (s[..|sub|] == sub || (|s| > 0 && Contains(s[1..], sub)))
  }

  /** The comparison an opcode name selects: the first of "-eq", "-ne", "-lt", "-le", "-gt",
      "-ge" that occurs in the name, or None when none does. */
  function GetIfType(opName: string): (r: Option<IfType>)
    ensures r == Some(Equal) <==> Contains(opName, "-eq")
    ensures r == Some(NotEqual) <==> !Contains(opName, "-eq") && Contains(opName, "-ne")
    ensures r == Some(Less) <==>
      !Contains(opName, "-eq") && !Contains(opName, "-ne") && Contains(opName, "-lt")
    ensures r == Some(LessOrEqual) <==>
      !Contains(opName, "-eq") && !Contains(opName, "-ne") && !Contains(opName, "-lt") && Contains(opName, "-le")
    ensures r == Some(Greater) <==>
      !Contains(opName, "-eq") && !Contains(opName, "-ne") && !Contains(opName, "-lt") && !Contains(opName, "-le")
      && Contains(opName, "-gt")
    ensures r == Some(GreaterOrEqual) <==>
      !Contains(opName, "-eq") && !Contains(opName, "-ne") && !Contains(opName, "-lt") && !Contains(opName, "-le")
      && !Contains(opName, "-gt") && Contains(opName, "-ge")
    ensures r == None <==>
      !Contains(opName, "-eq") && !Contains(opName, "-ne") && !Contains(opName, "-lt") && !Contains(opName, "-le")
      && !Contains(opName, "-gt") && !Contains(opName, "-ge")
  {
    if Contains(opName, "-eq") then Some(Equal)
    else if Contains(opName, "-ne") then Some(NotEqual)
    else if Contains(opName, "-lt") then Some(Less)
    else if Contains(opName, "-le") then Some(LessOrEqual)
    else if Contains(opName, "-gt") then Some(Greater)
    else if Contains(opName, "-ge") then Some(GreaterOrEqual)
    else None
  }

  /** In a name whose only '-' is at index 2, a three-character pattern starting with '-'
      occurs exactly when the two characters after the dash match it. */
  lemma {:induction false} ConditionCode(s: string, sub: string)
    requires |s| == 5 || |s| == 6
    requires s[0] != '-' && s[1] != '-' && s[2] == '-' && s[3] != '-' && s[4] != '-'
    requires |s| == 6 ==> s[5] != '-'
    requires |sub| == 3 && sub[0] == '-'
    ensures Contains(s, sub) <==> s[3] == sub[1] && s[4] == sub[2]
  {
    assert s[..3][0] != sub[0];
    assert s[1..][..3][0] != sub[0];
    var t := s[2..];
    assert s[1..][1..] == t;
    if |s| == 6 {
      assert t[1..][..3][0] != sub[0];
      assert !Contains(t[1..][1..], sub);
      assert !Contains(t[1..], sub);
    } else {
      assert !Contains(t[1..], sub);
    }
    assert Contains(t, sub) <==> t[..3] == sub;
    assert t[..3] == sub <==> t[..3][1] == sub[1] && t[..3][2] == sub[2];
  }

  /** The comparison a two-letter condition code spells. */
  function CodeOf(c1: char, c2: char): Option<IfType>
  {
    if c1 == 'e' && c2 == 'q' then Some(Equal)
    else if c1 == 'n' && c2 == 'e' then Some(NotEqual)
    else if c1 == 'l' && c2 == 't' then Some(Less)
    else if c1 == 'l' && c2 == 'e' then Some(LessOrEqual)
    else if c1 == 'g' && c2 == 't' then Some(Greater)
    else if c1 == 'g' && c2 == 'e' then Some(GreaterOrEqual)
    else None
  }

  /** For a name shaped like "if-cc" or "if-ccz", the comparison is the one its code spells. */
  lemma BranchName(s: string)
    requires |s| == 5 || |s| == 6
    requires s[0] != '-' && s[1] != '-' && s[2] == '-' && s[3] != '-' && s[4] != '-'
    requires |s| == 6 ==> s[5] != '-'
    ensures GetIfType(s) == CodeOf(s[3], s[4])
  {
    ConditionCode(s, "-eq");
    ConditionCode(s, "-ne");
    ConditionCode(s, "-lt");
    ConditionCode(s, "-le");
    ConditionCode(s, "-gt");
    ConditionCode(s, "-ge");
  }

  /** The Dalvik equality branches, register and zero forms, select the comparison their names spell. */
  lemma DalvikEqualityOpcodes()
    ensures GetIfType("if-eq") == Some(Equal) && GetIfType("if-eqz") == Some(Equal)
    ensures GetIfType("if-ne") == Some(NotEqual) && GetIfType("if-nez") == Some(NotEqual)
  {
    BranchName("if-eq");
    BranchName("if-eqz");
    BranchName("if-ne");
    BranchName("if-nez");
  }

  /** The Dalvik less-than branches, register and zero forms, select the comparison their names spell. */
  lemma DalvikLessOpcodes()
    ensures GetIfType("if-lt") == Some(Less) && GetIfType("if-ltz") == Some(Less)
    ensures GetIfType("if-le") == Some(LessOrEqual) && GetIfType("if-lez") == Some(LessOrEqual)
  {
    BranchName("if-lt");
    BranchName("if-ltz");
    BranchName("if-le");
    BranchName("if-lez");
  }

  /** The Dalvik greater-than branches, register and zero forms, select the comparison their names spell. */
  lemma DalvikGreaterOpcodes()
    ensures GetIfType("if-gt") == Some(Greater) && GetIfType("if-gtz") == Some(Greater)
    ensures GetIfType("if-ge") == Some(GreaterOrEqual) && GetIfType("if-gez") == Some(GreaterOrEqual)
  {
    BranchName("if-gt");
    BranchName("if-gtz");
    BranchName("if-ge");
    BranchName("if-gez");
  }

  /** Whether a comparison result satisfies the predicate: on a three-way result in -1..1 it is
      the predicate applied to that result and 0. */
  function IsTrue(ifType: IfType, cmp: int): (r: bool)
    ensures -1 <= cmp <= 1 ==> (r <==> Holds(ifType, cmp, 0))
  {
    match ifType
    case Equal => cmp == 0
    case Greater => cmp == 1
    case GreaterOrEqual => cmp >= 0
    case Less => cmp == -1
    case LessOrEqual => cmp <= 0
    case NotEqual => cmp != 0
  }

  /** For a three-way result the pairs EQ/NE, LT/GE and GT/LE are complementary. */
  lemma IsTrueComplements(cmp: int)
    requires -1 <= cmp <= 1
    ensures IsTrue(Equal, cmp) != IsTrue(NotEqual, cmp)
    ensures IsTrue(Less, cmp) != IsTrue(GreaterOrEqual, cmp)
    ensures IsTrue(Greater, cmp) != IsTrue(LessOrEqual, cmp)
  {
  }

  /** The reference meaning of each predicate on two integers. */
  predicate Holds(ifType: IfType, x: int, y: int)
  {
    match ifType
    case Equal => x == y
    case NotEqual => x != y
    case Less => x < y
    case LessOrEqual => x <= y
    case Greater => x > y
    case GreaterOrEqual => x >= y
  }

  /** On integer operands the handler's comparison decides exactly the numeric predicate. */
  lemma IsTrueMatchesIntegerOrder(ifType: IfType, x: int, y: int)
    ensures Compare(IntPayload(x), IntPayload(y)).Success?
    ensures IsTrue(ifType, Compare(IntPayload(x), IntPayload(y)).value) <==> Holds(ifType, x, y)
  {
  }

  /** The handler built from one branch instruction; register2 is 0 in the zero form. */
  datatype IfOpHandler = IfOpHandler(
    address: int,
    opName: string,
    ifType: Option<IfType>,
    targetAddress: int,
    register1: nat,
    register2: nat,
    compareToZero: bool)

  /** create: the target is address + branch offset; a 22t instruction compares registers A
      and B, every other form compares register A with the constant 0. */
  function Create(instruction: Instruction, address: int): (h: IfOpHandler)
    ensures h.address == address
    ensures h.targetAddress == address + instruction.codeOffset
    ensures h.ifType == GetIfType(instruction.opName)
    ensures h.register1 == instruction.registerA
    ensures h.compareToZero <==> instruction.format != Format22t
    ensures !h.compareToZero ==> h.register2 == instruction.registerB
  {
    var ifType := GetIfType(instruction.opName);
    var target := address + instruction.codeOffset;
    if instruction.format == Format22t then
      IfOpHandler(address, instruction.opName, ifType, target, instruction.registerA, instruction.registerB, false)
    else
      IfOpHandler(address, instruction.opName, ifType, target, instruction.registerA, 0, true)
  }

  /** getPossibleChildren: branch target first, then the following instruction. */
  function PossibleChildren(h: IfOpHandler): (r: seq<int>)
    ensures |r| == 2 && r[0] == h.targetAddress && r[1] == NextInstruction
  {
    [h.targetAddress, NextInstruction]
  }

  /** getRegisterValue: the value of a register, or InvalidRegister. */
  function ReadValue(ctx: Context, register: int): Outcome<Value>
  {
    match PeekRegister(ctx, register)
    case Some(s) => Success(s.value)
    case None => Failure(InvalidRegister(register))
  }

  /** The two operands: register1, then register2 or the constant 0. */
  function Operands(h: IfOpHandler, ctx: Context): Outcome<(Value, Value)>
  {
    match ReadValue(ctx, h.register1)
    case Failure(f) => Failure(f)
    case Success(a) =>
      if h.compareToZero then Success((a, Known(IntPayload(0))))
      else
        match ReadValue(ctx, h.register2)
        case Failure(f) => Failure(f)
        case Success(b) => Success((a, b))
  }

  /** execute: the successor addresses of this branch in a given context. Two known operands
      are compared first (which fails for an integer against a string), and only then is the
      predicate consulted. */
  function Execute(h: IfOpHandler, ctx: Context): (r: Outcome<seq<int>>)
    ensures Operands(h, ctx).Failure? ==> r == Failure(Operands(h, ctx).fault)
    ensures Operands(h, ctx).Success? && (Operands(h, ctx).value.0.Unknown? || Operands(h, ctx).value.1.Unknown?)
      ==> r == Success([h.targetAddress, NextInstruction])
    ensures (Operands(h, ctx).Success? && Operands(h, ctx).value.0.Known? && Operands(h, ctx).value.1.Known?) ==>
        var cmp := Compare(Operands(h, ctx).value.0.payload, Operands(h, ctx).value.1.payload);
        (cmp.Failure? ==> r == Failure(ClassMismatch))
        && (cmp.Success? && h.ifType.None? ==> r == Failure(NullIfType))
        && (cmp.Success? && h.ifType.Some? ==>
              r == Success([if IsTrue(h.ifType.value, cmp.value) then h.targetAddress else NextInstruction]))
  {
    match Operands(h, ctx)
    case Failure(f) => Failure(f)
    case Success((a, b)) =>
      if a.Unknown? || b.Unknown? then
        // Ambiguous predicate: both branches are possible.
        Success(PossibleChildren(h))
      else
        match Compare(a.payload, b.payload)
        case Failure(f) => Failure(f)
        case Success(cmp) =>
          if h.ifType.None? then Failure(NullIfType)
          else Success([if IsTrue(h.ifType.value, cmp) then h.targetAddress else NextInstruction])
  }

  /** Whatever execute returns is among the possible children: it never invents a successor. */
  lemma ExecuteWithinPossibleChildren(h: IfOpHandler, ctx: Context)
    requires Execute(h, ctx).Success?
    ensures forall k :: 0 <= k < |Execute(h, ctx).value| ==> Execute(h, ctx).value[k] in PossibleChildren(h)
    ensures 1 <= |Execute(h, ctx).value| <= 2
  {
  }

  /** The zero form never reads register2: contexts that agree on register1 give the same result. */
  lemma ZeroFormIgnoresRegister2(h: IfOpHandler, c1: Context, c2: Context)
    requires h.compareToZero
    requires ReadValue(c1, h.register1) == ReadValue(c2, h.register1)
    ensures Execute(h, c1) == Execute(h, c2)
  {
  }

  /** A branch on a known integer register in the zero form follows the target exactly when
      the predicate holds of that integer and 0 (for example if-eqz on 5 falls through). */
  lemma ZeroFormOnKnownInteger(h: IfOpHandler, ctx: Context, x: int)
    requires h.compareToZero && h.ifType.Some?
    requires ReadValue(ctx, h.register1) == Success(Known(IntPayload(x)))
    ensures Execute(h, ctx) == Success([if Holds(h.ifType.value, x, 0) then h.targetAddress else NextInstruction])
  {
    IsTrueMatchesIntegerOrder(h.ifType.value, x, 0);
  }

  /** A zero-form branch on a register holding a string (such as "this") compares a string
      with the integer 0, which cannot be done: the branch fails with ClassMismatch. */
  lemma ZeroFormOnStringFails(h: IfOpHandler, ctx: Context, t: string)
    requires h.compareToZero
    requires ReadValue(ctx, h.register1) == Success(Known(StringPayload(t)))
    ensures Execute(h, ctx) == Failure(ClassMismatch)
  {
  }
}
