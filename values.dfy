/** The value abstraction shared by the whole engine: known/unknown register values,
    register stores, context snapshots, faults, and the comparison used by branches. */
module Values {

  datatype Option<T> = None | Some(value: T)

  /** Payload of a known value: the engine's constants are integers or strings (such as "this"). */
  datatype Payload = IntPayload(i: int) | StringPayload(s: string)

  /** A register value: a known constant, or the distinguished unknown (top) value. */
  datatype Value = Known(payload: Payload) | Unknown

  /** What a register holds: its declared type name and its value (RegisterStore). */
  datatype RegisterStore = RegisterStore(typ: string, value: Value)

  /** The store consensus reports when paths disagree; also what a register never written holds. */
  const UnknownStore: RegisterStore := RegisterStore("?", Unknown)

  /** Snapshot of a method context: every register of the method plus the return slot. */
  datatype Context = Context(registers: seq<RegisterStore>, returnRegister: Option<RegisterStore>)

  /** Ways in which a handler, the executor or the machine stops abnormally
      (an exception in the source other than the node-visit ceiling). */
  datatype Fault =
    | InvalidRegister(register: int)
    | NullIfType
    | NullContext
    | MissingNode(address: int)
    | UndefinedMethod(descriptor: string)
    | ClassMismatch

  datatype Outcome<T> = Success(value: T) | Failure(fault: Fault)

  /** What a handler produces: the context after it ran and the successor addresses. */
  datatype Step = Step(context: Context, successors: seq<int>)

  /** Reads a register of a snapshot; None when the index is outside the register file. */
  function PeekRegister(ctx: Context, register: int): Option<RegisterStore>
  {
    if 0 <= register < |ctx.registers| then Some(ctx.registers[register]) else None
  }

  /** Three-way sign of an integer difference. */
  function Sign(x: int): (c: int)
    ensures -1 <= c <= 1
    ensures c == 0 <==> x == 0
    ensures c == -1 <==> x < 0
  {
    if x < 0 then -1 else if x == 0 then 0 else 1
  }

  /** Three-way comparison of two strings of the same length, character by character:
      the first differing character decides. */
  function CompareChars(a: string, b: string): (c: int)
    requires |a| == |b|
    ensures -1 <= c <= 1
    ensures c == 0 <==> a == b
  {
    if a == [] then 0
    else if a[0] < b[0] then -1
    else if a[0] > b[0] then 1
    else
      assert a == [a[0]] + a[1..] && b == [b[0]] + b[1..];
      CompareChars(a[1..], b[1..])
  }

  /** The reflective comparison of two strings. Their character arrays are compared as
      arrays: the shorter array comes first whatever its contents, and arrays of equal length
      compare character by character. */
  function CompareStrings(a: string, b: string): (c: int)
    ensures -1 <= c <= 1
    ensures c == 0 <==> a == b
    ensures |a| < |b| ==> c == -1
    ensures |a| > |b| ==> c == 1
  {
    if |a| < |b| then -1
    else if |a| > |b| then 1
    else CompareChars(a, b)
  }

  /** The reflective comparison a branch applies to two known payloads. Payloads of different
      classes (an integer and a string) cannot be compared and fail with ClassMismatch;
      two integers compare numerically and two strings as CompareStrings does. */
  function Compare(a: Payload, b: Payload): (r: Outcome<int>)
    ensures r.Success? <==> a.IntPayload? == b.IntPayload?
    ensures r.Failure? ==> r.fault == ClassMismatch
    ensures r.Success? ==> -1 <= r.value <= 1 && (r.value == 0 <==> a == b)
    ensures r.Success? && a.IntPayload? ==> (r.value < 0 <==> a.i < b.i)
  {
    match (a, b)
    case (IntPayload(x), IntPayload(y)) => Success(Sign(x - y))
    case (StringPayload(s), StringPayload(t)) => Success(CompareStrings(s, t))
    case (IntPayload(_), StringPayload(_)) => Failure(ClassMismatch)
    case (StringPayload(_), IntPayload(_)) => Failure(ClassMismatch)
  }

  lemma {:induction false} CompareCharsAntisymmetric(a: string, b: string)
    requires |a| == |b|
    ensures CompareChars(b, a) == -CompareChars(a, b)
  {
    if a != [] && a[0] == b[0] {
      CompareCharsAntisymmetric(a[1..], b[1..]);
    }
  }

  /** Swapping the operands negates the comparison, and fails exactly when the original does. */
  lemma CompareAntisymmetric(a: Payload, b: Payload)
    ensures Compare(b, a).Success? <==> Compare(a, b).Success?
    ensures Compare(a, b).Success? ==> Compare(b, a).value == -Compare(a, b).value
  {
    if a.StringPayload? && b.StringPayload? && |a.s| == |b.s| {
      CompareCharsAntisymmetric(a.s, b.s);
    }
  }
}
