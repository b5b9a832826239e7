/** The virtual machine: the method graphs it holds, the initialization of a class before
    its first use, and the context a method starts from. */
module VM {
  import opened Values
  import opened Instructions
  import opened Contexts
  import opened Nodes
  import SimplifyGraph
  import Executor

  /** Access flag bits of the Dalvik executable format. */
  const ACC_STATIC: bv32 := 0x8
  const ACC_FINAL: bv32 := 0x10

  /** A method as the machine sees it: its defining class, name, parameter and return
      types, access flags, register count and instructions. */
  datatype MethodDef = MethodDef(definingClass: string, name: string, parameterTypes: seq<string>,
                                 returnType: string, accessFlags: bv32, registerCount: nat,
                                 instructions: seq<Instruction>)

  /** A class definition: its type name, access flags and methods. */
  datatype ClassDef = ClassDef(typ: string, accessFlags: bv32, methods: seq<MethodDef>)

  /** The per-class field store. No class context is ever built, so it carries only its name. */
  datatype ClassContext = ClassContext(className: string)

  /** What execute hands back: the executed graph, null (the node-visit ceiling was hit),
      or an exception that escapes the machine. */
  datatype ExecResult = Graph(graph: SimplifyGraph.ContextGraph) | NoGraph | Crash(fault: Fault)

  // ---------------------------------------------------------------------------------------
  // Descriptors and class names

  /** An arrow "->" starts at position i of s. */
  predicate ArrowAt(s: string, i: int)
  {
    0 <= i && i + 1 < |s| && s[i] == '-' && s[i + 1] == '>'
  }

  /** s contains no arrow. */
  predicate ArrowFree(s: string)
  {
    forall i :: 0 <= i < |s| ==> !ArrowAt(s, i)
  }

  /** The position of the first arrow at or after `from`, or |s| when there is none. */
  function FirstArrow(s: string, from: nat): (r: nat)
    requires from <= |s|
    decreases |s| - from
    ensures from <= r <= |s|
    ensures r < |s| ==> ArrowAt(s, r)
    ensures forall i :: from <= i < r ==> !ArrowAt(s, i)
  {
    if from + 1 >= |s| then |s|
    else if ArrowAt(s, from) then from
    else FirstArrow(s, from + 1)
  }

  /** getClassNameFromMethodDescriptor: split at the first "->" with limit 2 and keep the
      first part, which is the whole descriptor when it has no arrow. */
  function ClassName(descriptor: string): (className: string)
    ensures className <= descriptor
    ensures ArrowFree(className)
    ensures forall i :: 0 <= i < |className| ==> !ArrowAt(descriptor, i)
    ensures |className| < |descriptor| ==> ArrowAt(descriptor, |className|)
  {
    var cut := FirstArrow(descriptor, 0);
    var className := descriptor[..cut];
    assert forall i :: ArrowAt(className, i) ==> ArrowAt(descriptor, i);
    className
  }

  /** A class name followed by an arrow and anything names that class. */
  lemma ClassNameOfQualified(className: string, rest: string)
    requires ArrowFree(className)
    ensures ClassName(className + "->" + rest) == className
  {
    var d := className + "->" + rest;
    var c := ClassName(d);
    assert ArrowAt(d, |className|);
    forall i | 0 <= i < |className|
      ensures !ArrowAt(d, i)
    {
      if i + 1 < |className| {
        assert !ArrowAt(className, i);
      } else {
        assert d[i + 1] == '-';
      }
    }
    if |c| < |className| {
      assert false;
    }
    assert |c| <= |className|;
    assert c == d[..|c|] && className == d[..|className|];
  }

  /** The descriptor of a class's static initializer. */
  function ClinitDescriptor(className: string): string
  {
    className + "-><clinit>()V"
  }

  /** The initializer of the class a descriptor names belongs to that same class: running
      it re-enters initialization for a class already marked. */
  lemma ClinitOfSameClass(descriptor: string)
    ensures ClassName(ClinitDescriptor(ClassName(descriptor))) == ClassName(descriptor)
  {
    var c := ClassName(descriptor);
    assert ClinitDescriptor(c) == c + "->" + "<clinit>()V";
    ClassNameOfQualified(c, "<clinit>()V");
  }

  /** Taking the class name twice changes nothing. */
  lemma ClassNameIdempotent(descriptor: string)
    ensures ClassName(ClassName(descriptor)) == ClassName(descriptor)
  {
    var c := ClassName(descriptor);
    var r := ClassName(c);
    if |r| < |c| {
      assert false;
    }
  }

  /** The parameter types written one after another. */
  function Concat(types: seq<string>): string
  {
    if |types| == 0 then "" else types[0] + Concat(types[1..])
  }

  /** A method's descriptor: Class->name(ParameterTypes)ReturnType. */
  function MethodDescriptor(m: MethodDef): string
  {
    m.definingClass + "->" + (m.name + "(" + Concat(m.parameterTypes) + ")" + m.returnType)
  }

  /** The class name of a method's descriptor is its defining class. */
  lemma MethodDescriptorClass(m: MethodDef)
    requires ArrowFree(m.definingClass)
    ensures ClassName(MethodDescriptor(m)) == m.definingClass
  {
    ClassNameOfQualified(m.definingClass, m.name + "(" + Concat(m.parameterTypes) + ")" + m.returnType);
  }

  // ---------------------------------------------------------------------------------------
  // Immutable classes

  /** The reflective facts the machine consults and cannot see into: whether a smali name
      is a primitive type, and for a Java class name whether the class loads (Some) and is
      then a primitive or a primitive wrapper. */
  datatype Reflection = Reflection(isPrimitiveType: string -> bool, primitiveOrWrapper: string -> Option<bool>)

  /** replaceAll("/", "."): every slash becomes a dot. */
  function DotsForSlashes(s: string): (r: string)
    ensures |r| == |s|
    ensures forall i :: 0 <= i < |s| ==> r[i] == (if s[i] == '/' then '.' else s[i])
  {
    if |s| == 0 then ""
    else [if s[0] == '/' then '.' else s[0]] + DotsForSlashes(s[1..])
  }

  /** startsWith("["): the name of an array type. */
  predicate IsArrayType(s: string)
  {
    |s| > 0 && s[0] == '['
  }

  /** isImmutableClass: arrays and the unknown type are mutable, strings and primitives are
      not, and any other class is immutable exactly when it loads and is a primitive or a
      wrapper. */
  function IsImmutableClass(smaliClassName: string, reflection: Reflection): (r: bool)
    ensures IsArrayType(smaliClassName) ==> !r
    ensures smaliClassName == "?" ==> !r
    ensures smaliClassName == "Ljava/lang/String;" ==> r
    ensures !(IsArrayType(smaliClassName)) && smaliClassName != "?" && reflection.isPrimitiveType(smaliClassName) ==> r
    ensures (!IsArrayType(smaliClassName) && smaliClassName != "?"
             && reflection.primitiveOrWrapper(DotsForSlashes(smaliClassName)) == Some(true)) ==> r
    ensures r ==> (smaliClassName == "Ljava/lang/String;" || reflection.isPrimitiveType(smaliClassName)
                   || reflection.primitiveOrWrapper(DotsForSlashes(smaliClassName)) == Some(true))
  {
    if IsArrayType(smaliClassName) then false
    else if smaliClassName == "?" then false
    else if smaliClassName == "Ljava/lang/String;" then true
    else if reflection.isPrimitiveType(smaliClassName) then true
    else
      match reflection.primitiveOrWrapper(DotsForSlashes(smaliClassName))
      case Some(b) => b
      case None => false
  }

  /** A class is final when its FINAL access bit is set. */
  predicate IsFinal(c: ClassDef)
  {
    c.accessFlags & ACC_FINAL != 0
  }

  /** The types of the final classes, in order. */
  function FinalTypes(classDefs: seq<ClassDef>): seq<string>
  {
    if |classDefs| == 0 then []
    else
      FinalTypes(classDefs[..|classDefs| - 1])
      + (if IsFinal(classDefs[|classDefs| - 1]) then [classDefs[|classDefs| - 1].typ] else [])
  }

  /** A type is listed exactly when some final class has it, and no more types than
      classes are listed. */
  lemma {:induction false} FinalTypesMembership(classDefs: seq<ClassDef>, t: string)
    ensures t in FinalTypes(classDefs) <==> exists k :: 0 <= k < |classDefs| && IsFinal(classDefs[k]) && classDefs[k].typ == t
    ensures |FinalTypes(classDefs)| <= |classDefs|
  {
    if |classDefs| > 0 {
      var init := classDefs[..|classDefs| - 1];
      FinalTypesMembership(init, t);
      var last := |classDefs| - 1;
      if exists k :: 0 <= k < |classDefs| && IsFinal(classDefs[k]) && classDefs[k].typ == t {
        var k :| 0 <= k < |classDefs| && IsFinal(classDefs[k]) && classDefs[k].typ == t;
        if k < last {
          assert init[k] == classDefs[k];
        }
      }
      if exists k :: 0 <= k < |init| && IsFinal(init[k]) && init[k].typ == t {
        var k :| 0 <= k < |init| && IsFinal(init[k]) && init[k].typ == t;
        assert classDefs[k] == init[k];
      }
    }
  }

  /** buildImmutableClasses: the type of every final class, in order. */
  method BuildImmutableClasses(classDefs: seq<ClassDef>) returns (result: seq<string>)
    ensures result == FinalTypes(classDefs)
  {
    result := [];
    for i := 0 to |classDefs|
      invariant result == FinalTypes(classDefs[..i])
    {
      assert classDefs[..i + 1][..i] == classDefs[..i];
      if classDefs[i].accessFlags & ACC_FINAL != 0 {
        result := result + [classDefs[i].typ];
      }
    }
    assert classDefs[..|classDefs|] == classDefs;
  }

  // ---------------------------------------------------------------------------------------
  // Root contexts

  predicate IsStatic(m: MethodDef)
  {
    m.accessFlags & ACC_STATIC != 0
  }

  /** The instance reference a non-static method receives. */
  function ThisStore(m: MethodDef): RegisterStore
  {
    RegisterStore(m.definingClass, Known(StringPayload("this")))
  }

  /** The register file a method starts with: the parameters, all unknown values of their
      types, fill the last registers; a non-static method has its instance reference just
      before them; every other register is unknown. */
  ghost predicate RootLayout(m: MethodDef, registers: seq<RegisterStore>)
    requires |m.parameterTypes| <= m.registerCount
  {
    var start := m.registerCount - |m.parameterTypes|;
    && |registers| == m.registerCount
    && (forall i :: 0 <= i < |m.parameterTypes| ==> registers[start + i] == RegisterStore(m.parameterTypes[i], Unknown))
    && (!IsStatic(m) && start > 0 ==> registers[start - 1] == ThisStore(m))
    && (forall r :: 0 <= r < start && (IsStatic(m) || r != start - 1) ==> registers[r] == UnknownStore)
  }

  /** buildRootContext: a fresh context for the method, laid out as above. */
  method BuildRootContext(m: MethodDef) returns (ctx: MethodContext)
    requires |m.parameterTypes| <= m.registerCount
    ensures fresh(ctx)
    ensures ctx.parameterCount == |m.parameterTypes| && ctx.parameterStart == m.registerCount - |m.parameterTypes|
    ensures RootLayout(m, ctx.registers) && ctx.returnRegister == None
  {
    ctx := new MethodContext(m.registerCount, |m.parameterTypes|);
    if m.accessFlags & ACC_STATIC == 0 {
      var _ := ctx.PokeRegister(ctx.parameterStart - 1, ThisStore(m));
    }
    ghost var before := ctx.registers;
    for p := 0 to |m.parameterTypes|
      invariant |ctx.registers| == m.registerCount && ctx.returnRegister == None
      invariant forall i :: 0 <= i < p ==> ctx.registers[ctx.parameterStart + i] == RegisterStore(m.parameterTypes[i], Unknown)
      invariant forall r :: 0 <= r < ctx.parameterStart ==> ctx.registers[r] == before[r]
    {
      var _ := ctx.SetParameter(p, RegisterStore(m.parameterTypes[p], Unknown));
    }
  }

  // ---------------------------------------------------------------------------------------
  // The machine

  /** No element occurs twice. */
  predicate NoDup(s: seq<string>)
  {
    forall i, j :: 0 <= i < j < |s| ==> s[i] != s[j]
  }

  /** The list of initialized classes after a class is marked: unchanged when it is listed
      already, otherwise extended by it. */
  function Mark(classes: seq<string>, className: string): (r: seq<string>)
    ensures className in r
    ensures NoDup(classes) ==> NoDup(r)
    ensures forall c :: c in classes ==> c in r
  {
    if className in classes then classes else classes + [className]
  }

  /** How many of the listed descriptors belong to classes not yet initialized. */
  function Uninitialized(descriptors: seq<string>, classes: seq<string>): nat
  {
    if |descriptors| == 0 then 0
    else (if ClassName(descriptors[0]) in classes then 0 else 1) + Uninitialized(descriptors[1..], classes)
  }

  /** Marking a class never raises the count, and lowers it when a listed descriptor
      belongs to that class and the class was not yet marked. */
  lemma {:induction false} MarkLowersUninitialized(descriptors: seq<string>, classes: seq<string>, className: string)
    ensures Uninitialized(descriptors, Mark(classes, className)) <= Uninitialized(descriptors, classes)
    ensures (className !in classes && exists d :: d in descriptors && ClassName(d) == className) ==>
      Uninitialized(descriptors, Mark(classes, className)) < Uninitialized(descriptors, classes)
  {
    if |descriptors| > 0 {
      MarkLowersUninitialized(descriptors[1..], classes, className);
      if className !in classes && (exists d :: d in descriptors && ClassName(d) == className) && ClassName(descriptors[0]) != className {
        var d :| d in descriptors && ClassName(d) == className;
        assert d in descriptors[1..];
      }
    }
  }

  /** The well-formedness a method needs before its graph and context can be built. */
  predicate Buildable(m: MethodDef)
  {
    SimplifyGraph.AscendingAddresses(m.instructions) && |m.parameterTypes| <= m.registerCount
  }

  /** The method has an instruction at address 0, the entry point its root node sits at. */
  predicate HasEntry(m: MethodDef)
  {
    exists k :: 0 <= k < |m.instructions| && m.instructions[k].address == 0
  }

  /** A method whose graph can be built and given its root context without a fault. */
  predicate Loadable(m: MethodDef)
  {
    Buildable(m) && HasEntry(m)
  }

  /** Every method of every class is loadable. */
  predicate AllLoadable(classDefs: seq<ClassDef>)
  {
    forall i, j :: 0 <= i < |classDefs| && 0 <= j < |classDefs[i].methods| ==> Loadable(classDefs[i].methods[j])
  }

  /** The pile of the `k`th instruction of `m` in `table`: just the template node its handler
      makes, without children; the template at address 0 carries a root context laid out
      for `m` with no return value, and every other template none. */
  ghost predicate Templated(table: PileTable, m: MethodDef, k: int)
    requires 0 <= k < |m.instructions| && |m.parameterTypes| <= m.registerCount
  {
    var instruction := m.instructions[k];
    var template := SimplifyGraph.TemplateFor(instruction);
    && instruction.address in table
    && (instruction.address != 0 ==> table[instruction.address] == [template])
    && (instruction.address == 0 ==>
          && |table[0]| == 1 && table[0][0].context.Some?
          && table[0][0] == template.(context := table[0][0].context)
          && RootLayout(m, table[0][0].context.value.registers) && table[0][0].context.value.returnRegister == None)
  }

  /** The graph stored for `m`: the method's descriptor, its instructions' addresses in
      order, its terminating addresses, and one template pile per instruction. */
  ghost predicate StoredFrom(graph: SimplifyGraph.ContextGraph, m: MethodDef)
    reads graph
  {
    && Loadable(m)
    && graph.methodDescriptor == MethodDescriptor(m)
    && graph.addresses == seq(|m.instructions|, k requires 0 <= k < |m.instructions| => m.instructions[k].address)
    && graph.terminatingAddresses == SimplifyGraph.TerminatingAddresses(m.instructions)
    && (forall k :: 0 <= k < |m.instructions| ==> Templated(graph.addressToNodePile, m, k))
  }

  /** The graph a method is stored with: built from its instructions, with the root
      context buildRootContext makes. A method without an instruction at address 0 has no
      root node, and setting the root context is a null dereference. */
  method NewGraph(m: MethodDef) returns (r: Outcome<SimplifyGraph.ContextGraph>)
    requires Buildable(m)
    ensures r.Failure? <==> !HasEntry(m)
    ensures r.Failure? ==> r.fault == MissingNode(0)
    ensures r.Success? ==>
      fresh(r.value) && r.value.Valid() && StoredFrom(r.value, m) && Executor.RootUnexpanded(r.value.addressToNodePile)
  {
    var graph := new SimplifyGraph.ContextGraph(MethodDescriptor(m), m.instructions);
    ghost var built := graph.addressToNodePile;
    var ctx := BuildRootContext(m);
    var rootFound := graph.SetRootContext(ctx.Snapshot());
    if !rootFound {
      forall k | 0 <= k < |m.instructions|
        ensures m.instructions[k].address != 0
      {
        assert m.instructions[k].address in built;
      }
      return Failure(MissingNode(0));
    }
    assert graph.addresses[..] == graph.addresses;
    var j :| 0 <= j < |graph.addresses| && graph.addresses[j] == 0;
    assert m.instructions[j].address == 0;
    forall k | 0 <= k < |m.instructions|
      ensures Templated(graph.addressToNodePile, m, k)
    {
      assert built[m.instructions[k].address] == [SimplifyGraph.TemplateFor(m.instructions[k])];
    }
    r := Success(graph);
  }

  /** The method whose graph loading the methods `methods` in order leaves under the
      descriptor `d`: the last one with that descriptor, since a later one replaces an
      earlier one. */
  function LatestIn(methods: seq<MethodDef>, d: string): (r: Option<MethodDef>)
    ensures r.Some? ==> MethodDescriptor(r.value) == d
    ensures r.None? ==> forall j :: 0 <= j < |methods| ==> MethodDescriptor(methods[j]) != d
  {
    if |methods| == 0 then None
    else if MethodDescriptor(methods[|methods| - 1]) == d then Some(methods[|methods| - 1])
    else LatestIn(methods[..|methods| - 1], d)
  }

  /** The latest method with a descriptor is one of the methods, and none after it has that
      descriptor. */
  lemma {:induction false} LatestInLast(methods: seq<MethodDef>, d: string) returns (j: nat)
    requires LatestIn(methods, d).Some?
    ensures j < |methods| && methods[j] == LatestIn(methods, d).value
    ensures forall j' :: j < j' < |methods| ==> MethodDescriptor(methods[j']) != d
  {
    var n := |methods| - 1;
    if MethodDescriptor(methods[n]) == d {
      j := n;
    } else {
      var front := methods[..n];
      j := LatestInLast(front, d);
      forall j' | j < j' < |methods|
        ensures MethodDescriptor(methods[j']) != d
      {
        if j' < n {
          assert front[j'] == methods[j'];
        }
      }
    }
  }

  /** The method whose graph loading the classes `classDefs` in order, each class's methods
      in order, leaves under the descriptor `d`. */
  function Latest(classDefs: seq<ClassDef>, d: string): (r: Option<MethodDef>)
    ensures r.Some? ==> MethodDescriptor(r.value) == d
    ensures r.None? ==>
      forall i, j :: 0 <= i < |classDefs| && 0 <= j < |classDefs[i].methods| ==> MethodDescriptor(classDefs[i].methods[j]) != d
  {
    if |classDefs| == 0 then None
    else
      var front := classDefs[..|classDefs| - 1];
      match LatestIn(classDefs[|classDefs| - 1].methods, d)
      case Some(m) => Some(m)
      case None =>
        assert forall i :: 0 <= i < |front| ==> front[i] == classDefs[i];
        Latest(front, d)
  }

  /** The latest method with a descriptor is a method of one of the classes, and no method
      after it, in that class or a later one, has that descriptor. */
  lemma {:induction false} LatestLast(classDefs: seq<ClassDef>, d: string) returns (i: nat, j: nat)
    requires Latest(classDefs, d).Some?
    ensures i < |classDefs| && j < |classDefs[i].methods| && classDefs[i].methods[j] == Latest(classDefs, d).value
    ensures forall j' :: j < j' < |classDefs[i].methods| ==> MethodDescriptor(classDefs[i].methods[j']) != d
    ensures forall i', j' :: i < i' < |classDefs| && 0 <= j' < |classDefs[i'].methods| ==>
      MethodDescriptor(classDefs[i'].methods[j']) != d
  {
    var n := |classDefs| - 1;
    if LatestIn(classDefs[n].methods, d).Some? {
      i := n;
      j := LatestInLast(classDefs[n].methods, d);
    } else {
      var front := classDefs[..n];
      i, j := LatestLast(front, d);
      assert front[i] == classDefs[i];
      forall i', j' | i < i' < |classDefs| && 0 <= j' < |classDefs[i'].methods|
        ensures MethodDescriptor(classDefs[i'].methods[j']) != d
      {
        if i' < n {
          assert front[i'] == classDefs[i'];
        }
      }
    }
  }

  /** What loading leaves under `d` once the classes `done` and then the methods `partial` of
      the next class are loaded. */
  function Loading(done: seq<ClassDef>, partial: seq<MethodDef>, d: string): Option<MethodDef>
  {
    match LatestIn(partial, d)
    case Some(m) => Some(m)
    case None => Latest(done, d)
  }

  /** Loading one more method puts it under its descriptor and leaves every other alone. */
  lemma LoadingStep(done: seq<ClassDef>, methods: seq<MethodDef>, j: nat, d: string)
    requires j < |methods|
    ensures Loading(done, methods[..j + 1], d) ==
      if MethodDescriptor(methods[j]) == d then Some(methods[j]) else Loading(done, methods[..j], d)
  {
    assert methods[..j + 1][..j] == methods[..j];
  }

  /** Loading all methods of the next class is loading one more class. */
  lemma LoadingClass(classDefs: seq<ClassDef>, i: nat, d: string)
    requires i < |classDefs|
    ensures Latest(classDefs[..i + 1], d) == Loading(classDefs[..i], classDefs[i].methods, d)
  {
    assert classDefs[..i + 1][..i] == classDefs[..i];
    assert classDefs[i].methods[..|classDefs[i].methods|] == classDefs[i].methods;
  }

  /** How execute reports a run of the executor on the piles `table` from `mctx`: the run is
      the executor's (`Executor.Executed`, with record `trace` and outcome `outcome`); a
      finished run gives the graph, hitting the node-visit ceiling gives null (NoGraph), and
      any other exception escapes (Crash). */
  ghost predicate Reported(table: PileTable, mctx: Option<Context>, maxNodeVisits: int,
                           result: ExecResult, outcome: Executor.ExecOutcome, trace: Executor.Trace)
  {
    && Executor.Executed(table, mctx, maxNodeVisits, trace, outcome)
    && (result.Graph? <==> outcome.Finished?)
    && (result.NoGraph? <==> outcome.MaxNodeVisitsExceeded?)
    && (outcome.Crashed? ==> result == Crash(outcome.fault))
  }

  /** What execute(methodDescriptor) reports for a stored method, with piles `table`, whose
      class is already initialized: a graph without a root is a null dereference, and
      otherwise the executor runs the piles from the root's context (`run`, recorded in
      `trace`). */
  ghost predicate StoredReport(table: PileTable, maxNodeVisits: int, result: ExecResult,
                               run: Option<Executor.ExecOutcome>, trace: Executor.Trace)
  {
    && (run.None? <==> SimplifyGraph.RootNode(table).None?)
    && (run.None? ==> result == Crash(MissingNode(0)))
    && (run.Some? ==>
          Reported(table, SimplifyGraph.RootNode(table).value.context, maxNodeVisits, result, run.value, trace))
  }

  /** The ghost record of a static initializer's execute: the piles of the `<clinit>` graph,
      what execute returned, the executor's outcome when the executor ran, and the run's
      record. */
  datatype Initialization = Initialization(table: PileTable, result: ExecResult, run: Option<Executor.ExecOutcome>,
                                           trace: Executor.Trace)

  /** A recorded initializer run is reported as the stored run of its piles. */
  ghost predicate InitializerReported(init: Option<Initialization>, maxNodeVisits: int)
  {
    init.Some? ==> StoredReport(init.value.table, maxNodeVisits, init.value.result, init.value.run, init.value.trace)
  }

  /** The initializer failed: its exception escapes to whoever triggered it. */
  ghost predicate InitializerFailed(init: Option<Initialization>)
  {
    init.Some? && init.value.result.Crash?
  }

  /** The executor's run on a graph of its own, as execute reports it: a finished run hands
      the graph back, hitting the node-visit ceiling gives null (NoGraph), and any other
      exception escapes (Crash). */
  method RunGraph(graph: SimplifyGraph.ContextGraph, mctx: Option<Context>, maxNodeVisits: int)
    returns (result: ExecResult, outcome: Executor.ExecOutcome, ghost trace: Executor.Trace)
    requires graph.Valid() && Executor.RootUnexpanded(graph.addressToNodePile)
    modifies graph
    ensures graph.Valid()
    ensures Reported(old(graph.addressToNodePile), mctx, maxNodeVisits, result, outcome, trace)
    ensures trace.table == graph.addressToNodePile
    ensures result.Graph? ==> result.graph == graph
  {
    outcome, trace := Executor.Execute(graph, mctx, maxNodeVisits);
    result := match outcome
      case Finished => Graph(graph)
      case MaxNodeVisitsExceeded(_) => NoGraph
      case Crashed(f) => Crash(f);
  }

  class VirtualMachine {
    /** methodDescriptorToInstructionGraph. */
    var graphs: map<string, SimplifyGraph.ContextGraph>
    /** The keys of `graphs` in the order they were first added. */
    ghost var descriptors: seq<string>
    var initializedClasses: seq<string>
    /** The classes whose static initializer has run, in order. */
    ghost var clinitRuns: seq<string>
    /** classNameToClassContext, which is never filled. */
    const classContexts: map<string, ClassContext>
    const maxNodeVisits: int
    const maxCallDepth: int

    /** Every stored graph is well formed and has never been run (its root has no
        children), the descriptor list enumerates the keys, no
        class is initialized twice and every initializer that ran belongs to an initialized
        class. */
    ghost predicate Valid()
      reads this, graphs.Values
    {
      && (forall d :: d in graphs ==> graphs[d].Valid())
      && (forall d :: d in graphs ==> Executor.RootUnexpanded(graphs[d].addressToNodePile))
      && (forall d :: d in graphs <==> d in descriptors)
      && NoDup(initializedClasses)
      && NoDup(clinitRuns)
      && (forall k :: 0 <= k < |clinitRuns| ==> clinitRuns[k] in initializedClasses)
    }

    /** What remains to be initialized: the measure of the initialization recursion. */
    ghost function Pending(): nat
      reads this
    {
      Uninitialized(descriptors, initializedClasses)
    }

    /** The method has a stored graph with a root node. */
    ghost predicate HasRoot(descriptor: string)
      reads this, graphs.Values
    {
      descriptor in graphs && SimplifyGraph.RootNode(graphs[descriptor].addressToNodePile).Some?
    }

    /** The initializer runs recorded when the class of `descriptor` is initialized now. */
    ghost function InitializerRun(descriptor: string): seq<string>
      reads this
    {
      var c := ClassName(descriptor);
      if c !in initializedClasses && ClinitDescriptor(c) in graphs then [c] else []
    }

    /** The recorded initializer ran on the stored graph of the class's `<clinit>`. */
    ghost predicate InitializerStored(descriptor: string, init: Option<Initialization>)
      reads this, graphs.Values
    {
      init.Some? ==>
        var clinit := ClinitDescriptor(ClassName(descriptor));
        clinit in graphs && init.value.table == graphs[clinit].addressToNodePile
    }

    /** The stored graphs are what loading the classes `done` and then the methods `partial`
        leaves: a graph under exactly the descriptors loading gives a method for, each
        stored from that method. */
    ghost predicate Loads(done: seq<ClassDef>, partial: seq<MethodDef>)
      reads this, graphs.Values
    {
      && (forall d :: d in graphs <==> Loading(done, partial, d).Some?)
      && (forall d :: d in graphs ==> StoredFrom(graphs[d], Loading(done, partial, d).value))
    }

    /** new VirtualMachine(classDefs, maxNodeVisits, maxCallDepth): one graph per method,
        each with its root context, loaded class by class and method by method, so that a
        descriptor keeps the graph of its latest method; no class initialized yet. */
    constructor (classDefs: seq<ClassDef>, maxNodeVisits: int, maxCallDepth: int)
      requires AllLoadable(classDefs)
      ensures Valid()
      ensures this.maxNodeVisits == maxNodeVisits && this.maxCallDepth == maxCallDepth
      ensures initializedClasses == [] && clinitRuns == []
      ensures forall c :: c !in classContexts
      ensures forall d :: d in graphs <==> Latest(classDefs, d).Some?
      ensures forall d :: d in graphs ==> StoredFrom(graphs[d], Latest(classDefs, d).value)
      ensures forall d :: d in graphs ==> fresh(graphs[d])
    {
      this.maxNodeVisits := maxNodeVisits;
      this.maxCallDepth := maxCallDepth;
      classContexts := map[];
      initializedClasses := [];
      clinitRuns := [];
      graphs := map[];
      descriptors := [];
      new;
      for i := 0 to |classDefs|
        invariant Valid() && initializedClasses == [] && clinitRuns == []
        invariant Loads(classDefs[..i], [])
        invariant forall d :: d in graphs ==> fresh(graphs[d])
      {
        LoadClass(classDefs[..i], classDefs[i].methods);
        forall d {
          LoadingClass(classDefs, i, d);
        }
      }
      assert classDefs[..|classDefs|] == classDefs;
    }

    /** The inner loop of buildMethodDescriptorToInstructionGraph: the methods of one class,
        in order, after the classes `done`. */
    method LoadClass(ghost done: seq<ClassDef>, methods: seq<MethodDef>)
      requires Valid() && Loads(done, [])
      requires forall j :: 0 <= j < |methods| ==> Loadable(methods[j])
      modifies this
      ensures Valid() && Loads(done, methods)
      ensures initializedClasses == old(initializedClasses) && clinitRuns == old(clinitRuns)
      ensures forall d :: d in graphs ==> fresh(graphs[d]) || (d in old(graphs) && graphs[d] == old(graphs)[d])
    {
      for j := 0 to |methods|
        invariant Valid() && Loads(done, methods[..j])
        invariant initializedClasses == old(initializedClasses) && clinitRuns == old(clinitRuns)
        invariant forall d :: d in graphs ==> fresh(graphs[d]) || (d in old(graphs) && graphs[d] == old(graphs)[d])
      {
        LoadMethod(done, methods, j);
      }
      assert methods[..|methods|] == methods;
    }

    /** One turn of that loop: the graph of `methods[j]` goes under its descriptor. */
    method LoadMethod(ghost done: seq<ClassDef>, methods: seq<MethodDef>, j: nat)
      requires Valid() && j < |methods| && Loadable(methods[j]) && Loads(done, methods[..j])
      modifies this
      ensures Valid() && Loads(done, methods[..j + 1])
      ensures initializedClasses == old(initializedClasses) && clinitRuns == old(clinitRuns)
      ensures forall d :: d in graphs ==> fresh(graphs[d]) || (d in old(graphs) && graphs[d] == old(graphs)[d])
    {
      ghost var before := graphs;
      var fault := UpdateInstructionGraph(methods[j]);
      assert fault == None;
      forall d | d in before
        ensures StoredFrom(before[d], Loading(done, methods[..j], d).value)
      {
        assert old(StoredFrom(before[d], Loading(done, methods[..j], d).value));
      }
      LoadedAfter(done, methods, j, before);
    }

    /** Storing the graph of `methods[j]` over the graphs `before` that loading `done` and
        `methods[..j]` left moves the load state one method further. */
    lemma LoadedAfter(done: seq<ClassDef>, methods: seq<MethodDef>, j: nat, before: map<string, SimplifyGraph.ContextGraph>)
      requires j < |methods|
      requires forall d :: d in before <==> Loading(done, methods[..j], d).Some?
      requires forall d :: d in before ==> StoredFrom(before[d], Loading(done, methods[..j], d).value)
      requires MethodDescriptor(methods[j]) in graphs && StoredFrom(graphs[MethodDescriptor(methods[j])], methods[j])
      requires forall d :: d != MethodDescriptor(methods[j]) ==> (d in graphs <==> d in before)
      requires forall d :: d in graphs && d != MethodDescriptor(methods[j]) ==> graphs[d] == before[d]
      ensures Loads(done, methods[..j + 1])
    {
      forall d | d in graphs
        ensures Loading(done, methods[..j + 1], d).Some?
        ensures StoredFrom(graphs[d], Loading(done, methods[..j + 1], d).value)
      {
        LoadingStep(done, methods, j, d);
      }
      forall d | Loading(done, methods[..j + 1], d).Some?
        ensures d in graphs
      {
        LoadingStep(done, methods, j, d);
      }
    }

    /** updateInstructionGraph: a fresh graph for the method, with its root context, stored
        under the method's descriptor; every other entry stays. A method without an entry
        instruction fails while its root context is set, before anything is stored. */
    method UpdateInstructionGraph(m: MethodDef) returns (fault: Option<Fault>)
      requires Valid() && Buildable(m)
      modifies this
      ensures Valid()
      ensures initializedClasses == old(initializedClasses) && clinitRuns == old(clinitRuns)
      ensures fault.Some? <==> !HasEntry(m)
      ensures fault.Some? ==>
        fault.value == MissingNode(0) && graphs == old(graphs) && descriptors == old(descriptors)
      ensures fault.None? ==> MethodDescriptor(m) in graphs && fresh(graphs[MethodDescriptor(m)])
      ensures forall d :: d != MethodDescriptor(m) ==> (d in graphs <==> d in old(graphs))
      ensures forall d :: d in graphs && d != MethodDescriptor(m) ==> graphs[d] == old(graphs)[d]
      ensures fault.None? ==> StoredFrom(graphs[MethodDescriptor(m)], m)
    {
      var descriptor := MethodDescriptor(m);
      var built := NewGraph(m);
      if built.Failure? {
        return Some(built.fault);
      }
      fault := None;
      var graph := built.value;
      graphs := graphs[descriptor := graph];
      if descriptor !in descriptors {
        descriptors := descriptors + [descriptor];
      }
    }

    /** isMethodDefined. */
    function IsMethodDefined(descriptor: string): (r: bool)
      reads this, graphs.Values
      requires Valid()
      ensures r <==> descriptor in descriptors
    {
      descriptor in graphs
    }

    /** getInstructionGraph: a copy of the stored graph, None (a null dereference in the
        source) when the method has none. */
    method GetInstructionGraph(descriptor: string) returns (copy: Option<SimplifyGraph.ContextGraph>)
      requires Valid()
      ensures copy.None? <==> descriptor !in graphs
      ensures copy.Some? ==>
        (fresh(copy.value) && copy.value.Valid()
         && copy.value.methodDescriptor == graphs[descriptor].methodDescriptor
         && copy.value.addresses == graphs[descriptor].addresses
         && (forall a :: a in copy.value.addressToNodePile <==> a in graphs[descriptor].addressToNodePile)
         && (forall a :: a in copy.value.addressToNodePile ==> copy.value.addressToNodePile[a] == graphs[descriptor].addressToNodePile[a]))
    {
      if descriptor !in graphs {
        return None;
      }
      var graph := new SimplifyGraph.ContextGraph.Copy(graphs[descriptor]);
      return Some(graph);
    }

    /** staticallyInitializeMethodClassIfNecessary: the first use of a class marks it as
        initialized and then, when the class has a static initializer, runs it; a class
        already marked is left alone. */
    method StaticallyInitialize(descriptor: string) returns (fault: Option<Fault>, ghost init: Option<Initialization>)
      requires Valid()
      modifies this
      decreases Pending(), 0
      ensures Valid()
      ensures graphs == old(graphs) && descriptors == old(descriptors)
      ensures initializedClasses == Mark(old(initializedClasses), ClassName(descriptor))
      ensures clinitRuns == old(clinitRuns) + old(InitializerRun(descriptor))
      ensures init.Some? <==> old(InitializerRun(descriptor)) != []
      ensures InitializerStored(descriptor, init) && InitializerReported(init, maxNodeVisits)
      ensures fault.Some? <==> InitializerFailed(init)
      ensures fault.Some? ==> fault.value == init.value.result.fault
    {
      init := None;
      var className := ClassName(descriptor);
      if className in initializedClasses {
        return None, None;
      }
      ghost var pending := Pending();
      initializedClasses := initializedClasses + [className];
      var clinit := ClinitDescriptor(className);
      if clinit !in graphs {
        return None, None;
      }
      clinitRuns := clinitRuns + [className];
      ClinitOfSameClass(descriptor);
      MarkLowersUninitialized(descriptors, old(initializedClasses), className);
      var result;
      ghost var run, nested, trace;
      result, run, nested, trace := ExecuteStored(clinit);
      init := Some(Initialization(graphs[clinit].addressToNodePile, result, run, trace));
      fault := if result.Crash? then Some(result.fault) else None;
    }

    /** execute(methodDescriptor): runs the method from the context held by its stored
        graph's root; a missing method or root is a null dereference, before anything is
        initialized. */
    method ExecuteStored(descriptor: string)
      returns (result: ExecResult, ghost run: Option<Executor.ExecOutcome>, ghost init: Option<Initialization>,
               ghost trace: Executor.Trace)
      requires Valid()
      modifies this
      decreases Pending(), 2
      ensures Valid()
      ensures graphs == old(graphs) && descriptors == old(descriptors)
      ensures descriptor !in graphs ==> result == Crash(UndefinedMethod(descriptor)) && run.None? && init.None?
      ensures descriptor in graphs && !HasRoot(descriptor) ==> result == Crash(MissingNode(0)) && run.None? && init.None?
      ensures !HasRoot(descriptor) ==>
        initializedClasses == old(initializedClasses) && clinitRuns == old(clinitRuns)
      ensures HasRoot(descriptor) ==>
        (initializedClasses == Mark(old(initializedClasses), ClassName(descriptor))
         && clinitRuns == old(clinitRuns) + old(InitializerRun(descriptor))
         && (init.Some? <==> old(InitializerRun(descriptor)) != []))
      ensures InitializerStored(descriptor, init) && InitializerReported(init, maxNodeVisits)
      ensures InitializerFailed(init) ==> run.None? && result == init.value.result
      ensures HasRoot(descriptor) && !InitializerFailed(init) ==>
        run.Some? && Reported(graphs[descriptor].addressToNodePile, graphs[descriptor].RootContext(), maxNodeVisits,
                              result, run.value, trace)
    {
      trace := Executor.Trace(map[], map[], [], [], map[]);
      if descriptor !in graphs {
        return Crash(UndefinedMethod(descriptor)), None, None, trace;
      }
      if SimplifyGraph.RootNode(graphs[descriptor].addressToNodePile).None? {
        return Crash(MissingNode(0)), None, None, trace;
      }
      var mctx := graphs[descriptor].RootContext();
      result, run, init, trace := Execute(descriptor, mctx);
    }

    /** execute(methodDescriptor, mctx): initializes the method's class, then runs the
        executor on a copy of the method's graph. `init` records the class's initializer
        when it ran now, and an exception it raised escapes before anything else happens.
        `run` is the executor's outcome when it ran, as `Reported` states it for the record
        `trace`: hitting the node-visit ceiling gives null (NoGraph), any other exception
        escapes (Crash), and a finished run gives the explored copy. */
    method Execute(descriptor: string, mctx: Option<Context>)
      returns (result: ExecResult, ghost run: Option<Executor.ExecOutcome>, ghost init: Option<Initialization>,
               ghost trace: Executor.Trace)
      requires Valid()
      modifies this
      decreases Pending(), 1
      ensures Valid()
      ensures graphs == old(graphs) && descriptors == old(descriptors)
      ensures initializedClasses == Mark(old(initializedClasses), ClassName(descriptor))
      ensures clinitRuns == old(clinitRuns) + old(InitializerRun(descriptor))
      ensures init.Some? <==> old(InitializerRun(descriptor)) != []
      ensures InitializerStored(descriptor, init) && InitializerReported(init, maxNodeVisits)
      ensures InitializerFailed(init) ==> run.None? && result == init.value.result
      ensures !InitializerFailed(init) && descriptor !in graphs ==>
        run.None? && result == Crash(UndefinedMethod(descriptor))
      ensures !InitializerFailed(init) && descriptor in graphs ==>
        run.Some? && Reported(graphs[descriptor].addressToNodePile, mctx, maxNodeVisits, result, run.value, trace)
      ensures result.Graph? ==>
        (descriptor in graphs && fresh(result.graph) && result.graph.Valid()
         && result.graph.methodDescriptor == graphs[descriptor].methodDescriptor
         && result.graph.addressToNodePile == trace.table)
    {
      var fault;
      fault, init := StaticallyInitialize(descriptor);
      if fault.Some? {
        return Crash(fault.value), None, init, Executor.Trace(map[], map[], [], [], map[]);
      }
      result, run, trace := ExecuteCopy(descriptor, mctx);
    }

    /** The executor's execute(methodDescriptor, mctx) as the machine sees it: it takes a copy
        of the method's graph, which is a null dereference when the method has none, and runs
        the executor on the copy; the machine's own state is left alone. */
    method ExecuteCopy(descriptor: string, mctx: Option<Context>)
      returns (result: ExecResult, ghost run: Option<Executor.ExecOutcome>, ghost trace: Executor.Trace)
      requires Valid()
      ensures descriptor !in graphs ==> run.None? && result == Crash(UndefinedMethod(descriptor))
      ensures descriptor in graphs ==>
        run.Some? && Reported(graphs[descriptor].addressToNodePile, mctx, maxNodeVisits, result, run.value, trace)
      ensures result.Graph? ==>
        (descriptor in graphs && fresh(result.graph) && result.graph.Valid()
         && result.graph.methodDescriptor == graphs[descriptor].methodDescriptor
         && result.graph.addressToNodePile == trace.table)
    {
      trace := Executor.Trace(map[], map[], [], [], map[]);
      var copy := GetInstructionGraph(descriptor);
      if copy.None? {
        return Crash(UndefinedMethod(descriptor)), None, trace;
      }
      var graph := copy.value;
      ghost var table := graphs[descriptor].addressToNodePile;
      SameTable(graph.addressToNodePile, table);
      var outcome;
      result, outcome, trace := RunGraph(graph, mctx, maxNodeVisits);
      run := Some(outcome);
      assert graphs[descriptor].addressToNodePile == table;
    }

    /** getClassExecutionContext: initializes the class, then looks up its class context. */
    method GetClassExecutionContext(descriptor: string)
      returns (fault: Option<Fault>, context: Option<ClassContext>, ghost init: Option<Initialization>)
      requires Valid()
      modifies this
      ensures Valid()
      ensures graphs == old(graphs) && descriptors == old(descriptors)
      ensures initializedClasses == Mark(old(initializedClasses), ClassName(descriptor))
      ensures clinitRuns == old(clinitRuns) + old(InitializerRun(descriptor))
      ensures init.Some? <==> old(InitializerRun(descriptor)) != []
      ensures InitializerStored(descriptor, init) && InitializerReported(init, maxNodeVisits)
      ensures fault.Some? <==> InitializerFailed(init)
      ensures fault.Some? ==> fault.value == init.value.result.fault
      ensures context.Some? ==> fault == None && ClassName(descriptor) in classContexts && context.value == classContexts[ClassName(descriptor)]
      ensures fault == None && ClassName(descriptor) in classContexts ==> context.Some?
      ensures ClassName(descriptor) in old(initializedClasses) ==> fault == None
    {
      fault, init := StaticallyInitialize(descriptor);
      if fault.Some? {
        return fault, None, init;
      }
      var className := ClassName(descriptor);
      context := if className in classContexts then Some(classContexts[className]) else None;
    }
  }

  /** new VirtualMachine(classDefs, maxNodeVisits, maxCallDepth): building the graphs sets
      each method's root context, which is a null dereference for a method without an
      instruction at address 0, so the constructor throws and no machine exists; otherwise
      the machine is the one the constructor describes. */
  method NewVirtualMachine(classDefs: seq<ClassDef>, maxNodeVisits: int, maxCallDepth: int)
    returns (r: Outcome<VirtualMachine>)
    requires forall i, j :: 0 <= i < |classDefs| && 0 <= j < |classDefs[i].methods| ==> Buildable(classDefs[i].methods[j])
    ensures r.Failure? <==>
      exists i, j :: 0 <= i < |classDefs| && 0 <= j < |classDefs[i].methods| && !HasEntry(classDefs[i].methods[j])
    ensures r.Failure? ==> r.fault == MissingNode(0)
    ensures r.Success? ==>
      && fresh(r.value) && r.value.Valid()
      && r.value.maxNodeVisits == maxNodeVisits && r.value.maxCallDepth == maxCallDepth
      && r.value.initializedClasses == [] && r.value.clinitRuns == []
      && (forall d :: d in r.value.graphs <==> Latest(classDefs, d).Some?)
      && (forall d :: d in r.value.graphs ==> StoredFrom(r.value.graphs[d], Latest(classDefs, d).value))
  {
    if !AllLoadable(classDefs) {
      return Failure(MissingNode(0));
    }
    var vm := new VirtualMachine(classDefs, maxNodeVisits, maxCallDepth);
    r := Success(vm);
  }
}
