/** The per-method execution graph keyed by instruction index (refactor.vm.ContextGraph):
    a pile per instruction index, the index-to-address table, and the queries of the
    optimiser. */
module RefactorGraph {
  import opened Values
  import opened Instructions
  import opened Handlers
  import opened Nodes

  /** Instruction locations are numbered by position in the method's list. */
  predicate WellIndexed(instructions: seq<Instruction>)
  {
    forall k :: 0 <= k < |instructions| ==> instructions[k].index == k
  }

  /** The template node for an instruction: its handler, created with the instruction's index. */
  function IndexTemplate(instruction: Instruction): ContextNode
  {
    NewNode(CreateHandler(instruction, instruction.index))
  }

  /** buildIndexToAddress: index k maps to the code address of instruction k. */
  method BuildIndexToAddress(instructions: seq<Instruction>) returns (table: map<int, int>)
    requires WellIndexed(instructions)
    ensures forall k :: k in table <==> 0 <= k < |instructions|
    ensures forall k :: 0 <= k < |instructions| ==> table[k] == instructions[k].address
  {
    table := map[];
    for k := 0 to |instructions|
      invariant forall j :: j in table <==> 0 <= j < k
      invariant forall j :: 0 <= j < k ==> table[j] == instructions[j].address
    {
      table := table[instructions[k].index := instructions[k].address];
    }
  }

  /** buildIndexToNodePile: one pile per index, holding only the template of that instruction. */
  method BuildIndexToNodePile(instructions: seq<Instruction>) returns (piles: seq<seq<ContextNode>>)
    requires WellIndexed(instructions)
    ensures |piles| == |instructions|
    ensures forall k :: 0 <= k < |instructions| ==> piles[k] == [IndexTemplate(instructions[k])]
  {
    piles := [];
    for k := 0 to |instructions|
      invariant |piles| == k
      invariant forall j :: 0 <= j < k ==> piles[j] == [IndexTemplate(instructions[j])]
    {
      piles := piles + [[IndexTemplate(instructions[k])]];
    }
  }

  /** TIntIntHashMap.get: a missing key reads as 0. */
  function LookupOrZero(table: map<int, int>, key: int): (r: int)
    ensures key !in table ==> r == 0
    ensures key in table ==> r == table[key]
  {
    if key in table then table[key] else 0
  }

  /** The first index i in [from, count) whose address is `address`. */
  function IndexOfAddress(indexToAddress: map<int, int>, address: int, from: nat, count: nat): (r: Option<nat>)
    decreases count - from
    ensures r.Some? ==> from <= r.value < count && r.value in indexToAddress && indexToAddress[r.value] == address
    ensures r.Some? ==> forall i :: from <= i < r.value ==> !(i in indexToAddress && indexToAddress[i] == address)
    ensures r.None? ==> forall i :: from <= i < count ==> !(i in indexToAddress && indexToAddress[i] == address)
  {
    if from >= count then None
    else if from in indexToAddress && indexToAddress[from] == address then Some(from)
    else IndexOfAddress(indexToAddress, address, from + 1, count)
  }

  class ContextGraph {
    const indexToAddress: map<int, int>
    var indexToNodePile: seq<seq<ContextNode>>
    const methodDescriptor: string

    /** Every pile keeps its template, and every index has an address. */
    ghost predicate Valid()
      reads this
    {
      && (forall i :: 0 <= i < |indexToNodePile| ==> |indexToNodePile[i]| > 0)
      && (forall i :: i in indexToAddress <==> 0 <= i < |indexToNodePile|)
    }

    /** Builds the graph from a method's instructions: a template per index and the index's address. */
    constructor (methodDescriptor: string, instructions: seq<Instruction>)
      requires WellIndexed(instructions)
      ensures Valid()
      ensures this.methodDescriptor == methodDescriptor
      ensures |indexToNodePile| == |instructions|
      ensures forall k :: 0 <= k < |instructions| ==> indexToNodePile[k] == [IndexTemplate(instructions[k])]
      ensures forall k :: 0 <= k < |instructions| ==> indexToAddress[k] == instructions[k].address
    {
      this.methodDescriptor := methodDescriptor;
      var addresses := BuildIndexToAddress(instructions);
      var piles := BuildIndexToNodePile(instructions);
      indexToAddress := addresses;
      indexToNodePile := piles;
    }

    /** The copy constructor: the same descriptor and address table, and each pile copied
        index by index into a pile of its own. Nodes are values, so a copied node equals
        its original. */
    constructor Copy(other: ContextGraph)
      requires other.Valid()
      ensures Valid()
      ensures methodDescriptor == other.methodDescriptor
      ensures indexToAddress == other.indexToAddress
      ensures indexToNodePile == other.indexToNodePile
    {
      methodDescriptor := other.methodDescriptor;
      indexToAddress := other.indexToAddress;
      var source := other.indexToNodePile;
      var piles: seq<seq<ContextNode>> := [];
      for i := 0 to |source|
        invariant piles == source[..i]
      {
        var pile := CopyPile(source[i]);
        piles := piles + [pile];
      }
      assert source[..|source|] == source;
      indexToNodePile := piles;
    }

    /** getNodeCount. */
    function NodeCount(): (r: nat)
      reads this
      ensures r == |indexToNodePile|
    {
      |indexToNodePile|
    }

    /** getNodePileByIndex: the pile without its template. None: no pile at that index, or
        an empty one (the source fails). */
    function NodePileByIndex(index: int): (r: Option<seq<ContextNode>>)
      reads this
      ensures r.Some? <==> 0 <= index < |indexToNodePile| && |indexToNodePile[index]| > 0
      ensures r.Some? ==> [indexToNodePile[index][0]] + r.value == indexToNodePile[index]
    {
      if 0 <= index < |indexToNodePile| && |indexToNodePile[index]| > 0 then
        assert [indexToNodePile[index][0]] + indexToNodePile[index][1..] == indexToNodePile[index];
        Some(indexToNodePile[index][1..])
      else None
    }

    /** getTemplateNodeByIndex: the first node of a pile. */
    function TemplateNodeByIndex(index: int): (r: Option<ContextNode>)
      reads this
      ensures r.Some? <==> 0 <= index < |indexToNodePile| && |indexToNodePile[index]| > 0
      ensures r.Some? ==> r.value == indexToNodePile[index][0]
    {
      if 0 <= index < |indexToNodePile| && |indexToNodePile[index]| > 0 then Some(indexToNodePile[index][0]) else None
    }

    /** getNodePileByAddress, as written: the address itself is looked up in the
        index-to-address table, as if it were an index. */
    function NodePileByAddress(address: int): (r: Option<seq<ContextNode>>)
      reads this
      ensures address in indexToAddress ==> r == NodePileByIndex(indexToAddress[address])
      ensures address !in indexToAddress ==> r == NodePileByIndex(0)
      ensures r.Some? ==> TemplateNodeByAddress(address).Some?
      ensures r.Some? ==> [TemplateNodeByAddress(address).value] + r.value == indexToNodePile[LookupOrZero(indexToAddress, address)]
    {
      NodePileByIndex(LookupOrZero(indexToAddress, address))
    }

    /** getTemplateNodeByAddress, as written: the same lookup as getNodePileByAddress. */
    function TemplateNodeByAddress(address: int): (r: Option<ContextNode>)
      reads this
      ensures address in indexToAddress ==> r == TemplateNodeByIndex(indexToAddress[address])
      ensures address !in indexToAddress ==> r == RootNode()
    {
      TemplateNodeByIndex(LookupOrZero(indexToAddress, address))
    }

    /** The pile of the instruction at a code address: the address is mapped back to its index. */
    function NodePileByAddressIntended(address: int): Option<seq<ContextNode>>
      reads this
    {
      match IndexOfAddress(indexToAddress, address, 0, |indexToNodePile|)
      case None => None
      case Some(index) => NodePileByIndex(index)
    }

    /** getRootNode: the first node of pile 0. */
    function RootNode(): (r: Option<ContextNode>)
      reads this
      ensures r == TemplateNodeByIndex(0)
    {
      if 0 < |indexToNodePile| && |indexToNodePile[0]| > 0 then Some(indexToNodePile[0][0]) else None
    }

    /** getTerminalIndicies: not implemented in the source, always empty. */
    function TerminalIndices(): (r: seq<int>)
      reads this
      ensures |r| == 0
    {
      []
    }

    /** isInstructionReachable: index 0 always; otherwise the pile holds a clone besides
        its template. None: no pile at that index (the source fails). */
    function IsInstructionReachable(index: int): (r: Option<bool>)
      reads this
      ensures index == 0 ==> r == Some(true)
      ensures index != 0 ==> (r.Some? <==> 0 <= index < |indexToNodePile|)
    {
      if index == 0 then Some(true)
      else if 0 <= index < |indexToNodePile| then Some(|indexToNodePile[index]| > 1)
      else None
    }

    /** setRootContext: gives the root node a context; nothing else changes. */
    method SetRootContext(ctx: Context) returns (rootFound: bool)
      requires Valid()
      modifies this
      ensures Valid()
      ensures rootFound == (0 < |old(indexToNodePile)|)
      ensures rootFound ==>
        (indexToNodePile == old(indexToNodePile)[0 := old(indexToNodePile)[0][0 := old(indexToNodePile)[0][0].(context := Some(ctx))]])
      ensures !rootFound ==> indexToNodePile == old(indexToNodePile)
    {
      rootFound := 0 < |indexToNodePile|;
      if rootFound {
        var pile := indexToNodePile[0];
        indexToNodePile := indexToNodePile[0 := pile[0 := pile[0].(context := Some(ctx))]];
      }
    }
  }

  /** Reachability means a clone in the pile: getNodePileByIndex is non-empty. */
  lemma ReachableIffClone(g: ContextGraph, index: int)
    requires g.Valid() && 0 < index < g.NodeCount()
    ensures g.IsInstructionReachable(index) == Some(g.NodePileByIndex(index).value != [])
  {
    assert [g.indexToNodePile[index][0]] + g.NodePileByIndex(index).value == g.indexToNodePile[index];
  }

  /** Right after construction only the root index counts as reached, and every pile by
      index is empty. */
  lemma FreshGraphUnreached(g: ContextGraph, instructions: seq<Instruction>, index: int)
    requires |g.indexToNodePile| == |instructions|
    requires forall k :: 0 <= k < |instructions| ==> g.indexToNodePile[k] == [IndexTemplate(instructions[k])]
    requires 0 <= index < |instructions|
    ensures g.IsInstructionReachable(index) == Some(index == 0)
    ensures g.NodePileByIndex(index) == Some([])
    ensures g.TemplateNodeByIndex(index) == Some(IndexTemplate(instructions[index]))
  {
    assert [IndexTemplate(instructions[index])][1..] == [];
  }

  /** The template and the pile looked up by address come from the same index: both exist
      or neither does, and together they make up that index's whole pile. */
  lemma TemplateAndPileByAddress(g: ContextGraph, address: int)
    ensures g.TemplateNodeByAddress(address).Some? <==> g.NodePileByAddress(address).Some?
    ensures g.NodePileByAddress(address).Some? ==>
      [g.TemplateNodeByAddress(address).value] + g.NodePileByAddress(address).value
        == g.indexToNodePile[LookupOrZero(g.indexToAddress, address)]
  {
  }

  /** The intended lookup finds the pile of the instruction at that address whenever the
      addresses differ from each other. */
  lemma NodePileByAddressIntendedFinds(g: ContextGraph, index: int)
    requires g.Valid() && 0 <= index < g.NodeCount()
    requires forall i, j :: 0 <= i < j < g.NodeCount() ==> g.indexToAddress[i] != g.indexToAddress[j]
    ensures g.NodePileByAddressIntended(g.indexToAddress[index]) == g.NodePileByIndex(index)
  {
    var r := IndexOfAddress(g.indexToAddress, g.indexToAddress[index], 0, |g.indexToNodePile|);
    assert r.Some?;
  }

  /** As written and intended agree where every instruction sits at the address equal to
      its index (all one code unit wide). */
  lemma NodePileByAddressAgreesOnUnitWidth(g: ContextGraph, index: int)
    requires g.Valid() && 0 <= index < g.NodeCount()
    requires forall i :: 0 <= i < g.NodeCount() ==> g.indexToAddress[i] == i
    ensures g.NodePileByAddress(index) == g.NodePileByAddressIntended(index) == g.NodePileByIndex(index)
  {
    NodePileByAddressIntendedFinds(g, index);
  }

  /** Instructions at addresses 0, 1 and 3: asking for the pile at address 3 reads index 3,
      which has no entry and so reads as index 0, the root's pile, instead of the pile of
      index 2. */
  lemma NodePileByAddressCounterexample(g: ContextGraph)
    requires g.indexToAddress == map[0 := 0, 1 := 1, 2 := 3]
    requires |g.indexToNodePile| == 3
    requires |g.indexToNodePile[0]| == 2 && |g.indexToNodePile[2]| == 1
    ensures g.NodePileByAddress(3) == g.NodePileByIndex(0)
    ensures g.NodePileByAddressIntended(3) == g.NodePileByIndex(2) == Some([])
    ensures g.NodePileByAddress(3) != g.NodePileByAddressIntended(3)
  {
    assert IndexOfAddress(g.indexToAddress, 3, 0, 3) == Some(2);
    assert |g.NodePileByIndex(0).value| == 1;
    assert |g.NodePileByIndex(2).value| == 0;
  }
}
