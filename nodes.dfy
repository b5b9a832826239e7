/** Execution nodes (ContextNode) kept in per-address piles: nodes are values in an
    arena, and a child is referred to by its pile key and its position in that pile. */
module Nodes {
  import opened Values
  import opened Handlers

  /** A node's place: pile key and position in the pile. */
  datatype NodeRef = NodeRef(address: int, position: nat)

  /** address, handler, optional context (templates have none) and children. */
  datatype ContextNode = ContextNode(address: int, handler: Handler, context: Option<Context>, children: seq<NodeRef>)

  /** The table from key to node pile; element 0 of each pile is the template. */
  type PileTable = map<int, seq<ContextNode>>

  /** The root node's place: the first element of pile 0. */
  const Root: NodeRef := NodeRef(0, 0)

  /** new ContextNode(handler): a template without context or children. */
  function NewNode(handler: Handler): (n: ContextNode)
    ensures n.address == HandlerAddress(handler) && n.handler == handler
    ensures n.context == None && n.children == []
  {
    ContextNode(HandlerAddress(handler), handler, None, [])
  }

  /** The table with the node at position `i` of pile `a` replaced by `node`. */
  function Replaced(table: PileTable, a: int, i: nat, node: ContextNode): PileTable
    requires a in table && i < |table[a]|
  {
    table[a := table[a][i := node]]
  }

  /** The table with `node` appended to the end of pile `a`. */
  function Appended(table: PileTable, a: int, node: ContextNode): PileTable
    requires a in table
  {
    table[a := table[a] + [node]]
  }

  /** peekRegister on a node's context; None when the node has no context or the register
      is outside the register file. */
  function StoreOf(node: ContextNode, register: int): Option<RegisterStore>
  {
    match node.context
    case None => None
    case Some(c) => PeekRegister(c, register)
  }

  /** A fresh pile holding the same nodes, appended one by one (the inner loop of both graphs' copy
      constructors). */
  method CopyPile(otherPile: seq<ContextNode>) returns (pile: seq<ContextNode>)
    ensures pile == otherPile
  {
    pile := [];
    for j := 0 to |otherPile|
      invariant pile == otherPile[..j]
    {
      pile := pile + [otherPile[j]];
    }
    assert otherPile[..|otherPile|] == otherPile;
  }

  /** Two pile tables with the same addresses and the same pile at each are one table. */
  lemma SameTable(t1: PileTable, t2: PileTable)
    requires forall a :: a in t1 <==> a in t2
    requires forall a :: a in t1 ==> t1[a] == t2[a]
    ensures t1 == t2
  {
    assert forall a :: a in t1.Keys <==> a in t2.Keys;
    assert t1.Keys == t2.Keys;
    assert forall a :: a in t1.Keys ==> t1[a] == t2[a];
  }
}
