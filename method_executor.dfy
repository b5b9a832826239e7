/** The worklist interpreter (MethodExecutor): runs a method's graph from its root, cloning a
    node for every successor address, under a ceiling on visits per address. */
module Executor {
  import opened Values
  import opened Handlers
  import opened Nodes
  import opened SimplifyGraph

  /** How a run ends: the work list emptied, an address passed the visit ceiling
      (MaxNodeVisitsExceeded), or the run failed. */
  datatype ExecOutcome = Finished | MaxNodeVisitsExceeded(address: int) | Crashed(fault: Fault)

  /** The visit count of an address; a missing entry reads as 0. */
  function VisitCount(counts: map<int, nat>, address: int): nat
  {
    if address in counts then counts[address] else 0
  }

  /** The visit table with one more visit at `address`. */
  function Counted(counts: map<int, nat>, address: int): map<int, nat>
  {
    counts[address := VisitCount(counts, address) + 1]
  }

  /** The number of visits per address the ceiling accepts. */
  function Budget(maxNodeVisits: int): nat
  {
    if maxNodeVisits >= 0 then maxNodeVisits + 1 else 0
  }

  /** recordNodeVisitation: refuses the visit when the count already exceeds the ceiling,
      and otherwise adds one to that address's count only. */
  function RecordNodeVisitation(counts: map<int, nat>, address: int, maxNodeVisits: int): (r: Option<map<int, nat>>)
    ensures r.None? <==> VisitCount(counts, address) > maxNodeVisits
    ensures r.Some? ==> VisitCount(r.value, address) == VisitCount(counts, address) + 1
    ensures r.Some? ==> forall a :: a != address ==> VisitCount(r.value, a) == VisitCount(counts, a)
  {
    if VisitCount(counts, address) > maxNodeVisits then None
    else Some(Counted(counts, address))
  }

  /** How often an address occurs in a list of visits. */
  function Occurrences(visits: seq<int>, a: int): nat
  {
    if |visits| == 0 then 0 else (if visits[0] == a then 1 else 0) + Occurrences(visits[1..], a)
  }

  /** A sequence of visits recorded one after another; None once one is refused. */
  function RecordAll(counts: map<int, nat>, visits: seq<int>, maxNodeVisits: int): Option<map<int, nat>>
    decreases |visits|
  {
    if |visits| == 0 then Some(counts)
    else
      match RecordNodeVisitation(counts, visits[0], maxNodeVisits)
      case None => None
      case Some(next) => RecordAll(next, visits[1..], maxNodeVisits)
  }

  /** Recording a run of visits succeeds exactly when no address would go past its budget,
      and then every count grows by the number of visits to that address. */
  lemma {:induction false} RecordAllAccepts(counts: map<int, nat>, visits: seq<int>, maxNodeVisits: int)
    requires forall a :: VisitCount(counts, a) <= Budget(maxNodeVisits)
    decreases |visits|
    ensures RecordAll(counts, visits, maxNodeVisits).Some? <==>
      forall a :: VisitCount(counts, a) + Occurrences(visits, a) <= Budget(maxNodeVisits)
    ensures RecordAll(counts, visits, maxNodeVisits).Some? ==>
      forall a :: VisitCount(RecordAll(counts, visits, maxNodeVisits).value, a) == VisitCount(counts, a) + Occurrences(visits, a)
  {
    if |visits| > 0 {
      var v := visits[0];
      match RecordNodeVisitation(counts, v, maxNodeVisits)
      case None =>
        assert VisitCount(counts, v) + Occurrences(visits, v) > Budget(maxNodeVisits);
      case Some(next) =>
        RecordAllAccepts(next, visits[1..], maxNodeVisits);
        assert forall a :: VisitCount(next, a) + Occurrences(visits[1..], a) == VisitCount(counts, a) + Occurrences(visits, a);
    }
  }

  /** The visit ceiling: from no visits, a run is accepted exactly when every address is
      visited at most maxNodeVisits + 1 times. */
  lemma VisitCeiling(visits: seq<int>, maxNodeVisits: int)
    ensures RecordAll(map[], visits, maxNodeVisits).Some? <==>
      forall a :: Occurrences(visits, a) <= Budget(maxNodeVisits)
    ensures RecordAll(map[], visits, maxNodeVisits).Some? ==>
      forall a :: VisitCount(RecordAll(map[], visits, maxNodeVisits).value, a) == Occurrences(visits, a)
  {
    RecordAllAccepts(map[], visits, maxNodeVisits);
  }

  /** The visits still open over a list of addresses. */
  function Remaining(counts: map<int, nat>, addresses: seq<int>, budget: nat): nat
  {
    if |addresses| == 0 then 0
    else
      (if VisitCount(counts, addresses[0]) >= budget then 0 else budget - VisitCount(counts, addresses[0]))
      + Remaining(counts, addresses[1..], budget)
  }

  lemma {:induction false} RemainingInitial(addresses: seq<int>, budget: nat)
    ensures Remaining(map[], addresses, budget) == |addresses| * budget
  {
    if |addresses| > 0 {
      RemainingInitial(addresses[1..], budget);
    }
  }

  /** One more accepted visit never raises what is open, and lowers it at a listed address. */
  lemma {:induction false} RemainingDecreases(counts: map<int, nat>, addresses: seq<int>, budget: nat, a: int)
    requires VisitCount(counts, a) < budget
    ensures Remaining(Counted(counts, a), addresses, budget) <= Remaining(counts, addresses, budget)
    ensures a in addresses ==>
      Remaining(Counted(counts, a), addresses, budget) < Remaining(counts, addresses, budget)
  {
    if |addresses| > 0 {
      RemainingDecreases(counts, addresses[1..], budget, a);
      if addresses[0] != a {
        assert a in addresses ==> a in addresses[1..];
      }
    }
  }

  /** new ContextNode(template) with a context: a clone of the template carrying its own
      context and no children yet. */
  function Clone(template: ContextNode, ctx: Context): (n: ContextNode)
    ensures n.address == template.address && n.handler == template.handler
    ensures n.context == Some(ctx) && n.children == []
  {
    template.(context := Some(ctx), children := [])
  }

  /** How the piles relate to the piles of the start of a run: the same addresses, no pile
      shorter, every earlier node with its handler, and every later one a clone of the
      pile's template that carries a context. */
  ghost predicate Grown(before: PileTable, after: PileTable)
  {
    && (forall a :: a in after <==> a in before)
    && (forall a :: a in before ==> |before[a]| <= |after[a]|)
    && (forall a, i :: a in before && 0 <= i < |before[a]| ==> after[a][i].handler == before[a][i].handler)
    && (forall a, i :: a in before && 0 < |before[a]| <= i < |after[a]| ==>
          after[a][i].handler == before[a][0].handler && after[a][i].context.Some?)
  }

  /** Every node appended since the start of a run has its place among the given references. */
  ghost predicate NewSlotsListed(before: PileTable, after: PileTable, refs: seq<NodeRef>)
  {
    forall a, i :: a in before && a in after && |before[a]| <= i < |after[a]| ==> NodeRef(a, i) in refs
  }

  /** Replacing a node by one with the same handler and a context keeps the piles grown
      and listed, and leaves the root alone unless it is the node replaced. */
  lemma GrownAfterReplace(initial: PileTable, before: PileTable, after: PileTable, a: int, i: int,
                          node: ContextNode, refs: seq<NodeRef>)
    requires Grown(initial, before) && NewSlotsListed(initial, before, refs)
    requires a in before && 0 <= i < |before[a]|
    requires node.handler == before[a][i].handler && node.context.Some?
    requires after == Replaced(before, a, i, node)
    ensures Grown(initial, after) && NewSlotsListed(initial, after, refs)
    ensures 0 in before && |before[0]| > 0 && (a != 0 || i != 0) ==> after[0][0] == before[0][0]
  {
  }

  /** Appending a clone of a pile's template keeps the piles grown, and the new place is
      listed once its reference is. */
  lemma GrownAfterAppend(initial: PileTable, before: PileTable, after: PileTable, a: int,
                         child: ContextNode, refs: seq<NodeRef>)
    requires Grown(initial, before) && NewSlotsListed(initial, before, refs)
    requires a in before && 0 < |initial[a]|
    requires child.handler == initial[a][0].handler && child.context.Some?
    requires after == Appended(before, a, child)
    ensures Grown(initial, after) && NewSlotsListed(initial, after, refs + [NodeRef(a, |before[a]|)])
    ensures 0 in before && |before[0]| > 0 ==> after[0][0] == before[0][0]
  {
  }

  /** The place a reference names exists. */
  predicate Placed(table: PileTable, ref: NodeRef)
  {
    ref.address in table && ref.position < |table[ref.address]|
  }

  /** The node at a place. */
  ghost function NodeAt(table: PileTable, ref: NodeRef): ContextNode
    requires Placed(table, ref)
  {
    table[ref.address][ref.position]
  }

  /** Every place that existed before, other than `ref`, still holds the same node. */
  ghost predicate KeepsOthers(before: PileTable, after: PileTable, ref: NodeRef)
  {
    forall r :: Placed(before, r) && r != ref ==> Placed(after, r) && NodeAt(after, r) == NodeAt(before, r)
  }

  /** References to places that did not exist before, no two alike. */
  ghost predicate FreshRefs(before: PileTable, refs: seq<NodeRef>)
  {
    && (forall k :: 0 <= k < |refs| ==> !Placed(before, refs[k]))
    && (forall j, k :: 0 <= j < k < |refs| ==> refs[j] != refs[k])
  }

  /** The place `ref` holds the clone made for successor `address`: that address, the
      handler of its template, the given context and no children. */
  ghost predicate Clones(table: PileTable, ref: NodeRef, address: int, initial: PileTable, ctx: Option<Context>)
  {
    && ref.address == address && Placed(table, ref) && address in initial && |initial[address]| > 0
    && table[address][ref.position] == ContextNode(address, initial[address][0].handler, ctx, [])
  }

  /** One turn of the successor loop: a clone of the template at `address`, carrying the
      current node's context, is appended to that pile and to the current node's children.
      Every other place keeps its node. Without a pile at `address` nothing changes. */
  method AppendClone(graph: ContextGraph, ref: NodeRef, current: ContextNode, address: int,
                     ghost initial: PileTable, ghost refs: seq<NodeRef>)
    returns (found: bool, next: ContextNode, childRef: NodeRef)
    requires graph.Valid() && WellFormedTable(initial) && 0 in graph.addressToNodePile
    requires Grown(initial, graph.addressToNodePile) && NewSlotsListed(initial, graph.addressToNodePile, refs)
    requires Placed(graph.addressToNodePile, ref) && graph.addressToNodePile[ref.address][ref.position] == current
    requires current.context.Some?
    modifies graph
    ensures graph.Valid() && 0 in graph.addressToNodePile && Grown(initial, graph.addressToNodePile)
    ensures found == (address in old(graph.addressToNodePile))
    ensures !found ==> graph.addressToNodePile == old(graph.addressToNodePile) && next == current
    ensures found ==> next == current.(children := current.children + [childRef]) && childRef.address == address
    ensures found ==> NewSlotsListed(initial, graph.addressToNodePile, refs + [childRef])
    ensures Placed(graph.addressToNodePile, ref) && graph.addressToNodePile[ref.address][ref.position] == next
    ensures found ==> Placed(graph.addressToNodePile, childRef) && childRef != ref && !Placed(old(graph.addressToNodePile), childRef)
    ensures found ==> Clones(graph.addressToNodePile, childRef, address, initial, current.context)
    ensures KeepsOthers(old(graph.addressToNodePile), graph.addressToNodePile, ref)
  {
    var template := TemplateNode(graph.addressToNodePile, address);
    if template.None? {
      return false, current, NodeRef(address, 0);
    }
    var child := Clone(template.value, current.context.value);
    childRef := NodeRef(address, |graph.addressToNodePile[address]|);
    ghost var before := graph.addressToNodePile;
    next := current.(children := current.children + [childRef]);
    graph.ReplaceNode(ref.address, ref.position, next);
    ghost var replaced := graph.addressToNodePile;
    var _ := graph.AddNode(child, address);
    CloneAppended(initial, before, replaced, graph.addressToNodePile, ref, current, next, child, childRef, refs);
    found := true;
  }

  /** The two updates of one turn of the successor loop, on the piles: the current node at
      `ref` gains the child `childRef` (giving `next`), then the clone is appended to the
      pile of its address, at the place `childRef` names. */
  lemma CloneAppended(initial: PileTable, before: PileTable, replaced: PileTable, after: PileTable,
                      ref: NodeRef, current: ContextNode, next: ContextNode, child: ContextNode,
                      childRef: NodeRef, refs: seq<NodeRef>)
    requires WellFormedTable(initial) && WellFormedTable(before)
    requires Grown(initial, before) && NewSlotsListed(initial, before, refs)
    requires Placed(before, ref) && before[ref.address][ref.position] == current && current.context.Some?
    requires childRef.address in before && childRef.position == |before[childRef.address]|
    requires child == Clone(before[childRef.address][0], current.context.value)
    requires next == current.(children := current.children + [childRef])
    requires replaced == Replaced(before, ref.address, ref.position, next)
    requires after == Appended(replaced, childRef.address, child)
    ensures Grown(initial, after) && NewSlotsListed(initial, after, refs + [childRef])
    ensures 0 in before && |before[0]| > 0 && ref != Root ==> after[0][0] == before[0][0]
    ensures Placed(after, ref) && after[ref.address][ref.position] == next
    ensures Placed(after, childRef) && childRef != ref && !Placed(before, childRef)
    ensures Clones(after, childRef, childRef.address, initial, current.context)
    ensures KeepsOthers(before, after, ref)
  {
    var a := childRef.address;
    assert 0 < |initial[a]|;
    GrownAfterReplace(initial, before, replaced, ref.address, ref.position, next, refs);
    GrownAfterAppend(initial, replaced, after, a, child, refs);
  }

  /** The successor loop of one visit: for every successor address, in order and duplicates
      included, one clone of that address's template carrying the current node's context is
      appended to its pile and to the current node's children. A successor without a pile
      fails the visit. Only the place `ref` changes among the places that existed before. */
  method Expand(graph: ContextGraph, ref: NodeRef, current: ContextNode, successors: seq<int>,
                ghost initial: PileTable, ghost enqueued: seq<NodeRef>)
    returns (fault: Option<Fault>, expanded: ContextNode, ghost added: seq<NodeRef>)
    requires graph.Valid() && WellFormedTable(initial) && 0 in graph.addressToNodePile
    requires Grown(initial, graph.addressToNodePile) && NewSlotsListed(initial, graph.addressToNodePile, enqueued)
    requires Placed(graph.addressToNodePile, ref) && graph.addressToNodePile[ref.address][ref.position] == current
    requires current.context.Some?
    modifies graph
    ensures graph.Valid() && 0 in graph.addressToNodePile
    ensures Grown(initial, graph.addressToNodePile)
    ensures NewSlotsListed(initial, graph.addressToNodePile, enqueued + added)
    ensures expanded == current.(children := current.children + added)
    ensures Placed(graph.addressToNodePile, ref) && graph.addressToNodePile[ref.address][ref.position] == expanded
    ensures fault.None? ==> |added| == |successors|
    ensures fault.Some? ==>
      |added| < |successors| && fault == Some(MissingNode(successors[|added|]))
      && successors[|added|] !in old(graph.addressToNodePile)
    ensures forall k :: 0 <= k < |added| ==> Clones(graph.addressToNodePile, added[k], successors[k], initial, current.context)
    ensures forall k :: 0 <= k < |added| ==> added[k] != ref
    ensures FreshRefs(old(graph.addressToNodePile), added)
    ensures KeepsOthers(old(graph.addressToNodePile), graph.addressToNodePile, ref)
  {
    expanded := current;
    added := [];
    fault := None;
    var s := 0;
    while s < |successors|
      invariant 0 <= s <= |successors| && |added| == s
      invariant graph.Valid() && 0 in graph.addressToNodePile
      invariant Grown(initial, graph.addressToNodePile)
      invariant NewSlotsListed(initial, graph.addressToNodePile, enqueued + added)
      invariant expanded == current.(children := current.children + added)
      invariant Placed(graph.addressToNodePile, ref) && graph.addressToNodePile[ref.address][ref.position] == expanded
      invariant forall k :: 0 <= k < |added| ==> added[k] != ref
      invariant forall k :: 0 <= k < |added| ==> Clones(graph.addressToNodePile, added[k], successors[k], initial, current.context)
      invariant FreshRefs(old(graph.addressToNodePile), added)
      invariant KeepsOthers(old(graph.addressToNodePile), graph.addressToNodePile, ref)
    {
      ghost var before := graph.addressToNodePile;
      var found, next, childRef := AppendClone(graph, ref, expanded, successors[s], initial, enqueued + added);
      if !found {
        return Some(MissingNode(successors[s])), expanded, added;
      }
      CloneAdded(old(graph.addressToNodePile), before, graph.addressToNodePile, initial, ref, successors, added, childRef, current.context);
      assert enqueued + added + [childRef] == enqueued + (added + [childRef]);
      added := added + [childRef];
      expanded := next;
      s := s + 1;
    }
  }

  /** One more clone in the successor loop, from `before` to `after`: the earlier clones stay
      as they were, and the new one is fresh since the loop began at `start`. */
  lemma CloneAdded(start: PileTable, before: PileTable, after: PileTable, initial: PileTable, ref: NodeRef,
                   successors: seq<int>, added: seq<NodeRef>, childRef: NodeRef, ctx: Option<Context>)
    requires |added| < |successors| && Placed(start, ref)
    requires forall k :: 0 <= k < |added| ==> Clones(before, added[k], successors[k], initial, ctx) && added[k] != ref
    requires FreshRefs(start, added) && KeepsOthers(start, before, ref) && Placed(before, ref)
    requires KeepsOthers(before, after, ref) && childRef != ref && !Placed(before, childRef)
    requires Clones(after, childRef, successors[|added|], initial, ctx)
    ensures forall k :: 0 <= k < |added + [childRef]| ==>
      Clones(after, (added + [childRef])[k], successors[k], initial, ctx) && (added + [childRef])[k] != ref
    ensures FreshRefs(start, added + [childRef]) && KeepsOthers(start, after, ref)
  {
    var grown := added + [childRef];
    forall k | 0 <= k < |grown|
      ensures Clones(after, grown[k], successors[k], initial, ctx) && grown[k] != ref
    {
      if k < |added| {
        assert grown[k] == added[k] && Placed(before, added[k]);
      }
    }
    forall j, k | 0 <= j < k < |grown|
      ensures grown[j] != grown[k]
    {
      if k < |added| {
        assert grown[j] == added[j] && grown[k] == added[k];
      } else {
        assert grown[j] == added[j] && Placed(before, added[j]);
      }
    }
    assert !Placed(start, childRef);
  }

  /** Whether the loop goes on after a visit. */
  datatype VisitResult = Continue | Stop(outcome: ExecOutcome)

  /** The second half of a visit: the node at `ref` takes the context its handler left
      behind, and gains one clone, carrying that context, per successor. `pushed` are the
      node's children afterwards. */
  method Advance(graph: ContextGraph, ref: NodeRef, node: ContextNode, step: Step,
                 ghost initial: PileTable, ghost enqueued: seq<NodeRef>)
    returns (fault: Option<Fault>, pushed: seq<NodeRef>, ghost added: seq<NodeRef>)
    requires graph.Valid() && WellFormedTable(initial) && 0 in graph.addressToNodePile
    requires Grown(initial, graph.addressToNodePile) && NewSlotsListed(initial, graph.addressToNodePile, enqueued)
    requires Placed(graph.addressToNodePile, ref) && graph.addressToNodePile[ref.address][ref.position] == node
    modifies graph
    ensures graph.Valid() && 0 in graph.addressToNodePile
    ensures Grown(initial, graph.addressToNodePile)
    ensures NewSlotsListed(initial, graph.addressToNodePile, enqueued + pushed)
    ensures pushed == node.children + added
    ensures Placed(graph.addressToNodePile, ref)
    ensures NodeAt(graph.addressToNodePile, ref) == node.(context := Some(step.context), children := pushed)
    ensures fault.None? <==> |added| == |step.successors|
    ensures fault.Some? ==>
      |added| < |step.successors| && fault == Some(MissingNode(step.successors[|added|]))
      && step.successors[|added|] !in old(graph.addressToNodePile)
    ensures forall k :: 0 <= k < |added| ==>
      Clones(graph.addressToNodePile, added[k], step.successors[k], initial, Some(step.context))
    ensures FreshRefs(old(graph.addressToNodePile), added)
    ensures KeepsOthers(old(graph.addressToNodePile), graph.addressToNodePile, ref)
  {
    var current := node.(context := Some(step.context));
    ghost var before := graph.addressToNodePile;
    graph.ReplaceNode(ref.address, ref.position, current);
    ghost var replaced := graph.addressToNodePile;
    ContextReplaced(initial, before, replaced, ref, node, current, enqueued);
    var expanded;
    fault, expanded, added := Expand(graph, ref, current, step.successors, initial, enqueued + current.children);
    pushed := expanded.children;
    AdvanceFinished(before, replaced, graph.addressToNodePile, ref, added);
    assert enqueued + current.children + added == enqueued + pushed;
  }

  /** The first update of the second half of a visit, on the piles: the node at `ref` takes
      the handler's context. Only that place changes, and no place appears or disappears. */
  lemma ContextReplaced(initial: PileTable, before: PileTable, replaced: PileTable, ref: NodeRef,
                        node: ContextNode, current: ContextNode, enqueued: seq<NodeRef>)
    requires Grown(initial, before) && NewSlotsListed(initial, before, enqueued)
    requires Placed(before, ref) && before[ref.address][ref.position] == node
    requires current.handler == node.handler && current.context.Some? && current.children == node.children
    requires replaced == Replaced(before, ref.address, ref.position, current)
    ensures Grown(initial, replaced) && NewSlotsListed(initial, replaced, enqueued + current.children)
    ensures forall a :: a in replaced <==> a in before
    ensures forall r :: Placed(replaced, r) <==> Placed(before, r)
    ensures KeepsOthers(before, replaced, ref)
  {
    GrownAfterReplace(initial, before, replaced, ref.address, ref.position, current, enqueued);
  }

  /** The second half of a visit, on the piles: with no place other than `ref` changed by the
      context update, the successor loop's guarantees hold from before the visit. */
  lemma AdvanceFinished(before: PileTable, replaced: PileTable, after: PileTable, ref: NodeRef, added: seq<NodeRef>)
    requires forall a :: a in replaced <==> a in before
    requires forall r :: Placed(replaced, r) <==> Placed(before, r)
    requires KeepsOthers(before, replaced, ref) && KeepsOthers(replaced, after, ref)
    requires FreshRefs(replaced, added)
    ensures KeepsOthers(before, after, ref) && FreshRefs(before, added)
  {
  }

  /** The position of the first address in `s` without a pile, or `|s|` when every one has one. */
  ghost function FirstMissing(table: PileTable, s: seq<int>): (k: nat)
    ensures k <= |s|
    ensures forall j :: 0 <= j < k ==> s[j] in table
    ensures k < |s| ==> s[k] !in table
  {
    if |s| == 0 then 0 else if s[0] !in table then 0 else 1 + FirstMissing(table, s[1..])
  }

  /** Why a visit of `ref` on the piles `table` crashes with `fault`: the place does not exist,
      the node has no context, its handler fails with that fault, or the handler's step names
      a successor without a pile and the fault names the first such successor. */
  ghost predicate CrashCause(table: PileTable, ref: NodeRef, fault: Fault)
  {
    if !Placed(table, ref) then fault == MissingNode(ref.address)
    else if NodeAt(table, ref).context.None? then fault == NullContext
    else
      var step := Handlers.Execute(NodeAt(table, ref).handler, NodeAt(table, ref).context.value);
      if step.Failure? then fault == step.fault
      else
        var k := FirstMissing(table, step.value.successors);
        k < |step.value.successors| && fault == MissingNode(step.value.successors[k])
  }

  /** One turn of the work loop on the node at `ref`: record the visit, run the handler on
      the node's context and advance. `pushed` are the node's children, which the work list
      receives, and `added` the clones this visit made; `recorded` is the visit table
      afterwards. The visit goes on exactly when the place exists, the ceiling lets it
      through, the node has a context, its handler succeeds and every successor has a pile. */
  method Visit(graph: ContextGraph, ref: NodeRef, counts: map<int, nat>, maxNodeVisits: int,
               ghost initial: PileTable, ghost enqueued: seq<NodeRef>)
    returns (result: VisitResult, recorded: map<int, nat>, pushed: seq<NodeRef>, ghost added: seq<NodeRef>)
    requires graph.Valid() && WellFormedTable(initial) && 0 in graph.addressToNodePile
    requires Grown(initial, graph.addressToNodePile) && NewSlotsListed(initial, graph.addressToNodePile, enqueued)
    requires forall a :: VisitCount(counts, a) <= Budget(maxNodeVisits)
    modifies graph
    ensures graph.Valid() && 0 in graph.addressToNodePile
    ensures Grown(initial, graph.addressToNodePile)
    ensures NewSlotsListed(initial, graph.addressToNodePile, enqueued + pushed)
    ensures forall a :: VisitCount(recorded, a) <= Budget(maxNodeVisits)
    ensures KeepsOthers(old(graph.addressToNodePile), graph.addressToNodePile, ref)
    ensures FreshRefs(old(graph.addressToNodePile), added)
    ensures !Placed(old(graph.addressToNodePile), ref) ==> result == Stop(Crashed(MissingNode(ref.address)))
    ensures Placed(old(graph.addressToNodePile), ref) && VisitCount(counts, ref.address) > maxNodeVisits ==>
      result == Stop(MaxNodeVisitsExceeded(ref.address))
    ensures (Placed(old(graph.addressToNodePile), ref) && VisitCount(counts, ref.address) <= maxNodeVisits
             && NodeAt(old(graph.addressToNodePile), ref).context.None?) ==> result == Stop(Crashed(NullContext))
    ensures (Placed(old(graph.addressToNodePile), ref) && VisitCount(counts, ref.address) <= maxNodeVisits
             && NodeAt(old(graph.addressToNodePile), ref).context.Some?) ==>
      var node := NodeAt(old(graph.addressToNodePile), ref);
      var step := Handlers.Execute(node.handler, node.context.value);
      (step.Failure? ==> result == Stop(Crashed(step.fault)))
      && (step.Success? ==>
            (result.Continue? <==>
               forall k :: 0 <= k < |step.value.successors| ==> step.value.successors[k] in old(graph.addressToNodePile)))
    ensures result.Stop? ==> !result.outcome.Finished?
    ensures result.Stop? && result.outcome.MaxNodeVisitsExceeded? ==>
      recorded == counts && VisitCount(counts, result.outcome.address) == Budget(maxNodeVisits)
      && graph.addressToNodePile == old(graph.addressToNodePile) && result.outcome.address == ref.address
    ensures result.Stop? && result.outcome.Crashed? ==>
      CrashCause(old(graph.addressToNodePile), ref, result.outcome.fault)
    ensures result.Continue? ==>
      (Placed(old(graph.addressToNodePile), ref) && ref.address in graph.addresses
       && VisitCount(counts, ref.address) < Budget(maxNodeVisits)
       && recorded == Counted(counts, ref.address))
    ensures result.Continue? ==>
      Ran(old(graph.addressToNodePile), graph.addressToNodePile, initial, ref, added)
      && pushed == NodeAt(old(graph.addressToNodePile), ref).children + added
  {
    recorded := counts;
    pushed := [];
    added := [];
    if !Placed(graph.addressToNodePile, ref) {
      return Stop(Crashed(MissingNode(ref.address))), recorded, pushed, added;
    }
    var node := graph.addressToNodePile[ref.address][ref.position];
    var visit := RecordNodeVisitation(counts, ref.address, maxNodeVisits);
    if visit.None? {
      return Stop(MaxNodeVisitsExceeded(ref.address)), recorded, pushed, added;
    }
    graph.KeyListed(ref.address);
    recorded := visit.value;
    if node.context.None? {
      return Stop(Crashed(NullContext)), recorded, pushed, added;
    }
    var step := Handlers.Execute(node.handler, node.context.value);
    if step.Failure? {
      return Stop(Crashed(step.fault)), recorded, pushed, added;
    }
    var fault;
    fault, pushed, added := Advance(graph, ref, node, step.value, initial, enqueued);
    if fault.Some? {
      forall k | 0 <= k < |added|
        ensures step.value.successors[k] in old(graph.addressToNodePile)
      {
        assert Clones(graph.addressToNodePile, added[k], step.value.successors[k], initial, Some(step.value.context));
      }
      assert FirstMissing(old(graph.addressToNodePile), step.value.successors) == |added|;
      return Stop(Crashed(fault.value)), recorded, pushed, added;
    }
    forall k | 0 <= k < |step.value.successors|
      ensures step.value.successors[k] in old(graph.addressToNodePile)
    {
      assert Clones(graph.addressToNodePile, added[k], step.value.successors[k], initial, Some(step.value.context));
    }
    result := Continue;
  }

  // ---------------------------------------------------------------------------------------
  // What a run leaves behind

  /** The node at `r` ran its template's handler from the context `pre`: it carries the
      context the handler left and one child per successor, at that successor's address. */
  ghost predicate Stepped(table: PileTable, initial: PileTable, r: NodeRef, pre: Context)
  {
    && Placed(table, r) && r.address in initial && |initial[r.address]| > 0
    && NodeAt(table, r).handler == initial[r.address][0].handler
    && Handlers.Execute(NodeAt(table, r).handler, pre).Success?
    && var step := Handlers.Execute(NodeAt(table, r).handler, pre).value;
       && NodeAt(table, r).context == Some(step.context)
       && |NodeAt(table, r).children| == |step.successors|
       && forall k :: 0 <= k < |step.successors| ==> NodeAt(table, r).children[k].address == step.successors[k]
  }

  /** Every child of the visited node `p` is accounted for: a child already visited ran from
      the context p left, and a child still waiting is the clone p made, with that context. */
  ghost predicate ChildrenExplained(table: PileTable, initial: PileTable, visited: seq<NodeRef>, p: NodeRef)
  {
    && Placed(table, p) && NodeAt(table, p).context.Some?
    && forall k :: 0 <= k < |NodeAt(table, p).children| ==>
         (NodeAt(table, p).children[k] in visited ==>
            Stepped(table, initial, NodeAt(table, p).children[k], NodeAt(table, p).context.value))
         && (NodeAt(table, p).children[k] !in visited ==>
               Clones(table, NodeAt(table, p).children[k], NodeAt(table, p).children[k].address, initial, NodeAt(table, p).context))
  }

  /** The graph after the nodes `visited` were taken from the work list, in that order: the
      root came first and ran from the start context, and every visited node's children are
      accounted for. */
  ghost predicate Explored(table: PileTable, initial: PileTable, start: Option<Context>, visited: seq<NodeRef>)
  {
    && (|visited| > 0 ==> visited[0] == Root && start.Some? && Stepped(table, initial, Root, start.value))
    && forall i :: 0 <= i < |visited| ==> ChildrenExplained(table, initial, visited, visited[i])
  }

  /** The children of the given nodes, node after node. */
  ghost function ChildrenOf(table: PileTable, refs: seq<NodeRef>): seq<NodeRef>
  {
    if |refs| == 0 then []
    else
      var last := refs[|refs| - 1];
      ChildrenOf(table, refs[..|refs| - 1]) + (if Placed(table, last) then NodeAt(table, last).children else [])
  }

  /** The addresses of the given nodes, in order. */
  ghost function AddressesOf(refs: seq<NodeRef>): seq<int>
  {
    if |refs| == 0 then [] else AddressesOf(refs[..|refs| - 1]) + [refs[|refs| - 1].address]
  }

  /** Recording one more visit at the end of a run of visits. */
  lemma {:induction false} RecordAllAppend(counts: map<int, nat>, visits: seq<int>, a: int, maxNodeVisits: int)
    decreases |visits|
    ensures RecordAll(counts, visits + [a], maxNodeVisits) ==
      match RecordAll(counts, visits, maxNodeVisits)
      case None => None
      case Some(c) => RecordNodeVisitation(c, a, maxNodeVisits)
  {
    if |visits| == 0 {
      assert visits + [a] == [a];
      assert [a][1..] == [];
    } else {
      assert (visits + [a])[0] == visits[0];
      assert (visits + [a])[1..] == visits[1..] + [a];
      match RecordNodeVisitation(counts, visits[0], maxNodeVisits)
      case None =>
      case Some(next) =>
        RecordAllAppend(next, visits[1..], a, maxNodeVisits);
    }
  }

  /** Nodes that a visit elsewhere left alone have the same children afterwards. */
  lemma {:induction false} ChildrenOfKept(before: PileTable, after: PileTable, refs: seq<NodeRef>, ref: NodeRef)
    requires KeepsOthers(before, after, ref)
    requires forall i :: 0 <= i < |refs| ==> Placed(before, refs[i]) && refs[i] != ref
    decreases |refs|
    ensures ChildrenOf(after, refs) == ChildrenOf(before, refs)
  {
    if |refs| > 0 {
      ChildrenOfKept(before, after, refs[..|refs| - 1], ref);
      assert Placed(before, refs[|refs| - 1]);
    }
  }

  /** Every entry of ChildrenOf is child `k` of some node `refs[i]`. */
  lemma {:induction false} ChildrenOfParent(table: PileTable, refs: seq<NodeRef>, n: nat) returns (i: nat, k: nat)
    requires n < |ChildrenOf(table, refs)|
    decreases |refs|
    ensures i < |refs| && Placed(table, refs[i]) && k < |NodeAt(table, refs[i]).children|
    ensures NodeAt(table, refs[i]).children[k] == ChildrenOf(table, refs)[n]
  {
    var init := refs[..|refs| - 1];
    if n < |ChildrenOf(table, init)| {
      i, k := ChildrenOfParent(table, init, n);
      assert refs[i] == init[i];
    } else {
      i := |refs| - 1;
      k := n - |ChildrenOf(table, init)|;
    }
  }

  /** After the root, the next node on the work list is still waiting: it is the clone a
      visited node made, with that node's context, the template's handler and no children. */
  lemma NextIsWaiting(table: PileTable, initial: PileTable, start: Option<Context>, work: seq<NodeRef>, head: nat)
    requires 0 < head < |work|
    requires work == [Root] + ChildrenOf(table, work[..head])
    requires forall i, j :: 0 <= i < j < |work| ==> work[i] != work[j]
    requires Explored(table, initial, start, work[..head])
    ensures Placed(table, work[head]) && NodeAt(table, work[head]).children == []
    ensures NodeAt(table, work[head]).context.Some?
    ensures work[head].address in initial && |initial[work[head].address]| > 0
    ensures NodeAt(table, work[head]).handler == initial[work[head].address][0].handler
  {
    var visited := work[..head];
    var i, k := ChildrenOfParent(table, visited, head - 1);
    var p := visited[i];
    assert ChildrenExplained(table, initial, visited, p);
    var c := NodeAt(table, p).children[k];
    assert c == work[head];
    forall j | 0 <= j < head
      ensures visited[j] != c
    {
      assert work[j] != work[head];
    }
    assert c !in visited;
    assert Clones(table, c, c.address, initial, NodeAt(table, p).context);
  }

  /** The node at `ref` has not run yet: a context, no children and its template's handler. */
  ghost predicate Waiting(table: PileTable, initial: PileTable, ref: NodeRef)
  {
    && Placed(table, ref) && NodeAt(table, ref).context.Some? && NodeAt(table, ref).children == []
    && ref.address in initial && |initial[ref.address]| > 0
    && NodeAt(table, ref).handler == initial[ref.address][0].handler
  }

  /** A completed visit of the node at `ref`, from the piles `before` to `after`: the node
      had a context and its handler succeeded on it; the node took the context the handler
      left and gained one fresh clone, carrying that context, per successor; no other place
      that existed changed. */
  ghost predicate Ran(before: PileTable, after: PileTable, initial: PileTable, ref: NodeRef, added: seq<NodeRef>)
  {
    && Placed(before, ref) && NodeAt(before, ref).context.Some?
    && var node := NodeAt(before, ref);
       && Handlers.Execute(node.handler, node.context.value).Success?
       && var step := Handlers.Execute(node.handler, node.context.value).value;
          && Placed(after, ref)
          && NodeAt(after, ref) == node.(context := Some(step.context), children := node.children + added)
          && |added| == |step.successors|
          && (forall k :: 0 <= k < |added| ==> Clones(after, added[k], step.successors[k], initial, Some(step.context)))
          && KeepsOthers(before, after, ref) && FreshRefs(before, added)
  }

  /** The node just visited has stepped from its context, and its fresh children, which no
      visited node can be, are clones of their templates in the step's context. */
  lemma VisitedExplained(before: PileTable, after: PileTable, initial: PileTable,
                         visited: seq<NodeRef>, ref: NodeRef, added: seq<NodeRef>)
    requires forall i :: 0 <= i < |visited| ==> Placed(before, visited[i]) && visited[i] != ref
    requires Waiting(before, initial, ref) && Ran(before, after, initial, ref, added)
    ensures Stepped(after, initial, ref, NodeAt(before, ref).context.value)
    ensures ChildrenExplained(after, initial, visited + [ref], ref)
  {
    var node := NodeAt(before, ref);
    var now := visited + [ref];
    assert Stepped(after, initial, ref, node.context.value);
    forall k | 0 <= k < |added|
      ensures added[k] !in now
    {
      forall j | 0 <= j < |now|
        ensures now[j] != added[k]
      {
        assert Placed(before, now[j]);
      }
    }
  }

  /** A visit of a waiting node `ref` after `visited` keeps the run explored, now with `ref`
      among the visited nodes. */
  lemma ExploredAfterVisit(before: PileTable, after: PileTable, initial: PileTable, start: Option<Context>,
                           visited: seq<NodeRef>, ref: NodeRef, added: seq<NodeRef>)
    requires Explored(before, initial, start, visited)
    requires forall i :: 0 <= i < |visited| ==> Placed(before, visited[i]) && visited[i] != ref
    requires Waiting(before, initial, ref) && Ran(before, after, initial, ref, added)
    requires |visited| == 0 ==> ref == Root && NodeAt(before, ref).context == start
    ensures Explored(after, initial, start, visited + [ref])
  {
    var node := NodeAt(before, ref);
    var now := visited + [ref];
    VisitedExplained(before, after, initial, visited, ref, added);
    forall i | 0 <= i < |visited|
      ensures ChildrenExplained(after, initial, now, visited[i])
    {
      ParentAfterVisit(before, after, initial, visited, ref, visited[i]);
    }
    if |visited| > 0 {
      assert Placed(before, visited[0]);
    }
  }

  /** One visited parent `p` of a visit of `ref`: its children stay accounted for. A child
      equal to `ref` was waiting with p's context, so it now ran from that context. */
  lemma ParentAfterVisit(before: PileTable, after: PileTable, initial: PileTable,
                         visited: seq<NodeRef>, ref: NodeRef, p: NodeRef)
    requires ChildrenExplained(before, initial, visited, p)
    requires p != ref && ref !in visited
    requires Placed(before, ref) && NodeAt(before, ref).context.Some?
    requires
      var node := NodeAt(before, ref);
      Stepped(after, initial, ref, node.context.value)
    requires KeepsOthers(before, after, ref)
    ensures ChildrenExplained(after, initial, visited + [ref], p)
  {
    var now := visited + [ref];
    assert NodeAt(after, p) == NodeAt(before, p);
    var n := NodeAt(before, p);
    forall k | 0 <= k < |n.children|
      ensures n.children[k] in now ==> Stepped(after, initial, n.children[k], n.context.value)
      ensures n.children[k] !in now ==> Clones(after, n.children[k], n.children[k].address, initial, n.context)
    {
      var c := n.children[k];
      if c == ref {
        assert Clones(before, c, c.address, initial, n.context);
      } else if c in visited {
        assert Stepped(before, initial, c, n.context.value);
        assert Placed(before, c);
      } else {
        assert Clones(before, c, c.address, initial, n.context);
        assert Placed(before, c);
      }
    }
  }

  // ---------------------------------------------------------------------------------------
  // The work loop

  /** The context the root runs from: the one given by a caller, or else the one it holds. */
  ghost function StartContext(table: PileTable, mctx: Option<Context>): Option<Context>
  {
    if mctx.Some? then mctx
    else if RootNode(table).Some? then RootNode(table).value.context
    else None
  }

  /** The root has not been run yet: it has no children. */
  ghost predicate RootUnexpanded(table: PileTable)
  {
    RootNode(table).Some? ==> RootNode(table).value.children == []
  }

  /** The state of the work list `work` once its first `head` nodes have been visited:
      it is the root followed by the children of the visited nodes, node after node; all
      its places exist and are distinct; the visited part is explored; and `counts` records
      exactly the visits made. */
  ghost predicate Progress(table: PileTable, initial: PileTable, start: Option<Context>,
                           work: seq<NodeRef>, head: nat, counts: map<int, nat>, maxNodeVisits: int)
  {
    && head <= |work| && |work| > 0 && work[0] == Root
    && work == [Root] + ChildrenOf(table, work[..head])
    && (forall i :: 0 <= i < |work| ==> Placed(table, work[i]))
    && (forall i, j :: 0 <= i < j < |work| ==> work[i] != work[j])
    && Explored(table, initial, start, work[..head])
    && RecordAll(map[], AddressesOf(work[..head]), maxNodeVisits) == Some(counts)
  }

  /** The root's context after an explored run keeps the start context's registers. */
  lemma RootKeepsRegisters(table: PileTable, initial: PileTable, start: Option<Context>, visited: seq<NodeRef>)
    requires Explored(table, initial, start, visited) && |visited| > 0
    ensures start.Some? && 0 in table && |table[0]| > 0 && table[0][0].context.Some?
    ensures table[0][0].context.value.registers == start.value.registers
  {
    assert Stepped(table, initial, Root, start.value);
  }

  /** A completed visit of the next waiting node keeps the work list in order, with the
      visit's clones appended and the visit recorded. */
  lemma ProgressAfterVisit(before: PileTable, after: PileTable, initial: PileTable, start: Option<Context>,
                           work: seq<NodeRef>, head: nat, counts: map<int, nat>, maxNodeVisits: int,
                           added: seq<NodeRef>)
    requires head < |work| && Progress(before, initial, start, work, head, counts, maxNodeVisits)
    requires Waiting(before, initial, work[head]) && Ran(before, after, initial, work[head], added)
    requires head == 0 ==> NodeAt(before, Root).context == start
    requires VisitCount(counts, work[head].address) <= maxNodeVisits
    ensures Progress(after, initial, start, work + added, head + 1,
                     Counted(counts, work[head].address), maxNodeVisits)
  {
    WorkAfterVisit(before, after, initial, start, work, head, counts, maxNodeVisits, added);
    VisitsAfterVisit(before, after, initial, start, work, head, counts, maxNodeVisits, added);
  }

  /** The work-list half of `ProgressAfterVisit`: the grown list is still the root followed by
      the children of the visited prefix, every entry is placed and no entry repeats. */
  lemma WorkAfterVisit(before: PileTable, after: PileTable, initial: PileTable, start: Option<Context>,
                       work: seq<NodeRef>, head: nat, counts: map<int, nat>, maxNodeVisits: int,
                       added: seq<NodeRef>)
    requires head < |work| && Progress(before, initial, start, work, head, counts, maxNodeVisits)
    requires Waiting(before, initial, work[head]) && Ran(before, after, initial, work[head], added)
    ensures (work + added)[..head + 1] == work[..head] + [work[head]]
    ensures work + added == [Root] + ChildrenOf(after, (work + added)[..head + 1])
    ensures forall i :: 0 <= i < |work + added| ==> Placed(after, (work + added)[i])
    ensures forall i, j :: 0 <= i < j < |work + added| ==> (work + added)[i] != (work + added)[j]
  {
    var ref := work[head];
    var done := work[..head];
    forall i | 0 <= i < head
      ensures Placed(before, done[i]) && done[i] != ref
    {
      assert work[i] != work[head];
    }
    ChildrenOfKept(before, after, done, ref);
    PrefixAfterAppend(work, head, added);
    var now := (work + added)[..head + 1];
    assert NodeAt(after, ref).children == added;
    ChildrenOfAppend(after, done, ref);
    AppendBoth(work, [Root], ChildrenOf(before, done), added, ChildrenOf(after, now));
    WorkListAfterVisit(before, after, work, ref, added);
  }

  /** The visit half of `ProgressAfterVisit`: the visited prefix grown by `work[head]` is
      explored in the new table and its addresses record to the visit table with one more
      visit at `work[head]`. */
  lemma VisitsAfterVisit(before: PileTable, after: PileTable, initial: PileTable, start: Option<Context>,
                         work: seq<NodeRef>, head: nat, counts: map<int, nat>, maxNodeVisits: int,
                         added: seq<NodeRef>)
    requires head < |work| && Progress(before, initial, start, work, head, counts, maxNodeVisits)
    requires Waiting(before, initial, work[head]) && Ran(before, after, initial, work[head], added)
    requires head == 0 ==> NodeAt(before, Root).context == start
    requires VisitCount(counts, work[head].address) <= maxNodeVisits
    ensures Explored(after, initial, start, (work + added)[..head + 1])
    ensures RecordAll(map[], AddressesOf((work + added)[..head + 1]), maxNodeVisits)
            == Some(Counted(counts, work[head].address))
  {
    var ref := work[head];
    var done := work[..head];
    forall i | 0 <= i < head
      ensures Placed(before, done[i]) && done[i] != ref
    {
      assert work[i] != work[head];
    }
    ExploredAfterVisit(before, after, initial, start, done, ref, added);
    PrefixAfterAppend(work, head, added);
    RecordAllAppend(map[], AddressesOf(done), ref.address, maxNodeVisits);
    AddressesOfAppend(done, ref);
  }

  /** Appending the same list to both sides of `work == front + rest`. */
  lemma AppendBoth(work: seq<NodeRef>, front: seq<NodeRef>, rest: seq<NodeRef>, added: seq<NodeRef>, grown: seq<NodeRef>)
    requires work == front + rest && grown == rest + added
    ensures work + added == front + grown
  {
  }

  /** ChildrenOf grows by the children of one more node. */
  lemma ChildrenOfAppend(table: PileTable, refs: seq<NodeRef>, r: NodeRef)
    requires Placed(table, r)
    ensures ChildrenOf(table, refs + [r]) == ChildrenOf(table, refs) + NodeAt(table, r).children
  {
    assert (refs + [r])[..|refs|] == refs;
  }

  /** AddressesOf grows by the address of one more node. */
  lemma AddressesOfAppend(refs: seq<NodeRef>, r: NodeRef)
    ensures AddressesOf(refs + [r]) == AddressesOf(refs) + [r.address]
  {
    assert (refs + [r])[..|refs|] == refs;
  }

  /** Appending to the work list leaves the visited prefix, and the node at `head`, as they were. */
  lemma PrefixAfterAppend(work: seq<NodeRef>, head: nat, added: seq<NodeRef>)
    requires head < |work|
    ensures (work + added)[..head + 1] == work[..head] + [work[head]]
    ensures (work[..head] + [work[head]])[..head] == work[..head]
    ensures (work + added)[..head] == work[..head]
  {
  }

  /** The work list with a visit's fresh clones appended still names existing, distinct places. */
  lemma WorkListAfterVisit(before: PileTable, after: PileTable, work: seq<NodeRef>, ref: NodeRef, added: seq<NodeRef>)
    requires forall i :: 0 <= i < |work| ==> Placed(before, work[i])
    requires forall i, j :: 0 <= i < j < |work| ==> work[i] != work[j]
    requires Placed(after, ref) && KeepsOthers(before, after, ref) && FreshRefs(before, added)
    requires forall k :: 0 <= k < |added| ==> Placed(after, added[k])
    ensures forall i :: 0 <= i < |work + added| ==> Placed(after, (work + added)[i])
    ensures forall i, j :: 0 <= i < j < |work + added| ==> (work + added)[i] != (work + added)[j]
  {
    var next := work + added;
    forall i | 0 <= i < |next|
      ensures Placed(after, next[i])
    {
      if i < |work| {
        assert Placed(before, work[i]);
      } else {
        assert next[i] == added[i - |work|];
      }
    }
    forall i, j | 0 <= i < j < |next|
      ensures next[i] != next[j]
    {
      if j < |work| {
        assert next[i] == work[i] && next[j] == work[j];
      } else if i < |work| {
        assert Placed(before, work[i]) && next[j] == added[j - |work|];
      } else {
        assert next[i] == added[i - |work|] && next[j] == added[j - |work|];
      }
    }
  }

  /** What a run reports about its work list, from the piles `table` it leaves: the list is
      first-in, first-out (the visited nodes are a prefix of the enqueued ones, which are the
      root followed by the children of the visited nodes, node after node, and a finished
      run visited them all); unless the run crashed, the visited nodes explored the graph;
      and `counts` records exactly the visits made. */
  ghost predicate RunShape(table: PileTable, initial: PileTable, start: Option<Context>, visited: seq<NodeRef>,
                           enqueued: seq<NodeRef>, counts: map<int, nat>, maxNodeVisits: int, outcome: ExecOutcome)
  {
    && |visited| <= |enqueued| && visited == enqueued[..|visited|]
    && [Root] + ChildrenOf(table, visited) <= enqueued
    && (outcome.Finished? ==> visited == enqueued && enqueued == [Root] + ChildrenOf(table, enqueued))
    && (!outcome.Crashed? ==> Explored(table, initial, start, visited))
    && RecordAll(map[], AddressesOf(visited), maxNodeVisits) == Some(counts)
  }

  /** What a run reports about its first step: a negative ceiling refuses the root before
      anything runs, a root without a context is a null dereference, a failing root handler
      ends the run with its exception, and a run that visited nothing crashed. */
  ghost predicate StartShape(start: Option<Context>, rootHandler: Handlers.Handler, maxNodeVisits: int,
                             visited: seq<NodeRef>, outcome: ExecOutcome)
  {
    && (maxNodeVisits < 0 ==> outcome == MaxNodeVisitsExceeded(0) && visited == [])
    && (maxNodeVisits >= 0 && start.None? ==> outcome == Crashed(NullContext))
    && (maxNodeVisits >= 0 && start.Some? && Handlers.Execute(rootHandler, start.value).Failure? ==>
          outcome == Crashed(Handlers.Execute(rootHandler, start.value).fault))
    && (maxNodeVisits >= 0 && start.Some? && visited == [] ==> outcome.Crashed?)
  }

  /** Where a run that did not finish stopped: at `enqueued[|visited|]`, the node after the
      visited ones, on the piles `last` its visit began with. The visited nodes had explored
      `last` and the stopping node is the next one of the work list they made; the root still
      had the start context if nothing was visited; the stopping visit changed no other node;
      at the node-visit ceiling the reported address is the stopping node's and the piles are
      `last`; and a crash has its cause in the stopping node. */
  ghost predicate StoppedAt(last: PileTable, table: PileTable, initial: PileTable, start: Option<Context>,
                            visited: seq<NodeRef>, enqueued: seq<NodeRef>, outcome: ExecOutcome)
  {
    && |visited| < |enqueued| && |visited| < |[Root] + ChildrenOf(last, visited)|
    && [Root] + ChildrenOf(last, visited) <= enqueued
    && Grown(initial, last) && Explored(last, initial, start, visited)
    && (visited == [] ==> Placed(last, Root) && NodeAt(last, Root).context == start)
    && KeepsOthers(last, table, enqueued[|visited|])
    && (outcome.MaxNodeVisitsExceeded? ==> outcome.address == enqueued[|visited|].address && table == last)
    && (outcome.Crashed? ==> CrashCause(last, enqueued[|visited|], outcome.fault))
  }

  /** The turn that stopped the run at `work[head]` is `StoppedAt` from the piles it began with. */
  lemma StoppedTurn(before: PileTable, after: PileTable, initial: PileTable, start: Option<Context>,
                    work: seq<NodeRef>, head: nat, counts: map<int, nat>, maxNodeVisits: int,
                    pushed: seq<NodeRef>, outcome: ExecOutcome)
    requires head < |work| && Progress(before, initial, start, work, head, counts, maxNodeVisits)
    requires Grown(initial, before) && KeepsOthers(before, after, work[head])
    requires head == 0 ==> before[0][0].context == start
    requires outcome.MaxNodeVisitsExceeded? ==> outcome.address == work[head].address && after == before
    requires outcome.Crashed? ==> CrashCause(before, work[head], outcome.fault)
    ensures StoppedAt(before, after, initial, start, work[..head], work + pushed, outcome)
  {
    assert (work + pushed)[..|work|] == work;
    assert (work + pushed)[head] == work[head];
    assert |work[..head]| == head;
    if head == 0 {
      assert work[0] == Root;
    }
  }

  /** How a turn that stopped at `work[head]` left the piles `after`, from the piles `before`
      its visit began with: no node but that one changed and the visited part of the work
      list keeps its order; at the node-visit ceiling the reported address is the node's,
      whose budget is used up, and nothing changed; a crash has its cause in the node; and a
      stop at the root is the one its start calls for. */
  ghost predicate Halted(before: PileTable, after: PileTable, start: Option<Context>, rootHandler: Handlers.Handler,
                         work: seq<NodeRef>, head: nat, counts: map<int, nat>, maxNodeVisits: int, outcome: ExecOutcome)
  {
    && head < |work| && !outcome.Finished?
    && KeepsOthers(before, after, work[head])
    && work == [Root] + ChildrenOf(after, work[..head])
    && (outcome.MaxNodeVisitsExceeded? ==>
          && after == before && outcome.address == work[head].address
          && VisitCount(counts, outcome.address) == Budget(maxNodeVisits))
    && (outcome.Crashed? ==> CrashCause(before, work[head], outcome.fault))
    && (head == 0 && maxNodeVisits < 0 ==> outcome == MaxNodeVisitsExceeded(0))
    && (head == 0 && maxNodeVisits >= 0 && start.None? ==> outcome == Crashed(NullContext))
    && (head == 0 && maxNodeVisits >= 0 && start.Some? ==>
          var step := Handlers.Execute(rootHandler, start.value);
          (step.Failure? ==> outcome == Crashed(step.fault)) && outcome.Crashed?)
  }

  /** A run that stops at `work[head]` reports the nodes before it as visited, and stopped
      there on the piles the stopping visit began with. */
  lemma StoppedRun(before: PileTable, after: PileTable, initial: PileTable, start: Option<Context>,
                   rootHandler: Handlers.Handler, work: seq<NodeRef>, head: nat, counts: map<int, nat>,
                   maxNodeVisits: int, pushed: seq<NodeRef>, outcome: ExecOutcome)
    requires Looping(before, initial, start, rootHandler, work, head, counts, maxNodeVisits)
    requires Halted(before, after, start, rootHandler, work, head, counts, maxNodeVisits, outcome)
    requires Grown(initial, after) && NewSlotsListed(initial, after, work + pushed)
    ensures RunReport(initial, start, rootHandler, maxNodeVisits, Trace(after, before, work[..head], work + pushed, counts),
                      outcome)
  {
    assert (work + pushed)[..head] == work[..head];
    assert work <= work + pushed;
    StoppedTurn(before, after, initial, start, work, head, counts, maxNodeVisits, pushed, outcome);
  }

  /** A run whose work list ran out visited every node on it. */
  lemma FinishedRun(table: PileTable, initial: PileTable, start: Option<Context>, rootHandler: Handlers.Handler,
                    work: seq<NodeRef>, counts: map<int, nat>, maxNodeVisits: int)
    requires Looping(table, initial, start, rootHandler, work, |work|, counts, maxNodeVisits)
    requires maxNodeVisits >= 0 && start.Some? && Handlers.Execute(rootHandler, start.value).Success?
    ensures RunReport(initial, start, rootHandler, maxNodeVisits, Trace(table, table, work, work, counts), Finished)
  {
    assert work[..|work|] == work;
    RootKeepsRegisters(table, initial, start, work);
  }

  /** A visit of the next node of the work list leaves the order of the visited part alone. */
  lemma WorkListKept(before: PileTable, after: PileTable, initial: PileTable, start: Option<Context>,
                     work: seq<NodeRef>, head: nat, counts: map<int, nat>, maxNodeVisits: int)
    requires head < |work| && Progress(before, initial, start, work, head, counts, maxNodeVisits)
    requires KeepsOthers(before, after, work[head])
    ensures work == [Root] + ChildrenOf(after, work[..head])
  {
    var done := work[..head];
    forall i | 0 <= i < head
      ensures Placed(before, done[i]) && done[i] != work[head]
    {
      assert work[i] != work[head];
    }
    ChildrenOfKept(before, after, done, work[head]);
  }

  /** A turn whose visit completed: the node was waiting, so the clones it pushed are all
      its children, and the work list keeps its order with them at the end. */
  lemma ContinuedTurn(before: PileTable, after: PileTable, initial: PileTable, start: Option<Context>,
                      work: seq<NodeRef>, head: nat, counts: map<int, nat>, maxNodeVisits: int,
                      added: seq<NodeRef>, pushed: seq<NodeRef>, recorded: map<int, nat>)
    requires WellFormedTable(initial) && Grown(initial, before)
    requires head < |work| && Progress(before, initial, start, work, head, counts, maxNodeVisits)
    requires head == 0 ==> NodeAt(before, Root).context == start && NodeAt(before, Root).children == []
    requires Ran(before, after, initial, work[head], added)
    requires pushed == NodeAt(before, work[head]).children + added
    requires VisitCount(counts, work[head].address) < Budget(maxNodeVisits)
    requires recorded == Counted(counts, work[head].address)
    ensures Progress(after, initial, start, work + pushed, head + 1, recorded, maxNodeVisits)
  {
    var ref := work[head];
    if head > 0 {
      NextIsWaiting(before, initial, start, work, head);
    } else {
      assert ref == Root && counts == map[];
    }
    assert Waiting(before, initial, ref);
    assert pushed == [] + added == added;
    ProgressAfterVisit(before, after, initial, start, work, head, counts, maxNodeVisits, added);
  }

  /** One turn of the work loop: the node `work[head]` is visited, and its children join the
      end of the work list. */
  method Turn(graph: ContextGraph, maxNodeVisits: int, ghost initial: PileTable, ghost start: Option<Context>,
              ghost rootHandler: Handlers.Handler, work: seq<NodeRef>, head: nat, counts: map<int, nat>)
    returns (result: VisitResult, recorded: map<int, nat>, pushed: seq<NodeRef>)
    requires graph.Valid() && WellFormedTable(initial) && 0 in graph.addressToNodePile
    requires Grown(initial, graph.addressToNodePile) && NewSlotsListed(initial, graph.addressToNodePile, work)
    requires forall a :: VisitCount(counts, a) <= Budget(maxNodeVisits)
    requires head < |work| && Progress(graph.addressToNodePile, initial, start, work, head, counts, maxNodeVisits)
    requires head == 0 ==>
      graph.addressToNodePile[0][0].context == start && graph.addressToNodePile[0][0].children == []
      && graph.addressToNodePile[0][0].handler == rootHandler
    modifies graph
    ensures graph.Valid() && 0 in graph.addressToNodePile
    ensures Grown(initial, graph.addressToNodePile) && NewSlotsListed(initial, graph.addressToNodePile, work + pushed)
    ensures forall a :: VisitCount(recorded, a) <= Budget(maxNodeVisits)
    ensures work == [Root] + ChildrenOf(graph.addressToNodePile, work[..head])
    ensures result.Continue? ==>
      && Progress(graph.addressToNodePile, initial, start, work + pushed, head + 1, recorded, maxNodeVisits)
      && VisitCount(counts, work[head].address) < Budget(maxNodeVisits) && work[head].address in graph.addresses
      && recorded == Counted(counts, work[head].address)
    ensures result.Continue? && head == 0 ==>
      maxNodeVisits >= 0 && start.Some? && Handlers.Execute(rootHandler, start.value).Success?
    ensures result.Stop? ==>
      Halted(old(graph.addressToNodePile), graph.addressToNodePile, start, rootHandler, work, head, counts,
             maxNodeVisits, result.outcome)
  {
    ghost var before := graph.addressToNodePile;
    if head == 0 {
      assert work[head] == Root && counts == map[];
    }
    ghost var added;
    result, recorded, pushed, added := Visit(graph, work[head], counts, maxNodeVisits, initial, work);
    WorkListKept(before, graph.addressToNodePile, initial, start, work, head, counts, maxNodeVisits);
    if result.Continue? {
      ContinuedTurn(before, graph.addressToNodePile, initial, start, work, head, counts, maxNodeVisits, added, pushed, recorded);
    }
  }

  /** The ghost record of one run: the piles `table` it left, the piles `last` the stopping
      visit began with, the nodes `visited` and `enqueued`, and the visit table `counts`. */
  datatype Trace = Trace(table: PileTable, last: PileTable, visited: seq<NodeRef>, enqueued: seq<NodeRef>,
                         counts: map<int, nat>)

  /** What the work loop reports from the piles `initial`, started with the root's context
      `start` and the root's handler `rootHandler`, with `trace` its record: the piles only
      grew, by the nodes enqueued; no address went over its budget, and the ceiling address
      used all of it; the run keeps to `RunShape` and `StartShape`, and unless it finished it
      is `StoppedAt` the next node; a finished root keeps the start context's registers. */
  ghost predicate RunReport(initial: PileTable, start: Option<Context>, rootHandler: Handlers.Handler,
                            maxNodeVisits: int, trace: Trace, outcome: ExecOutcome)
  {
    && Grown(initial, trace.table) && NewSlotsListed(initial, trace.table, trace.enqueued)
    && (forall a :: VisitCount(trace.counts, a) <= Budget(maxNodeVisits))
    && (outcome.MaxNodeVisitsExceeded? ==> VisitCount(trace.counts, outcome.address) == Budget(maxNodeVisits))
    && RunShape(trace.table, initial, start, trace.visited, trace.enqueued, trace.counts, maxNodeVisits, outcome)
    && StartShape(start, rootHandler, maxNodeVisits, trace.visited, outcome)
    && (!outcome.Finished? ==>
          StoppedAt(trace.last, trace.table, initial, start, trace.visited, trace.enqueued, outcome))
    && (outcome.Finished? ==>
          && RootNode(trace.table).Some? && RootNode(trace.table).value.context.Some? && start.Some?
          && RootNode(trace.table).value.context.value.registers == start.value.registers)
  }

  /** What holds between two turns of the work loop: the run's table grew from `initial` by
      the nodes on the work list, the work list and visit table made `Progress`, no address
      went over its budget, and unless the root was visited the root is as the run found it,
      else the root's step succeeded. */
  ghost predicate Looping(table: PileTable, initial: PileTable, start: Option<Context>, rootHandler: Handlers.Handler,
                          work: seq<NodeRef>, head: nat, counts: map<int, nat>, maxNodeVisits: int)
  {
    && 0 in table && Grown(initial, table) && NewSlotsListed(initial, table, work)
    && Progress(table, initial, start, work, head, counts, maxNodeVisits)
    && (head == 0 ==> table[0][0].context == start && table[0][0].children == [] && table[0][0].handler == rootHandler)
    && (head > 0 ==> maxNodeVisits >= 0 && start.Some? && Handlers.Execute(rootHandler, start.value).Success?)
    && (forall a :: VisitCount(counts, a) <= Budget(maxNodeVisits))
  }

  /** A turn that continues keeps the loop going: `Looping` holds one node further on. */
  lemma LoopStep(before: PileTable, after: PileTable, initial: PileTable, start: Option<Context>,
                 rootHandler: Handlers.Handler, work: seq<NodeRef>, head: nat, counts: map<int, nat>,
                 maxNodeVisits: int, pushed: seq<NodeRef>, recorded: map<int, nat>)
    requires Looping(before, initial, start, rootHandler, work, head, counts, maxNodeVisits)
    requires 0 in after && Grown(initial, after) && NewSlotsListed(initial, after, work + pushed)
    requires Progress(after, initial, start, work + pushed, head + 1, recorded, maxNodeVisits)
    requires forall a :: VisitCount(recorded, a) <= Budget(maxNodeVisits)
    requires head == 0 ==> maxNodeVisits >= 0 && start.Some? && Handlers.Execute(rootHandler, start.value).Success?
    ensures Looping(after, initial, start, rootHandler, work + pushed, head + 1, recorded, maxNodeVisits)
  {
  }

  /** The work loop, from the root and an empty visit table. `start` is the root's context
      when the loop begins; `initial` the piles the run's templates come from. `visited` are
      the nodes taken from the work list whose visit completed, in order, and `enqueued`
      every node ever put on it. The list is first-in, first-out: the visited nodes are a
      prefix of the enqueued ones, which are the root followed by the children of the
      visited nodes, node after node. */
  method Run(graph: ContextGraph, maxNodeVisits: int, ghost initial: PileTable, ghost start: Option<Context>,
             ghost rootHandler: Handlers.Handler)
    returns (outcome: ExecOutcome, counts: map<int, nat>, ghost trace: Trace)
    requires graph.Valid() && WellFormedTable(initial) && 0 in graph.addressToNodePile
    requires graph.addressToNodePile[0][0].context == start && graph.addressToNodePile[0][0].children == []
    requires graph.addressToNodePile[0][0].handler == rootHandler
    requires Grown(initial, graph.addressToNodePile)
    requires forall a :: a in initial ==> |initial[a]| == |graph.addressToNodePile[a]|
    modifies graph
    ensures graph.Valid()
    ensures trace.table == graph.addressToNodePile && trace.counts == counts
    ensures RunReport(initial, start, rootHandler, maxNodeVisits, trace, outcome)
    ensures |trace.visited| <= |graph.addresses| * Budget(maxNodeVisits)
  {
    var budget := Budget(maxNodeVisits);
    counts := map[];
    // Every node ever put on the work list, in order; the ones still waiting are work[head..].
    var work := [Root];
    var head := 0;
    ghost var total := |graph.addresses| * budget;
    RemainingInitial(graph.addresses, budget);
    assert work[..head] == [];
    while head < |work|
      invariant graph.Valid()
      invariant Looping(graph.addressToNodePile, initial, start, rootHandler, work, head, counts, maxNodeVisits)
      invariant head + Remaining(counts, graph.addresses, budget) <= total
      decreases Remaining(counts, graph.addresses, budget)
    {
      ghost var before := graph.addressToNodePile;
      var result, recorded, pushed := Turn(graph, maxNodeVisits, initial, start, rootHandler, work, head, counts);
      if result.Stop? {
        StoppedRun(before, graph.addressToNodePile, initial, start, rootHandler, work, head, counts, maxNodeVisits,
                   pushed, result.outcome);
        return result.outcome, counts, Trace(graph.addressToNodePile, before, work[..head], work + pushed, counts);
      }
      LoopStep(before, graph.addressToNodePile, initial, start, rootHandler, work, head, counts, maxNodeVisits,
               pushed, recorded);
      RemainingDecreases(counts, graph.addresses, budget, work[head].address);
      head := head + 1;
      work := work + pushed;
      counts := recorded;
    }
    FinishedRun(graph.addressToNodePile, initial, start, rootHandler, work, counts, maxNodeVisits);
    return Finished, counts, Trace(graph.addressToNodePile, graph.addressToNodePile, work, work, counts);
  }

  /** What execute(methodDescriptor, mctx) reports about a run on the piles `initial` under the
      ceiling `maxNodeVisits`, with `trace` its record and `outcome` how it ended. A graph
      without a root is a null dereference before anything runs and changes nothing;
      otherwise the work loop runs from `mctx`, or from the root's own context when none is
      given, as `RunReport` states. */
  ghost predicate Executed(initial: PileTable, mctx: Option<Context>, maxNodeVisits: int, trace: Trace,
                           outcome: ExecOutcome)
  {
    if RootNode(initial).None? then
      outcome == Crashed(MissingNode(0)) && trace == Trace(initial, initial, [], [], map[])
    else
      RunReport(initial, StartContext(initial, mctx), RootNode(initial).value.handler, maxNodeVisits, trace, outcome)
  }

  /** execute(methodDescriptor, mctx) on the graph the machine hands over: a given context
      becomes the root's, then the work loop runs from the root's context. */
  method Execute(graph: ContextGraph, mctx: Option<Context>, maxNodeVisits: int)
    returns (outcome: ExecOutcome, ghost trace: Trace)
    requires graph.Valid() && RootUnexpanded(graph.addressToNodePile)
    modifies graph
    ensures graph.Valid()
    ensures trace.table == graph.addressToNodePile
    ensures Executed(old(graph.addressToNodePile), mctx, maxNodeVisits, trace, outcome)
    ensures |trace.visited| <= |graph.addresses| * Budget(maxNodeVisits)
  {
    if 0 !in graph.addressToNodePile {
      return Crashed(MissingNode(0)), Trace(graph.addressToNodePile, graph.addressToNodePile, [], [], map[]);
    }
    ghost var initial: PileTable := graph.addressToNodePile;
    if mctx.Some? {
      var _ := graph.SetRootContext(mctx.value);
    }
    ghost var start := StartContext(initial, mctx);
    assert graph.addressToNodePile[0][0].context == start;
    var counts;
    outcome, counts, trace := Run(graph, maxNodeVisits, initial, start, initial[0][0].handler);
  }
}
