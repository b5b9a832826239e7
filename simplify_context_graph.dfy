/** The per-method execution graph keyed by code address (simplify.vm.ContextGraph): one
    node pile per instruction address, the statically terminating addresses, and the
    queries optimisation passes ask of a graph after execution. */
module SimplifyGraph {
  import opened Values
  import opened Instructions
  import opened Handlers
  import opened Nodes

  /** The template node built for an instruction: its handler, created at its address. */
  function TemplateFor(instruction: Instruction): ContextNode
  {
    NewNode(CreateHandler(instruction, instruction.address))
  }

  /** No later instruction has the same address (the last put for a key wins). */
  predicate LastAtAddress(instructions: seq<Instruction>, k: int)
    requires 0 <= k < |instructions|
  {
    forall j :: k < j < |instructions| ==> instructions[j].address != instructions[k].address
  }

  /** The addresses of the instructions that cannot continue, in instruction order. */
  function TerminatingAddresses(instructions: seq<Instruction>): seq<int>
  {
    if |instructions| == 0 then []
    else
      var last := instructions[|instructions| - 1];
      TerminatingAddresses(instructions[..|instructions| - 1]) + (if last.canContinue then [] else [last.address])
  }

  /** An address is listed exactly when some instruction at it cannot continue. */
  lemma {:induction false} TerminatingAddressesMembership(instructions: seq<Instruction>, a: int)
    ensures a in TerminatingAddresses(instructions) <==>
      exists k :: 0 <= k < |instructions| && !instructions[k].canContinue && instructions[k].address == a
  {
    if |instructions| > 0 {
      var front := instructions[..|instructions| - 1];
      TerminatingAddressesMembership(front, a);
      if exists k :: 0 <= k < |instructions| && !instructions[k].canContinue && instructions[k].address == a {
        var k :| 0 <= k < |instructions| && !instructions[k].canContinue && instructions[k].address == a;
        if k < |front| {
          assert front[k] == instructions[k];
        }
      }
      if exists k :: 0 <= k < |front| && !front[k].canContinue && front[k].address == a {
        var k :| 0 <= k < |front| && !front[k].canContinue && front[k].address == a;
        assert instructions[k] == front[k];
      }
    }
  }

  /** buildTerminatingAddresses. */
  method BuildTerminatingAddresses(instructions: seq<Instruction>) returns (result: seq<int>)
    ensures result == TerminatingAddresses(instructions)
  {
    result := [];
    var k := 0;
    while k < |instructions|
      invariant 0 <= k <= |instructions|
      invariant result == TerminatingAddresses(instructions[..k])
    {
      assert instructions[..k + 1][..k] == instructions[..k];
      if !instructions[k].canContinue {
        result := result + [instructions[k].address];
      }
      k := k + 1;
    }
    assert instructions[..k] == instructions;
  }

  /** buildAddressToNodePile: every instruction address maps to a pile holding exactly one
      node, the template of the last instruction at that address. */
  method BuildAddressToNodePile(instructions: seq<Instruction>) returns (table: PileTable)
    ensures table.Keys == set k | 0 <= k < |instructions| :: instructions[k].address
    ensures forall k :: 0 <= k < |instructions| && LastAtAddress(instructions, k) ==>
      table[instructions[k].address] == [TemplateFor(instructions[k])]
    ensures forall a :: a in table ==>
      (|table[a]| == 1 && table[a][0].address == a && table[a][0].context == None && table[a][0].children == [])
  {
    table := map[];
    var k := 0;
    while k < |instructions|
      invariant 0 <= k <= |instructions|
      invariant table.Keys == set j | 0 <= j < k :: instructions[j].address
      invariant forall j :: 0 <= j < k && (forall m :: j < m < k ==> instructions[m].address != instructions[j].address) ==>
        table[instructions[j].address] == [TemplateFor(instructions[j])]
      invariant forall a :: a in table ==>
        (|table[a]| == 1 && table[a][0].address == a && table[a][0].context == None && table[a][0].children == [])
    {
      table := table[instructions[k].address := [TemplateFor(instructions[k])]];
      k := k + 1;
    }
  }

  /** getNodePile: the clones at an address, the template left out; at address 0 (and
      below) the whole pile, so the live root node is included. None: no pile there. */
  function NodePile(table: PileTable, address: int): (r: Option<seq<ContextNode>>)
    ensures r.Some? <==> address in table && (address > 0 ==> |table[address]| > 0)
    ensures r.Some? && address > 0 ==> [TemplateNode(table, address).value] + r.value == table[address]
    ensures r.Some? && address <= 0 ==> r.value == table[address]
  {
    if address !in table then None
    else if address > 0 then
      (if |table[address]| == 0 then None
       else
         assert [table[address][0]] + table[address][1..] == table[address];
         Some(table[address][1..]))
    else Some(table[address])
  }

  /** getRootNode: the first node of pile 0. */
  function RootNode(table: PileTable): (r: Option<ContextNode>)
    ensures r == TemplateNode(table, 0)
  {
    if 0 in table && |table[0]| > 0 then Some(table[0][0]) else None
  }

  /** getTemplateNode: the first node of a pile. */
  function TemplateNode(table: PileTable, address: int): (r: Option<ContextNode>)
    ensures r.Some? <==> address in table && |table[address]| > 0
    ensures r.Some? ==> r.value == table[address][0]
  {
    if address in table && |table[address]| > 0 then Some(table[address][0]) else None
  }

  /** wasAddressReached, as written: address 0 always, otherwise a non-empty pile. */
  function WasAddressReached(table: PileTable, address: int): (r: Option<bool>)
    ensures r.None? <==> address != 0 && address !in table
    ensures address == 0 ==> r == Some(true)
    ensures address != 0 && r.Some? ==> (r.value <==> TemplateNode(table, address).Some?)
  {
    if address == 0 then Some(true)
    else if address !in table then None
    else Some(|table[address]| > 0)
  }

  /** The reachability test the comment in the source describes: a clone in the pile. */
  function WasAddressReachedIntended(table: PileTable, address: int): Option<bool>
  {
    if address == 0 then Some(true)
    else if address !in table then None
    else Some(|table[address]| > 1)
  }

  /** Every pile is non-empty and every node sits in the pile of its own address. */
  ghost predicate WellFormedTable(table: PileTable)
  {
    && (forall a :: a in table ==> |table[a]| > 0)
    && (forall a, i :: a in table && 0 <= i < |table[a]| ==> table[a][i].address == a)
  }

  /** Apart from address 0, getNodePile leaves out exactly the template. */
  lemma NodePileDropsTemplate(table: PileTable, address: int)
    requires WellFormedTable(table) && address in table
    ensures NodePile(table, address).Some?
    ensures address > 0 ==> NodePile(table, address).value == table[address][1..]
    ensures address > 0 ==> |NodePile(table, address).value| == |table[address]| - 1
    ensures address <= 0 ==> NodePile(table, address).value == table[address]
    ensures address == 0 ==> NodePile(table, 0).value[0] == RootNode(table).value
  {
  }

  /** As written, every address of a well-formed table counts as reached. */
  lemma WasAddressReachedAlwaysHolds(table: PileTable, address: int)
    requires WellFormedTable(table) && address in table
    ensures WasAddressReached(table, address) == Some(true)
  {
  }

  /** A freshly built pile (template only) is reported as reached as written, and as not
      reached by the intended test. */
  lemma WasAddressReachedCounterexample(h: Handler)
    ensures var table := map[0 := [NewNode(h)], 2 := [ContextNode(2, h, None, [])]];
      NodePile(table, 2) == Some([])
      && WasAddressReached(table, 2) == Some(true)
      && WasAddressReachedIntended(table, 2) == Some(false)
  {
    assert [ContextNode(2, h, None, [])][1..] == [];
  }

  /** The intended test holds exactly for the root and for addresses with a clone. */
  lemma WasAddressReachedIntendedMeaning(table: PileTable, address: int)
    requires WellFormedTable(table) && address in table && address >= 0
    ensures WasAddressReachedIntended(table, address) == Some(address == 0 || NodePile(table, address).value != [])
  {
    assert |table[address][1..]| == |table[address]| - 1;
  }

  /** The order-preserving sub-list of addresses a reachability test accepts. */
  function ReachedAmong(table: PileTable, addresses: seq<int>, reached: (PileTable, int) -> Option<bool>): seq<int>
  {
    if |addresses| == 0 then []
    else
      var last := addresses[|addresses| - 1];
      ReachedAmong(table, addresses[..|addresses| - 1], reached) + (if reached(table, last) == Some(true) then [last] else [])
  }

  lemma {:induction false} ReachedAmongMembership(table: PileTable, addresses: seq<int>, reached: (PileTable, int) -> Option<bool>, a: int)
    ensures a in ReachedAmong(table, addresses, reached) <==> a in addresses && reached(table, a) == Some(true)
  {
    if |addresses| > 0 {
      var front := addresses[..|addresses| - 1];
      ReachedAmongMembership(table, front, reached, a);
      assert addresses == front + [addresses[|addresses| - 1]];
    }
  }

  /** With the test as written, when every address is a key, all of them are kept, in order. */
  lemma {:induction false} ReachedAmongKeepsAllKeys(table: PileTable, addresses: seq<int>)
    requires WellFormedTable(table)
    requires forall k :: 0 <= k < |addresses| ==> addresses[k] in table
    ensures ReachedAmong(table, addresses, WasAddressReached) == addresses
  {
    if |addresses| > 0 {
      var front := addresses[..|addresses| - 1];
      ReachedAmongKeepsAllKeys(table, front);
      assert addresses == front + [addresses[|addresses| - 1]];
    }
  }

  /** The register stores probed at one address: one per node of getNodePile, or a single
      None when the pile is missing (the source fails there). */
  function Probe(table: PileTable, address: int, register: int): seq<Option<RegisterStore>>
  {
    match NodePile(table, address)
    case None => [None]
    case Some(pile) => seq(|pile|, i requires 0 <= i < |pile| => StoreOf(pile[i], register))
  }

  /** The stores probed at each address in turn. */
  function Probes(table: PileTable, addresses: seq<int>, register: int): seq<Option<RegisterStore>>
  {
    if |addresses| == 0 then [] else Probe(table, addresses[0], register) + Probes(table, addresses[1..], register)
  }

  /** The comparison loop: the first undefined store fails, the first disagreeing store
      (type or value) gives the unknown store, and otherwise the first store stands. */
  function Scan(items: seq<Option<RegisterStore>>, first: RegisterStore): Option<RegisterStore>
  {
    if |items| == 0 then Some(first)
    else if items[0].None? then None
    else if items[0].value != first then Some(UnknownStore)
    else Scan(items[1..], first)
  }

  /** The store of the first node of getNodePile(addresses[0]). */
  function FirstStore(table: PileTable, addresses: seq<int>, register: int): Option<RegisterStore>
  {
    if |addresses| == 0 then None
    else
      match NodePile(table, addresses[0])
      case None => None
      case Some(pile) => if |pile| == 0 then None else StoreOf(pile[0], register)
  }

  /** getConsensus as written: the first node at addresses[0] against every node at the
      remaining addresses. None: the source fails (no address, no pile, an empty pile, a node
      without context, or a register outside the file). */
  function Consensus(table: PileTable, addresses: seq<int>, register: int): (r: Option<RegisterStore>)
    ensures FirstStore(table, addresses, register).None? ==> r.None?
    ensures r.Some? ==> r == FirstStore(table, addresses, register) || r == Some(UnknownStore)
  {
    match FirstStore(table, addresses, register)
    case None => None
    case Some(first) =>
      ScanResult(Probes(table, addresses[1..], register), first);
      Scan(Probes(table, addresses[1..], register), first)
  }

  /** Consensus comparing every node at every given address. */
  function ConsensusIntended(table: PileTable, addresses: seq<int>, register: int): Option<RegisterStore>
  {
    match FirstStore(table, addresses, register)
    case None => None
    case Some(first) => Scan(Probes(table, addresses, register), first)
  }

  /** When every probed store is defined and equal to the first, the first stands. */
  lemma {:induction false} ScanAgreement(items: seq<Option<RegisterStore>>, first: RegisterStore)
    requires forall k :: 0 <= k < |items| ==> items[k] == Some(first)
    ensures Scan(items, first) == Some(first)
  {
    if |items| > 0 {
      ScanAgreement(items[1..], first);
    }
  }

  /** When every probed store is defined and one disagrees, the result is the unknown store. */
  lemma {:induction false} ScanDisagreement(items: seq<Option<RegisterStore>>, first: RegisterStore, k: int)
    requires forall j :: 0 <= j < |items| ==> items[j].Some?
    requires 0 <= k < |items| && items[k] != Some(first)
    ensures Scan(items, first) == Some(UnknownStore)
  {
    if items[0] == Some(first) {
      ScanDisagreement(items[1..], first, k - 1);
    }
  }

  /** A scan yields either the first store or the unknown store, or fails. */
  lemma {:induction false} ScanResult(items: seq<Option<RegisterStore>>, first: RegisterStore)
    ensures Scan(items, first).Some? ==> Scan(items, first) == Some(first) || Scan(items, first) == Some(UnknownStore)
  {
    if |items| > 0 && items[0] == Some(first) {
      ScanResult(items[1..], first);
    }
  }

  /** What a scan over fully defined stores means: the first store when all agree, the
      unknown store when one disagrees. */
  lemma ScanMeaning(items: seq<Option<RegisterStore>>, first: RegisterStore)
    ensures (forall k :: 0 <= k < |items| ==> items[k] == Some(first)) ==> Scan(items, first) == Some(first)
    ensures (forall k :: 0 <= k < |items| ==> items[k].Some?) && (exists k :: 0 <= k < |items| && items[k] != Some(first))
      ==> Scan(items, first) == Some(UnknownStore)
    ensures Scan(items, first).Some? ==> Scan(items, first) == Some(first) || Scan(items, first) == Some(UnknownStore)
  {
    if forall k :: 0 <= k < |items| ==> items[k] == Some(first) {
      ScanAgreement(items, first);
    }
    if (forall k :: 0 <= k < |items| ==> items[k].Some?) && (exists k :: 0 <= k < |items| && items[k] != Some(first)) {
      var k :| 0 <= k < |items| && items[k] != Some(first);
      ScanDisagreement(items, first, k);
    }
    ScanResult(items, first);
  }

  /** getConsensus returns the first node's store when every later store equals it, the
      unknown store ("?", Unknown) when all are defined and one differs, and nothing else. */
  lemma ConsensusMeaning(table: PileTable, addresses: seq<int>, register: int)
    requires FirstStore(table, addresses, register).Some?
    ensures (forall k :: 0 <= k < |Probes(table, addresses[1..], register)| ==>
               Probes(table, addresses[1..], register)[k] == FirstStore(table, addresses, register))
            ==> Consensus(table, addresses, register) == FirstStore(table, addresses, register)
    ensures (forall k :: 0 <= k < |Probes(table, addresses[1..], register)| ==> Probes(table, addresses[1..], register)[k].Some?)
            && (exists k :: 0 <= k < |Probes(table, addresses[1..], register)| &&
                  Probes(table, addresses[1..], register)[k] != FirstStore(table, addresses, register))
            ==> Consensus(table, addresses, register) == Some(UnknownStore)
    ensures Consensus(table, addresses, register).Some? ==>
      Consensus(table, addresses, register) == FirstStore(table, addresses, register)
      || Consensus(table, addresses, register) == Some(UnknownStore)
  {
    ScanMeaning(Probes(table, addresses[1..], register), FirstStore(table, addresses, register).value);
  }

  /** The intended consensus: the first store when every store at every address equals it,
      the unknown store when all are defined and one differs. */
  lemma ConsensusIntendedMeaning(table: PileTable, addresses: seq<int>, register: int)
    requires FirstStore(table, addresses, register).Some?
    ensures (forall k :: 0 <= k < |Probes(table, addresses, register)| ==>
               Probes(table, addresses, register)[k] == FirstStore(table, addresses, register))
            ==> ConsensusIntended(table, addresses, register) == FirstStore(table, addresses, register)
    ensures (forall k :: 0 <= k < |Probes(table, addresses, register)| ==> Probes(table, addresses, register)[k].Some?)
            && (exists k :: 0 <= k < |Probes(table, addresses, register)| &&
                  Probes(table, addresses, register)[k] != FirstStore(table, addresses, register))
            ==> ConsensusIntended(table, addresses, register) == Some(UnknownStore)
  {
    ScanMeaning(Probes(table, addresses, register), FirstStore(table, addresses, register).value);
  }

  /** The single-address form always returns the first node's store: no other node is compared. */
  lemma SingleAddressConsensus(table: PileTable, address: int, register: int)
    ensures Consensus(table, [address], register) == FirstStore(table, [address], register)
  {
    assert [address][1..] == [];
  }

  /** Two clones at one address disagreeing on register 0 still give the first clone's store
      as written; the intended consensus reports the unknown store. */
  lemma ConsensusCounterexample(h: Handler)
    ensures var one := RegisterStore("I", Known(IntPayload(1)));
      var two := RegisterStore("I", Known(IntPayload(2)));
      var table := map[1 := [ContextNode(1, h, None, []),
                             ContextNode(1, h, Some(Context([one], None)), []),
                             ContextNode(1, h, Some(Context([two], None)), [])]];
      Consensus(table, [1], 0) == Some(one) && ConsensusIntended(table, [1], 0) == Some(UnknownStore)
  {
    var one := RegisterStore("I", Known(IntPayload(1)));
    var two := RegisterStore("I", Known(IntPayload(2)));
    var table := map[1 := [ContextNode(1, h, None, []),
                           ContextNode(1, h, Some(Context([one], None)), []),
                           ContextNode(1, h, Some(Context([two], None)), [])]];
    SingleAddressConsensus(table, 1, 0);
    var items := Probes(table, [1], 0);
    assert [1][1..] == [];
    assert items == Probe(table, 1, 0);
    assert items[1] == Some(two);
    ScanDisagreement(items, one, 1);
  }

  /** Code addresses grow strictly along the instruction list (each instruction takes at
      least one code unit). */
  predicate AscendingAddresses(instructions: seq<Instruction>)
  {
    forall i, j :: 0 <= i < j < |instructions| ==> instructions[i].address < instructions[j].address
  }

  /** A strictly increasing list of addresses. */
  predicate Ascending(addresses: seq<int>)
  {
    forall i, j :: 0 <= i < j < |addresses| ==> addresses[i] < addresses[j]
  }

  /** The table built from ascending instructions has exactly their addresses as keys and
      the template of each instruction at its address. */
  lemma BuiltTableListed(instructions: seq<Instruction>, table: PileTable, keys: seq<int>)
    requires AscendingAddresses(instructions)
    requires table.Keys == set k | 0 <= k < |instructions| :: instructions[k].address
    requires forall k :: 0 <= k < |instructions| && LastAtAddress(instructions, k) ==>
      table[instructions[k].address] == [TemplateFor(instructions[k])]
    requires keys == seq(|instructions|, k requires 0 <= k < |instructions| => instructions[k].address)
    ensures forall a :: a in table <==> a in keys
    ensures Ascending(keys)
    ensures forall k :: 0 <= k < |instructions| ==>
      (instructions[k].address in table && table[instructions[k].address] == [TemplateFor(instructions[k])])
  {
    forall a
      ensures a in table <==> a in keys
    {
      if a in table {
        var k :| 0 <= k < |instructions| && instructions[k].address == a;
        assert keys[k] == a;
      }
    }
    forall k | 0 <= k < |instructions|
      ensures instructions[k].address in table && table[instructions[k].address] == [TemplateFor(instructions[k])]
    {
      assert LastAtAddress(instructions, k);
    }
  }

  /** Every terminating address of the instructions has a pile in the table built from them. */
  lemma BuiltTableTerminating(instructions: seq<Instruction>, table: PileTable, terminating: seq<int>)
    requires table.Keys == set k | 0 <= k < |instructions| :: instructions[k].address
    requires terminating == TerminatingAddresses(instructions)
    ensures forall k :: 0 <= k < |terminating| ==> terminating[k] in table
  {
    forall k | 0 <= k < |terminating|
      ensures terminating[k] in table
    {
      TerminatingAddressesMembership(instructions, terminating[k]);
    }
  }

  class ContextGraph {
    var addressToNodePile: PileTable
    const methodDescriptor: string
    const terminatingAddresses: seq<int>
    /** The keys of the pile table in ascending order (the SparseArray's keyAt enumeration). */
    const addresses: seq<int>

    /** Piles are non-empty, nodes sit at their own address, the key list enumerates the
        keys in ascending order, and every terminating address has a pile. */
    ghost predicate Valid()
      reads this
    {
      && WellFormedTable(addressToNodePile)
      && (forall a :: a in addressToNodePile <==> a in addresses)
      && Ascending(addresses)
      && (forall k :: 0 <= k < |terminatingAddresses| ==> terminatingAddresses[k] in addressToNodePile)
    }

    /** Builds the graph of a method from its instructions: one template per address. */
    constructor (methodDescriptor: string, instructions: seq<Instruction>)
      requires AscendingAddresses(instructions)
      ensures Valid()
      ensures this.methodDescriptor == methodDescriptor
      ensures terminatingAddresses == TerminatingAddresses(instructions)
      ensures addresses == seq(|instructions|, k requires 0 <= k < |instructions| => instructions[k].address)
      ensures forall k :: 0 <= k < |instructions| ==>
        (instructions[k].address in addressToNodePile && addressToNodePile[instructions[k].address] == [TemplateFor(instructions[k])])
      ensures forall a :: a in addressToNodePile ==>
        (|addressToNodePile[a]| == 1 && addressToNodePile[a][0].context == None && addressToNodePile[a][0].children == [])
    {
      this.methodDescriptor := methodDescriptor;
      var table := BuildAddressToNodePile(instructions);
      var terminating := BuildTerminatingAddresses(instructions);
      var keys := seq(|instructions|, k requires 0 <= k < |instructions| => instructions[k].address);
      BuiltTableListed(instructions, table, keys);
      BuiltTableTerminating(instructions, table, terminating);
      addressToNodePile := table;
      terminatingAddresses := terminating;
      addresses := keys;
    }

    /** The copy constructor: the same descriptor, key list and (shared) terminating list,
        and for every key a pile of its own holding the same nodes. */
    constructor Copy(other: ContextGraph)
      requires other.Valid()
      ensures Valid()
      ensures methodDescriptor == other.methodDescriptor
      ensures terminatingAddresses == other.terminatingAddresses
      ensures addresses == other.addresses
      ensures forall a :: a in addressToNodePile <==> a in other.addressToNodePile
      ensures forall a :: a in addressToNodePile ==> addressToNodePile[a] == other.addressToNodePile[a]
    {
      methodDescriptor := other.methodDescriptor;
      var keys := other.addresses;
      var source := other.addressToNodePile;
      var terminating := other.terminatingAddresses;
      forall k | 0 <= k < |terminating|
        ensures terminating[k] in keys
      {
        assert terminating[k] in source;
        other.KeyListed(terminating[k]);
      }
      var table: PileTable := map[];
      for i := 0 to |keys|
        invariant forall a :: a in table <==> a in keys[..i]
        invariant forall a :: a in table ==> table[a] == source[a]
      {
        var address := keys[i];
        var pile := CopyPile(source[address]);
        table := table[address := pile];
      }
      assert keys[..|keys|] == keys;
      addressToNodePile := table;
      addresses := keys;
      terminatingAddresses := terminating;
    }

    /** The key list and the table's keys agree. */
    lemma KeyListed(a: int)
      requires Valid()
      ensures a in addressToNodePile <==> a in addresses
    {
    }

    /** getAddresses: every key exactly once, in ascending order. */
    function Addresses(): (r: seq<int>)
      reads this
      requires Valid()
      ensures forall a :: a in r <==> a in addressToNodePile
      ensures Ascending(r)
    {
      addresses
    }

    /** getRootContext: the context of the root node. */
    function RootContext(): (r: Option<Context>)
      reads this
      ensures r.Some? ==> RootNode(addressToNodePile).Some? && r == RootNode(addressToNodePile).value.context
      ensures RootNode(addressToNodePile).Some? ==> r == RootNode(addressToNodePile).value.context
    {
      match RootNode(addressToNodePile)
      case None => None
      case Some(root) => root.context
    }

    /** The in-place setters of a node (setContext, addChild): the node at one place of a
        pile is replaced; every other node stays. */
    method ReplaceNode(address: int, position: nat, node: ContextNode)
      requires Valid() && address in addressToNodePile && position < |addressToNodePile[address]|
      requires node.address == address
      modifies this
      ensures Valid()
      ensures addressToNodePile == Replaced(old(addressToNodePile), address, position, node)
    {
      addressToNodePile := Replaced(addressToNodePile, address, position, node);
    }

    /** addNode: appends a node at the end of one pile; every other pile and every earlier
        entry stays. Without a pile at that address nothing changes (the source fails). */
    method AddNode(child: ContextNode, address: int) returns (pileFound: bool)
      requires Valid()
      modifies this
      ensures pileFound == (address in old(addressToNodePile))
      ensures pileFound ==>
        addressToNodePile == Appended(old(addressToNodePile), address, child)
      ensures !pileFound ==> addressToNodePile == old(addressToNodePile)
      ensures child.address == address ==> Valid()
    {
      pileFound := address in addressToNodePile;
      if pileFound {
        addressToNodePile := Appended(addressToNodePile, address, child);
      }
    }

    /** setRootContext: gives the root node a context; nothing else changes. */
    method SetRootContext(ctx: Context) returns (rootFound: bool)
      requires Valid()
      modifies this
      ensures Valid()
      ensures rootFound == (0 in old(addressToNodePile))
      ensures rootFound ==>
        (addressToNodePile == old(addressToNodePile)[0 := old(addressToNodePile)[0][0 := old(addressToNodePile)[0][0].(context := Some(ctx))]])
      ensures !rootFound ==> addressToNodePile == old(addressToNodePile)
    {
      rootFound := 0 in addressToNodePile;
      if rootFound {
        var pile := addressToNodePile[0];
        addressToNodePile := addressToNodePile[0 := pile[0 := pile[0].(context := Some(ctx))]];
      }
    }

    /** getConnectedTerminatingAddresses: the terminating addresses the reachability test
        accepts, in their original order. */
    method GetConnectedTerminatingAddresses() returns (result: seq<int>)
      requires Valid()
      ensures result == ReachedAmong(addressToNodePile, terminatingAddresses, WasAddressReachedIntended)
      ensures forall a :: a in result <==> a in terminatingAddresses && WasAddressReachedIntended(addressToNodePile, a) == Some(true)
    {
      result := [];
      var i := 0;
      while i < |terminatingAddresses|
        invariant 0 <= i <= |terminatingAddresses|
        invariant result == ReachedAmong(addressToNodePile, terminatingAddresses[..i], WasAddressReachedIntended)
      {
        var address := terminatingAddresses[i];
        assert terminatingAddresses[..i + 1][..i] == terminatingAddresses[..i];
        if WasAddressReachedIntended(addressToNodePile, address) == Some(true) {
          result := result + [address];
        }
        i := i + 1;
      }
      assert terminatingAddresses[..i] == terminatingAddresses;
      forall a ensures a in result <==> a in terminatingAddresses && WasAddressReachedIntended(addressToNodePile, a) == Some(true) {
        ReachedAmongMembership(addressToNodePile, terminatingAddresses, WasAddressReachedIntended, a);
      }
    }

    /** getConsensus(addresses, register), comparing every node at every target address. */
    method GetConsensus(targets: seq<int>, register: int) returns (result: Option<RegisterStore>)
      ensures result == ConsensusIntended(addressToNodePile, targets, register)
    {
      var firstStore := FirstStore(addressToNodePile, targets, register);
      if firstStore.None? {
        return None;
      }
      var first := firstStore.value;
      var i := 0;
      while i < |targets|
        invariant 0 <= i <= |targets|
        invariant ConsensusIntended(addressToNodePile, targets, register) == Scan(Probes(addressToNodePile, targets[i..], register), first)
      {
        var address := targets[i];
        assert targets[i..][1..] == targets[i + 1..];
        var rest := Probes(addressToNodePile, targets[i + 1..], register);
        var pileOrNone := NodePile(addressToNodePile, address);
        if pileOrNone.None? {
          return None;
        }
        var pile := pileOrNone.value;
        var probe := Probe(addressToNodePile, address, register);
        var j := 0;
        while j < |pile|
          invariant 0 <= j <= |pile|
          invariant ConsensusIntended(addressToNodePile, targets, register) == Scan(probe[j..] + rest, first)
        {
          assert (probe[j..] + rest)[1..] == probe[j + 1..] + rest;
          var store := StoreOf(pile[j], register);
          if store.None? {
            return None;
          }
          if store.value != first {
            return Some(UnknownStore);
          }
          j := j + 1;
        }
        assert probe[j..] + rest == rest;
        i := i + 1;
      }
      assert targets[i..] == [];
      result := Some(first);
    }

    /** getConsensus(address, register): the single-address form. */
    method GetConsensusAt(address: int, register: int) returns (result: Option<RegisterStore>)
      ensures result == ConsensusIntended(addressToNodePile, [address], register)
      ensures result.Some? ==> result == FirstStore(addressToNodePile, [address], register) || result == Some(UnknownStore)
    {
      result := GetConsensus([address], register);
      if result.Some? {
        ScanResult(Probes(addressToNodePile, [address], register), FirstStore(addressToNodePile, [address], register).value);
      }
    }
  }
}
