# Symbolic execution core of a Dalvik method simplifier

This project models the execution core of a Dalvik bytecode simplifier. The simplifier
runs each method of an Android class symbolically. For every method it builds an
execution graph: each instruction address holds a *node pile*. Element 0 of a pile is the
*template* node made from the instruction's handler. Every later element is a *clone*
that carries a register context. A clone is made each time execution reaches the
instruction.

The model covers:

- **Handlers.** The `if-*` handler chooses between the branch target and the next
  instruction. It follows both directions when an operand is unknown. The `return`
  handler copies a register into the return register. Every other instruction is
  modelled as a handler that falls through to the next address.
- **Graphs.** There are two graph variants:
  - one keyed by code address, used by the executor and the virtual machine;
  - one keyed by instruction index.
  Both are modelled with their construction, copy, lookup, reachability and consensus
  queries.
- **Method executor.** It takes a node from the work list and counts the visit against a
  per-address ceiling. It runs the node's handler, appends one clone per successor
  address to that address's pile, and queues the clones.
- **Virtual machine.** It builds one graph per method and a root context for each: the
  instance reference `this` in the register before the parameters, and unknown
  parameters. It also covers `execute`, the static (class) initialization that runs a
  class's `<clinit>()V` the first time one of its methods or fields is used, and the
  `ACC_FINAL` immutable-class list.

Modelling choices:

- **Values, not objects.** Register contexts and nodes are values. Node piles form an
  arena `map<int, seq<ContextNode>>`, and a child is referred to by
  `NodeRef(address, position)`. Cloning a node (`new ContextNode(other)`) or a context
  (`new MethodContext(other)`) is therefore a value copy.
- **Classes where the source mutates.** `MethodContext` is a class only where the source
  writes into it in place: the return handler and the root-context builder.
- **Java exceptions become values.** A null pointer or an index out of range becomes
  `None` or `Failure(fault)`. The faults are:
  - `InvalidRegister`;
  - `NullIfType`;
  - `NullContext`;
  - `MissingNode` (a missing pile or node);
  - `UndefinedMethod`.
- **Termination.** The executor's loop terminates because no address is visited more
  than `maxNodeVisits + 1` times. The virtual machine's recursion `execute` →
  `<clinit>` → `execute` terminates because each step marks one more class as
  initialized.

## Model

| member | source | states |
|---|---|---|
| Values.Compare | src/refactor/handler/IfOpHandler.java:136 | comparing an integer with a string fails with ClassMismatch; otherwise the result is -1, 0 or 1, 0 exactly for equal payloads, and negative for integers exactly when the first is smaller |
| Values.CompareAntisymmetric | src/refactor/handler/IfOpHandler.java:136 | swapping the operands fails exactly when the original fails, and otherwise negates the comparison |
| Values.CompareCharsAntisymmetric | src/refactor/handler/IfOpHandler.java:136 | the character-by-character comparison of equal-length strings is antisymmetric |
| Values.Sign | src/refactor/handler/IfOpHandler.java:136 | the sign of an integer difference is -1, 0 or 1, and matches its order against zero |
| Values.CompareStrings | src/refactor/handler/IfOpHandler.java:136 | the string comparison is -1, 0 or 1, 0 exactly for equal strings, and a shorter string always comes first |
| Values.CompareChars | src/refactor/handler/IfOpHandler.java:136 | comparing equal-length strings is -1, 0 or 1, and 0 exactly for equal strings |
| IfOp.GetIfType | src/refactor/handler/IfOpHandler.java:29-47 | the branch kind is EQUAL iff the name contains "-eq"; each later kind requires that no earlier test matched; null when none of the six substrings occurs |
| IfOp.ConditionCode | src/refactor/handler/IfOpHandler.java:29-47 | for an `if-xx` or `if-xxz` name, the name contains "-cc" exactly when its condition letters are cc |
| IfOp.BranchName | src/refactor/handler/IfOpHandler.java:29-47 | for an `if-xx` or `if-xxz` name, the branch kind depends on the two condition letters alone |
| IfOp.DalvikEqualityOpcodes | src/refactor/handler/IfOpHandler.java:29-47 | if-eq, if-eqz, if-ne and if-nez give EQUAL and NOT_EQUAL |
| IfOp.DalvikLessOpcodes | src/refactor/handler/IfOpHandler.java:29-47 | if-lt, if-ltz, if-le and if-lez give LESS and LESS_OR_EQUAL |
| IfOp.DalvikGreaterOpcodes | src/refactor/handler/IfOpHandler.java:29-47 | if-gt, if-gtz, if-ge and if-gez give GREATER and GREATOR_OR_EQUAL |
| IfOp.IsTrue | src/refactor/handler/IfOpHandler.java:49-74 | on a three-way comparison result, the branch test holds exactly when the predicate holds between that result and 0 |
| IfOp.IsTrueComplements | src/refactor/handler/IfOpHandler.java:49-74 | on a comparison result, EQUAL/NOT_EQUAL, LESS/GREATOR_OR_EQUAL and GREATER/LESS_OR_EQUAL decide opposite ways |
| IfOp.IsTrueMatchesIntegerOrder | src/refactor/handler/IfOpHandler.java:49-74 | on two integers, the branch test holds exactly when the integer relation (=, ≠, <, ≤, >, ≥) does |
| IfOp.Create | src/refactor/handler/IfOpHandler.java:76-119 | the target is address + code offset; register A is read; register B is read only for format 22t, otherwise the handler compares against zero |
| IfOp.PossibleChildren | src/refactor/handler/IfOpHandler.java:152-155 | both children: the branch target, then the next instruction |
| IfOp.Execute | src/refactor/handler/IfOpHandler.java:121-145 | a bad register fails; an unknown operand gives both possible children; an integer compared with a string fails with ClassMismatch before the branch kind is consulted; otherwise a null branch kind fails, and the result is the target when the test holds and the next instruction when it does not |
| IfOp.ExecuteWithinPossibleChildren | src/refactor/handler/IfOpHandler.java:121-155 | every successor is one of getPossibleChildren, and there are one or two of them |
| IfOp.ZeroFormIgnoresRegister2 | src/refactor/handler/IfOpHandler.java:122-129 | the compare-to-zero form depends only on register A |
| IfOp.ZeroFormOnKnownInteger | src/refactor/handler/IfOpHandler.java:122-145 | with a known integer x in register A, the zero form branches exactly when x relates to 0 as the branch kind says |
| IfOp.ZeroFormOnStringFails | src/refactor/handler/IfOpHandler.java:122-136 | a zero-form branch on a register holding a string fails with ClassMismatch |
| ReturnOp.Create | src/simplify/vm/handlers/ReturnOpHandler.java:15-21 | the handler keeps the instruction's address, opcode name and register A |
| ReturnOp.Apply | src/simplify/vm/handlers/ReturnOpHandler.java:31-36 | it succeeds exactly when the register exists; the return register then holds that register's store, the other registers are unchanged and there are no successors |
| ReturnOp.Execute | src/simplify/vm/handlers/ReturnOpHandler.java:31-36 | on the mutable context, the new return register and registers are those Apply gives; a missing register fails and leaves the context unchanged |
| Contexts.MethodContext.constructor | src/simplify/vm/VirtualMachine.java:43 | registerCount unknown registers, no return value, and parameters starting at registerCount - parameterCount |
| Contexts.MethodContext.ReadRegister | src/simplify/vm/handlers/ReturnOpHandler.java:33 | readRegister gives the stored register, and fails exactly when the register is outside the file |
| Contexts.MethodContext.PokeRegister | src/simplify/vm/VirtualMachine.java:49 | a register inside the file is overwritten and nothing else changes; one outside is refused |
| Contexts.MethodContext.SetParameter | src/simplify/vm/VirtualMachine.java:55 | parameter i is overwritten at parameterStart + i, or refused when that is outside the file |
| Contexts.MethodContext.AssignReturnRegister | src/simplify/vm/handlers/ReturnOpHandler.java:33 | the return register holds the store and the registers are unchanged |
| Handlers.CreateHandler | src/simplify/vm/ContextGraph.java:31 | the handler carries the instruction's address; `if-*` and `return` instructions get their own handlers; any other instruction falls through to address + code units |
| Handlers.Execute | src/refactor/vm/MethodExecutor.java:42 | no handler changes a register and only a return changes the context (its return slot, from the returned register); a branch fails exactly when the branch handler does and otherwise continues at one or two of its possible children, a return at none, any other instruction at the next address |
| Nodes.NewNode | src/simplify/vm/ContextGraph.java:32 | a template node has the handler's address and handler, and no context or children |
| SimplifyGraph.BuildAddressToNodePile | src/simplify/vm/ContextGraph.java:24-42 | the table's keys are exactly the instruction addresses, and each pile is just that instruction's template |
| SimplifyGraph.TerminatingAddressesMembership | src/simplify/vm/ContextGraph.java:44-55 | an address is listed exactly when some instruction there cannot continue |
| SimplifyGraph.BuildTerminatingAddresses | src/simplify/vm/ContextGraph.java:44-55 | the loop lists the addresses of the instructions that cannot continue, in order |
| SimplifyGraph.BuiltTableListed | src/simplify/vm/ContextGraph.java:24-42 | the built table has exactly the listed addresses as keys, in ascending order, each with its template pile |
| SimplifyGraph.BuiltTableTerminating | src/simplify/vm/ContextGraph.java:81-90 | every terminating address has a pile in the built table |
| Nodes.CopyPile | src/simplify/vm/ContextGraph.java:70-73 | the copied pile holds the same nodes in the same order (the index-keyed graph's copy, src/refactor/vm/ContextGraph.java lines 44-47, uses it too) |
| SimplifyGraph.ContextGraph.constructor | src/simplify/vm/ContextGraph.java:81-90 | the graph has one template pile per instruction address, the method's descriptor and its terminating addresses |
| SimplifyGraph.ContextGraph.Copy | src/simplify/vm/ContextGraph.java:63-79 | the copy has the same descriptor, address list and terminating list, and equal piles at every address |
| SimplifyGraph.ContextGraph.KeyListed | src/simplify/vm/ContextGraph.java:92-100 | an address is a key exactly when it is in the graph's address list |
| SimplifyGraph.ContextGraph.Addresses | src/simplify/vm/ContextGraph.java:92-100 | getAddresses lists every key ascending, each once |
| SimplifyGraph.NodePile | src/simplify/vm/ContextGraph.java:149-156 | a pile exists exactly when the address is a key (and, above 0, the pile is not empty); above 0 it is the table's pile without its template, otherwise the whole pile |
| SimplifyGraph.RootNode | src/simplify/vm/ContextGraph.java:182-185 | the root node is the template node of address 0 |
| SimplifyGraph.TemplateNode | src/simplify/vm/ContextGraph.java:187-189 | the first node of the address's pile, defined exactly when that pile exists and is not empty |
| SimplifyGraph.WasAddressReached | src/simplify/vm/ContextGraph.java:166-176 | address 0 is always reached; any other address fails exactly when it has no pile, and otherwise counts as reached exactly when it has a template node |
| SimplifyGraph.NodePileDropsTemplate | src/simplify/vm/ContextGraph.java:149-156 | getNodePile drops the template at a positive address and keeps the whole pile at address 0 or below |
| SimplifyGraph.ContextGraph.RootContext | src/simplify/vm/ContextGraph.java:158-160 | the root context is the context of the first node of pile 0 |
| SimplifyGraph.ContextGraph.ReplaceNode | src/refactor/vm/MethodExecutor.java:47-48 | exactly the one node at that place is replaced and every other pile and node is unchanged |
| SimplifyGraph.ContextGraph.AddNode | src/simplify/vm/ContextGraph.java:102-104 | the node is appended to its address's pile and every other pile is unchanged; without a pile the table is unchanged (the source fails there) |
| SimplifyGraph.ContextGraph.SetRootContext | src/simplify/vm/ContextGraph.java:191-193 | the root node takes the context and nothing else changes; without pile 0 the table is unchanged (the source fails there) |
| SimplifyGraph.WasAddressReachedAlwaysHolds | src/simplify/vm/ContextGraph.java:166-176 | as written, every address that has a pile counts as reached |
| SimplifyGraph.WasAddressReachedCounterexample | src/simplify/vm/ContextGraph.java:166-176 | an address whose pile holds only its template is reached as written and not reached by the intended test |
| SimplifyGraph.WasAddressReachedIntendedMeaning | src/simplify/vm/ContextGraph.java:166-176 | the intended test holds exactly for the root and for addresses whose pile has a clone |
| SimplifyGraph.ReachedAmongMembership | src/simplify/vm/ContextGraph.java:106-116 | the filtered list holds exactly those listed addresses that the reachability test accepts |
| SimplifyGraph.ReachedAmongKeepsAllKeys | src/simplify/vm/ContextGraph.java:106-116 | with the test as written, every terminating address is kept, in order |
| SimplifyGraph.ContextGraph.GetConnectedTerminatingAddresses | src/simplify/vm/ContextGraph.java:106-116 | the result is the terminating addresses that actually hold a clone (or are the root), in order |
| SimplifyGraph.ScanAgreement | src/simplify/vm/ContextGraph.java:130-142 | when every probed store equals the first, the first store is returned |
| SimplifyGraph.ScanDisagreement | src/simplify/vm/ContextGraph.java:130-142 | when every probe is defined and one differs, the unknown store ("?", unknown) is returned |
| SimplifyGraph.ScanResult | src/simplify/vm/ContextGraph.java:130-142 | the comparison loop returns the first store, the unknown store, or fails |
| SimplifyGraph.ScanMeaning | src/simplify/vm/ContextGraph.java:130-142 | the three facts above, in one place |
| SimplifyGraph.Consensus | src/simplify/vm/ContextGraph.java:125-143 | as written: it fails when there is no first store, and any answer is the first clone's store at addresses[0] or the unknown store |
| SimplifyGraph.ConsensusMeaning | src/simplify/vm/ContextGraph.java:125-143 | as written, the first clone's store at addresses[0] is returned when every node at the later addresses agrees with it, and the unknown store when one disagrees |
| SimplifyGraph.SingleAddressConsensus | src/simplify/vm/ContextGraph.java:118-143 | as written, the single-address consensus is always the first clone's store |
| SimplifyGraph.ConsensusCounterexample | src/simplify/vm/ContextGraph.java:125-143 | two clones disagreeing at one address give the first clone's store as written and the unknown store as intended |
| SimplifyGraph.ConsensusIntendedMeaning | src/simplify/vm/ContextGraph.java:125-143 | the intended consensus is the first store when every node at every address agrees, and the unknown store when one disagrees |
| SimplifyGraph.ContextGraph.GetConsensus | src/simplify/vm/ContextGraph.java:125-143 | the loops compute the intended consensus over every node at every address |
| SimplifyGraph.ContextGraph.GetConsensusAt | src/simplify/vm/ContextGraph.java:118-123 | the single-address form is the consensus over that one address, which is the first store or the unknown store |
| RefactorGraph.BuildIndexToAddress | src/refactor/vm/ContextGraph.java:57-68 | the keys are exactly the instruction indices and each maps to its instruction's code address |
| RefactorGraph.BuildIndexToNodePile | src/refactor/vm/ContextGraph.java:70-88 | one pile per index, each holding just that instruction's template |
| RefactorGraph.ContextGraph.constructor | src/refactor/vm/ContextGraph.java:26-34 | one template pile per index and each index's code address |
| RefactorGraph.ContextGraph.Copy | src/refactor/vm/ContextGraph.java:36-51 | the copy has the same descriptor, the same (shared) index table and equal piles |
| RefactorGraph.LookupOrZero | src/refactor/vm/ContextGraph.java:98 | a missing key reads as 0, the map's default, and a present key reads as its value |
| RefactorGraph.ContextGraph.NodePileByIndex | src/refactor/vm/ContextGraph.java:90-95 | the pile without its template; it fails when the index has no pile or the pile is empty |
| RefactorGraph.ContextGraph.TemplateNodeByIndex | src/refactor/vm/ContextGraph.java:109-111 | the first node of the index's pile, failing just where that node is missing |
| RefactorGraph.ContextGraph.NodePileByAddress | src/refactor/vm/ContextGraph.java:97-101 | as written: the pile of the index the address maps to as a key of the index table, or of index 0 when the address is not a key; when it exists, the template found by the same lookup followed by it is that whole pile |
| RefactorGraph.ContextGraph.TemplateNodeByAddress | src/refactor/vm/ContextGraph.java:103-107 | as written: the template of the index the address maps to as a key of the index table, or the root node when the address is not a key |
| RefactorGraph.TemplateAndPileByAddress | src/refactor/vm/ContextGraph.java:97-107 | the template and the pile looked up by address both exist or neither does, and together they make up one index's pile |
| RefactorGraph.ContextGraph.RootNode | src/refactor/vm/ContextGraph.java:113-116 | the root is the template of index 0 |
| RefactorGraph.ContextGraph.NodeCount | src/refactor/vm/ContextGraph.java:118-120 | the number of piles |
| RefactorGraph.ContextGraph.SetRootContext | src/refactor/vm/ContextGraph.java:122-124 | the root node takes the context and every other node is unchanged; a missing root leaves the graph unchanged |
| RefactorGraph.ContextGraph.TerminalIndices | src/refactor/vm/ContextGraph.java:126-132 | always empty (the source has no implementation yet) |
| RefactorGraph.ContextGraph.IsInstructionReachable | src/refactor/vm/ContextGraph.java:134-144 | index 0 is always reachable; any other index is defined exactly when it has a pile |
| RefactorGraph.ReachableIffClone | src/refactor/vm/ContextGraph.java:134-144 | a non-root index is reachable exactly when its pile holds a clone |
| RefactorGraph.FreshGraphUnreached | src/refactor/vm/ContextGraph.java:70-88 | in a freshly built graph only index 0 is reachable, every pile minus its template is empty, and each template comes from its instruction |
| RefactorGraph.NodePileByAddressCounterexample | src/refactor/vm/ContextGraph.java:97-101 | with instructions at addresses 0, 1 and 3, the pile asked for at address 3 is the root's as written and that of index 2 as intended |
| RefactorGraph.NodePileByAddressIntendedFinds | src/refactor/vm/ContextGraph.java:97-101 | the intended lookup gives the pile of the instruction at that address whenever addresses are distinct |
| RefactorGraph.NodePileByAddressAgreesOnUnitWidth | src/refactor/vm/ContextGraph.java:97-101 | as written and intended agree when every instruction's address equals its index |
| RefactorGraph.IndexOfAddress | src/refactor/vm/ContextGraph.java:97-101 | the address is mapped back to the first index at that address, or to none when no index has it |
| Executor.RecordNodeVisitation | src/refactor/vm/MethodExecutor.java:58-68 | a visit fails exactly when the address's count already exceeds the maximum; otherwise that count goes up by one and no other count changes |
| Executor.RecordAllAccepts | src/refactor/vm/MethodExecutor.java:58-68 | a sequence of visits is accepted exactly when no address is visited more than max + 1 times in all, and then each count is the number of visits |
| Executor.VisitCeiling | src/refactor/vm/MethodExecutor.java:58-68 | from empty counts, visits are accepted exactly when no address exceeds max + 1 visits |
| Executor.RemainingInitial | src/refactor/vm/MethodExecutor.java:36-53 | the initial visit budget is addresses × (max + 1) |
| Executor.RemainingDecreases | src/refactor/vm/MethodExecutor.java:36-53 | an accepted visit never raises the remaining budget, and strictly lowers it when the address is listed |
| Executor.Clone | src/refactor/vm/MethodExecutor.java:46-47 | a clone has its template's address and handler, the given context and no children |
| Executor.AppendClone | src/refactor/vm/MethodExecutor.java:43-50 | when the successor's pile exists, a clone of its template with the current context is appended and recorded as the current node's child; otherwise nothing changes |
| Executor.Expand | src/refactor/vm/MethodExecutor.java:43-50 | successor k gets a clone of its template, with the current context, appended to its pile as child k; the first missing pile stops with MissingNode at that address |
| Executor.Advance | src/refactor/vm/MethodExecutor.java:42-52 | the node keeps the context its handler left, its successors are expanded, and its children are queued |
| Executor.Visit | src/refactor/vm/MethodExecutor.java:37-52 | a missing node or context crashes; an address whose count already exceeds the ceiling stops with MaxNodeVisitsExceeded naming that node's address and changes nothing; a failing handler crashes with its fault; otherwise the visit continues exactly when every successor address has a pile, the count rises by one, the node keeps its handler's context, one fresh clone per successor is its new child, and every other node is unchanged; every crash carries the cause `CrashCause` names for the node in the table it started from (missing node, null context, the handler's fault, or the first successor without a pile) |
| Executor.Run | src/refactor/vm/MethodExecutor.java:34-55 | the work list is first in, first out: the visited nodes are a prefix of the enqueued ones, which are the root followed by the children of the visited nodes in order; a finished run visited every enqueued node; every visited node stepped from its parent's context and every unvisited child is a clone in it; the counts are those of the visits; at most addresses × (max + 1) visits; the piles only grow with clones; a negative ceiling, a missing root context and a failing root handler stop at the root; a stopped run stopped at the first waiting node: MaxNodeVisitsExceeded names its address, after max + 1 visits there, with the table left as it was, and a crash carries that node's `CrashCause` |
| Executor.Execute | src/refactor/vm/MethodExecutor.java:23-56 | a missing root crashes with MissingNode(0) and nothing visited; a given context becomes the root's, otherwise the stored one starts the run; the run's whole report (`RunReport`: first-in first-out shape, explored nodes, counts, where and why it stopped) holds from that start |
| Executor.Turn | src/refactor/vm/MethodExecutor.java:36-53 | one pass of the do-while loop on the head of the work list: it keeps the table grown from the piles it started with, and when it continues the work list still made `Progress` one node further on, with the head's count one higher; a continuing first turn had a non-negative ceiling, a root context and a succeeding root handler; a stop is `Halted`: only the head changed, MaxNodeVisitsExceeded names the head's address at its ceiling with the table untouched, and a crash carries the head's `CrashCause` |
| Executor.ProgressAfterVisit | src/refactor/vm/MethodExecutor.java:37-52 | a completed visit of the waiting head extends the progress invariant: the work list grows by the fresh children, the visited prefix by the head, and the visit table by one visit at the head's address |
| Executor.WorkAfterVisit | src/refactor/vm/MethodExecutor.java:43-52 | after a visit the grown work list is still the root followed by the children of the visited prefix, every entry is placed, and no entry repeats |
| Executor.VisitsAfterVisit | src/refactor/vm/MethodExecutor.java:37-52 | after a visit the grown prefix is explored and its addresses record exactly to the visit table with one more visit at the head |
| Executor.ExploredAfterVisit | src/refactor/vm/MethodExecutor.java:42-50 | visiting a waiting node keeps every earlier node's children explained and explains the new node's: it stepped from its context and its fresh children are clones in the step's context |
| Executor.VisitedExplained | src/refactor/vm/MethodExecutor.java:42-50 | the node just visited stepped from its context, and its fresh children, none of them visited, are clones of their templates in the step's context |
| Executor.ParentAfterVisit | src/refactor/vm/MethodExecutor.java:42-50 | a visit of another node leaves an earlier parent's children explained, now counting the visited node as visited |
| Executor.NextIsWaiting | src/refactor/vm/MethodExecutor.java:37 | a node polled after the root is placed, has a context from its parent, no children yet, and its template's handler |
| Executor.RootKeepsRegisters | src/refactor/vm/MethodExecutor.java:29-33 | once the root is visited, its context holds the start context's registers (no handler changes a register) |
| Executor.CloneAppended | src/refactor/vm/MethodExecutor.java:46-49 | appending one clone keeps the table grown from its start, records the clone as the current node's last child at a fresh place, leaves the root's template alone unless it is the current node, and changes no other node |
| Executor.CloneAdded | src/refactor/vm/MethodExecutor.java:43-50 | the clones made so far plus the new one are clones of successors 0..k in the current context, none of them is the current node, all are fresh, and only the current node changed |
| Executor.ContextReplaced | src/refactor/vm/MethodExecutor.java:42 | storing the node with its handler's context keeps the table grown, keeps every key and every place, and changes no other node |
| Executor.WorkListKept | src/refactor/vm/MethodExecutor.java:36-53 | a turn that changes only the head node leaves the work list the root followed by the children of the visited prefix |
| Executor.ContinuedTurn | src/refactor/vm/MethodExecutor.java:36-53 | a turn whose visit continued makes `Progress` one node further on |
| Executor.StoppedRun | src/refactor/vm/MethodExecutor.java:36-53 | a loop that stops at the head reports the first-in first-out shape of what it visited and enqueued, the right start outcome, and the node it stopped at with the cause of the stop |
| Executor.StoppedTurn | src/refactor/vm/MethodExecutor.java:36-53 | a turn that stopped at the head leaves the visited nodes strictly before the stopped one, the stopped node is the next enqueued one, and its cause (the ceiling at its own address, or its `CrashCause`) is kept |
| Executor.FirstMissing | src/refactor/vm/MethodExecutor.java:43-49 | the position of the first successor address without a pile: every earlier one has a pile, and it is the length when all do |
| Executor.FinishedRun | src/refactor/vm/MethodExecutor.java:53-55 | a loop whose work list ran out is reported as Finished: it visited every enqueued node, and the root holds the start registers |
| Executor.WorkListAfterVisit | src/refactor/vm/MethodExecutor.java:52 | adding fresh children to a list of distinct placed nodes keeps it distinct and placed |
| Executor.ChildrenOfKept | src/refactor/vm/MethodExecutor.java:52 | the children of nodes other than the visited one do not change with its visit |
| Executor.ChildrenOfParent | src/refactor/vm/MethodExecutor.java:52 | every entry of the children list is child k of some node i of the list of parents |
| Executor.RecordAllAppend | src/refactor/vm/MethodExecutor.java:58-68 | recording one more visit is the old record followed by one recordNodeVisitation |
| VM.RunGraph | src/simplify/vm/VirtualMachine.java:125-130 | the executor's run on the graph is `Executor.Executed` from the given context, and its outcome decides the result: the graph exactly when it finished, no graph exactly at the ceiling, otherwise the crash's fault |
| VM.FirstArrow | src/simplify/vm/VirtualMachine.java:76-78 | the position of the first "->" at or after a point, or the end |
| VM.ClassName | src/simplify/vm/VirtualMachine.java:76-78 | the class name is the longest prefix before the first "->", and contains no "->" |
| VM.ClassNameOfQualified | src/simplify/vm/VirtualMachine.java:76-78 | splitting "C->rest" gives back C when C has no arrow |
| VM.ClassNameIdempotent | src/simplify/vm/VirtualMachine.java:76-78 | the class name of a class name is itself |
| VM.MethodDescriptorClass | src/simplify/vm/VirtualMachine.java:76-78 | the class name of a method's descriptor is its defining class |
| VM.ClinitOfSameClass | src/simplify/vm/VirtualMachine.java:235-241 | the `<clinit>()V` descriptor built from a class name belongs to that class |
| VM.DotsForSlashes | src/simplify/vm/VirtualMachine.java:172 | every '/' becomes '.' and every other character is kept |
| VM.IsImmutableClass | src/simplify/vm/VirtualMachine.java:153-181 | arrays and "?" are mutable; String, primitives, and classes that load as a primitive or wrapper are immutable; nothing else is |
| VM.FinalTypesMembership | src/simplify/vm/VirtualMachine.java:26-36 | a type is listed exactly when some class with that type has ACC_FINAL set, and the list is no longer than the classes |
| VM.BuildImmutableClasses | src/simplify/vm/VirtualMachine.java:26-36 | the loop lists the types of the ACC_FINAL classes, in order |
| VM.BuildRootContext | src/simplify/vm/VirtualMachine.java:38-59 | parameters are unknown stores of their declared types; a non-static method has its defining class and "this" in the register before them; no return value |
| VM.Mark | src/simplify/vm/VirtualMachine.java:236-239 | the class is in the list afterwards, earlier entries stay, and no duplicate is added |
| VM.MarkLowersUninitialized | src/simplify/vm/VirtualMachine.java:236-249 | marking never raises the number of uninitialized classes, and marking a new class with a method lowers it |
| VM.NewGraph | src/simplify/vm/VirtualMachine.java:199-201 | it fails with MissingNode(0) exactly when the method has no instruction at address 0, where setRootContext dereferences the missing root (src/simplify/vm/ContextGraph.java:182-193); otherwise a fresh valid graph stored from the method (`StoredFrom`): the method's descriptor, its instruction addresses in order, its terminating addresses, one template pile per instruction, and at address 0 a root context laid out for the method |
| VM.LatestIn | src/simplify/vm/VirtualMachine.java:197-205 | the method a class's loop leaves under a descriptor has that descriptor, and none exists exactly when no method has it |
| VM.LatestInLast | src/simplify/vm/VirtualMachine.java:197-205 | that method is one of the methods and no later method has the descriptor: a later `put` replaces an earlier one |
| VM.Latest | src/simplify/vm/VirtualMachine.java:193-209 | the method loading all classes leaves under a descriptor has that descriptor, and none exists exactly when no method of any class has it |
| VM.LatestLast | src/simplify/vm/VirtualMachine.java:193-209 | that method belongs to some class, and no method after it, in that class or a later one, has the descriptor |
| VM.LoadingStep | src/simplify/vm/VirtualMachine.java:197-205 | loading one more method puts it under its descriptor and leaves every other descriptor's method alone |
| VM.LoadingClass | src/simplify/vm/VirtualMachine.java:196-206 | loading all methods of the next class is the same as loading one more class |
| VM.VirtualMachine.constructor | src/simplify/vm/VirtualMachine.java:88-103 | for classes whose every method has an entry instruction: the limits are kept, no class is initialized; a descriptor has a graph exactly when some method of some class has it, and the graph is stored from the last such method in load order (`Latest`) |
| VM.NewVirtualMachine | src/simplify/vm/VirtualMachine.java:88-103 | construction fails with MissingNode(0) exactly when some method has no instruction at address 0 (the setRootContext at line 201 throws); otherwise the machine is fresh and valid with the constructor's limits, graphs and empty initialization lists |
| VM.VirtualMachine.UpdateInstructionGraph | src/simplify/vm/VirtualMachine.java:105-110 | it fails with MissingNode(0) exactly when the method has no instruction at address 0, and then nothing is stored; otherwise the method's descriptor maps to a fresh graph stored from the method (`StoredFrom`); every other entry is unchanged either way |
| VM.VirtualMachine.LoadClass | src/simplify/vm/VirtualMachine.java:196-206 | loading one class's methods after the classes `done` leaves each descriptor's graph stored from the method `Loading` names, and nothing else has a graph |
| VM.VirtualMachine.LoadMethod | src/simplify/vm/VirtualMachine.java:197-205 | one more method moves the load state one method further: its descriptor now holds its graph and every other graph is kept |
| VM.VirtualMachine.LoadedAfter | src/simplify/vm/VirtualMachine.java:197-205 | storing one more method's graph over the graphs loading left so far gives the load state one method further on |
| VM.VirtualMachine.IsMethodDefined | src/simplify/vm/VirtualMachine.java:183-185 | true exactly when the descriptor has a graph |
| VM.VirtualMachine.GetInstructionGraph | src/simplify/vm/VirtualMachine.java:222-226 | a fresh copy with the stored graph's descriptor and piles; none for an undefined method |
| VM.VirtualMachine.StaticallyInitialize | src/simplify/vm/VirtualMachine.java:228-250 | the class is marked initialized; its `<clinit>()V` runs exactly when the class was not yet initialized and has one, and the run is reported as the stored execute of that graph; the initializer's exception escapes as the returned fault exactly when that execute crashed; the graphs are unchanged |
| VM.VirtualMachine.ExecuteStored | src/simplify/vm/VirtualMachine.java:112-116 | an undefined method or missing root fails before any class is initialized; otherwise the class is initialized, a failing `<clinit>()V` gives its crash, and otherwise the run is the executor's from the stored root context (`Reported`): a graph exactly when the run finished, no graph exactly when it hit the ceiling, and the run's fault when it crashed |
| VM.VirtualMachine.Execute | src/simplify/vm/VirtualMachine.java:118-131 | the class is initialized first (its `<clinit>()V` runs only the first time); a crash of that initializer escapes as the result and nothing else runs; otherwise an undefined method fails, and a defined one is the executor's run from the given context (`Reported`): a graph exactly when it finished, the fresh explored copy; no graph exactly when the ceiling was hit; a crash carries the run's fault |
| VM.VirtualMachine.ExecuteCopy | src/refactor/vm/MethodExecutor.java:23-29 | an undefined method fails; a defined one runs on a fresh copy of its stored graph, as `Reported` states, and the machine is left alone |
| VM.VirtualMachine.GetClassExecutionContext | src/simplify/vm/VirtualMachine.java:133-139 | the class is initialized (a crash of its `<clinit>()V` escapes as the fault), and otherwise the result is the class context stored under the descriptor's class name |

## Left out

- The opcode-to-handler factory is left out. `src/refactor/op/OpHandlerFactory.java` belongs to an older instruction API and is a case table over opcodes. Its one decision is the if/return/other split, which `Handlers.CreateHandler` gives.
- Handlers other than if and return are left out. `UnaryMathOpHandler` and the rest have no behaviour in the modelled core. They are modelled as handlers that fall through to address + code units and leave the context unchanged.
- Executor.Execute: requires that the root node has no children yet. The machine only hands the executor fresh copies of its stored graphs, whose roots are unexpanded.
- Executor.Clone: a clone is the template's copy with no children. The copy constructor of `ContextNode` is not part of this model. The root's template is the root node itself, so after the root's visit it has children, and a loop back to address 0 would copy them in the source.
- Values.Compare: `CompareToBuilder.reflectionCompare` is modelled only for integer and string payloads. Objects of other classes are not modelled. An integer against a string is the `ClassCastException` the builder raises; it is the fault `ClassMismatch`, and it escapes to the caller like any other fault. Strings compare by their character arrays, a shorter array first. The builder would then also compare the cached `hash` field of two equal strings, so two equal strings whose hash has been computed for one only could compare unequal. The model does not track that cache and treats equal strings as equal.
- `ClassUtils.getClass`, `ClassUtils.isPrimitiveOrWrapper` and `SmaliClassUtils.isPrimitiveType` load classes at run time. They are parameters of `VM.IsImmutableClass`.
- `buildTryCatchList`, `buildNameToClassContext` and `buildClassContext` are left out. They only store try blocks or are unimplemented (the class-context map stays empty), so the model starts with no class contexts.
- Call-depth accounting is left out. Nothing in the modelled core raises `MaxCallDepthExceeded`, and `maxCallDepth` is only stored.
- Logging, `toString` and `toGraph` are left out. They produce text only.
- The plain getters are left out: `getMaxCallDepth`, `getMaxNodeVisits`, `getMethodToTryCatchList`, `getMethodDescriptor` and the address-keyed graph's `getNodeCount`. Each returns a field, and the fields are public in the model.
- Object identity is not modelled. Contexts and nodes are values. In `execute(methodDescriptor)` the source passes the stored graph's root context object into the copy, whereas in the model the executor's copy works on an equal value, and the stored graph never changes.
- `MethodContext`'s copy constructor and `ContextNode`'s copy constructor become value copies, for the same reason. The classes `MethodContext` and `ContextNode` are not part of this model beyond the calls the core makes.
- The `InstructionExecutor.NEXT_INSTRUCTION` sentinel is fixed to -1, and the executor looks up a pile at that key. `ContextNode.execute`, which would resolve the sentinel, is not part of this model. So a branch that falls through stops with `MissingNode(-1)`.
- The executor is modelled against the address-keyed graph: the template lookup, `addNode` and the root node. The index-keyed graph's lookups are modelled on their own.
- Contexts.MethodContext.PokeRegister: a non-static method with no spare register (parameters start at register 0) asks for register -1. The model refuses that write instead of raising an index exception.
- The graph constructors require what the instruction builder guarantees: strictly ascending code addresses, and indices equal to list positions. The method-context constructor requires no more parameters than registers.
- Null pointers and out-of-range indices are not thrown. They are returned as faults (`MissingNode`, `NullContext`, `InvalidRegister`, `NullIfType`, `UndefinedMethod`).
- VM.VirtualMachine.constructor: requires every method to have an instruction at address 0. A Dafny constructor cannot fail, so the throwing case is `VM.NewVirtualMachine`, which returns MissingNode(0) before constructing anything; the source has thrown by then too, and no machine is left.
- Methods without an implementation (abstract and native methods) are outside the model. The method record always carries an instruction list; the source's graph constructor throws on such a method (src/simplify/vm/ContextGraph.java:84-85).
- Floating-point, wide and object register values are left out. Payloads are integers and strings only.
- RefactorGraph.ContextGraph.TemplateNodeByAddress has no corrected counterpart. It makes the same address-as-index lookup as `NodePileByAddress`, which the Findings cover.

## Findings

| source | as written | input that shows it | evidently intended | confidence | as-written member | corrected member |
|---|---|---|---|---|---|---|
| src/simplify/vm/ContextGraph.java:166-176 | `wasAddressReached` returns `nodePile.size() > 0`, which every pile satisfies because its template is element 0 | a freshly built graph: an address whose pile holds only its template is reported reached | `size() > 1`: reached when a clone was added, as the comment says and as the index-keyed graph's `isInstructionReachable` does | high; not executed | SimplifyGraph.WasAddressReachedCounterexample | SimplifyGraph.WasAddressReachedIntendedMeaning |
| src/simplify/vm/ContextGraph.java:125-143 | `getConsensus` compares the first clone at `addresses[0]` only against the nodes of `addresses[1..]`; other clones at `addresses[0]` are never compared | one address whose pile holds two clones with register 0 = 1 and = 2: the result is the store holding 1 | every node at every given address takes part, so a disagreement at the first address gives the unknown store | medium; not executed | SimplifyGraph.ConsensusCounterexample | SimplifyGraph.ConsensusIntendedMeaning |
| src/refactor/vm/ContextGraph.java:97-101 | `getNodePileByAddress` looks the address up in the index→address map and uses the resulting address as an index | instructions at addresses 0, 1 and 3: address 3 is not an index, so the lookup reads 0 and returns the root's pile instead of index 2's | map the address back to the index of the instruction at that address | high; not executed | RefactorGraph.NodePileByAddressCounterexample | RefactorGraph.NodePileByAddressIntendedFinds |
