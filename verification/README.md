# Verified models of compiler passes and benchmark algorithms

A Dafny verification project kept beside a compiler-course repository: hand-written LLVM
optimisation passes, intrusive list and trie libraries, and benchmark programs in C. Each part
models one program in the form it has there (objects with fields that methods reassign, nodes
linked on the heap, arrays, loops) and proves what the program is for.

## What is modelled

**Optimisation passes.** `IR` is a small SSA representation with blocks, pure operations, loads,
stores, calls, volatile accesses, allocas, globals and unknown pointers, and an interpreter that
starts from any memory with finitely many non-zero cells, counts steps and records events (calls, volatile accesses, the returned value). Two programs have
the same behaviour when, in every world (argument values, call results, effects of pure
operations, layout of objects, initial memory), they produce the same events, final memory and
result, for runs that end and for runs that do not. `Dominance` shows that nothing that
dominates an instruction runs again between that instruction and a place it dominates; `Facts`
says what the last execution of an instruction still guarantees. On top of these stand the
rewriting step shared by all passes (`Replace`), the elimination pass of `p2.cpp` (`Available`,
`DeadStore`, `Cse`, `Redundancy`, `CsePass`, `LoadReuse`), loop-invariant code motion of `p3.cpp` (`Loops`,
`Slots`, `Licm`) and worklist dead code elimination of `dce.cpp` (`Dce`).

**Adaptive bitonic sort** (`BitonicSeq`, `AdaptiveMerge`, `BitonicTree`, `Bisort`,
`BitonicTies`), in the pointer-exchanging form that the benchmark's Makefile selects. The heap
methods are shown equal, for every input, to functions on the in-order values; these functions
sort every input in which no value occurs more than four times, and an input with one value five
times is given that they leave unsorted. `SwapTree` has the other form of the subtree exchange, in
chunks with three explicit stacks, and shows that it does what the recursive form does.

**Prim's algorithm** (`SpanningTree`, `HashTable`, `Prim`): spanning trees by cuts, the blue rule by
an exchange argument, the chained hash table as a map, and the list of vertices as the program
unlinks it.

**The Patricia trie** (`PatriciaShape`, `PatriciaLinks`, `PatriciaMap`, `Patricia`): the shape with
its up-links, every single link update the program makes, and the trie as a map.

**The doubling hash table** of `uthash.h` (`Bits`, `BucketStats`, `HashLinks`, `HashExpand`,
`Uthash`): one set of items threaded through bucket chains and through the insertion order, bucket
doubling with its bookkeeping, and why the chains of a table that may still expand stay bounded.

**The Barnes-Hut octree** (`OctSpace`, `OctTree`, `Octree`, `OctMass`), over exact reals: boxes and
integer coordinates, the tree of bodies as it is linked in memory, growth of the box with the old
tree grafted in, insertion, and centres of mass.

**The streaming secure hash** (`ShaModel`, `Sha`): the digest of FIPS 180-4 as a function of the
message, and the program's buffer, counters and rounds on a little-endian machine.

**Queue-based shortest paths** (`Walks`, `Dijkstra`), **in-place list mergesort** (`MergeRuns`,
`ListSort`), **ADPCM** (`AdpcmModel`, `Adpcm`), the **bit-pair square root** (`Isqrt`) and the
**table-driven CRC** (`Crc32`, `CrcBursts`). `Wrappers` holds the option datatype.

Parameters stand for what lies outside: what LLVM's analyses answer (simplification, dominator
tree, loop information, speculatability, exit dominance) enters as functions with a stated
contract; calls, pure operations and the initial memory enter as the world of a run.

Where code and documentation differ, the code is followed:

- The load scan of `p2.cpp` passes over calls, although a comment in the store scan asks for calls
  to be treated as stores. `LoadReuse` states exactly when that is right and gives a program on
  which it is not.
- `usqrt` documents two result fields; the copy of a 64-bit long leaves the second one zero.
- `__Olden_panic` expands to an assertion of a string literal, which never fails; on a complete
  graph the branch is not taken.
- `pat_remove` tests an uninitialised pointer on entry; the model leaves this test out.
- `sha_update` forgets what an earlier update left over when it does not begin a block;
  `Sha.SecondUpdateOverwrites` gives two updates of one byte, `Sha.UnalignedLoses` contents of every
  pair of lengths that does not end a block.
- `expandbox` does not look at the box again while there is no tree, so a first body outside the box
  ends the program; a later one is reached if it lies, on each axis, no further off than doubling
  below a size of 1000 can cover. `Octree.ExpandBox` and `OctMass.MakeTree` say so exactly.
- The macro `USE_MODIFIED_SHA` is not defined by the benchmark's Makefile; `modified` stands for it.
- `isIdempotent` is asked of calls, where it never holds, so in the load test of `p3.cpp` every
  call blocks.

## Model

| member | source | states |
|---|---|---|
| `Dominance.NoReexecution` | projects/p2/C++/p2.cpp:366-375 | on every execution path, nothing that dominates j runs again between j's last execution and a slot j dominates |
| `Dominance.RunIsPath` | projects/p2/C++/p2.cpp:354-364 | every run follows the control-flow graph and never falls off the end, so dominance speaks about runs |
| `Facts.RunSound` | projects/p2/C++/p2.cpp:340-352 | in every reachable state the last execution of each instruction still tells the value it would compute, and what loads and stores established about memory, unless something since then redefined an operand or wrote the cell |
| `Replace.ReplaceWellFormed` | projects/p2/C++/p2.cpp:347-348 | replacing all uses by an available operand and erasing keeps every operand defined on every way to its use |
| `Replace.ReplaceSimulation` | projects/p2/C++/p2.cpp:347-348 | original and rewritten program run in lock step: every other value, the memory and all events agree at every step |
| `Replace.ReplacePreserves` | projects/p2/C++/p2.cpp:347-348 | the rewritten program has the same behaviour in every world |
| `AvailableValues.DominatingCopyEqual` | projects/p2/C++/p2.cpp:366-375 | an identical pure instruction that dominates another already holds its value, on any control-flow graph, loops included |
| `AvailableValues.RepeatedLoadEqual` | projects/p2/C++/p2.cpp:393-411 | a load repeats an earlier one of its block if nothing between them can write memory |
| `AvailableValues.ForwardedStoreEqual` | projects/p2/C++/p2.cpp:451-457 | a load of the cell a store has just filled yields the stored value, which is available there |
| `DeadStore.DeadStorePreserves` | projects/p2/C++/p2.cpp:458-465 | erasing a store that the next memory operation of its block overwrites keeps the behaviour, although memory differs in between |
| `DeadStore.EraseStoreWellFormed` | projects/p2/C++/p2.cpp:463 | erasing the store leaves every operand defined |
| `Cse.PassPreserves` | projects/p2/C++/p2.cpp:186-233 | the whole pass from any slot on keeps the function well formed and its behaviour in every world in which calls do not write memory, and in every world at all when no call stands, without a store, between a load and a later non-volatile one of the same type that could come to repeat it |
| `Cse.WholeBlockDominates` | projects/p2/C++/p2.cpp:366-375 | an instruction dominates every slot of the blocks its block immediately dominates |
| `CsePass.FunctionPass.RemoveCommonInstructionsIn` | projects/p2/C++/p2.cpp:340-352 | the iterator loop computes the scan of one block |
| `CsePass.FunctionPass.RemoveCommonInstInDominatedBlocks` | projects/p2/C++/p2.cpp:366-375 | the loop over the immediately dominated blocks |
| `CsePass.FunctionPass.BasicCsePass` | projects/p2/C++/p2.cpp:378-387 | own block first, then the dominated ones, only for the opcodes the pass works on; the function stays well formed and behaves the same in every world |
| `CsePass.FunctionPass.EliminateRedundantLoads` | projects/p2/C++/p2.cpp:393-411 | the loop that erases matching non-volatile loads up to the first store |
| `CsePass.FunctionPass.EliminateRedundantStore` | projects/p2/C++/p2.cpp:438-472 | the loop that forwards to loads, erases the overwritten store, and stops at any other memory operation or call |
| `CsePass.FunctionPass.Visit` | projects/p2/C++/p2.cpp:192-231 | one turn, in the order of the source: what is dead goes; what simplifies is replaced; otherwise a used pure instruction, fcmp apart, keeps its place and no copy of it is left in its block or in a block that its block immediately dominates, every matching load up to the first store goes, every load that reads a store back goes, and a store that another one stores over goes; well-formedness and behaviour are kept in every world in which calls are harmless |
| `CsePass.FunctionPass.CommonSubexpressionElimination` | projects/p2/C++/p2.cpp:186-233 | the loop terminates and leaves a well-formed function of the same behaviour; of a pure instruction and a copy of it in scope, and of two loads of a cell with no store in between, at most one is left, and no load that reads a store back and no store that another one stores over |
| `Redundancy.CommonGone` | projects/p2/C++/p2.cpp:340-352 | the scan leaves the instruction alone and no copy of it in the scanned slots, makes no new copy and erases nothing else |
| `Redundancy.TurnRemovesCopies` | projects/p2/C++/p2.cpp:340-387 | a turn at a pure instruction leaves no copy in the rest of its block and in the blocks that its block immediately dominates |
| `Redundancy.TurnRemovesLoads` | projects/p2/C++/p2.cpp:393-411 | a turn at a load erases every matching load up to the first store |
| `Redundancy.TurnRemovesReads` | projects/p2/C++/p2.cpp:451-457 | a turn at a store erases every load that reads it back |
| `Redundancy.TurnRemovesStore` | projects/p2/C++/p2.cpp:458-465 | and the store itself if another one stores over it, loads that it is forwarded to in between or not |
| `Redundancy.TurnSparesOthers` | projects/p2/C++/p2.cpp:192-231 | a turn that simplifies nothing erases nothing else |
| `Redundancy.NoCopiesLeft` | projects/p2/C++/p2.cpp:186-233 | the whole pass leaves at most one of an instruction and a copy of it in scope |
| `Redundancy.NoRepeatedLoadsLeft` | projects/p2/C++/p2.cpp:186-233 | and at most one of two loads of a cell with no store in between |
| `Redundancy.NoReadsBackLeft` | projects/p2/C++/p2.cpp:186-233 | and no load that reads a store back |
| `Redundancy.NoStoredOverLeft` | projects/p2/C++/p2.cpp:186-233 | and no store that another one stores over |
| `LoadReuse.LoadReuseExact` | projects/p2/C++/p2.cpp:393-411 | where the block returns what the later load yields, replacing it by a matching earlier one with no store in between keeps the behaviour in every world if and only if no call lies in between |
| `LoadReuse.LoadValueExact` | projects/p2/C++/p2.cpp:393-411 | the same for the value alone: the earlier load has the later one's value in every world if and only if no call lies in between |
| `LoadReuse.LoadReuseBreaks` | projects/p2/C++/p2.cpp:407-409 | a concrete program whose result the whole pass changes, whatever the dominator tree |
| `Licm.AcceptedLoadIsQuiet` | projects/p3/p3.cpp:311-369 | if the scan accepts a load, its operands come from outside the loop and no slot of the loop may write the loaded cell |
| `Licm.LoopStepKeepsCell` | projects/p3/p3.cpp:311-369 | on every run, no step made in the loop changes the address or the contents of the cell of an accepted load |
| `Loops.StaysInLoop` | projects/p3/p3.cpp:408-409 | between the last execution of the preheader's end and a slot of the loop, the loop is never left |
| `Loops.HoistedEqual` | projects/p3/p3.cpp:395-418 | in every iteration a copy at the end of the preheader still has the value the original would compute |
| `Loops.OutsideReachesPreheader` | projects/p3/p3.cpp:400 | an operand defined outside the loop is defined at the preheader's end |
| `Slots.SlotPreserves` | projects/p3/p3.cpp:409 | making room in front of the preheader's terminator, with all later instructions renumbered, keeps the behaviour |
| `Slots.SlotWellFormed` | projects/p3/p3.cpp:409 | and keeps the function well formed |
| `Licm.MovedWhere` | projects/p3/p3.cpp:409 | moving puts the instruction right before the given slot and leaves its old place empty |
| `Licm.HoistPreserves` | projects/p3/p3.cpp:395-418 | moving one accepted instruction to the preheader keeps the behaviour |
| `Licm.LicmPreserves` | projects/p3/p3.cpp:420-477 | hoisting over all loops, inner ones first, keeps the function well formed, the loops loops, and the behaviour |
| `Licm.LoopPass.CanMoveLoadOutOfLoop` | projects/p3/p3.cpp:311-369 | the scan with its two flags decides exactly the stated condition |
| `Licm.LoopPass.MoveLoopInvariants` | projects/p3/p3.cpp:395-418 | one turn: a speculatable instruction without operands from the loop, a load of a spared global or outside alloca, or a load of an outside address that dominates the exits of a loop without stores and calls is moved to the end of the preheader, and its old place is vacant; everything else stays; well-formedness, loops and behaviour are kept in every world |
| `Licm.VisitHoists` | projects/p3/p3.cpp:395-418 | what a turn moves and where, in terms of the function and the loop alone, and that nothing else changes |
| `Licm.LoopPass.LoopInvariantCodeMotion` | projects/p3/p3.cpp:420-467 | the loop over the slots of one loop; if it lists definitions before uses, no speculatable instruction is left in it whose operands all come from outside |
| `Licm.RunLoopSettles` | projects/p3/p3.cpp:420-467 | then every speculatable instruction left in the loop uses another slot of the loop |
| `Licm.LoopPass.WorkOnNestedLoops` | projects/p3/p3.cpp:470-477 | the pass over all loops keeps well-formedness and behaviour; with inner loops first, no speculatable instruction on constants, arguments and globals is left in any loop, and no load of a global that the loop spares |
| `Licm.RunLoopsClear` | projects/p3/p3.cpp:470-477 | later hoists put nothing of the kind back into a loop that is done |
| `Dce.NothingDeadLeft` | tutorials/3/C++/dce.cpp:193-245 | when nothing dead is left, the erased set is the least set closed under "removable and all users in the set" |
| `Dce.LeastIsUnique` | tutorials/3/C++/dce.cpp:215-242 | so the outcome does not depend on the order the worklist yields |
| `Dce.EraseOneAgrees` | tutorials/3/C++/dce.cpp:238 | erasing one more dead instruction changes no event, no memory and no surviving value at any step of any run |
| `Dce.Turn` | tutorials/3/C++/dce.cpp:217-240 | one turn never leaves an erased instruction or an unqueued dead one behind |
| `Dce.DeadCodePass.CollectDead` | tutorials/3/C++/dce.cpp:196-213 | queues exactly what is dead to begin with |
| `Dce.DeadCodePass.QueueOperands` | tutorials/3/C++/dce.cpp:221-237 | queues the instructions among the operands |
| `Dce.DeadCodePass.RunDeadCodeElimination` | tutorials/3/C++/dce.cpp:193-245 | terminates for every order; erases exactly the least closed set; every pure instruction, alloca and non-volatile load that is left has a use; same behaviour |
| `IR.RemovableExact` | tutorials/3/C++/dce.cpp:122-189 | the opcodes that may be erased are exactly those that yield a value and never change memory or what is observed |
| `BitonicSeq.UpDownBitonic` | wolfbench/Benchmarks/bisort/bitonic.c:346-391 | an up-run followed by a down-run is cyclically bitonic |
| `BitonicSeq.FlipsOnce` | wolfbench/Benchmarks/bisort/bitonic.c:282-328 | in a bitonic sequence the comparison of opposite positions does not flip twice, ties apart |
| `BitonicSeq.TieIsPlateau` | wolfbench/Benchmarks/bisort/bitonic.c:282-328 | a tie between exchanges in opposite senses means that all values on one side of it are equal |
| `BitonicSeq.ExchangesOneSided` | wolfbench/Benchmarks/bisort/bitonic.c:282-328 | with no value more than four times, the comparison of root and spare tells on which side the exchanges lie, or only the two ends are tied |
| `BitonicSeq.CleanSeparates` | wolfbench/Benchmarks/bisort/bitonic.c:282-328 | the half-cleaner puts everything in the first half before everything in the second, ties included |
| `BitonicSeq.CleanBitonic` | wolfbench/Benchmarks/bisort/bitonic.c:282-328 | both halves are bitonic again |
| `AdaptiveMerge.DescendSeqCleans` | wolfbench/Benchmarks/bisort/bitonic.c:290-328 | the single root-to-leaf search performs the whole half-cleaner |
| `AdaptiveMerge.DescendSeqExact` | wolfbench/Benchmarks/bisort/bitonic.c:290-328 | where opposite values differ, the search performs the half-cleaner if and only if the exchanges lie on one side |
| `AdaptiveMerge.DescendSeqTied` | wolfbench/Benchmarks/bisort/bitonic.c:290-328 | with tied ends the search goes right all the way and still performs the half-cleaner |
| `AdaptiveMerge.DescendSeqPermutes` | wolfbench/Benchmarks/bisort/bitonic.c:290-328 | whatever the values, the search loses and duplicates nothing |
| `AdaptiveMerge.MergeSeqMerges` | wolfbench/Benchmarks/bisort/bitonic.c:257-344 | the merge permutes every input and sorts every bitonic input in which no value occurs more than four times |
| `AdaptiveMerge.SortSeqSorts` | wolfbench/Benchmarks/bisort/bitonic.c:346-391 | the sort permutes every input and sorts, up or down, every input in which no value occurs more than four times |
| `BitonicTies.TiesDefeatTheMerge` | wolfbench/Benchmarks/bisort/bitonic.c:257-344 | a bitonic input, with one value five times and the others less, that the merge does not sort |
| `BitonicTies.TiesDefeatTheSort` | wolfbench/Benchmarks/bisort/bitonic.c:346-391 | sixteen values, only one of them five times, that the sort leaves out of order: four is the best bound |
| `BitonicTree.ShapesKeepNodes` | wolfbench/Benchmarks/bisort/bitonic.c:226-229 | exchanging subtrees keeps the set of nodes, disjointness and perfect form |
| `BitonicTree.DescendMatches` | wolfbench/Benchmarks/bisort/bitonic.c:290-328 | the descent by pointer exchanges computes the search on the in-order values, for all values |
| `Bisort.SwapPart` | wolfbench/Benchmarks/bisort/bitonic.c:215-255 | SwapValLeft and SwapValRight, link by link |
| `Bisort.DescendLoop` | wolfbench/Benchmarks/bisort/bitonic.c:290-328 | the while loop with both cursors |
| `Bisort.MergeHalves` | wolfbench/Benchmarks/bisort/bitonic.c:329-341 | the two recursive merges at the end |
| `Bisort.Bimerge` | wolfbench/Benchmarks/bisort/bitonic.c:257-344 | same nodes, a perfect tree again, and the merge of the in-order values and the spare |
| `Bisort.SortHalves` | wolfbench/Benchmarks/bisort/bitonic.c:368-382 | the two recursive sorts in opposite directions |
| `Bisort.Bisort` | wolfbench/Benchmarks/bisort/bitonic.c:346-391 | same nodes, a perfect tree again; a permutation, and sorted in the given direction when no value occurs more than four times |
| `SpanningTree.Component` | wolfbench/Benchmarks/mst/main.c:8-72 | around every vertex there is a part that the edges connect and isolate |
| `SpanningTree.Exchange` | wolfbench/Benchmarks/mst/main.c:54-66 | any completion of the tree can give up an edge for a cheapest outgoing one without gaining weight |
| `SpanningTree.BlueRuleKeeps` | wolfbench/Benchmarks/mst/main.c:54-66 | a tree that is part of a minimum one still is after a cheapest outgoing edge is added |
| `SpanningTree.PromisingTreeIsMinimum` | wolfbench/Benchmarks/mst/main.c:90-119 | such a tree that spans weighs no more than any spanning tree |
| `HashTable.Hash.HashLookup` | wolfbench/Benchmarks/mst/hash.c:40-51 | the entry of the key in the map, or 0 |
| `HashTable.Hash.HashInsert` | wolfbench/Benchmarks/mst/hash.c:53-66 | sets exactly this key in the map, also when it was there with entry 0 |
| `HashTable.Hash.HashDelete` | wolfbench/Benchmarks/mst/hash.c:68-80 | removes the first entry of the key: the key leaves the map, unless its chain has further entries of it; these are all 0, and then the key has entry 0 |
| `HashTable.Hash.OtherBuckets` | wolfbench/Benchmarks/mst/hash.c:55-64 | a change at one key is not noticed in other buckets |
| `HashTable.Search` | wolfbench/Benchmarks/mst/hash.c:45-49 | finds the first entry of the chain with the key, or that there is none |
| `Prim.BlueRule` | wolfbench/Benchmarks/mst/main.c:8-72 | lowers every distance by the edge to the inserted vertex, unlinks that vertex wherever it is, and returns the first nearest one |
| `Prim.DoAllBlueRule` | wolfbench/Benchmarks/mst/main.c:82-88 | also when the inserted vertex heads the list; distances are then those to all inserted vertices |
| `Prim.NearestEdge` | wolfbench/Benchmarks/mst/main.c:54-66 | the vertex returned is the far end of a cheapest edge out of the tree |
| `Prim.Round` | wolfbench/Benchmarks/mst/main.c:108-117 | one turn: a tree that is part of a minimum one grows by one vertex |
| `Prim.ComputeMst` | wolfbench/Benchmarks/mst/main.c:90-119 | returns the weight of a minimum spanning tree of the complete graph |
| `PatriciaShape.FindOwn` | wolfbench/Benchmarks/patricia/patricia.c:115-119 | every key's own bits lead to its node by one up-link |
| `PatriciaShape.Inserted` | wolfbench/Benchmarks/patricia/patricia.c:65-81 | insertion adds one leaf and one node |
| `PatriciaShape.InsertGood` | wolfbench/Benchmarks/patricia/patricia.c:65-81 | insertion at the first differing bit keeps bits increasing, leaves sorted, skipped bits agreeing and every node's leaf below it |
| `PatriciaShape.RedirectGood` | wolfbench/Benchmarks/patricia/patricia.c:240-243 | an up-link may be redirected to another node of its path |
| `PatriciaShape.RemoveGood` | wolfbench/Benchmarks/patricia/patricia.c:192-277 | removal deletes exactly the target's leaf, moves the parent's entry to the target and keeps the trie in form |
| `PatriciaLinks.RedirectLinks` | wolfbench/Benchmarks/patricia/patricia.c:240-243 | the first link update |
| `PatriciaLinks.RemoveLinks` | wolfbench/Benchmarks/patricia/patricia.c:240-253 | both link updates together, in their order, unlink the parent even when it owns the up-link that is redirected |
| `PatriciaMap.GetMeans` | wolfbench/Benchmarks/patricia/patricia.c:314-343 | following the bits of a key finds exactly what is stored under it |
| `PatriciaMap.Differs` | wolfbench/Benchmarks/patricia/patricia.c:172-174 | the scan from bit 1 finds a difference if and only if the key has a bit set after the first |
| `PatriciaMap.GetInserted` | wolfbench/Benchmarks/patricia/patricia.c:91-186 | after an insertion the new key has its data and every other key what it had |
| `PatriciaMap.GetRemoved` | wolfbench/Benchmarks/patricia/patricia.c:192-277 | after a removal the key is gone and every other key has what it had |
| `PatriciaMap.GetRestored` | wolfbench/Benchmarks/patricia/patricia.c:124-140 | after the data of a key is replaced every other key has what it had |
| `Patricia.Initialise` | wolfbench/Benchmarks/patricia/patricia_test.c:90-119 | a head linked to itself is a trie, and it stores nothing |
| `Patricia.PatSearch` | wolfbench/Benchmarks/patricia/patricia.c:314-343 | the node that stores the key, or else the default head |
| `Patricia.FirstBit` | wolfbench/Benchmarks/patricia/patricia.c:172-174 | the first bit from 1 on in which the keys differ, or 32 if they agree in all of them |
| `Patricia.InsertR` | wolfbench/Benchmarks/patricia/patricia.c:65-81 | the recursive descent relinks exactly as the insertion on shapes says |
| `Patricia.PatInsert` | wolfbench/Benchmarks/patricia/patricia.c:91-186 | a trie again; the key has the data; every other key keeps what it had |
| `Patricia.Locate` | wolfbench/Benchmarks/patricia/patricia.c:200-211 | target, parent and grandparent |
| `Patricia.UpLink` | wolfbench/Benchmarks/patricia/patricia.c:231-238 | the node whose up-link leads to the parent |
| `Patricia.Unlink` | wolfbench/Benchmarks/patricia/patricia.c:240-253 | the two link updates |
| `Patricia.TakeOver` | wolfbench/Benchmarks/patricia/patricia.c:255-266 | the target takes over what the parent stored |
| `Patricia.PatRemove` | wolfbench/Benchmarks/patricia/patricia.c:192-277 | removed exactly when the key is stored and the mask matches; every other key keeps what it had; one node leaves the trie |
| `Walks.NewOnRoute` | wolfbench/Benchmarks/dijkstra/dijkstra_large.c:126-137 | a vertex that improves is new on the route, so every label is the cost of a simple path |
| `Walks.RelaxInv` | wolfbench/Benchmarks/dijkstra/dijkstra_large.c:129-135 | one successful comparison keeps the invariant and lowers a label |
| `Walks.RelaxFrontier` | wolfbench/Benchmarks/dijkstra/dijkstra_large.c:129-135 | every label stays queued or used on all edges |
| `Walks.LowerBound` | wolfbench/Benchmarks/dijkstra/dijkstra_large.c:122-138 | with an empty queue no walk costs less than the label |
| `Walks.Correct` | wolfbench/Benchmarks/dijkstra/dijkstra_large.c:100-138 | labels are then the least walk costs, and NONE exactly where there is no walk |
| `Walks.Backward` | wolfbench/Benchmarks/dijkstra/dijkstra_large.c:38-46 | predecessor links explain labels exactly and are older, so they are acyclic, zero-cost edges included |
| `Dijkstra.Queue.Enqueue` | wolfbench/Benchmarks/dijkstra/dijkstra_large.c:49-75 | appends at the end of the linked queue |
| `Dijkstra.Queue.Dequeue` | wolfbench/Benchmarks/dijkstra/dijkstra_large.c:78-92 | takes the first item, or leaves the results alone when the queue is empty |
| `Dijkstra.Consider` | wolfbench/Benchmarks/dijkstra/dijkstra_large.c:126-137 | the body of the inner loop |
| `Dijkstra.Turn` | wolfbench/Benchmarks/dijkstra/dijkstra_large.c:122-138 | one item used on every edge: the sum of labels falls, or the queue shrinks |
| `Dijkstra.Run` | wolfbench/Benchmarks/dijkstra/dijkstra_large.c:117-138 | the search terminates with exact labels |
| `Dijkstra.PrintPath` | wolfbench/Benchmarks/dijkstra/dijkstra_large.c:38-46 | terminates and prints a walk to the node that costs exactly its label |
| `Dijkstra.Dijkstra` | wolfbench/Benchmarks/dijkstra/dijkstra_large.c:100-146 | least costs to every node, and the printed path has exactly the least cost |
| `MergeRuns.MergeOrdered` | LectureCode/Review/utlist.h:197-224 | merging an earlier ordered run with a later one is ordered and stable |
| `MergeRuns.PassRuns` | LectureCode/Review/utlist.h:186-226 | a pass turns ordered runs of length n into ordered runs of length 2n |
| `MergeRuns.OneMerge` | LectureCode/Review/utlist.h:229-231 | a pass with at most one merge is the last one needed |
| `MergeRuns.StableSortUnique` | LectureCode/Review/utlist.h:173-233 | a list has only one stable sort |
| `ListSort.Append` | LectureCode/Review/utlist.h:214-222 | relinks one element at the end of what is done |
| `ListSort.Step` | LectureCode/Review/utlist.h:197-223 | one turn of the merge loop, with its four cases |
| `ListSort.MergeRun` | LectureCode/Review/utlist.h:196-223 | the merge loop merges the two runs |
| `ListSort.Advance` | LectureCode/Review/utlist.h:189-194 | finds the second run, at most insize elements on |
| `ListSort.OnePass` | LectureCode/Review/utlist.h:181-228 | one pass, with all next and prev links, the tail and the head's link to it |
| `ListSort.DLSort` | LectureCode/Review/utlist.h:173-233 | terminates with the stable sorted permutation and a well-linked list, for every total preorder |
| `AdpcmModel.LockStep` | wolfbench/Benchmarks/adpcm/adpcm.c:101-172 | decoding the code of a sample brings the decoder to the coder's state |
| `AdpcmModel.LockStepAll` | wolfbench/Benchmarks/adpcm/adpcm.c:202-251 | decoding what was coded reproduces every predictor and the final state |
| `AdpcmModel.QuantiseError` | wolfbench/Benchmarks/adpcm/adpcm.c:118-138 | three comparisons miss the difference by at most an eighth of a step and rounding |
| `AdpcmModel.CodeError` | wolfbench/Benchmarks/adpcm/adpcm.c:101-151 | the predictor is within (step>>3)+2 of the sample whenever the difference is below two steps, clamping included |
| `AdpcmModel.QuantiseExact` | wolfbench/Benchmarks/adpcm/adpcm.c:118-138 | the magnitude is the greatest whose threshold, in whole, half and quarter steps, the difference reaches |
| `AdpcmModel.CodeExact` | wolfbench/Benchmarks/adpcm/adpcm.c:101-151 | for every sample: the sign, the greatest magnitude reached, the predictor moved by its threshold and an eighth of a step, and the index moved by the magnitude |
| `AdpcmModel.CodeSaturates` | wolfbench/Benchmarks/adpcm/adpcm.c:118-151 | from two steps on the code is 7, the predictor goes 1 7/8 steps towards the sample, rounded down piecewise and never past it, and the index rises by eight up to 88 |
| `AdpcmModel.DecodeExact` | wolfbench/Benchmarks/adpcm/adpcm.c:213-247 | what the decoder makes of each of the sixteen codes |
| `AdpcmModel.StepTable` | wolfbench/Benchmarks/adpcm/adpcm.c:60-71 | the step sizes rise strictly from 7 to 32767, by a tenth each up to rounding, the last one apart |
| `AdpcmModel.IndexTable` | wolfbench/Benchmarks/adpcm/adpcm.c:54-57 | magnitudes below four lower the index by one, the others raise it by two, four, six or eight |
| `AdpcmModel.RoundTrip` | wolfbench/Benchmarks/adpcm/adpcm.c:160-251 | from equal states the decoder follows the coder through the packed bytes, odd lengths included |
| `AdpcmModel.Chunks` | wolfbench/Benchmarks/adpcm/adpcm.c:91-172 | coding in chunks, all but the last of even length, writes the same bytes as one call |
| `Adpcm.CodeSample` | wolfbench/Benchmarks/adpcm/adpcm.c:101-158 | the coder's arithmetic on its local variables |
| `Adpcm.AdpcmCoder` | wolfbench/Benchmarks/adpcm/adpcm.c:73-173 | the loop writes exactly the model's bytes, leaves the rest of the buffer alone and stores the model's state |
| `Adpcm.DecodeSample` | wolfbench/Benchmarks/adpcm/adpcm.c:213-247 | the decoder's arithmetic |
| `Adpcm.AdpcmDecoder` | wolfbench/Benchmarks/adpcm/adpcm.c:176-252 | the loop writes exactly the model's samples and state |
| `Isqrt.Turn` | wolfbench/Benchmarks/basicmath/isqrt.c:53-63 | one digit keeps remainder = prefix - root squared <= 2 * root, and nothing leaves 64 bits |
| `Isqrt.Usqrt` | wolfbench/Benchmarks/basicmath/isqrt.c:45-66 | a*a <= x * 2^32 < (a+1)*(a+1) for the low word x |
| `Crc32.TableIsShifts` | wolfbench/Benchmarks/CRC32/crc_32.c:74-118 | each of the 256 entries is eight shift/xor steps of 0xedb88320 |
| `Crc32.BitsThenShifts` | wolfbench/Benchmarks/CRC32/crc_32.c:45-53 | taking bits one at a time is combining the byte first and shifting then |
| `Crc32.UpdateIsBits` | wolfbench/Benchmarks/CRC32/crc_32.c:120-123 | one table step is eight bit steps |
| `Crc32.Crc32Buf` | wolfbench/Benchmarks/CRC32/crc_32.c:159-172 | the result is the bit-serial CRC of the message, under 32 one bits |
| `Crc32.CrcLinear` | wolfbench/Benchmarks/CRC32/crc_32.c:159-172 | for messages of one length the CRCs of three combine to the CRC of their combination |
| `CrcBursts.BurstDetected` | wolfbench/Benchmarks/CRC32/crc_32.c:159-172 | a message in which up to four bytes in a row have been changed, anywhere, never has the CRC of the original |
| `SwapTree.NextNode` | wolfbench/Benchmarks/bisort/swap.c:41-54 | the top node is taken and its children stacked; for full trees of at most twenty levels there is always room |
| `SwapTree.SwapDFS` | wolfbench/Benchmarks/bisort/swap.c:36-54 | visits exactly the next 256 nodes in preorder, or all that are left: collected, replaced or both, all others untouched |
| `SwapTree.SwapChunk` | wolfbench/Benchmarks/bisort/swap.c:71-77 | one turn of the loop: the next chunks of both trees change places, and the three traversals stay aligned |
| `SwapTree.NewSwapSubTree` | wolfbench/Benchmarks/bisort/swap.c:56-80 | all values change places in preorder; for trees of one form the trees of values are exchanged |
| `SwapTree.Collect` | wolfbench/Benchmarks/bisort/swap.c:83-96 | the values of the tree in preorder |
| `SwapTree.CollectReplace` | wolfbench/Benchmarks/bisort/swap.c:98-113 | the tree and the buffer change places |
| `SwapTree.Replace` | wolfbench/Benchmarks/bisort/swap.c:115-128 | the tree takes the values of the buffer |
| `SwapTree.SwapSubTree` | wolfbench/Benchmarks/bisort/swap.c:131-139 | within the size of its buffer, the very exchange that NewSwapSubTree makes |
| `SwapTree.Images` | wolfbench/Benchmarks/bisort/swap.c:56-80 | trees of one form differ only by their values in preorder |
| `BucketStats.CeilingByBits` | LectureCode/Review/uthash.h:773-804 | the shift and the mask give the ceiling of items over buckets |
| `BucketStats.BelowTwenty` | LectureCode/Review/uthash.h:1010-1021 | as long as chains fit their thresholds and the multipliers add up to at most two a bucket, there are less than twenty items a bucket |
| `BucketStats.ExpansionBounds` | LectureCode/Review/uthash.h:802-817 | an expansion re-establishes those bounds, because the ideal length it computes is at most the capacity |
| `HashExpand.MoveHandle` | LectureCode/Review/uthash.h:810-823 | one handle moves to its new bucket, with count, multiplier and excess |
| `HashExpand.ExpandBuckets` | LectureCode/Review/uthash.h:791-826 | all items and no others are in the new buckets, each in the one of its hash value; the ideal length is the ceiling and nonideal the total excess over it |
| `Uthash.ExpandTable` | LectureCode/Review/uthash.h:791-838 | twice as many buckets, all numbers exact, ideal length at most ten; expansion is inhibited after two ineffective ones in a row |
| `Uthash.AddToBkt` | LectureCode/Review/uthash.h:736-746 | the item is in its bucket, and the number of buckets doubles if expansion is not inhibited and the bucket now holds ten times its multiplier plus one, and stays otherwise |
| `Uthash.DelInBkt` | LectureCode/Review/uthash.h:750-760 | the item leaves its chain, whose links close |
| `Uthash.FindInBkt` | LectureCode/Review/uthash.h:714-733 | an item of the chain with the key, or there is none |
| `Uthash.Hash.Add` | LectureCode/Review/uthash.h:284-305 | the list in insertion order grows by exactly the new item at its end; the first item makes 32 buckets, later ones double them exactly when they fill a bucket up, and never below ten items |
| `Uthash.Hash.Find` | LectureCode/Review/uthash.h:119-136 | an item with the key if and only if the list has one |
| `Uthash.Hash.Delete` | LectureCode/Review/uthash.h:337-370 | exactly this item leaves the list; the others keep their order, also when the head, the tail or the only item goes |
| `Uthash.Hash.Replace` | LectureCode/Review/uthash.h:200-216 | the item that had the key goes, the new one is last, and keys stay unique |
| `Uthash.Hash.Fsck` | LectureCode/Review/uthash.h:400-450 | the check finds no fault in any table that the macros build |
| `Uthash.Check` | LectureCode/Review/uthash.h:400-450 | on any table whose forward links end, faulty or not, the check finds no fault if and only if every link back is right, every bucket knows the length of its chain and both walks meet as many items as the table has |
| `Uthash.Hash.StaysBounded` | LectureCode/Review/uthash.h:1010-1021 | unless expansion is inhibited every chain is within its threshold and the average is below twenty |
| `OctSpace.BitsAreOctants` | wolfbench/Benchmarks/bh/newbh.c:1184-1230 | on every level the bits of the integer coordinates name the octant in which the position lies |
| `OctSpace.GrownCoordinate` | wolfbench/Benchmarks/bh/newbh.c:946-974 | doubling the box halves every coordinate, and the new top bit tells where the old box lies |
| `OctSpace.OldBoxIsOctant` | wolfbench/Benchmarks/bh/newbh.c:984-988 | the old box is the octant of the new one in which its midpoint lies |
| `OctSpace.TestIsInBox` | wolfbench/Benchmarks/bh/newbh.c:1137-1175 | ic_test is true exactly in the box |
| `OctTree.PlacedOctant` | wolfbench/Benchmarks/bh/newbh.c:1006-1037 | each body below a cell lies in the octant where it hangs |
| `Octree.PlacedByBits` | wolfbench/Benchmarks/bh/newbh.c:1006-1037 | the path to each body is given by the bits of its integer coordinates |
| `Octree.LoadTree` | wolfbench/Benchmarks/bh/newbh.c:1006-1037 | exactly the body is added, in its place; the assertion fails if and only if a body with the same integer coordinates is there; cells stay only where there are two bodies |
| `OctTree.DenseUnique` | wolfbench/Benchmarks/bh/newbh.c:1006-1037 | a tree with cells only where there are two bodies is determined by its bodies and the box: the order of loading leaves no trace |
| `Octree.Regraft` | wolfbench/Benchmarks/bh/newbh.c:976-989 | the old tree becomes the right octant of a new one, with the same bodies |
| `Octree.ExpandBox` | wolfbench/Benchmarks/bh/newbh.c:939-994 | the box ends up around the body with all bodies in place; without a tree it succeeds if and only if the body is in the box, with one if and only if on each axis the body lies no further off than doubling below the limit covers; the box is then the first one on that way around the body |
| `OctMass.SumsPermute` | wolfbench/Benchmarks/bh/newbh.c:1237-1282 | masses and moments do not depend on the order of the bodies |
| `OctMass.HackCofM` | wolfbench/Benchmarks/bh/newbh.c:1237-1282 | every cell gets the total mass and the centre of mass of the bodies below it |
| `OctMass.MakeTree` | wolfbench/Benchmarks/bh/newbh.c:891-928 | exactly the bodies with mass, in their places, every cell summed; it fails if and only if the first body is outside the box, a later one out of reach of the box as it then is, or one has the integer coordinates of an earlier one there; the final box is the one this says; for bodies in the box it is the least tree, with cells only where there are two bodies |
| `OctMass.FateInBox` | wolfbench/Benchmarks/bh/newbh.c:891-928 | for bodies in the box it stays, and all get in if and only if their integer coordinates differ |
| `OctMass.FirstOutside` | wolfbench/Benchmarks/bh/newbh.c:939-945 | a first body outside the box ends the program, whatever follows |
| `OctSpace.EnlargedExact` | wolfbench/Benchmarks/bh/newbh.c:949-992 | doubling towards a body puts it in the box if and only if, on each axis, it lies within what growth to one side covers by the limit |
| `ShaModel.DigestByTail` | wolfbench/Benchmarks/sha/sha.c:160-185 | the padded message ends in one block or two, according to what is left after the whole blocks |
| `ShaModel.LengthBytes` | wolfbench/Benchmarks/sha/sha.c:182-183 | the 64-bit length is the two counters, each most significant byte first |
| `Sha.LoadedReversed` | wolfbench/Benchmarks/sha/sha.c:102-120 | reading the reversed bytes on a little-endian machine is reading the words of the standard |
| `Sha.Func` | wolfbench/Benchmarks/sha/sha.c:17-36 | the assignments of the macro make the round of section 6.1.2 of FIPS 180-4 |
| `ShaModel.RoundHistory` | wolfbench/Benchmarks/sha/sha.c:32-34 | b is what a was one round ago, c, d and e what it was two, three and four rounds ago turned by 30 bits, and the next a is the sum of the five terms |
| `ShaModel.RoundFunctions` | wolfbench/Benchmarks/sha/sha.c:17-20 | bit by bit twenty rounds choose, twenty take the parity, twenty the majority and twenty the parity again |
| `ShaModel.RoundConstants` | wolfbench/Benchmarks/sha/sha.c:24-27 | the constants are the square roots of 2, 3, 5 and 10 in units of 2^-30, rounded down |
| `ShaModel.ScheduleHistory` | wolfbench/Benchmarks/sha/sha.c:46-51 | from the seventeenth on a word of the schedule combines four earlier ones, rotated in the modified version |
| `ShaModel.CompressSums` | wolfbench/Benchmarks/sha/sha.c:91-95 | each variable is added to its own hash word |
| `Sha.ShaInfo.ShaTransform` | wolfbench/Benchmarks/sha/sha.c:38-96 | the block function of section 6.1.2 of FIPS 180-4 |
| `Sha.Counted` | wolfbench/Benchmarks/sha/sha.c:141-145 | the pair of counters is the bit count modulo 2^64, across carries |
| `Sha.ShaInfo.ShaUpdate` | wolfbench/Benchmarks/sha/sha.c:139-156 | every whole block of the buffer is hashed, the rest is kept and the bits are counted; the message goes on where a block begins, and does not where what the buffer and the whole message leave over differ in any byte |
| `Sha.ShaInfo.ShaFinal` | wolfbench/Benchmarks/sha/sha.c:160-185 | the digest of the padded message |
| `Sha.ShaStream` | wolfbench/Benchmarks/sha/sha.c:191-201 | a stream of any length yields the digest of section 5.1.1 and 6.1.2 of FIPS 180-4 |
| `Sha.SecondUpdateOverwrites` | wolfbench/Benchmarks/sha/sha.c:155 | two updates of one byte lose the first |
| `Sha.UnalignedLoses` | wolfbench/Benchmarks/sha/sha.c:155 | for every two lengths such that the second part is not empty and does not begin a block, and the whole does not end one, there are contents after which two updates do not stand where one message would |

## Left out

- Basic blocks are runs of a flat sequence; an erased instruction leaves a slot that executes as a no-operation, so iterator invalidation is not modelled; in particular the read of an erased instruction's opcode in the load scan.
- Functions with unreachable blocks, PHI nodes, atomics, exceptions, vector and aggregate instructions; the model's pure operations are arbitrary total functions of their operands.
- Volatile accesses are ordinary accesses that are also observed; allocas are one fixed object per site.
- The dominator tree, loop information, instruction simplification, speculatability and exit dominance enter as parameters with contracts; the algorithms behind them are not modelled.
- Statistics counters, `sinkStore` and `canMoveStoreOutOfLoop` (the sinking call is commented out, so only a counter changes).
- Loops without a preheader: the pass skips them, so the model does not list them.
- Licm.LoopPass.WorkOnNestedLoops: for the whole pass, what is left is stated for instructions without operands among the slots and for loads of globals; an outer loop may hoist a load and so free an instruction of an inner loop that was passed over, and the source does not go back to it. For one loop Licm.LoopPass.LoopInvariantCodeMotion covers all operands.
- Licm.LicmPreserves: a load hoisted from an unknown address is taken to be readable in the preheader, as it is on every run that reaches the loop's exits.
- Cse.PassPreserves: needs calls that do not write memory, or no call that the load scan could pass; LoadReuse.LoadReuseExact and LoadReuse.LoadReuseBreaks show why. Two loads through computed addresses count as ones that may come to repeat each other.
- Redundancy.TurnSparesOthers: says nothing of a turn at a store of a cell's own address into the cell; a load through the value it reads back then counts as a load of the cell too.
- Redundancy.NoCopiesLeft: is about copies in the original function; an operand that is simplified may make two instructions equal after the first of them has been visited, and the source does not go back to it.
- Bisort.Bisort: sorted when no value occurs more than four times, which is the best bound on occurrences (BitonicTies.TiesDefeatTheSort). The other half stays open: which arrangements with a value five times or more are sorted all the same depends on the places its copies reach in the merges, not on the values alone; for a single descent AdaptiveMerge.DescendSeqExact is exact where opposite values differ.
- SwapTree.NewSwapSubTree: trees of more than twenty levels, for which the stacks are too small.
- Random tree generation of the bisort benchmark.
- Prim.ComputeMst: 32-bit overflow of the summed cost; weights are non-zero and below the initial distance, as on the graphs the benchmark makes.
- Graph generation of the mst benchmark, and the hash function itself, which is any function into the table.
- Patricia.PatInsert: nodes with several masks and longest-prefix matching; one all-ones mask per node, and a key with some bit set after the first: for any other key the scan ends at 32 (Patricia.FirstBit, PatriciaMap.Differs) and the source then shifts by a negative count, or the key is the head's own.
- Dijkstra.Dijkstra: costs are non-negative and no simple path costs as much as the value that stands for infinity; reading the matrix and printing the cost are left out.
- `LL_SORT2`, `CDL_SORT2` and `HASH_SRT` are the same algorithm with fewer or other links; the other list macros.
- Uthash.Hash.Add: the 32-bit wrap of num_buckets, num_items and the counts; the hash function is any function of the key, and a key is the string of its bytes, which does not change while the item is in the table.
- The Bloom filter, the in-order add, `HASH_SELECT`, `HASH_CLEAR` and iteration macros of `uthash.h`.
- Octree.ExpandBox, Octree.LoadTree, OctMass.HackCofM: rounding of floating-point numbers.
- OctMass.MakeTree: takes the bodies of one processor as a sequence and masses that are not negative, and promises the least tree for bodies in the box; a grown box puts the old tree, be it one body, below cells of its own.
- The gravity computation, time stepping and body generation of the Barnes-Hut program.
- Sha.ShaInfo.ShaUpdate: does not say what becomes of an update that begins inside a block when what it and the whole message leave over agree as far as both go; then it turns on hash values, that is on collisions of the block function.
- Sha.ShaInfo: counts of one update are below 2^31, as an int is; big-endian machines and printing.
- ListSort.DLSort: overflow of the run length, an int in the source.
- Adpcm: the byte buffers hold the eight bits of each char; sign extension on reading is immaterial for the nibbles.
- Isqrt.Usqrt: the order of the two result fields is that of a little-endian 64-bit machine.
- `crc32file` (reading a file), the FFT and other floating-point benchmarks.
- Memory allocation failure, `free`, and input and output throughout.
