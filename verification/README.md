# AIR: verified models of the compiler passes and runtime protocols

This project models, in Dafny, the parts of AIR in which a mistake would silently change what a
program computes or make a device hang, and proves what they are for. `dafny verify dfyconfig.toml`
checks everything. There are six groups of modules.

* **Asynchronous dependencies** (`DependencyGraph`, `DependencyMeaning`, `DependencyTrace`,
  `TracePrecision`, `DependencyLoop`, `DependencyNest`, `NestEdges`, `InsertTokens`, `TracedNest`). The pass
  replaces program order by dependency lists. A program is a list of operations with the buffer tiles and channels they access;
  its meaning is a run over a store, which includes what was put into each channel, for arbitrary
  functions computed by the operations. The pass object with its graph, its reduction and its history is
  a class; the graph library's reduction is written out. Main results: a dependency graph keeps the
  meaning of a program exactly when it orders all conflicts; the traced and reduced lists of a program
  in which tiles are equal or disjoint do so exactly when every read that a DMA inside one buffer hides
  is ordered by some path; with the tokens of every `scf.for` inserted, operations and loops in any
  nesting keep their meaning for all trip counts. And no more order than that: which operations tracing
  joins, which tokens are inserted and which edges they make are exact conditions, so that operations that
  share only what they read, and allocations of different iterations, stay unordered.
* **Controller firmware** (`IndexWalk`, `NdCopy`, `DispatchSpec`, `DispatchSkips`, `DispatchEnds`,
  `Dispatch`, `BdRing`, `Packet`) and the host side (`BounceBuffer`, `HostController`). The resumable
  copy, the scheduler with its slots and its peeking, and the descriptor ring are classes over arrays;
  the hardware answers arbitrarily. Main results: every sequence of stalls and resumes pushes each
  copy's walk exactly once and in order; a copy whose channel stays ready has its turn; packets are
  conserved; the read index is right exactly when no packet was skipped, and which rings never lose a packet and for which the loop ends are exact
  conditions on their contents; no live descriptor is rewritten exactly when no two channels in use
  share a cursor; what the host packs is what the controller pushes, if the memory space is two.
* **Lock protocols for tiles** (`PipelineLocks`, `TileDmaLocks`, `TileDmaMachine`) and the **channel
  allocator** (`DmaAllocator`). The emitted acquires and releases are methods that build them; what
  they do is a step relation run in every interleaving. Main results: streams are delivered in order,
  nothing is lost, overwritten or used by two sides at once, no state is deadlocked, every run ends.
* **Barrier** (`Barrier`, `BarrierCalls`). Rank 0 and its peers over FIFO queue pairs, for any number of
  ranks and rounds, in every interleaving; and the loops of `air_barrier`, `air_send` and `air_recv`,
  each call of which is proved to be one round of the state machine.
* **Loop and buffer transformations** (`Factors`, `Tiling`, `TileSizes`, `HoistReduce`, `SubViewFold`).
* **Herd placement** (`HerdPlacement`). The greedy allocator over its grid.

`Arithmetic` holds the facts about products and quotients that several modules need, `Wrappers` the
optional value.

## Where the code does less than one would expect

Each of these is a lemma or the exact condition of a theorem.

* A DMA within one buffer is compared, when earlier accesses are traced, with its destination only
  (`mlir/lib/Transform/AIRDependency.cpp:1173-1184`): a later write to its source tile gets no edge.
  `DependencyTrace.UntracedReadBreaksMeaning` is a program whose legal reordering ends in other
  memory, `WriteTracingExact` the exact condition for an access, `TracedListsRightIff` for a program.
* Two puts to one channel get no edge unless they touch one buffer
  (`DependencyTrace.TwoPutsUnordered`). The pass relies on one put and one get for each channel, as
  `mlir/lib/Util/Util.cpp:307-351` does.
* A copy whose slot is busy is passed over although the comment says that it will be retried
  (`runtime_lib/controller/main.cpp:1586-1587`). `DispatchSpec.BusySlotLosesPacket` is such a run,
  `DispatchSkips.NothingSkippedIff` says for which rings there is none, and `HostController.ClashIff`
  which of the host's packets get in each other's way.
* The search for a slot that can go on never looks at the last slot
  (`runtime_lib/controller/main.cpp:1461-1485`). When the ring holds nothing but copies for one slot and the
  first one does not finish at once, the loop goes round for ever, whatever the hardware answers:
  `DispatchEnds.StuckForEver`. `DispatchEnds.LoopEndsIff` says that only such rings do.
* A packet for another memory space than two is completed without a transfer
  (`runtime_lib/controller/main.cpp:1428-1436`), also the one with the shape of the tensor
  that the host sends for space one (`runtime_lib/airhost/memory.cpp:344-363`): `HostController.HostAndControllerAgree`.
  A column that is not in the table, and such a packet for any
  column without column DMAs, gets the slots of the first column (`HostController.SlotsEqualIff`).
* `last_bd` has eight entries for all columns (`runtime_lib/controller/main.cpp:625-703`): columns of the
  same parity share cursors (`BdRing.SharedCursorRewrites`, `BdRing.SafeIffCursorsDiffer`).
* The packet builder does not mask its 32-bit arguments (`runtime_lib/airhost/queue.cpp:411-442`): fields
  come back exactly when they fit.
* `factorConstant` counts with an `unsigned int` that wraps to one
  (`mlir/lib/Transform/AIRAutomaticTilingPass.cpp:132-137`): it returns exactly when no prime factor
  is 2^32 or more.
* `forOpLevel` is static (`mlir/lib/Transform/AIRAutomaticTilingPass.cpp:180`): a second band starts beyond
  the first one's level and runs out of its loops (`Tiling.AutomaticTiling.TileLoops`).
* Folding subviews ignores the strides of the source (`mlir/lib/Transform/AIRLinalgCodegen.cpp:106-109`),
  and for a source of higher rank makes too few offsets (`SubViewFold.FoldRightIff`).
* Hoisting looks neither for aliases of the accumulator nor at the order of the copies
  (`mlir/lib/Transform/AIRLinalgCodegen.cpp:423-484`): `HoistReduce.HoistRightIff`, `HoistReduce.OrderRightIff`.
* The comment in `adjustToDivisorsOfTripCounts` speaks of the largest factor below the tile size; the
  code starts from the trip count divided by the tile size. The model follows the code.
* When the DMA columns run out, `getTile` indexes past its vector; the model returns `None` instead.

## Model

| member | source | states |
|---|---|---|
| DependencyGraph.ReductionKeepsReach | mlir/lib/Transform/AIRDependency.cpp:568-583 | on a forward graph the transitive reduction connects exactly the pairs that the full graph connects |
| DependencyGraph.ReductionIsMinimal | mlir/lib/Transform/AIRDependency.cpp:568-583 | leaving out any edge of the reduction disconnects its ends |
| DependencyGraph.ReduceRow | mlir/lib/Transform/AIRDependency.cpp:568-583 | one row of the reduction: the edges kept are those that no other path implies, and the closure of the vertex is complete |
| DependencyGraph.TransitiveReduction | mlir/lib/Transform/AIRDependency.cpp:568-583 | the reduction loops return exactly the edges that no other path implies |
| DependencyMeaning.LegalOrdersAgree | mlir/lib/Transform/AIRDependency.cpp:588-609 | every order that respects a graph which orders all conflicts ends in the store of program order, for any meaning of the operations |
| DependencyMeaning.LegalOrdersAgreeIff | mlir/lib/Transform/AIRDependency.cpp:588-609 | all legal orders agree with program order, for all meanings and stores, if and only if every conflict is ordered by a path |
| DependencyMeaning.UnorderedConflict | mlir/lib/Transform/AIRDependency.cpp:588-609 | two conflicting operations without a path can be run the other way round with another result |
| DependencyTrace.AIRDependency.PushDepsAtCurrentScope | mlir/lib/Transform/AIRDependency.cpp:1102-1327 | tracing one operand adds exactly the edges from already visited matching users, in the mode asked for |
| DependencyTrace.AIRDependency.TraceDeps | mlir/lib/Transform/AIRDependency.cpp:1331-1380 | tracing a list of operands adds exactly the edges of each of them |
| DependencyTrace.AIRDependency.TraceTileIndices | mlir/lib/Transform/AIRDependency.cpp:1383-1404 | index values add exactly the edges from the visited operations that define them |
| DependencyTrace.AIRDependency.TraceAll | mlir/lib/Transform/AIRDependency.cpp:529-566 | after the second traversal the graph is exactly the traced edges, all from earlier to later operations |
| DependencyTrace.AIRDependency.FillDepLists | mlir/lib/Transform/AIRDependency.cpp:568-609 | the dependency lists are exactly the in-edges of the reduced graph, each once |
| DependencyTrace.EdgesForward | mlir/lib/Transform/AIRDependency.cpp:1992-2012 | edges run from visited operations to later ones, so the graph is acyclic |
| DependencyTrace.ReadTracingComplete | mlir/lib/Transform/AIRDependency.cpp:1164-1171 | tracing a read finds every earlier operation that writes a matching tile |
| DependencyTrace.WriteTracingExact | mlir/lib/Transform/AIRDependency.cpp:1173-1184 | tracing a write finds an earlier access of a matching tile if and only if it is not the source of a DMA within one buffer with another destination tile |
| DependencyTrace.ConflictsAreTraced | mlir/lib/Transform/AIRDependency.cpp:529-566 | with equal or disjoint tiles, SSA form and one operation at each end of a channel, two conflicting operations, puts and gets included, are joined by an edge or the conflict is a read hidden by a DMA inside one buffer |
| DependencyTrace.LostReadConflicts | mlir/lib/Transform/AIRDependency.cpp:1173-1184 | each such hidden read is a conflict |
| DependencyTrace.TracedGraphOrdersConflictsIff | mlir/lib/Transform/AIRDependency.cpp:529-566 | the traced graph orders all conflicts if and only if it orders the hidden reads |
| DependencyTrace.TracedGraphOrdersConflicts | mlir/lib/Transform/AIRDependency.cpp:529-583 | the reduced traced graph orders every conflict of such a program |
| DependencyTrace.AsyncProgramMeansSequential | mlir/lib/Transform/AIRDependency.cpp:529-609 | every order that respects only the reduced dependency lists ends in the memory of program order and has sent and received the same on every channel |
| DependencyTrace.DepListsRightIff | mlir/lib/Transform/AIRDependency.cpp:529-609 | for any program: the reduced dependency lists keep the meaning if and only if traced edges connect all conflicts |
| DependencyTrace.TracedListsRightIff | mlir/lib/Transform/AIRDependency.cpp:529-609 | with equal or disjoint tiles, SSA form and one operation at each end of a channel: the lists keep the meaning if and only if a path orders every hidden read |
| DependencyTrace.TwoPutsUnordered | mlir/lib/Util/Util.cpp:307-351 | two puts from different buffers to one channel have empty lists, and a legal order sends something else |
| DependencyTrace.UntracedReadBreaksMeaning | mlir/lib/Transform/AIRDependency.cpp:1173-1184 | a DMA within one buffer and a later channel get: no edge is traced, and a legal order ends in other memory |
| TracePrecision.TransferEdgeIff | mlir/lib/Transform/AIRDependency.cpp:1102-1275 | for a DMA or channel operation and any later operation: an edge is traced if and only if the first defines something that the later one uses, or writes a tile that it accesses, or reads a tile that it writes in a buffer that the first does not write |
| TracePrecision.BufferEdgeIff | mlir/lib/Transform/AIRDependency.cpp:1277-1327 | for a linalg operation, a copy or an unknown operation: an edge is traced if and only if it defines something that the later one uses, or they share a buffer that the later one writes, or that it reads and the first may write, a linalg operation only through an init |
| TracePrecision.DmaEdgeIff | mlir/lib/Transform/AIRDependency.cpp:1107-1186 | two DMAs have an edge if and only if one of them defines for the other, or they share a tile that one of them writes, but for an overwritten source tile in the buffer that the first one writes |
| TracePrecision.PutEdgeIff | mlir/lib/Transform/AIRDependency.cpp:1188-1232 | a put gets an edge only to a later operation that writes its tile, or uses what it defines |
| TracePrecision.GetEdgeIff | mlir/lib/Transform/AIRDependency.cpp:1233-1275 | a get gets an edge exactly to later operations that access its tile, or use what it defines |
| TracePrecision.SharedReadsUnordered | mlir/lib/Transform/AIRDependency.cpp:1107-1232 | DMAs and channel operations that share only what they read have no edges and empty lists |
| TracePrecision.EqualTilesIff | mlir/lib/Transform/AIRDependency.cpp:2075-2088 | two tiles count as equal if and only if they have one rank and an element in common, index values standing for different numbers |
| TracePrecision.ElementsAccessed | mlir/lib/Transform/AIRDependency.cpp:529-566 | which buffer elements each kind of operation reads and writes |
| TracePrecision.OtherCells | mlir/lib/Transform/AIRDependency.cpp:529-566 | the channel ends, values and buffer handles that an operation reads and writes |
| DependencyLoop.IsOnlyUsedByNoLoopCarryOpsInBlock | mlir/lib/Transform/AIRDependency.cpp:2124-2145 | true exactly when only allocations and deallocations of the body use the token |
| DependencyLoop.InsertLoopCarriedDeps | mlir/lib/Transform/AIRDependency.cpp:1700-1748 | the yielded wait_all collects exactly the carried tokens without carried users and gets the iteration argument; incoming tokens become the iteration argument, which every carried operation gets |
| DependencyLoop.ReplaceIncoming | mlir/lib/Transform/AIRDependency.cpp:1588-1591 | tokens from before the loop, and only these, become the iteration argument |
| InsertTokens.ItemList | mlir/lib/Transform/AIRDependency.cpp:1680-1697 | seen from a loop body, an item's list has the tokens or results of the earlier items and the outside operations that its own operations depend on |
| InsertTokens.ListsAreBody | mlir/lib/Transform/AIRDependency.cpp:1572-1601 | the lists inserted into a body are exactly the dependencies between items, on the iteration argument and of the yielded wait_all that the theorems are about |
| InsertTokens.InsertAll | mlir/lib/Transform/AIRDependency.cpp:615-652 | the walk over all loops, inner ones first, makes such lists of every loop body at any depth |
| InsertTokens.InsertedTokens | mlir/lib/Transform/AIRDependency.cpp:1572-1598 | in terms of the traced graph and the carried operations only: an operation of a body gets the iteration argument if and only if it is carried or depends on something in front of the loop, and is collected if and only if it is carried and every later item that depends on it is an allocation or deallocation; a loop always gets it and is collected if and only if only such items depend on it; the other tokens are the earlier items depended on |
| DependencyNest.TokenToToken | mlir/lib/Transform/AIRDependency.cpp:1593-1598 | each token of a loop leads to all later ones and to its result, whatever is in its body |
| DependencyNest.ReachesYield | mlir/lib/Transform/AIRDependency.cpp:615-652 | a carried operation or loop of an iteration comes before the wait_all that the iteration yields |
| DependencyNest.ItemToItem | mlir/lib/Transform/AIRDependency.cpp:1680-1697 | a path of the traced graph between operations of two items of a block leads from item to item, through the loops between them |
| DependencyNest.ComesBefore | mlir/lib/Transform/AIRDependency.cpp:1518-1556 | what an operation depends on from in front of the loops around it comes before it in every iteration, through their begin tokens |
| DependencyNest.ComesOut | mlir/lib/Transform/AIRDependency.cpp:1680-1697 | a carried operation comes before the results of all loops around it |
| DependencyNest.IterationsInOrder | mlir/lib/Transform/AIRDependency.cpp:615-652 | carried operations of one iteration, at any depth, come before those of every later iteration |
| DependencyNest.InstancesInOrder | mlir/lib/Transform/AIRDependency.cpp:1700-1762 | two instances are in order when they are in different iterations of a loop and carried, or when the traced graph has a path and the first one is carried if it has to come out of a loop |
| DependencyNest.NestOrdersConflicts | mlir/lib/Transform/AIRDependency.cpp:1700-1762 | the tokens order all conflicts of operations and loops in any nesting |
| DependencyNest.AsyncNestMeansSequential | mlir/lib/Transform/AIRDependency.cpp:615-652 | any asynchronous run of loops in any nesting that respects the tokens computes what the sequential program computes, for trip counts that may depend on outer iterations |
| NestEdges.ItemEdges | mlir/lib/Transform/AIRDependency.cpp:1572-1601 | in every iteration of every nest an operation or begin token has exactly the edges from the earlier items that it depends on, and from the token of its iteration if it is a loop, a carried operation or depends on something in front of the loop |
| NestEdges.TokenEdges | mlir/lib/Transform/AIRDependency.cpp:1593-1598 | the wait_all that an iteration yields has exactly the edges from the token of the iteration and from the loops and carried operations that only allocations and deallocations of the body use |
| NestEdges.AllocationsUnordered | mlir/lib/Transform/AIRDependency.cpp:2107-2145 | instances of operations that are not carried and depend on nothing, as allocations of different iterations, have no path between them |
| NestEdges.InstanceRuns | mlir/lib/Transform/AIRDependency.cpp:615-652 | the node of an instance runs its operation in the iterations of the loops around it |
| NestEdges.OtherNodesWait | mlir/lib/Transform/AIRDependency.cpp:615-652 | every node that is no instance is a wait_all |
| NestEdges.OneNode | mlir/lib/Transform/AIRDependency.cpp:615-652 | different instances have different nodes |
| NestEdges.FlatProgram | mlir/lib/Transform/AIRDependency.cpp:588-609 | without loops the graph is the traced one |
| TracedNest.TracedNestMeansSequential | mlir/lib/Transform/AIRDependency.cpp:529-652 | tracing a program with nested loops once, reducing the graph and inserting the tokens keeps its meaning, streams of channels included, whatever tiles the iterations touch and however often the loops run |
| TracedNest.SharedIff | mlir/lib/Transform/AIRDependency.cpp:615-652 | a value or buffer is the same in two iterations if and only if these agree in the loops around its definition |
| TracedNest.FlatSource | mlir/lib/Transform/AIRDependency.cpp:529-609 | without loops the nest is the traced program with its dependency lists |
| NdCopy.WalkAt | runtime_lib/controller/main.cpp:1364-1393 | the walk has len4 * len3 * len2 entries, and entry (i4 * len3 + i3) * len2 + i2 is base + i4 * s4 + i3 * s3 + i2 * s2 in 64 bits |
| IndexWalk.BeforeIsPrefix | runtime_lib/controller/main.cpp:1364-1393 | what comes before a position of the nest is a prefix of the walk |
| IndexWalk.WalkAt | runtime_lib/airhost/memory.cpp:271-282 | the triple loop visits len4 * len3 * len2 addresses, (i4, i3, i2) at its row-major place, for any addressing |
| NdCopy.NdMemcpy.PutCheckpoint | runtime_lib/controller/main.cpp:1308-1318 | a checkpoint replaces addresses, indices and packet of its slot and nothing else |
| NdCopy.NdMemcpy.StagePacketNdMemcpy | runtime_lib/controller/main.cpp:1417-1437 | 2 for a busy slot, 1 for another memory space, both without effect, and else a checkpoint at the start of the walk |
| NdCopy.NdMemcpy.DoPacketNdMemcpy | runtime_lib/controller/main.cpp:1333-1407 | from any consistent checkpoint the descriptors pushed so far are a prefix of the walk, none is pushed twice, and 0 comes only after the last one; each push comes after an answer below four, and it stops before the end only at an answer of four or more |
| NdCopy.NdMemcpy.Transfer | runtime_lib/controller/main.cpp:1333-1437 | over any number of calls with stalls anywhere, what was pushed is a prefix of the walk, and the whole walk when finished |
| DispatchSpec.RunConserves | runtime_lib/controller/main.cpp:1441-1601 | for every hardware behaviour, valid slots are num_active_packets - 1 and each packet looked at is completed once, in flight or skipped |
| DispatchSpec.ExitConserves | runtime_lib/controller/main.cpp:1441-1601 | on exit no slot is valid, every packet of the window was completed once or skipped, and the read index ends just past the window if and only if nothing was skipped |
| DispatchSkips.NothingSkipped | runtime_lib/controller/main.cpp:1441-1601 | for every hardware behaviour nothing is skipped and the scheduler stays in the window of dispatch packets, when no copy in it asks for the slot of an earlier one that can be staged |
| DispatchSkips.NothingSkippedIff | runtime_lib/controller/main.cpp:1579-1590 | no hardware behaviour makes the handler skip a packet if and only if the first packet cannot be staged, or the window ends before the ring does and has no two copies of which the later asks for the slot of an earlier one that can be staged |
| DispatchEnds.LoopEndsIff | runtime_lib/controller/main.cpp:1441-1601 | from any beginning the loop ends within a bound once every channel answers, if and only if the ring does not hold copies for one slot only of which the first can be staged |
| DispatchEnds.StuckForEver | runtime_lib/controller/main.cpp:1461-1500 | with such a ring the loop never ends, whatever the hardware answers after the first copy has stalled |
| DispatchSpec.RoundRobinComplete | runtime_lib/controller/main.cpp:1461-1485 | the search finds a ready slot other than the last one whenever there is one |
| DispatchSpec.RoundRobinNearest | runtime_lib/controller/main.cpp:1461-1485 | the search returns the slot with the fewest places after the last one, going around, whose copy can go on, and none if and only if no other slot can |
| DispatchSpec.ServedInTurn | runtime_lib/controller/main.cpp:1453-1507 | a copy whose channel stays ready is worked on within as many iterations as its slot is places after the last one, so within fewer than there are slots |
| DispatchSpec.NewCopyIsLast | runtime_lib/controller/main.cpp:1579-1590 | a new packet moves last_slot if and only if it is a copy for memory space two with a free slot, and then to that slot |
| DispatchSpec.PositionIsRemainder | runtime_lib/controller/main.cpp:72-78 | read indices wrap around the ring |
| DispatchSpec.BusySlotLosesPacket | runtime_lib/controller/main.cpp:1579-1590 | two copies to one slot: the second is passed over, the read index moves past it, and it is never handled |
| Dispatch.AgentQueue.FindSlot | runtime_lib/controller/main.cpp:1461-1485 | the polling loop finds the slot of the round-robin search; of the slots that hold a copy it is the first one after last_slot whose channel answers fewer than four, all before it answer four or more, and when none is found all do |
| Dispatch.AgentQueue.ServeSlot | runtime_lib/controller/main.cpp:1502-1515 | serving a slot keeps ring, slots and descriptor log in step with the scheduler state |
| Dispatch.AgentQueue.HandleNewPacket | runtime_lib/controller/main.cpp:1518-1590 | a packet seen for the first time is completed, staged or skipped as the scheduler says |
| Dispatch.AgentQueue.PeekNext | runtime_lib/controller/main.cpp:1487-1500 | peeking moves to the next packet or stays and advances last_slot |
| Dispatch.AgentQueue.PollOnce | runtime_lib/controller/main.cpp:1453-1515 | one iteration of the loop is one step of the scheduler, with the stalls that the channels answered |
| Dispatch.AgentQueue.HandleAgentDispatchPacket | runtime_lib/controller/main.cpp:1441-1601 | whatever was pushed before, the handler does what the scheduler does; at its end it has pushed exactly the walk of each completed copy and nothing else, and everything is ready for the next call |
| Dispatch.AgentQueue.ReadyAgain | runtime_lib/controller/main.cpp:1595-1601 | the state at the end of a call is one in which the handler may be called again |
| BdRing.SafeIffCursorsDiffer | runtime_lib/controller/main.cpp:625-740 | no run of pushes and completions on a set of channels rewrites an outstanding descriptor if and only if no two of the channels share a cursor, that is, have one direction and number in columns of one parity |
| BdRing.SafeIffParitiesDiffer | runtime_lib/controller/main.cpp:625-740 | with all channels of some columns in use this is so if and only if no two of the columns have the same parity |
| BdRing.SharedCursorRewrites | runtime_lib/controller/main.cpp:696-703 | five pushes to two channels that share a cursor rewrite a live descriptor |
| BdRing.EachHasItsFour | runtime_lib/controller/main.cpp:643-694 | in every run the outstanding descriptors of a channel are among its own four: from 0 and 4 on for the channels to memory, from 8 and 12 on for those from memory |
| BdRing.TakenInTurn | runtime_lib/controller/main.cpp:696-703 | without shared cursors the pushes of a channel take its four descriptors in turn, from the first one on |
| BdRing.ShimDmas.PushBd | runtime_lib/controller/main.cpp:627-740 | picks the descriptor at the cursor of the channel's group, advances the cursor modulo four and queues it |
| BdRing.ShimDmas.PushUnlessStalled | runtime_lib/controller/main.cpp:1367-1380 | pushes exactly when fewer than four descriptors are outstanding |
| Packet.Word0RoundTrip | runtime_lib/airhost/queue.cpp:411-442 | column, channel and memory space always come back, the direction exactly when it fits four bits |
| Packet.Word2RoundTrip | runtime_lib/airhost/queue.cpp:411-442 | length and stride of the second dimension come back exactly when they fit 16 bits |
| Packet.Word3RoundTrip | runtime_lib/airhost/queue.cpp:411-442 | lengths and strides of the third and fourth dimension come back exactly when they fit 16 bits |
| Packet.Word0Layout | runtime_lib/airhost/queue.cpp:422-427 | the first word is the sum of its fields at bits 16, 24, 32, 52 and 60, and the burst length comes back from bit 52 |
| Packet.Word2Layout | runtime_lib/airhost/queue.cpp:430-432 | the third word is the sum of its fields at bits 0, 32 and 48 |
| Packet.Word3Layout | runtime_lib/airhost/queue.cpp:433-436 | the fourth word is the sum of its fields at bits 0, 16, 32 and 48 |
| Packet.DispatchPacket.NdMemcpy | runtime_lib/airhost/queue.cpp:411-442 | the field-by-field assembly makes the three packed words and the address |
| BounceBuffer.RowMajorBound | runtime_lib/airhost/memory.cpp:249-255 | an index in range is below the volume of the tensor, for any rank |
| BounceBuffer.RowMajorInjective | runtime_lib/airhost/memory.cpp:249-255 | different indices in range have different offsets |
| BounceBuffer.RowMajorZero | runtime_lib/airhost/memory.cpp:249-255 | the zero index has offset 0 |
| BounceBuffer.RowMajorStep | runtime_lib/airhost/memory.cpp:249-255 | raising one index by one raises the offset by the product of the extents of the dimensions inside it |
| BounceBuffer.RowMajorOrder | runtime_lib/airhost/memory.cpp:249-255 | lexicographic order of the indices in range is the order of their offsets |
| BounceBuffer.BaseOffset | runtime_lib/airhost/memory.cpp:249-255 | the offset loop computes the row-major index times the element size |
| BounceBuffer.GatherThenScatter | runtime_lib/airhost/memory.cpp:271-315 | gathering and scattering back with one descriptor leaves memory unchanged, even with overlapping segments |
| BounceBuffer.ScatterGatherIff | runtime_lib/airhost/memory.cpp:301-315 | scattering and gathering again returns every bounce buffer if and only if the segments are disjoint |
| BounceBuffer.SegmentAt | runtime_lib/airhost/memory.cpp:271-282 | segment (i4, i3, i2) starts at base + i4 * s4 + i3 * s3 + i2 * s2 and has its row-major place among len4 * len3 * len2 |
| BounceBuffer.GatheredPlace | runtime_lib/airhost/memory.cpp:271-282 | element x of segment j is element j * n + x of the bounce buffer |
| BounceBuffer.ScatteredAt | runtime_lib/airhost/memory.cpp:301-315 | an element of memory gets the value that the buffer has for it in the last segment that holds it |
| BounceBuffer.ScatteredElsewhere | runtime_lib/airhost/memory.cpp:301-315 | an element in no segment keeps its value |
| BounceBuffer.Gather | runtime_lib/airhost/memory.cpp:398-413 | the triple loop fills the bounce buffer with the segments in lexicographic order |
| BounceBuffer.Scatter | runtime_lib/airhost/memory.cpp:431-446 | the triple loop leaves memory as scattering the buffer over the segments does |
| HostController.GetSlot | runtime_lib/controller/main.cpp:1287-1302 | the scans find the first slot of the column in its table, and 0 for any other column or space |
| HostController.SlotNumbers | runtime_lib/controller/main.cpp:1569-1578 | a channel of shim column number i has slot 4 * i + channel, two more from memory; those of the column DMAs follow from 64 on |
| HostController.OtherSlots | runtime_lib/controller/main.cpp:1287-1302 | a column that is not in the table of its space gets the slots from 0 on |
| HostController.SlotsEqualIff | runtime_lib/controller/main.cpp:1569-1578 | shim copies fit the slot table, and a packet of any space asks for the slot of one if and only if it is for the same channel and direction of one column, where columns that are not in a table count as the first one |
| HostController.ClashIff | runtime_lib/controller/main.cpp:1569-1590 | while a copy that the host packs for memory space two is in flight, a later packet of any space is passed over if and only if channel, direction and column agree |
| HostController.WalksCorrespond | runtime_lib/controller/main.cpp:1364-1393 | the controller's walk of the byte shape visits the bytes of the host's segments in the same order |
| HostController.HostAndControllerAgree | runtime_lib/airhost/queue.cpp:411-442 | for a region whose lengths and strides fit: once the handler has completed the host's packet it has pushed for it exactly the segments that the host's loop visits if the memory space is two, and nothing if it is another one |
| Barrier.StepKeepsInv | runtime_lib/airhost/network.cpp:524-541 | every step keeps the pair invariant: what is in flight is what one side is ahead of the other |
| Barrier.NoEarlyReturn | runtime_lib/airhost/network.cpp:500-542 | no rank returns from a barrier before all ranks have entered it, in every interleaving of any number of rounds |
| Barrier.ReceivesMatch | runtime_lib/airhost/network.cpp:349-404 | a receive for data takes data and a receive for an acknowledgement takes an acknowledgement |
| Barrier.AtMostTwoInFlight | runtime_lib/airhost/network.cpp:457-496 | at most two messages are in flight in a direction of a pair, and never messages in both |
| Barrier.NoDeadlock | runtime_lib/airhost/network.cpp:500-542 | until all ranks have returned some rank can step |
| Barrier.StepsCountDown | runtime_lib/airhost/network.cpp:500-542 | every step leaves exactly one operation less to come |
| Barrier.EveryRunCompletes | runtime_lib/airhost/network.cpp:500-542 | a run has at most 8 steps per round and pair, and has taken all of them exactly when all ranks have returned |
| BarrierCalls.Rank.Send | runtime_lib/airhost/network.cpp:457-496 | as many data sends as the payload has queue entries, then one receive of the acknowledgement |
| BarrierCalls.Rank.Recv | runtime_lib/airhost/network.cpp:349-404 | as many data receives as the payload has queue entries, then one acknowledgement |
| BarrierCalls.Rank.Barrier | runtime_lib/airhost/network.cpp:528-541 | rank 0 receives from each rank and then sends to each, the others send and then receive |
| BarrierCalls.BarrierOrder | runtime_lib/airhost/network.cpp:528-541 | which operation with which rank comes at which place of a call, for rank 0 and for the others |
| BarrierCalls.RootCallIsOneRound | runtime_lib/airhost/network.cpp:528-537 | a call on rank 0 performs exactly the operations of one round of the state machine |
| BarrierCalls.PeerCallIsOneRound | runtime_lib/airhost/network.cpp:538-541 | and so does a call on any other rank |
| PipelineLocks.LowerPipeGetPut | mlir/lib/Conversion/AIRToAIEPass.cpp:689-724 | for each operand pair in turn acquire 0, store, release 1 before the put and acquire 1, load, release 0 before the get, and nothing else |
| PipelineLocks.CurrentIsLowered | mlir/lib/Conversion/AIRToAIEPass.cpp:689-724 | what a core of the machine performs at an operand is what was emitted for it |
| PipelineLocks.StepKeepsInv | mlir/lib/Conversion/AIRToAIEPass.cpp:706-720 | every step keeps locks, buffers and registers of all stages right |
| PipelineLocks.DeliversInOrder | mlir/lib/Conversion/AIRToAIEPass.cpp:706-720 | what has come out is the composed function of the first inputs, one result each, in order, in every interleaving |
| PipelineLocks.NeverBothInside | mlir/lib/Conversion/AIRToAIEPass.cpp:736-739 | the two cores of a connector are never both between acquire and release |
| PipelineLocks.NoDeadlock | mlir/lib/Conversion/AIRToAIEPass.cpp:706-720 | until every core has worked on every input, one can step |
| PipelineLocks.EveryRunDelivers | mlir/lib/Conversion/AIRToAIEPass.cpp:706-720 | every run is finite, and one that has taken all its steps has delivered the result of every input |
| TileDmaLocks.EmitCoreLocks | mlir/lib/Conversion/AIRToAIEPass.cpp:1329-1382 | each buffer's acquire goes in front of the alloca or tensor that defines it or to the front of the block, its release in place of the dealloc or to the end, with values 1/0 towards the core and 0/1 away from it |
| TileDmaLocks.EmitChain | mlir/lib/Conversion/AIRToAIEPass.cpp:1418-1487 | one descriptor for each buffer with the opposite lock values, linked in a ring |
| TileDmaLocks.LocksKeepBlock | mlir/lib/Conversion/AIRToAIEPass.cpp:1341-1382 | without the locks, and with releases in place of deallocs as the deallocs, the emitted block is the block that was given |
| TileDmaLocks.EmittedLocksStand | mlir/lib/Conversion/AIRToAIEPass.cpp:1341-1382 | each acquire stands directly in front of the definition, or with no definition in the block in front of everything but locks; the release of a buffer that the block does not free stands behind everything but locks |
| TileDmaLocks.EmittedIsScript | mlir/lib/Conversion/AIRToAIEPass.cpp:1341-1382 | in any block that uses each buffer once, wherever it is defined and freed, the emitted operations acquire, use and release every buffer once in that order |
| TileDmaMachine.StepKeepsControl | mlir/lib/Conversion/AIRToAIEPass.cpp:1329-1507 | every step of core or engine keeps lock values and holders right |
| TileDmaMachine.NeverBothInside | mlir/lib/Conversion/AIRToAIEPass.cpp:1329-1507 | core and engine are never both inside a buffer |
| TileDmaMachine.NothingOverwritten | mlir/lib/Conversion/AIRToAIEPass.cpp:1329-1507 | while one side fills a buffer the other has finished with all that was in it |
| TileDmaMachine.CoreFindsItsItem | mlir/lib/Conversion/AIRToAIEPass.cpp:1329-1507 | block k of the core finds item k * m + i of the stream in buffer i of a channel with m buffers |
| TileDmaMachine.SendsInOrder | mlir/lib/Conversion/AIRToAIEPass.cpp:1329-1507 | item k * m + i that a channel sends is what the core made for buffer i in block k from the items it read |
| TileDmaMachine.NoDeadlock | mlir/lib/Conversion/AIRToAIEPass.cpp:1329-1507 | until the core has done its blocks and the engines have served them, one of them can step |
| TileDmaMachine.EveryRunCompletes | mlir/lib/Conversion/AIRToAIEPass.cpp:1329-1507 | every run is finite and takes all its steps exactly when core and engines are done |
| DmaAllocator.First | mlir/lib/Conversion/AIRToAIEPass.cpp:115-124 | the first allocation that serves a request, with none before it |
| DmaAllocator.DMAAllocator.GetTile | mlir/lib/Conversion/AIRToAIEPass.cpp:104-142 | the first serving allocation's column, recording the id, or a new allocation at the next column and channel |
| DmaAllocator.DMAAllocator.GetChannel | mlir/lib/Conversion/AIRToAIEPass.cpp:144-179 | the channel of the last serving allocation |
| DmaAllocator.AIRToAIE.GetTileDMAChannel | mlir/lib/Conversion/AIRToAIEPass.cpp:1030-1073 | the recorded channel, or the number of records of the tile modulo two, which is recorded |
| DmaAllocator.ChannelsBalanced | mlir/lib/Conversion/AIRToAIEPass.cpp:1044-1062 | after any requests the operations recorded at a tile have channels 0, 1, 0, 1 and so on, so neighbours differ and the loads of the two channels differ by at most one |
| DmaAllocator.NextChannel | mlir/lib/Conversion/AIRToAIEPass.cpp:1044-1062 | after any requests a new operation of a tile gets the channel that the last recorded one does not have |
| DmaAllocator.AIRToAIE.Schedule | mlir/lib/Conversion/AIRToAIEPass.cpp:1207-1221 | the two ends of an operation; the invariant that an id determines the tile channel at a tile is kept |
| DmaAllocator.RequestKeepsTable | mlir/lib/Conversion/AIRToAIEPass.cpp:104-142 | a request keeps allocations numbered by column and channel, one for each tile channel |
| DmaAllocator.ColumnsFillInOrder | mlir/lib/Conversion/AIRToAIEPass.cpp:126-136 | after any requests allocation number i has column columns[i / channels] and channel i % channels |
| DmaAllocator.RequestIsListed | mlir/lib/Conversion/AIRToAIEPass.cpp:113-136 | a request adds its id to the allocation at its tile channel and to no other |
| DmaAllocator.ChannelIsOfTile | mlir/lib/Conversion/AIRToAIEPass.cpp:104-179 | getChannel reports the channel of the allocation that getTile returned; neither finds one exactly when the columns have run out |
| DmaAllocator.AnswersNeverChange | mlir/lib/Conversion/AIRToAIEPass.cpp:104-179 | an answer once given is given after any later requests, also of another allocator |
| DmaAllocator.SharedOnlyByOneTileChannel | mlir/lib/Conversion/AIRToAIEPass.cpp:126-136 | two operations share column and channel if and only if they use the same channel of the same tile |
| Factors.FactorConstant | mlir/lib/Transform/AIRAutomaticTilingPass.cpp:126-140 | ascending primes with product n, or no return, exactly when a prime factor of n does not fit an unsigned int |
| Factors.PrimeFactorsUnique | mlir/lib/Transform/AIRAutomaticTilingPass.cpp:126-140 | a prime divides the product of the factors only if it is one of them |
| Tiling.NestRunsOriginalTuples | mlir/lib/Transform/AIRAutomaticTilingPass.cpp:180-229 | the tiled nest runs its body on exactly the original tuples, once each, in their order, for any depth and number of dimensions |
| Tiling.LoopRunsItsFactor | mlir/lib/Transform/AIRAutomaticTilingPass.cpp:182-222 | each loop of the nest runs as often as its factor says, from the variable of the loop outside it on, and the last one of a dimension in steps of one |
| Tiling.AutomaticTiling.ConstructTiledLoopNest | mlir/lib/Transform/AIRAutomaticTilingPass.cpp:143-229 | bounds, steps and levels of all loops are those of the tiled nest, exactly when the static level is still zero; otherwise the loops run out |
| Tiling.AutomaticTiling.SetDimension | mlir/lib/Transform/AIRAutomaticTilingPass.cpp:182-222 | the loops of one dimension: the outer range and step, and for each inner loop the window of the loop outside it |
| Tiling.AutomaticTiling.TileLoops | mlir/lib/Transform/AIRAutomaticTilingPass.cpp:238-276 | a band is tiled, with one loop for each prime factor of each trip count in ascending order, to a nest with the original tuples, exactly when it is the first one and no trip count has a prime factor beyond an unsigned int |
| TileSizes.AdjustToDivisorsOfTripCounts | mlir/lib/Transform/AIRLinalgCodegen.cpp:1227-1246 | each tile size becomes the largest divisor of its trip count that is at most the number of given tiles, or one, and leaves at least two tiles of a loop of more than one iteration |
| HoistReduce.LoopNest.Hoist | mlir/lib/Transform/AIRLinalgCodegen.cpp:414-484 | matches exactly when copies and kernel are in the body of an scf.for, the buffer has its alloc and dealloc, and the source is a subview made next to the loop; then alloc and copy in end up in front of the loop, copy out and dealloc behind it in this order, and the rest stays; otherwise nothing changes |
| HoistReduce.OnlyWorkIsLeft | mlir/lib/Transform/AIRLinalgCodegen.cpp:476-482 | of a body that has none of the four operations twice exactly the other work is left, in its order |
| HoistReduce.HoistPreservesMeaning | mlir/lib/Transform/AIRLinalgCodegen.cpp:401-484 | for every trip count, zero included, memory ends as in the original nest when copy in, kernel and copy out come in this order and the work in the body leaves the subview alone |
| HoistReduce.OrderRightIff | mlir/lib/Transform/AIRLinalgCodegen.cpp:414-484 | for copies and kernel in any order: right for every kernel on the buffer if and only if the loop does not run or the order is copy in, kernel, copy out |
| HoistReduce.HoistRightIff | mlir/lib/Transform/AIRLinalgCodegen.cpp:423-484 | right for every kernel that looks at a region if and only if the loop runs at most once or the region has nothing of the subview |
| HoistReduce.AliasingBreaks | mlir/lib/Transform/AIRLinalgCodegen.cpp:423-484 | from two iterations on, a kernel that reads an element of the subview tells the nests apart |
| SubViewFold.Fold | mlir/lib/Transform/AIRLinalgCodegen.cpp:63-110 | consuming the two operand lists in step gives the sum of the resolved offsets in every dimension of the shorter list, with as many operands as dynamic entries |
| SubViewFold.FoldDimension | mlir/lib/Transform/AIRLinalgCodegen.cpp:71-103 | the four cases push what resolves to the sum |
| SubViewFold.FoldRightIff | mlir/lib/Transform/AIRLinalgCodegen.cpp:46-112 | for any ranks: the folded subview has an offset for each dimension and addresses the elements of the nested ones if and only if the source keeps the rank and the subview is empty or in every dimension the source stride is one or meets index zero only |
| HerdPlacement.Partition.IsLegalPlacement | mlir/lib/Transform/AIRHerdPlacementPass.cpp:107-127 | true exactly when the whole rectangle is inside the grid and free |
| HerdPlacement.Partition.PlaceHerd | mlir/lib/Transform/AIRHerdPlacementPass.cpp:129-136 | writes the number into the cells of the rectangle and changes no other cell |
| HerdPlacement.PlacedDisjoint | mlir/lib/Transform/AIRHerdPlacementPass.cpp:286-311 | no cell belongs to two placed herds |
| HerdPlacement.TryCell | mlir/lib/Transform/AIRHerdPlacementPass.cpp:292-306 | the first herd of the list that fits at a cell is placed there, and none when none fits |
| HerdPlacement.NaivePlacement | mlir/lib/Transform/AIRHerdPlacementPass.cpp:286-311 | a cell holds a number exactly when it is in that placed herd's rectangle; placed and unplaced are the input; no leftover herd has a legal position anywhere; when a herd was placed none of those left fitted at an earlier place of the scan, and none before it in the list at its own |
| HerdPlacement.PlacesInScanOrder | mlir/lib/Transform/AIRHerdPlacementPass.cpp:283-311 | the places taken come row by row from the bottom, each row from the left |
| HerdPlacement.PlaceHerdsInPartition | mlir/lib/Transform/AIRHerdPlacementPass.cpp:246-281 | all herds get offsets, at which a rectangle of their size is exactly their cells seen from the anchor, or a herd is left over that fits nowhere; a lone herd that fits always gets one |

## Left out

- Dispatch.AgentQueue.HandleAgentDispatchPacket: the loop is followed for at most `polls` iterations, any number, because the hardware may stall for ever; `DispatchEnds` has the bound for hardware that answers.
- DependencyTrace.AsyncProgramMeansSequential: tiles of one buffer are equal by their indices or disjoint and a channel has one put and one get, as the pass assumes; `DepListsRightIff` needs no such hypothesis. The two ends of a channel are separate: what a get receives is given by the store.
- DependencyTrace.AIRDependency.PushDepsAtCurrentScope: uses by hierarchy operations (launch, partition, herd) are not traced, and neither are uses through subviews.
- DependencyTrace.AIRDependency.TraceDeps: the recursion into operands of hierarchies and of subviews is not part of this model.
- TracedNest.TracedNestMeansSequential: loops are `scf.for` with trip counts that do not depend on data; tiles with different indices are disjoint also across the iterations of different loops, as the pass assumes; allocations and deallocations concern buffers of their own body.
- PipelineLocks.LowerPipeGetPut: a core has at most one put and one get; the walk over the other core keeps only the last get that it finds.
- TileDmaLocks.EmittedIsScript: definitions and deallocs are in the core's block, one of each at most for a buffer.
- TileDmaMachine.EveryRunCompletes: the environment delivers and takes as many blocks as the core does; a longer input stream would leave the engine blocked at an acquire.
- BarrierCalls.Rank.Send: the number of queue entries is the exact quotient rounded up; the source divides 32-bit floats, which differs above 2^24 bytes. The barrier sends one entry.
- HerdPlacement.PlaceHerdsInPartition: the herds come in the order that the library sort has given them; the results hold for every order.
- DmaAllocator.DMAAllocator.GetTile: the memory spaces that decide the direction are a parameter.
- HoistReduce.HoistPreservesMeaning: copy in, kernel and copy out come in this order; `OrderRightIff` says that no other order is right once the loop runs.
- HoistReduce.LoopNest.Hoist: the order of the buffer's use list; the copy out is among the users that the search goes through, and the pattern fails when it comes last. Operands that are block arguments, for which the source dereferences no defining operation, are not modelled.
- HerdPlacement.NaivePlacement: herds have at least one row and one column and different numbers; an empty herd is legal anywhere.
- Different memref values are different buffers. The results of `memref.cast` and of subviews are values of their own, and an access through one gets no edge to a later access through another (`mlir/lib/Transform/AIRDependency.cpp:159-162`).
- Index equality of tiles (`areEqualIndices`) is equality of SSA values, constants by value; a missing index matches all.
- Dependency tracing of `scf.parallel`, and the read/write classification of arguments by `checkOperandReadOrWrite`.
- The history vectors of the pass are one list of visited operations; ids are positions in program order.
- The ring is the one that the handler finds; the host adds no packet while it works on it. A slot table of 64-bit pointers and packet types other than copies is reduced to what the scheduler sees.
- Descriptor completion is first in first out, and the number outstanding includes the running descriptor.
- Elements of the bounce buffer are 32-bit words; the transfer length limit is an assertion of the source.
- Locks follow the acquire and release rules of the AIE tile; their allocation, flows, shim and L2 configuration are not part of this model.
- One buffer used by two channels gets two locks; the tile protocol is for buffers of one channel, used once per block.
- The accesses beyond the loops that a second band makes are modelled as a call without result.
- Payloads of several queue entries, `air_wait_all` on more than five signals, the UART lock, memory-mapped registers and all input and output.
- Cost models, tile size search, pattern drivers and library plumbing.
