# A verified model of CGRA-ME's mapping and configuration core

CGRA-ME maps a dataflow graph (`OpGraph`) onto a time-expanded routing graph
of a reconfigurable array (`MRRG`), checks the mapping, and emits the
bitstream that configures the array. This project models the parts of it that
a correct configuration rests on, and proves what they promise:

* **ILP mapping.** The constraint groups as sums over 0/1 variables, emitted
  by loops, and the decoding of a solution. The model has a solution if and only
  if there is a legal mapping, spelled out without the constraints, and the whole
  pipeline (insert mux nodes, solve, decode, map back) yields mappings that the
  connectivity check of the original MRRG accepts, and misses none that exists there.
* **MRRG transformations.** `muxExNodeInsertion` and `reduceLosslessly` as
  mutations of a graph that stores every link twice, with their two-way node
  maps, and one-to-one correspondences of walks with equal latency.
* **Latency.** Trip counts, the two-directional search that times a mapping,
  the searches for loops of one initiation interval and of none, and what
  `latencyCheck` means by accepting.
* **Scan chain.** The order of the configuration cells, the padding and the
  printing of their bits, and the emitted hardware: a hierarchical shift
  register, the configurator that feeds it, and the context counter that
  selects from it.
* **Heuristic mappers.** The pairwise path exclusivity constraints with their
  visited sets, and the network of edge, route and trip count constraints.
  Every dataflow loop takes the time that its edges ask for, parallel operands
  enter apart, decoded mappings pass the connectivity check, and whatever can be
  placed and routed is a solution.
* **Annealing placer.** The mapping and the redundant occupancies through
  moves, swaps, cluster swaps and rollbacks.

Code that works by changing state is modelled by classes and methods that do
(`MRRG`, `InterMRRGMap`, `Mapping`, `BitStream`, `AnnealPlacer`, and loops over
queues and maps); what the emitted Verilog does is modelled by functions on
register values.

MRRG nodes are identified by cycle and name, operations and values by their
position. Where the program throws, the model returns a failure. The order in
which unordered containers are traversed is left open, so every result holds
for all orders. An MRRG is required to be what `MRRG::verify` checks for:
mirrored links without duplicates and, where it is stated, the cycle rule.

## What turned out differently

* `genBitStream` checks the width of the first context only
  (`src/core/CGRA.cpp:180-191`). A later context of another width passes the
  check and spoils the chain (`ScanLoad.WidthCheckMissesLaterContexts`); the
  load is correct if and only if all used contexts have the right width.
* `addSubModule` would take a configuration cell, although nothing in the
  program passes one. Such a cell is wired into the chain but is not in the list
  of `genConfigOrder`: the two orders agree if and only if there is none
  (`ConfigChain.OrderIsWiring`). The bits would then fill the front of the
  wired chain, whatever its cells are (`ScanLoad.BitsFillTheFront`).
* `mergeNodeConnections` skips a fanout that is the node merged into
  (`src/core/MRRGProcedures.cpp:571`), so `reduceLosslessly` loses the loop of a
  chain whose end leads back to its head, even if that end has other fanouts,
  and erases a node that exclusively drives itself. The result is lossless if and
  only if the source has no such closed chain (`Reduction.ReductionOutcome`).
* Whether `reduceLosslessly` throws can depend on the order of the nodes: with
  tags S, none, S along a chain it succeeds when the end is merged first and
  throws when the middle is (`Reduction.MergeOrderDecidesFailure`). Without closed
  chains it succeeds in every order if and only if the nodes of every
  exclusive link agree (`Reduction.EveryOrderSucceeds`).
* A high `done` does not by itself mean that the chain is loaded: every further
  clock shifts a zero in (`src/core/BitStream.cpp:119-121`), and a low `enable`
  does not stop the chain, which then takes the same bit twice. The chain is
  loaded if and only if the clock stopped when `done` rose and the
  configurator was never held back after two different bits, or the settings
  are such that it makes no difference (`ScanRuns.DoneMeansLoaded`).
* `latencyCheck` compares the links with times that it spreads along some
  connecting links, and so rejects a mapping that other times explain: two ways
  to a loop of one interval may differ by two, one too early and one too
  late (`LatencyExamples.ExplainedIsRejected`). If all times that connecting
  links can yield explain the latencies, it accepts; if none do, it does not
  (`LatencyCheck.EveryRunAccepts`, `LatencyCheck.NoRunAccepts`).
* `latencyCheck0Cycle` keeps no visited set, and never ends if it gets into a
  loop without latency that avoids its start (`ZeroCycleSearch.SearchOutcome`).
  It strikes out nodes that it reaches after more than an interval without
  following them, so that `latencyCheck` can accept a loop without latency,
  depending on the order of its candidates
  (`LatencyExamples.LateLoopIsMissed`). It does so in some order if and only if its times
  explain the latencies and some candidates clear all others
  (`LatencyCheck.SomeTraversalAccepts`). A node that drives itself is accepted in
  every order (`LatencyExamples.SelfLoopIsMissed`).
* `FunctionUnitFanout` and `FunctionUnitFanin` range over all units, not only
  those in use (`src/core/ILPMapper.cpp:504-520`, `src/core/ILPMapper.cpp:546-563`).
  So no value may pass through the single fanout of a unit that it does not come
  from, and two edges of a value into one operation may not share even a node that
  merely could enter some unit of the operation's kind. Apart from these two rules,
  `OutputsApart` and `InputsApart` in `IlpCompleteness`, no mapping is lost
  (`IlpCompleteness.SolvableWhenMappable`).
* The heuristic mappers count routes for each edge, and for all edges between two
  operations together (`src/core/HeuristicMappers.cpp:1086-1130`). With three edges
  two of them can be left with one route and enter the unit by the same node
  (`ParallelExample.TwoOfThreeShare`). Two edges enter apart if and only if there
  are two routes in use for the one or the other
  (`ParallelEdges.TwoEnterApartWhen`), which holds if no third edge has
  a tag of its own.
* The annealing placer does not move a cluster with a fixed operation itself, but
  moves it, to whatever units are found, when another operation is drawn to the unit
  of one of its members (`Placements.ClusterInTheWayMoves`). A fixed operation
  that is alone in its cluster stays (`Placements.FixedStays`).
* `MRRG::verify` checks that a fanout is recorded as a fanin, not the converse;
  the model requires both.
* `FanoutRouting` and `FunctionUnitFanout` name their constraints without the
  fanout index (`src/core/ILPMapper.cpp:437`, `src/core/ILPMapper.cpp:516`). The
  model numbers them, and so speaks of the non-lazy mode, where names do not
  matter.

## Model

| member | source | states |
|---|---|---|
| `IlpSoundness.EverySinkIsReached` | src/core/ILPMapper.cpp:334-524 | A 0/1 assignment that meets the model has, for every value and every sink index, a finite route from the unit of the source through routing nodes with R = 1 to the unit of the sink, ending in a link recorded at both ends; it holds with mux exclusivity and with the topological ordering alike |
| `IlpSoundness.HostOf` | src/core/ILPMapper.cpp:378-397 | Every operation is on exactly one functional unit, and that unit supports it |
| `IlpSoundness.Start` | src/core/ILPMapper.cpp:501-524 | The single fanout of the source's unit carries the value towards each sink index, so every route has a first step |
| `IlpSoundness.Onwards` | src/core/ILPMapper.cpp:400-444 | A node that carries a value towards a sink has a fanout that does too, or is a unit that hosts the sink operation |
| `IlpSoundness.AtMostOneFanin` | src/core/ILPMapper.cpp:447-497 | Under mux exclusivity two different used fanins of one node cannot be |
| `IlpSoundness.NextIsNewByMux` | src/core/ILPMapper.cpp:447-497 | A route under mux exclusivity never returns to a node it has visited: the first repeated node would have two used fanins |
| `IlpSoundness.NextIsNewByOrder` | src/core/ILPMapper.cpp:670-700 | The same by the order variables of the topological mode, which grow along every used link |
| `IlpSoundness.Extend` | src/core/ILPMapper.cpp:400-497 | Every partial route extends to a complete one in the finite graph |
| `IlpSoundness.RouteFitsOperand` | src/core/ILPMapper.cpp:703-717 | Every node of a route is compatible with the operand tag of its sink |
| `IlpSoundness.MultiEdgesEnterApart` | src/core/ILPMapper.cpp:530-567 | Two edges of one value into the same operation enter its unit by different input nodes |
| `IlpSoundness.ValuesApart` | src/core/ILPMapper.cpp:334-353 | Two values of a solution never use the same routing node |
| `IlpSoundness.InputCarriesOne` | src/core/ILPMapper.cpp:530-567 | An input of a unit that can run an operation carries at most one edge of a value into that operation |
| `IlpCompleteness.LegalSolves` | src/core/ILPMapper.cpp:334-735 | Every legal mapping is a solution, in both modes: operations on units of their own that have their bit width, list their opcode and have the fixed name; for every sink a route from the only fanout of the one unit to the other, whose nodes route and carry the operand; no node used by two values; and routes that branch like a tree, or an order along all links between used nodes. The assignment that is 1 exactly there meets every constraint of every group |
| `IlpCompleteness.SolutionIsLegal` | src/core/ILPMapper.cpp:334-735 | Conversely what any solution places and routes is a legal mapping in that sense |
| `IlpCompleteness.SolvableWhenMappable` | src/core/ILPMapper.cpp:334-735 | The model has a solution if and only if the dataflow graph has a legal mapping |
| `IlpCompleteness.CameTheSameWay` | src/core/ILPMapper.cpp:447-497 | Under mux exclusivity two routes of a value that meet have come the same way from the start |
| `IlpCompleteness.OneOpPerUnit` | src/core/ILPMapper.cpp:356-375 | The exclusivity constraint of a unit holds if and only if no two operations are on it |
| `IlpCompleteness.OneValuePerNode` | src/core/ILPMapper.cpp:334-353 | The exclusivity constraint of a routing node holds if and only if no two values use it |
| `IlpGenerators.GenerateSubValue` | src/core/ILPMapper.cpp:210-232 | Emits exactly the constraints that tie each S variable to the R variable of its value |
| `IlpGenerators.GenerateRouteExclusivity` | src/core/ILPMapper.cpp:334-353 | Emits exactly the at-most-one constraints over all values, for every routing node |
| `IlpGenerators.GenerateFunctionUnitExclusivity` | src/core/ILPMapper.cpp:356-375 | Emits exactly the constraints, for every functional unit, that no two operations are on it; a unit may stay empty |
| `IlpGenerators.GenerateOpsMustBeMapped` | src/core/ILPMapper.cpp:378-397 | Emits exactly the equals-one constraints over all units, for every operation |
| `IlpGenerators.GenerateFanoutRouting` | src/core/ILPMapper.cpp:400-444 | Emits exactly the fanout routing constraints, or fails exactly when a fanout is a node that both routes and computes |
| `IlpGenerators.GenerateMuxExclusivity` | src/core/ILPMapper.cpp:447-497 | Emits exactly the fanin sums for nodes with several fanins, or fails exactly when such a fanin does not route or drives something else |
| `IlpGenerators.GenerateFunctionUnitFanout` | src/core/ILPMapper.cpp:501-524 | Emits exactly the unit fanout constraints, or fails exactly when a unit in question has not one routing fanout |
| `IlpGenerators.GenerateFunctionUnitFanin` | src/core/ILPMapper.cpp:530-567 | Emits exactly the input constraints for values with several edges into one operation, or fails exactly when an input is not a routing node |
| `IlpGenerators.GenerateOpSupported` | src/core/ILPMapper.cpp:570-605 | Emits exactly the zero constraints of operations and units that may not host them |
| `IlpGenerators.GenerateForLinks` | src/core/ILPMapper.cpp:633-700 | Emits exactly the edge usage, or topological ordering, constraints for every value and link between routing nodes |
| `IlpGenerators.GenerateOperandRouting` | src/core/ILPMapper.cpp:703-717 | Emits exactly the zero constraints of sinks and nodes whose tags exclude the operand |
| `IlpGenerators.BuildModel` | src/core/ILPMapper.cpp:719-735 | The model consists of exactly the constraints of all groups of the chosen mode, which can be met if and only if a legal mapping exists; it fails exactly when some generator throws |
| `IlpMapper.DecodeValues` | src/core/ILPMapper.cpp:805-819 | Each value is mapped to exactly the routing nodes whose R variable is 1 |
| `IlpMapper.DecodeOps` | src/core/ILPMapper.cpp:805-819 | Each operation is mapped to exactly the units whose F variable is 1 |
| `IlpMapper.DecodedIsAccepted` | src/core/ILPMapper.cpp:334-819 | Decoding any solution gives a mapping with one legal unit per operation, no routing node shared by two values, and every sink connected |
| `IlpSoundness.OpsApart` | src/core/ILPMapper.cpp:356-375 | Two operations of a solution never share a unit |
| `IlpMapper.TransformToOriginalMRRG` | src/core/MRRGProcedures.cpp:607-628 | Each list of the result holds, with multiplicity, the old nodes that the nodes of the input list stand for; the status is kept |
| `IlpMapper.ConnectionMapsBack` | src/core/MRRGProcedures.cpp:607-628 | A connection through mux nodes becomes a connection of the source graph through the nodes that remain mapped |
| `IlpMapper.MappingBackKeepsAcceptance` | src/core/MRRGProcedures.cpp:607-628 | A mapping accepted on the graph with mux nodes is accepted on the source graph after it has been mapped back |
| `IlpMapper.ReadinessIsKept` | src/core/MRRGProcedures.cpp:458-493 | Inserting mux nodes keeps what the constraint generators require of an MRRG |
| `IlpMapper.GurobiMap` | src/core/ILPMapper.cpp:171-824 | Throws exactly when a generator does; otherwise success, time-out and failure are told apart as the solver answers to exactly the model, a found assignment is decoded into an accepted mapping with fixed ports respected, any other answer leaves the mapping empty, and if a legal mapping exists an exhaustive solver does not answer infeasible |
| `IlpMapper.InsertMuxNodes` | src/core/ILPMapper.cpp:120-169 | The graph handed to the solver is well formed and mux exclusive, keeps the cycle rule and the readiness of the source, and its map relates exactly the source nodes to themselves |
| `IlpMapper.AnswerTells` | src/core/ILPMapper.cpp:777-824 | A solver whose solutions are solutions finds one only if a legal mapping exists, and one that calls a model infeasible only if it is does so only if none exists |
| `IlpMapper.InsertionKeepsMappable` | src/core/ILPMapper.cpp:120-169 | A dataflow graph that can be mapped onto the MRRG can be mapped onto it with mux nodes inserted |
| `IlpMapper.AcceptedUnitsFit` | src/core/MRRG.cpp:581-591 | In an accepted mapping every operation is on one unit, which has its bit width and lists its opcode |
| `IlpMapper.MapOpGraph` | src/core/ILPMapper.cpp:120-169 | Insert mux nodes, solve, map back: the status is success exactly for a found assignment and time-out exactly for a time-out; whatever satisfying assignment is found, the mapping returned is accepted on the original MRRG, uses only its nodes and every unit once, puts operations on units of their bit width that list their opcode, and respects the fixed ports; if the dataflow graph has a legal mapping on the original MRRG, an exhaustive solver does not answer infeasible; an MRRG that meets the generators' conditions never makes it throw |
| `IlpMapper.MapAndVerify` | src/core/ILPMapper.cpp:120-169 | Mapping and then checking the result on the original MRRG: whatever the solver answers, a mapping returned as successful passes the connectivity check, which answers exactly by acceptance |
| `Mappings.FindSink` | src/core/Mapping.cpp:99-120 | Terminates on every graph; true comes with a path whose interior belongs to the value, false with a visited set from which no such path leads on |
| `Mappings.NoPathOut` | src/core/Mapping.cpp:99-120 | An exhausted visited set excludes every path to the sink |
| `Mappings.Reaches` | src/core/Mapping.cpp:99-120 | The search from a fresh visited map is true exactly when a path from source to sink through the value's nodes exists |
| `Mappings.Mapping.VerifyOpGraphMappingConnectivity` | src/core/Mapping.cpp:122-193 | True exactly when every operation has one legal unit, no node is shared by two values, and every sink is connected to its source; the lists stay as they were although the check may create empty ones |
| `Mrrg.MRRG.Insert` | src/core/MRRG.cpp:91-107 | Inserts unless cycle and name are taken, and says which |
| `Mrrg.MRRG.Unlink` | src/core/MRRG.cpp:822-850 | Removes one link at both ends; fails exactly when it is missing at one of them |
| `Mrrg.ComputeNodeClassLists` | src/core/MRRGProcedures.cpp:169-192 | Both lists are duplicate free and hold exactly the nodes that compute and that route; a node that does both is in both |
| `MuxExInsertion.InsertionEdges` | src/core/MRRGProcedures.cpp:462-476 | Collects exactly the links that violate mux exclusivity, each once |
| `MuxExInsertion.SplitEdge` | src/core/MRRGProcedures.cpp:478-488 | One round replaces one link by a detour through a new routing node without tags, operations or latency and with the bit width of its driver, and leaves every other link alone |
| `MuxExInsertion.MuxExNodeInsertion` | src/core/MRRGProcedures.cpp:458-493 | Exactly the violating links are split, each by a routing node of its own with the right cycle, name and bit width that lets every operand through; the node map is the identity on source nodes and its two directions are converse |
| `MuxExInsertion.MuxNameInjective` | src/core/MRRGProcedures.cpp:486 | The names of the new nodes never collide |
| `MuxExInsertion.SubdivisionIsWellFormed` | src/core/MRRG.cpp:764-793 | The result keeps links mirrored and duplicate free, and keeps the (cycle + latency) mod II rule |
| `MuxExInsertion.InsertionMakesMuxExclusive` | src/core/MRRG.cpp:782-792 | The result always satisfies the mux exclusivity check |
| `MuxExWalks.ExpandCorresponds` | src/core/MRRGProcedures.cpp:458-493 | Every source walk has exactly one image in the new graph, with the same ends and the same latency |
| `MuxExWalks.ContractCorresponds` | src/core/MRRGProcedures.cpp:458-493 | Every walk of the new graph between source nodes is the image of exactly one source walk, with the same latency |
| `MuxExWalks.InsertedNode` | src/core/MRRGProcedures.cpp:478-488 | Every inserted node stands in a link from a node with several fanouts to one with several fanins, routes without latency, has the bit width of its driver, and sits in the cycle in which its driver's output arrives |
| `MuxExWalks.OperandsAgree` | src/core/MRRGProcedures.cpp:396-403 | For every tag a source walk and its detour get the same answer from walkIsCompatibleWithOperand, exceptions included |
| `MuxExLayouts.InsertionLosesNoMapping` | src/core/MRRGProcedures.cpp:458-493 | A legal mapping of the source MRRG, its routes led through the mux nodes, is a legal mapping of the transformed one, in both modes |
| `MuxExLayouts.DetoursBranch` | src/core/MRRGProcedures.cpp:458-493 | Routes that branch like a tree do so with the mux nodes on them |
| `InterMrrgMap.InterMRRGMap.AddMapping` | inc/CGRA/MRRGProcedures.h:255-258 | Adds one pair to both directions and keeps them converse |
| `InterMrrgMap.InterMRRGMap.AddAllByMatchingProperties` | src/core/MRRGProcedures.cpp:51-71 | Adds exactly the pairs of nodes with the same cycle and name, and keeps the two directions converse |
| `InterMrrgMap.InterMRRGMap.MergeDescriptors` | src/core/MRRGProcedures.cpp:73-96 | Renames a node of the transformed graph in both maps |
| `InterMrrgMap.MergeKeepsConverse` | src/core/MRRGProcedures.cpp:73-96 | The renaming keeps the two directions converse, and relates to the new name whatever was related to either |
| `NodeMerges.Erase` | src/core/MRRG.cpp:109-140 | Unlinks and removes a node; afterwards no list mentions it, all other entries are as before, and no unlinking fails |
| `NodeMerges.MergeNodeConnections` | src/core/MRRGProcedures.cpp:567-581 | The driver gains exactly the fanouts of the merged node except itself, recorded at both ends |
| `NodeMerges.MergeProperties` | src/core/MRRGProcedures.cpp:583-605 | Latencies add up and tags are taken over; fails exactly on a node with operations or on tags that do not agree |
| `NodeMerges.MergeInto` | src/core/MRRGProcedures.cpp:405-418 | Merging and erasing leaves exactly the merged graph; it fails exactly when the merge throws |
| `NodeMerges.MergedGraphMerges` | src/core/MRRGProcedures.cpp:583-605 | The merged graph is well formed and differs at the driver only, which has the summed latency, the joint tags and the other fanouts of the merged node; a node that is its own driver is only erased |
| `Chains.MergeKeepsReduced` | src/core/MRRGProcedures.cpp:583-605 | A merge keeps the correspondence between nodes and chains of source nodes: latency, operand tags, fanouts, and the partition of the source, provided the merged node does not lead back to its driver |
| `Chains.MergeKeepsCycleRule` | src/core/MRRG.cpp:764-780 | A merge keeps the (cycle + latency) mod II rule, even where it drops a link |
| `Chains.MergeKeepsIrreducible` | src/core/MRRGProcedures.cpp:429-451 | A merge makes no other node reducible, so one pass over the routing nodes suffices |
| `Chains.LinkBetweenChainsIsReducible` | src/core/MRRGProcedures.cpp:437-450 | An exclusive link between two chains always makes its target reducible: nothing that could be merged escapes |
| `Chains.NoClosedChain` | src/core/MRRGProcedures.cpp:567-581 | If nothing mergeable is left in a graph that corresponds to its source, and no node that stands for several drives itself, the source has no closed chain |
| `Reduction.MergesSucceed` | src/core/MRRGProcedures.cpp:583-605 | If no exclusive link of the source makes a merge throw, no merge of a run that has lost no link does |
| `Reduction.LostLinkClosesChain` | src/core/MRRGProcedures.cpp:567-573 | A merge that drops a link exhibits a closed chain of the source |
| `Reduction.DropSevers` | src/core/MRRGProcedures.cpp:567-573 | A merge that drops a link leaves a node with fewer fanins than it had in the source, or without an exclusive driver that could account for it |
| `Reduction.BrokenStays` | src/core/MRRGProcedures.cpp:429-451 | No later merge makes up for a lost link |
| `Reduction.BrokenIsNotLossless` | src/core/MRRGProcedures.cpp:420-456 | A graph that has lost a link corresponds to its source by no choice of chains whatever |
| `Reduction.ReductionOutcome` | src/core/MRRGProcedures.cpp:420-456 | For every order of the routing nodes: a run that does not throw keeps links mirrored, node kinds and the cycle rule; its result corresponds to the source by some choice of chains, loops of nodes to themselves included, if and only if the source has no row of exclusive links whose end leads back to its start, and then nothing mergeable is left |
| `Reduction.EveryOrderSucceeds` | src/core/MRRGProcedures.cpp:595-604 | For sources without closed chains: every order of the routing nodes succeeds if and only if the nodes of every exclusive link agree |
| `Reduction.MergeOrderDecidesFailure` | src/core/MRRGProcedures.cpp:595-604 | A three node source, with tags S, none and S in a row, that one order of the routing nodes reduces and another makes throw |
| `LosslessReduction.MergeNode` | src/core/MRRGProcedures.cpp:405-418 | One merge throws exactly when the nodes disagree, and otherwise leaves the merged graph and the renamed node map |
| `LosslessReduction.MappingKeepsUp` | src/core/MRRGProcedures.cpp:405-418 | A merge keeps the two directions of the node map converse, and the map keeps naming, for every node that is gone, the one node it went into |
| `LosslessReduction.ReduceInOrder` | src/core/MRRGProcedures.cpp:420-456 | The loop, for any order of the routing nodes, computes exactly the specified run and throws exactly when it does; whenever the result is lossless the node map takes each old node to exactly the node whose chain it is part of, in both directions |
| `LosslessReduction.ReduceLosslessly` | src/core/MRRGProcedures.cpp:420-456 | The result is lossless if and only if the source has no closed chain; then every node stands for a chain of source nodes, nothing mergeable is left, every old node is related to exactly one new node, and only a disagreement could have made it throw; links, kinds and the cycle rule are kept in every case |
| `ReducedWalks.ExpandCorresponds` | src/core/MRRGProcedures.cpp:420-456 | Every walk of the reduced graph stands for one source walk with the same ends and the same latency |
| `ReducedWalks.ContractCorresponds` | src/core/MRRGProcedures.cpp:420-456 | Every source walk between nodes that survive is the expansion of exactly one walk of the reduced graph, with the same latency |
| `ReducedWalks.OperandsAgree` | src/core/MRRGProcedures.cpp:391-403 | A reduced walk and its expansion get the same answer from walkIsCompatibleWithOperand, exceptions included |
| `ReducedWalks.DroppedLinkLosesLoop` | src/core/MRRGProcedures.cpp:567-573 | Where the merged node leads back to its driver, the loop between them exists before the merge and not after it |
| `ReducedWalks.FeedbackIsAClosedChain` | src/core/MRRGProcedures.cpp:567-573 | A three node source, well formed and without a ring of exclusive links, that every order of the routing nodes reduces without an exception to a graph that is not lossless and in which nothing drives the node on the loop any more |
| `ReducedWalks.LoopCouldBeKept` | src/core/MRRGProcedures.cpp:571 | The same source has a lossless reduction, in which the loop is kept as a link from the node to itself, so that the loss is the program's |
| `Walks.TripCountTelescopes` | src/core/MRRGProcedures.cpp:379-389 | The latency of all nodes of a walk but the last equals II times its trip count plus the difference of its end cycles |
| `Walks.TripCountIsAdditive` | inc/CGRA/MRRGProcedures.h:164-174 | The documented identity: trip counts add up where walks are joined |
| `Walks.ClosedWalkTakesOneIntervalPerTrip` | inc/CGRA/MRRGProcedures.h:164-174 | A closed walk takes II times its trip count, so exactly one interval exactly when its trip count is one |
| `Walks.QuotientIsDivision` | src/core/MRRGProcedures.cpp:387 | The quotient used for trip counts is the integer division of the program |
| `Mrrg.WrapIsMod` | src/core/MRRG.cpp:767 | The wrap-around used for cycles is the remainder of the program |
| `PathExclusivity.Candidates` | src/core/HeuristicMappers.cpp:1181-1189 | The loops over edges and compatible units meet exactly the pairs of units that have routes |
| `PathExclusivity.LimitPair` | src/core/HeuristicMappers.cpp:1213-1260 | A pair of routes is limited exactly when they meet in a routing node without carrying the same signal at the same time, and at most once |
| `PathExclusivity.LimitIncompatiblePaths` | src/core/HeuristicMappers.cpp:1176-1265 | Despite the visited sets and the deduplication, exactly the incompatible pairs of routes are limited, each by the limit of some node |
| `PathExclusivity.DecodeValue` | src/core/HeuristicMappers.cpp:1471-1511 | A value is mapped to exactly the routing nodes on routes in use between the units of its operations |
| `PathExclusivity.SharedNodeIsDemanded` | src/core/HeuristicMappers.cpp:884-909 | With one operation to a unit, two values on one node use two routes that are to be kept apart |
| `PathExclusivity.ValuesStayApart` | src/core/HeuristicMappers.cpp:1176-1265 | With limit one everywhere, two different values never share a routing node in the decoded mapping |
| `EdgeNetwork.AddConstraints` | src/core/HeuristicMappers.cpp:838-1448 | Emits exactly the constraints of operations that must be mapped, one operation to a unit, required fanins, usage implied by edges, routes required by each edge and by all edges between two operations, one route to an input of a unit, and trip counts; every placement and routing with inputs of their own meets them |
| `EdgeNetwork.OperandIsRouted` | src/core/HeuristicMappers.cpp:960-1137 | In every solution, on whatever unit an operation is, each operand reaches it by a route in use that carries the operand, starts at a unit that hosts the driving operation and, where asked for, meets the trip count constraint |
| `EdgeNetwork.PathIsRouted` | src/core/HeuristicMappers.cpp:960-1448 | In every solution a dataflow path can be traced back from any unit that hosts its last operation, edge by edge, along such routes |
| `EdgeNetwork.LoopIsRealised` | src/core/HeuristicMappers.cpp:1418-1448 | In every solution, operations mapped several times included, every dataflow loop is realised after some number of turns by a closed route that takes II times the latency of its edges |
| `EdgeNetwork.SingleLoopIsRealised` | src/core/HeuristicMappers.cpp:838-880 | A dataflow loop through an operation that must be mapped once is realised in one turn |
| `EdgeNetwork.PathsReconverge` | src/core/HeuristicMappers.cpp:1418-1448 | Two routed dataflow paths that part at one unit and meet at another take equally long exactly when the latencies of their edges add up to the same |
| `ParallelEdges.RoutesEnterApart` | src/core/HeuristicMappers.cpp:1142-1170 | Two routes in use between the same units have different nodes before the second unit, whatever their trip counts are |
| `ParallelEdges.EdgesHaveEntries` | src/core/HeuristicMappers.cpp:1075-1170 | Edges in use between the same operations and units, with the same trip count, have at least as many different inputs of the second unit to enter it by |
| `ParallelEdges.TwoEnterApartWhen` | src/core/HeuristicMappers.cpp:1075-1170 | Two edges in use between the same units are routed by two routes in use that carry their operands and enter the second unit apart if and only if there are two routes in use that carry the one operand or the other |
| `ParallelEdges.ParallelEdgesEnterApart` | src/core/HeuristicMappers.cpp:1075-1170 | Two edges in use from one operation to another on the same units do so whatever their trip counts are, if no third edge between the operations has a tag of its own |
| `ParallelExample.TwoOfThreeShare` | src/core/HeuristicMappers.cpp:1075-1137 | With three edges, one of another tag, all constraints are met by a choice in which two of them have only one route between them |
| `HeuristicPlans.PlanSolves` | src/core/HeuristicMappers.cpp:838-1448 | Every plan is a solution of the network: units of their own for the operations, for every edge a route between them whose nodes carry the operand, different inputs for edges between the same operations, and numbers that rise by the trips of each route less the latency of its edge |
| `HeuristicPlans.PlanMeetsLimits` | src/core/HeuristicMappers.cpp:1174-1365 | If besides a routing node that is met twice is met by results of one operation, equally late, the plan meets the limits on incompatible routes |
| `HeuristicPlans.UsedRoutesAgree` | src/core/HeuristicMappers.cpp:1174-1365 | Conversely routes in use that share a routing node start from the same unit and reach the node equally late |
| `HeuristicMapping.UnitsApart` | src/core/HeuristicMappers.cpp:883-909 | In every solution no unit has two operations |
| `HeuristicMapping.RouteCarries` | src/core/HeuristicMappers.cpp:1478-1511 | The inner nodes of a route in use between the units of an edge are among those that the value is decoded to |
| `HeuristicMapping.SinkIsConnected` | src/core/HeuristicMappers.cpp:960-1511 | In the decoded mapping every sink of every value is connected to its source through nodes of the value |
| `HeuristicMapping.OperandsEnterApart` | src/core/HeuristicMappers.cpp:960-1511 | In the decoded mapping two operands from one operation to another have walks through nodes of the value that carry them and end in different nodes before the unit |
| `HeuristicMapping.OneSignalPerNode` | src/core/HeuristicMappers.cpp:1174-1365 | In every solution routes in use that share a routing node come from the same unit and are there equally late |
| `HeuristicMapping.MappableIsSolved` | src/core/HeuristicMappers.cpp:838-1448 | If a plan exists, a solver that gives up only on unsolvable constraints finds a solution |
| `HeuristicMapping.SolutionIsAccepted` | src/core/HeuristicMappers.cpp:838-1511 | A mapping decoded from any solution of the edge network and of the limits on incompatible routes, with one unit for each operation and one value for each routing node, passes the connectivity check |
| `HeuristicMapping.Decode` | src/core/HeuristicMappers.cpp:1471-1511 | Decodes exactly the units in use, each once, and exactly the routing nodes on routes in use |
| `HeuristicMapping.MapHeuristically` | src/core/HeuristicMappers.cpp:838-1511 | Building the constraints, solving and decoding: whatever the solver returns, the mapping passes the connectivity check, and two operands from one operation to another enter its unit by different nodes unless a third operand between them has a tag of its own; if a plan exists, an exhaustive solver does not give up |
| `TripConstraints.LatencyOfRoute` | src/core/HeuristicMappers.cpp:1422-1447 | The physical latency along routes that meet the trip count constraint is fixed by the numbers of the end units and by the latencies of the dataflow edges |
| `TripConstraints.LoopLatency` | src/core/HeuristicMappers.cpp:1422-1447 | Around a closed chain of edges in use the physical loop takes II times the latency of the dataflow edges |
| `TripConstraints.ReconvergingRoutesBalance` | src/core/HeuristicMappers.cpp:1422-1447 | Two chains between the same units have equal physical latency exactly when their dataflow edges ask for equal latency |
| `ConfigChain.GenConfigOrder` | src/core/Module.cpp:164-173 | Appends the cells of a module tree in the order of the recursive specification: own cells first, then submodules |
| `ConfigChain.ChainIsShiftRegister` | src/core/Module.cpp:580-601 | One clock of the nested ConfigIn/ConfigOut wiring shifts the flat register of all cells, contexts and bits by one, and what leaves the module is the last bit of that register |
| `ConfigChain.CellShifts` | src/core/Module.cpp:2229-2259 | The registers of one cell, all its contexts included, are one shift register |
| `ConfigChain.FeedIsFlat` | src/core/Module.cpp:580-601 | Feeding a stream through the tree of modules feeds it through the flat register |
| `ConfigChain.LongStreamFills` | src/core/Module.cpp:2229-2259 | After any stream that is long enough the register holds its last bits in reverse, whatever came before |
| `ConfigChain.OrderIsWiring` | src/core/Module.cpp:580-601 | The wired order equals the order of genConfigOrder exactly when no configuration cell is used as a submodule |
| `BitStreams.BitStream.Append` | src/core/BitStream.cpp:19-26 | Stores a setting and its place in the order; fails exactly for a cell that has one |
| `BitStreams.BitStream.PrintTestbench` | src/core/BitStream.cpp:84-99 | What is printed is the reverse of all bits in chain order, and the declared size counts one bit more than the settings have; played by the configurator, they load every cell as its settings say |
| `BitStreams.PadContexts` | src/core/CGRA.cpp:169-178 | Contexts from II on are filled with low bits of the storage width, the others are kept |
| `BitStreams.GenBitStream` | src/core/CGRA.cpp:64-195 | Succeeds exactly when no cell is listed twice and every first context has the right width; the bitstream then holds the padded settings in chain order |
| `ScanLoad.LoadIsCorrect` | src/core/BitStream.cpp:84-99 | Shifting any prefix and then the printed bits leaves, in every cell, context and bit, the setting stored for it, exactly when the settings have the shape of the cells |
| `ScanLoad.GeneratedBitStreamLoads` | src/core/CGRA.cpp:64-195 | A generated bitstream loads correctly exactly when all used contexts, not only the first, have the right width |
| `ScanLoad.HeldIsPrinted` | src/core/BitSetting.cpp:63-77 | A register holds the bits that are printed for a word if and only if at each place from the top it is 0 exactly for low, 1 exactly for high, undefined exactly for both don't cares and high impedance exactly for high impedance |
| `ScanLoad.GeneratedBitStreamConfigures` | src/core/CGRA.cpp:172-198 | With all widths right, after the load every bit of every context in use says what the module produced for it, and every bit of the contexts from II on is 0 |
| `Testbench.CreateTestbench` | src/run/cgrame.cpp:710-719 | Generating and printing the bitstream fails exactly for a repeated cell or a first context of the wrong width; with all widths right, a run of the configurator that nothing delays, its storage declared as printed, is done after one clock more than it has bits and leaves every cell with the produced bits, and zeros in unused contexts |
| `ScanLoad.WidthCheckMissesLaterContexts` | src/core/CGRA.cpp:180-191 | A module for which the width check passes and the chain is loaded wrongly: a second context that is one bit short |
| `ScanLoad.LoadedByLastBits` | src/core/BitStream.cpp:84-99 | A stream that is long enough loads the settings if and only if it ends in the printed bits |
| `ScanLoad.BitsFillTheFront` | src/core/BitStream.cpp:84-99 | On a chain that is longer than the list of cells the printed bits fill the front, and what was there moves on |
| `ScanRuns.RunFeeds` | src/core/Control.cpp:170 | Configurator and chain share one gated clock: a period without it changes nothing, and every other one feeds the chain what the bitstream register held |
| `ScanRuns.StallsWhen` | src/core/BitStream.cpp:115-128 | The bitstream register keeps its place exactly while enable is low before the last bit, and once done is high |
| `ScanRuns.DoneMeansLoaded` | src/core/BitStream.cpp:115-128 | For every sequence of gated clocks and enables: done is high exactly when some clock has found all bits put out; if that was the last clock, the chain is loaded if and only if the configurator was never held back after putting out two different bits; if there was a later clock, if and only if every bit is low |
| `ScanRuns.PromptRunLoads` | src/core/BitStream.cpp:115-128 | Never held back and clocked until done rises, the configurator has loaded every cell with its settings |
| `ScanRuns.ClockedOnIsLost` | src/core/BitStream.cpp:119-121 | A run that is clocked once more after done has risen, and loses its settings |
| `ScanRuns.HeldIsLost` | src/core/BitStream.cpp:122-125 | A run that is held back for one clock, reports done, and has loaded other settings |
| `ContextSchedule.PushBackInt` | inc/CGRA/BitSetting.h:43-49 | Appends the bits of a number from the highest to the lowest, as the specification function lists them |
| `ContextSchedule.IntegerRoundTrip` | inc/CGRA/BitSetting.h:43-56 | A register that holds the bits of a number reads as the number modulo two to the width |
| `ContextSchedule.CeilLog2IsLeast` | src/core/Module.cpp:2361 | The width of a context number is the least one that can count the contexts |
| `ContextSchedule.CounterFollowsTicks` | src/core/Module.cpp:2314-2325 | From reset and under any enables the counter is the number of enabled cycles modulo the stored value plus one |
| `ContextSchedule.ContextCellHoldsII` | src/core/Module.cpp:2351-2365 | The context cell, once loaded, reads as II - 1 for every II from one to the number of contexts |
| `ContextSchedule.SelectFollowsSchedule` | src/core/Module.cpp:2259 | In every enabled cycle t each cell with several contexts selects the bits its module produced for context t mod II, through padding, loading, the stored II - 1 and the wrapping counter |
| `CycleSearch.ProbeIsPath` | src/core/Mapping.cpp:753-807 | The walks that the cycle search follows are paths of the mapping out of the start |
| `CycleSearch.LatencyCheckBFSCycle` | src/core/Mapping.cpp:753-807 | Terminates on every graph, loops without latency included; true exactly when there is a first return to the start and every first return whose proper prefixes stay within II takes exactly II |
| `PotentialSearch.SpannedIsLeast` | src/core/Mapping.cpp:647-751 | The nodes with a time are the least set that contains the start and that no link leaves or enters |
| `PotentialSearch.TightPotentialIsFound` | src/core/Mapping.cpp:647-751 | If some potential makes the whole component tight, the computed times are that potential up to a constant |
| `PotentialSearch.VisitExposesLink` | src/core/Mapping.cpp:693-714 | A visit that disagrees with the time of its node exposes the link it came by |
| `PotentialSearch.CoverOn` | src/core/Mapping.cpp:693-739 | Each visit keeps that every link of a timed node has been compared or is waiting to be |
| `PotentialSearch.LoopCaughtOn` | src/core/Mapping.cpp:693-739 | Each visit keeps that every loop the times make tight has a node that is a candidate for the zero latency search or will be: its last timed node has been queued by both of its neighbours |
| `PotentialSearch.FindsComponent` | src/core/Mapping.cpp:647-751 | Whatever the order of its queue brings, the search ends with times for a whole component that tight links hold together |
| `PotentialSearch.LatencyCheckBFS` | src/core/Mapping.cpp:647-751 | Terminates with exactly the times and zero latency candidates of the specified search, and times the whole component by tight links; true exactly when all slacks are 0 or plus or minus II; the nodes to check are exactly the targets of links that are off by II; every tight loop of several nodes has a candidate; reported times are not negative, differ from those of the search by a common shift and, if true, by at most one interval, are exactly shifted if all is tight, and leave other components alone; the reported time of a node is that of its latest visit, counted from the earliest visit of all |
| `ZeroCycleSearch.LatencyCheck0Cycle` | src/core/Mapping.cpp:809-850 | The search computes the specified one, for any number of rounds |
| `ZeroCycleSearch.SearchOutcome` | src/core/Mapping.cpp:809-850 | The search reports a loop if and only if the start has a way back without latency; it ends without one if and only if, besides, it cannot get into a loop without latency that avoids the start; otherwise it never ends |
| `ZeroCycleSearch.CheckZeroCycles` | src/core/Mapping.cpp:630-640 | The loop over the candidates computes the specified stage, with the nodes that earlier searches have struck out |
| `ZeroCycleSearch.StageAccepts` | src/core/Mapping.cpp:630-640 | If the stage accepts, a candidate on a loop without latency was reached by another search, and only after more than an interval |
| `ZeroCycleSearch.StageRejects` | src/core/Mapping.cpp:630-640 | If the stage rejects, there is a loop without latency |
| `ZeroCycleSearch.StageEnds` | src/core/Mapping.cpp:630-640 | On a mapping without loops without latency the stage ends and accepts |
| `ZeroCycleSearch.LeftAfter` | src/core/Mapping.cpp:809-850 | A search that ends without finding a loop strikes out exactly the nodes that it reaches |
| `ZeroCycleSearch.StageMayAccept` | src/core/Mapping.cpp:630-640 | In some order of the candidates the stage ends and accepts if and only if some of the candidates, none of which is reached from one before it, are on no loop without latency, get into none, and together reach all others |
| `LatencyCheck.SearchAll` | src/core/Mapping.cpp:609-617 | The searches of all components together time every node once, by exactly the times and candidates of the specified searches, which tight links hold together in every component, and give the verdict and the flagged nodes of the whole graph |
| `LatencyCheck.OrderNodes` | src/core/Mapping.cpp:598-607 | For any listing of the nodes all are searched, in the order in which the double ended queue takes them, those without fanins first |
| `LatencyCheck.OffLinkClosesLoop` | src/core/Mapping.cpp:582-643 | If the check accepts, a link with slack other than 0 has slack plus or minus II, and its target is on a closed walk of latency exactly II |
| `LatencyCheck.ZeroLoopIsTight` | src/core/Mapping.cpp:582-643 | Times that explain all latencies make every loop without latency tight |
| `LatencyCheck.LatencyCheck` | src/core/Mapping.cpp:582-643 | For every listing of the nodes and every way to traverse sets: the times are those of the specified searches, which tight links hold together; it accepts exactly when these times explain all latencies, up to loops of one interval, and the zero latency stage accepts. Accepting leaves no loop of several nodes without latency except those with a node that is reached only after more than an interval, and makes all reported slacks multiples of II; rejecting exhibits times that some choice of connecting links computes and that do not explain the latencies, or a loop without latency; whenever a schedule without waiting exists the reported times are one |
| `LatencyCheck.RunsOnce` | src/core/Mapping.cpp:582-643 | The listing of the nodes and the traversal of sets determine the verdict |
| `LatencyCheck.EveryRunAccepts` | src/core/Mapping.cpp:582-643 | If all times that some choice of connecting links computes explain the latencies, and there is no loop without latency, the check accepts for every listing and traversal |
| `LatencyCheck.NoRunAccepts` | src/core/Mapping.cpp:582-643 | If none of them do, it accepts for no listing and traversal |
| `LatencyCheck.SomeTraversalAccepts` | src/core/Mapping.cpp:630-640 | For a given listing, some traversal of the candidates makes the check accept if and only if the times found explain the latencies and some of the candidates clear the others |
| `LatencyExamples.LateCandidates` | src/core/Mapping.cpp:647-751 | On a mapping of five nodes the search yields exactly two given candidates |
| `LatencyExamples.LateLoopIsMissed` | src/core/Mapping.cpp:630-640 | latencyCheck accepts that mapping, which has a loop without latency, when it traverses its candidates in one order, and rejects it in the other, for every listing of the nodes |
| `LatencyExamples.SelfLoopIsMissed` | src/core/Mapping.cpp:716-739 | latencyCheck accepts a node that drives itself without latency, in every traversal |
| `LatencyExamples.ExplainedIsRejected` | src/core/Mapping.cpp:693-714 | A mapping whose latencies are explained by some times, but by none that a search computes, so that latencyCheck accepts it for no listing and traversal |
| `AnnealPlacer.AnnealPlacer.RipUpOp` | src/core/AnnealPlacer.cpp:221-230 | Removes the operation and lowers the occupancy; with the occupancies counted right it never throws |
| `AnnealPlacer.AnnealPlacer.PlaceOp` | src/core/AnnealPlacer.cpp:233-244 | Places the operation and raises the occupancy, unless it is placed already |
| `AnnealPlacer.AnnealPlacer.GetOpMappedAt` | src/core/AnnealPlacer.cpp:189-205 | Finds the first operation on the unit, if there is one |
| `AnnealPlacer.AnnealPlacer.MoveCluster` | src/core/AnnealPlacer.cpp:524-548 | The cluster swap has the specified outcome, throws exactly when no unit is found, and keeps what undoes it |
| `AnnealPlacer.AnnealPlacer.Swap` | src/core/AnnealPlacer.cpp:512-560 | A swap has the specified outcome and keeps what undoes it: it changes nothing if op itself comes first on the full unit, and if another lone operation does, that one gets op's unit, op gets the full unit, and all others stay |
| `AnnealPlacer.AnnealPlacer.MoveOps` | src/core/AnnealPlacer.cpp:283-301 | The steps of an attempt have the specified outcome, throw exactly when specified, and remember the first placement of everything they move |
| `AnnealPlacer.AnnealPlacer.Restore` | src/core/AnnealPlacer.cpp:312-315 | Putting back what was remembered restores the placement from before the attempt |
| `AnnealPlacer.AnnealPlacer.TryMove` | src/core/AnnealPlacer.cpp:270-317 | A rejected attempt leaves mapping and occupancies exactly as they were; an accepted one has the specified outcome, and puts a lone operation on the unit drawn for it, unless that is full of an operation of a larger cluster, with a lone operation that was there in its old place |
| `AnnealPlacer.AnnealPlacer.InnerPlaceAndRouteLoop` | src/core/AnnealPlacer.cpp:265-330 | For any draws and decisions the loop ends with every operation on one unit, every occupancy counted right and within capacity, and reports success, unless an attempt throws as specified |
| `AnnealPlacer.AnnealPlacer.CheckOveruse` | src/core/AnnealPlacer.cpp:166-186 | True exactly when no unit holds more than its capacity |
| `AnnealPlacer.AnnealPlacer.IsOpgraphCovered` | src/core/AnnealPlacer.cpp:343-353 | True exactly when every operation is mapped |
| `AnnealPlacer.TallyRip` | src/core/AnnealPlacer.cpp:221-230 | Taking an operation off its unit keeps occupancy equal to the number of operations on every unit |
| `AnnealPlacer.TallyPut` | src/core/AnnealPlacer.cpp:233-244 | Putting an operation on a unit keeps occupancy equal to the number of operations on every unit |
| `AnnealPlacer.UndoesExchange` | src/core/AnnealPlacer.cpp:551-558 | Remembering both partners of an exchange, without overwriting, keeps the record able to undo the whole attempt |
| `Placements.MoveFits` | src/core/AnnealPlacer.cpp:285-290 | Moving to a unit with room keeps every unit within its capacity |
| `Placements.ExchangeFits` | src/core/AnnealPlacer.cpp:551-558 | Exchanging two operations keeps the number on every unit, and so the capacities |
| `Placements.Relocated` | src/core/AnnealPlacer.cpp:526-548 | A step of a cluster swap keeps every operation on one unit within capacity |
| `Placements.Attempted` | src/core/AnnealPlacer.cpp:283-301 | Every attempt that does not throw keeps every operation on one unit within capacity |
| `Placements.UniformDevicesThrowOnlyForMissingUnits` | src/core/AnnealPlacer.cpp:332-340 | On devices whose units hold one operation each, an attempt throws only when no unit is found for an operation of a cluster |
| `Placements.RejectedRunChangesNothing` | src/core/AnnealPlacer.cpp:310-316 | However many attempts are made, if all are rejected the placement is what it was |
| `Placements.FirstComesFirst` | src/core/AnnealPlacer.cpp:189-205 | The operation found on a unit is the one on it that no other in the order of the graph comes before |
| `Placements.SwapEnds` | src/core/AnnealPlacer.cpp:512-560 | A swap exchanges op with a lone operation that comes first on the unit, changes nothing if that is op, and otherwise moves the cluster |
| `Placements.RelocatedEnds` | src/core/AnnealPlacer.cpp:526-548 | After a cluster step the operation is on the unit found for it, and at most what came first there has left, for where the operation was |
| `Placements.ClusterMovedEnds` | src/core/AnnealPlacer.cpp:524-548 | If the units found are different, all operations of a moved cluster end on theirs |
| `Placements.LoneAttemptLands` | src/core/AnnealPlacer.cpp:283-301 | An accepted attempt puts a lone operation on the unit drawn, unless that is full of an operation of a larger cluster, and nothing else moves but a lone operation that was there |
| `Placements.FreeClusterLands` | src/core/AnnealPlacer.cpp:283-290 | A cluster that is drawn to different units with room ends on them, and nothing else moves |
| `Placements.RunGoesThrough` | src/core/AnnealPlacer.cpp:268-317 | A run makes its attempts one after the other, each on what the one before it left |
| `Placements.FixedStays` | src/core/AnnealPlacer.cpp:274 | A fixed operation that is alone in its cluster keeps its unit through every run that draws and finds it for no operation |
| `Placements.ClusterInTheWayMoves` | src/core/AnnealPlacer.cpp:524-548 | A larger cluster in the way moves as a whole to the units found for it, and a fixed operation in it moves too |

## Left out

- Gurobi and OR-Tools: the solver is a parameter that is trusted to return assignments that satisfy the constraints; objective, time limits and callbacks are not modelled.
- Lazy constraints: the callback path drops constraints whose name repeats, which the model does not cover.
- LinePathBalance, CyclePathBalance and the latency balancing of the heuristic mappers: they rest on `computeTrailsToBalance`, whose implementation is not part of this model.
- IlpMapper.TransformToOriginalMRRG: the order within the lists is left open, because the sets of old nodes have none.
- Mappings.Mapping.VerifyOpGraphMappingConnectivity: the search that compares operand nodes of multi-input operations is not modelled.
- PathExclusivity.DecodeValue: `mergeMRRGWalks` is taken to use all nodes of the walks it merges and no others; the set based variant of the constraints and multipliers other than one are not modelled.
- PathExclusivity.LimitPair: a node's capacity times the usage multiplier is a function parameter, which the result about decoded values takes to be one.
- LatencyCheck.LatencyCheck: the number of rounds of each search for a loop without latency is a parameter, and running out of it is an outcome of its own, because those searches need not end.
- HeuristicMapping.SolutionIsAccepted: for the mode without multiple mappings and with pairwise exclusivity, with node capacities and usage multipliers of one; the balancing constraints and the costs, which only shrink the set of solutions or choose among them, are not modelled.
- HeuristicPlans.PlanSolves: for the network of edge variables without the balancing constraints; that a third tag between two operations can cost an operand its own input is in `ParallelExample`.
- ScanRuns.DoneMeansLoaded: runs start at the configurator's reset, which only decides where they start; its 32 bit position is a natural number.
- LosslessReduction.ReduceLosslessly: that nothing reducible is left, and when the result is lossless, is stated for graphs without nodes that both route and compute, as the ILP mapper demands; delays, modules and positions of nodes are not modelled.
- AnnealPlacer.AnnealPlacer.InnerPlaceAndRouteLoop: costs, temperatures and random choices are parameters; an initial placement within capacity is required, because `setInitialPlacement` may draw one unit for two operations of a cluster; whether a displaced operation is legal on its new unit is not stated, since the program does not check it.
- NodeMerges.MergeInto: the node map is updated after the node is erased rather than before, which no result depends on.
- ContextSchedule.PushBackInt: for numbers that are not negative, the only ones the bitstream uses.
- ConfigChain.ChainIsShiftRegister: elastic cells and modules are not modelled, and neither is the reset, which only the counter has.
- MRRG construction from an architecture, `findNeighbourFUs`, the graph algorithm library, the path cache, `removeIsolatedRoutingNodes` and the other edits of `MappingGraph`, which the latency check does not need.
- Architecture builders, floorplans, wrappers for memories, reports, plotting, options and all printing other than the bits of the bitstream.
