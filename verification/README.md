# Verification of the CGRA mapper

A model in Dafny of the mapper of a coarse-grained reconfigurable array (`cgra-compiler`) and of
some rewrites of its LLVM front end (`app-compiler`), with proofs of what they are relied on for.
`dafny verify dfyconfig.toml` checks the whole project.

The array consists of functional units (GPE and IOB) and of interconnect boxes (GIB) between them.
The mapper places the nodes of a data-flow graph on units, routes its edges through boxes, adds
delay cycles so that the operands of every node arrive together, gives the I/O nodes room in the
banks of a scratchpad, and packs the settings into a bitstream.

| module | what it models |
|---|---|
| `Dfg`, `GraphEdit`, `DataFlow` | the graph, its two adjacency representations, editing, copying, topological order |
| `PassNodes`, `PassPaths` | what a graph computes; splitting edges by pass-through nodes, and the paths of the result |
| `Adg`, `Distance`, `Connections` | the array; distances between units through boxes (Floyd-Warshall, in place); distances over all connections |
| `Routing`, `RouteSearch`, `Completeness`, `Mapping` | the routing state and its invariant; the breadth-first search; that it misses no route; mapping and unmapping nodes |
| `Sync`, `LatencyScheduler` | latencies, lower bounds, the shared delay budgets, violations |
| `Flow` | one round of the mapper from end to end, and the drivers over such rounds |
| `Runs`, `Tries`, `Annealing` | the rounds that a driver asks for and when it stops; its calls by the optimising driver; the drivers |
| `Scratchpad`, `IoScheduler` | runs of tasks and their hazards in the scratchpad; the I/O scheduler |
| `Configuration`, `Bitstream` | multiplexer settings, the operand of an immediate; packing, slicing and addressing |
| `Layout`, `Reductions`, `AddressPattern` | types in memory; the reductions to binary nodes; trip counts and incremental strides |
| `Arithmetic`, `Collections` | facts about quotients, finite sets and sums |

What changes step by step in the source is a class with methods or a loop here; each method is
proved against a predicate or function on values, and the main theorems are lemmas about those.
Maps and sets are walked in any order: the proofs hold for the order the source takes. Random
choices, time-outs and the order of trials are arbitrary.

Findings about the code, each with an input and the exact condition:

- The dependence cost of a task is zero with a dependent execution when the task loads nothing:
  the weight of that dependence is the square of the number of loads
  (`io_scheduler.cpp:226-228`). `IoScheduler.Scheduler.IoSchedule` states just when it is zero;
  `IoScheduler.StoresOnly` states such a task.
- The loop count of the front end reads neither the kind of the exit test nor where it stands
  (`llvm_cdfg.cpp:2253-2333`). For a loop tested behind its body by a strict comparison it is the
  number of rounds if and only if the loop runs toward its end or stops less than a stride past
  it. `AddressPattern.LoopCount` states the condition for this and the other kinds of loop.
  `AddressPattern.EndsWhereItStarts` is a loop of one round with the count 0, and
  `AddressPattern.TestedInFront` one of ten rounds with the count 11.
- A hop between two boxes that are connected twice weighs as the connection at the lowest input
  port, also when the other one is not registered (`mapper.cpp:143-152`), so that the distances
  may be too large. `Connections.ExactDistances` states when they are right;
  `Connections.UnitsAreFarther` is an array where they are not.
- The region of an I/O lies in its bank if and only if its aligned size does not exceed the bank;
  the scheduler does not look (`io_scheduler.cpp:100-166`). `IoScheduler.Holds` states it;
  `IoScheduler.LargeIo` is an I/O past the end of its bank.
- The offset of a struct field leaves out the gaps that the alignment of fields makes
  (`llvm_cdfg.cpp:1139-1150`), so that addresses behind a gap are too small.
  `Reductions.SkipsGaps` and `Layout.FieldOffsetRight` state when they are right;
  `Reductions.GapIsMissed` is a field at 4 that is looked for at 1.
- Packing a field of more than a word may drop bits unless it starts with a word, as the next one
  is shifted in 32 bits (`configuration.cpp:370`). `Bitstream.BackIfNoneLost` and
  `Bitstream.NothingLost` state when all is read back; `Bitstream.LongFieldIsCut` is a field of
  which a bit is lost.
- A constant of more than 32 bits is cut into copies of its lower word, as the shifted value is
  not assigned (`configuration.cpp:76`, `configuration.cpp:144`). `Bitstream.ConstField` states
  when it is right all the same; `Bitstream.WideConstantIsCut` is one that is not.
- Assigning a graph to one that is not empty keeps the old nodes and edges whose ids the other
  does not have (`dfg.cpp:183-200`). `DataFlow.DataFlowGraph.CopyFrom` states when the copy is
  exact; `DataFlow.OldNodeStays` is a copy that is not. The mapper copies to new graphs only.

Assumptions. Synchronisation and sorting take an acyclic graph in which every node reaches an
OUTPUT or STORE node, and at most one edge per input port. The hazard theorem takes the ordering of
the hardware as the hypothesis `Scratchpad.Behaves`: executions in order, stores in order, an
execution after the loads and the configuration of its task, a store after its execution,
dependence codes obeyed, and work of the second-last task that no code speaks about done, as is
all earlier work. A load of data that depends on the last execution waits for its end, a load of
a configuration only until it has begun (`ReservationStation.scala:171`, `182-190`).

## Model

| member | source | states |
|---|---|---|
| LatencyScheduler.Scheduler.LatencySchedule | cgra-compiler/src/mapper/mapping.cpp:1081-1299 | the whole pass ends, in one sweep over the reversed order; lower bounds are kept and no node passes the latest one; every gap is the exact difference of latencies, and the total violation is zero if and only if all operands arrive at the same cycle; the delays of a unit stay within its capacity, and are handed out: if they are enough for f cycles at each operand, each gets f or all that it needs, so that an edge that needs no more has no violation |
| LatencyScheduler.Scheduler.CalEdgeLatVio | cgra-compiler/src/mapper/mapping.cpp:1251-1299 | list, sum and maximum of the violations are exactly those of all edges, and the budgets still hold |
| LatencyScheduler.Scheduler.SettleEdge | cgra-compiler/src/mapper/mapping.cpp:1266-1294 | the cycles handed to an edge are between zero and its gap: the assertion of the source never fails |
| LatencyScheduler.Scheduler.ChargeKeeps | cgra-compiler/src/mapper/mapping.cpp:1165-1198 | charging an edge once keeps every budget: the total is the sum of what was handed out and at most the capacity |
| LatencyScheduler.Scheduler.FixKeeps | cgra-compiler/src/mapper/mapping.cpp:1156-1164 | fixing a node below all it feeds keeps every gap non-negative |
| LatencyScheduler.Scheduler.AvailWithinBudget | cgra-compiler/src/mapper/mapping.cpp:1009-1025 | what a unit offers an edge never exceeds what is left of its delay cycles |
| LatencyScheduler.Scheduler.OfferIsShare | cgra-compiler/src/mapper/mapping.cpp:1013-1023 | the offer is an equal share of what is left: s cycles for k operands not yet charged with s*k <= left < (s+1)*k |
| LatencyScheduler.Scheduler.LatencyBound | cgra-compiler/src/mapper/mapping.cpp:1048-1075 | every node gets the latest arrival of its operands plus its own latency; the maximum and its node are found |
| LatencyScheduler.Scheduler.WalkCriticalPath | cgra-compiler/src/mapper/mapping.cpp:1091-1122 | the nodes taken are those of one path without slack, from the latest node back to a node without inputs; they keep their bounds, and the rest awaits scheduling in order |
| LatencyScheduler.Scheduler.TargetLat | cgra-compiler/src/mapper/mapping.cpp:1130-1162 | fails just when a fed node is not scheduled; else the latency is raised until all fed nodes can wait for it, or as far as it fits, and no further |
| LatencyScheduler.Scheduler.ScheduleNode | cgra-compiler/src/mapper/mapping.cpp:1127-1202 | a node that is scheduled keeps the invariant; with its latency all fed nodes have cycles enough on offer, unless it cannot be later, and if it was raised some operand needs all that is on offer to it; every edge between it and a scheduled node has been charged |
| LatencyScheduler.Scheduler.ScheduleRest | cgra-compiler/src/mapper/mapping.cpp:1125-1203 | every node left is scheduled, in the reversed order and so after all that it feeds; one sweep over the list is enough |
| LatencyScheduler.Scheduler.ReconvergentPathsBalance | cgra-compiler/src/mapper/mapping.cpp:1081-1299 | without violation, any two paths between two nodes take the same number of cycles, delays included |
| Sync.LowerBoundDominates | cgra-compiler/src/mapper/mapping.cpp:1048-1075 | no path to a node is longer than its lower bound |
| Sync.LowerBoundAttained | cgra-compiler/src/mapper/mapping.cpp:1048-1075 | and some path is as long: the bound is the longest path |
| Sync.TallyZero | cgra-compiler/src/mapper/mapping.cpp:1286-1299 | sum zero, no edge listed, maximum zero and every violation zero are the same |
| Mapping.Mapping.RouteDfgEdge | cgra-compiler/src/mapper/mapping.cpp:873-897 | an edge is routed if and only if some route of it can be added to the present routes so that a sound state results; then it has no more links behind the net than any route that could be added, and the state is sound; else nothing changes |
| RouteSearch.Search | cgra-compiler/src/mapper/mapping.cpp:675-771 | the search finds a trail of fewest hops to the source or to a wire of the same net, and none only if there is none |
| Completeness.RivalIsTrail | cgra-compiler/src/mapper/mapping.cpp:675-771 | whatever sound route could be added to the others, the part of it behind its last wire of the net, read backwards, is a trail that the search may find |
| Completeness.ShortestOfAll | cgra-compiler/src/mapper/mapping.cpp:675-771 | a shortest trail has no more links than any route that could be added has behind the net |
| Completeness.RoutableHasTrail | cgra-compiler/src/mapper/mapping.cpp:675-771 | so an edge that can be routed at all has a trail |
| Mapping.RoutedKeeps | cgra-compiler/src/mapper/mapping.cpp:772-833 | a shared prefix and the new part together are a whole route, and writing them down keeps the invariant |
| Mapping.Mapping.AvailDstPorts | cgra-compiler/src/mapper/mapping.cpp:837-868 | the ports offered are exactly those of allowed operands of which no port is in use |
| Mapping.Mapping.UnrouteDfgEdge | cgra-compiler/src/mapper/mapping.cpp:902-967 | exactly the edge's passes go, and a port is free again if and only if no other pass uses it |
| Routing.RouteThenUnroute | cgra-compiler/src/mapper/mapping.cpp:774-938 | routing and unrouting an edge changes nothing, whatever it shared |
| Routing.CommittedKeeps | cgra-compiler/src/mapper/mapping.cpp:391-421 | a new route keeps the invariant: ports are marked just when used, one net to a port, one input to an output |
| Routing.UnroutedKeeps | cgra-compiler/src/mapper/mapping.cpp:902-967 | taking a route away keeps it too |
| Mapping.Mapping.MapDfgNode | cgra-compiler/src/mapper/mapping.cpp:213-289 | success places the node and adds just the routes to its placed neighbours; failure leaves routes, passes, owners and ports as they were, and comes only if some edge to a placed neighbour cannot be routed on top of the present routes and those of other such edges; so a node without placed neighbours is always mapped |
| Mapping.Mapping.Rollback | cgra-compiler/src/mapper/mapping.cpp:265-270 | unrouting the listed edges undoes them all |
| Mapping.Mapping.UnmapDfgNode | cgra-compiler/src/mapper/mapping.cpp:304-345 | the node, its unit's record and just the routes at it go; the rest stays |
| Mapping.Mapping.MapThenUnmap | cgra-compiler/src/mapper/mapping.cpp:213-345 | mapping a node and unmapping it restores the routing state |
| Mapping.Mapping.SuccessRoutesAll | cgra-compiler/src/mapper/mapping.cpp:971-973 | when the counter says all nodes are mapped, they are on distinct units and every edge has a whole route |
| Mapping.Mapping.Reset | cgra-compiler/src/mapper/mapping.cpp:6-17 | the empty mapping is sound |
| Mapping.Mapping.FindCandidates | cgra-compiler/src/mapper/mapper_sa.cpp:324-353 | free units that can take the node, each once: all of them, or as many as asked for if there are more |
| Mapping.Mapping.TryCandidates | cgra-compiler/src/mapper/mapper_sa.cpp:306-321 | the index of the first unit where the node can be mapped, all before being blocked; or -1 with the routing unchanged, all being blocked |
| Mapping.Mapping.PlaceNode | cgra-compiler/src/mapper/mapper_sa.cpp:284-296 | the node is placed and no other moved; or the routing is unchanged, and all free units that can take it, or ten of them, are blocked |
| Mapping.Mapping.IncrPnR | cgra-compiler/src/mapper/mapper_sa.cpp:277-300 | placed nodes stay; true if and only if all listed nodes are placed, which is success if they are all there are; false only if one is left for which all candidates are blocked |
| Mapping.Mapping.UnmapSome | cgra-compiler/src/mapper/mapper_sa.cpp:248-256 | exactly the chosen nodes are removed, whatever they are; the others stay where they are, and so do the routes left |
| Flow.PnrRound | cgra-compiler/src/mapper/mapper_sa.cpp:127-142 | sorting, removing, placing, routing and synchronising fit together: the round succeeds just when all nodes are placed, and then leaves an outcome as the drivers rely on; it fails only if a node is left for which all candidates are blocked |
| Flow.Synchronise | cgra-compiler/src/mapper/mapper_sa.cpp:135-137 | a whole mapping gets latencies and delays within capacity; its violation sum is zero just when all operands arrive together, and the listed edges are known ones |
| Flow.Execute | cgra-compiler/src/mapper/mapper_sa.cpp:33-97 | the driver over rounds of the mapper: it succeeds if and only if one of the rounds that it asks for places all nodes with all operands in time; the mapping it returns is such a one, is routed as a whole, has the least objective of all that its tries found, and its graph computes what the given one does |
| Annealing.MapperSA.PnrSync | cgra-compiler/src/mapper/mapper_sa.cpp:102-226 | the rounds asked for are told as a sequence: what each starts from, which are accepted, when a phase ends and what the next begins with, and that the run ends only when rounds or time are up or a phase has ended for good; 1 if and only if the last round places all nodes without violation, and no other does; -1 only if pass nodes cannot be inserted; else the least violating mapping since the last restart; and what rounds and pass nodes keep is kept |
| Annealing.MapperSA.PnrSyncOpt | cgra-compiler/src/mapper/mapper_sa.cpp:33-97 | the calls of the first driver are told as a sequence, each with its time, its limits and its empty mapping; it ends just when they are used up, the graph cannot grow, or 31 have not found a better mapping; true if and only if one has succeeded, and then the result is the first of those with the least objective |
| Runs.SucceedsIfSolved | cgra-compiler/src/mapper/mapper_sa.cpp:121-226 | the first driver answers 1 if and only if one of its rounds solves the problem |
| Runs.FirstRoundSolves | cgra-compiler/src/mapper/mapper_sa.cpp:121-142 | if there is time for a round and the first one solves the problem, the driver returns its mapping |
| Runs.RoundAdded | cgra-compiler/src/mapper/mapper_sa.cpp:121-213 | a run goes on to a run: each round starts from the mapping accepted last, or a fresh one after a restart |
| Tries.SucceedsIfAnySolves | cgra-compiler/src/mapper/mapper_sa.cpp:33-97 | the optimising driver succeeds if and only if some round of some call solves the problem |
| Tries.FirstTrySucceeds | cgra-compiler/src/mapper/mapper_sa.cpp:33-97 | it succeeds if the very first round solves the problem |
| DataFlow.DataFlowGraph.TopoSortNodes | cgra-compiler/src/dfg/dfg.cpp:158-164 | exactly the nodes that reach an OUTPUT or STORE node, each once; behind all inputs if there is no cycle |
| DataFlow.DataFlowGraph.Dfs | cgra-compiler/src/dfg/dfg.cpp:141-155 | what is visited is in every closed set with the start node, and inputs are visited first |
| DataFlow.ListedIsReaching | cgra-compiler/src/dfg/dfg.cpp:158-164 | the least set closed under inputs is the set of nodes with a path to an output |
| GraphEdit.AddEdgeKeeps | cgra-compiler/src/dfg/dfg.cpp:41-66 | a new edge to a free port keeps both adjacency representations consistent |
| GraphEdit.DelEdgeKeeps | cgra-compiler/src/dfg/dfg.cpp:85-108 | so does removing one |
| DataFlow.OldNodeStays | cgra-compiler/src/dfg/dfg.cpp:183-200 | a copy of the empty graph that still has a node |
| DataFlow.DataFlowGraph.CopyFrom | cgra-compiler/src/dfg/dfg.cpp:169-202 | nodes and edges come in addition to those that are there; the result is the same graph if and only if no old id is left over |
| PassNodes.InsertPassDfgNodes | cgra-compiler/src/mapper/mapping.cpp:1303-1364 | false exactly if there is no free unit; else the worst edges are split, as many as fit, by fresh pass nodes of the latency given; all other nodes keep their operations and latencies, and every path that crosses split edges has one in the new graph that is longer by that latency for each crossing; meaning, consistency and acyclicity are kept and the compute nodes fit the units |
| PassPaths.SplitPath | cgra-compiler/src/mapper/mapping.cpp:1334-1361 | splitting one edge leads a path through the new node and makes it longer by the latency as often as it crosses the edge |
| PassPaths.PathsMore | cgra-compiler/src/mapper/mapping.cpp:1327-1361 | and so for all edges split, one after the other |
| PassNodes.SplitKeepsMeaning | cgra-compiler/src/mapper/mapping.cpp:1334-1361 | with a pass node as identity, the computations of the old graph are those of the new one on the old nodes, in both directions |
| PassNodes.SplitKeepsAcyclic | cgra-compiler/src/mapper/mapping.cpp:1334-1361 | no cycle appears |
| PassNodes.SameValues | cgra-compiler/src/mapper/mapping.cpp:1303-1364 | in an acyclic graph every old node computes the same value before and after |
| PassNodes.SomeComputation | cgra-compiler/src/mapper/mapping.cpp:1303-1364 | an acyclic graph computes something, whatever its operations mean |
| PassNodes.SameComputation | cgra-compiler/src/mapper/mapping.cpp:1303-1364 | so the graph and its copy with pass nodes have one computation each, and it is the same on the old nodes |
| PassNodes.SortByViolation | cgra-compiler/src/mapper/mapping.cpp:1314-1318 | the same edges, the worst first |
| Distance.CalAdgNodeDist | cgra-compiler/src/mapper/mapper.cpp:123-189 | the recorded distance of two units is the least weight of a walk through boxes only, each hop weighing as its first connection; pairs of I/O blocks are left out |
| Connections.ExactDistances | cgra-compiler/src/mapper/mapper.cpp:143-169 | the final matrix holds the least weights over all connections if and only if, between any two boxes, the connection at the lowest port is not registered or all are |
| Connections.RecordedIsExact | cgra-compiler/src/mapper/mapper.cpp:143-189 | then the recorded distances are the least ones over all connections |
| Connections.TwoBoxesAreFarther | cgra-compiler/src/mapper/mapper.cpp:143-152 | an array of two boxes whose entry is 2 although they are connected at weight 1 |
| Connections.UnitsAreFarther | cgra-compiler/src/mapper/mapper.cpp:143-189 | the same boxes between two units: the recorded distance is 4, and a walk over connections weighs 3 |
| Distance.Floyd | cgra-compiler/src/mapper/mapper.cpp:156-169 | the in-place loops turn the hop matrix into the matrix of least weights |
| Distance.RelaxVia | cgra-compiler/src/mapper/mapper.cpp:159-166 | one pass relaxes all pairs by the old values, though it works in place |
| Distance.RelaxKeepsLeast | cgra-compiler/src/mapper/mapper.cpp:156-169 | one more box between: no walk is lighter, and each entry is the weight of a walk |
| Distance.InfMeansNone | cgra-compiler/src/mapper/mapper.cpp:123-169 | an entry is infinite if and only if there is no walk at all, for arrays within the number range |
| Distance.FillMatrix | cgra-compiler/src/mapper/mapper.cpp:134-154 | zero on the diagonal, the weight of the first connection elsewhere |
| IoScheduler.Scheduler.IoSchedule | cgra-compiler/src/mapper/io_scheduler.cpp:17-229 | distinct banks of the right blocks, regions and both addresses, every conflict with the last two tasks guarded by a code, and the execution's dependence; the cost is the sum over the loads that cost more than all before them of their array, plus the square of the number of loads if the execution depends, and is zero in exactly the cases stated; failure only when the I/Os before have all banks of a block; a load waits for nothing if and only if some bank left to it has a place clear of the last task and free of older stores, for the last execution only if none has a place clear of the last task, and for its stores only if the last task stores in all |
| IoScheduler.Scheduler.ChooseBank | cgra-compiler/src/mapper/io_scheduler.cpp:98-209 | the bank is usable with the code given, and the code is the weakest that any available bank allows: none if and only if some bank has a place that nothing in the way touches |
| IoScheduler.Scheduler.Assess | cgra-compiler/src/mapper/io_scheduler.cpp:105-165 | the status of a bank says which of the two tasks is in the way, and the address keeps clear of the last one |
| IoScheduler.NextCost | cgra-compiler/src/mapper/io_scheduler.cpp:175-205 | remembering the worst cost of each array, one more load is charged just when it costs more than all before it of its array |
| IoScheduler.ZeroCost | cgra-compiler/src/mapper/io_scheduler.cpp:175-205 | the loads cost nothing if and only if none has a dependence |
| IoScheduler.StoresOnly | cgra-compiler/src/mapper/io_scheduler.cpp:226-228 | a task that only stores, and whose execution waits for the last task, at no cost |
| IoScheduler.LargeIo | cgra-compiler/src/mapper/io_scheduler.cpp:100-166 | an I/O that is larger than its bank and reaches past it |
| IoScheduler.Scheduler.PlaceConfig | cgra-compiler/src/mapper/io_scheduler.cpp:270-303 | the configuration starts and ends at a word, so that the address in words names its first byte; it keeps clear of the last one or waits for it, waits only if it must, and is inside its part if and only if it can be |
| IoScheduler.Scheduler.Execute | cgra-compiler/src/mapper/io_scheduler.cpp:403-437 | every task added to a run is guarded against the two before it, so that the hazard theorem holds of the run; no load waits that need not, and all configurations start at words |
| IoScheduler.SameByte | cgra-compiler/src/mapper/io_scheduler.cpp:217-218 | the address counted from the start of the scratchpad and the one the block uses name the same byte |
| IoScheduler.TaskDataApart | cgra-compiler/src/mapper/io_scheduler.cpp:91-97 | two I/Os of a task never share a byte |
| Scratchpad.HazardFree | cgra-compiler/src/mapper/io_scheduler.cpp:71-229 | in a run of any length, conflicting uses of a bank come one after the other: data is not overwritten before it is read or stored |
| Scratchpad.LoadAfterOlderStore | cgra-compiler/src/mapper/io_scheduler.cpp:186-209 | a load over a load of the last task over a store of the second-last is safe by the last task's own dependence |
| Scratchpad.ConfigurationsApart | cgra-compiler/src/mapper/io_scheduler.cpp:275-284 | a configuration is read before its place is loaded again, though a load that depends on the last execution only waits until that has begun |
| Scratchpad.BehavesInSequence | cgra-mg/src/main/scala/soc/ReservationStation.scala:160-220 | the ordering assumed of the hardware can be had for every run |
| Scratchpad.CodesAreNeeded | cgra-compiler/include/mapper/io_scheduler.h:8-11 | a run in which the hardware's own order does not suffice |
| Configuration.GetGibCfgData | cgra-compiler/src/mapper/configuration.cpp:293-319 | every multiplexer is set for every edge that passes it, and no other is set |
| Configuration.OrderDoesNotMatter | cgra-compiler/src/mapper/configuration.cpp:293-319 | two orders of the same edges give the same settings |
| Configuration.MappedIsSelectable | cgra-compiler/src/mapper/configuration.cpp:293-319 | every sound mapping state meets what that needs |
| Configuration.UsedOperands | cgra-compiler/src/mapper/configuration.cpp:22-44 | the edges into a node use as many operands as there are edges, their own if the operation is not commutative |
| Configuration.ImmediateOperand | cgra-compiler/src/mapper/configuration.cpp:118-126 | a free operand is always found, and it is the immediate's own for a non-commutative operation |
| Bitstream.GetNodeCfgData | cgra-compiler/src/mapper/configuration.cpp:325-407 | every bit of every field is read by the node's block from just one packet, as it was put in if and only if no set bit is lost; packets go only to addresses that fields touch, and every other bit of them is zero; fields may have any length and the bus any width that divides or is a multiple of 32 |
| Bitstream.GetCfgData | cgra-compiler/src/mapper/configuration.cpp:412-417 | the packets of all nodes have different addresses, every packet is for one of the nodes and sets nothing but bits of its fields, and every node reads its own fields from them |
| Bitstream.AddressFound | cgra-compiler/src/mapper/configuration.cpp:379-394 | the block and the address in it are found again in the address of a packet |
| Bitstream.BackIfNoneLost | cgra-compiler/src/mapper/configuration.cpp:356-376 | all fields are read back if and only if none of the bits that the packing drops is set |
| Bitstream.NothingLost | cgra-compiler/src/mapper/configuration.cpp:356-376 | no bit of a field is dropped, whatever its value, if and only if it starts with a word or ends at most 64 bits behind the start of its first word |
| Bitstream.LongFieldIsCut | cgra-compiler/src/mapper/configuration.cpp:356-376 | a field of 64 bits whose bit 56 is set and read as zero |
| Bitstream.ConstField | cgra-compiler/src/mapper/configuration.cpp:138-146 | a constant of more than 32 bits is right if and only if each upper bit equals the one 32 below it, and fits its field in exactly the cases stated |
| Bitstream.WideConstantIsCut | cgra-compiler/src/mapper/configuration.cpp:138-146 | a constant of 40 bits that is lost |
| Bitstream.PutField | cgra-compiler/src/mapper/configuration.cpp:350-376 | the loop sets exactly the bits of the field but for those that its shift drops, across word boundaries, without touching a bit outside |
| Bitstream.PackFields | cgra-compiler/src/mapper/configuration.cpp:337-377 | the words hold all fields and nothing else, but for the bits dropped; the addresses are exactly those the fields touch |
| Bitstream.SliceReads | cgra-compiler/src/mapper/configuration.cpp:393-407 | a bit read in its packet is the bit of the words |
| Bitstream.SliceIsClean | cgra-compiler/src/mapper/configuration.cpp:393-407 | a bit that is set in a packet is within the width of the bus and a bit of a field |
| Reductions.Cdfg.HandlePhi | app-compiler/llvm-pass/src/llvm_cdfg.cpp:1041-1083 | when exactly one condition holds, the chain yields that parent's value, for any number of parents |
| Reductions.PairSelected | app-compiler/llvm-pass/src/llvm_cdfg.cpp:1041-1083 | one pairing keeps what the rest of the list stands for |
| Reductions.Cdfg.HandleGep | app-compiler/llvm-pass/src/llvm_cdfg.cpp:1165-1273 | the tree plus the offset equals the address that the indices lead to, less the gaps between fields on the way; it fails just when a field is not given or a scalar is indexed |
| Reductions.Cdfg.FoldOperands | app-compiler/llvm-pass/src/llvm_cdfg.cpp:1177-1223 | given indices go into the offset, each variable one is listed with the size of what it counts |
| Reductions.SkipsGaps | app-compiler/llvm-pass/src/llvm_cdfg.cpp:1139-1150 | the gaps skipped are none if and only if no struct on the way has a gap before the field taken |
| Reductions.GapIsMissed | app-compiler/llvm-pass/src/llvm_cdfg.cpp:1199-1206 | a field at 4 whose address comes out as 1 |
| Layout.FieldOffsetRight | app-compiler/llvm-pass/src/llvm_cdfg.cpp:1139-1150 | the offset taken for a field is right if and only if no field up to it needs a gap before it, and else too small |
| Layout.PathInside | app-compiler/llvm-pass/src/llvm_cdfg.cpp:1177-1223 | a path of indices in range leads to bytes inside the type |
| Layout.PathsApart | app-compiler/llvm-pass/src/llvm_cdfg.cpp:1177-1223 | two such paths lead to different bytes, unless one leads into what the other leads to |
| Reductions.AddressesApart | app-compiler/llvm-pass/src/llvm_cdfg.cpp:1165-1223 | so the operands of two address computations that are in range and differ address different bytes inside the type |
| Reductions.Cdfg.AddPairs | app-compiler/llvm-pass/src/llvm_cdfg.cpp:1249-1261 | the loop over the growing list ends, and its last node is the sum of all |
| Reductions.Cdfg.CreateCtrlOrTree | app-compiler/llvm-pass/src/llvm_cdfg.cpp:844-890 | one conditional input is left; it holds if and only if some old one does |
| AddressPattern.LoopCount | app-compiler/llvm-pass/src/llvm_cdfg.cpp:2253-2333 | the count is the number of rounds that the loop makes if and only if the stated condition on its end, its stride, its kind of test and the place of the test holds; the last index value fits the count |
| AddressPattern.RoundsAreUnique | app-compiler/llvm-pass/src/llvm_cdfg.cpp:2253-2333 | a loop makes one number of rounds at most |
| AddressPattern.EndsWhereItStarts | app-compiler/llvm-pass/src/llvm_cdfg.cpp:2322-2333 | a loop of one round whose count is 0 |
| AddressPattern.TestedInFront | app-compiler/llvm-pass/src/llvm_cdfg.cpp:2253-2264 | a loop of ten rounds, tested in front on the index itself, whose count is 11 |
| AddressPattern.Generate | app-compiler/llvm-pass/src/llvm_cdfg.cpp:3047-3057 | adding the emitted stride of the level that advances visits exactly the addresses of the nest, in order, at any depth |
| AddressPattern.EmitPattern | app-compiler/llvm-pass/src/llvm_cdfg.cpp:3047-3057 | the emitted stride is the level's less what a sweep of the lower levels has added |
| AddressPattern.NestAt | app-compiler/llvm-pass/src/llvm_cdfg.cpp:3047-3057 | the nest visits the start plus the sum of index times stride |
| AddressPattern.AdvanceAdds | app-compiler/llvm-pass/src/llvm_cdfg.cpp:3053-3054 | the emitted stride is just what the address grows by |

## Left out

- Output-port flags of the source unit: they are set and cleared as in the source but nothing is proved about them; no search reads them, and the source does not count their uses (`mapping.cpp:808-810`, `mapping.cpp:928-936`).
- routeDfgEdgeFromSrc, the modes with no source or destination unit and the automatic choice of ports in routeDfgEdgePass have no caller.
- Mapping.Mapping.FindCandidates: that a unit supports the operation is taken as its having the operands the node needs; the sorting of the candidates by distance is a heuristic and any of them may be tried first.
- IoScheduler.Scheduler.IoSchedule: the I/Os are taken in any order; the sorting by size and name only influences how good the choice is. The bit mask of enabled blocks is a set.
- Bitstream.GetNodeCfgData: the value of a field is to fit its length, which is up to those who make the fields; ConstField states when a constant does.
- Annealing.MapperSA.PnrSync: the product of sum and number of violations is unbounded here, an int in the source; the temperatures only steer the random choices, which an oracle makes.
- Distance.CalAdgNodeDist: sums are unbounded here; InfMeansNone bounds every finite entry by twice the number of nodes.
- AddressPattern.LoopCount: the start, the stride and the constant of the exit test are given; finding them in the instructions, tests that point against the direction of the loop, and indices that wrap around are not modelled.
- Reductions.Cdfg.HandlePhi: finding the condition under which control comes from a parent, back edges and the replacement of the node in its successors are not modelled.
- DataFlow.DataFlowGraph.CopyFrom: nodes and edges are values here, so that a copy cannot share them; ids, names and the bit width of a graph are not modelled.
- Reductions.Cdfg.HandleGep: sizes and offsets are unbounded here, an int in the source; a field that does not exist is a failure like one that is not given; packed structs are not modelled.
- Flow.PnrRound: the cost of the I/O dependences, which the drivers read, is not computed in a round; it is zero in the snapshot here and arbitrary in the drivers.
- Rebalancing counters of supported operations, delNode, parsing and printing, drawing, code generation for the host, and the LLVM analyses are not modelled.
- The other fields of a GPE's or IOB's configuration (accumulators, delay settings, I/O patterns) are plain copies of attributes.
