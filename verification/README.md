# Verified model of the repair path

The repository repairs one lost erasure-coded block. It builds a DAG of linear combinations from the code, prunes it
to the lost block, colours every vertex with the node that computes it, counts the network load of that colouring, and
compiles the coloured DAG into read, send, receive, compute and persist tasks that agents run over blocking queues.
This project models that path in Dafny and proves it correct from the encoded stripe to the bytes on disk, together
with the searches that choose colourings, stripes and repair nodes.

`dafny verify dfyconfig.toml` checks everything, with the verifier's default limits.

## How the files hang together

* **The DAG.** `Dag.dfy` (vertices, acyclicity), `Ecdag.dfy` (class `ECDAG`: `Join`, `Concact`), `Sorting.dfy` (levelled
  sorting and topological order), `Pruning.dfy` (reference-count pruning, values of a DAG).
* **Load accounting.** `Traffic.dfy` defines the traffic of a colouring as the set of shipments (vertex, from, to);
  `Recolor.dfy` says how it changes with one colour; `Stripe.dfy` (class `Stripe`) holds the code's tables;
  `Balance.dfy` and `GlobalBalance.dfy` are the two greedy loops.
* **Compiler and runtime.** `Network.dfy` is a generic network of threads over FIFO queues with small steps and
  arbitrary interleaving; `Programs.dfy` turns each task into the round its worker thread repeats; `Compile.dfy` says
  what the task lists have to be, `GenTasks.dfy` generates them as the code does, `Plumb.dfy` and `Repair.dfy` prove
  every interleaving right, `Hanging.dfy` compiles a repair that never ends; `Carried.dfy` and `DataMaps.dfy` tie tasks to
  the counted traffic and to the queues created.
* **Codes.** `Galois.dfy` (an abstract field of characteristic two, matrices), `Planes.dfy`, `ClaySpec.dfy`,
  `ClayMeaning.dfy`, `ClayDag.dfy`, `ClaySteps.dfy`, `ClayLayers.dfy` (the order of the layered decoder), `Clay.dfy`
  and `ClayRepair.dfy` for the Clay code with d = n - 1; `HitchhikerSpec.dfy`, `HitchhikerRepair.dfy`,
  `HitchhikerDag.dfy`, `Hitchhiker.dfy` and `HitchhikerRound.dfy` for Hitchhiker-XOR+, `HitchhikerMeaning.dfy` for what
  it stores, `HitchhikerMany.dfy` and `HitchhikerManyRound.dfy` for its conventional repair from k nodes.
* **The whole repair.** `Tiers.dfy`, `ClayTiers.dfy` and `HitchhikerTiers.dfy` show that in both codes' repair DAGs all
  readers of a vertex are on one level, whatever the colouring. `Computing.dfy`, `EndToEnd.dfy` and `WholeRepair.dfy` put
  code, compiler and runtime together; `Pipeline.dfy` and `StripeRepair.dfy` are the way from a failed node to the task
  lists (`genRepairECDAG`, `genBalanceColoringForSingleFailure`, `genRepairTasks`).
* **Searches.** `Pareto.dfy` (the frontier of load and bandwidth), `Flow.dfy`, `Augmenting.dfy`, `Matching.dfy`,
  `FlowGraph.dfy` (maximum flow and what is read off it).
* **Codecs.** `TaskCommand.dfy` (tasks as bytes), `ColorString.dfy` (colourings as digits).

## Hypotheses

The compiler theorems rest on conditions that the code relies on without checking them. They are predicates of
`Compile.dfy`: `ZeroesClosed` (a colour of -1 marks exactly the shortened blocks and vertices made of nothing else),
`WellFormed` (indices below 32767, so that the negative keys of outgoing copies cannot be confused; one node per stored
block; distinct sub-packets under the header), and `OneLevelPerColor` (consumers of a vertex with one colour share a
level). For the repairs of both codes none of them is assumed: `StripeRepairs.RepairClay` and
`StripeRepairs.RepairHitchhiker` establish all three, from a stripe that has one block per node, indices that stay
below the header's (2 (n + nu) w for Clay, 2n + 2(n - k) for Hitchhiker-XOR+), and a load table with room for another
stripe's traffic in an int. Of the disks it is asked that every block but the lost one is in the file of its name on
its own node, or on the node that stands in for it; a read of any other file could give anything. The field is an
abstract record of operations with the usual laws, characteristic two and an element two that is neither zero nor one;
matrix inversion is a contract (an inverse is returned whenever there is one). For Clay the selected rows of the [I;
Vandermonde] matrix have to be invertible, and so for the conventional repair of several nodes of Hitchhiker-XOR+; for
the repair of any single node of Hitchhiker-XOR+ that is proved. Orders in which unordered maps are traversed are
arbitrary.

## Where the code fails

Four failures are stated exactly, each with an input that shows it.

* `evaluateChange` swaps two columns in its branch for already coloured vertices (src/common/Stripe.cc:366-369): the
  prediction is right if and only if that branch changes nothing, which always holds for uncoloured vertices
  (`Stripes.Stripe.EvaluateChange`, `Recolouring.ColouredCanLose`).
* `BalanceSolution::SingleMLP` calls `dumpLoad(14)` after each recolouring (src/sol/BalanceSolution.cc:220), which puts the
  nodes 0 to 13 into the tables; the next prediction copies them into a table of cluster_size rows. With fewer than 14
  nodes the loop gets through if and only if at most one vertex is to be coloured, that is, has a leaf below with a colour
  (`Balance.BalanceSolution.SingleMLP`, `Stripes.Stripe.DumpLoad`, `Balance.SmallCluster`).
* Clay's check for a single-node repair compares real with shortened numbers (src/ec/Clay.cc:1585-1605): the repair of a
  node is taken if and only if nu is at most k or the node, counting shortened ones, is not among the first q
  (`Clays.Clay.RepairPathIff`, `ClayRepair.NoRepairPathSevenTwo`). The others still come back, but from all sub-chunks of
  the first k nodes that are left (`Clays.Clay.Decode`, `ClayRepair.LayeredRoundTrip`).
* The task lists of a DAG in which two equally coloured consumers of a vertex are on different levels never finish: two
  threads of one node wait for a queue that is filled once (`Repair.FinishesIff`, `Hanging.SplitRepair`).

## Model

| member | source | states |
|---|---|---|
| StripeRepairs.ClayStripeRepaired | src/common/Worker.cc:1789-1811 | any run of what RepairClay plans, in any interleaving, on disks that have each other block on its own node only, can be brought to its end; at its end the file of the lost block on the new node has every sub-packet of the encoded stripes in its place, and no other file was written |
| StripeRepairs.HitchhikerStripeRepaired | src/common/Worker.cc:1789-1811 | the same for every node of Hitchhiker-XOR+, data or parity |
| StripeRepairs.RepairClay | src/common/Stripe.cc:31-61 | decode, head, colour and compile: task lists of a deployable plan for exactly the lost sub-packets, which reads each block on its node, writes on the new node, is coloured greedily and whose traffic is what the load table grew by; for each node that the check lets through |
| StripeRepairs.RepairHitchhiker | src/common/Stripe.cc:31-61 | the same for each node of Hitchhiker-XOR+ |
| StripeRepairs.SplitBlocks | src/common/Stripe.cc:38-54 | the sub-packets of all blocks on the failed node, and those of all others; the last of the lost blocks |
| StripeRepairs.BlocksAre | src/common/Stripe.cc:38-54 | the blocks listed are exactly those on the node, or exactly the others, ascending |
| StripeRepairs.PacketsPlaces | src/common/Stripe.cc:43-53 | sub-packet z of the i-th of the blocks is at place i w + z of the list |
| StripeRepairs.ReadsStored | src/common/Stripe.cc:842-853 | every leaf of a plan from RepairClay or RepairHitchhiker is read from a file that is required to be there |
| StripeRepairs.OneBlockLost | src/common/Stripe.cc:38-54 | with one block of the stripe on the failed node these are its sub-packets and exactly the sub-packets of every other block |
| WholeRepair.ClayBlockComesBack | src/ec/Clay.cc:1793-1947 | under any colouring, on disks that have the blocks where it reads them, every run of the compiled repair can be brought to its end after exactly TotalWork steps and has then written the lost node's sub-packets of any encoded stripes |
| WholeRepair.HitchhikerBlockComesBack | src/ec/HHXORPlus.cc:261-459 | the same for every node of Hitchhiker-XOR+, data or parity |
| WholeRepair.ClayOneLevel | src/ec/Clay.cc:1949-2208 | equally coloured consumers share a level in every colouring of Clay's repair DAG |
| WholeRepair.HitchhikerOneLevel | src/ec/HHXORPlus.cc:261-715 | and of Hitchhiker-XOR+'s, whatever node failed |
| ClayTiers.ClaySuits | src/ec/Clay.cc:2041-2203 | Clay's repair DAG comes in tiers with all readers of a vertex in one, repeats no child, computes nothing in vain and reads nothing lost |
| HitchhikerTiers.HitchhikerSuits | src/ec/HHXORPlus.cc:261-715 | so does Hitchhiker-XOR+'s, whatever node failed |
| Tiers.TieredPlan | src/ec/ECDAG.cc:2152-2212 | whatever the colouring, a DAG in tiers has equally coloured consumers on one level of its levelled sorting |
| RepairPipeline.CompileRepair | src/common/Stripe.cc:598-640 | a repair DAG that suits, coloured greedily and compiled, is a deployable plan of that DAG; its leaves are on the nodes of their blocks and its header on the new node, in both cases after those that failed were replaced |
| RepairPipeline.GenBalanceColoring | src/sol/BalanceSolution.cc:270-333 | leaves have their block's node or -1, the header the repair node, every other vertex that child colour with which the cluster's peak is least; the cluster's table grows by the traffic |
| RepairPipeline.NothingSeen | src/sol/BalanceSolution.cc:234-247 | in a repair nothing is shipped before a vertex between has a colour, so the tables of a stripe never evaluated are right and the choices are made for the true load of the cluster |
| EndToEnd.RunWritesStripes | src/common/Worker.cc:1789-1811 | every run of a plan for a suitable DAG can be brought to its end, and then the file that the header's node was told to write, and no other, has the header's sub-packets of any values that solve the code's DAG |
| EndToEnd.HeadRepair | src/common/Stripe.cc:55-59 | one header over the lost sub-packets, the only one, and every other vertex as the code left it |
| EndToEnd.KeepRepair | src/common/Stripe.cc:1423-1438 | from a list of sub-packets of any blocks: one header over those of the kept block, and of the rest only what it needs, unchanged |
| Repair.RepairCorrect | src/common/Worker.cc:627-694 | in every interleaving each queued or held packet is the DAG's value over the files that the colouring names; an unfinished state can always step; a run ends after exactly TotalWork steps with all queues empty and the repaired block, alone, written on the header's node |
| Repair.ReadsBlock | src/common/Worker.cc:627-694 | a read task opens the file of the block that its sub-packets belong to, on the node they are coloured with |
| Repair.SplitConsumersStarve | src/common/Worker.cc:1406-1479 | if two consumers of one colour are in different levels, no reachable state is finished |
| Repair.FinishesIff | src/common/Worker.cc:1406-1479 | some run finishes if and only if equally coloured consumers share a level |
| Hanging.SplitRepair | src/common/Stripe.cc:598-640 | a DAG of three joins is compiled into task lists that no schedule of the agents ever brings to the end |
| Repair.DeployedPlumbed | src/common/Stripe.cc:598-1249 | the generated tasks fill and drain every queue exactly once per round, by the threads named, and never wait in a circle |
| Network.EveryRun | src/common/Worker.cc:1276-1298 | for any well-plumbed network of FIFO threads: right values, progress, exact length of runs, empty queues at the end |
| Network.Safety | src/common/Worker.cc:1406-1479 | the queue invariant holds after every schedule that can be executed |
| Network.Starves | src/common/Worker.cc:1414-1420 | a queue filled once and drained by two threads keeps every run from finishing |
| Carried.TasksCarryTraffic | src/common/Stripe.cc:391-456 | for each node the entries of its send tasks are as many as _out counts and those of its receive tasks as many as _in counts |
| Carried.BandwidthCarried | src/common/Stripe.cc:391-456 | over all nodes the send entries and the receive entries are both exactly _bdwt |
| Traffic.TrafficConserved | src/common/Stripe.cc:430-456 | the in-counters and the out-counters both add up to the bandwidth |
| Carried.SendsMatchRecvs | src/common/Stripe.cc:844-879 | every send entry has exactly one receive entry with its index and destination |
| DataMaps.QueuesCreated | src/common/Worker.cc:380-451 | a thread's queues are created exactly when they are in use and this thread fills them |
| DataMaps.CreatedIffPushed | src/common/Worker.cc:380-451 | the keys that a task creates are exactly those its program pushes to |
| DataMaps.DataMap.PrepareDataMap | src/common/Worker.cc:380-451 | the map gains an empty queue for each key the task creates and keeps the queues it has |
| GenTasks.GenRepairTasks | src/common/Stripe.cc:598-640 | the task lists form a compiled plan: every vertex in the lists it belongs to and no other, each task in exactly one place of its node's list |
| GenTasks.GenLevel0 | src/common/Stripe.cc:642-963 | the read, send, receive and zero tasks of the leaves |
| GenTasks.GenIntermediateLevels | src/common/Stripe.cc:965-1212 | the compute, send, receive and zero tasks of every level between |
| GenTasks.GenLastLevel | src/common/Stripe.cc:1214-1249 | the one persist task, on the header's node |
| GenTasks.PrepareOne | src/common/Stripe.cc:686-771 | one vertex is filed under its owner, its destinations, its usage and its receivers |
| Plumb.TaskWired | src/common/Worker.cc:627-694 | every queue operation of a task's program is on a queue in use, by the thread that is to fill or drain it |
| Plumb.FilledOnce | src/common/Stripe.cc:701-892 | the producer of a queue in use fills it exactly once per round |
| Plumb.DrainedOnce | src/common/Stripe.cc:1005-1147 | with equally coloured consumers in one level, the consumer drains it exactly once per round |
| Stripes.Stripe.EvaluateColoring | src/common/Stripe.cc:391-456 | the tables count exactly the shipments of the colouring; bandwidth is their number and load the largest counter |
| Stripes.Stripe.ChangeColor | src/common/Stripe.cc:107-249 | the tables move by exactly the difference of the two evaluations, so exact tables stay exact, for any old colour |
| Stripes.Stripe.EvaluateChange | src/common/Stripe.cc:265-380 | the predicted table is that of the recoloured DAG if and only if no child loses its last parent of the old colour; always so for an uncoloured vertex |
| Recolouring.ColouredCanLose | src/common/Stripe.cc:360-370 | a two-vertex DAG on which the prediction for a coloured vertex is wrong |
| Recolouring.PredictionExact | src/common/Stripe.cc:356-379 | the table is right exactly when nothing was moved to the wrong column |
| Stripes.Stripe.EvalColoringGlobal | src/common/Stripe.cc:557-598 | the cluster's table grows by exactly this stripe's traffic |
| Stripes.Stripe.DumpLoad | src/common/Stripe.cc:538-556 | the counts stay, but the printed nodes become keys: the tables fit n nodes afterwards if and only if they did before and n is at least that many |
| Balance.BalanceSolution.SingleMLP | src/sol/BalanceSolution.cc:185-232 | runs out of its table if and only if there are fewer than 14 nodes and two vertices to colour; otherwise tables stay exact, every vertex between leaves and headers is -1 exactly when all leaves below are, else coloured like one of them, and in topological order each got the child colour with the least load among the child colours' nodes and then the fewest shipments, given the colours before it |
| Balance.SmallCluster | src/sol/BalanceSolution.cc:185-232 | a joined chain with two vertices to colour and three nodes: SingleMLP runs, and writes behind its table |
| Balance.BalanceSolution.ChooseColorSingle | src/sol/BalanceSolution.cc:138-156 | of the child colours one with the least (largest counter of the child colours' nodes, number of shipments), -1 only if there is none |
| Balance.BalanceSolution.EvalTable | src/sol/BalanceSolution.cc:362-379 | the largest counter of the listed nodes, in or out, and the number of shipments |
| Balance.InheritColor | src/sol/BalanceSolution.cc:200-226 | taking a coloured child's colour keeps the correspondence with the leaves below |
| GlobalBalance.GloballyMLP | src/sol/BalanceSolution.cc:234-268 | whatever the tables at the start: every vertex between is coloured like a leaf below or -1, in topological order each got a child colour with the least peak of the cluster as the tables show it, given the colours before it; the stripe ends evaluated, the cluster's table grows by exactly its traffic |
| GlobalBalance.ChooseColorFullnode | src/sol/BalanceSolution.cc:158-183 | a child colour with which the cluster's peak load is least, counting the stripe's tables as they are; no later child colour is preferred to it in a tie |
| GlobalBalance.SeenStays | src/common/Stripe.cc:107-249 | incremental updates leave tables exactly as far off as they were |
| GlobalBalance.IsBetter | src/sol/BalanceSolution.cc:121-136 | a lower load wins and a higher one loses; ties go by bandwidth or the output of the two nodes |
| GlobalBalance.Ties | src/sol/BalanceSolution.cc:121-136 | what isBetter compares is the peak, then the number of shipments or the output of the two nodes |
| GlobalBalance.TotalWith | src/sol/BalanceSolution.cc:348-360 | the second column of the cluster's table with a stripe on top adds up to what it was and the stripe's shipments |
| GlobalBalance.FreshTablesRightIff | src/sol/BalanceSolution.cc:234-247 | a stripe never evaluated starts right if and only if no coloured vertex feeds one on another node |
| Ecdags.ECDAG.Join | src/ec/ECDAG.cc:22-85 | one new vertex over its children, new leaves for unknown ones, headers that become children turn intermediate; lists, mirror links and acyclicity are kept |
| Ecdags.ECDAG.ConcactBlocks | src/ec/ECDAG.cc:96-120 | one header per block that has sub-packets in the list, over exactly those, in order |
| Ecdags.GroupPlace | src/ec/ECDAG.cc:96-120 | under its header a sub-packet comes after as many as the list has of its block before it |
| Ecdags.ECDAG.Concact | src/ec/ECDAG.cc:87-94 | one header over all of the list |
| Sorting.GenLeveledTopologicalSorting | src/ec/ECDAG.cc:2152-2212 | terminates; each vertex in one level, 0 for leaves and else one above its highest child; a sole header is alone in the last |
| Sorting.LevelsUnique | src/ec/ECDAG.cc:2152-2212 | only one assignment of levels meets that equation |
| Sorting.SoleHeaderLast | src/common/Stripe.cc:1214-1249 | with one header every other vertex is in an earlier level |
| Sorting.GenTopoIdxs | src/ec/ECDAG.cc:2214-2264 | every vertex between leaves and headers once, after its children |
| Pruning.Prune | src/common/Stripe.cc:1425-1439 | exactly the vertices reachable from the kept header survive, unchanged; the lists fit and the DAG stays valid |
| Pruning.RemoveChildNode | src/ec/ECNode.cc:120-149 | unlinks a vertex without parents and everything that only it needed, each link once |
| Pruning.DeleteUseless | src/ec/ECDAG.cc:2296-2312 | removes exactly the marked vertices |
| Pruning.ValuesUnique | src/ec/ECDAG.cc:22-85 | the values of a DAG follow from those of its leaves |
| Pruning.SurvivorsKeepValues | src/common/Stripe.cc:1425-1439 | a surviving vertex evaluates to what it did in the whole DAG |
| Pruning.ValuesSolve | src/ec/ECDAG.cc:22-85 | evaluation from any leaves solves the DAG's equations |
| Clays.Clay.constructor | src/ec/Clay.cc:18-130 | q, t, nu and w from n and k, and index maps that are the real, shortened and aliased numbering |
| Clays.Clay.Encode | src/ec/Clay.cc:193-293 | joins every uncoupled symbol and parity exactly once, no index that exists, no computed index as a leaf; leaves are the data and shortened sub-chunks |
| Clays.Clay.DecodeErasures | src/ec/Clay.cc:295-355 | whatever q nodes are erased, in each plane of a layer the uncoupled symbols are joined once, each by the rule for it, from what earlier planes and layers left |
| Clays.Clay.DecodeUncoupled | src/ec/Clay.cc:1417-1560 | the erased symbols of a plane from the others, by matrix row times inverse |
| Clays.Clay.RepairOneLostChunk | src/ec/Clay.cc:1949-2208 | the repair DAG: each lost sub-chunk joined exactly once, ascending planes never read what is still to be computed |
| Clays.Clay.Decode | src/ec/Clay.cc:1793-1947 | for one to n - k lost blocks: the repair DAG of a single node if nu is at most k or it is not in the first column; where the check refuses, the DAG of the layered decoder, with all nodes but the first k that are left as erased |
| Clays.Clay.DecodeLayered | src/ec/Clay.cc:2422-2554 | for any q erased nodes: each uncoupled symbol and each erased sub-chunk joined exactly once, over exactly the sub-chunks of the other nodes |
| Clays.Clay.RsDecode | src/ec/Clay.cc:2324-2420 | what is not among the k nodes read counts as erased, so everything wanted does, and shortened nodes never do |
| Clays.Clay.RsMinimumToDecode | src/ec/Clay.cc:2289-2321 | the first k nodes that are left |
| Clays.Clay.DecodeNode | src/ec/Clay.cc:311-350 | the uncoupled symbols due at a node of a plane, by what is erased of its pair |
| Clays.Clay.CoupleNode | src/ec/Clay.cc:2489-2520 | the coupled sub-chunks due at an erased node of a plane, alone or together with an erased partner |
| Clays.Clay.IsErasureType1 | src/ec/Clay.cc:2556-2567 | true exactly when the erased node is paired in the plane and its partner is not erased |
| Clays.Clay.PlaneOrder | src/ec/Clay.cc:170-183 | for each plane the number of erased nodes unpaired in it |
| Clays.Clay.MaxWeight | src/ec/Clay.cc:152-168 | the number of columns with erased nodes |
| ClayLayers.OrderOfPartner | src/ec/Clay.cc:170-183 | planes of a pair are in one layer, or in neighbouring ones if one of its nodes is erased |
| ClayLayers.OrderBound | src/ec/Clay.cc:2463-2481 | no plane is in a layer beyond the number of columns with erased nodes, so the loop over the layers takes all planes |
| Clays.Clay.IsRepair | src/ec/Clay.cc:1585-1635 | for one node, true if and only if all of its column is available in the numbering the check uses; for several, if they are fewer than q and in the column of the first, counted that way |
| Clays.Clay.RepairPathIff | src/ec/Clay.cc:1585-1605 | the check lets a repair through if and only if nu is at most k or the node, counting shortened ones, is at least q |
| ClayRepair.NoRepairPathSevenTwo | src/ec/Clay.cc:1594-1602 | for (7,2) and node 0 it does not |
| ClayRepair.RepairPathSevenTwo | src/ec/Clay.cc:1594-1602 | for (7,2) and node 2 it does |
| Clays.Clay.MinimumToRepair | src/ec/Clay.cc:1678-1714 | every other real node becomes a helper, once |
| Clays.Clay.OrderPlanes | src/ec/Clay.cc:1974-2029 | the planes of the ranges, ascending, each once, all of order one |
| Clays.Clay.GetUncoupledFromCoupled | src/ec/Clay.cc:356-437 | both uncoupled symbols of a pair, whichever node comes first |
| Clays.Clay.GetCoupledFromUncoupled | src/ec/Clay.cc:821-915 | both coupled symbols of a pair |
| Clays.Clay.GetCoupled1FromPair02 | src/ec/Clay.cc:1022-1101 | the second coupled symbol from the first and its uncoupled one |
| Clays.Clay.GetCoupled0FromPair13 | src/ec/Clay.cc:1342-1415 | the first coupled symbol from the second and its uncoupled one |
| Clays.Clay.GetUncoupled2FromCoupled03 | src/ec/Clay.cc:739-819 | the first uncoupled symbol from its coupled one and the second uncoupled one |
| Clays.Clay.GetUncoupled3FromCoupled02 | src/ec/Clay.cc:574-654 | the second uncoupled symbol from its coupled one and the first uncoupled one |
| Clays.Clay.GetCoupled0FromPair12 | src/ec/Clay.cc:1103-1222 | the first coupled symbol from its uncoupled one and the second coupled one |
| Clays.Clay.GetCoupled1FromPair03 | src/ec/Clay.cc:1224-1340 | the second coupled symbol from its uncoupled one and the first coupled one |
| ClayMeaning.EncodeGivesWord | src/ec/Clay.cc:193-293 | values that meet Encode's equations are a code word: every pair is coupled and every plane is in the outer code |
| ClayMeaning.WordMeetsRepair | src/ec/Clay.cc:1949-2208 | every code word meets all equations of a repair, if the selected rows are invertible |
| ClayLayers.WordMeetsLayers | src/ec/Clay.cc:2422-2554 | every code word meets all equations of the layered decoder, whatever q nodes are erased, if the rows of the others are invertible |
| ClayRepair.DecodeRecovers | src/ec/Clay.cc:1793-1916 | evaluating Decode's DAG from a stripe's symbols at its leaves gives each lost sub-chunk back |
| ClayRepair.RoundTrip | src/ec/Clay.cc:193-293 | encode any data, lose a node, decode: the lost sub-chunks come back |
| ClayRepair.LayeredRecovers | src/ec/Clay.cc:2422-2554 | evaluating the layered decoder's DAG from a stripe's symbols at its leaves gives each sub-chunk of each erased node back, if the rows of the others are invertible |
| ClayRepair.LayeredRoundTrip | src/ec/Clay.cc:1793-1947 | encode any data, lose up to n - k nodes for which the check refuses a repair, decode: the lost sub-chunks come back |
| ClayRepair.LeavesExact | src/ec/Clay.cc:2075-2203 | the leaves of a DAG that was built are exactly the sub-chunks given to it, for Encode, repair and layered decoder |
| Planes.PowInt | src/ec/Clay.cc:132-140 | exponentiation |
| Planes.GetPlaneVector | src/ec/Clay.cc:185-191 | the digits of the plane number |
| Planes.DigitsOfNumber | src/ec/Clay.cc:185-191 | a plane vector is the digits of its base-q sum |
| Planes.NumberOfDigits | src/ec/Clay.cc:185-191 | the base-q sum of a plane's digits is the plane |
| Planes.SwapBack | src/ec/Clay.cc:318-322 | pairing is an involution |
| Planes.SwapOrder | src/ec/Clay.cc:311-322 | the partner plane is lower exactly when its new digit is |
| Planes.GetRepairSubchunks | src/ec/Clay.cc:1765-1775 | disjoint ascending ranges that hold exactly the planes with digit x_lost in place y_lost |
| Galois.GenerateMatrix | src/ec/Clay.cc:2211-2232 | identity above, rows of powers below |
| Galois.ParityRow | src/ec/Clay.cc:2220-2229 | a row below the identity takes the data for the coefficients of a polynomial, at 1, 2, 3 and so on |
| Galois.SelectionSolves | src/ec/Clay.cc:1060-1090 | two entries of a pair that the code selects determine every other entry |
| Galois.DotVecMat | src/ec/Clay.cc:1500-1530 | a row times a matrix applied to x is the row applied to the matrix applied to x |
| Hitchhikers.HHXORPlus.constructor | src/ec/HHXORPlus.cc:42-123 | for parameters that passed the checks: layout, groups, swapped matrix and distinct symbols for any of several instances |
| Hitchhikers.HHXORPlus.Make | src/ec/HHXORPlus.cc:18-40 | a code comes about exactly for parameters that pass the three checks |
| Hitchhikers.HHXORPlus.Encode | src/ec/HHXORPlus.cc:168-231 | the DAG holds exactly the equations of a stripe, each symbol joined once |
| HitchhikerRounds.EncodeStores | src/ec/HHXORPlus.cc:176-231 | what every parity node stores, from the data symbols alone: polynomials of the data, the plain sum for the second parity, and the sums of the groups on top of the coupled ones |
| HitchhikerMeaning.GroupCodeIs | src/ec/HHXORPlus.cc:112-120 | as the row of ones was moved to the second parity, every group code is the plain sum of its members' sub-packets 0 |
| HitchhikerMeaning.UncoupledIs | src/ec/HHXORPlus.cc:112-120 | and the second parity before coupling that of all data |
| Hitchhikers.HHXORPlus.DecodeSingle | src/ec/HHXORPlus.cc:261-459 | the DAG holds exactly the equations of the repair of the failed node, for a parity node those of the repair from k others |
| Hitchhikers.HHXORPlus.Decode | src/ec/HHXORPlus.cc:233-254 | one lost node or several, or, for an odd number of symbols, nothing |
| Hitchhikers.HHXORPlus.DecodeMultiple | src/ec/HHXORPlus.cc:461-715 | for any lost nodes and k others with solvable rows the DAG holds exactly the equations of their repair, each symbol joined once |
| Hitchhikers.HHXORPlus.LossOfFits | src/ec/HHXORPlus.cc:470-520 | from the symbols of at least k nodes that are not lost, exactly k nodes are used |
| Hitchhikers.HHXORPlus.WhichRead | src/ec/HHXORPlus.cc:500-525 | which nodes are used: all data nodes at hand, and parity nodes in ascending order until there are k |
| Hitchhikers.HHXORPlus.RepairInGroup | src/ec/HHXORPlus.cc:345-410 | the repair through the failed node's own group |
| Hitchhikers.HHXORPlus.RepairLast | src/ec/HHXORPlus.cc:412-454 | the repair of the last data node, from all couples |
| Hitchhikers.HHXORPlus.AliveData | src/ec/HHXORPlus.cc:283-310 | the other data nodes, in order, from any list of survivors' symbols |
| Hitchhikers.HHXORPlus.GetRequiredSymbolsSingle | src/ec/HHXORPlus.cc:846-899 | the symbols listed are exactly the required ones |
| Hitchhikers.FillGroups | src/ec/HHXORPlus.cc:45-52 | consecutive, non-empty groups of all data nodes but the last |
| Hitchhikers.InitLayout | src/ec/HHXORPlus.cc:734-772 | distinct symbols, those of the layout first |
| HitchhikerSpec.GroupFrom | src/ec/HHXORPlus.cc:33-61 | every data node but the last is in a group |
| HitchhikerSpec.OneGroup | src/ec/HHXORPlus.cc:33-61 | and in only one |
| HitchhikerSpec.GroupShape | src/ec/HHXORPlus.cc:38-51 | the groups follow each other, of size k / (n - k - 1) but for the last, which ends before the last data node |
| HitchhikerSpec.OneOutInvertible | src/ec/HHXORPlus.cc:317-328 | unit rows but one and a row with something in that column are invertible |
| HitchhikerRepair.RecoverInverse | src/ec/HHXORPlus.cc:317-328 | the rows a repair selects are invertible, whatever data node failed |
| HitchhikerRepair.SurvivorsAre | src/ec/HHXORPlus.cc:311-343 | sub-packets 1 are read of all other data nodes and of the first parity node |
| HitchhikerRepair.LastTerm | src/ec/HHXORPlus.cc:429-452 | all couples add up to the last node's term of the coupling parity |
| HitchhikerRepair.SecondMet | src/ec/HHXORPlus.cc:368-404 | the lost sub-packet 0 is the stated combination of its group and group code |
| HitchhikerRounds.DecodeRecovers | src/ec/HHXORPlus.cc:261-459 | evaluating the repair DAG from a stripe's symbols at its leaves gives both lost sub-packets back |
| HitchhikerRounds.RoundTrip | src/ec/HHXORPlus.cc:176-231 | encode any data, lose any data node, repair: both sub-packets come back |
| HitchhikerRounds.LeavesExact | src/ec/HHXORPlus.cc:846-899 | the repair DAG's leaves are exactly the symbols that GetRequiredSymbolsSingle lists |
| HitchhikerMany.StepIsNew | src/ec/HHXORPlus.cc:461-715 | in the order of the code every step computes a symbol that was neither computed nor read before, from what is there |
| HitchhikerMany.StepMet | src/ec/HHXORPlus.cc:461-715 | a stripe of the code meets each equation of the repair |
| HitchhikerMany.ManyInputIff | src/ec/HHXORPlus.cc:461-715 | what the repair reads: both sub-packets of the k nodes and the members of groups whose code is needed, neither more nor less |
| HitchhikerManyRounds.ManyRecovers | src/ec/HHXORPlus.cc:461-715 | evaluating DecodeMultiple's DAG from a stripe's symbols at its leaves gives both sub-packets of every lost node back, if the rows used are invertible |
| HitchhikerManyRounds.ManyRoundTrip | src/ec/HHXORPlus.cc:176-254 | encode any data, lose any nodes, repair from k others: all of them come back |
| HitchhikerManyRounds.ManyLeavesExact | src/ec/HHXORPlus.cc:461-715 | its leaves are exactly what the repair is said to read |
| HitchhikerManyRounds.AllDataAtHand | src/ec/HHXORPlus.cc:261-281 | with all data nodes at hand, as for a lost parity node, the rows are invertible and only data is read |
| HitchhikerManyRounds.ParityLeavesExact | src/ec/HHXORPlus.cc:846-899 | the leaves of a parity node's repair are exactly the symbols that GetRequiredSymbolsSingle lists |
| Pareto.GenPareto | src/Naive_homo.cc:109-359 | terminates; the two maps are one list with load rising and bandwidth falling; each member has the largest counter and the number of shipments of the DAG with exactly its colours at the listed vertices; everything evaluated is covered by the list and beats no member, and all one-vertex recolourings of its members were evaluated |
| Pareto.StandsForOne | src/Naive_homo.cc:93-107 | a solution stands for one colouring: its colours at the listed vertices, and elsewhere those given |
| Pareto.RatedOnce | src/Naive_homo.cc:93-107 | and has one load and bandwidth |
| Pareto.SearchOne | src/Naive_homo.cc:149-358 | one round keeps the frontier invariant and searches a point not searched before |
| Pareto.CompareWithCurve | src/Naive_homo.cc:221-306 | a new solution enters the list in its place and drives out what it dominates, or is dropped because a member covers it |
| Pareto.WalkStep | src/Naive_homo.cc:243-300 | one step along the list, with every way of relinking it |
| Pareto.PruneNeighbours | src/Naive_homo.cc:213-310 | the same for all new solutions, in any order |
| Pareto.GenNeighbours | src/Naive_homo.cc:170-206 | every recolouring of one vertex once, with the load and bandwidth of its evaluation |
| Pareto.FindUnsearched | src/Naive_homo.cc:154-170 | an unsearched member of the list, if there is one |
| Pareto.Dominate | src/Naive_homo.cc:28-48 | at least as good in both respects and better in one |
| Pareto.LinkInsert | src/Naive_homo.cc:278-298 | linking in keeps the two maps mutually inverse lists from -1 to -2 |
| Pareto.LinkReplace | src/Naive_homo.cc:257-277 | so does taking a member's place |
| Pareto.LinkRemove | src/Naive_homo.cc:270-277 | and taking a member out |
| Augmenting.Bfs | src/sol/FlowGraph.cc:226-270 | true exactly when a residual path exists; the parents then spell out a simple one; otherwise the visited vertices are sealed off |
| Augmenting.MaxFlow | src/sol/FlowGraph.cc:175-224 | terminates with a feasible conserved flow, larger by what is returned, equal to the capacity of the visited cut and so maximum |
| Augmenting.Augment | src/sol/FlowGraph.cc:208-212 | pushing along the path keeps flow conservation and adds the path flow |
| Augmenting.PathFlow | src/sol/FlowGraph.cc:199-203 | the least residual of the path's edges, or the largest int if that is less |
| Flows.MaxFlowMinCut | src/sol/FlowGraph.cc:175-224 | a flow that fills a cut is maximum and the cut is minimum |
| Flows.CutBound | src/sol/FlowGraph.cc:175-224 | no flow carries more than any cut |
| FlowGraphs.FlowGraph.Batch | src/sol/FlowGraph.cc:4-85 | capacities d, 1 and d over stripes and surviving nodes, and an empty flow |
| FlowGraphs.FlowGraph.Replacement | src/sol/FlowGraph.cc:88-173 | unit capacities over stripes and agents outside their placement, and an empty flow |
| FlowGraphs.FlowGraph.FindMaxFlow | src/sol/FlowGraph.cc:175-224 | the graph's flow grows by the returned amount to a maximum, with a cut that shows it |
| FlowGraphs.FlowGraph.IsSaturated | src/sol/FlowGraph.cc:281-286 | true exactly when every stripe is helped by d nodes |
| FlowGraphs.FlowGraph.ChooseStripes | src/sol/FlowGraph.cc:330-346 | exactly the stripes that the given number of nodes helps |
| FlowGraphs.FlowGraph.GetRepairNodes | src/sol/FlowGraph.cc:348-363 | a stripe is mapped exactly when a node serves it, to such a node |
| FlowGraphs.PlaceRepairs | src/sol/SecSolution.cc:152-156 | different agents outside each stripe's placement, as many as in any such map; complete if and only if a complete one exists |
| FlowGraphs.CompleteIff | src/sol/SecSolution.cc:156 | the asserted size is reached if and only if every stripe can be served |
| Matchings.ReadOffIs | src/sol/FlowGraph.cc:348-363 | with unit capacities what is read off is injective and as large as the flow |
| Matchings.AssignmentFlows | src/sol/FlowGraph.cc:88-173 | every assignment is a flow of its size |
| Matchings.NoneLarger | src/sol/FlowGraph.cc:348-363 | no assignment is larger than the maximum flow |
| Matchings.HelpersCount | src/sol/FlowGraph.cc:330-346 | a stripe is served by as many nodes as it gets flow, at most d |
| Matchings.ServedCount | src/sol/FlowGraph.cc:330-346 | a node serves at most d stripes |
| Matchings.FullIff | src/sol/FlowGraph.cc:281-286 | the flow is stripes times d exactly when all stripes are served in full |
| TaskCommands.TaskRoundTrip | src/ec/Task.cc:81-364 | a task built, sent and resolved is the same task (a zero block's usage list excepted), whatever its lists' lengths; other queued commands stay |
| TaskCommands.BuildTaskCommand | src/ec/Task.cc:81-97 | the bytes of the task's numbers and names, across buffer doublings |
| TaskCommands.ReadLayout | src/ec/Task.cc:99-124 | which field of a read task stands where in its command |
| TaskCommands.SendLayout | src/ec/Task.cc:158-172 | of a send task |
| TaskCommands.OtherLayout | src/ec/Task.cc:81-268 | of the other types |
| TaskCommands.ItemLayout | src/ec/Task.hh:72-98 | and of a compute item |
| TaskCommands.ResolveTask | src/ec/Task.cc:9-27 | reading those bytes gives the task, taking one command per compute item |
| TaskCommands.ResolveItems | src/ec/Task.cc:233-256 | first in, first out for each target |
| TaskCommands.BuildItem | src/ec/Task.hh:72-98 | the bytes of a compute item |
| TaskCommands.ResolveItem | src/ec/Task.hh:32-65 | and back |
| TaskCommands.Command.WriteInt | src/ec/Task.cc:301-312 | four bytes more, what was written before kept when the buffer grows |
| TaskCommands.Command.WriteString | src/ec/Task.cc:314-330 | length and characters more, with one doubling at most |
| TaskCommands.Command.ReadInt | src/ec/Task.cc:332-344 | the next number |
| TaskCommands.Command.ReadString | src/ec/Task.cc:346-364 | the next name, up to its first NUL |
| TaskCommands.IntRoundTrip | src/ec/Task.cc:301-344 | network byte order and back is the identity on 32-bit integers |
| ColorStrings.ColorsRoundTrip | src/common/TradeoffPoints.cc:34-44 | colours below m come back from the solution's string |
| ColorStrings.DecodesIff | src/common/TradeoffPoints.cc:34-44 | for any width the decoder gives the colours back if and only if each fits in it |
| ColorStrings.GetString | src/single/PRSolution.cc:364-376 | the padded numerals one after the other |
| ColorStrings.SpelledAt | src/single/PRSolution.cc:364-376 | when the colours fit in the width, the i-th piece is the numeral of colour i |
| ColorStrings.GetColoring | src/common/TradeoffPoints.cc:34-44 | the numbers of consecutive pieces |
| ColorStrings.Num2Str | src/util/DistUtil.cc:84-95 | the numeral padded with zeros to the width |
| ColorStrings.NumeralIs | src/util/DistUtil.cc:84-95 | it stands for the number and has the width exactly when the number fits |
| ColorStrings.Ndigits | src/util/DistUtil.cc:75-82 | the length of the numeral |

## Left out

- Redis, sockets, files, configuration, logging and timing: queues are FIFO sequences and blocks are sequences of packets.
- Objects in maps: ECNode and PRSolution objects are values in the maps that hold them, so aliasing of nodes is not modelled.
- FlowGraphs.FlowGraph.FindMaxFlow: the flattened int matrices are two-dimensional arrays of unbounded integers.
- Hitchhikers.HHXORPlus.constructor: parameters that fail its checks; HHXORPlus.Make, which makes the checks, gives null where the code leaves an object that cannot be used.
- StripeRepairs.RepairClay: a failed node with several blocks of one stripe, and the plan for the layered decoder's DAG, which also computes sub-chunks of nodes that are not lost.
- StripeRepairs.RepairHitchhiker: a failed node with several blocks of one stripe.
- Network.Step: files are sequences of sub-packets, and a repaired block does not replace what is read during the repair.
- Programs: a read task's rounds go through its list in list order, while readRealBlock reads in the order of the offsets in the block; task lists may be in any order in what is proved.
- Clays.Clay.Decode: d below n - 1 (aloof nodes), and what the code does for several nodes that the check lets through (src/ec/Clay.cc:1724 marks that branch as unfinished); the model hands on an empty DAG there.
- Clays.Clay.DecodeLayered: lists of erased nodes that do not ascend; the code makes none.
- TaskCommands.TaskRoundTrip: names with a NUL or with more than 1020 characters, for which the code truncates or overruns its buffer.
- ColorStrings.GetColoring: strings with other characters than digits and numbers beyond int, for which std::stoi throws.
- Compile: the order of entries inside task lists, which the runtime theorems do not depend on.
- Worker functions without callers (computeGroups, sendGroups, recvGroups, prepareBQ) and the encoding of Redis keys beyond their injectivity.
- DynamicSolution, Dynamic2Solution, Affinaty, RepairGroup, Bandwidth: floating-point heuristics.
- NaiveSingleSolution: the same list as the modelled search, with a mixed int and double order.
- SecSolution's outer loop, getStripeIdWithMinFlow and the batch queue: bookkeeping around the flow results.
- Butterfly and RDP codes: Clay and Hitchhiker-XOR+ are the codes modelled.
- jerasure, gf_complete, ISA-L: field laws and an inverse contract stand for them.
