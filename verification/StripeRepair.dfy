/** The repair of one stripe after a node failed, from the code to the task lists: genRepairECDAG with either code, a
    balanced colouring, genRepairTasks. */
module StripeRepairs {
  import opened ClaySpec
  import opened Clays
  import opened Compile
  import opened Computing
  import opened Dags
  import opened EndToEnd
  import opened Galois
  import opened Network
  import opened Plumb
  import opened Recolouring
  import opened Repair
  import opened RepairPipeline
  import opened Tiers
  import opened Traffic
  import CT = ClayTiers
  import E = Ecdags
  import G = GenTasks
  import H = Hitchhikers
  import HD = HitchhikerDag
  import HM = HitchhikerMany
  import HN = HitchhikerManyRounds
  import HR = HitchhikerRounds
  import HS = HitchhikerSpec
  import HT = HitchhikerTiers
  import Planes
  import Programs
  import W = WholeRepair

  // ---------------------------------------------------------------------------------------------
  // Which sub-packets are lost and which are left (src/common/Stripe.cc:38-54)

  ghost predicate OfOther(v: int, ecw: nat, lost: nat) {
    exists b: nat, z: nat :: b != lost && z < ecw && v == Flat(b, ecw, z)
  }

  /** Sub-packets of blocks below m, except those of block lost. */
  ghost predicate Rest(from: seq<int>, m: nat, ecw: nat, lost: nat) {
    && (forall j | 0 <= j < |from| :: OfOther(from[j], ecw, lost))
    && (forall b: nat, z: nat | b < m && b != lost && z < ecw :: Flat(b, ecw, z) in from)
  }

  method BlockPackets(b: nat, ecw: nat) returns (ids: seq<int>)
    ensures ids == CT.SubPacketsOf(b, ecw)
  {
    ids := [];
    for offset := 0 to ecw
      invariant |ids| == offset && forall z | 0 <= z < offset :: ids[z] == Flat(b, ecw, z)
    {
      ids := ids + [b * ecw + offset];
    }
  }

  /** The blocks below m that are on a node, or those that are not, in order. */
  ghost function BlocksOn(nodelist: seq<int>, node: int, on: bool, m: nat): (r: seq<nat>)
    requires m <= |nodelist|
    ensures forall i | 0 <= i < |r| :: r[i] < m
  {
    if m == 0 then [] else BlocksOn(nodelist, node, on, m - 1) + if (nodelist[m - 1] == node) == on then [m - 1] else []
  }

  /** Exactly those, in ascending order. */
  lemma {:induction false} BlocksAre(nodelist: seq<int>, node: int, on: bool, m: nat)
    requires m <= |nodelist|
    ensures var r := BlocksOn(nodelist, node, on, m);
            && (forall b: nat :: b in r <==> b < m && (nodelist[b] == node) == on)
            && (forall i, j | 0 <= i < j < |r| :: r[i] < r[j])
  {
    if m > 0 { BlocksAre(nodelist, node, on, m - 1); }
  }

  /** The sub-packets of some blocks, block after block. */
  ghost function Packets(blocks: seq<nat>, ecw: nat): seq<int> {
    if blocks == [] then [] else Packets(blocks[..|blocks| - 1], ecw) + CT.SubPacketsOf(blocks[|blocks| - 1], ecw)
  }

  /** Sub-packet z of the i-th of the blocks. */
  lemma {:induction false} PacketsPlaces(blocks: seq<nat>, ecw: nat, i: nat, z: nat)
    ensures |Packets(blocks, ecw)| == Flat(|blocks|, ecw, 0)
    ensures i < |blocks| && z < ecw ==> Flat(i, ecw, z) < |Packets(blocks, ecw)| && Packets(blocks, ecw)[Flat(i, ecw, z)] == Flat(blocks[i], ecw, z)
  {
    FlatSteps(|blocks|, ecw, z);
    if blocks != [] {
      var n := |blocks| - 1;
      PacketsPlaces(blocks[..n], ecw, i, z);
      FlatSteps(n, ecw, z);
    }
  }

  lemma BlocksNext(nodelist: seq<int>, node: int, on: bool, m: nat, ecw: nat)
    requires m < |nodelist|
    ensures var bs := BlocksOn(nodelist, node, on, m);
            if (nodelist[m] == node) == on
            then BlocksOn(nodelist, node, on, m + 1) == bs + [m] && Packets(bs + [m], ecw) == Packets(bs, ecw) + CT.SubPacketsOf(m, ecw)
            else BlocksOn(nodelist, node, on, m + 1) == bs
  {
    var bs := BlocksOn(nodelist, node, on, m);
    assert (bs + [m])[..|bs|] == bs;
  }

  /** However many blocks of the stripe the failed node has. */
  method SplitBlocks(nodelist: seq<int>, fail_node_id: int, ecw: nat) returns (from: seq<int>, to: seq<int>, fail_blk_idx: nat)
    ensures to == Packets(BlocksOn(nodelist, fail_node_id, true, |nodelist|), ecw)
    ensures from == Packets(BlocksOn(nodelist, fail_node_id, false, |nodelist|), ecw)
    ensures var lost := BlocksOn(nodelist, fail_node_id, true, |nodelist|); lost != [] ==> fail_blk_idx == lost[|lost| - 1]
  {
    hide BlocksOn, Packets, CT.SubPacketsOf;
    from, to, fail_blk_idx := [], [], 0;
    NoBlocks(nodelist, fail_node_id, ecw);
    for blkidx := 0 to |nodelist|
      invariant to == Packets(BlocksOn(nodelist, fail_node_id, true, blkidx), ecw)
      invariant from == Packets(BlocksOn(nodelist, fail_node_id, false, blkidx), ecw)
      invariant var lost := BlocksOn(nodelist, fail_node_id, true, blkidx); lost != [] ==> fail_blk_idx == lost[|lost| - 1]
    {
      BlocksNext(nodelist, fail_node_id, true, blkidx, ecw);
      BlocksNext(nodelist, fail_node_id, false, blkidx, ecw);
      var ids := BlockPackets(blkidx, ecw);
      if nodelist[blkidx] == fail_node_id {
        to := to + ids;
        fail_blk_idx := blkidx;
      } else {
        from := from + ids;
      }
    }
  }

  /** With a single block on the failed node, the lost sub-packets are that block's, and all others are left. */
  lemma {:induction false} OneBlockLost(nodelist: seq<int>, fail_node_id: int, ecw: nat, lost: nat, m: nat)
    requires m <= |nodelist| && lost < |nodelist| && forall b | 0 <= b < |nodelist| :: nodelist[b] == fail_node_id <==> b == lost
    ensures BlocksOn(nodelist, fail_node_id, true, m) == if m <= lost then [] else [lost]
    ensures m > lost ==> Packets(BlocksOn(nodelist, fail_node_id, true, m), ecw) == CT.SubPacketsOf(lost, ecw)
    ensures var from := Packets(BlocksOn(nodelist, fail_node_id, false, m), ecw); Rest(from, m, ecw, lost) && (ecw == 2 ==> |from| % 2 == 0)
  {
    hide Rest, BlocksOn, Packets, CT.SubPacketsOf;
    if m == 0 {
      NoBlocks(nodelist, fail_node_id, ecw);
      NothingLeft(ecw, lost);
    } else {
      OneBlockLost(nodelist, fail_node_id, ecw, lost, m - 1);
      BlocksNext(nodelist, fail_node_id, true, m - 1, ecw);
      BlocksNext(nodelist, fail_node_id, false, m - 1, ecw);
      var from := Packets(BlocksOn(nodelist, fail_node_id, false, m - 1), ecw);
      if m - 1 == lost {
        NoBlocks(nodelist, fail_node_id, ecw);
        assert [] + [lost] == [lost];
        RestSkips(from, m - 1, ecw, lost);
      } else {
        RestNext(from, CT.SubPacketsOf(m - 1, ecw), m - 1, ecw, lost);
      }
    }
  }

  lemma NoBlocks(nodelist: seq<int>, node: int, ecw: nat)
    ensures BlocksOn(nodelist, node, true, 0) == BlocksOn(nodelist, node, false, 0) == [] && Packets([], ecw) == []
  {}

  lemma NothingLeft(ecw: nat, lost: nat)
    ensures Rest([], 0, ecw, lost)
  {}

  lemma RestSkips(from: seq<int>, b: nat, ecw: nat, lost: nat)
    requires Rest(from, b, ecw, lost) && b == lost
    ensures Rest(from, b + 1, ecw, lost)
  {
    hide Flat;
  }

  lemma RestNext(from: seq<int>, ids: seq<int>, b: nat, ecw: nat, lost: nat)
    requires Rest(from, b, ecw, lost) && b != lost && ids == CT.SubPacketsOf(b, ecw)
    ensures Rest(from + ids, b + 1, ecw, lost)
  {
    hide Flat;
    var from' := from + ids;
    forall j | 0 <= j < |from'| ensures OfOther(from'[j], ecw, lost) {
      if j >= |from| { assert from'[j] == Flat(b, ecw, j - |from|); } else { assert from'[j] == from[j]; }
    }
    forall c: nat, z: nat | c < b + 1 && c != lost && z < ecw ensures Flat(c, ecw, z) in from' {
      if c == b { assert from'[|from| + z] == Flat(b, ecw, z); }
    }
  }

  // ---------------------------------------------------------------------------------------------
  // The surroundings of a repair

  /** A failed node and where the repair happens: the nodes of the stripe's blocks and their names, the node that the
      lost block is put on, the nodes that stand in for others, and the cluster's table. */
  datatype Failure = Failure(nodelist: seq<int>, fail_node_id: int, newNode: int, blklist: seq<string>, fail2repair: map<int, int>, loadTable: LoadTable)

  /** One block of the stripe per node, the failed node's among them, in a cluster with room for the traffic. */
  ghost predicate Surroundings(x: Failure, lost: nat) {
    && lost < |x.nodelist| && (forall b | 0 <= b < |x.nodelist| :: x.nodelist[b] == x.fail_node_id <==> b == lost)
    && Nodes(x.nodelist, x.newNode, |x.loadTable|) && Light(x.loadTable) && RealNodes(x.fail2repair)
    && |x.nodelist| <= |x.blklist| && (forall b | 0 <= b < |x.nodelist| :: x.blklist[b] != Programs.ZERO)
  }

  /** What the repair comes to: task lists that deliver a deployable plan for the sub-packets to of the code's DAG, which
      reads every block where it is stored, puts the lost one on the new node, and is coloured as the greedy choice has
      it; the cluster's table has the traffic of it. */
  ghost predicate Planned<F>(x: Failure, lost: nat, taskmap: G.TaskLists<F>, loadTable': LoadTable, p: Plan<F>, tasks: TaskMap<F>, col0: Coloring,
                             decoded: Dag<F>, to: seq<int>, w: nat)
  {
    && PlanOf(p, decoded, to) && Deployable(p) && Compiled(p, tasks) && G.Delivers(taskmap, tasks)
    && p.ecn == |x.nodelist| <= |x.blklist| && p.ecw == w && p.blklist == x.blklist && lost < p.ecn && p.repaired == x.blklist[lost]
    && InPlace(p, x.nodelist, x.newNode, x.fail2repair) && Chosen(p, col0, x.fail2repair, x.loadTable, loadTable')
  }

  // ---------------------------------------------------------------------------------------------
  // Clay

  /** The repair of a Clay stripe, wherever the single-node repair is taken. */
  method RepairClay<F(!new)>(c: Clay<F>, x: Failure, minusOne: F, ghost lost: nat)
    returns (repaired: bool, taskmap: G.TaskLists<F>, loadTable': LoadTable, ghost p: Plan<F>, ghost tasks: TaskMap<F>, ghost col0: Coloring,
             ghost decoded: Dag<F>)
    requires c.Ready() && |x.nodelist| == c.p.n && 2 * Half(c.p, false) <= E.REQUESTOR && Surroundings(x, lost)
    ensures repaired <==> c.p.nu <= c.p.k || c.p.q <= c.ShortNode(lost)
    ensures repaired ==> CT.RepairDag(c, Repairing(c.ShortNode(lost)), decoded)
    ensures repaired ==> Planned(x, lost, taskmap, loadTable', p, tasks, col0, decoded, CT.SubPacketsOf(lost, c.p.w), c.p.w)
    ensures !repaired ==> taskmap == map[] && loadTable' == x.loadTable
  {
    hide *;
    SurroundingsAre(x, lost);
    ClayWidth(c);
    var from, to, fail_blk_idx := SplitBlocks(x.nodelist, x.fail_node_id, c.p.w);
    OneBlockLost(x.nodelist, x.fail_node_id, c.p.w, lost, |x.nodelist|);
    loadTable', taskmap := x.loadTable, map[];
    p, tasks, decoded, col0 := Plan(map[], map[], map[], 0, 0, 0, 0, [], ""), map[], map[], map[];
    PacketsAt(to, lost, c.p.w);
    OneBlock(c, to, lost);
    var dag;
    ghost var erased;
    repaired, dag, erased := c.Decode(to, [lost]);
    if repaired {
      decoded := dag.nodes;
      ClayDag(c, lost, dag);
      CT.ClaySuits(c, decoded, lost, E.REQUESTOR);
      HeadRepair(dag, to, minusOne);
      taskmap, loadTable', p, tasks, col0 :=
        CompileRepair(dag, decoded, to, x.nodelist, c.p.w, x.newNode, x.loadTable, x.blklist, fail_blk_idx, x.fail2repair);
      PlannedIs(x, lost, taskmap, loadTable', p, tasks, col0, decoded, to, c.p.w);
    }
  }

  lemma PlannedIs<F>(x: Failure, lost: nat, taskmap: G.TaskLists<F>, loadTable': LoadTable, p: Plan<F>, tasks: TaskMap<F>, col0: Coloring,
                     decoded: Dag<F>, to: seq<int>, w: nat)
    requires PlanOf(p, decoded, to) && Deployable(p) && Compiled(p, tasks) && G.Delivers(taskmap, tasks)
    requires p.ecn == |x.nodelist| <= |x.blklist| && p.ecw == w && p.blklist == x.blklist && lost < p.ecn && p.repaired == x.blklist[lost]
    requires InPlace(p, x.nodelist, x.newNode, x.fail2repair) && Chosen(p, col0, x.fail2repair, x.loadTable, loadTable')
    ensures Planned(x, lost, taskmap, loadTable', p, tasks, col0, decoded, to, w)
  {
    hide Deployable, Compiled, G.Delivers, InPlace, Chosen, PlanOf;
  }

  lemma SurroundingsAre(x: Failure, lost: nat)
    requires Surroundings(x, lost)
    ensures lost < |x.nodelist| && forall b | 0 <= b < |x.nodelist| :: x.nodelist[b] == x.fail_node_id <==> b == lost
    ensures Nodes(x.nodelist, x.newNode, |x.loadTable|) && Light(x.loadTable) && RealNodes(x.fail2repair)
    ensures |x.nodelist| <= |x.blklist| && forall b | 0 <= b < |x.nodelist| :: x.blklist[b] != Programs.ZERO
  {}

  lemma PacketsAt(to: seq<int>, lost: nat, w: nat)
    requires to == CT.SubPacketsOf(lost, w)
    ensures |to| == w && forall j | 0 <= j < w :: to[j] == Flat(lost, w, j)
  {}

  lemma OneBlock<F(!new)>(c: Clay<F>, to: seq<int>, lost: nat)
    requires c.Ready() && lost < c.p.n && |to| == c.p.w && forall j | 0 <= j < c.p.w :: to[j] == Flat(lost, c.p.w, j)
    ensures c.Wanted([lost]) && c.SubPackets(to, [lost])
  {
    hide Field, Inverts, MapsRight, IdenticalRight;
    FitsFacts(c.p);
  }

  lemma ClayWidth<F(!new)>(c: Clay<F>)
    requires c.Ready()
    ensures 0 < c.p.w
  {
    hide Field, Inverts, MapsRight, IdenticalRight;
    FitsFacts(c.p);
  }

  lemma ClayDag<F(!new)>(c: Clay<F>, lost: nat, dag: E.ECDAG<F>)
    requires c.Ready() && lost < c.p.n && ModeFits(c.p, Repairing(c.ShortNode(lost))) && c.Built(dag, Repairing(c.ShortNode(lost)))
    ensures dag.Valid() && CT.RepairDag(c, Repairing(c.ShortNode(lost)), dag.nodes)
  {
    hide Field, Inverts, c.Holds;
  }

  // ---------------------------------------------------------------------------------------------
  // Hitchhiker-XOR+

  /** The repair of a Hitchhiker-XOR+ stripe that lost any block. */
  method RepairHitchhiker<F(!new)>(c: H.HHXORPlus<F>, x: Failure, minusOne: F, ghost lost: nat)
    returns (taskmap: G.TaskLists<F>, loadTable': LoadTable, ghost p: Plan<F>, ghost tasks: TaskMap<F>, ghost col0: Coloring,
             ghost decoded: Dag<F>, ghost ops: seq<HS.Combination<F>>)
    requires c.BaseCode() && |x.nodelist| == c.p.n && c.p.Size() <= E.REQUESTOR && Surroundings(x, lost)
    ensures lost < c.p.n && HT.RepairDag(c, decoded, lost, ops)
    ensures Planned(x, lost, taskmap, loadTable', p, tasks, col0, decoded, CT.SubPacketsOf(lost, 2), 2)
  {
    hide *;
    SurroundingsAre(x, lost);
    var from, to, fail_blk_idx := SplitBlocks(x.nodelist, x.fail_node_id, 2);
    OneBlockLost(x.nodelist, x.fail_node_id, 2, lost, |x.nodelist|);
    BaseIsReady(c);
    LostFirst(c, to, lost);
    CanDecode(c, from, to, lost);
    var dag;
    dag, ops := c.Decode(from, to, lost);
    decoded := dag.nodes;
    NodeRepaired(c, from, to, lost, ops);
    HitchhikerBuilt(c, lost, dag, ops);
    HT.HitchhikerSuits(c, decoded, lost, ops, E.REQUESTOR);
    HeadRepair(dag, to, minusOne);
    taskmap, loadTable', p, tasks, col0 :=
      CompileRepair(dag, decoded, to, x.nodelist, 2, x.newNode, x.loadTable, x.blklist, fail_blk_idx, x.fail2repair);
    PlannedIs(x, lost, taskmap, loadTable', p, tasks, col0, decoded, to, 2);
  }

  lemma BaseIsReady<F(!new)>(c: H.HHXORPlus<F>)
    requires c.BaseCode() && c.p.Size() <= E.REQUESTOR
    ensures c.Ready() && HT.SymbolsBelow(c.symbols, E.REQUESTOR)
    ensures |c.layout| == 2 && |c.layout[0]| == |c.layout[1]| == c.p.n
  {
    hide Field, H.MatrixRight, H.GroupsRight, H.CodesRight, H.SymbolAt, H.VirtualAt;
    forall i | 0 <= i < |c.symbols| ensures 0 <= c.symbols[i] < E.REQUESTOR {
      SymbolBelow(c, i);
    }
  }

  lemma SymbolBelow<F(!new)>(c: H.HHXORPlus<F>, i: nat)
    requires c.BaseCode() && i < |c.symbols|
    ensures 0 <= c.symbols[i] < c.p.Size()
  {
    hide Field, H.MatrixRight, H.GroupsRight, H.CodesRight;
    var n := c.p.n;
    if i < n {
      assert c.layout[0][i] == c.symbols[HS.DataAt(c.p, 0, i)];
    } else if i < 2 * n {
      assert c.layout[1][i - n] == c.symbols[HS.DataAt(c.p, 1, i - n)];
    }
  }

  lemma PacketNode(b: nat, z: nat, node: nat)
    requires z < 2 && (H.SymbolAt(1, 0, node, 0) == Flat(b, 2, z) || H.SymbolAt(1, 0, node, 1) == Flat(b, 2, z))
    ensures node == b
  {}

  lemma NodePacket(node: nat)
    ensures H.SymbolAt(1, 0, node, 0) == Flat(node, 2, 0) && H.SymbolAt(1, 0, node, 1) == Flat(node, 2, 1)
  {}

  lemma SurvivorsLeft<F(!new)>(c: H.HHXORPlus<F>, from: seq<int>, lost: nat)
    requires c.BaseCode() && lost < c.p.k && Rest(from, c.p.n, 2, lost)
    requires |c.layout| == 2 && |c.layout[0]| == |c.layout[1]| == c.p.n
    ensures c.Survive(from, lost)
  {
    hide Field, H.MatrixRight, H.GroupsRight, H.CodesRight, H.LayoutsRight, H.SymbolAt, Flat;
    forall j, node: nat | 0 <= j < |from| && node < c.p.n && c.Holds(node, from[j]) ensures node != lost {
      assert OfOther(from[j], 2, lost);
      var b: nat, z: nat :| b != lost && z < 2 && from[j] == Flat(b, 2, z);
      assert c.layout[0][node] == H.SymbolAt(1, 0, node, 0) && c.layout[1][node] == H.SymbolAt(1, 0, node, 1);
      PacketNode(b, z, node);
    }
    forall node: nat | node < c.p.k && node != lost ensures c.Alive(from, |from|, node) {
      assert Flat(node, 2, 0) in from;
      var j :| 0 <= j < |from| && from[j] == Flat(node, 2, 0);
      NodePacket(node);
      assert c.layout[0][node] == H.SymbolAt(1, 0, node, 0);
      assert c.Holds(node, from[j]);
    }
  }

  lemma LostFirst<F(!new)>(c: H.HHXORPlus<F>, to: seq<int>, lost: nat)
    requires c.BaseCode() && lost < c.p.n && to == CT.SubPacketsOf(lost, 2)
    requires |c.layout| == 2 && |c.layout[0]| == |c.layout[1]| == c.p.n
    ensures |to| == 2 && c.Holds(lost, to[0]) && to == HT.BothLost(c, lost)
  {
    hide Field, H.MatrixRight, H.GroupsRight, H.CodesRight, H.SymbolAt, Flat;
    NodePacket(lost);
    assert c.layout[0][lost] == c.symbols[HS.DataAt(c.p, 0, lost)] && c.layout[1][lost] == c.symbols[HS.DataAt(c.p, 1, lost)];
  }

  lemma HitchhikerBuilt<F(!new)>(c: H.HHXORPlus<F>, lost: nat, dag: E.ECDAG<F>, ops: seq<HS.Combination<F>>)
    requires c.Ready() && lost < c.p.n && HM.NodeOps(c.p, c.solver, c.f, lost, ops) && c.Building(dag, ops)
    ensures dag.Valid() && HT.RepairDag(c, dag.nodes, lost, ops)
  {
    hide Field, H.MatrixRight, H.GroupsRight, H.CodesRight, H.LayoutsRight, HM.NodeOps;
  }

  /** The stripe without the lost block is enough for Decode. */
  lemma CanDecode<F(!new)>(c: H.HHXORPlus<F>, from: seq<int>, to: seq<int>, lost: nat)
    requires c.BaseCode() && lost < c.p.n && Rest(from, c.p.n, 2, lost) && to == CT.SubPacketsOf(lost, 2)
    requires |c.layout| == 2 && |c.layout[0]| == |c.layout[1]| == c.p.n && |to| == 2 && c.Holds(lost, to[0])
    ensures c.OneLost(to) && c.CanRepairOne(from, to, lost)
  {
    hide Field, H.MatrixRight, H.GroupsRight, H.CodesRight, H.LayoutsRight, H.SymbolAt, Flat, Rest, HM.Solvable, Galois.Invertible;
    if lost < c.p.k {
      SurvivorsLeft(c, from, lost);
    } else {
      ParityLeft(c, from, to, lost);
      HN.ParityInverted(c.p, c.f, c.solver, lost);
    }
  }

  lemma NodeRepaired<F(!new)>(c: H.HHXORPlus<F>, from: seq<int>, to: seq<int>, lost: nat, ops: seq<HS.Combination<F>>)
    requires c.BaseCode() && lost < c.p.n && Rest(from, c.p.n, 2, lost) && to == CT.SubPacketsOf(lost, 2)
    requires |c.layout| == 2 && |c.layout[0]| == |c.layout[1]| == c.p.n && c.RepairsOne(from, to, lost, ops)
    ensures HM.NodeOps(c.p, c.solver, c.f, lost, ops)
  {
    hide Field, H.MatrixRight, H.GroupsRight, H.CodesRight, H.LayoutsRight, H.SymbolAt, Flat, Rest, HM.Solvable, HM.IsMany, HD.Invertibles, HD.IsRepair;
    if lost >= c.p.k {
      ParityLeft(c, from, to, lost);
    }
  }

  /** Of which nodes there are symbols. */
  lemma WhichAlive<F(!new)>(c: H.HHXORPlus<F>, from: seq<int>, to: seq<int>, lost: nat, node: nat)
    requires c.BaseCode() && lost < c.p.n && Rest(from, c.p.n, 2, lost) && to == CT.SubPacketsOf(lost, 2) && node < c.p.n
    requires |c.layout| == 2 && |c.layout[0]| == |c.layout[1]| == c.p.n
    ensures c.Alive(from, |from|, node) <==> node != lost
    ensures c.Alive(to, |to|, node) <==> node == lost
  {
    hide Field, H.MatrixRight, H.GroupsRight, H.CodesRight, H.LayoutsRight, H.SymbolAt, Flat;
    assert c.layout[0][node] == H.SymbolAt(1, 0, node, 0) && c.layout[1][node] == H.SymbolAt(1, 0, node, 1);
    NodePacket(node);
    NotAlive(c, from, to, lost, node);
    if node != lost {
      assert Flat(node, 2, 0) in from;
      var j :| 0 <= j < |from| && from[j] == Flat(node, 2, 0);
      assert c.Holds(node, from[j]);
    } else {
      assert to[0] == Flat(lost, 2, 0);
      assert c.Holds(node, to[0]);
    }
  }

  lemma NotAlive<F(!new)>(c: H.HHXORPlus<F>, from: seq<int>, to: seq<int>, lost: nat, node: nat)
    requires c.BaseCode() && lost < c.p.n && Rest(from, c.p.n, 2, lost) && to == CT.SubPacketsOf(lost, 2) && node < c.p.n
    requires |c.layout| == 2 && |c.layout[0]| == |c.layout[1]| == c.p.n
    ensures c.Alive(from, |from|, node) ==> node != lost
    ensures c.Alive(to, |to|, node) ==> node == lost
  {
    hide Field, H.MatrixRight, H.GroupsRight, H.CodesRight, H.LayoutsRight, H.SymbolAt, Flat;
    assert c.layout[0][node] == H.SymbolAt(1, 0, node, 0) && c.layout[1][node] == H.SymbolAt(1, 0, node, 1);
    if c.Alive(from, |from|, node) {
      var j :| 0 <= j < |from| && c.Holds(node, from[j]);
      assert OfOther(from[j], 2, lost);
      var b: nat, z: nat :| b != lost && z < 2 && from[j] == Flat(b, 2, z);
      PacketNode(b, z, node);
    }
    if c.Alive(to, |to|, node) {
      var j :| 0 <= j < |to| && c.Holds(node, to[j]);
      PacketNode(lost, j, node);
    }
  }

  lemma {:induction false} AllWith<F(!new)>(c: H.HHXORPlus<F>, syms: seq<int>, b: nat)
    requires |c.layout| == 2 && |c.layout[0]| == |c.layout[1]| == c.p.n && b <= c.p.n && forall node: nat | node < b :: c.Alive(syms, |syms|, node)
    ensures c.NodesWith(syms, 0, b) == HS.Upto(b)
  {
    hide c.Alive;
    if b > 0 { AllWith(c, syms, b - 1); }
  }

  lemma {:induction false} OneWith<F(!new)>(c: H.HHXORPlus<F>, syms: seq<int>, lost: nat, b: nat)
    requires |c.layout| == 2 && |c.layout[0]| == |c.layout[1]| == c.p.n && b <= c.p.n
    requires forall node: nat | node < b :: c.Alive(syms, |syms|, node) <==> node == lost
    ensures c.NodesWith(syms, 0, b) == if lost < b then [lost] else []
  {
    hide c.Alive;
    if b > 0 { OneWith(c, syms, lost, b - 1); }
  }

  /** For a lost parity node all data nodes are there. */
  lemma ParityLeft<F(!new)>(c: H.HHXORPlus<F>, from: seq<int>, to: seq<int>, lost: nat)
    requires c.BaseCode() && c.p.k <= lost < c.p.n && Rest(from, c.p.n, 2, lost) && to == CT.SubPacketsOf(lost, 2)
    requires |c.layout| == 2 && |c.layout[0]| == |c.layout[1]| == c.p.n
    ensures c.LossOf(from, to) == HM.ParityLoss(c.p, lost) && c.CanRepair(from, to)
  {
    hide Field, H.MatrixRight, H.GroupsRight, H.CodesRight, H.LayoutsRight, H.SymbolAt, Flat, Rest, c.Alive, c.Holds, c.NodesWith;
    forall node: nat | node < c.p.n
      ensures (c.Alive(from, |from|, node) <==> node != lost) && (c.Alive(to, |to|, node) <==> node == lost)
    {
      WhichAlive(c, from, to, lost, node);
    }
    AllWith(c, from, c.p.k);
    OneWith(c, to, lost, c.p.n);
    c.NodesJoin(from, c.p.k, c.p.n);
    LostHolds(c, to, lost);
    assert c.NodesWith(from, c.p.k, c.p.n)[..0] == [];
    forall j | 0 <= j < |to| ensures c.OfSomeNode(to[j]) {
      assert c.Holds(lost, to[j]);
    }
  }

  lemma LostHolds<F(!new)>(c: H.HHXORPlus<F>, to: seq<int>, lost: nat)
    requires c.BaseCode() && lost < c.p.n && to == CT.SubPacketsOf(lost, 2)
    requires |c.layout| == 2 && |c.layout[0]| == |c.layout[1]| == c.p.n
    ensures forall j | 0 <= j < |to| :: c.Holds(lost, to[j])
  {
    hide Field, H.MatrixRight, H.GroupsRight, H.CodesRight, H.LayoutsRight, H.SymbolAt, Flat;
    assert c.layout[0][lost] == H.SymbolAt(1, 0, lost, 0) && c.layout[1][lost] == H.SymbolAt(1, 0, lost, 1);
    NodePacket(lost);
    forall j | 0 <= j < |to| ensures c.Holds(lost, to[j]) {}
  }

  // ---------------------------------------------------------------------------------------------
  // What the agents make of it

  /** Where block b is stored. */
  function FileOf(x: Failure, b: nat): File
    requires b < |x.nodelist| <= |x.blklist|
  {
    File(StandIn(x.fail2repair, x.nodelist[b]), x.blklist[b])
  }

  /** Every block but the lost one is stored in its file, packet by packet, and nothing is said about any other file. */
  ghost predicate BlocksStored<F>(x: Failure, lost: nat, w: nat, net: Cluster<F, Thread, F>, stripes: nat -> (int -> F))
    requires |x.nodelist| <= |x.blklist|
  {
    forall b: nat, z: nat, r: nat | b < |x.nodelist| && b != lost && z < w ::
      net.data(FileOf(x, b), PlaceIn(w, r, Flat(b, w, z))) == stripes(r)(Flat(b, w, z))
  }

  /** Shortened blocks are zero. */
  ghost predicate ShortenedZero<F(!new)>(f: GF<F>, decoded: Dag<F>, n: nat, w: nat, stripes: nat -> (int -> F))
    requires 0 < w
  {
    forall v, r: nat | v in decoded && decoded[v].kind.Leaf? && v / w >= n :: stripes(r)(v) == f.zero
  }

  /** The agents run the tasks on the stored blocks of the stripes, packet by packet. */
  ghost predicate OnAgents<F(!new)>(f: GF<F>, x: Failure, lost: nat, w: nat, decoded: Dag<F>, p: Plan<F>, tasks: TaskMap<F>,
                                    net: Cluster<F, Thread, F>, stripes: nat -> (int -> F))
  {
    && 0 < w == net.width && |x.nodelist| <= |x.blklist| && Runs(net, p, tasks) && FieldPackets(f, net.pk)
    && BlocksStored(x, lost, w, net, stripes) && ShortenedZero(f, decoded, |x.nodelist|, w, stripes)
  }

  /** The lost block is in the new node's file, packet by packet, and no other file was written. */
  ghost predicate Rebuilt<F>(disk: map<File, seq<F>>, x: Failure, lost: nat, w: nat, pktnum: nat, stripes: nat -> (int -> F))
    requires lost < |x.blklist|
  {
    var file := Programs.RepairFile(StandIn(x.fail2repair, x.newNode), x.blklist[lost]);
    var xs := Contents(disk, file);
    && (forall f | f in disk :: f == file) && |xs| == Flat(pktnum, w, 0)
    && forall r: nat, z: nat | r < pktnum && z < w :: Back(xs, lost, w, stripes, r, z)
  }

  /** Sub-packet z of packet r is in its place in the file. */
  ghost predicate Back<F>(xs: seq<F>, lost: nat, w: nat, stripes: nat -> (int -> F), r: nat, z: nat) {
    PlaceIn(w, r, Flat(lost, w, z)) < |xs| && xs[PlaceIn(w, r, Flat(lost, w, z))] == stripes(r)(Flat(lost, w, z))
  }

  /** What is true of a run at any point: it can be brought to its end, which comes after TotalWork steps, and then the
      lost block of the stripes is there again. */
  ghost predicate BringsBack<F>(x: Failure, lost: nat, w: nat, net: Cluster<F, Thread, F>, stripes: nat -> (int -> F), sched: seq<Thread>,
                                s: State<Thread, F>)
    requires lost < |x.blklist|
  {
    && CanComplete(net, sched) && Network.Fits(net, s) && (Finished(net, s) <==> |sched| == TotalWork(net))
    && (Finished(net, s) ==> Rebuilt(s.disk, x, lost, w, net.pktnum, stripes))
  }

  lemma PlannedParts<F(!new)>(f: GF<F>, x: Failure, lost: nat, taskmap: G.TaskLists<F>, loadTable': LoadTable, p: Plan<F>, tasks: TaskMap<F>,
                              col0: Coloring, decoded: Dag<F>, to: seq<int>, w: nat, net: Cluster<F, Thread, F>, stripes: nat -> (int -> F))
    requires Planned(x, lost, taskmap, loadTable', p, tasks, col0, decoded, to, w) && OnAgents(f, x, lost, w, decoded, p, tasks, net, stripes)
    ensures Deployed(f, p, decoded, to, tasks, net) && lost < |x.nodelist| <= |x.blklist| && HeaderFile(p) == Programs.RepairFile(StandIn(x.fail2repair, x.newNode), x.blklist[lost])
  {
    hide Compiled, Runs, FieldPackets, ZeroesClosed, OneLevelPerColor, G.Delivers, WellFormed, BlocksStored, ShortenedZero, Chosen;
  }

  /** The plan reads what is stored. */
  lemma ReadsStored<F(!new)>(f: GF<F>, x: Failure, lost: nat, taskmap: G.TaskLists<F>, loadTable': LoadTable, p: Plan<F>, tasks: TaskMap<F>,
                             col0: Coloring, decoded: Dag<F>, to: seq<int>, w: nat, limit: int, net: Cluster<F, Thread, F>, stripes: nat -> (int -> F))
    requires Planned(x, lost, taskmap, loadTable', p, tasks, col0, decoded, to, w) && OnAgents(f, x, lost, w, decoded, p, tasks, net, stripes)
    requires Suits(decoded, to, limit) && to == CT.SubPacketsOf(lost, w)
    ensures WellFormed(p) && Stores(p, f, net, stripes)
  {
    hide Compiled, Runs, FieldPackets, ZeroesClosed, OneLevelPerColor, G.Delivers, Chosen, Used, Unread, Tiered, SimpleEdges, Flat, WellFormed, PlaceIn,
         CT.SubPacketsOf, InPlace;
    forall v, r: nat | v in p.g && p.g[v].children == []
      ensures stripes(r)(v) == if IsStored(p, v) then net.data(BlockFile(p, v), PlaceIn(net.width, r, v)) else f.zero
    {
      assert v != p.header && v in decoded && decoded[v].kind.Leaf?;
      if IsStored(p, v) {
        LeafStored(x, lost, taskmap, loadTable', p, tasks, col0, decoded, to, w, limit, v);
        var b, z := v / w, v % w;
        assert net.data(FileOf(x, b), PlaceIn(w, r, Flat(b, w, z))) == stripes(r)(Flat(b, w, z));
      }
    }
  }

  lemma LeafStored<F>(x: Failure, lost: nat, taskmap: G.TaskLists<F>, loadTable': LoadTable, p: Plan<F>, tasks: TaskMap<F>, col0: Coloring,
                      decoded: Dag<F>, to: seq<int>, w: nat, limit: int, v: int)
    requires Planned(x, lost, taskmap, loadTable', p, tasks, col0, decoded, to, w) && Suits(decoded, to, limit) && to == CT.SubPacketsOf(lost, w)
    requires 0 < w && v in p.g && IsStored(p, v)
    ensures 0 <= v / w < |x.nodelist| && 0 <= v % w < w && v == Flat(v / w, w, v % w) && v / w != lost && BlockFile(p, v) == FileOf(x, v / w)
  {
    hide Compiled, ZeroesClosed, OneLevelPerColor, G.Delivers, Chosen, Used, Unread, Tiered, SimpleEdges, WellFormed, Flat;
    StoredBlock(p, v);
    IndexParts(v, w);
    ListedIf(lost, w, v);
    LeafUnlisted(decoded, to, limit, v);
  }

  lemma ListedIf(lost: nat, w: nat, v: int)
    requires 0 < w
    ensures v / w == lost ==> v in CT.SubPacketsOf(lost, w)
  {
    hide Flat, CT.SubPacketsOf;
    IndexParts(v, w);
    if v / w == lost { CT.ListedSub(lost, w, v % w); }
  }

  lemma LeafUnlisted<F>(decoded: Dag<F>, to: seq<int>, limit: int, v: int)
    requires Suits(decoded, to, limit) && v in decoded && decoded[v].kind.Leaf?
    ensures v !in to
  {
    hide Used, Unread, Tiered, SimpleEdges;
    forall i | 0 <= i < |to| ensures to[i] != v {}
  }

  lemma IndexParts(v: int, w: nat)
    requires 0 < w
    ensures 0 <= v % w < w && v == Flat(v / w, w, v % w)
  {}

  lemma {:induction false} OriginalAt<F>(stripes: nat -> (int -> F), vs: seq<int>, packets: nat, r: nat, z: nat)
    ensures |Original(stripes, vs, packets)| == Flat(packets, |vs|, 0)
    ensures r < packets && z < |vs| ==> Flat(r, |vs|, z) < |Original(stripes, vs, packets)| && Original(stripes, vs, packets)[Flat(r, |vs|, z)] == stripes(r)(vs[z])
  {
    FlatSteps(packets, |vs|, z);
    if packets > 0 {
      OriginalAt(stripes, vs, packets - 1, r, z);
      FlatSteps(packets - 1, |vs|, z);
    }
  }

  lemma FlatSteps(r: nat, w: nat, z: nat)
    ensures Flat(r, w, z) == Flat(r, w, 0) + z && Flat(r, w, 0) >= 0 && Flat(0, w, 0) == 0 && (r > 0 ==> Flat(r, w, 0) == Flat(r - 1, w, 0) + w)
  {}

  lemma PlaceOf(w: nat, r: nat, b: nat, z: nat)
    requires z < w
    ensures PlaceIn(w, r, Flat(b, w, z)) == Flat(r, w, z)
  {
    Planes.DivMod(b, w, z);
  }

  /** What was written is the lost block. */
  lemma WrittenIsBlock<F>(disk: map<File, seq<F>>, x: Failure, lost: nat, w: nat, pktnum: nat, stripes: nat -> (int -> F), file: File)
    requires lost < |x.blklist| && file == Programs.RepairFile(StandIn(x.fail2repair, x.newNode), x.blklist[lost])
    requires DiskIs(disk, file, Original(stripes, CT.SubPacketsOf(lost, w), pktnum))
    ensures Rebuilt(disk, x, lost, w, pktnum, stripes)
  {
    hide Flat, PlaceIn, Original, Programs.RepairFile, StandIn, CT.SubPacketsOf;
    var to := CT.SubPacketsOf(lost, w);
    var xs := Contents(disk, file);
    OriginalAt(stripes, to, pktnum, 0, 0);
    assert |to| == w && xs == Original(stripes, to, pktnum) && |xs| == Flat(pktnum, w, 0);
    forall r: nat, z: nat | r < pktnum && z < w ensures Back(xs, lost, w, stripes, r, z) {
      OriginalAt(stripes, to, pktnum, r, z);
      PlaceOf(w, r, lost, z);
    }
  }

  /** What RepairClay plans, run on the agents in any interleaving, brings the lost node of any encoded stripes back. */
  lemma ClayStripeRepaired<F(!new)>(c: Clay<F>, encoded: Dag<F>, decoded: Dag<F>, x: Failure, lost: nat, taskmap: G.TaskLists<F>,
                                    loadTable': LoadTable, p: Plan<F>, tasks: TaskMap<F>, col0: Coloring, net: Cluster<F, Thread, F>,
                                    stripes: nat -> (int -> F), sched: seq<Thread>, s: State<Thread, F>)
    requires c.Ready() && lost < c.p.n && ModeFits(c.p, Encoding) && c.Holds(encoded, Encoding) && forall r :: Computes(c.f, encoded, stripes(r))
    requires CT.RepairDag(c, Repairing(c.ShortNode(lost)), decoded)
    requires Invertible(c.f, Rows(c.f, c.p.k + c.p.nu, Others(c.p, Erased(c.p, Repairing(c.ShortNode(lost))))))
    requires Planned(x, lost, taskmap, loadTable', p, tasks, col0, decoded, CT.SubPacketsOf(lost, c.p.w), c.p.w)
    requires OnAgents(c.f, x, lost, c.p.w, decoded, p, tasks, net, stripes) && Exec(net, sched) == Some(s)
    ensures lost < |x.blklist| && BringsBack(x, lost, c.p.w, net, stripes, sched, s)
  {
    hide *;
    var to := CT.SubPacketsOf(lost, c.p.w);
    PlannedParts(c.f, x, lost, taskmap, loadTable', p, tasks, col0, decoded, to, c.p.w, net, stripes);
    CT.ClaySuits(c, decoded, lost, 2 * Half(c.p, false));
    ReadsStored(c.f, x, lost, taskmap, loadTable', p, tasks, col0, decoded, to, c.p.w, 2 * Half(c.p, false), net, stripes);
    W.ClayBlockComesBack(c, encoded, decoded, lost, p, tasks, net, stripes, sched, s);
    if Finished(net, s) { WrittenIsBlock(s.disk, x, lost, c.p.w, net.pktnum, stripes, HeaderFile(p)); }
    BringsBackIf(x, lost, c.p.w, net, stripes, sched, s);
  }

  lemma BringsBackIf<F>(x: Failure, lost: nat, w: nat, net: Cluster<F, Thread, F>, stripes: nat -> (int -> F), sched: seq<Thread>, s: State<Thread, F>)
    requires CanComplete(net, sched) && Network.Fits(net, s) && (Finished(net, s) <==> |sched| == TotalWork(net))
    requires lost < |x.blklist| && (Finished(net, s) ==> Rebuilt(s.disk, x, lost, w, net.pktnum, stripes))
    ensures BringsBack(x, lost, w, net, stripes, sched, s)
  {
    hide CanComplete, Network.Fits, Finished, TotalWork, Rebuilt;
  }

  /** What RepairHitchhiker plans brings any lost block back. */
  lemma HitchhikerStripeRepaired<F(!new)>(c: H.HHXORPlus<F>, encoded: Dag<F>, decoded: Dag<F>, x: Failure, lost: nat, ops: seq<HS.Combination<F>>,
                                          taskmap: G.TaskLists<F>, loadTable': LoadTable, p: Plan<F>, tasks: TaskMap<F>, col0: Coloring,
                                          net: Cluster<F, Thread, F>, stripes: nat -> (int -> F), sched: seq<Thread>, s: State<Thread, F>)
    requires c.BaseCode() && c.p.Size() <= E.REQUESTOR && HD.Built(encoded, c.symbols, HD.EncodeOps(c.p, c.f))
    requires forall r :: Computes(c.f, encoded, stripes(r))
    requires lost < c.p.n && HT.RepairDag(c, decoded, lost, ops)
    requires Planned(x, lost, taskmap, loadTable', p, tasks, col0, decoded, CT.SubPacketsOf(lost, 2), 2)
    requires OnAgents(c.f, x, lost, 2, decoded, p, tasks, net, stripes) && Exec(net, sched) == Some(s)
    ensures lost < |x.blklist| && BringsBack(x, lost, 2, net, stripes, sched, s)
  {
    hide *;
    BaseIsReady(c);
    var to := CT.SubPacketsOf(lost, 2);
    TwoPackets(lost);
    LostFirst(c, to, lost);
    PlannedParts(c.f, x, lost, taskmap, loadTable', p, tasks, col0, decoded, to, 2, net, stripes);
    HT.HitchhikerSuits(c, decoded, lost, ops, E.REQUESTOR);
    ReadsStored(c.f, x, lost, taskmap, loadTable', p, tasks, col0, decoded, to, 2, E.REQUESTOR, net, stripes);
    W.HitchhikerBlockComesBack(c, encoded, decoded, lost, ops, p, tasks, net, stripes, E.REQUESTOR, sched, s);
    if Finished(net, s) { WrittenIsBlock(s.disk, x, lost, 2, net.pktnum, stripes, HeaderFile(p)); }
    BringsBackIf(x, lost, 2, net, stripes, sched, s);
  }

  lemma TwoPackets(lost: nat)
    ensures |CT.SubPacketsOf(lost, 2)| == 2
  {}
}
