/** From a code's repair DAG to the task lists: colour the DAG of a stripe as genBalanceColoringForSingleFailure does
    (src/sol/BalanceSolution.cc:270-333), then compile it. */
module RepairPipeline {
  import opened Compile
  import opened Dags
  import opened EndToEnd
  import opened Plumb
  import opened Recolouring
  import opened Stripes
  import opened Tiers
  import opened Traffic
  import B = Balance
  import E = Ecdags
  import G = GenTasks
  import GB = GlobalBalance
  import Programs
  import S = Sorting

  // ---------------------------------------------------------------------------------------------
  // The traffic of a DAG with small indices fits an int

  lemma {:induction false} ImageSize<T, U>(s: set<T>, f: T -> U, image: set<U>)
    requires forall y | y in image :: exists x :: x in s && f(x) == y
    ensures |image| <= |s|
  {
    if s == {} {
      assert image == {};
    } else {
      var x :| x in s;
      ImageSize(s - {x}, f, image - {f(x)});
    }
  }

  lemma {:induction false} IndexCount(s: set<int>, n: nat)
    requires forall v | v in s :: 0 <= v < n
    ensures |s| <= n
  {
    if s != {} {
      var v := Traffic.Pick(s);
      assert v in s && 0 <= v < n;
      IndexCount(s - {n - 1}, n - 1);
    }
  }

  lemma OneSends<C>(g: Dag<C>, col: Coloring, v: int)
    requires Closed(g)
    ensures |From(Shipments(g, col), {v})| <= |g.Keys|
  {
    var f := (p: int) => Xfer(v, if v in col then col[v] else -1, if p in col then col[p] else -1);
    forall e | e in From(Shipments(g, col), {v}) ensures exists p :: p in g.Keys && f(p) == e {
      var p :| p in g[v].parents && p in col && v in col && e == Xfer(v, col[v], col[p]);
      var i :| 0 <= i < |g[v].parents| && g[v].parents[i] == p;
      assert p in g.Keys && f(p) == e;
    }
    ImageSize(g.Keys, f, From(Shipments(g, col), {v}));
  }

  lemma {:induction false} SomeSend<C>(g: Dag<C>, col: Coloring, vs: set<int>)
    requires Closed(g)
    ensures |From(Shipments(g, col), vs)| <= |vs| * |g.Keys|
  {
    hide Shipments;
    if vs == {} {
      assert From(Shipments(g, col), vs) == {};
    } else {
      var v := Traffic.Pick(vs);
      SomeSend(g, col, vs - {v});
      OneSends(g, col, v);
      FromStep(Shipments(g, col), vs - {v}, v);
      assert vs - {v} + {v} == vs;
      assert |vs| * |g.Keys| == |vs - {v}| * |g.Keys| + |g.Keys|;
    }
  }

  const MOST_SHIPMENTS := 1073741824

  lemma FewShipments<C>(g: Dag<C>, col: Coloring)
    requires Closed(g) && forall v | v in g :: 0 <= v <= E.REQUESTOR
    ensures |Shipments(g, col)| <= MOST_SHIPMENTS
  {
    IndexCount(g.Keys, 32768);
    SomeSend(g, col, g.Keys);
    assert From(Shipments(g, col), g.Keys) == Shipments(g, col);
    Square(|g.Keys|);
  }

  lemma Square(n: nat)
    requires n <= 32768
    ensures n * n <= MOST_SHIPMENTS
  {
    MoreTimes(n, 32768, n);
    MoreTimes(n, 32768, 32768);
  }

  lemma MoreTimes(a: nat, b: nat, n: nat)
    requires a <= b
    ensures a * n <= b * n
  {
    assert b * n == a * n + (b - a) * n;
  }

  /** No node has to carry so much that another stripe could make it overflow. */
  ghost predicate Light(loadTable: LoadTable) {
    forall c | 0 <= c < |loadTable| :: loadTable[c].out + MOST_SHIPMENTS < B.INT_MAX && loadTable[c].inn + MOST_SHIPMENTS < B.INT_MAX
  }

  lemma LightFits<C>(g: Dag<C>, loadTable: LoadTable, t0: set<Xfer>)
    requires Closed(g) && (forall v | v in g :: 0 <= v <= E.REQUESTOR) && Light(loadTable)
    ensures GB.NoOverflow(g, GB.Seen(loadTable, map[], map[], t0))
  {
    hide Shipments, InOf, OutOf, GB.Peak;
    var seen := GB.Seen(loadTable, map[], map[], t0);
    forall col: Coloring ensures GB.Peak(GB.Joint(seen, Shipments(g, col))) < B.INT_MAX {
      var t := Shipments(g, col);
      FewShipments(g, col);
      var joint := GB.Joint(seen, t);
      forall c | 0 <= c < |joint| ensures joint[c].out < B.INT_MAX && joint[c].inn < B.INT_MAX {
        B.CounterBounded(t, c);
        assert Get(map[], c) == 0;
      }
    }
  }

  // ---------------------------------------------------------------------------------------------
  // Colouring

  /** The node of the block that a sub-packet belongs to, -1 for a shortened one. */
  function LeafColor(place: seq<int>, ecw: nat, v: int): int
    requires 0 < ecw && 0 <= v
  {
    if v / ecw < |place| then place[v / ecw] else -1
  }

  /** A DAG under a sole header, with indices of leaves and headers told apart by their kind. */
  ghost predicate Ready<C>(dag: E.ECDAG<C>)
    reads dag
  {
    && dag.Valid() && |dag.headers| == 1 && SimpleEdges(dag.nodes)
    && forall v | v in dag.nodes :: (dag.nodes[v].kind.Leaf? <==> dag.nodes[v].children == []) && 0 <= v <= E.REQUESTOR
  }

  ghost predicate Nodes(place: seq<int>, newNode: int, n: nat) {
    0 <= newNode < n && forall b | 0 <= b < |place| :: 0 <= place[b] < n
  }

  /** Leaves have the colour of their block, the header that of the repair node, and all else takes the colour of a leaf
      below. */
  ghost predicate Balanced<C>(g: Dag<C>, rank: map<int, nat>, col: Coloring, place: seq<int>, ecw: nat, header: int, newNode: int) {
    && 0 < ecw && Colored(g, col) && Ranked(g, rank)
    && (forall v | v in g && v != header && g[v].kind.Leaf? :: 0 <= v && col[v] == LeafColor(place, ecw, v))
    && header in g && col[header] == newNode
    && (forall v | v in g && g[v].kind.Intermediate? :: B.ColoredFromBelow(g, rank, col, v))
  }

  /** src/sol/BalanceSolution.cc:298-309 */
  method ColorLeaves<C>(dag: E.ECDAG<C>, place: seq<int>, ecw: nat) returns (res: Coloring)
    requires Ready(dag) && 0 < ecw
    ensures forall v :: v in res <==> v in dag.nodes && dag.nodes[v].kind.Leaf?
    ensures forall v | v in res :: 0 <= v && res[v] == LeafColor(place, ecw, v)
  {
    hide E.Shape, SimpleEdges;
    var leaves := dag.leaves;
    res := map[];
    for i := 0 to |leaves|
      invariant forall v :: v in res <==> v in leaves[..i]
      invariant forall v | v in res :: 0 <= v && res[v] == LeafColor(place, ecw, v)
    {
      var dagidx := leaves[i];
      assert dagidx in leaves && dagidx in dag.nodes;
      assert leaves[..i + 1] == leaves[..i] + [dagidx];
      var blkidx := dagidx / ecw;
      var nodeid := -1;
      if blkidx < |place| {
        nodeid := place[blkidx];
      }
      res := res[dagidx := nodeid];
    }
    assert leaves[..|leaves|] == leaves;
  }

  /** src/sol/BalanceSolution.cc:320-329; their order does not matter. */
  method Between<C>(dag: E.ECDAG<C>) returns (itm_idx: seq<int>)
    requires dag.Valid()
    ensures forall v :: v in itm_idx <==> v in dag.nodes && dag.nodes[v].kind.Intermediate?
  {
    hide E.Shape;
    itm_idx := [];
    var todo := dag.nodes.Keys;
    while todo != {}
      invariant todo <= dag.nodes.Keys
      invariant forall v :: v in itm_idx <==> v in dag.nodes && v !in todo && dag.nodes[v].kind.Intermediate?
      decreases |todo|
    {
      var v := Choose(todo);
      S.KindsListed(dag, v);
      if v !in dag.headers && v !in dag.leaves {
        itm_idx := itm_idx + [v];
      }
      todo := todo - {v};
    }
  }

  lemma AllLight<C>(dag: E.ECDAG<C>, res: Coloring, itm_idx: seq<int>, loadTable: LoadTable)
    requires Ready(dag) && Light(loadTable)
    ensures Closed(dag.nodes)
    ensures forall col | GB.IsBlank(col, res, itm_idx) :: GB.NoOverflow(dag.nodes, GB.Seen(loadTable, map[], map[], Shipments(dag.nodes, col)))
  {
    hide Shipments, Light, GB.Seen, GB.NoOverflow, GB.IsBlank, E.Shape, E.ListsFit, SimpleEdges, Mirrored;
    S.ValidGraph(dag);
    forall col | GB.IsBlank(col, res, itm_idx) ensures GB.NoOverflow(dag.nodes, GB.Seen(loadTable, map[], map[], Shipments(dag.nodes, col))) {
      LightFits(dag.nodes, loadTable, Shipments(dag.nodes, col));
    }
  }

  /** Only leaves and the header have a colour, that of their node. */
  ghost predicate Known<C>(dag: E.ECDAG<C>, res: Coloring, place: seq<int>, ecw: nat, newNode: int)
    requires |dag.headers| == 1 && 0 < ecw
    reads dag
  {
    && (forall v :: v in res <==> (v in dag.nodes && dag.nodes[v].kind.Leaf?) || v == dag.headers[0])
    && (forall v | v in res :: if v == dag.headers[0] then res[v] == newNode else 0 <= v && res[v] == LeafColor(place, ecw, v))
  }

  /** src/sol/BalanceSolution.cc:298-329 */
  method KnownColors<C>(dag: E.ECDAG<C>, place: seq<int>, ecw: nat, newNode: int, n: nat) returns (res: Coloring, itm_idx: seq<int>)
    requires Ready(dag) && 0 < ecw && Nodes(place, newNode, n)
    ensures Known(dag, res, place, ecw, newNode) && B.Problem(dag.nodes, dag.rank, res, n)
    ensures res.Keys + (set v | v in itm_idx) == dag.nodes.Keys
  {
    hide E.Shape, E.ListsFit, SimpleEdges, Mirrored, Ranked, Closed;
    res := ColorLeaves(dag, place, ecw);
    res := res[dag.headers[0] := newNode];
    itm_idx := Between(dag);
    IsProblem(dag, res, place, ecw, newNode, n);
    AllListed(dag, res, itm_idx);
  }

  lemma KnownBalanced<C>(dag: E.ECDAG<C>, res: Coloring, coloring: Coloring, place: seq<int>, ecw: nat, newNode: int, n: nat)
    requires Ready(dag) && 0 < ecw && Known(dag, res, place, ecw, newNode) && B.Problem(dag.nodes, dag.rank, res, n) && Colored(dag.nodes, coloring)
    requires forall v | v in res :: v in coloring && coloring[v] == res[v]
    requires forall v | v in dag.nodes && dag.nodes[v].kind.Intermediate? ::
               v in coloring && B.ColoredFromBelow(dag.nodes, dag.rank, coloring, v)
    ensures Balanced(dag.nodes, dag.rank, coloring, place, ecw, dag.headers[0], newNode)
  {
    hide E.Shape, E.ListsFit, SimpleEdges, B.ColoredFromBelow, Mirrored, B.LeavesBelow, Ranked;
  }

  /** src/sol/BalanceSolution.cc:270-333 */
  method GenBalanceColoring<C>(dag: E.ECDAG<C>, place: seq<int>, ecw: nat, newNode: int, loadTable: LoadTable)
    returns (coloring: Coloring, loadTable': LoadTable, ghost topo: seq<int>)
    requires Ready(dag) && 0 < ecw && Nodes(place, newNode, |loadTable|) && Light(loadTable)
    ensures Balanced(dag.nodes, dag.rank, coloring, place, ecw, dag.headers[0], newNode)
    ensures loadTable' == GB.Joint(loadTable, Shipments(dag.nodes, coloring)) && B.InOrder(dag.nodes, topo)
    ensures GB.ClusterGreedy(dag.nodes, coloring, topo, GB.Seen(loadTable, map[], map[], Shipments(dag.nodes, B.Before(coloring, topo, 0))))
  {
    hide E.Shape, E.ListsFit, SimpleEdges, Shipments, B.ColoredFromBelow, Mirrored, GB.NoOverflow, Light, GB.Seen, GB.Joint, B.LeavesBelow, Ranked, Closed,
         GB.IsBlank, Known, Balanced, B.Problem, B.InOrder, GB.ClusterGreedy, B.Before;
    var res, itm_idx := KnownColors(dag, place, ecw, newNode, |loadTable|);
    var stripe := new Stripe(dag.nodes, map[]);
    var balance := new B.BalanceSolution(|loadTable|);
    S.ValidGraph(dag);
    AllLight(dag, res, itm_idx, loadTable);
    coloring, loadTable', topo := GB.GloballyMLP(balance, stripe, itm_idx, dag, res, loadTable, dag.rank);
    KnownBalanced(dag, res, coloring, place, ecw, newNode, |loadTable|);
  }

  lemma IsProblem<C>(dag: E.ECDAG<C>, res: Coloring, place: seq<int>, ecw: nat, newNode: int, n: nat)
    requires Ready(dag) && 0 < ecw && Nodes(place, newNode, n)
    requires Known(dag, res, place, ecw, newNode)
    ensures B.Problem(dag.nodes, dag.rank, res, n) && dag.headers[0] in dag.nodes && !dag.nodes[dag.headers[0]].kind.Leaf?
  {
    hide Mirrored, SimpleEdges, Ranked;
    var h := dag.headers[0];
    assert h in dag.headers;
    forall v | v in res ensures -1 <= res[v] < n {
      if v != h && v / ecw < |place| { BlockAt(v, ecw); }
    }
  }

  lemma BlockAt(v: int, w: nat)
    requires 0 <= v && 0 < w
    ensures 0 <= v / w
  {}

  lemma AllListed<C>(dag: E.ECDAG<C>, res: Coloring, itm_idx: seq<int>)
    requires dag.Valid() && |dag.headers| == 1
    requires forall v :: v in res <==> (v in dag.nodes && dag.nodes[v].kind.Leaf?) || v == dag.headers[0]
    requires forall v :: v in itm_idx <==> v in dag.nodes && dag.nodes[v].kind.Intermediate?
    ensures res.Keys + (set v | v in itm_idx) == dag.nodes.Keys
  {
    hide E.Shape;
    var h := dag.headers[0];
    assert h in dag.headers && dag.headers == [h];
    forall v ensures v in res.Keys + (set v | v in itm_idx) <==> v in dag.nodes {
      if v in dag.nodes && dag.nodes[v].kind.Root? { assert v in dag.headers; }
    }
  }

  // ---------------------------------------------------------------------------------------------
  // Compiling

  /** A colour of -1 marks exactly shortened blocks and vertices made of nothing else. */
  lemma MinusOneBelow<C>(g: Dag<C>, rank: map<int, nat>, col: Coloring, place: seq<int>, ecw: nat, header: int, newNode: int, v: int, i: nat)
    requires Balanced(g, rank, col, place, ecw, header, newNode) && Mirrored(g) && g[header].parents == [] && g[header].kind.Root?
    requires forall u | u in g :: (g[u].kind.Leaf? <==> g[u].children == []) && (u != header ==> !g[u].kind.Root?)
    requires v in g && v != header && col[v] == -1 && i < |g[v].children|
    ensures col[g[v].children[i]] == -1
  {
    hide Mirrored;
    var c := g[v].children[i];
    assert c in g[v].children;
    ParentIffChild(g, c, v);
    assert c != header && g[v].kind.Intermediate? && B.ColoredFromBelow(g, rank, col, v);
    BelowChild(g, rank, v, i);
    if g[c].kind.Leaf? {
      assert B.LeavesBelow(g, rank, c) == {c};
    } else {
      assert B.ColoredFromBelow(g, rank, col, c);
    }
  }

  lemma BelowChild<C>(g: Dag<C>, rank: map<int, nat>, v: int, i: nat)
    requires Closed(g) && Ranked(g, rank) && v in g && i < |g[v].children|
    ensures B.LeavesBelow(g, rank, g[v].children[i]) <= B.LeavesBelow(g, rank, v)
  {
    forall l | l in B.LeavesBelow(g, rank, g[v].children[i]) ensures l in B.LeavesBelow(g, rank, v) {}
  }

  /** The nodes that stand in for failed ones are nodes. */
  ghost predicate RealNodes(fail2repair: map<int, int>) {
    forall c | c in fail2repair :: c != -1 && fail2repair[c] != -1
  }

  lemma SoleRoot<C>(dag: E.ECDAG<C>)
    requires dag.Valid() && |dag.headers| == 1
    ensures Mirrored(dag.nodes) && dag.headers[0] in dag.nodes && dag.nodes[dag.headers[0]].parents == [] && dag.nodes[dag.headers[0]].kind.Root?
    ensures forall u | u in dag.nodes && u != dag.headers[0] :: !dag.nodes[u].kind.Root?
  {
    var h := dag.headers[0];
    assert h in dag.headers && dag.headers == [h];
    forall u | u in dag.nodes && u != h ensures !dag.nodes[u].kind.Root? {
      assert u !in dag.headers;
    }
  }

  /** What the compiler asks for holds of a balanced colouring, remapped or not. */
  lemma BalancedDeploys<C>(dag: E.ECDAG<C>, g: Dag<C>, to: seq<int>, col0: Coloring, col: Coloring, place: seq<int>, ecw: nat, newNode: int,
                           fail2repair: map<int, int>, blklist: seq<string>)
    requires Ready(dag) && Prepared(dag, g, to) && Suits(g, to, E.REQUESTOR)
    requires Balanced(dag.nodes, dag.rank, col0, place, ecw, dag.headers[0], newNode) && G.Remapped(col0, col, fail2repair)
    requires |place| <= |blklist| && forall b | 0 <= b < |place| :: blklist[b] != Programs.ZERO
    ensures G.Deploys(dag.nodes, col, dag.headers[0], |place|, ecw, blklist)
  {
    hide E.Shape, E.ListsFit, Mirrored, SimpleEdges, Tiered, Used, Unread, B.ColoredFromBelow, Ranked;
    SoleRoot(dag);
    var nodes, h := dag.nodes, dag.headers[0];
    forall v, u | v in nodes && u in nodes && nodes[v].children == [] && nodes[u].children == [] && v / ecw < |place| && v / ecw == u / ecw
      ensures col[v] == col[u]
    {
      LeavesShare(dag, col0, col, place, ecw, newNode, fail2repair, v, u);
    }
  }

  lemma LeavesShare<C>(dag: E.ECDAG<C>, col0: Coloring, col: Coloring, place: seq<int>, ecw: nat, newNode: int, fail2repair: map<int, int>,
                       v: int, u: int)
    requires Ready(dag) && Balanced(dag.nodes, dag.rank, col0, place, ecw, dag.headers[0], newNode) && G.Remapped(col0, col, fail2repair)
    requires v in dag.nodes && u in dag.nodes && dag.nodes[v].children == [] && dag.nodes[u].children == [] && v / ecw == u / ecw
    ensures v in col && u in col && col[v] == col[u]
  {
    hide E.Shape, E.ListsFit, Mirrored, SimpleEdges, B.ColoredFromBelow, Ranked;
    SoleRoot(dag);
    assert col0[v] == LeafColor(place, ecw, v) == LeafColor(place, ecw, u) == col0[u];
  }

  lemma BalancedZeroes<C>(dag: E.ECDAG<C>, col0: Coloring, p: Plan<C>, place: seq<int>, newNode: int, n: nat, fail2repair: map<int, int>)
    requires Ready(dag) && WellFormed(p) && p.g == dag.nodes && p.header == dag.headers[0] && p.ecn == |place|
    requires Balanced(dag.nodes, dag.rank, col0, place, p.ecw, p.header, newNode) && G.Remapped(col0, p.col, fail2repair)
    requires RealNodes(fail2repair) && Nodes(place, newNode, n)
    ensures ZeroesClosed(p)
  {
    hide *;
    ReadyLeaves(dag);
    StillMinusOne(p, dag.rank, col0, place, newNode, n, fail2repair);
    forall v, i | v in p.g && p.col[v] == -1 && 0 <= i < |p.g[v].children| ensures p.g[v].children[i] in p.col && p.col[p.g[v].children[i]] == -1 {
      ChildIn(p.g, v, i);
      MinusOneBelow(p.g, dag.rank, col0, place, p.ecw, p.header, newNode, v, i);
    }
    ZeroesClosedIf(p);
  }

  lemma ReadyLeaves<C>(dag: E.ECDAG<C>)
    requires Ready(dag)
    ensures |dag.headers| == 1 && Mirrored(dag.nodes) && dag.headers[0] in dag.nodes
    ensures dag.nodes[dag.headers[0]].parents == [] && dag.nodes[dag.headers[0]].kind.Root?
    ensures forall u | u in dag.nodes :: (dag.nodes[u].kind.Leaf? <==> dag.nodes[u].children == []) && (u != dag.headers[0] ==> !dag.nodes[u].kind.Root?)
  {
    hide Mirrored, SimpleEdges, E.Shape, E.ListsFit;
    SoleRoot(dag);
  }

  lemma ChildIn<C>(g: Dag<C>, v: int, i: nat)
    requires Closed(g) && v in g && i < |g[v].children|
    ensures g[v].children[i] in g
  {}

  lemma ZeroesClosedIf<C>(p: Plan<C>)
    requires WellFormed(p) && p.header in p.col && p.col[p.header] != -1 && p.col.Keys == p.g.Keys && 0 < p.ecw
    requires forall v | v in p.g && p.g[v].children == [] :: p.col[v] == -1 <==> v / p.ecw >= p.ecn
    requires forall v, i | v in p.g && p.col[v] == -1 && 0 <= i < |p.g[v].children| :: p.g[v].children[i] in p.col && p.col[p.g[v].children[i]] == -1
    ensures ZeroesClosed(p)
  {
    hide WellFormed;
  }

  /** Remapping keeps -1, and nothing else becomes it. */
  lemma StillMinusOne<C>(p: Plan<C>, rank: map<int, nat>, col0: Coloring, place: seq<int>, newNode: int, n: nat, fail2repair: map<int, int>)
    requires WellFormed(p) && p.ecn == |place| && Nodes(place, newNode, n) && RealNodes(fail2repair)
    requires Balanced(p.g, rank, col0, place, p.ecw, p.header, newNode) && G.Remapped(col0, p.col, fail2repair)
    requires forall v | v in p.g :: p.g[v].kind.Leaf? <==> p.g[v].children == []
    ensures Closed(p.g) && p.header in p.g && p.header in p.col && 0 < p.ecw && p.col[p.header] != -1
    ensures col0.Keys == p.col.Keys == p.g.Keys && forall v | v in p.g :: col0[v] == -1 <==> p.col[v] == -1
    ensures forall v | v in p.g && p.g[v].children == [] :: p.col[v] == -1 <==> v / p.ecw >= p.ecn
  {
    hide Mirrored, B.ColoredFromBelow, Ranked;
    forall v | v in p.g && p.g[v].children == [] ensures col0[v] == -1 <==> v / p.ecw >= p.ecn {
      assert v != p.header && col0[v] == LeafColor(place, p.ecw, v);
      if v / p.ecw < |place| { BlockAt(v, p.ecw); }
    }
  }

  /** The DAG of a repair is ready to be coloured. */
  lemma PreparedReady<C>(dag: E.ECDAG<C>, g: Dag<C>, to: seq<int>)
    requires Prepared(dag, g, to) && Suits(g, to, E.REQUESTOR) && 0 <= dag.headers[0] <= E.REQUESTOR
    ensures Ready(dag) && dag.Valid() && |dag.headers| == 1
  {
    hide E.Shape, Mirrored, Tiered, Used, Unread;
    SoleRoot(dag);
    forall v | v in dag.nodes ensures Distinct(dag.nodes[v].children) {
      if v != dag.headers[0] { assert v in g; }
    }
  }

  /** The node that stands in for another in the task lists (src/common/Stripe.cc:607-613). */
  function StandIn(fail2repair: map<int, int>, node: int): int {
    if node in fail2repair then fail2repair[node] else node
  }

  /** Leaves are read where their blocks are, shortened ones nowhere, and the repaired block is put on the new node. */
  ghost predicate InPlace<C>(p: Plan<C>, place: seq<int>, newNode: int, fail2repair: map<int, int>)
    requires WellFormed(p)
  {
    && (forall v | v in p.g && p.g[v].children == [] :: p.col[v] == if 0 <= v / p.ecw < |place| then StandIn(fail2repair, place[v / p.ecw]) else -1)
    && p.col[p.header] == StandIn(fail2repair, newNode)
  }

  /** The colouring chosen: in some topological order every vertex between got the child colour with the least load of
      the cluster on top of its table; which then grew by the traffic. */
  ghost predicate Chosen<C>(p: Plan<C>, col0: Coloring, fail2repair: map<int, int>, loadTable: LoadTable, loadTable': LoadTable) {
    && G.Remapped(col0, p.col, fail2repair) && loadTable' == GB.Joint(loadTable, Shipments(p.g, col0))
    && exists topo :: B.InOrder(p.g, topo) && GB.ClusterGreedy(p.g, col0, topo, loadTable)
  }

  /** Nothing is shipped before a vertex between has a colour, so the tables of a new stripe are right. */
  lemma NothingSeen<C>(dag: E.ECDAG<C>, g: Dag<C>, to: seq<int>, col0: Coloring, topo: seq<int>, loadTable: LoadTable)
    requires Ready(dag) && Prepared(dag, g, to) && Suits(g, to, E.REQUESTOR) && Colored(dag.nodes, col0) && B.InOrder(dag.nodes, topo)
    ensures GB.Seen(loadTable, map[], map[], Shipments(dag.nodes, B.Before(col0, topo, 0))) == loadTable
  {
    hide E.Shape, E.ListsFit, Mirrored, SimpleEdges, Tiered, Used, Unread, Shipments, Ranked, TopoOrder, GB.Seen;
    var col := B.Before(col0, topo, 0);
    SoleRoot(dag);
    forall v, i ensures !GB.EdgeAcross(dag.nodes, col, v, i) {
      NotAcross(dag, g, to, col0, topo, v, i);
    }
    GB.FreshTablesRightIff(dag.nodes, col);
  }

  lemma NotAcross<C>(dag: E.ECDAG<C>, g: Dag<C>, to: seq<int>, col0: Coloring, topo: seq<int>, v: int, i: int)
    requires Ready(dag) && Prepared(dag, g, to) && Suits(g, to, E.REQUESTOR) && Colored(dag.nodes, col0) && B.InOrder(dag.nodes, topo)
    ensures Colored(dag.nodes, B.Before(col0, topo, 0)) && !GB.EdgeAcross(dag.nodes, B.Before(col0, topo, 0), v, i)
  {
    hide E.Shape, E.ListsFit, SimpleEdges, Tiered, Used, Unread, Ranked, TopoOrder;
    SoleRoot(dag);
    assert topo[0..] == topo;
    if v in dag.nodes && 0 <= i < |dag.nodes[v].parents| {
      var u := dag.nodes[v].parents[i];
      assert u in dag.nodes[v].parents;
      ParentIffChild(dag.nodes, v, u);
      if u == dag.headers[0] {
        var k :| 0 <= k < |to| && to[k] == v;
        assert dag.nodes[v].kind.Intermediate?;
      } else {
        assert dag.nodes[u].kind.Intermediate?;
      }
    }
  }

  lemma PlacedRight<C>(p: Plan<C>, rank: map<int, nat>, col0: Coloring, place: seq<int>, newNode: int, fail2repair: map<int, int>)
    requires WellFormed(p) && p.ecn == |place| && (forall v | v in p.g :: p.g[v].kind.Leaf? <==> p.g[v].children == [])
    requires Balanced(p.g, rank, col0, place, p.ecw, p.header, newNode) && G.Remapped(col0, p.col, fail2repair) && RealNodes(fail2repair)
    ensures InPlace(p, place, newNode, fail2repair)
  {
    hide Mirrored, B.ColoredFromBelow, Ranked;
    forall v | v in p.g && p.g[v].children == []
      ensures p.col[v] == if 0 <= v / p.ecw < |place| then StandIn(fail2repair, place[v / p.ecw]) else -1
    {
      assert v != p.header && col0[v] == LeafColor(place, p.ecw, v);
      BlockAt(v, p.ecw);
    }
  }

  /** Colour and compile the repair DAG of one stripe. The plan is deployable whatever the choices of the colouring. */
  method CompileRepair<C>(dag: E.ECDAG<C>, ghost g: Dag<C>, ghost to: seq<int>, place: seq<int>, ecw: nat, newNode: int, loadTable: LoadTable,
                          blklist: seq<string>, fail_blk_idx: nat, fail2repair: map<int, int>)
    returns (taskmap: G.TaskLists<C>, loadTable': LoadTable, ghost p: Plan<C>, ghost tasks: TaskMap<C>, ghost col0: Coloring)
    requires Prepared(dag, g, to) && Suits(g, to, E.REQUESTOR) && 0 <= dag.headers[0] <= E.REQUESTOR
    requires 0 < ecw && Nodes(place, newNode, |loadTable|) && Light(loadTable) && RealNodes(fail2repair)
    requires |place| <= |blklist| && fail_blk_idx < |blklist| && forall b | 0 <= b < |place| :: blklist[b] != Programs.ZERO
    ensures PlanOf(p, g, to) && Deployable(p) && Compiled(p, tasks)
    ensures p.ecn == |place| && p.ecw == ecw && p.blklist == blklist && p.repaired == blklist[fail_blk_idx]
    ensures G.Delivers(taskmap, tasks) && InPlace(p, place, newNode, fail2repair) && Chosen(p, col0, fail2repair, loadTable, loadTable')
  {
    hide *;
    PreparedReady(dag, g, to);
    var coloring;
    ghost var topo;
    coloring, loadTable', topo := GenBalanceColoring(dag, place, ecw, newNode, loadTable);
    col0 := coloring;
    BalancedColored(dag.nodes, dag.rank, coloring, place, ecw, dag.headers[0], newNode);
    NothingSeen(dag, g, to, coloring, topo, loadTable);
    forall col | G.Remapped(coloring, col, fail2repair) ensures G.Deploys(dag.nodes, col, dag.headers[0], |place|, ecw, blklist) {
      BalancedDeploys(dag, g, to, coloring, col, place, ecw, newNode, fail2repair, blklist);
    }
    ghost var who;
    ghost var remapped;
    remapped, taskmap, p, who := G.GenRepairTasks(dag, coloring, |place|, ecw, blklist, fail_blk_idx, fail2repair);
    tasks := G.TasksOf(taskmap, who);
    BalancedZeroes(dag, coloring, p, place, newNode, |loadTable|, fail2repair);
    PlanMade(p, dag, g, to);
    G.ListsDeliver(taskmap, who);
    ReadyLeaves(dag);
    PlacedRight(p, dag.rank, coloring, place, newNode, fail2repair);
    ChosenIf(p, coloring, fail2repair, loadTable, loadTable', topo);
  }

  lemma BalancedColored<C>(g: Dag<C>, rank: map<int, nat>, col: Coloring, place: seq<int>, ecw: nat, header: int, newNode: int)
    requires Balanced(g, rank, col, place, ecw, header, newNode)
    ensures Colored(g, col)
  {
    hide Ranked, B.ColoredFromBelow;
  }

  lemma ChosenIf<C>(p: Plan<C>, col0: Coloring, fail2repair: map<int, int>, loadTable: LoadTable, loadTable': LoadTable, topo: seq<int>)
    requires G.Remapped(col0, p.col, fail2repair) && loadTable' == GB.Joint(loadTable, Shipments(p.g, col0))
    requires B.InOrder(p.g, topo) && GB.ClusterGreedy(p.g, col0, topo, loadTable)
    ensures Chosen(p, col0, fail2repair, loadTable, loadTable')
  {
    hide Shipments, GB.Joint, B.InOrder, GB.ClusterGreedy, G.Remapped;
  }

  lemma PlanMade<C>(p: Plan<C>, dag: E.ECDAG<C>, g: Dag<C>, to: seq<int>)
    requires Prepared(dag, g, to) && Suits(g, to, E.REQUESTOR) && p.g == dag.nodes && p.header == dag.headers[0]
    requires S.LevelsFit(p.g, p.lev) && WellFormed(p) && ZeroesClosed(p)
    ensures PlanOf(p, g, to) && Deployable(p)
  {
    hide WellFormed, ZeroesClosed, OneLevelPerColor, S.LevelsFit, Used, Unread, Tiered;
    var tier :| Tiered(g, tier);
    TieredPlan(p, g, to, tier);
  }
}
