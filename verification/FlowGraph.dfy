/** Choosing the stripes of a batch and their repair nodes (src/sol/FlowGraph.cc). */
module FlowGraphs {
  import opened Augmenting
  import opened Dags
  import opened Flows
  import opened Matchings

  /** What FlowGraph reads of a stripe: its id and the node of each of its blocks. */
  datatype Placed = Placed(stripeId: int, placement: seq<int>)

  ghost predicate Ascending(s: seq<int>) {
    forall i, j | 0 <= i < j < |s| :: s[i] <= s[j]
  }

  method Insert(s: seq<int>, x: int) returns (r: seq<int>)
    requires Ascending(s)
    ensures Ascending(r) && multiset(r) == multiset(s) + multiset{x}
  {
    var i := |s|;
    while i > 0 && s[i - 1] > x
      invariant 0 <= i <= |s| && forall k | i <= k < |s| :: s[k] > x
    {
      i := i - 1;
    }
    r := s[..i] + [x] + s[i..];
    InsertedAt(s, i, x);
  }

  lemma InsertedAt(s: seq<int>, i: nat, x: int)
    requires Ascending(s) && i <= |s| && (i > 0 ==> s[i - 1] <= x) && forall k | i <= k < |s| :: s[k] > x
    ensures Ascending(s[..i] + [x] + s[i..]) && multiset(s[..i] + [x] + s[i..]) == multiset(s) + multiset{x}
  {
    InsertedCounts(s, i, x);
    var r := s[..i] + [x] + s[i..];
    forall k | 0 <= k < |r| ensures r[k] == if k < i then s[k] else if k == i then x else s[k - 1] {}
    forall a | 0 <= a < i ensures s[a] <= x {}
  }

  lemma InsertedCounts<T>(s: seq<T>, i: nat, x: T)
    requires i <= |s|
    ensures multiset(s[..i] + [x] + s[i..]) == multiset(s) + multiset{x}
  {
    assert multiset(s) == multiset(s[..i]) + multiset(s[i..]) by { assert s == s[..i] + s[i..]; }
  }

  /** std::sort */
  method Sort(s: seq<int>) returns (r: seq<int>)
    ensures Ascending(r) && multiset(r) == multiset(s)
  {
    r := [];
    for i := 0 to |s|
      invariant Ascending(r) && multiset(r) == multiset(s[..i])
    {
      r := Insert(r, s[i]);
      assert s[..i + 1] == s[..i] + [s[i]];
    }
    assert s[..|s|] == s;
  }

  lemma SameCounts<T>(a: seq<T>, b: seq<T>)
    requires multiset(a) == multiset(b)
    ensures |a| == |b| && (Distinct(a) <==> Distinct(b)) && Elements(a) == Elements(b)
  {
    assert |a| == |multiset(a)| == |b|;
    InCounts(a);
    InCounts(b);
    if Distinct(a) {
      forall x ensures multiset(b)[x] <= 1 { DistinctCount(a, x); }
      CountedDistinct(b);
    }
    if Distinct(b) {
      forall x ensures multiset(a)[x] <= 1 { DistinctCount(b, x); }
      CountedDistinct(a);
    }
  }

  lemma InCounts<T>(a: seq<T>)
    ensures forall x :: x in multiset(a) <==> x in Elements(a)
  {
    forall x ensures x in multiset(a) <==> x in Elements(a) {
      if x in multiset(a) {
        assert x in a;
        var i :| 0 <= i < |a| && a[i] == x;
      }
    }
  }

  /** ids[i] is at start + i. */
  ghost predicate Indexes(ids: seq<int>, start: int, to: map<int, int>, from: map<int, int>) {
    && (forall i | 0 <= i < |ids| :: ids[i] in to && to[ids[i]] == start + i)
    && (forall v | start <= v < start + |ids| :: v in from && from[v] == ids[v - start])
  }

  /** src/sol/FlowGraph.cc:30-46, 121-137 */
  method Index(ids: seq<int>, start: int) returns (to: map<int, int>, from: map<int, int>)
    requires Distinct(ids)
    ensures Indexes(ids, start, to, from)
  {
    to, from := map[], map[];
    for i := 0 to |ids|
      invariant Indexes(ids[..i], start, to, from)
      invariant forall x | x in to :: x in ids[..i]
      invariant forall v | v in from :: start <= v < start + i
    {
      var id, vid := ids[i], start + i;
      assert ids[..i + 1] == ids[..i] + [ids[i]];
      if id !in to { to := to[id := vid]; }
      if vid !in from { from := from[vid := id]; }
    }
    assert ids[..|ids|] == ids;
  }

  /** Every candidate of every stripe once (src/sol/FlowGraph.cc:17-22, 103-111). */
  method NodesOf(order: seq<int>, candidates: map<int, seq<int>>) returns (nodes: seq<int>)
    requires forall i | 0 <= i < |order| :: order[i] in candidates
    ensures Distinct(nodes) && Covering(order, candidates, |order|, nodes)
  {
    nodes := [];
    for i := 0 to |order|
      invariant Distinct(nodes) && Covering(order, candidates, i, nodes)
    {
      ghost var before := nodes;
      var nids := candidates[order[i]];
      for j := 0 to |nids|
        invariant Distinct(nodes) && Covering(order, candidates, i, nodes)
        invariant forall k | 0 <= k < j :: nids[k] in nodes
      {
        if nids[j] !in nodes {
          Covered(order, candidates, i, nodes, nids[j]);
          nodes := nodes + [nids[j]];
          assert nodes[|nodes| - 1] == nids[j];
        }
      }
    }
  }

  ghost predicate Covering(order: seq<int>, candidates: map<int, seq<int>>, k: nat, nodes: seq<int>) {
    forall i, j | 0 <= i < k <= |order| && order[i] in candidates && 0 <= j < |candidates[order[i]]| :: candidates[order[i]][j] in nodes
  }

  lemma Covered(order: seq<int>, candidates: map<int, seq<int>>, k: nat, nodes: seq<int>, x: int)
    requires Covering(order, candidates, k, nodes)
    ensures Covering(order, candidates, k, nodes + [x])
  {}

  /** The matrix once the vertices in done have their edges. */
  ghost predicate Filled(lay: Layout, m: Matrix, done: set<int>) {
    Square(m, lay.Size()) && forall u, v | 0 <= u < lay.Size() && 0 <= v < lay.Size() ::
      m[u][v] == FilledEntry(lay, done, u, v)
  }

  ghost function FilledEntry(lay: Layout, done: set<int>, u: int, v: int): int {
    if u in done || (u == 0 && v in done) then Capacity(lay, u, v) else 0
  }

  /** The edges of one stripe (src/sol/FlowGraph.cc:55-69, 146-158). */
  method FillStripe(flow: array2<int>, lay: Layout, vsid: nat, nid2vid: map<int, int>, vid2nid: map<int, int>, ghost done: set<int>)
    requires flow.Length0 == flow.Length1 == lay.Size() && Laid(lay) && lay.StripeAt(vsid) && vsid !in done && 0 !in done
    requires Indexes(lay.nodes, |lay.stripes| + 1, nid2vid, vid2nid) && Filled(lay, Rows(flow), done)
    modifies flow
    ensures Filled(lay, Rows(flow), done + {vsid})
  {
    ghost var m0 := Rows(flow);
    var nids := lay.candidates[lay.StripeOf(vsid)];
    forall v | 0 <= v < lay.Size() ensures m0[vsid][v] == 0 { assert m0[vsid][v] == FilledEntry(lay, done, vsid, v); }
    flow[0, vsid] := lay.d;
    for j := 0 to |nids|
      invariant forall u, v | 0 <= u < lay.Size() && 0 <= v < lay.Size() && u != vsid ::
                  flow[u, v] == if u == 0 && v == vsid then lay.d else m0[u][v]
      invariant forall v | 0 <= v < lay.Size() :: flow[vsid, v] == if lay.NodeAt(v) && lay.NodeOf(v) in nids[..j] then 1 else 0
    {
      assert lay.candidates[lay.stripes[vsid - 1]][j] in lay.nodes;
      var vnid := VidOf(lay, nids[j], nid2vid, vid2nid);
      flow[vsid, vnid] := 1;
      assert nids[..j + 1] == nids[..j] + [nids[j]];
    }
    assert nids[..|nids|] == nids;
    hide Indexes;
    FilledStripe(lay, m0, Rows(flow), vsid, done);
  }

  lemma FilledStripe(lay: Layout, m0: Matrix, m: Matrix, vsid: nat, done: set<int>)
    requires Laid(lay) && lay.StripeAt(vsid) && Filled(lay, m0, done) && Square(m, lay.Size()) && vsid !in done && 0 !in done
    requires forall u, v | 0 <= u < lay.Size() && 0 <= v < lay.Size() && u != vsid ::
               m[u][v] == if u == 0 && v == vsid then lay.d else m0[u][v]
    requires forall v | 0 <= v < lay.Size() ::
               m[vsid][v] == if lay.NodeAt(v) && lay.NodeOf(v) in lay.candidates[lay.StripeOf(vsid)] then 1 else 0
    ensures Filled(lay, m, done + {vsid})
  {
    var done' := done + {vsid};
    forall u, v | 0 <= u < lay.Size() && 0 <= v < lay.Size()
      ensures m[u][v] == FilledEntry(lay, done', u, v)
    {
      assert u in done' <==> u in done || u == vsid;
      assert v in done' <==> v in done || v == vsid;
    }
  }

  method VidOf(lay: Layout, nid: int, nid2vid: map<int, int>, ghost vid2nid: map<int, int>) returns (vnid: nat)
    requires Laid(lay) && nid in lay.nodes && Indexes(lay.nodes, |lay.stripes| + 1, nid2vid, vid2nid)
    ensures lay.NodeAt(vnid) && lay.NodeOf(vnid) == nid && forall v | lay.NodeAt(v) && lay.NodeOf(v) == nid :: v == vnid
  {
    ghost var i :| 0 <= i < |lay.nodes| && lay.nodes[i] == nid;
    vnid := nid2vid[nid];
  }

  /** src/sol/FlowGraph.cc:48-78, 139-166; order is the order in which the stripes are met. */
  method Fill(flow: array2<int>, lay: Layout, order: seq<int>, sid2vid: map<int, int>, nid2vid: map<int, int>,
              vid2sid: map<int, int>, vid2nid: map<int, int>)
    requires flow.Length0 == flow.Length1 == lay.Size() && Laid(lay) && multiset(order) == multiset(lay.stripes)
    requires Indexes(lay.stripes, 1, sid2vid, vid2sid) && Indexes(lay.nodes, |lay.stripes| + 1, nid2vid, vid2nid)
    requires forall u, v | 0 <= u < lay.Size() && 0 <= v < lay.Size() :: flow[u, v] == 0
    modifies flow
    ensures HasCapacities(lay, Rows(flow))
  {
    ghost var done: set<int> := {};
    SameCounts(order, lay.stripes);
    for i := 0 to |order|
      invariant Filled(lay, Rows(flow), done) && 0 !in done
      invariant forall v :: v in done <==> lay.StripeAt(v) && lay.StripeOf(v) in order[..i]
    {
      var vsid := StripeVid(lay, order, i, sid2vid, vid2sid);
      FillStripe(flow, lay, vsid, nid2vid, vid2nid, done);
      done := done + {vsid};
      assert order[..i + 1] == order[..i] + [order[i]];
    }
    assert order[..|order|] == order;
    EveryStripe(lay, order);
    for i := 0 to |lay.nodes|
      invariant Filled(lay, Rows(flow), done) && forall v :: v in done <==> 1 <= v <= |lay.stripes| + i
    {
      var vid := nid2vid[lay.nodes[i]];
      FillNode(flow, lay, vid, done);
      done := done + {vid};
    }
    AllFilled(lay, Rows(flow), done);
  }

  method StripeVid(lay: Layout, order: seq<int>, i: nat, sid2vid: map<int, int>, ghost vid2sid: map<int, int>) returns (vsid: nat)
    requires Laid(lay) && multiset(order) == multiset(lay.stripes) && i < |order| && Indexes(lay.stripes, 1, sid2vid, vid2sid)
    ensures lay.StripeAt(vsid) && lay.StripeOf(vsid) == order[i] && lay.StripeOf(vsid) !in order[..i]
    ensures forall v | lay.StripeAt(v) && lay.StripeOf(v) == order[i] :: v == vsid
  {
    SameCounts(order, lay.stripes);
    assert order[i] in Elements(lay.stripes);
    ghost var k :| 0 <= k < |lay.stripes| && lay.stripes[k] == order[i];
    vsid := sid2vid[order[i]];
  }

  lemma EveryStripe(lay: Layout, order: seq<int>)
    requires multiset(order) == multiset(lay.stripes)
    ensures forall v | lay.StripeAt(v) :: lay.StripeOf(v) in order
  {
    SameCounts(order, lay.stripes);
    forall v | lay.StripeAt(v) ensures lay.StripeOf(v) in order {
      assert lay.stripes[v - 1] in Elements(lay.stripes);
      var i :| 0 <= i < |order| && order[i] == lay.stripes[v - 1];
    }
  }

  method FillNode(flow: array2<int>, lay: Layout, vid: nat, ghost done: set<int>)
    requires flow.Length0 == flow.Length1 == lay.Size() && lay.NodeAt(vid) && vid !in done && 0 !in done && Filled(lay, Rows(flow), done)
    modifies flow
    ensures Filled(lay, Rows(flow), done + {vid})
  {
    ghost var m0 := Rows(flow);
    flow[vid, |lay.stripes| + |lay.nodes| + 1] := lay.d;
    FilledNode(lay, m0, Rows(flow), vid, done);
  }

  lemma FilledNode(lay: Layout, m0: Matrix, m: Matrix, vid: nat, done: set<int>)
    requires lay.NodeAt(vid) && Filled(lay, m0, done) && Square(m, lay.Size()) && vid !in done && 0 !in done
    requires forall u, v | 0 <= u < lay.Size() && 0 <= v < lay.Size() :: m[u][v] == if u == vid && v == lay.Sink() then lay.d else m0[u][v]
    ensures Filled(lay, m, done + {vid})
  {
    var done' := done + {vid};
    forall u, v | 0 <= u < lay.Size() && 0 <= v < lay.Size()
      ensures m[u][v] == FilledEntry(lay, done', u, v)
    {
      assert u in done' <==> u in done || u == vid;
      assert v in done' <==> v in done || v == vid;
    }
  }

  lemma AllFilled(lay: Layout, m: Matrix, done: set<int>)
    requires Filled(lay, m, done) && forall v :: v in done <==> 1 <= v <= |lay.stripes| + |lay.nodes|
    ensures HasCapacities(lay, m)
  {
    hide MayServe;
  }

  /** The nodes of a stripe's blocks without the failed one. */
  function Survivors(placement: seq<int>, failnid: int): (r: seq<int>)
    ensures forall x :: x in r <==> x in placement && x != failnid
  {
    if placement == [] then []
    else
      var n := |placement| - 1;
      Survivors(placement[..n], failnid) + if placement[n] == failnid then [] else [placement[n]]
  }

  /** src/sol/FlowGraph.cc:101-111 */
  method Outside(placement: seq<int>, agentnum: nat) returns (placelist: seq<int>)
    ensures forall x :: x in placelist <==> 0 <= x < agentnum && x !in placement
  {
    placelist := [];
    for i := 0 to agentnum
      invariant forall x :: x in placelist <==> 0 <= x < i && x !in placement
    {
      if i !in placement {
        placelist := placelist + [i];
      }
    }
  }

  function IdsOf(stripelist: seq<Placed>): (ids: seq<int>)
    ensures |ids| == |stripelist| && forall i | 0 <= i < |ids| :: ids[i] == stripelist[i].stripeId
  {
    seq(|stripelist|, i requires 0 <= i < |stripelist| => stripelist[i].stripeId)
  }

  /** The vertices, their numbers and the two matrices, once the candidates of each stripe are known. */
  method Assemble(order: seq<int>, candidates: map<int, seq<int>>, d: nat)
    returns (lay: Layout, sid2vid: map<int, int>, vid2sid: map<int, int>, nid2vid: map<int, int>, vid2nid: map<int, int>,
             flow: array2<int>, res: array2<int>)
    requires Distinct(order) && forall i | 0 <= i < |order| :: order[i] in candidates
    ensures lay.candidates == candidates && lay.d == d && multiset(lay.stripes) == multiset(order)
    ensures Indexes(lay.stripes, 1, sid2vid, vid2sid) && Indexes(lay.nodes, |lay.stripes| + 1, nid2vid, vid2nid)
    ensures fresh(flow) && fresh(res) && flow != res
    ensures flow.Length0 == flow.Length1 == res.Length0 == res.Length1 == lay.Size()
    ensures Flowing(lay, Rows(flow), Rows(res)) && Value(Net(Rows(flow), Rows(res), lay.Size())) == 0
  {
    var stripes := Sort(order);
    var nodes := NodesOf(order, candidates);
    var sorted := Sort(nodes);
    lay := Layout(stripes, sorted, d, candidates);
    LaidOut(order, stripes, nodes, sorted, candidates, d);
    LaidDistinct(lay);
    hide Flowing, Laid, Indexes, Covering, HasCapacities;
    sid2vid, vid2sid := Index(stripes, 1);
    nid2vid, vid2nid := Index(sorted, |stripes| + 1);
    var size := |stripes| + |sorted| + 2;
    flow := new int[size, size]((i, j) => 0);
    Fill(flow, lay, order, sid2vid, nid2vid, vid2sid, vid2nid);
    res := Copy(flow, size);
    EmptyFlow(lay, Rows(flow));
  }

  lemma LaidDistinct(lay: Layout)
    requires Laid(lay)
    ensures Distinct(lay.stripes) && Distinct(lay.nodes)
  {}

  /** memcpy, src/sol/FlowGraph.cc:79, 167 */
  method Copy(flow: array2<int>, size: nat) returns (res: array2<int>)
    requires flow.Length0 == flow.Length1 == size
    ensures fresh(res) && res.Length0 == res.Length1 == size && Rows(res) == Rows(flow)
  {
    res := new int[size, size]((i, j) => 0);
    for u := 0 to size
      invariant forall a, b | 0 <= a < u && 0 <= b < size :: res[a, b] == flow[a, b]
    {
      for v := 0 to size
        invariant forall a, b | 0 <= a < u && 0 <= b < size :: res[a, b] == flow[a, b]
        invariant forall b | 0 <= b < v :: res[u, b] == flow[u, b]
      {
        res[u, v] := flow[u, v];
      }
    }
    SameRows(Rows(res), Rows(flow), size);
  }

  lemma LaidOut(order: seq<int>, stripes: seq<int>, nodes: seq<int>, sorted: seq<int>, candidates: map<int, seq<int>>, d: nat)
    requires Distinct(order) && forall i | 0 <= i < |order| :: order[i] in candidates
    requires multiset(stripes) == multiset(order) && multiset(sorted) == multiset(nodes)
    requires Distinct(nodes) && Covering(order, candidates, |order|, nodes)
    ensures Laid(Layout(stripes, sorted, d, candidates))
  {
    SameCounts(order, stripes);
    SameCounts(nodes, sorted);
    forall i | 0 <= i < |stripes| ensures stripes[i] in candidates && forall j | 0 <= j < |candidates[stripes[i]]| :: candidates[stripes[i]][j] in sorted {
      assert stripes[i] in Elements(order);
      var k :| 0 <= k < |order| && order[k] == stripes[i];
      forall j | 0 <= j < |candidates[stripes[i]]| ensures candidates[stripes[i]][j] in sorted {
        var x := candidates[order[k]][j];
        assert x in nodes;
        assert multiset(nodes)[x] > 0;
      }
    }
  }

  lemma SameRows(a: Matrix, b: Matrix, n: nat)
    requires Square(a, n) && Square(b, n) && forall u, v | 0 <= u < n && 0 <= v < n :: a[u][v] == b[u][v]
    ensures a == b
  {
    forall u | 0 <= u < n ensures a[u] == b[u] {}
  }

  lemma EmptyFlow(lay: Layout, cap: Matrix)
    requires Laid(lay) && HasCapacities(lay, cap)
    ensures Flowing(lay, cap, cap) && Value(Net(cap, cap, lay.Size())) == 0
  {
    hide Laid, Sum, MayServe;
    NothingFlows(cap, lay.Size());
  }

  class FlowGraph {
    var flow_graph: array2<int>
    var res_matrix: array2<int>
    var p: nat
    var q: nat
    var d: nat
    var failnid: int
    var vnum: nat
    var max_flow: int
    var stripe_id_list: seq<int>
    var node_id_list: seq<int>
    var sid2vid: map<int, int>
    var vid2sid: map<int, int>
    var nid2vid: map<int, int>
    var vid2nid: map<int, int>
    ghost var candidates: map<int, seq<int>>

    ghost function Lay(): Layout
      reads this
    {
      Layout(stripe_id_list, node_id_list, d, candidates)
    }

    ghost predicate Shape()
      reads this
    {
      && flow_graph != res_matrix && p == |stripe_id_list| && q == |node_id_list| && vnum == p + q + 2
      && flow_graph.Length0 == flow_graph.Length1 == res_matrix.Length0 == res_matrix.Length1 == vnum
      && Indexes(stripe_id_list, 1, sid2vid, vid2sid) && Indexes(node_id_list, p + 1, nid2vid, vid2nid)
    }

    /** The residual matrix always stands for a flow through the graph. */
    ghost predicate Valid()
      reads this, flow_graph, res_matrix
    {
      Shape() && Flowing(Lay(), Rows(flow_graph), Rows(res_matrix))
    }

    ghost function Flow(): int
      reads this, flow_graph, res_matrix
      requires Valid()
    {
      Value(Net(Rows(flow_graph), Rows(res_matrix), vnum))
    }

    /** The fields hold what Assemble made. */
    lemma Assembled(lay: Layout)
      requires Lay() == lay && flow_graph != res_matrix && p == |lay.stripes| && q == |lay.nodes| && vnum == lay.Size()
      requires Indexes(lay.stripes, 1, sid2vid, vid2sid) && Indexes(lay.nodes, p + 1, nid2vid, vid2nid)
      requires flow_graph.Length0 == flow_graph.Length1 == res_matrix.Length0 == res_matrix.Length1 == vnum
      requires Flowing(lay, Rows(flow_graph), Rows(res_matrix)) && Value(Net(Rows(flow_graph), Rows(res_matrix), vnum)) == 0
      ensures Valid() && Flow() == 0
    {
      hide Flowing, Indexes, Rows, Net, Value;
    }

    /** For choosing the stripes of a batch: every surviving block may help (src/sol/FlowGraph.cc:4-85). */
    constructor Batch(stripemap: map<int, seq<int>>, order: seq<int>, d: nat, failnid: int)
      requires Distinct(order) && Elements(order) == stripemap.Keys
      ensures Valid() && fresh(flow_graph) && fresh(res_matrix) && Flow() == 0
      ensures Lay().d == d && multiset(Lay().stripes) == multiset(order)
      ensures forall s | s in stripemap :: s in candidates && forall x :: x in candidates[s] <==> x in stripemap[s] && x != failnid
    {
      var helpers := Helping(stripemap, order, failnid);
      hide Valid, Flow, Flowing, Indexes, Conserves, Rows, Square, Net, Value, Sum, Survivors, Laid, Distinct;
      var lay, toS, fromS, toN, fromN, flow, res := Assemble(order, helpers, d);
      flow_graph, res_matrix := flow, res;
      p, q, this.d, this.failnid, vnum := |lay.stripes|, |lay.nodes|, d, failnid, lay.Size();
      stripe_id_list, node_id_list, candidates := lay.stripes, lay.nodes, helpers;
      sid2vid, vid2sid, nid2vid, vid2nid := toS, fromS, toN, fromN;
      new;
      Assembled(lay);
    }

    /** For finding each stripe a node to repair on: any of the agents that holds none of its blocks
        (src/sol/FlowGraph.cc:88-173). */
    constructor Replacement(stripelist: seq<Placed>, failnid: int, agentnum: nat)
      requires Distinct(IdsOf(stripelist))
      ensures Valid() && fresh(flow_graph) && fresh(res_matrix) && Flow() == 0
      ensures Lay().d == 1 && multiset(Lay().stripes) == multiset(IdsOf(stripelist))
      ensures Offered(stripelist, agentnum, candidates)
    {
      var candidatemap := Places(stripelist, agentnum);
      hide Valid, Flow, Flowing, Indexes, Conserves, Rows, Offered, Square, Net, Value, Sum, IdsOf, Laid, Distinct;
      var lay, toS, fromS, toN, fromN, flow, res := Assemble(IdsOf(stripelist), candidatemap, 1);
      flow_graph, res_matrix := flow, res;
      p, q, d, this.failnid, vnum := |lay.stripes|, |lay.nodes|, 1, failnid, lay.Size();
      stripe_id_list, node_id_list, candidates := lay.stripes, lay.nodes, candidatemap;
      sid2vid, vid2sid, nid2vid, vid2nid := toS, fromS, toN, fromN;
      new;
      Assembled(lay);
    }

    /** src/sol/FlowGraph.cc:175-224: the flow grows by what is returned, to the most there can be. */
    method FindMaxFlow() returns (r: int, ghost side: set<int>)
      requires Valid()
      modifies this`max_flow, res_matrix
      ensures Valid() && Lay() == old(Lay()) && Rows(flow_graph) == old(Rows(flow_graph))
      ensures r == max_flow == Flow() - old(Flow())
      ensures IsCut(side, vnum) && Flow() == CutCapacity(Rows(flow_graph), vnum, side)
      ensures Maximum()
    {
      hide Flowing, Indexes, Conserves, Rows, Sum, IsFlow, CutCapacity;
      ghost var cap := Rows(flow_graph);
      FlowingConserves(Lay(), cap, Rows(res_matrix));
      r, side := MaxFlow(res_matrix, vnum, cap);
      max_flow := r;
      ConservesFlowing(Lay(), cap, Rows(res_matrix));
    }

    ghost predicate Maximum()
      reads this, flow_graph, res_matrix
      requires Valid()
    {
      forall g | IsFlow(Rows(flow_graph), g, vnum) :: Value(g) <= Flow()
    }

    /** src/sol/FlowGraph.cc:281-286: every stripe has d nodes to help it. */
    method IsSaturated() returns (r: bool)
      requires Valid() && max_flow == Flow()
      ensures r <==> forall u | Lay().StripeAt(u) :: |Helpers(Lay(), Rows(flow_graph), Rows(res_matrix), u)| == d
    {
      FullIff(Lay(), Rows(flow_graph), Rows(res_matrix));
      r := max_flow == |stripe_id_list| * d;
    }

    /** src/sol/FlowGraph.cc:330-346: the stripes that capacity nodes help. */
    method ChooseStripes(capacity: int) returns (toret: seq<int>)
      requires Valid()
      ensures Distinct(toret) && forall k | 0 <= k < |toret| :: toret[k] in stripe_id_list
      ensures forall u | Lay().StripeAt(u) ::
                Lay().StripeOf(u) in toret <==> |Helpers(Lay(), Rows(flow_graph), Rows(res_matrix), u)| == capacity
    {
      hide Flowing, Conserves, Rows, Helpers;
      toret := [];
      ghost var n: nat := 0;
      for vid := 1 to p + 1
        invariant Distinct(toret) && forall k | 0 <= k < |toret| :: toret[k] in stripe_id_list[..vid - 1]
        invariant forall u | 1 <= u < vid ::
                    Lay().StripeOf(u) in toret <==> |Helpers(Lay(), Rows(flow_graph), Rows(res_matrix), u)| == capacity
      {
        var used := res_matrix[vid, 0];
        UsedIs(Lay(), Rows(flow_graph), Rows(res_matrix), vid);
        var stripeid := vid2sid[vid];
        NewStripe(Lay(), vid);
        if used == capacity {
          NotAmong(toret, stripe_id_list[..vid - 1], stripeid);
          toret := toret + [stripeid];
        }
      }
    }

    /** src/sol/FlowGraph.cc:348-363 */
    method GetRepairNodes() returns (toret: map<int, int>)
      requires Valid()
      ensures AllReadOff(Lay(), Rows(flow_graph), Rows(res_matrix), toret)
    {
      hide Flowing, Conserves, Rows, ReadOff;
      toret := map[];
      ghost var cap, res := Rows(flow_graph), Rows(res_matrix);
      for svid := 1 to p + 1
        invariant toret.Keys <= Elements(stripe_id_list[..svid - 1])
        invariant forall u | 1 <= u < svid :: ReadOff(Lay(), cap, res, toret, u)
      {
        ghost var before := toret;
        toret := RepairNode(svid, toret);
        Extends(Lay(), cap, res, before, toret, svid);
      }
      assert stripe_id_list[..p] == stripe_id_list;
    }

    /** The nodes from which flow reaches the stripe of svid. */
    method RepairNode(svid: nat, toret0: map<int, int>) returns (toret: map<int, int>)
      requires Valid() && Lay().StripeAt(svid) && Lay().StripeOf(svid) !in toret0
      ensures ReadOff(Lay(), Rows(flow_graph), Rows(res_matrix), toret, svid)
      ensures toret == toret0 || (Lay().StripeOf(svid) in toret && toret == toret0[Lay().StripeOf(svid) := toret[Lay().StripeOf(svid)]])
    {
      hide Flowing, Conserves;
      toret := toret0;
      ghost var lay, cap, res := Lay(), Rows(flow_graph), Rows(res_matrix);
      for nvid := p + 1 to p + q + 1
        invariant toret == toret0 || (lay.StripeOf(svid) in toret && toret == toret0[lay.StripeOf(svid) := toret[lay.StripeOf(svid)]])
        invariant lay.StripeOf(svid) in toret ==> exists v :: Serves(lay, cap, res, svid, v) && lay.NodeOf(v) == toret[lay.StripeOf(svid)]
        invariant forall v | p < v < nvid && Serves(lay, cap, res, svid, v) :: lay.StripeOf(svid) in toret
      {
        if flow_graph[svid, nvid] == 1 && res_matrix[svid, nvid] == 0 {
          var sid := vid2sid[svid];
          var nid := vid2nid[nvid];
          assert Serves(lay, cap, res, svid, nvid) && lay.NodeOf(nvid) == nid;
          if sid !in toret {
            toret := toret[sid := nid];
          }
        }
      }
      HelpersNone(lay, cap, res, svid);
    }
  }

  lemma NotAmong<T>(s: seq<T>, among: seq<T>, x: T)
    requires (forall k | 0 <= k < |s| :: s[k] in among) && x !in among
    ensures x !in s
  {}

  lemma HelpersNone(lay: Layout, cap: Matrix, res: Matrix, u: int)
    requires Square(cap, lay.Size()) && Square(res, lay.Size())
    ensures Helpers(lay, cap, res, u) != {} <==> exists v :: Serves(lay, cap, res, u, v)
  {
    if Helpers(lay, cap, res, u) != {} {
      var v := Some(Helpers(lay, cap, res, u));
      assert Serves(lay, cap, res, u, v);
    }
    if v :| Serves(lay, cap, res, u, v) {
      assert v in Helpers(lay, cap, res, u);
    }
  }

  lemma Some<T>(s: set<T>) returns (x: T)
    requires s != {}
    ensures x in s
  {
    x :| x in s;
  }

  lemma FlowingConserves(lay: Layout, cap: Matrix, res: Matrix)
    requires Flowing(lay, cap, res)
    ensures Conserves(cap, res, lay.Size()) && Laid(lay) && HasCapacities(lay, cap)
  {
    hide Conserves, Laid, HasCapacities;
  }

  lemma ConservesFlowing(lay: Layout, cap: Matrix, res: Matrix)
    requires Conserves(cap, res, lay.Size()) && Laid(lay) && HasCapacities(lay, cap)
    ensures Flowing(lay, cap, res)
  {
    hide Conserves, Laid, HasCapacities;
  }

  lemma UsedIs(lay: Layout, cap: Matrix, res: Matrix, u: nat)
    requires Flowing(lay, cap, res) && lay.StripeAt(u)
    ensures Square(cap, lay.Size()) && Square(res, lay.Size()) && res[u][0] == |Helpers(lay, cap, res, u)|
  {
    SourceEntry(lay, cap, res, u);
    HelpersCount(lay, cap, res, u);
  }

  lemma NewStripe(lay: Layout, u: nat)
    requires Distinct(lay.stripes) && lay.StripeAt(u)
    ensures lay.StripeOf(u) !in lay.stripes[..u - 1] && lay.stripes[..u] == lay.stripes[..u - 1] + [lay.StripeOf(u)]
    ensures forall w | 1 <= w < u :: lay.StripeOf(w) != lay.StripeOf(u)
  {}

  lemma Extends(lay: Layout, cap: Matrix, res: Matrix, m: map<int, int>, m': map<int, int>, u: nat)
    requires Square(cap, lay.Size()) && Square(res, lay.Size()) && Distinct(lay.stripes) && lay.StripeAt(u)
    requires m.Keys <= Elements(lay.stripes[..u - 1]) && forall w | 1 <= w < u :: ReadOff(lay, cap, res, m, w)
    requires m' == m || (lay.StripeOf(u) in m' && m' == m[lay.StripeOf(u) := m'[lay.StripeOf(u)]])
    requires ReadOff(lay, cap, res, m', u)
    ensures m'.Keys <= Elements(lay.stripes[..u]) && forall w | 1 <= w <= u :: ReadOff(lay, cap, res, m', w)
  {
    NewStripe(lay, u);
    assert lay.stripes[..u][u - 1] == lay.StripeOf(u);
    hide Helpers, Serves;
    forall w | 1 <= w < u ensures ReadOff(lay, cap, res, m', w) {
      assert ReadOff(lay, cap, res, m, w) && lay.StripeOf(w) != lay.StripeOf(u);
    }
  }

  /** src/sol/FlowGraph.cc:10-23; order is the order in which the map yields its stripes. */
  method Helping(stripemap: map<int, seq<int>>, order: seq<int>, failnid: int) returns (helpers: map<int, seq<int>>)
    requires Elements(order) == stripemap.Keys
    ensures forall i | 0 <= i < |order| :: order[i] in helpers
    ensures forall s | s in stripemap :: s in helpers && forall x :: x in helpers[s] <==> x in stripemap[s] && x != failnid
  {
    helpers := map s | s in stripemap :: Survivors(stripemap[s], failnid);
    forall i | 0 <= i < |order| ensures order[i] in helpers { assert order[i] in Elements(order); }
  }

  /** The candidates of every stripe are the agents outside its placement. */
  ghost predicate Offered(stripelist: seq<Placed>, agentnum: nat, candidates: map<int, seq<int>>) {
    forall i | 0 <= i < |stripelist| :: OfferedTo(stripelist[i], agentnum, candidates)
  }

  ghost predicate OfferedTo(stripe: Placed, agentnum: nat, candidates: map<int, seq<int>>) {
    && stripe.stripeId in candidates
    && forall x :: x in candidates[stripe.stripeId] <==> 0 <= x < agentnum && x !in stripe.placement
  }

  /** src/sol/FlowGraph.cc:97-114 */
  method Places(stripelist: seq<Placed>, agentnum: nat) returns (candidatemap: map<int, seq<int>>)
    requires Distinct(IdsOf(stripelist))
    ensures Offered(stripelist, agentnum, candidatemap)
    ensures forall i | 0 <= i < |stripelist| :: IdsOf(stripelist)[i] in candidatemap
  {
    candidatemap := map[];
    for i := 0 to |stripelist|
      invariant forall k | 0 <= k < i :: OfferedTo(stripelist[k], agentnum, candidatemap)
      invariant forall s | s in candidatemap :: exists k :: 0 <= k < i && IdsOf(stripelist)[k] == s
    {
      var placelist := Outside(stripelist[i].placement, agentnum);
      ghost var before := candidatemap;
      candidatemap := candidatemap[stripelist[i].stripeId := placelist];
      forall k | 0 <= k < i ensures OfferedTo(stripelist[k], agentnum, candidatemap) {
        assert IdsOf(stripelist)[k] != IdsOf(stripelist)[i];
        assert OfferedTo(stripelist[k], agentnum, before);
      }
      assert IdsOf(stripelist)[i] == stripelist[i].stripeId;
    }
  }

  // ---------------------------------------------------------------------------------------------
  // Where the stripes of a batch are repaired

  /** Different nodes for the stripes of m, each an agent that holds no block of its stripe. */
  ghost predicate Placement(stripelist: seq<Placed>, agentnum: nat, m: map<int, int>) {
    && m.Keys <= Elements(IdsOf(stripelist))
    && (forall i | 0 <= i < |stripelist| && stripelist[i].stripeId in m ::
          0 <= m[stripelist[i].stripeId] < agentnum && m[stripelist[i].stripeId] !in stripelist[i].placement)
    && (forall a, b | a in m && b in m && a != b :: m[a] != m[b])
  }

  lemma PlacementIff(stripelist: seq<Placed>, agentnum: nat, lay: Layout, m: map<int, int>)
    requires Offered(stripelist, agentnum, lay.candidates) && multiset(lay.stripes) == multiset(IdsOf(stripelist))
    ensures Placement(stripelist, agentnum, m) <==> Assignment(lay, m)
  {
    SameCounts(lay.stripes, IdsOf(stripelist));
    if Placement(stripelist, agentnum, m) {
      forall s | s in m ensures s in lay.candidates && m[s] in lay.candidates[s] {
        var i := StripeNamed(stripelist, m.Keys, s);
        assert OfferedTo(stripelist[i], agentnum, lay.candidates);
      }
    }
    if Assignment(lay, m) {
      forall i | 0 <= i < |stripelist| && stripelist[i].stripeId in m
        ensures 0 <= m[stripelist[i].stripeId] < agentnum && m[stripelist[i].stripeId] !in stripelist[i].placement
      {
        assert OfferedTo(stripelist[i], agentnum, lay.candidates);
      }
    }
  }

  lemma StripeNamed(stripelist: seq<Placed>, keys: set<int>, s: int) returns (i: nat)
    requires keys <= Elements(IdsOf(stripelist)) && s in keys
    ensures i < |stripelist| && stripelist[i].stripeId == s
  {
    assert s in Elements(IdsOf(stripelist));
    i :| 0 <= i < |stripelist| && IdsOf(stripelist)[i] == s;
  }

  /** src/sol/SecSolution.cc:152-156: the placement found is as large as any, so every stripe gets a node
      exactly when that is possible at all. */
  method PlaceRepairs(stripelist: seq<Placed>, failnid: int, agentnum: nat) returns (sid2nid: map<int, int>)
    requires Distinct(IdsOf(stripelist))
    ensures Placement(stripelist, agentnum, sid2nid)
    ensures forall m | Placement(stripelist, agentnum, m) :: |m| <= |sid2nid|
    ensures |sid2nid| == |stripelist| <==> exists m :: Placement(stripelist, agentnum, m) && m.Keys == Elements(IdsOf(stripelist))
  {
    hide Flowing, Conserves, Rows, AllReadOff, IsFlow, Indexes, Placement, Assignment, Offered, CutCapacity, Sum, Laid, HasCapacities;
    var placement_flowgraph := new FlowGraph.Replacement(stripelist, failnid, agentnum);
    ghost var lay := placement_flowgraph.Lay();
    var r, side := placement_flowgraph.FindMaxFlow();
    sid2nid := placement_flowgraph.GetRepairNodes();
    ghost var cap, res := Rows(placement_flowgraph.flow_graph), Rows(placement_flowgraph.res_matrix);
    ReadOffIs(lay, cap, res, sid2nid);
    FlowingConserves(lay, cap, res);
    NoneLarger(lay, cap, |sid2nid|);
    AsPlacements(stripelist, agentnum, lay, sid2nid);
    CompleteIff(stripelist, agentnum, sid2nid);
  }

  lemma AsPlacements(stripelist: seq<Placed>, agentnum: nat, lay: Layout, best: map<int, int>)
    requires Offered(stripelist, agentnum, lay.candidates) && multiset(lay.stripes) == multiset(IdsOf(stripelist))
    requires Assignment(lay, best) && forall m | Assignment(lay, m) :: |m| <= |best|
    ensures Placement(stripelist, agentnum, best) && forall m | Placement(stripelist, agentnum, m) :: |m| <= |best|
  {
    hide Placement, Assignment;
    PlacementIff(stripelist, agentnum, lay, best);
    forall m | Placement(stripelist, agentnum, m) ensures |m| <= |best| {
      PlacementIff(stripelist, agentnum, lay, m);
    }
  }

  lemma CompleteIff(stripelist: seq<Placed>, agentnum: nat, best: map<int, int>)
    requires Distinct(IdsOf(stripelist)) && Placement(stripelist, agentnum, best)
    requires forall m | Placement(stripelist, agentnum, m) :: |m| <= |best|
    ensures |best| == |stripelist| <==> exists m :: Placement(stripelist, agentnum, m) && m.Keys == Elements(IdsOf(stripelist))
  {
    var ids := IdsOf(stripelist);
    Numbers(ids);
    PlacementKeys(stripelist, agentnum, best);
    hide Placement;
    assert |best| == |best.Keys|;
    if |best| == |stripelist| {
      Whole(best.Keys, Elements(ids));
    }
    if m :| Placement(stripelist, agentnum, m) && m.Keys == Elements(ids) {
      assert |m| == |m.Keys|;
      Part(best.Keys, Elements(ids));
    }
  }

  lemma PlacementKeys(stripelist: seq<Placed>, agentnum: nat, m: map<int, int>)
    requires Placement(stripelist, agentnum, m)
    ensures m.Keys <= Elements(IdsOf(stripelist))
  {}

  lemma {:induction false} Numbers<T>(ids: seq<T>)
    requires Distinct(ids)
    ensures |Elements(ids)| == |ids|
  {
    if ids == [] {
      assert Elements(ids) == {};
    } else {
      var n := |ids| - 1;
      Numbers(ids[..n]);
      assert Elements(ids) == Elements(ids[..n]) + {ids[n]} by {
        forall i | 0 <= i < n ensures ids[i] in Elements(ids[..n]) { assert ids[..n][i] == ids[i]; }
      }
      assert ids[n] !in Elements(ids[..n]);
    }
  }

  lemma Part<T>(a: set<T>, b: set<T>)
    requires a <= b
    ensures |a| <= |b|
  {
    if a != {} {
      var x :| x in a;
      Part(a - {x}, b - {x});
    }
  }

  lemma Whole<T>(a: set<T>, b: set<T>)
    requires a <= b && |a| == |b|
    ensures a == b
  {
    assert |b - a| == 0;
  }
}
