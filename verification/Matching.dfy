/** What a flow through stripes and nodes means: which node serves which stripe (src/sol/FlowGraph.hh:10-36). */
module Matchings {
  import opened Dags
  import opened Flows

  /** The vertices: the source 0, stripe i at 1 + i, node j at 1 + |stripes| + j, and the sink. Every stripe
      may be served by its candidates, and each stripe and node takes part d times. */
  datatype Layout = Layout(stripes: seq<int>, nodes: seq<int>, d: nat, candidates: map<int, seq<int>>) {
    function Size(): nat { |stripes| + |nodes| + 2 }
    function Sink(): nat { |stripes| + |nodes| + 1 }
    predicate StripeAt(v: int) { 1 <= v <= |stripes| }
    predicate NodeAt(v: int) { |stripes| < v <= |stripes| + |nodes| }
    function StripeOf(v: int): int requires StripeAt(v) { stripes[v - 1] }
    function NodeOf(v: int): int requires NodeAt(v) { nodes[v - 1 - |stripes|] }
  }

  ghost predicate Laid(lay: Layout) {
    && Distinct(lay.stripes) && Distinct(lay.nodes)
    && (forall i | 0 <= i < |lay.stripes| :: lay.stripes[i] in lay.candidates)
    && (forall i, j | 0 <= i < |lay.stripes| && 0 <= j < |lay.candidates[lay.stripes[i]]| ::
          lay.candidates[lay.stripes[i]][j] in lay.nodes)
  }

  predicate MayServe(lay: Layout, u: int, v: int)
    requires lay.StripeAt(u) && lay.NodeAt(v)
  {
    lay.StripeOf(u) in lay.candidates && lay.NodeOf(v) in lay.candidates[lay.StripeOf(u)]
  }

  function Capacity(lay: Layout, u: int, v: int): int {
    if u == 0 && lay.StripeAt(v) then lay.d
    else if lay.StripeAt(u) && lay.NodeAt(v) then (if MayServe(lay, u, v) then 1 else 0)
    else if lay.NodeAt(u) && v == lay.Sink() then lay.d
    else 0
  }

  ghost predicate HasCapacities(lay: Layout, cap: Matrix) {
    Square(cap, lay.Size()) && forall u, v | 0 <= u < lay.Size() && 0 <= v < lay.Size() :: cap[u][v] == Capacity(lay, u, v)
  }

  /** The edge from stripe u to node v is used up. */
  predicate Serves(lay: Layout, cap: Matrix, res: Matrix, u: int, v: int)
    requires |cap| == |res| == lay.Size() && (forall x | 0 <= x < |cap| :: |cap[x]| == |res[x]| == lay.Size())
  {
    lay.StripeAt(u) && lay.NodeAt(v) && cap[u][v] == 1 && res[u][v] == 0
  }

  ghost predicate Flowing(lay: Layout, cap: Matrix, res: Matrix) {
    Laid(lay) && HasCapacities(lay, cap) && Conserves(cap, res, lay.Size())
  }

  ghost function Helpers(lay: Layout, cap: Matrix, res: Matrix, u: int): set<int>
    requires Square(cap, lay.Size()) && Square(res, lay.Size())
  {
    set v | 0 <= v < lay.Size() && Serves(lay, cap, res, u, v)
  }

  ghost function Served(lay: Layout, cap: Matrix, res: Matrix, v: int): set<int>
    requires Square(cap, lay.Size()) && Square(res, lay.Size())
  {
    set u | 0 <= u < lay.Size() && Serves(lay, cap, res, u, v)
  }

  /** All that can flow from u to v: nothing where there is no edge either way, one along a used edge. */
  lemma Entry(lay: Layout, cap: Matrix, res: Matrix, u: nat, v: nat)
    requires Flowing(lay, cap, res) && u < lay.Size() && v < lay.Size()
    ensures Capacity(lay, u, v) == 0 == Capacity(lay, v, u) ==> cap[u][v] - res[u][v] == 0
    ensures Capacity(lay, v, u) == 0 ==> 0 <= cap[u][v] - res[u][v] <= Capacity(lay, u, v)
    ensures cap[u][v] - res[u][v] == -(cap[v][u] - res[v][u])
    ensures lay.StripeAt(u) && lay.NodeAt(v) ==> cap[u][v] - res[u][v] == if Serves(lay, cap, res, u, v) then 1 else 0
  {
    hide Laid, Sum, NetRow, MayServe;
    assert cap[u][v] == Capacity(lay, u, v) && cap[v][u] == Capacity(lay, v, u);
    assert res[u][v] + res[v][u] == cap[u][v] + cap[v][u] && 0 <= res[u][v] && 0 <= res[v][u];
  }

  /** A stripe is served by as many nodes as flow it gets from the source. */
  lemma HelpersCount(lay: Layout, cap: Matrix, res: Matrix, u: nat)
    requires Flowing(lay, cap, res) && lay.StripeAt(u)
    ensures Square(cap, lay.Size()) && Square(res, lay.Size())
    ensures |Helpers(lay, cap, res, u)| == cap[0][u] - res[0][u] <= lay.d
  {
    var n := lay.Size();
    var f := NetRow(cap[u], res[u]);
    var r := f[0 := 0];
    var ones := Helpers(lay, cap, res, u);
    Entry(lay, cap, res, 0, u);
    forall v | 0 <= v < n ensures r[v] == if v in ones then 1 else 0 {
      Entry(lay, cap, res, u, v);
    }
    hide Conserves, Laid, HasCapacities, Serves;
    StripeKept(lay, cap, res, u);
    SumUpdate(f, 0, 0);
    SumCounts(r, ones);
  }

  lemma StripeKept(lay: Layout, cap: Matrix, res: Matrix, u: nat)
    requires Flowing(lay, cap, res) && 0 < u < lay.Size() - 1
    ensures Sum(NetRow(cap[u], res[u])) == 0
  {
    hide Sum, HasCapacities, Laid;
  }

  /** A node serves at most d stripes. */
  lemma ServedCount(lay: Layout, cap: Matrix, res: Matrix, v: nat)
    requires Flowing(lay, cap, res) && lay.NodeAt(v)
    ensures Square(cap, lay.Size()) && Square(res, lay.Size())
    ensures |Served(lay, cap, res, v)| <= lay.d
  {
    var n := lay.Size();
    var f := NetRow(cap[v], res[v]);
    var g := NetRow(cap[v], res[v])[lay.Sink() := 0];
    var r := seq(n, u requires 0 <= u < n => -g[u]);
    var ones := Served(lay, cap, res, v);
    Entry(lay, cap, res, v, lay.Sink());
    forall u | 0 <= u < n ensures r[u] == if u in ones then 1 else 0 {
      Entry(lay, cap, res, v, u);
      Entry(lay, cap, res, u, v);
    }
    hide Conserves, Laid, HasCapacities, Serves;
    StripeKept(lay, cap, res, v);
    SumUpdate(f, lay.Sink(), 0);
    SumOpposite(g, r);
    SumCounts(r, ones);
  }

  // ---------------------------------------------------------------------------------------------
  // One node for each stripe

  ghost function Elements<T>(ids: seq<T>): set<T> {
    set i | 0 <= i < |ids| :: ids[i]
  }

  /** Stripes with different nodes, each node a candidate of its stripe. */
  ghost predicate Assignment(lay: Layout, m: map<int, int>) {
    && m.Keys <= Elements(lay.stripes)
    && (forall s | s in m :: s in lay.candidates && m[s] in lay.candidates[s])
    && (forall a, b | a in m && b in m && a != b :: m[a] != m[b])
  }

  /** The places, counted from one, of the members of keys. */
  ghost function Where<T>(ids: seq<T>, keys: set<T>): (w: set<int>)
    ensures forall v :: v in w <==> 1 <= v <= |ids| && ids[v - 1] in keys
  {
    if ids == [] then {}
    else Where(ids[..|ids| - 1], keys) + if ids[|ids| - 1] in keys then {|ids|} else {}
  }

  lemma {:induction false} WhereCount<T>(ids: seq<T>, keys: set<T>)
    requires Distinct(ids) && keys <= Elements(ids)
    ensures |Where(ids, keys)| == |keys|
  {
    hide Elements, Where, Distinct;
    if ids != [] {
      var n := |ids| - 1;
      WithoutLast(ids, keys);
      WhereCount(ids[..n], keys - {ids[n]});
      OneLess(keys, ids[n]);
      OneLess(Where(ids, keys), |ids|);
    } else {
      NoneThere(keys);
    }
  }

  lemma OneLess<T>(s: set<T>, x: T)
    ensures |s| == |s - {x}| + if x in s then 1 else 0
  {
    if x !in s { assert s - {x} == s; }
  }

  lemma NoneThere<T>(keys: set<T>)
    requires keys <= Elements([])
    ensures keys == {} && Where([], keys) == {}
  {}

  lemma WithoutLast<T>(ids: seq<T>, keys: set<T>)
    requires ids != [] && Distinct(ids) && keys <= Elements(ids)
    ensures var n := |ids| - 1;
            keys - {ids[n]} <= Elements(ids[..n]) && Distinct(ids[..n]) &&
            Where(ids, keys) - {|ids|} == Where(ids[..n], keys - {ids[n]}) && (|ids| in Where(ids, keys) <==> ids[n] in keys)
  {
    var n := |ids| - 1;
    forall k | k in keys - {ids[n]} ensures k in Elements(ids[..n]) {
      var i :| 0 <= i < |ids| && ids[i] == k;
      assert ids[..n][i] == k;
    }
  }

  /** The flow along an assignment, from u to v; opposite is the flow from v to u. */
  ghost function Forward(lay: Layout, m: map<int, int>, u: int, v: int): int {
    if u == 0 && lay.StripeAt(v) then (if lay.StripeOf(v) in m then 1 else 0)
    else if lay.StripeAt(u) && lay.NodeAt(v) then (if lay.StripeOf(u) in m && m[lay.StripeOf(u)] == lay.NodeOf(v) then 1 else 0)
    else if lay.NodeAt(u) && v == lay.Sink() then (if Taken(m, lay.NodeOf(u)) then 1 else 0)
    else 0
  }

  ghost predicate Taken(m: map<int, int>, node: int) {
    exists s :: s in m && m[s] == node
  }

  ghost function Along(lay: Layout, m: map<int, int>): (f: Matrix)
    ensures Square(f, lay.Size())
    ensures forall u, v | 0 <= u < lay.Size() && 0 <= v < lay.Size() :: f[u][v] == Forward(lay, m, u, v) - Forward(lay, m, v, u)
  {
    var n := lay.Size();
    seq(n, u requires 0 <= u < n => seq(n, v requires 0 <= v < n => Forward(lay, m, u, v) - Forward(lay, m, v, u)))
  }

  lemma SumPair(r: seq<int>, i: nat, j: nat)
    requires i < |r| && j < |r| && i != j && forall v | 0 <= v < |r| && v != i && v != j :: r[v] == 0
    ensures Sum(r) == r[i] + r[j]
  {
    SumUpdate(r, i, 0);
    SumUpdate(r[i := 0], j, 0);
    SumZero(r[i := 0][j := 0]);
  }

  lemma AlongStripe(lay: Layout, m: map<int, int>, u: nat)
    requires Laid(lay) && Assignment(lay, m) && lay.StripeAt(u)
    ensures Sum(Along(lay, m)[u]) == 0
  {
    var r := Along(lay, m)[u];
    var s := lay.StripeOf(u);
    if s in m {
      var j := PlaceOf(lay, m, u);
      forall v | 0 <= v < |r| && v != 0 && v != j ensures r[v] == 0 {
        if lay.NodeAt(v) { assert lay.nodes[v - 1 - |lay.stripes|] != lay.nodes[j - 1 - |lay.stripes|]; }
      }
      hide Laid, Assignment, Along;
      SumPair(r, 0, j);
    } else {
      SumZero(r);
    }
  }

  /** Where the node that an assignment gives to stripe u is. */
  lemma PlaceOf(lay: Layout, m: map<int, int>, u: nat) returns (v: nat)
    requires Laid(lay) && Assignment(lay, m) && lay.StripeAt(u) && lay.StripeOf(u) in m
    ensures lay.NodeAt(v) && lay.NodeOf(v) == m[lay.StripeOf(u)] && MayServe(lay, u, v)
  {
    var s := lay.StripeOf(u);
    var c := lay.candidates[s];
    var j :| 0 <= j < |c| && c[j] == m[s];
    assert lay.candidates[lay.stripes[u - 1]][j] in lay.nodes;
    var i :| 0 <= i < |lay.nodes| && lay.nodes[i] == c[j];
    v := 1 + |lay.stripes| + i;
  }

  lemma AlongNode(lay: Layout, m: map<int, int>, v: nat)
    requires Laid(lay) && Assignment(lay, m) && lay.NodeAt(v)
    ensures Sum(Along(lay, m)[v]) == 0
  {
    var r := Along(lay, m)[v];
    var node := lay.NodeOf(v);
    if Taken(m, node) {
      var u := StripeServed(lay, m, node);
      forall x | 0 <= x < |r| && x != u && x != lay.Sink() ensures r[x] == 0 {
        if lay.StripeAt(x) && lay.StripeOf(x) in m { OnlyStripe(lay, m, u, x); }
      }
      hide Laid, Assignment, Along;
      SumPair(r, u, lay.Sink());
    } else {
      forall x | 0 <= x < |r| ensures r[x] == 0 {
        if lay.StripeAt(x) && lay.StripeOf(x) in m {
          var s := lay.StripeOf(x);
          assert s in m && m[s] != node;
        }
      }
      SumZero(r);
    }
  }

  lemma StripeServed(lay: Layout, m: map<int, int>, node: int) returns (u: nat)
    requires Assignment(lay, m) && Taken(m, node)
    ensures lay.StripeAt(u) && lay.StripeOf(u) in m && m[lay.StripeOf(u)] == node
  {
    var s :| s in m && m[s] == node;
    assert s in Elements(lay.stripes);
    var i :| 0 <= i < |lay.stripes| && lay.stripes[i] == s;
    u := 1 + i;
  }

  lemma OnlyStripe(lay: Layout, m: map<int, int>, u: nat, x: nat)
    requires Laid(lay) && Assignment(lay, m) && lay.StripeAt(u) && lay.StripeAt(x) && u != x
    requires lay.StripeOf(u) in m && lay.StripeOf(x) in m
    ensures m[lay.StripeOf(u)] != m[lay.StripeOf(x)]
  {
    assert lay.stripes[u - 1] != lay.stripes[x - 1];
  }

  lemma AlongSource(lay: Layout, m: map<int, int>)
    requires Laid(lay) && Assignment(lay, m)
    ensures Value(Along(lay, m)) == |m|
  {
    var ones := Where(lay.stripes, m.Keys);
    SumCounts(Along(lay, m)[0], ones);
    hide Along;
    WhereCount(lay.stripes, m.Keys);
  }

  /** An assignment is a flow: one unit for each stripe that gets a node. */
  lemma AssignmentFlows(lay: Layout, cap: Matrix, m: map<int, int>)
    requires Laid(lay) && HasCapacities(lay, cap) && lay.d >= 1 && Assignment(lay, m)
    ensures IsFlow(cap, Along(lay, m), lay.Size()) && Value(Along(lay, m)) == |m|
  {
    var f, n := Along(lay, m), lay.Size();
    AlongSource(lay, m);
    forall u | 0 < u < n - 1 ensures Sum(f[u]) == 0 {
      if lay.StripeAt(u) { AlongStripe(lay, m, u); } else { AlongNode(lay, m, u); }
    }
    forall u, v | 0 <= u < n && 0 <= v < n ensures f[u][v] <= cap[u][v] {
      ForwardFits(lay, m, u, v);
      ForwardFits(lay, m, v, u);
    }
    hide Sum, Along, Laid, Assignment;
    assert HasCapacities(lay, cap);
  }

  lemma ForwardFits(lay: Layout, m: map<int, int>, u: nat, v: nat)
    requires Assignment(lay, m) && lay.d >= 1
    ensures 0 <= Forward(lay, m, u, v) <= Capacity(lay, u, v)
  {}

  /** No assignment is larger than a maximum flow. */
  lemma NoneLarger(lay: Layout, cap: Matrix, value: int)
    requires Laid(lay) && HasCapacities(lay, cap) && lay.d >= 1 && forall g | IsFlow(cap, g, lay.Size()) :: Value(g) <= value
    ensures forall m | Assignment(lay, m) :: |m| <= value
  {
    hide IsFlow, Assignment;
    forall m | Assignment(lay, m) ensures |m| <= value {
      AssignmentFlows(lay, cap, m);
    }
  }

  // ---------------------------------------------------------------------------------------------
  // Reading an assignment off a flow

  /** Stripe of u is in m exactly when some node serves it, and m names such a node. */
  ghost predicate ReadOff(lay: Layout, cap: Matrix, res: Matrix, m: map<int, int>, u: int)
    requires Square(cap, lay.Size()) && Square(res, lay.Size()) && lay.StripeAt(u)
  {
    && (lay.StripeOf(u) in m <==> Helpers(lay, cap, res, u) != {})
    && (lay.StripeOf(u) in m ==> exists v :: Serves(lay, cap, res, u, v) && lay.NodeOf(v) == m[lay.StripeOf(u)])
  }

  ghost predicate AllReadOff(lay: Layout, cap: Matrix, res: Matrix, m: map<int, int>)
    requires Square(cap, lay.Size()) && Square(res, lay.Size())
  {
    m.Keys <= Elements(lay.stripes) && forall u | lay.StripeAt(u) :: ReadOff(lay, cap, res, m, u)
  }

  lemma PlaceOfStripe(lay: Layout, keys: set<int>, s: int) returns (u: nat)
    requires keys <= Elements(lay.stripes) && s in keys
    ensures lay.StripeAt(u) && lay.StripeOf(u) == s
  {
    assert s in Elements(lay.stripes);
    var i :| 0 <= i < |lay.stripes| && lay.stripes[i] == s;
    u := 1 + i;
  }

  lemma ServesMay(lay: Layout, cap: Matrix, res: Matrix, u: int, v: int)
    requires Flowing(lay, cap, res) && Serves(lay, cap, res, u, v)
    ensures MayServe(lay, u, v)
  {
    hide Laid, Conserves;
    assert cap[u][v] == Capacity(lay, u, v);
  }

  /** With d = 1, no node serves two stripes. */
  lemma ServesOne(lay: Layout, cap: Matrix, res: Matrix, a: int, b: int, v: int)
    requires Flowing(lay, cap, res) && lay.d == 1 && Serves(lay, cap, res, a, v) && Serves(lay, cap, res, b, v)
    ensures a == b
  {
    ServedCount(lay, cap, res, v);
    hide Serves, Flowing;
    TwoOfOne(Served(lay, cap, res, v), a, b);
  }

  lemma TwoOfOne<T>(s: set<T>, a: T, b: T)
    requires |s| <= 1 && a in s && b in s
    ensures a == b
  {
    assert |s - {a}| == |s| - 1;
  }

  lemma SameAt<T>(s: seq<T>, i: nat, j: nat)
    requires Distinct(s) && i < |s| && j < |s| && s[i] == s[j]
    ensures i == j
  {}

  lemma SameNode(lay: Layout, v: int, w: int)
    requires Laid(lay) && lay.NodeAt(v) && lay.NodeAt(w) && lay.NodeOf(v) == lay.NodeOf(w)
    ensures v == w
  {
    SameAt(lay.nodes, v - 1 - |lay.stripes|, w - 1 - |lay.stripes|);
  }

  /** With d = 1, what is read off is an assignment, one stripe for each unit of flow. */
  lemma ReadOffIs(lay: Layout, cap: Matrix, res: Matrix, m: map<int, int>)
    requires Flowing(lay, cap, res) && lay.d == 1 && Square(cap, lay.Size()) && Square(res, lay.Size()) && AllReadOff(lay, cap, res, m)
    ensures Assignment(lay, m) && |m| == Value(Net(cap, res, lay.Size()))
  {
    ReadOffCounts(lay, cap, res, m);
    forall s | s in m ensures s in lay.candidates && m[s] in lay.candidates[s] {
      var u, v := ReadAt(lay, cap, res, m, s);
      ServesMay(lay, cap, res, u, v);
    }
    forall a, b | a in m && b in m && a != b ensures m[a] != m[b] {
      var ua, va := ReadAt(lay, cap, res, m, a);
      var ub, vb := ReadAt(lay, cap, res, m, b);
      if m[a] == m[b] {
        FlowingLaid(lay, cap, res);
        SameNode(lay, va, vb);
        ServesOne(lay, cap, res, ua, ub, va);
      }
    }
    hide Flowing, Serves;
  }

  lemma FlowingLaid(lay: Layout, cap: Matrix, res: Matrix)
    requires Flowing(lay, cap, res)
    ensures Laid(lay) && HasCapacities(lay, cap)
  {
    hide Laid, HasCapacities;
  }

  lemma ReadAt(lay: Layout, cap: Matrix, res: Matrix, m: map<int, int>, s: int) returns (u: nat, v: nat)
    requires Square(cap, lay.Size()) && Square(res, lay.Size()) && AllReadOff(lay, cap, res, m) && s in m
    ensures lay.StripeAt(u) && lay.StripeOf(u) == s && Serves(lay, cap, res, u, v) && lay.NodeOf(v) == m[s]
  {
    u := PlaceOfStripe(lay, m.Keys, s);
    assert ReadOff(lay, cap, res, m, u);
    v :| Serves(lay, cap, res, u, v) && lay.NodeOf(v) == m[s];
  }

  lemma ReadOffCounts(lay: Layout, cap: Matrix, res: Matrix, m: map<int, int>)
    requires Flowing(lay, cap, res) && lay.d == 1 && Square(cap, lay.Size()) && Square(res, lay.Size()) && AllReadOff(lay, cap, res, m)
    ensures |m| == Value(Net(cap, res, lay.Size()))
  {
    var n := lay.Size();
    var r := Net(cap, res, n)[0];
    var ones := Where(lay.stripes, m.Keys);
    FlowingLaid(lay, cap, res);
    hide Flowing, HasCapacities, AllReadOff, Net, ReadOff;
    ReadOffKeys(lay, cap, res, m);
    forall v | 0 <= v < n ensures r[v] == if v in ones then 1 else 0 {
      ReadOffEntry(lay, cap, res, m, v);
    }
    assert ones <= All(|r|);
    SumCounts(r, ones);
    WhereCount(lay.stripes, m.Keys);
  }

  lemma ReadOffKeys(lay: Layout, cap: Matrix, res: Matrix, m: map<int, int>)
    requires Square(cap, lay.Size()) && Square(res, lay.Size()) && AllReadOff(lay, cap, res, m)
    ensures m.Keys <= Elements(lay.stripes)
  {}

  lemma ReadOffEntry(lay: Layout, cap: Matrix, res: Matrix, m: map<int, int>, v: nat)
    requires Flowing(lay, cap, res) && lay.d == 1 && Square(cap, lay.Size()) && Square(res, lay.Size()) && AllReadOff(lay, cap, res, m) && v < lay.Size()
    ensures Net(cap, res, lay.Size())[0][v] == if lay.StripeAt(v) && lay.StripeOf(v) in m then 1 else 0
  {
    SourceEntry(lay, cap, res, v);
    if lay.StripeAt(v) {
      assert ReadOff(lay, cap, res, m, v);
      HelpersCount(lay, cap, res, v);
    }
    hide Flowing, Net, Helpers;
  }

  /** The source sends to stripes only. */
  lemma SourceEntry(lay: Layout, cap: Matrix, res: Matrix, v: nat)
    requires Flowing(lay, cap, res) && v < lay.Size()
    ensures Square(cap, lay.Size()) && Square(res, lay.Size())
    ensures Net(cap, res, lay.Size())[0][v] == cap[0][v] - res[0][v]
    ensures !lay.StripeAt(v) ==> cap[0][v] - res[0][v] == 0
    ensures lay.StripeAt(v) ==> 0 <= cap[0][v] - res[0][v] <= lay.d && res[v][0] == cap[0][v] - res[0][v]
  {
    Entry(lay, cap, res, 0, v);
    Entry(lay, cap, res, v, 0);
    hide Laid, Sum, MayServe, Conserves;
    assert cap[v][0] == Capacity(lay, v, 0);
  }

  // ---------------------------------------------------------------------------------------------
  // All stripes served in full

  ghost function Most(lay: Layout, k: nat): (r: seq<int>)
    ensures |r| == k && forall v | 0 <= v < k :: r[v] == if lay.StripeAt(v) then lay.d else 0
  {
    seq(k, v => if lay.StripeAt(v) then lay.d else 0)
  }

  ghost function Times(a: nat, b: nat): nat {
    if a == 0 then 0 else Times(a - 1, b) + b
  }

  lemma {:induction false} TimesIs(a: nat, b: nat)
    ensures Times(a, b) == a * b
  {
    if a > 0 { TimesIs(a - 1, b); }
  }

  lemma {:induction false} MostSum(lay: Layout, k: nat)
    ensures Sum(Most(lay, k)) == Times(if k == 0 then 0 else if k - 1 <= |lay.stripes| then k - 1 else |lay.stripes|, lay.d)
  {
    if k > 0 {
      MostSum(lay, k - 1);
      assert Most(lay, k)[..k - 1] == Most(lay, k - 1);
    }
  }

  lemma {:induction false} SumEqual(a: seq<int>, b: seq<int>)
    requires |a| == |b| && (forall i | 0 <= i < |a| :: a[i] <= b[i]) && Sum(a) == Sum(b)
    ensures a == b
  {
    if a != [] {
      var n := |a| - 1;
      SumMonotone(a[..n], b[..n]);
      SumEqual(a[..n], b[..n]);
      assert a == a[..n] + [a[n]] && b == b[..n] + [b[n]];
    }
  }

  /** The flow is as large as can be exactly when every stripe has d helpers. */
  lemma FullIff(lay: Layout, cap: Matrix, res: Matrix)
    requires Flowing(lay, cap, res) && Square(cap, lay.Size()) && Square(res, lay.Size())
    ensures Value(Net(cap, res, lay.Size())) == |lay.stripes| * lay.d <==>
            forall u | lay.StripeAt(u) :: |Helpers(lay, cap, res, u)| == lay.d
  {
    var n := lay.Size();
    var r, most := Net(cap, res, n)[0], Most(lay, n);
    forall v | 0 <= v < n ensures r[v] <= most[v] && (lay.StripeAt(v) ==> r[v] == |Helpers(lay, cap, res, v)|) && (!lay.StripeAt(v) ==> r[v] == 0) {
      SourceEntry(lay, cap, res, v);
      if lay.StripeAt(v) { HelpersCount(lay, cap, res, v); }
    }
    hide Flowing, Net, Helpers;
    MostSum(lay, n);
    TimesIs(|lay.stripes|, lay.d);
    if Sum(r) == Sum(most) {
      SumEqual(r, most);
    }
    if forall u | lay.StripeAt(u) :: |Helpers(lay, cap, res, u)| == lay.d {
      assert r == most;
    }
  }
}
