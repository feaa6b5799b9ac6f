/** The greedy colouring of a single stripe (src/sol/BalanceSolution.cc): vertices are coloured in
    topological order with the child colour that keeps the local load lowest. */
module Balance {
  import opened Dags
  import opened Traffic
  import opened Recolouring
  import opened Stripes
  import E = Ecdags
  import S = Sorting

  const INT_MAX := 2147483647

  /** Two figures of merit of a candidate. */
  datatype State = State(load: int, bdwt: int)

  /** The lexicographic order behind isBetter. */
  predicate AtLeastAsGood(a: State, b: State) {
    a.load < b.load || (a.load == b.load && a.bdwt <= b.bdwt)
  }

  /** src/sol/BalanceSolution.cc:101-116; the random branch behind the second test is unreachable. */
  function IsBetter(a: State, b: State): (r: bool)
    ensures r <==> AtLeastAsGood(a, b)
  {
    if a.load < b.load then true
    else if a.load == b.load then a.bdwt <= b.bdwt
    else false
  }

  /** Every colouring's traffic can be counted in an int. */
  ghost predicate FitsInt<C>(g: Dag<C>) {
    forall col: Coloring :: |Shipments(g, col)| <= INT_MAX
  }

  /** m is the largest counter of the nodes, in or out, or 0. */
  ghost predicate IsMaxLoad(t: set<Xfer>, nodes: set<int>, m: int) {
    && 0 <= m && (forall c | c in nodes :: InOf(t, c) <= m && OutOf(t, c) <= m)
    && (m == 0 || exists c :: c in nodes && (m == InOf(t, c) || m == OutOf(t, c)))
  }

  lemma MaxLoadMore(t: set<Xfer>, nodes: set<int>, m: int, c: int)
    requires IsMaxLoad(t, nodes, m)
    ensures var m1 := if OutOf(t, c) > m then OutOf(t, c) else m;
            IsMaxLoad(t, nodes + {c}, if InOf(t, c) > m1 then InOf(t, c) else m1)
  {
    hide InOf, OutOf;
    assert c in nodes + {c};
    if m > 0 {
      var d :| d in nodes && (m == InOf(t, d) || m == OutOf(t, d));
      assert d in nodes + {c};
    }
  }

  ghost function MaxLoad(t: set<Xfer>, nodes: set<int>): (m: nat)
    ensures IsMaxLoad(t, nodes, m)
    decreases nodes
  {
    if nodes == {} then 0
    else
      var c := Pick(nodes);
      var m := MaxLoad(t, nodes - {c});
      MaxLoadMore(t, nodes - {c}, m, c);
      assert nodes - {c} + {c} == nodes;
      var m1 := if OutOf(t, c) > m then OutOf(t, c) else m;
      if InOf(t, c) > m1 then InOf(t, c) else m1
  }

  lemma MaxLoadUnique(t: set<Xfer>, nodes: set<int>, m: int)
    requires IsMaxLoad(t, nodes, m)
    ensures m == MaxLoad(t, nodes) <= |t|
  {
    hide InOf, OutOf;
    forall c ensures InOf(t, c) <= |t| && OutOf(t, c) <= |t| { CounterBounded(t, c); }
    assert IsMaxLoad(t, nodes, MaxLoad(t, nodes));
  }

  lemma CounterBounded(t: set<Xfer>, c: int)
    ensures InOf(t, c) <= |t| && OutOf(t, c) <= |t|
  {
    Subset((set e | e in t && e.dst == c), t);
    Subset((set e | e in t && e.src == c), t);
  }

  lemma Subset<T>(a: set<T>, b: set<T>)
    requires a <= b
    ensures |a| <= |b|
  {
    assert b == a + (b - a) && a !! b - a;
  }

  /** What the local evaluation of a candidate colour measures: the largest counter of the nodes, and all shipments. */
  ghost function Merit<C>(g: Dag<C>, col: Coloring, idx: int, c: int, nodes: set<int>): (r: State)
    ensures var t := Shipments(g, col[idx := c]); IsMaxLoad(t, nodes, r.load) && r.bdwt == |t|
  {
    hide Shipments, InOf, OutOf;
    var t := Shipments(g, col[idx := c]);
    State(MaxLoad(t, nodes), |t|)
  }

  // ---------------------------------------------------------------------------------------------
  // The greedy choice

  /** The colouring before the vertices from place i of topo on got their colours. */
  ghost function Before(col: Coloring, topo: seq<int>, i: nat): Coloring
    requires i <= |topo|
  {
    map v | v in col :: if v in topo[i..] then -1 else col[v]
  }

  /** The colours of v's children. */
  ghost function ChildPalette<C>(g: Dag<C>, col: Coloring, v: int): set<int>
    requires v in g
  {
    set k | 0 <= k < |g[v].children| && g[v].children[k] in col && col[g[v].children[k]] != -1 :: col[g[v].children[k]]
  }

  /** Of the colours of v's children, c makes for the least load of these nodes, and then for the fewest shipments; it is
      -1 only if there are none. */
  ghost predicate BestOfChildren<C>(g: Dag<C>, col: Coloring, v: int, c: int)
    requires v in g
  {
    var cs := ChildPalette(g, col, v);
    if cs == {} then c == -1
    else c in cs && forall d | d in cs :: AtLeastAsGood(Merit(g, col, v, c, cs), Merit(g, col, v, d, cs))
  }

  ghost predicate ChosenAt<C>(g: Dag<C>, col: Coloring, topo: seq<int>, i: int)
    requires 0 <= i < |topo|
  {
    topo[i] in g && topo[i] in col && BestOfChildren(g, Before(col, topo, i), topo[i], col[topo[i]])
  }

  /** Each of the first n vertices of topo got the best of its children's colours, given the colours before. */
  ghost predicate GreedyUpto<C>(g: Dag<C>, col: Coloring, topo: seq<int>, n: int)
    requires n <= |topo|
  {
    forall i | 0 <= i < n :: ChosenAt(g, col, topo, i)
  }

  ghost predicate Greedy<C>(g: Dag<C>, col: Coloring, topo: seq<int>) {
    GreedyUpto(g, col, topo, |topo|)
  }

  lemma NoneChosen<C>(g: Dag<C>, col: Coloring, topo: seq<int>)
    ensures GreedyUpto(g, col, topo, 0)
  {}

  /** A vertex's colour does not show before it was chosen. */
  lemma BeforeStays(col: Coloring, topo: seq<int>, i: nat, c: int, j: nat)
    requires j <= i < |topo| && topo[i] in col
    ensures Before(col[topo[i] := c], topo, j) == Before(col, topo, j)
  {
    assert topo[j..][i - j] == topo[i];
  }

  lemma BeforeNow(col: Coloring, topo: seq<int>, i: nat)
    requires i <= |topo| && forall j | i <= j < |topo| :: topo[j] in col && col[topo[j]] == -1
    ensures Before(col, topo, i) == col
  {
    forall v | v in col && v in topo[i..] ensures col[v] == -1 {
      var j :| 0 <= j < |topo[i..]| && topo[i..][j] == v;
      assert topo[i + j] == v;
    }
  }

  lemma GreedyMore<C>(g: Dag<C>, col: Coloring, topo: seq<int>, i: nat, c: int)
    requires i < |topo| && GreedyUpto(g, col, topo, i) && Distinct(topo)
    requires (forall j | i <= j < |topo| :: topo[j] in col && col[topo[j]] == -1) && topo[i] in g && BestOfChildren(g, col, topo[i], c)
    ensures GreedyUpto(g, col[topo[i] := c], topo, i + 1)
  {
    hide BestOfChildren, Before;
    var col' := col[topo[i] := c];
    forall j | 0 <= j < i + 1 ensures ChosenAt(g, col', topo, j) {
      BeforeStays(col, topo, i, c, j);
      if j == i { BeforeNow(col, topo, i); } else { assert ChosenAt(g, col, topo, j); }
    }
  }

  /** The list of a vertex's child colours has exactly those. */
  lemma PaletteListed<C>(g: Dag<C>, col: Coloring, v: int, cs: seq<int>)
    requires Colored(g, col) && v in g && forall i | 0 <= i < |cs| :: cs[i] != -1 && ChildColor(g, col, v, cs[i])
    requires forall k | 0 <= k < |g[v].children| :: col[g[v].children[k]] != -1 ==> exists i | 0 <= i < |cs| :: cs[i] == col[g[v].children[k]]
    ensures ChildPalette(g, col, v) == E.Elements(cs)
  {
    forall c | c in E.Elements(cs) ensures c in ChildPalette(g, col, v) {
      var i :| 0 <= i < |cs| && cs[i] == c;
      var k :| 0 <= k < |g[v].children| && col[g[v].children[k]] == cs[i];
    }
  }

  /** What chooseColor returns for the list is the best of the children's colours. */
  lemma BestOfListed<C>(g: Dag<C>, col: Coloring, v: int, cs: seq<int>, c: int)
    requires Colored(g, col) && v in g && ChildPalette(g, col, v) == E.Elements(cs)
    requires (c == -1 <==> cs == []) && (c != -1 ==> c in cs)
    requires forall i | 0 <= i < |cs| :: cs[i] != -1 &&
               AtLeastAsGood(Merit(g, col, v, c, E.Elements(cs)), Merit(g, col, v, cs[i], E.Elements(cs)))
    ensures BestOfChildren(g, col, v, c)
  {
    hide Merit, ChildPalette;
    if cs != [] { assert cs[0] in E.Elements(cs); } else { assert E.Elements(cs) == {}; }
  }

  /** The leaves from which v is computed. */
  ghost function LeavesBelow<C>(g: Dag<C>, rank: map<int, nat>, v: int): set<int>
    requires Closed(g) && Ranked(g, rank) && v in g
    decreases rank[v]
  {
    if g[v].children == [] then {v}
    else set i, l | 0 <= i < |g[v].children| && l in LeavesBelow(g, rank, g[v].children[i]) :: l
  }

  /** Uncoloured iff everything below is; otherwise coloured like some leaf below. */
  ghost predicate ColoredFromBelow<C>(g: Dag<C>, rank: map<int, nat>, col: Coloring, v: int)
    requires Colored(g, col) && Ranked(g, rank) && v in g
  {
    var below := LeavesBelow(g, rank, v);
    && (forall l | l in below :: l in g)
    && (if col[v] == -1 then forall l | l in below :: l in col && col[l] == -1
        else exists l :: l in below && l in col && col[l] == col[v])
  }

  lemma {:induction false} LeavesAreLeaves<C>(g: Dag<C>, rank: map<int, nat>, v: int)
    requires Closed(g) && Ranked(g, rank) && v in g
    ensures forall l | l in LeavesBelow(g, rank, v) :: l in g && g[l].children == []
    decreases rank[v]
  {
    forall i | 0 <= i < |g[v].children|
      ensures forall l | l in LeavesBelow(g, rank, g[v].children[i]) :: l in g && g[l].children == []
    {
      LeavesAreLeaves(g, rank, g[v].children[i]);
    }
  }

  /** Colouring a vertex that is no leaf does not disturb the correspondence elsewhere. */
  lemma ColoredFromBelowStable<C>(g: Dag<C>, rank: map<int, nat>, col: Coloring, v: int, idx: int, c: int)
    requires Colored(g, col) && Ranked(g, rank) && v in g && idx in g && idx != v && g[idx].children != []
    requires ColoredFromBelow(g, rank, col, v)
    ensures ColoredFromBelow(g, rank, col[idx := c], v)
  {
    LeavesAreLeaves(g, rank, v);
  }

  lemma LeafColored<C>(g: Dag<C>, rank: map<int, nat>, col: Coloring, v: int)
    requires Colored(g, col) && Ranked(g, rank) && v in g && g[v].children == []
    ensures ColoredFromBelow(g, rank, col, v)
  {
    assert LeavesBelow(g, rank, v) == {v};
  }

  /** Taking the colour of a coloured child, or -1 if there is none, keeps the correspondence. */
  lemma InheritColor<C>(g: Dag<C>, rank: map<int, nat>, col: Coloring, v: int)
    requires Colored(g, col) && Ranked(g, rank) && v in g && g[v].children != []
    requires forall i | 0 <= i < |g[v].children| :: ColoredFromBelow(g, rank, col, g[v].children[i])
    requires if col[v] == -1 then forall i | 0 <= i < |g[v].children| :: col[g[v].children[i]] == -1
             else exists i | 0 <= i < |g[v].children| :: col[g[v].children[i]] == col[v]
    ensures ColoredFromBelow(g, rank, col, v)
  {
    var below := LeavesBelow(g, rank, v);
    forall l | l in below
      ensures l in g && (col[v] == -1 ==> col[l] == -1)
    {
      var i :| 0 <= i < |g[v].children| && l in LeavesBelow(g, rank, g[v].children[i]);
      assert ColoredFromBelow(g, rank, col, g[v].children[i]);
    }
    if col[v] != -1 {
      var i :| 0 <= i < |g[v].children| && col[g[v].children[i]] == col[v];
      var l :| l in LeavesBelow(g, rank, g[v].children[i]) && l in col && col[l] == col[v];
      assert l in below;
    }
  }

  /** The colouring after the first i vertices of topo. */
  ghost predicate Progress<C>(g: Dag<C>, col: Coloring, n: nat, rank: map<int, nat>, topo: seq<int>, i: int, coloring0: Coloring)
    requires 0 <= i <= |topo|
  {
    && Colored(g, col) && Ranked(g, rank)
    && (forall v | v in col :: -1 <= col[v] < n)
    && (forall j | 0 <= j < |topo| :: topo[j] in g)
    && (forall j | i <= j < |topo| :: col[topo[j]] == -1)
    && (forall j | 0 <= j < i :: ColoredFromBelow(g, rank, col, topo[j]))
    && (forall v | v in coloring0 :: v in col && col[v] == coloring0[v])
  }

  /** What genBalanceColoringForSingleFailure (src/sol/BalanceSolution.cc:270-345) hands over: an acyclic DAG whose
      leaves and headers are coloured with -1 or one of n nodes. */
  ghost predicate Problem<C>(g: Dag<C>, rank: map<int, nat>, coloring0: Coloring, n: nat) {
    && Mirrored(g) && SimpleEdges(g) && Ranked(g, rank)
    && (forall v | v in g :: g[v].kind.Leaf? <==> g[v].children == [])
    && (forall v | v in g && g[v].kind.Leaf? :: v in coloring0)
    && (forall v | v in coloring0 :: v in g && !g[v].kind.Intermediate? && -1 <= coloring0[v] < n)
  }

  /** Some leaf below v has a colour, so v will get one. */
  ghost predicate ToColor<C>(g: Dag<C>, rank: map<int, nat>, col: Coloring, v: int)
    requires Closed(g) && Ranked(g, rank)
  {
    v in g && g[v].kind.Intermediate? && exists l :: l in LeavesBelow(g, rank, v) && l in col && col[l] != -1
  }

  /** Two vertices will be coloured, and so the second one after a first. */
  ghost predicate TwoToColor<C>(g: Dag<C>, rank: map<int, nat>, col: Coloring)
    requires Closed(g) && Ranked(g, rank)
  {
    exists v, w :: v != w && ToColor(g, rank, col, v) && ToColor(g, rank, col, w)
  }

  /** A run of SingleMLP: to its end, or to a table access behind the table's last row. */
  datatype Outcome = Done(coloring: Coloring) | OutOfTable

  class BalanceSolution {
    const cluster_size: nat

    constructor (n: nat)
      ensures cluster_size == n
    {
      cluster_size := n;
    }

    /** src/sol/BalanceSolution.cc:362-379: maximum over the listed nodes, bandwidth over all. */
    method EvalTable(table: LoadTable, colors: seq<int>, ghost t: set<Xfer>) returns (st: State)
      requires TableIs(table, t) && forall e | e in t :: 0 <= e.dst < |table|
      requires forall i | 0 <= i < |colors| :: 0 <= colors[i] < |table|
      ensures st.bdwt == |t| && IsMaxLoad(t, E.Elements(colors), st.load)
    {
      hide InOf, OutOf, IsMaxLoad;
      var bdwt, load := 0, 0;
      ghost var nodes: set<int> := {};
      assert Into(t, nodes) == {};
      for i := 0 to |table|
        invariant forall c :: c in nodes <==> 0 <= c < i
        invariant bdwt == |Into(t, nodes)|
      {
        IntoStep(t, nodes, i);
        bdwt := bdwt + table[i].inn;
        nodes := nodes + {i};
      }
      assert Into(t, nodes) == t;
      NothingListed(t, colors);
      for i := 0 to |colors|
        invariant IsMaxLoad(t, E.Elements(colors[..i]), load)
      {
        E.ElementsNext(colors, i);
        var c := colors[i];
        MaxLoadMore(t, E.Elements(colors[..i]), load, c);
        if table[c].out > load {
          load := table[c].out;
        }
        if table[c].inn > load {
          load := table[c].inn;
        }
      }
      assert colors[..|colors|] == colors;
      st := State(load, bdwt);
    }

    /** src/sol/BalanceSolution.cc:138-156: among the child colours, the one with the least local load
        and then the least traffic; -1 if there is none. */
    method ChooseColorSingle<C>(stripe: Stripe<C>, childColors: seq<int>, idx: int) returns (best: int)
      requires stripe.Ready() && (childColors != [] ==> stripe.InRange(cluster_size)) && FitsInt(stripe.ecdag)
      requires Counts(stripe.inn, stripe.out, Shipments(stripe.ecdag, stripe.coloring))
      requires idx in stripe.ecdag && stripe.coloring[idx] == -1
      requires forall i | 0 <= i < |childColors| :: 0 <= childColors[i] < cluster_size
      requires forall c :: c != -1 ==> Recolours(stripe.ecdag, stripe.coloring, idx, c)
      ensures best == -1 <==> childColors == []
      ensures best != -1 ==> best in childColors && 0 <= best < cluster_size
      ensures forall i | 0 <= i < |childColors| ::
                AtLeastAsGood(Merit(stripe.ecdag, stripe.coloring, idx, best, E.Elements(childColors)),
                              Merit(stripe.ecdag, stripe.coloring, idx, childColors[i], E.Elements(childColors)))
    {
      hide Merit, Counts, Shipments, FitsInt, IsMaxLoad, E.Elements, Recolours, Distinct;
      best := -1;
      var bestState := State(INT_MAX, INT_MAX);
      ghost var nodes := E.Elements(childColors);
      for i := 0 to |childColors|
        invariant best == -1 <==> i == 0
        invariant best != -1 ==> best in childColors && 0 <= best < cluster_size
        invariant if best == -1 then bestState == State(INT_MAX, INT_MAX)
                  else bestState == Merit(stripe.ecdag, stripe.coloring, idx, best, nodes)
        invariant forall j | 0 <= j < i :: AtLeastAsGood(bestState, Merit(stripe.ecdag, stripe.coloring, idx, childColors[j], nodes))
      {
        var newColor := childColors[i];
        assert newColor != -1;
        var state := Try(stripe, childColors, idx, newColor);
        if IsBetter(state, bestState) {
          bestState, best := state, newColor;
          assert best in childColors;
        }
      }
    }

    /** src/sol/BalanceSolution.cc:185-232. The stripe's tables equal the from-scratch evaluation throughout, and in
        the end every vertex between leaves and headers has the colour of a leaf below it, or -1 exactly when all
        of those are -1. But each time a vertex was coloured, dumpLoad(14) has put the nodes 0 to 13 into the
        tables, and the next prediction copies them into a table of cluster_size rows: with fewer than 14 nodes
        the run gets through if and only if at most one vertex is to be coloured. */
    method SingleMLP<C>(stripe: Stripe<C>, itm_idx: seq<int>, dag: E.ECDAG<C>, coloring0: Coloring, ghost rank: map<int, nat>)
      returns (r: Outcome, ghost topo: seq<int>)
      requires dag.Valid() && dag.nodes == stripe.ecdag
      requires Problem(stripe.ecdag, rank, coloring0, cluster_size) && FitsInt(stripe.ecdag)
      requires coloring0.Keys + (set v | v in itm_idx) == stripe.ecdag.Keys
      modifies stripe`coloring, stripe`inn, stripe`out, stripe`bdwt, stripe`load
      ensures r.OutOfTable? <==> cluster_size < 14 && TwoToColor(stripe.ecdag, rank, coloring0)
      ensures r.Done? ==> stripe.coloring == r.coloring && stripe.Ready() && stripe.Evaluated()
      ensures r.Done? ==> forall v | v in coloring0 :: v in r.coloring && r.coloring[v] == coloring0[v]
      ensures r.Done? ==> forall v | v in stripe.ecdag && stripe.ecdag[v].kind.Intermediate? ::
                v in r.coloring && ColoredFromBelow(stripe.ecdag, rank, r.coloring, v)
      ensures r.Done? ==> InOrder(stripe.ecdag, topo) && Greedy(stripe.ecdag, r.coloring, topo)
    {
      hide Shipments, Counts, Recolours, Palette, ColoredFromBelow, TopoOrder, FitsInt, Mirrored, SimpleEdges, E.Shape, E.ListsFit, S.Ordered,
           LeavesBelow, TwoToColor, AtMostOne, NoneColored, InOrder, Summarises, InOf, OutOf, Closed, Ranked, Problem, GreedyUpto;
      var topoIdxs, coloring := StartColoring(stripe, itm_idx, dag, coloring0, rank);
      topo := topoIdxs;
      NoneChosen(stripe.ecdag, coloring, topo);
      for i := 0 to |topoIdxs|
        invariant GreedyUpto(stripe.ecdag, coloring, topo, i)
        invariant stripe.coloring == coloring && Counts(stripe.inn, stripe.out, Shipments(stripe.ecdag, coloring))
        invariant Progress(stripe.ecdag, coloring, cluster_size, rank, topo, i, coloring0)
        invariant stripe.TablesFit(cluster_size) <==> 14 <= cluster_size || NoneColored(coloring, topo, i)
        invariant cluster_size < 14 ==> AtMostOne(coloring, topo, i)
      {
        var ok;
        coloring, ok := ColorNext(stripe, rank, topoIdxs, i, coloring0, coloring);
        if !ok {
          return OutOfTable, topo;
        }
      }
      stripe.EvaluateColoring();
      r := Done(coloring);
      Finish(stripe.ecdag, rank, coloring0, cluster_size, coloring, topo);
    }

    /** src/sol/BalanceSolution.cc:191-197: the order, the vertices without a colour and the first evaluation. */
    method StartColoring<C>(stripe: Stripe<C>, itm_idx: seq<int>, dag: E.ECDAG<C>, coloring0: Coloring, ghost rank: map<int, nat>)
      returns (topo: seq<int>, coloring: Coloring)
      requires dag.Valid() && dag.nodes == stripe.ecdag
      requires Problem(stripe.ecdag, rank, coloring0, cluster_size)
      requires coloring0.Keys + (set v | v in itm_idx) == stripe.ecdag.Keys
      modifies stripe`coloring, stripe`inn, stripe`out, stripe`bdwt, stripe`load
      ensures stripe.coloring == coloring && Counts(stripe.inn, stripe.out, Shipments(stripe.ecdag, coloring))
      ensures InOrder(stripe.ecdag, topo) && Progress(stripe.ecdag, coloring, cluster_size, rank, topo, 0, coloring0)
      ensures stripe.TablesFit(cluster_size) && NoneColored(coloring, topo, 0) && AtMostOne(coloring, topo, 0)
    {
      hide Shipments, Counts, Palette, ColoredFromBelow, TopoOrder, Mirrored, SimpleEdges, E.Shape, E.ListsFit, S.Ordered,
           AtMostOne, NoneColored, InOrder, Summarises, Closed, Ranked;
      topo := S.GenTopoIdxs(dag);
      coloring := Uncolored(coloring0, itm_idx);
      stripe.SetColoring(coloring);
      Blank(stripe.ecdag, rank, coloring0, cluster_size, coloring, topo);
      stripe.EvaluateColoring();
      PaletteInRange(coloring, cluster_size);
      GrownInRange(map[], map[], stripe.inn, stripe.out, Palette(coloring), cluster_size);
      NoneYet(coloring, topo);
    }

    /** coloring.insert(make_pair(it, -1)) for every intermediate vertex. */
    method Uncolored(coloring0: Coloring, itm_idx: seq<int>) returns (coloring: Coloring)
      ensures coloring.Keys == coloring0.Keys + (set v | v in itm_idx)
      ensures forall v | v in coloring :: coloring[v] == if v in coloring0 then coloring0[v] else -1
    {
      coloring := coloring0;
      for i := 0 to |itm_idx|
        invariant coloring.Keys == coloring0.Keys + (set v | v in itm_idx[..i])
        invariant forall v | v in coloring :: coloring[v] == if v in coloring0 then coloring0[v] else -1
      {
        assert itm_idx[..i + 1] == itm_idx[..i] + [itm_idx[i]];
        if itm_idx[i] !in coloring {
          coloring := coloring[itm_idx[i] := -1];
        }
      }
      assert itm_idx[..|itm_idx|] == itm_idx;
    }

    /** One round of SingleMLP; not ok if its first prediction writes behind the table. */
    method ColorNext<C>(stripe: Stripe<C>, ghost rank: map<int, nat>, topo: seq<int>, i: nat, ghost coloring0: Coloring,
                        coloring: Coloring) returns (coloring': Coloring, ok: bool)
      requires i < |topo| && stripe.coloring == coloring && Counts(stripe.inn, stripe.out, Shipments(stripe.ecdag, coloring))
      requires Progress(stripe.ecdag, coloring, cluster_size, rank, topo, i, coloring0)
      requires Problem(stripe.ecdag, rank, coloring0, cluster_size) && FitsInt(stripe.ecdag) && InOrder(stripe.ecdag, topo)
      requires stripe.TablesFit(cluster_size) <==> 14 <= cluster_size || NoneColored(coloring, topo, i)
      requires (cluster_size < 14 ==> AtMostOne(coloring, topo, i)) && GreedyUpto(stripe.ecdag, coloring, topo, i)
      modifies stripe`coloring, stripe`inn, stripe`out, stripe`bdwt, stripe`load
      ensures stripe.coloring == coloring' && Counts(stripe.inn, stripe.out, Shipments(stripe.ecdag, coloring'))
      ensures !ok ==> cluster_size < 14 && TwoToColor(stripe.ecdag, rank, coloring0)
      ensures ok ==> Progress(stripe.ecdag, coloring', cluster_size, rank, topo, i + 1, coloring0)
      ensures ok ==> (stripe.TablesFit(cluster_size) <==> 14 <= cluster_size || NoneColored(coloring', topo, i + 1))
      ensures ok && cluster_size < 14 ==> AtMostOne(coloring', topo, i + 1)
      ensures ok ==> GreedyUpto(stripe.ecdag, coloring', topo, i + 1)
    {
      hide Shipments, Counts, Palette, ColoredFromBelow, FitsInt, Moved, Mirrored, SimpleEdges, Grown, LeavesBelow, TwoToColor, NoneColored, AtMostOne,
           InOrder, TopoOrder, Recolours, GreedyUpto, Merit, ChildPalette, BestOfChildren, E.Elements;
      var idx := topo[i];
      var oldColor := coloring[idx];
      var childColors := stripe.ChildColors(idx);
      if childColors != [] && !stripe.TablesFit(cluster_size) {
        SecondOne(stripe.ecdag, rank, coloring0, cluster_size, coloring, topo, i, childColors[0]);
        return coloring, false;
      }
      ok := true;
      OrderAt(stripe.ecdag, rank, coloring0, cluster_size, topo, i);
      ChildColorsInRange(stripe.ecdag, stripe.coloring, idx, childColors, cluster_size);
      AnyColorAllowed(stripe.ecdag, rank, stripe.coloring, idx);
      var bestColor := ChooseColorSingle(stripe, childColors, idx);
      ColoredUpTo(stripe.ecdag, rank, stripe.coloring, topo, i, bestColor);
      ghost var col0 := stripe.coloring;
      NextProgress(stripe.ecdag, col0, cluster_size, rank, topo, i, coloring0, bestColor);
      OneMore(col0, topo, i, bestColor);
      PaletteListed(stripe.ecdag, col0, idx, childColors);
      BestOfListed(stripe.ecdag, col0, idx, childColors, bestColor);
      GreedyMore(stripe.ecdag, col0, topo, i, bestColor);
      if bestColor == oldColor {
        coloring' := coloring;
        assert col0[idx := bestColor] == col0;
      } else {
        coloring' := coloring[idx := bestColor];
        TakeColor(stripe, idx, bestColor);
      }
    }

    /** src/sol/BalanceSolution.cc:218-220: the chosen colour is taken and the nodes 0 to 13 are dumped. */
    method TakeColor<C>(stripe: Stripe<C>, idx: int, bestColor: int)
      requires Recolours(stripe.ecdag, stripe.coloring, idx, bestColor) && 0 <= bestColor < cluster_size
      requires Counts(stripe.inn, stripe.out, Shipments(stripe.ecdag, stripe.coloring)) && stripe.InRange(cluster_size)
      modifies stripe`coloring, stripe`inn, stripe`out, stripe`bdwt, stripe`load
      ensures stripe.coloring == old(stripe.coloring)[idx := bestColor]
      ensures Counts(stripe.inn, stripe.out, Shipments(stripe.ecdag, stripe.coloring))
      ensures stripe.TablesFit(cluster_size) <==> 14 <= cluster_size
    {
      hide Shipments, Counts, Palette, Moved, Grown, Recolours;
      ghost var inn0, out0, col0 := stripe.inn, stripe.out, stripe.coloring;
      stripe.ChangeColor(idx, bestColor);
      PaletteInRange(col0, cluster_size);
      GrownInRange(inn0, out0, stripe.inn, stripe.out, Palette(col0) + {bestColor}, cluster_size);
      CountsOnly(stripe.inn, stripe.out, Shipments(stripe.ecdag, stripe.coloring));
      stripe.DumpLoad(14);
    }

    /** One candidate: predict the table, then evaluate it. */
    method Try<C>(stripe: Stripe<C>, childColors: seq<int>, idx: int, newColor: int) returns (state: State)
      requires stripe.Ready() && stripe.InRange(cluster_size) && FitsInt(stripe.ecdag)
      requires Counts(stripe.inn, stripe.out, Shipments(stripe.ecdag, stripe.coloring))
      requires idx in stripe.ecdag && stripe.coloring[idx] == -1 && 0 <= newColor < cluster_size
      requires forall i | 0 <= i < |childColors| :: 0 <= childColors[i] < cluster_size
      requires Recolours(stripe.ecdag, stripe.coloring, idx, newColor)
      ensures state == Merit(stripe.ecdag, stripe.coloring, idx, newColor, E.Elements(childColors))
      ensures state.load <= state.bdwt <= INT_MAX
    {
      hide Recolours, Counts, Shipments, TableIs, NoneLoses;
      ghost var after := Shipments(stripe.ecdag, stripe.coloring[idx := newColor]);
      var testTable := stripe.EvaluateChange(cluster_size, idx, newColor);
      RecolourFacts(stripe.ecdag, stripe.coloring, idx, newColor);
      EndpointsInRange(stripe.ecdag, stripe.coloring[idx := newColor], cluster_size);
      state := EvalTable(testTable, childColors, after);
      MaxLoadUnique(after, E.Elements(childColors), state.load);
    }
  }

  lemma EndpointsInRange<C>(g: Dag<C>, col: Coloring, n: nat)
    requires Colored(g, col) && forall v | v in col :: -1 <= col[v] < n
    ensures forall e | e in Shipments(g, col) :: 0 <= e.dst < n
  {
    forall e | e in Shipments(g, col) ensures 0 <= e.dst < n {
      ShipmentIff(g, col, e);
      var i :| 0 <= i < |g[e.v].parents| && col[g[e.v].parents[i]] == e.dst;
      var p := g[e.v].parents[i];
      assert p in col;
    }
  }

  lemma NothingListed(t: set<Xfer>, colors: seq<int>)
    ensures IsMaxLoad(t, E.Elements(colors[..0]), 0)
  {}

  /** topo is what genTopoIdxs lists. */
  ghost predicate InOrder<C>(g: Dag<C>, topo: seq<int>) {
    TopoOrder(g, topo) && forall v :: v in topo <==> v in g && g[v].kind.Intermediate?
  }

  lemma OrderAt<C>(g: Dag<C>, rank: map<int, nat>, coloring0: Coloring, n: nat, topo: seq<int>, i: nat)
    requires Problem(g, rank, coloring0, n) && InOrder(g, topo) && i < |topo|
    ensures TopoOrder(g, topo) && Distinct(topo) && topo[i] !in coloring0
  {
    hide Mirrored, SimpleEdges;
    var v := topo[i];
    assert v in topo;
  }

  ghost predicate BlankAt(col: Coloring, topo: seq<int>, j: int)
    requires 0 <= j < |topo|
  {
    topo[j] in col ==> col[topo[j]] == -1
  }

  ghost predicate NoneColored(col: Coloring, topo: seq<int>, i: int)
    requires 0 <= i <= |topo|
  {
    forall j | 0 <= j < i :: BlankAt(col, topo, j)
  }

  ghost predicate AtMostOne(col: Coloring, topo: seq<int>, i: int)
    requires 0 <= i <= |topo|
  {
    forall j, k | 0 <= j < k < i :: BlankAt(col, topo, j) || BlankAt(col, topo, k)
  }

  lemma NoneYet(col: Coloring, topo: seq<int>)
    ensures NoneColored(col, topo, 0) && AtMostOne(col, topo, 0)
  {}

  lemma OneMore(col: Coloring, topo: seq<int>, i: nat, c: int)
    requires i < |topo| && Distinct(topo) && topo[i] in col && col[topo[i]] == -1
    ensures var col' := col[topo[i] := c];
            && (NoneColored(col', topo, i + 1) <==> NoneColored(col, topo, i) && c == -1)
            && (AtMostOne(col, topo, i) && (c == -1 || NoneColored(col, topo, i)) ==> AtMostOne(col', topo, i + 1))
  {
    var col' := col[topo[i] := c];
    forall j | 0 <= j < i ensures BlankAt(col', topo, j) <==> BlankAt(col, topo, j) {}
    assert BlankAt(col', topo, i) <==> c == -1;
  }

  lemma Blank<C>(g: Dag<C>, rank: map<int, nat>, coloring0: Coloring, n: nat, col: Coloring, topo: seq<int>)
    requires Problem(g, rank, coloring0, n) && col.Keys == g.Keys && TopoOrder(g, topo)
    requires forall v :: v in topo <==> v in g && g[v].kind.Intermediate?
    requires forall v | v in col :: col[v] == if v in coloring0 then coloring0[v] else -1
    ensures InOrder(g, topo) && Progress(g, col, n, rank, topo, 0, coloring0)
  {
    hide ColoredFromBelow;
    forall j | 0 <= j < |topo| ensures topo[j] in g && col[topo[j]] == -1 {
      var v := topo[j];
      assert v in topo;
    }
  }

  /** Coloured from below and coloured: some leaf below has a colour, and had it from the start. */
  lemma HadColor<C>(g: Dag<C>, rank: map<int, nat>, coloring0: Coloring, n: nat, col: Coloring, v: int)
    requires Problem(g, rank, coloring0, n) && Colored(g, col) && v in g && g[v].kind.Intermediate?
    requires forall l | l in coloring0 :: l in col && col[l] == coloring0[l]
    requires ColoredFromBelow(g, rank, col, v)
    ensures ToColor(g, rank, coloring0, v) <==> col[v] != -1
  {
    hide Mirrored, SimpleEdges, LeavesBelow;
    LeavesAreLeaves(g, rank, v);
    if ToColor(g, rank, coloring0, v) {
      var l :| l in LeavesBelow(g, rank, v) && l in coloring0 && coloring0[l] != -1;
      assert col[l] != -1;
    }
    if col[v] != -1 {
      var l :| l in LeavesBelow(g, rank, v) && l in col && col[l] == col[v];
      assert l in g && g[l].kind.Leaf?;
      assert l in coloring0 && coloring0[l] != -1;
    }
  }

  /** A vertex coloured before and one with a coloured child. */
  lemma SecondOne<C>(g: Dag<C>, rank: map<int, nat>, coloring0: Coloring, n: nat, col: Coloring, topo: seq<int>, i: nat, c: int)
    requires Problem(g, rank, coloring0, n) && InOrder(g, topo) && i < |topo| && Progress(g, col, n, rank, topo, i, coloring0)
    requires !NoneColored(col, topo, i) && ChildColor(g, col, topo[i], c) && c != -1
    ensures TwoToColor(g, rank, coloring0)
  {
    hide Mirrored, SimpleEdges, LeavesBelow, ToColor, ColoredFromBelow;
    var j :| 0 <= j < i && !BlankAt(col, topo, j);
    var v, w := topo[j], topo[i];
    assert v in topo && w in topo && v != w;
    HadColor(g, rank, coloring0, n, col, v);
    ColoredUpTo(g, rank, col, topo, i, c);
    HadColor(g, rank, coloring0, n, col[w := c], w);
  }

  lemma Finish<C>(g: Dag<C>, rank: map<int, nat>, coloring0: Coloring, n: nat, col: Coloring, topo: seq<int>)
    requires Problem(g, rank, coloring0, n) && InOrder(g, topo) && Progress(g, col, n, rank, topo, |topo|, coloring0)
    ensures forall v | v in g && g[v].kind.Intermediate? :: v in col && ColoredFromBelow(g, rank, col, v)
    ensures AtMostOne(col, topo, |topo|) ==> !TwoToColor(g, rank, coloring0)
  {
    hide Mirrored, SimpleEdges, LeavesBelow, ToColor, ColoredFromBelow, TopoOrder;
    forall v | v in g && g[v].kind.Intermediate? ensures v in col && ColoredFromBelow(g, rank, col, v) {
      var j := PlaceOf(topo, v);
    }
    if AtMostOne(col, topo, |topo|) && TwoToColor(g, rank, coloring0) {
      var v, w :| v != w && ToColor(g, rank, coloring0, v) && ToColor(g, rank, coloring0, w);
      BothColored(g, rank, coloring0, n, col, topo, v, w);
    }
  }

  lemma BothColored<C>(g: Dag<C>, rank: map<int, nat>, coloring0: Coloring, n: nat, col: Coloring, topo: seq<int>, v: int, w: int)
    requires Problem(g, rank, coloring0, n) && InOrder(g, topo) && Progress(g, col, n, rank, topo, |topo|, coloring0)
    requires v != w && ToColor(g, rank, coloring0, v) && ToColor(g, rank, coloring0, w)
    ensures !AtMostOne(col, topo, |topo|)
  {
    hide Mirrored, SimpleEdges, LeavesBelow, ColoredFromBelow, TopoOrder;
    var a := PlaceOf(topo, v);
    var b := PlaceOf(topo, w);
    HadColor(g, rank, coloring0, n, col, v);
    HadColor(g, rank, coloring0, n, col, w);
    assert !BlankAt(col, topo, a) && !BlankAt(col, topo, b);
  }

  lemma PlaceOf<T>(s: seq<T>, x: T) returns (j: nat)
    requires x in s
    ensures j < |s| && s[j] == x
  {
    j :| j < |s| && s[j] == x;
  }

  lemma PaletteInRange(col: Coloring, n: nat)
    requires forall v | v in col :: -1 <= col[v] < n
    ensures forall c | c in Palette(col) :: 0 <= c < n
  {}

  lemma GrownInRange(inn0: Table, out0: Table, inn: Table, out: Table, nodes: set<int>, n: nat)
    requires Grown(inn0, out0, inn, out, nodes) && forall c | c in nodes :: 0 <= c < n
    requires (forall k | k in inn0 :: 0 <= k < n) && (forall k | k in out0 :: 0 <= k < n)
    ensures (forall k | k in inn :: 0 <= k < n) && (forall k | k in out :: 0 <= k < n)
  {
    forall k | k in inn ensures 0 <= k < n {
      assert k in inn0.Keys + nodes;
    }
    forall k | k in out ensures 0 <= k < n {
      assert k in out0.Keys + nodes;
    }
  }

  lemma NextProgress<C>(g: Dag<C>, col: Coloring, n: nat, rank: map<int, nat>, topo: seq<int>, i: nat, coloring0: Coloring, c: int)
    requires i < |topo| && Progress(g, col, n, rank, topo, i, coloring0)
    requires Distinct(topo) && topo[i] !in coloring0 && -1 <= c < n
    requires forall j | 0 <= j <= i :: ColoredFromBelow(g, rank, col[topo[i] := c], topo[j])
    ensures Progress(g, col[topo[i] := c], n, rank, topo, i + 1, coloring0)
  {
    hide ColoredFromBelow;
  }

  lemma ChildColorsInRange<C>(g: Dag<C>, col: Coloring, idx: int, cs: seq<int>, n: nat)
    requires Colored(g, col) && idx in g && forall v | v in col :: -1 <= col[v] < n
    requires forall i | 0 <= i < |cs| :: cs[i] != -1 && ChildColor(g, col, idx, cs[i])
    ensures forall i | 0 <= i < |cs| :: 0 <= cs[i] < n
  {
    forall i | 0 <= i < |cs| ensures 0 <= cs[i] < n {
      var k :| 0 <= k < |g[idx].children| && col[g[idx].children[k]] == cs[i];
      var c := g[idx].children[k];
      assert c in col;
    }
  }

  lemma AnyColorAllowed<C>(g: Dag<C>, rank: map<int, nat>, col: Coloring, idx: int)
    requires Colored(g, col) && Mirrored(g) && SimpleEdges(g) && Ranked(g, rank) && idx in g && col[idx] == -1
    ensures forall c :: c != -1 ==> Recolours(g, col, idx, c)
  {}

  /** The correspondence extends to the next vertex of the order. */
  lemma ColoredUpTo<C>(g: Dag<C>, rank: map<int, nat>, col: Coloring, topo: seq<int>, i: nat, c: int)
    requires Colored(g, col) && Ranked(g, rank) && TopoOrder(g, topo) && i < |topo|
    requires forall j | 0 <= j < i :: ColoredFromBelow(g, rank, col, topo[j])
    requires var children := g[topo[i]].children;
             if c == -1 then forall k | 0 <= k < |children| :: col[children[k]] == -1
             else ChildColor(g, col, topo[i], c)
    ensures forall j | 0 <= j <= i :: ColoredFromBelow(g, rank, col[topo[i] := c], topo[j])
  {
    hide ColoredFromBelow;
    var idx := topo[i];
    var col' := col[idx := c];
    forall j | 0 <= j < i ensures ColoredFromBelow(g, rank, col', topo[j]) {
      ColoredFromBelowStable(g, rank, col, topo[j], idx, c);
    }
    var children := g[idx].children;
    forall k | 0 <= k < |children|
      ensures ColoredFromBelow(g, rank, col', children[k]) && col'[children[k]] == col[children[k]]
    {
      assert DoneBefore(g, topo, i, children[k]);
      if g[children[k]].children == [] {
        LeafColored(g, rank, col', children[k]);
      }
    }
    if c != -1 {
      var k :| 0 <= k < |children| && col[children[k]] == c;
      assert col'[children[k]] == c;
    }
    InheritColor(g, rank, col', idx);
  }

  lemma CountsOnly(inn: Table, out: Table, t: set<Xfer>)
    requires Counts(inn, out, t)
    ensures forall inn', out' | (forall c :: Get(inn', c) == Get(inn, c) && Get(out', c) == Get(out, c)) :: Counts(inn', out', t)
  {
    hide InOf, OutOf;
  }

  // ---------------------------------------------------------------------------------------------
  // A cluster that is too small for the debugging print

  /** The leaf 0 feeds 1, that feeds 2, that feeds the header 3. */
  ghost predicate IsChain<C>(g: Dag<C>) {
    ChainBelow(g) && forall v | v in g :: g[v].parents == if v == 3 then [] else [v + 1]
  }

  ghost predicate ChainBelow<C>(g: Dag<C>) {
    && (forall v :: v in g <==> 0 <= v <= 3)
    && (forall v | v in g :: g[v].kind == (if v == 0 then Leaf else if v == 3 then Root else Intermediate))
    && (forall v | v in g :: g[v].children == if v == 0 then [] else [v - 1])
  }

  const CHAIN_RANK: map<int, nat> := map[0 := 0, 1 := 1, 2 := 2, 3 := 3]

  /** Three nodes and a chain whose leaf is on node 1 and whose header is on node 2. Both vertices between get a colour,
      so SingleMLP's prediction for the second one is out of the table. */
  method SmallCluster<C>(coef: C) returns (r: Outcome)
    ensures r.OutOfTable?
  {
    hide FitsInt, TwoToColor, Problem, E.Shape, E.ListsFit, E.JoinAdds, IsChain;
    var dag := JoinChain(coef);
    var stripe := new Stripe(dag.nodes, map[]);
    var balance := new BalanceSolution(3);
    ghost var rank: map<int, nat> := CHAIN_RANK;
    S.ValidGraph(dag);
    ChainProblem(dag.nodes, map[0 := 1, 3 := 2]);
    ChainRanked(dag.nodes);
    ChainLeaf(dag.nodes, map[0 := 1, 3 := 2]);
    ChainFits(dag.nodes);
    ChainListed(dag.nodes);
    ghost var topo;
    r, topo := balance.SingleMLP(stripe, [1, 2], dag, map[0 := 1, 3 := 2], rank);
  }

  method JoinChain<C>(coef: C) returns (dag: E.ECDAG<C>)
    ensures fresh(dag) && dag.Valid() && IsChain(dag.nodes)
  {
    hide E.Shape, E.ListsFit, E.JoinAdds, IsChain;
    dag := new E.ECDAG<C>();
    dag.Join(1, [0], [coef]);
    ghost var g1 := dag.nodes;
    OneJoined(map[], g1, coef);
    dag.Join(2, [1], [coef]);
    ghost var g2 := dag.nodes;
    TwoJoined(g1, g2, coef);
    dag.Join(3, [2], [coef]);
    ThreeJoined(g2, dag.nodes, coef);
    ChainJoined(dag.nodes, dag.headers, dag.leaves, dag.rank, dag.clock);
  }

  lemma OneElement(x: int)
    ensures E.Elements([x]) == {x}
  {
    assert [x][0] == x;
  }

  lemma OneJoined<C>(g: Dag<C>, g': Dag<C>, coef: C)
    requires g == map[] && E.JoinAdds(g, g', 1, [0], [coef])
    ensures g'.Keys == {0, 1} && g'[0].kind.Leaf? && g'[1].kind.Root? && g'[1].children == [0]
  {
    OneElement(0);
  }

  lemma TwoJoined<C>(g: Dag<C>, g': Dag<C>, coef: C)
    requires g.Keys == {0, 1} && g[0].kind.Leaf? && g[1].kind.Root? && g[1].children == [0] && E.JoinAdds(g, g', 2, [1], [coef])
    ensures g'.Keys == {0, 1, 2} && g'[0].kind.Leaf? && g'[1].kind.Intermediate? && g'[1].children == [0]
    ensures g'[2].kind.Root? && g'[2].children == [1]
  {
    OneElement(1);
  }

  lemma ThreeJoined<C>(g: Dag<C>, g': Dag<C>, coef: C)
    requires g.Keys == {0, 1, 2} && g[0].kind.Leaf? && g[1].kind.Intermediate? && g[1].children == [0]
    requires g[2].kind.Root? && g[2].children == [1] && E.JoinAdds(g, g', 3, [2], [coef])
    ensures g'.Keys == {0, 1, 2, 3} && g'[0].kind.Leaf? && g'[1].kind.Intermediate? && g'[1].children == [0]
    ensures g'[2].kind.Intermediate? && g'[2].children == [1] && g'[3].kind.Root? && g'[3].children == [2]
  {
    OneElement(2);
  }

  /** The parents follow from the children. */
  lemma ChainJoined<C>(g: Dag<C>, headers: seq<int>, leaves: seq<int>, rank: map<int, nat>, clock: nat)
    requires E.Shape(g, rank, clock) && E.ListsFit(g, headers, leaves, {})
    requires g.Keys == {0, 1, 2, 3} && g[0].kind.Leaf? && g[1].kind.Intermediate? && g[1].children == [0]
    requires g[2].kind.Intermediate? && g[2].children == [1] && g[3].kind.Root? && g[3].children == [2]
    ensures IsChain(g)
  {
    hide E.ListsFit, ChainBelow, Mirrored, Ranked;
    LeafBare(g, headers, leaves, 0);
    BelowIs(g);
    forall v | v in g ensures g[v].parents == if v == 3 then [] else [v + 1] {
      ChainParents(g, v);
    }
  }

  lemma LeafBare<C>(g: Dag<C>, headers: seq<int>, leaves: seq<int>, v: int)
    requires E.ListsFit(g, headers, leaves, {}) && v in g && g[v].kind.Leaf?
    ensures g[v].children == []
  {}

  lemma BelowIs<C>(g: Dag<C>)
    requires g.Keys == {0, 1, 2, 3} && g[0].kind.Leaf? && g[0].children == [] && g[1].kind.Intermediate? && g[1].children == [0]
    requires g[2].kind.Intermediate? && g[2].children == [1] && g[3].kind.Root? && g[3].children == [2]
    ensures ChainBelow(g)
  {
    forall v ensures v in g <==> 0 <= v <= 3 {
      assert v in g.Keys <==> v in {0, 1, 2, 3};
    }
  }

  lemma ChainParents<C>(g: Dag<C>, v: int)
    requires Mirrored(g) && v in g && ChainBelow(g)
    ensures g[v].parents == if v == 3 then [] else [v + 1]
  {
    hide Mirrored, ChainBelow;
    forall p ensures multiset(g[v].parents)[p] == if v != 3 && p == v + 1 then 1 else 0 {
      ChainParent(g, v, p);
    }
    OnlyParent(g[v].parents, v + 1, v != 3);
  }

  lemma ChainParent<C>(g: Dag<C>, v: int, p: int)
    requires Mirrored(g) && v in g && ChainBelow(g)
    ensures multiset(g[v].parents)[p] == if v != 3 && p == v + 1 then 1 else 0
  {
    ParentsInside(g, v, p);
    if p in g {
      assert multiset(g[v].parents)[p] == multiset(g[p].children)[v];
      Single(p - 1, v);
    }
  }

  lemma ParentsInside<C>(g: Dag<C>, v: int, p: int)
    requires Closed(g) && v in g
    ensures p in g[v].parents ==> p in g
  {}

  lemma OnlyParent<T>(parents: seq<T>, x: T, one: bool)
    requires forall p :: multiset(parents)[p] == if one && p == x then 1 else 0
    ensures parents == if one then [x] else []
  {
    if one {
      assert multiset(parents) == multiset([x]);
      assert |multiset(parents)| == 1;
      assert parents[0] in multiset(parents);
    } else {
      E.CountsSomething(parents);
    }
  }

  lemma Single<T>(x: T, y: T)
    ensures multiset([x])[y] == if x == y then 1 else 0
  {}

  lemma ChainListed<C>(g: Dag<C>)
    requires IsChain(g)
    ensures map[0 := 1, 3 := 2].Keys + (set v | v in [1, 2]) == g.Keys
  {
    forall v ensures v in [1, 2] <==> v == 1 || v == 2 {}
    forall v ensures v in g.Keys <==> 0 <= v <= 3 {}
  }

  lemma ChainProblem<C>(g: Dag<C>, col: Coloring)
    requires IsChain(g) && Mirrored(g) && col == map[0 := 1, 3 := 2]
    ensures Problem(g, CHAIN_RANK, col, 3)
  {
    hide Mirrored;
  }

  lemma ChainRanked<C>(g: Dag<C>)
    requires IsChain(g)
    ensures Ranked(g, CHAIN_RANK)
  {}

  lemma ChainLeaf<C>(g: Dag<C>, col: Coloring)
    requires IsChain(g) && Closed(g) && Ranked(g, CHAIN_RANK) && 0 in col && col[0] != -1
    ensures TwoToColor(g, CHAIN_RANK, col)
  {
    ChainLeaves(g, col);
    hide IsChain, LeavesBelow;
    AtLeastTwo(g, CHAIN_RANK, col, 1, 2);
  }

  lemma ChainLeaves<C>(g: Dag<C>, col: Coloring)
    requires IsChain(g) && Closed(g) && Ranked(g, CHAIN_RANK) && 0 in col && col[0] != -1
    ensures ToColor(g, CHAIN_RANK, col, 1) && ToColor(g, CHAIN_RANK, col, 2)
  {
    assert LeavesBelow(g, CHAIN_RANK, 0) == {0};
    assert g[1].children[0] == 0 && g[2].children[0] == 1;
    assert 0 in LeavesBelow(g, CHAIN_RANK, 1);
  }

  lemma AtLeastTwo<C>(g: Dag<C>, rank: map<int, nat>, col: Coloring, v: int, w: int)
    requires Closed(g) && Ranked(g, rank) && v != w && ToColor(g, rank, col, v) && ToColor(g, rank, col, w)
    ensures TwoToColor(g, rank, col)
  {
    hide ToColor;
  }

  lemma ChainFits<C>(g: Dag<C>)
    requires IsChain(g) && Closed(g)
    ensures FitsInt(g)
  {
    hide Shipments, IsChain;
    forall col: Coloring ensures |Shipments(g, col)| <= INT_MAX {
      ChainTraffic(g, col);
    }
  }

  lemma ChainTraffic<C>(g: Dag<C>, col: Coloring)
    requires IsChain(g) && Closed(g)
    ensures |Shipments(g, col)| <= 3
  {
    hide Shipments, IsChain;
    var all := {Along(col, 0), Along(col, 1), Along(col, 2)};
    forall e | e in Shipments(g, col) ensures e in all { ChainShipment(g, col, e); }
    Subset(Shipments(g, col), all);
  }

  ghost function Along(col: Coloring, v: int): Xfer {
    Xfer(v, if v in col then col[v] else -1, if v + 1 in col then col[v + 1] else -1)
  }

  lemma ChainShipment<C>(g: Dag<C>, col: Coloring, e: Xfer)
    requires IsChain(g) && Closed(g) && e in Shipments(g, col)
    ensures 0 <= e.v < 3 && e == Along(col, e.v)
  {}
}
