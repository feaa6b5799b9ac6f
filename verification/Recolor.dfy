/** How the shipments of a colouring change when a single vertex is recoloured. */
module Recolouring {
  import opened Dags
  import opened Traffic

  ghost predicate AllColored(ps: seq<int>, col: Coloring) {
    forall i | 0 <= i < |ps| :: ps[i] in col
  }

  /** How many of the vertices ps have colour x. */
  ghost function CountColor(ps: seq<int>, col: Coloring, x: int): nat
    requires AllColored(ps, col)
  {
    if ps == [] then 0 else CountColor(ps[..|ps| - 1], col, x) + (if col[ps[|ps| - 1]] == x then 1 else 0)
  }

  lemma {:induction false} CountColorZero(ps: seq<int>, col: Coloring, x: int)
    requires AllColored(ps, col)
    ensures CountColor(ps, col, x) == 0 <==> forall i | 0 <= i < |ps| :: col[ps[i]] != x
  {
    if ps != [] {
      CountColorZero(ps[..|ps| - 1], col, x);
    }
  }

  lemma {:induction false} CountColorOne(ps: seq<int>, col: Coloring, k: nat)
    requires Distinct(ps) && k < |ps| && AllColored(ps, col)
    ensures CountColor(ps, col, col[ps[k]]) == 1 <==>
            forall i | 0 <= i < |ps| && i != k :: col[ps[i]] != col[ps[k]]
  {
    var n := |ps| - 1;
    CountColorZero(ps[..n], col, col[ps[k]]);
    if k < n {
      CountColorOne(ps[..n], col, k);
      assert ps[..n][k] == ps[k];
    }
  }

  /** A shipment of v to dst happens iff some parent of v has colour dst. */
  lemma ShipmentIff<C>(g: Dag<C>, col: Coloring, e: Xfer)
    requires Colored(g, col)
    ensures e in Shipments(g, col) <==>
            && e.v in g && e.src == col[e.v] && e.src != -1 && e.dst != -1 && e.src != e.dst
            && exists i | 0 <= i < |g[e.v].parents| :: col[g[e.v].parents[i]] == e.dst
  {
    if e.v in g {
      var ps := g[e.v].parents;
      if i :| 0 <= i < |ps| && col[ps[i]] == e.dst {
        var p := ps[i];
        assert p in ps;
      }
    }
  }

  /** Recolouring idx only moves shipments of idx itself and of its children. */
  lemma OnlyNeighboursMove<C>(g: Dag<C>, col: Coloring, idx: int, new_color: int, e: Xfer)
    requires Colored(g, col) && Mirrored(g) && idx in g
    requires e.v != idx && e.v !in g[idx].children
    ensures e in Shipments(g, col[idx := new_color]) <==> e in Shipments(g, col)
  {
    ShipmentIff(g, col, e);
    ShipmentIff(g, col[idx := new_color], e);
    if e.v in g {
      ParentIffChild(g, e.v, idx);
    }
  }

  /** What recolouring idx does to the shipments of one child c: the old destination goes iff idx
      was the last parent of that colour, the new one comes iff no parent had it yet. */
  lemma ChildShipments<C>(g: Dag<C>, col: Coloring, idx: int, new_color: int, c: int, e: Xfer)
    requires Colored(g, col) && Mirrored(g) && SimpleEdges(g) && idx in g
    requires c in g[idx].children && c != idx && c in g && e.v == c
    requires new_color != col[idx] && new_color != -1
    ensures e in Shipments(g, col[idx := new_color]) <==>
      if e.dst == new_color then e == Xfer(c, col[c], new_color) && col[c] != -1 && col[c] != new_color
      else if e.dst == col[idx] then
        e in Shipments(g, col) && CountColor(g[c].parents, col, col[idx]) != 1
      else e in Shipments(g, col)
    ensures Xfer(c, col[c], new_color) in Shipments(g, col) <==>
      col[c] != -1 && new_color != col[c] && CountColor(g[c].parents, col, new_color) != 0
    ensures col[c] != -1 && col[idx] != -1 && col[idx] != col[c] ==> Xfer(c, col[c], col[idx]) in Shipments(g, col)
  {
    hide Shipments, CountColor, SimpleEdges;
    var ps := g[c].parents;
    ParentIffChild(g, c, idx);
    ParentsDistinct(g, c);
    var k :| 0 <= k < |ps| && ps[k] == idx;
    CountColorZero(ps, col, new_color);
    CountColorOne(ps, col, k);
    ShipmentIff(g, col, e);
    ShipmentIff(g, col[idx := new_color], e);
    ShipmentIff(g, col, Xfer(c, col[c], new_color));
    ShipmentIff(g, col, Xfer(c, col[c], col[idx]));
    assert col[idx := new_color][ps[k]] == new_color;
  }

  /** The situations in which callers change a colour (src/sol/BalanceSolution.cc:216-219): a real
      new colour that differs from the old one, in an acyclic DAG without repeated edges. */
  ghost predicate Recolours<C>(g: Dag<C>, col: Coloring, idx: int, new_color: int) {
    && Colored(g, col) && Mirrored(g) && SimpleEdges(g) && Acyclic(g)
    && idx in g && new_color != col[idx] && new_color != -1
  }

  lemma RecolourFacts<C>(g: Dag<C>, col: Coloring, idx: int, new_color: int)
    requires Recolours(g, col, idx, new_color)
    ensures Colored(g, col) && Colored(g, col[idx := new_color]) && idx in g && idx !in g[idx].children && new_color != col[idx]
    ensures Distinct(g[idx].children) && forall i | 0 <= i < |g[idx].children| :: g[idx].children[i] in g
  {
    NotOwnChild(g, idx);
  }

  /** The vertices that changeColor has dealt with after i children. */
  ghost function Upto(idx: int, children: seq<int>, i: nat): set<int>
    requires i <= |children|
  {
    {idx} + set j | 0 <= j < i :: children[j]
  }

  lemma UptoStep(idx: int, children: seq<int>, i: nat)
    requires i < |children| && Distinct(children) && idx !in children
    ensures Upto(idx, children, i + 1) == Upto(idx, children, i) + {children[i]}
    ensures children[i] !in Upto(idx, children, i) && children[i] in children
  {
    var c := children[i];
    assert c in children;
  }

  /** Shipments once idx already sends to the nodes done by its new colour. */
  ghost function Split(before: set<Xfer>, after: set<Xfer>, idx: int, done: set<int>): set<Xfer> {
    (set e | e in before && !(e.v == idx && e.dst in done)) + (set e | e in after && e.v == idx && e.dst in done)
  }

  lemma SplitNothing(before: set<Xfer>, after: set<Xfer>, idx: int)
    ensures Split(before, after, idx, {}) == before
  {}

  /** Shipments once the vertices vs already follow the new colouring. */
  ghost function Hybrid(before: set<Xfer>, after: set<Xfer>, vs: set<int>): set<Xfer> {
    (set e | e in before && e.v !in vs) + From(after, vs)
  }

  ghost function If(c: bool, e: Xfer): set<Xfer> {
    if c then {e} else {}
  }

  ghost predicate ParentColor<C>(g: Dag<C>, col: Coloring, v: int, c: int)
    requires Colored(g, col) && v in g
  {
    exists i | 0 <= i < |g[v].parents| :: col[g[v].parents[i]] == c
  }

  ghost predicate ChildColor<C>(g: Dag<C>, col: Coloring, v: int, c: int)
    requires Colored(g, col) && v in g
  {
    exists k | 0 <= k < |g[v].children| :: col[g[v].children[k]] == c
  }

  /** The shipments of idx itself, before and after. */
  lemma OwnShipment<C>(g: Dag<C>, col: Coloring, idx: int, new_color: int, e: Xfer)
    requires Recolours(g, col, idx, new_color) && e.v == idx
    ensures e in Shipments(g, col) <==>
            && e.src == col[idx] && col[idx] != -1
            && e.dst != -1 && e.dst != col[idx] && ParentColor(g, col, idx, e.dst)
    ensures e in Shipments(g, col[idx := new_color]) <==>
            && e.src == new_color
            && e.dst != -1 && e.dst != new_color && ParentColor(g, col, idx, e.dst)
  {
    ShipmentIff(g, col, e);
    ShipmentIff(g, col[idx := new_color], e);
    var ps := g[idx].parents;
    forall i | 0 <= i < |ps| ensures ps[i] != idx {
      var p := ps[i];
      assert p in ps;
      ParentIffChild(g, idx, p);
      NotOwnChild(g, p);
    }
  }

  /** One destination of idx: the shipment from the old node goes, one from the new node comes. */
  lemma OwnStep<C>(g: Dag<C>, col: Coloring, idx: int, new_color: int, done: set<int>, c: int)
    requires Recolours(g, col, idx, new_color) && c !in done && ParentColor(g, col, idx, c)
    ensures var before, after := Shipments(g, col), Shipments(g, col[idx := new_color]);
            var goes, comes := Xfer(idx, col[idx], c), Xfer(idx, new_color, c);
            var t := Split(before, after, idx, done);
            && Split(before, after, idx, done + {c}) ==
               t - If(c != -1 && c != col[idx] && col[idx] != -1, goes) + If(c != -1 && c != new_color, comes)
            && (c != -1 && c != col[idx] && col[idx] != -1 ==> goes in t)
            && comes !in t
  {
    hide Recolours, Shipments, ParentColor;
    RecolourFacts(g, col, idx, new_color);
    var before, after := Shipments(g, col), Shipments(g, col[idx := new_color]);
    var goes, comes := Xfer(idx, col[idx], c), Xfer(idx, new_color, c);
    forall e: Xfer
      ensures e.v == idx && e.dst == c ==>
        (e in before <==> e == goes && c != -1 && c != col[idx] && col[idx] != -1) && (e in after <==> e == comes && c != -1 && c != new_color)
    {
      if e.v == idx && e.dst == c { OwnShipment(g, col, idx, new_color, e); }
    }
    SplitStep(before, after, idx, done, c, goes, comes, c != -1 && c != col[idx] && col[idx] != -1, c != -1 && c != new_color);
  }

  lemma SplitStep(before: set<Xfer>, after: set<Xfer>, idx: int, done: set<int>, c: int, goes: Xfer, comes: Xfer, loses: bool, gains: bool)
    requires c !in done && goes.v == comes.v == idx && goes.dst == comes.dst == c
    requires forall e: Xfer | e.v == idx && e.dst == c :: (e in before <==> e == goes && loses) && (e in after <==> e == comes && gains)
    ensures var t := Split(before, after, idx, done);
            && Split(before, after, idx, done + {c}) == t - If(loses, goes) + If(gains, comes)
            && (loses ==> goes in t) && (comes in t ==> loses && comes == goes)
  {
    var t, t' := Split(before, after, idx, done), Split(before, after, idx, done + {c});
    forall e ensures e in t' <==> (e in t && !(e == goes && loses)) || (e == comes && gains) {}
  }

  /** After all parents have been served, idx follows the new colouring. */
  lemma OwnDone<C>(g: Dag<C>, col: Coloring, idx: int, new_color: int, done: set<int>)
    requires Recolours(g, col, idx, new_color) && forall c :: ParentColor(g, col, idx, c) ==> c in done
    ensures var before, after := Shipments(g, col), Shipments(g, col[idx := new_color]);
            Split(before, after, idx, done) == Hybrid(before, after, {idx})
  {
    var before, after := Shipments(g, col), Shipments(g, col[idx := new_color]);
    forall e
      ensures e in Split(before, after, idx, done) <==> e in Hybrid(before, after, {idx})
    {
      if e.v == idx { OwnShipment(g, col, idx, new_color, e); }
    }
  }

  /** The child c loses its shipment to the old node of idx. */
  ghost predicate Loses<C>(g: Dag<C>, col: Coloring, idx: int, c: int)
    requires Colored(g, col) && idx in g && c in g
  {
    col[idx] != -1 && col[c] != -1 && col[c] != col[idx] && CountColor(g[c].parents, col, col[idx]) == 1
  }

  /** The child c gains a shipment to the new node of idx. */
  ghost predicate Gains<C>(g: Dag<C>, col: Coloring, new_color: int, c: int)
    requires Colored(g, col) && c in g
  {
    col[c] != -1 && col[c] != new_color && CountColor(g[c].parents, col, new_color) == 0
  }

  lemma ChildShipment<C>(g: Dag<C>, col: Coloring, idx: int, new_color: int, c: int, e: Xfer)
    requires Recolours(g, col, idx, new_color) && c in g[idx].children && c in g && e.v == c
    ensures var goes, comes := Xfer(c, col[c], col[idx]), Xfer(c, col[c], new_color);
            e in Shipments(g, col[idx := new_color]) <==>
              || (e in Shipments(g, col) && !(e == goes && Loses(g, col, idx, c)))
              || (e == comes && Gains(g, col, new_color, c))
    ensures Loses(g, col, idx, c) ==> Xfer(c, col[c], col[idx]) in Shipments(g, col)
    ensures Gains(g, col, new_color, c) ==> Xfer(c, col[c], new_color) !in Shipments(g, col)
  {
    NotOwnChild(g, idx);
    ChildShipments(g, col, idx, new_color, c, e);
    ShipmentIff(g, col, e);
  }

  lemma HybridStep(before: set<Xfer>, after: set<Xfer>, vs: set<int>, goes: Xfer, comes: Xfer, loses: bool, gains: bool)
    requires goes.v == comes.v && goes.v !in vs
    requires forall e: Xfer | e.v == goes.v ::
               e in after <==> (e in before && !(e == goes && loses)) || (e == comes && gains)
    ensures Hybrid(before, after, vs + {goes.v}) == Hybrid(before, after, vs) - If(loses, goes) + If(gains, comes)
  {
    var t, t' := Hybrid(before, after, vs), Hybrid(before, after, vs + {goes.v});
    forall e
      ensures e in t' <==> (e in t && !(e == goes && loses)) || (e == comes && gains)
    {
      if e.v != goes.v { assert e in t' <==> e in t; }
    }
  }

  lemma ChildStep<C>(g: Dag<C>, col: Coloring, idx: int, new_color: int, vs: set<int>, c: int)
    requires Recolours(g, col, idx, new_color) && c in g[idx].children && c in g && c !in vs
    ensures var before, after := Shipments(g, col), Shipments(g, col[idx := new_color]);
            var goes, comes := Xfer(c, col[c], col[idx]), Xfer(c, col[c], new_color);
            var t := Hybrid(before, after, vs);
            && Hybrid(before, after, vs + {c}) ==
               t - If(Loses(g, col, idx, c), goes) + If(Gains(g, col, new_color, c), comes)
            && (Loses(g, col, idx, c) ==> goes in t)
            && (Gains(g, col, new_color, c) ==> comes !in t)
  {
    var before, after := Shipments(g, col), Shipments(g, col[idx := new_color]);
    var goes, comes := Xfer(c, col[c], col[idx]), Xfer(c, col[c], new_color);
    forall e: Xfer | e.v == c
      ensures e in after <==>
        || (e in before && !(e == goes && Loses(g, col, idx, c)))
        || (e == comes && Gains(g, col, new_color, c))
    {
      ChildShipment(g, col, idx, new_color, c, e);
    }
    ChildShipment(g, col, idx, new_color, c, goes);
    HybridStep(before, after, vs, goes, comes, Loses(g, col, idx, c), Gains(g, col, new_color, c));
  }

  /** Once idx and all its children follow the new colouring, everything does. */
  lemma ChildrenDone<C>(g: Dag<C>, col: Coloring, idx: int, new_color: int, vs: set<int>)
    requires Recolours(g, col, idx, new_color)
    requires vs == Upto(idx, g[idx].children, |g[idx].children|)
    ensures var before, after := Shipments(g, col), Shipments(g, col[idx := new_color]);
            Hybrid(before, after, vs) == after
  {
    var before, after := Shipments(g, col), Shipments(g, col[idx := new_color]);
    forall e
      ensures e in Hybrid(before, after, vs) <==> e in after
    {
      if e.v !in vs { OnlyNeighboursMove(g, col, idx, new_color, e); }
    }
  }

  /** Row of a load table: [0] counts what a node sends, [1] what it receives. */
  datatype Load = Load(out: int, inn: int)
  type LoadTable = seq<Load>

  ghost function InColumn(tab: LoadTable): Table {
    map c | 0 <= c < |tab| :: tab[c].inn
  }

  ghost function OutColumn(tab: LoadTable): Table {
    map c | 0 <= c < |tab| :: tab[c].out
  }

  /** loadTable[src][0] += k; loadTable[dst][1] += k */
  function Bump(tab: LoadTable, src: int, dst: int, k: int): (r: LoadTable)
    requires 0 <= src < |tab| && 0 <= dst < |tab|
    ensures |r| == |tab|
  {
    var t := tab[src := Load(tab[src].out + k, tab[src].inn)];
    t[dst := Load(t[dst].out, t[dst].inn + k)]
  }

  lemma BumpColumns(tab: LoadTable, src: int, dst: int, k: int)
    requires 0 <= src < |tab| && 0 <= dst < |tab|
    ensures InColumn(Bump(tab, src, dst, k)) == InColumn(tab)[dst := Get(InColumn(tab), dst) + k]
    ensures OutColumn(Bump(tab, src, dst, k)) == OutColumn(tab)[src := Get(OutColumn(tab), src) + k]
  {}

  /** How far the wrong-column branch (src/common/Stripe.cc:366-369) has moved node c: m collects the
      colours of the children that took it, old_color is the colour idx had. */
  ghost function Swap(m: multiset<int>, old_color: int, c: int): int {
    m[c] - (if c == old_color then |m| else 0)
  }

  /** tab is (inn0, out0) moved from traffic t0 to traffic t, off by Swap. */
  ghost predicate Predicts(inn0: Table, out0: Table, t0: set<Xfer>, tab: LoadTable, t: set<Xfer>,
                           m: multiset<int>, old_color: int)
  {
    && (forall c :: Get(InColumn(tab), c) + Swap(m, old_color, c) - InOf(t, c) == Get(inn0, c) - InOf(t0, c))
    && (forall c :: Get(OutColumn(tab), c) - Swap(m, old_color, c) - OutOf(t, c) == Get(out0, c) - OutOf(t0, c))
  }

  lemma PredictsNothing(inn0: Table, out0: Table, t0: set<Xfer>, tab: LoadTable, old_color: int)
    requires forall c :: Get(InColumn(tab), c) == Get(inn0, c) && Get(OutColumn(tab), c) == Get(out0, c)
    ensures Predicts(inn0, out0, t0, tab, t0, multiset{}, old_color)
  {
    hide InOf, OutOf, InColumn, OutColumn;
  }

  lemma PredictsMoved(inn0: Table, out0: Table, t0: set<Xfer>, tab: LoadTable, t: set<Xfer>, old_color: int)
    requires Predicts(inn0, out0, t0, tab, t, multiset{}, old_color)
    ensures Moved(inn0, out0, t0, InColumn(tab), OutColumn(tab), t)
  {
    hide InOf, OutOf, InColumn, OutColumn;
    assert forall c :: Swap(multiset{}, old_color, c) == 0;
  }

  lemma PredictMore(inn0: Table, out0: Table, t0: set<Xfer>, tab: LoadTable, t: set<Xfer>,
                    m: multiset<int>, old_color: int, e: Xfer)
    requires Predicts(inn0, out0, t0, tab, t, m, old_color)
    requires e !in t && 0 <= e.src < |tab| && 0 <= e.dst < |tab|
    ensures Predicts(inn0, out0, t0, Bump(tab, e.src, e.dst, 1), t + {e}, m, old_color)
  {
    hide InOf, OutOf, InColumn, OutColumn, Bump, Swap;
    BumpColumns(tab, e.src, e.dst, 1);
    AddShipment(t, e);
  }

  lemma PredictLess(inn0: Table, out0: Table, t0: set<Xfer>, tab: LoadTable, t: set<Xfer>,
                    m: multiset<int>, old_color: int, e: Xfer)
    requires Predicts(inn0, out0, t0, tab, t, m, old_color)
    requires e in t && 0 <= e.src < |tab| && 0 <= e.dst < |tab|
    ensures Predicts(inn0, out0, t0, Bump(tab, e.src, e.dst, -1), t - {e}, m, old_color)
  {
    hide InOf, OutOf, InColumn, OutColumn, Bump, Swap;
    BumpColumns(tab, e.src, e.dst, -1);
    AddShipment(t - {e}, e);
    assert t - {e} + {e} == t;
  }

  /** The same with the columns exchanged: the error grows by one child. */
  lemma PredictSwapped(inn0: Table, out0: Table, t0: set<Xfer>, tab: LoadTable, t: set<Xfer>,
                       m: multiset<int>, old_color: int, e: Xfer)
    requires Predicts(inn0, out0, t0, tab, t, m, old_color)
    requires e in t && 0 <= e.src < |tab| && 0 <= e.dst < |tab| && e.dst == old_color != e.src
    ensures Predicts(inn0, out0, t0, Bump(tab, e.dst, e.src, -1), t - {e}, m + multiset{e.src}, old_color)
  {
    hide InOf, OutOf, InColumn, OutColumn, Bump, Swap;
    var t', tab', m' := t - {e}, Bump(tab, e.dst, e.src, -1), m + multiset{e.src};
    assert t' + {e} == t;
    BumpColumns(tab, e.dst, e.src, -1);
    SwapMore(m, old_color, e.src);
    forall c
      ensures Get(InColumn(tab'), c) + Swap(m', old_color, c) - InOf(t', c) == Get(inn0, c) - InOf(t0, c)
      ensures Get(OutColumn(tab'), c) - Swap(m', old_color, c) - OutOf(t', c) == Get(out0, c) - OutOf(t0, c)
    {
      AddArrival(t', e, c);
      AddDeparture(t', e, c);
    }
  }

  lemma SwapMore(m: multiset<int>, old_color: int, src: int)
    requires src != old_color
    ensures forall c :: Swap(m + multiset{src}, old_color, c) == Swap(m, old_color, c) + (if c == src then 1 else if c == old_color then -1 else 0)
  {
    assert |m + multiset{src}| == |m| + 1;
  }

  /** The error vanishes everywhere only if no child took the branch. */
  lemma SwapVisible(m: multiset<int>, old_color: int)
    requires old_color !in m
    ensures (forall c :: Swap(m, old_color, c) == 0) <==> m == multiset{}
    ensures m != multiset{} ==> Swap(m, old_color, old_color) < 0
  {
    assert Swap(m, old_color, old_color) == -|m|;
  }

  lemma ColumnsMoved(tab0: LoadTable, tab: LoadTable, t: set<Xfer>)
    requires |tab| == |tab0|
    requires Moved(InColumn(tab0), OutColumn(tab0), {}, InColumn(tab), OutColumn(tab), t)
    ensures forall c | 0 <= c < |tab| :: tab[c] == Load(tab0[c].out + OutOf(t, c), tab0[c].inn + InOf(t, c))
  {
    hide InOf, OutOf;
    CountsNothing();
    forall c | 0 <= c < |tab|
      ensures tab[c] == Load(tab0[c].out + OutOf(t, c), tab0[c].inn + InOf(t, c))
    {
      assert Get(InColumn(tab), c) == tab[c].inn && Get(OutColumn(tab), c) == tab[c].out;
      assert Get(InColumn(tab0), c) == tab0[c].inn && Get(OutColumn(tab0), c) == tab0[c].out;
      assert Get(map[], c) == 0 == InOf({}, c) == OutOf({}, c);
    }
  }

  /** The table counts exactly the shipments t. */
  ghost predicate TableIs(tab: LoadTable, t: set<Xfer>) {
    forall c | 0 <= c < |tab| :: tab[c] == Load(OutOf(t, c), InOf(t, c))
  }

  ghost predicate NoneLoses<C>(g: Dag<C>, col: Coloring, idx: int)
    requires Colored(g, col) && idx in g
  {
    forall i | 0 <= i < |g[idx].children| :: !Loses(g, col, idx, g[idx].children[i])
  }

  /** A vertex that already has a colour: leaf 0 on node 1 feeds vertex 1 on node 2, and recolouring that
      to node 3 takes node 1's only shipment to node 2 away. */
  lemma ColouredCanLose<C>(coef: C) returns (g: Dag<C>, col: Coloring)
    ensures g == map[0 := ECNode(Leaf, [], [], [1], false), 1 := ECNode(Root, [0], [coef], [], false)]
    ensures col == map[0 := 1, 1 := 2] && Recolours(g, col, 1, 3) && !NoneLoses(g, col, 1)
  {
    g := map[0 := ECNode(Leaf, [], [], [1], false), 1 := ECNode(Root, [0], [coef], [], false)];
    col := map[0 := 1, 1 := 2];
    assert Ranked(g, map[0 := 0, 1 := 1]);
    assert [1][..0] == [] && CountColor([1], col, 2) == 1;
    assert Loses(g, col, 1, g[1].children[0]);
  }

  lemma PredictionExact(inn0: Table, out0: Table, t0: set<Xfer>, tab: LoadTable, t: set<Xfer>,
                        m: multiset<int>, old_color: int)
    requires Predicts(inn0, out0, t0, tab, t, m, old_color) && Counts(inn0, out0, t0)
    requires old_color !in m && (m != multiset{} ==> 0 <= old_color < |tab|)
    ensures TableIs(tab, t) <==> m == multiset{}
  {
    hide InOf, OutOf;
    SwapVisible(m, old_color);
    forall c | 0 <= c < |tab|
      ensures tab[c] == Load(OutOf(t, c) + Swap(m, old_color, c), InOf(t, c) - Swap(m, old_color, c))
    {
      assert Get(InColumn(tab), c) == tab[c].inn && Get(OutColumn(tab), c) == tab[c].out;
      assert Get(inn0, c) == InOf(t0, c) && Get(out0, c) == OutOf(t0, c);
    }
  }
}
