/** The greedy colouring of one stripe after another (GloballyMLP in src/sol/BalanceSolution.cc): a vertex
    takes the child colour that keeps the load of the whole cluster lowest. */
module GlobalBalance {
  import opened Balance
  import opened Dags
  import opened Recolouring
  import opened Stripes
  import opened Traffic
  import E = Ecdags
  import S = Sorting

  /** m is the largest entry of the table, or 0. */
  ghost predicate IsPeak(table: LoadTable, m: int) {
    && 0 <= m && (forall c | 0 <= c < |table| :: table[c].out <= m && table[c].inn <= m)
    && (m == 0 || exists c :: 0 <= c < |table| && (m == table[c].out || m == table[c].inn))
  }

  ghost function Peak(table: LoadTable): (m: nat)
    ensures IsPeak(table, m)
  {
    if table == [] then 0
    else
      var m := Peak(table[..|table| - 1]);
      PeakMore(table, |table| - 1, m);
      assert table[..|table|] == table;
      Larger(table[|table| - 1], m)
  }

  function Larger(l: Load, m: int): int {
    var m1 := if l.out > m then l.out else m;
    if l.inn > m1 then l.inn else m1
  }

  lemma PeakMore(table: LoadTable, n: nat, m: int)
    requires n < |table| && IsPeak(table[..n], m)
    ensures IsPeak(table[..n + 1], Larger(table[n], m))
  {
    var b := table[..n + 1];
    assert forall c | 0 <= c < n :: b[c] == table[..n][c];
    assert b[n] == table[n];
    if m > 0 {
      var c :| 0 <= c < n && (m == table[..n][c].out || m == table[..n][c].inn);
      assert m == b[c].out || m == b[c].inn;
    }
  }

  lemma PeakUnique(table: LoadTable, m: int)
    requires IsPeak(table, m)
    ensures m == Peak(table)
  {
    assert IsPeak(table, Peak(table));
  }

  /** The second column's sum. */
  ghost function TotalIn(table: LoadTable): int {
    if table == [] then 0 else TotalIn(table[..|table| - 1]) + table[|table| - 1].inn
  }

  ghost function Below(n: nat): (r: set<int>)
    ensures forall c :: c in r <==> 0 <= c < n
  {
    if n == 0 then {} else Below(n - 1) + {n - 1}
  }

  /** More traffic in a table adds exactly its shipments. */
  lemma {:induction false} TotalJoint(loadTable: LoadTable, t: set<Xfer>, n: nat)
    requires n <= |loadTable|
    ensures TotalIn(Joint(loadTable, t)[..n]) == TotalIn(loadTable[..n]) + |Into(t, Below(n))|
  {
    hide InOf, OutOf, Into;
    if n == 0 {
      NothingInto(t);
    } else {
      TotalJoint(loadTable, t, n - 1);
      IntoStep(t, Below(n - 1), n - 1);
      var a, b := Joint(loadTable, t)[..n], loadTable[..n];
      assert a[..n - 1] == Joint(loadTable, t)[..n - 1] && b[..n - 1] == loadTable[..n - 1];
      assert a[n - 1].inn == b[n - 1].inn + InOf(t, n - 1);
    }
  }

  lemma NothingInto(t: set<Xfer>)
    ensures |Into(t, Below(0))| == 0
  {
    assert Into(t, Below(0)) == {};
  }

  lemma TotalWith(loadTable: LoadTable, t: set<Xfer>)
    requires forall e | e in t :: 0 <= e.dst < |loadTable|
    ensures TotalIn(Joint(loadTable, t)) == TotalIn(loadTable) + |t|
  {
    hide TotalIn, Joint, Below;
    var n, joint := |loadTable|, Joint(loadTable, t);
    TotalJoint(loadTable, t, n);
    assert joint[..n] == joint && loadTable[..n] == loadTable && Into(t, Below(n)) == t;
  }

  /** src/sol/BalanceSolution.cc:348-360 */
  method EvalTable(table: LoadTable) returns (st: State)
    ensures IsPeak(table, st.load) && st.bdwt == TotalIn(table)
  {
    hide IsPeak;
    var bdwt, load := 0, 0;
    NoPeak(table);
    for i := 0 to |table|
      invariant IsPeak(table[..i], load) && bdwt == TotalIn(table[..i])
    {
      assert table[..i + 1][..i] == table[..i];
      PeakMore(table, i, load);
      bdwt := bdwt + table[i].inn;
      load := if table[i].out > load then table[i].out else load;
      load := if table[i].inn > load then table[i].inn else load;
    }
    assert table[..|table|] == table;
    st := State(load, bdwt);
  }

  lemma NoPeak(table: LoadTable)
    ensures IsPeak(table[..0], 0)
  {}

  /** src/sol/BalanceSolution.cc:121-136: a lower load always wins, a higher one never. */
  method IsBetter(st1: State, color1: int, st2: State, color2: int, table: LoadTable) returns (r: bool)
    requires st1.load == st2.load ==> 0 <= color1 < |table| && 0 <= color2 < |table|
    ensures st1.load < st2.load ==> r
    ensures st1.load > st2.load ==> !r
    ensures st1.load == st2.load ==> (r <==> st1.bdwt < st2.bdwt || table[color1].out < table[color2].out)
  {
    if st1.load < st2.load {
      return true;
    } else if st1.load == st2.load {
      if st1.bdwt < st2.bdwt {
        return true;
      } else {
        return table[color1].out < table[color2].out;
      }
    }
    return false;
  }

  /** The cluster's table with a stripe's traffic on top. */
  ghost function Joint(loadTable: LoadTable, t: set<Xfer>): (r: LoadTable)
    ensures |r| == |loadTable|
    ensures forall c | 0 <= c < |r| :: r[c].out == loadTable[c].out + OutOf(t, c) && r[c].inn == loadTable[c].inn + InOf(t, c)
  {
    seq(|loadTable|, c requires 0 <= c < |loadTable| => Load(loadTable[c].out + OutOf(t, c), loadTable[c].inn + InOf(t, c)))
  }

  /** The cluster's table, off by what the stripe's tables are off from traffic t. */
  ghost function Seen(loadTable: LoadTable, inn: Table, out: Table, t: set<Xfer>): (r: LoadTable)
    ensures |r| == |loadTable|
    ensures forall c | 0 <= c < |r| ::
              r[c].out == loadTable[c].out + Get(out, c) - OutOf(t, c) && r[c].inn == loadTable[c].inn + Get(inn, c) - InOf(t, c)
    ensures Counts(inn, out, t) ==> r == loadTable
  {
    seq(|loadTable|, c requires 0 <= c < |loadTable| =>
      Load(loadTable[c].out + Get(out, c) - OutOf(t, c), loadTable[c].inn + Get(inn, c) - InOf(t, c)))
  }

  /** Incremental updates do not change how far the tables are off. */
  lemma SeenStays(loadTable: LoadTable, inn0: Table, out0: Table, t0: set<Xfer>, inn: Table, out: Table, t: set<Xfer>)
    requires Moved(inn0, out0, t0, inn, out, t)
    ensures Seen(loadTable, inn, out, t) == Seen(loadTable, inn0, out0, t0)
  {
    hide InOf, OutOf;
    forall c | 0 <= c < |loadTable| ensures Seen(loadTable, inn, out, t)[c] == Seen(loadTable, inn0, out0, t0)[c] {
      assert Get(inn, c) - InOf(t, c) == Get(inn0, c) - InOf(t0, c);
      assert Get(out, c) - OutOf(t, c) == Get(out0, c) - OutOf(t0, c);
    }
  }

  /** src/sol/BalanceSolution.cc:169-174 */
  method AddTables(loadTable: LoadTable, stripeTable: LoadTable) returns (currTable: LoadTable)
    requires |loadTable| == |stripeTable|
    ensures currTable == Seen(loadTable, InColumn(stripeTable), OutColumn(stripeTable), {})
  {
    currTable := loadTable;
    for i := 0 to |loadTable|
      invariant |currTable| == |loadTable|
      invariant forall c | 0 <= c < i :: currTable[c] == Load(loadTable[c].out + stripeTable[c].out, loadTable[c].inn + stripeTable[c].inn)
      invariant forall c | i <= c < |loadTable| :: currTable[c] == loadTable[c]
    {
      currTable := currTable[i := Load(currTable[i].out + stripeTable[i].out, currTable[i].inn + stripeTable[i].inn)];
    }
    Unloaded(loadTable, stripeTable, currTable);
  }

  lemma Unloaded(loadTable: LoadTable, stripeTable: LoadTable, currTable: LoadTable)
    requires |loadTable| == |stripeTable| == |currTable|
    requires forall c | 0 <= c < |loadTable| :: currTable[c] == Load(loadTable[c].out + stripeTable[c].out, loadTable[c].inn + stripeTable[c].inn)
    ensures currTable == Seen(loadTable, InColumn(stripeTable), OutColumn(stripeTable), {})
  {
    hide InOf, OutOf;
    CountsNothing();
    forall c | 0 <= c < |loadTable| ensures currTable[c] == Seen(loadTable, InColumn(stripeTable), OutColumn(stripeTable), {})[c] {
      assert Get(map[], c) == 0 == InOf({}, c) == OutOf({}, c);
      assert Get(InColumn(stripeTable), c) == stripeTable[c].inn && Get(OutColumn(stripeTable), c) == stripeTable[c].out;
    }
  }

  /** Adding a predicted table is adding its traffic to what is seen. */
  lemma SeenJoint(loadTable: LoadTable, inn: Table, out: Table, t: set<Xfer>)
    ensures Seen(loadTable, inn, out, {}) == Joint(Seen(loadTable, inn, out, t), t)
  {
    hide InOf, OutOf;
    CountsNothing();
    forall c | 0 <= c < |loadTable| ensures Seen(loadTable, inn, out, {})[c] == Joint(Seen(loadTable, inn, out, t), t)[c] {
      assert Get(map[], c) == 0 == InOf({}, c) == OutOf({}, c);
    }
  }

  /** The load that the cluster would have with colour c for idx. */
  ghost function LoadWith<C>(g: Dag<C>, col: Coloring, idx: int, c: int, loadTable: LoadTable): (m: nat)
    ensures IsPeak(Joint(loadTable, Shipments(g, col[idx := c])), m)
  {
    hide Shipments, Joint, IsPeak;
    Peak(Joint(loadTable, Shipments(g, col[idx := c])))
  }

  /** c is preferred to d: by the load of the cluster, then by the number of shipments or, with c taken, by what the two
      nodes send. */
  ghost predicate Preferred<C>(g: Dag<C>, col: Coloring, idx: int, c: int, d: int, loadTable: LoadTable) {
    var t, u := Shipments(g, col[idx := c]), Shipments(g, col[idx := d]);
    var m, l := LoadWith(g, col, idx, c, loadTable), LoadWith(g, col, idx, d, loadTable);
    m < l || (m == l && (|t| < |u| || (0 <= c < |loadTable| && 0 <= d < |loadTable| && Joint(loadTable, t)[c].out < Joint(loadTable, t)[d].out)))
  }

  // ---------------------------------------------------------------------------------------------
  // The greedy choice

  /** Of the colours of v's children, c makes for the least load of the cluster; it is -1 only if there are none. */
  ghost predicate BestForCluster<C>(g: Dag<C>, col: Coloring, v: int, c: int, seen: LoadTable)
    requires v in g
  {
    var cs := ChildPalette(g, col, v);
    if cs == {} then c == -1
    else c in cs && forall d | d in cs :: LoadWith(g, col, v, c, seen) <= LoadWith(g, col, v, d, seen)
  }

  ghost predicate ClusterChosenAt<C>(g: Dag<C>, col: Coloring, topo: seq<int>, seen: LoadTable, i: int)
    requires 0 <= i < |topo|
  {
    topo[i] in g && topo[i] in col && BestForCluster(g, Before(col, topo, i), topo[i], col[topo[i]], seen)
  }

  /** Each of the first n vertices of topo got the best of its children's colours, given the colours before. */
  ghost predicate ClusterGreedyUpto<C>(g: Dag<C>, col: Coloring, topo: seq<int>, seen: LoadTable, n: int)
    requires n <= |topo|
  {
    forall i | 0 <= i < n :: ClusterChosenAt(g, col, topo, seen, i)
  }

  ghost predicate ClusterGreedy<C>(g: Dag<C>, col: Coloring, topo: seq<int>, seen: LoadTable) {
    ClusterGreedyUpto(g, col, topo, seen, |topo|)
  }

  lemma NoneTaken<C>(g: Dag<C>, col: Coloring, topo: seq<int>, seen: LoadTable)
    ensures ClusterGreedyUpto(g, col, topo, seen, 0)
  {}

  lemma ClusterGreedyMore<C>(g: Dag<C>, col: Coloring, topo: seq<int>, seen: LoadTable, i: nat, c: int)
    requires i < |topo| && ClusterGreedyUpto(g, col, topo, seen, i) && Distinct(topo)
    requires forall j | i <= j < |topo| :: topo[j] in col && col[topo[j]] == -1
    requires topo[i] in g && BestForCluster(g, col, topo[i], c, seen)
    ensures ClusterGreedyUpto(g, col[topo[i] := c], topo, seen, i + 1)
  {
    hide BestForCluster, Before;
    var col' := col[topo[i] := c];
    forall j | 0 <= j < i + 1 ensures ClusterChosenAt(g, col', topo, seen, j) {
      BeforeStays(col, topo, i, c, j);
      if j == i { BeforeNow(col, topo, i); } else { assert ClusterChosenAt(g, col, topo, seen, j); }
    }
  }

  lemma BestOfTried<C>(g: Dag<C>, col: Coloring, v: int, cs: seq<int>, c: int, seen: LoadTable)
    requires Colored(g, col) && v in g && ChildPalette(g, col, v) == E.Elements(cs)
    requires (c == -1 <==> cs == []) && (c != -1 ==> c in cs)
    requires forall i | 0 <= i < |cs| :: cs[i] != -1 && LoadWith(g, col, v, c, seen) <= LoadWith(g, col, v, cs[i], seen)
    ensures BestForCluster(g, col, v, c, seen)
  {
    hide LoadWith, ChildPalette, IsPeak;
    if cs != [] { assert cs[0] in E.Elements(cs); } else { assert E.Elements(cs) == {}; }
  }

  /** No counter of the cluster reaches the largest int. */
  ghost predicate NoOverflow<C>(g: Dag<C>, loadTable: LoadTable) {
    forall col: Coloring :: Peak(Joint(loadTable, Shipments(g, col))) < INT_MAX
  }

  /** What the stripe's current tables make of the cluster's load. */
  ghost function SeenBy<C>(stripe: Stripe<C>, loadTable: LoadTable): (r: LoadTable)
    reads stripe
    ensures |r| == |loadTable|
  {
    Seen(loadTable, stripe.inn, stripe.out, Shipments(stripe.ecdag, stripe.coloring))
  }

  /** src/sol/BalanceSolution.cc:158-183: among the child colours, one with the least load of the cluster, as far as
      the stripe's tables are right; -1 if there is none. */
  method ChooseColorFullnode<C>(stripe: Stripe<C>, childColors: seq<int>, loadTable: LoadTable, idx: int) returns (best: int)
    requires stripe.Ready() && stripe.InRange(|loadTable|) && NoOverflow(stripe.ecdag, SeenBy(stripe, loadTable))
    requires idx in stripe.ecdag && stripe.coloring[idx] == -1
    requires forall i | 0 <= i < |childColors| :: 0 <= childColors[i] < |loadTable|
    requires forall c :: c != -1 ==> Recolours(stripe.ecdag, stripe.coloring, idx, c)
    ensures best == -1 <==> childColors == []
    ensures best != -1 ==> best in childColors && 0 <= best < |loadTable|
    ensures forall i | 0 <= i < |childColors| ::
              LoadWith(stripe.ecdag, stripe.coloring, idx, best, SeenBy(stripe, loadTable)) <=
              LoadWith(stripe.ecdag, stripe.coloring, idx, childColors[i], SeenBy(stripe, loadTable))
    ensures best != -1 ==> exists j :: NoneAfter(stripe.ecdag, stripe.coloring, idx, childColors, j, |childColors|, best, SeenBy(stripe, loadTable))
  {
    hide Shipments, NoOverflow, Recolours, LoadWith, Peak, Joint, SeenBy, Preferred, IsPeak;
    ghost var seen := SeenBy(stripe, loadTable);
    best := -1;
    var bestState := State(INT_MAX, INT_MAX);
    ghost var at := 0;
    for i := 0 to |childColors|
      invariant best == -1 <==> i == 0
      invariant best != -1 ==> best in childColors && 0 <= best < |loadTable|
      invariant if best == -1 then bestState == State(INT_MAX, INT_MAX)
                else bestState.load == LoadWith(stripe.ecdag, stripe.coloring, idx, best, seen)
      invariant forall j | 0 <= j < i :: bestState.load <= LoadWith(stripe.ecdag, stripe.coloring, idx, childColors[j], seen)
      invariant best != -1 ==> bestState.bdwt == TotalIn(seen) + |Shipments(stripe.ecdag, stripe.coloring[idx := best])|
      invariant best != -1 ==> NoneAfter(stripe.ecdag, stripe.coloring, idx, childColors, at, i, best, seen)
    {
      var newColor := childColors[i];
      assert newColor != -1 && newColor in childColors;
      var state, currTable := TryGlobal(stripe, loadTable, idx, newColor);
      var better := IsBetter(state, newColor, bestState, best, currTable);
      if best != -1 { Ties(stripe.ecdag, stripe.coloring, idx, newColor, best, seen, state, bestState, currTable); }
      if better {
        bestState, best, at := state, newColor, i;
      }
    }
  }

  /** One candidate: predict the stripe's table and evaluate it together with the cluster's. */
  method TryGlobal<C>(stripe: Stripe<C>, loadTable: LoadTable, idx: int, newColor: int) returns (state: State, currTable: LoadTable)
    requires stripe.Ready() && stripe.InRange(|loadTable|) && NoOverflow(stripe.ecdag, SeenBy(stripe, loadTable))
    requires idx in stripe.ecdag && stripe.coloring[idx] == -1 && 0 <= newColor < |loadTable|
    requires Recolours(stripe.ecdag, stripe.coloring, idx, newColor)
    ensures currTable == Joint(SeenBy(stripe, loadTable), Shipments(stripe.ecdag, stripe.coloring[idx := newColor]))
    ensures state.load == LoadWith(stripe.ecdag, stripe.coloring, idx, newColor, SeenBy(stripe, loadTable)) < INT_MAX
    ensures state.bdwt == TotalIn(SeenBy(stripe, loadTable)) + |Shipments(stripe.ecdag, stripe.coloring[idx := newColor])|
  {
    hide Recolours, Shipments, TableIs, NoneLoses, Peak, Joint, Counts, Moved, Seen, InColumn, OutColumn, IsPeak, TotalIn;
    ghost var before, after := Shipments(stripe.ecdag, stripe.coloring), Shipments(stripe.ecdag, stripe.coloring[idx := newColor]);
    var stripeTable := stripe.EvaluateChange(|loadTable|, idx, newColor);
    currTable := AddTables(loadTable, stripeTable);
    SeenJoint(loadTable, InColumn(stripeTable), OutColumn(stripeTable), after);
    SeenStays(loadTable, stripe.inn, stripe.out, before, InColumn(stripeTable), OutColumn(stripeTable), after);
    state := EvalTable(currTable);
    PeakUnique(currTable, state.load);
    LoadWithIs(stripe.ecdag, stripe.coloring, idx, newColor, SeenBy(stripe, loadTable));
    RecolourFacts(stripe.ecdag, stripe.coloring, idx, newColor);
    EndpointsInRange(stripe.ecdag, stripe.coloring[idx := newColor], |loadTable|);
    TotalWith(SeenBy(stripe, loadTable), after);
  }

  lemma LoadWithIs<C>(g: Dag<C>, col: Coloring, idx: int, c: int, loadTable: LoadTable)
    ensures LoadWith(g, col, idx, c, loadTable) == Peak(Joint(loadTable, Shipments(g, col[idx := c])))
  {
    hide Shipments, Joint, IsPeak;
    PeakUnique(Joint(loadTable, Shipments(g, col[idx := c])), LoadWith(g, col, idx, c, loadTable));
  }

  /** Of the first n candidates none that comes after place j is preferred to the one there. */
  ghost predicate NoneAfter<C>(g: Dag<C>, col: Coloring, idx: int, childColors: seq<int>, j: int, n: nat, best: int, loadTable: LoadTable) {
    0 <= j < n <= |childColors| && childColors[j] == best && forall l | j < l < n :: !Preferred(g, col, idx, childColors[l], best, loadTable)
  }

  /** isBetter decides for the candidate exactly if it is preferred. */
  lemma Ties<C>(g: Dag<C>, col: Coloring, idx: int, c: int, best: int, seen: LoadTable, state: State, bestState: State, currTable: LoadTable)
    requires 0 <= c < |seen| && 0 <= best < |seen| && currTable == Joint(seen, Shipments(g, col[idx := c]))
    requires state == State(LoadWith(g, col, idx, c, seen), TotalIn(seen) + |Shipments(g, col[idx := c])|)
    requires bestState == State(LoadWith(g, col, idx, best, seen), TotalIn(seen) + |Shipments(g, col[idx := best])|)
    ensures Preferred(g, col, idx, c, best, seen) <==>
              state.load < bestState.load
              || (state.load == bestState.load && (state.bdwt < bestState.bdwt || currTable[c].out < currTable[best].out))
  {
    hide Shipments, Joint, LoadWith, IsPeak, InOf, OutOf, TotalIn;
  }

  /** One round of GloballyMLP. */
  method ColorNext<C>(stripe: Stripe<C>, ghost rank: map<int, nat>, topo: seq<int>, i: nat, ghost coloring0: Coloring, coloring: Coloring,
                      loadTable: LoadTable, ghost seen: LoadTable)
    returns (coloring': Coloring)
    requires i < |topo| && stripe.coloring == coloring && stripe.TablesFit(|loadTable|)
    requires Progress(stripe.ecdag, coloring, |loadTable|, rank, topo, i, coloring0)
    requires Problem(stripe.ecdag, rank, coloring0, |loadTable|) && InOrder(stripe.ecdag, topo)
    requires seen == SeenBy(stripe, loadTable) && NoOverflow(stripe.ecdag, seen) && ClusterGreedyUpto(stripe.ecdag, coloring, topo, seen, i)
    modifies stripe`coloring, stripe`inn, stripe`out, stripe`bdwt, stripe`load
    ensures stripe.coloring == coloring' && stripe.TablesFit(|loadTable|) && seen == SeenBy(stripe, loadTable)
    ensures Progress(stripe.ecdag, coloring', |loadTable|, rank, topo, i + 1, coloring0)
    ensures ClusterGreedyUpto(stripe.ecdag, coloring', topo, seen, i + 1) && Before(coloring', topo, 0) == Before(coloring, topo, 0)
  {
    hide Shipments, Counts, Palette, ColoredFromBelow, Moved, Mirrored, SimpleEdges, Grown, NoOverflow, LoadWith, LeavesBelow, InOrder, TopoOrder,
         Recolours, Seen, ClusterGreedyUpto, ChildPalette, BestForCluster, E.Elements, IsPeak, Preferred, NoneAfter, Before, Joint, Peak,
         Ranked, Closed, E.Shape, E.ListsFit, TotalIn;
    var idx := topo[i];
    var oldColor := coloring[idx];
    var childColors := stripe.ChildColors(idx);
    OrderAt(stripe.ecdag, rank, coloring0, |loadTable|, topo, i);
    ChildColorsInRange(stripe.ecdag, stripe.coloring, idx, childColors, |loadTable|);
    AnyColorAllowed(stripe.ecdag, rank, stripe.coloring, idx);
    var bestColor := ChooseColorFullnode(stripe, childColors, loadTable, idx);
    ColoredUpTo(stripe.ecdag, rank, stripe.coloring, topo, i, bestColor);
    ghost var inn0, out0, col0 := stripe.inn, stripe.out, stripe.coloring;
    NextProgress(stripe.ecdag, col0, |loadTable|, rank, topo, i, coloring0, bestColor);
    PaletteListed(stripe.ecdag, col0, idx, childColors);
    BestOfTried(stripe.ecdag, col0, idx, childColors, bestColor, seen);
    ClusterGreedyMore(stripe.ecdag, col0, topo, seen, i, bestColor);
    BeforeStays(col0, topo, i, bestColor, 0);
    if bestColor == oldColor {
      coloring' := coloring;
      assert col0[idx := bestColor] == col0;
    } else {
      coloring' := coloring[idx := bestColor];
      stripe.ChangeColor(idx, bestColor);
      PaletteInRange(col0, |loadTable|);
      GrownInRange(inn0, out0, stripe.inn, stripe.out, Palette(col0) + {bestColor}, |loadTable|);
      SeenStays(loadTable, inn0, out0, Shipments(stripe.ecdag, col0), stripe.inn, stripe.out, Shipments(stripe.ecdag, coloring'));
    }
  }

  /** The colouring that GloballyMLP starts from. */
  ghost predicate IsBlank(col: Coloring, coloring0: Coloring, itm_idx: seq<int>) {
    && col.Keys == coloring0.Keys + (set v | v in itm_idx)
    && (forall v | v in col :: col[v] == if v in coloring0 then coloring0[v] else -1)
  }

  /** src/sol/BalanceSolution.cc:265 */
  method AddTraffic<C>(stripe: Stripe<C>, loadTable: LoadTable) returns (tab: LoadTable)
    requires stripe.Ready() && stripe.InRange(|loadTable|)
    ensures tab == Joint(loadTable, Shipments(stripe.ecdag, stripe.coloring))
  {
    hide Shipments, InOf, OutOf;
    tab := stripe.EvalColoringGlobal(loadTable);
  }

  /** src/sol/BalanceSolution.cc:240-246: as in SingleMLP, but the tables are not evaluated. */
  method StartGlobal<C>(balance: BalanceSolution, stripe: Stripe<C>, itm_idx: seq<int>, dag: E.ECDAG<C>, coloring0: Coloring, loadTable: LoadTable,
                        ghost rank: map<int, nat>)
    returns (topo: seq<int>, coloring: Coloring)
    requires dag.Valid() && dag.nodes == stripe.ecdag && Problem(stripe.ecdag, rank, coloring0, |loadTable|)
    requires coloring0.Keys + (set v | v in itm_idx) == stripe.ecdag.Keys
    modifies stripe`coloring
    ensures stripe.coloring == coloring && IsBlank(coloring, coloring0, itm_idx) && InOrder(stripe.ecdag, topo)
    ensures Progress(stripe.ecdag, coloring, |loadTable|, rank, topo, 0, coloring0)
  {
    hide ColoredFromBelow, TopoOrder, Mirrored, SimpleEdges, E.Shape, E.ListsFit, S.Ordered, InOrder, Closed, Ranked;
    topo := S.GenTopoIdxs(dag);
    coloring := balance.Uncolored(coloring0, itm_idx);
    stripe.SetColoring(coloring);
    Blank(stripe.ecdag, rank, coloring0, |loadTable|, coloring, topo);
  }

  /** src/sol/BalanceSolution.cc:234-268. In the end every vertex between leaves and headers has the colour of a leaf
      below it, or -1 exactly when all of those are -1, and the cluster's table has grown by exactly the stripe's
      traffic. Nothing evaluates the stripe before the loop: its tables may be off, and then by the same amount at
      every step, so choices are made for the load that is seen through them. */
  method GloballyMLP<C>(balance: BalanceSolution, stripe: Stripe<C>, itm_idx: seq<int>, dag: E.ECDAG<C>, coloring0: Coloring, loadTable: LoadTable,
                        ghost rank: map<int, nat>)
    returns (coloring: Coloring, loadTable': LoadTable, ghost topo: seq<int>)
    requires dag.Valid() && dag.nodes == stripe.ecdag && Problem(stripe.ecdag, rank, coloring0, |loadTable|)
    requires coloring0.Keys + (set v | v in itm_idx) == stripe.ecdag.Keys && stripe.TablesFit(|loadTable|)
    requires forall col | IsBlank(col, coloring0, itm_idx) ::
               NoOverflow(stripe.ecdag, Seen(loadTable, stripe.inn, stripe.out, Shipments(stripe.ecdag, col)))
    modifies stripe`coloring, stripe`inn, stripe`out, stripe`bdwt, stripe`load
    ensures stripe.coloring == coloring && stripe.Ready() && stripe.Evaluated()
    ensures forall v | v in coloring0 :: v in coloring && coloring[v] == coloring0[v]
    ensures forall v | v in stripe.ecdag && stripe.ecdag[v].kind.Intermediate? ::
              v in coloring && ColoredFromBelow(stripe.ecdag, rank, coloring, v)
    ensures loadTable' == Joint(loadTable, Shipments(stripe.ecdag, coloring)) && InOrder(stripe.ecdag, topo)
    ensures ClusterGreedy(stripe.ecdag, coloring, topo, old(Seen(loadTable, stripe.inn, stripe.out, Shipments(stripe.ecdag, Before(coloring, topo, 0)))))
  {
    hide Shipments, Counts, Recolours, Palette, ColoredFromBelow, TopoOrder, NoOverflow, Mirrored, SimpleEdges, E.Shape, E.ListsFit, S.Ordered,
         LeavesBelow, InOrder, Summarises, InOf, OutOf, Closed, Ranked, Seen, TwoToColor, AtMostOne, NoneColored, KeysBelow, Grown, ToColor, IsBlank, ClusterGreedyUpto,
         Before;
    var topoIdxs;
    topoIdxs, coloring := StartGlobal(balance, stripe, itm_idx, dag, coloring0, loadTable, rank);
    topo := topoIdxs;
    ghost var seen := SeenBy(stripe, loadTable);
    ghost var blank := coloring;
    NoneTaken(stripe.ecdag, coloring, topo, seen);
    BeforeNow(coloring, topo, 0);
    for i := 0 to |topoIdxs|
      invariant Before(coloring, topo, 0) == blank && ClusterGreedyUpto(stripe.ecdag, coloring, topo, seen, i)
      invariant stripe.coloring == coloring && stripe.TablesFit(|loadTable|) && seen == SeenBy(stripe, loadTable)
      invariant Progress(stripe.ecdag, coloring, |loadTable|, rank, topo, i, coloring0)
    {
      coloring := ColorNext(stripe, rank, topoIdxs, i, coloring0, coloring, loadTable, seen);
    }
    loadTable' := AddTraffic(stripe, loadTable);
    stripe.EvaluateColoring();
    Finish(stripe.ecdag, rank, coloring0, |loadTable|, coloring, topo);
  }

  /** Two coloured vertices on different nodes, one feeding the other. */
  ghost predicate EdgeAcross<C>(g: Dag<C>, col: Coloring, v: int, i: int)
    requires Colored(g, col)
  {
    v in g && 0 <= i < |g[v].parents| && col[v] != -1 && col[g[v].parents[i]] != -1 && col[v] != col[g[v].parents[i]]
  }

  /** A stripe that was never evaluated has empty tables: they are right for the starting colours if and only
      if no coloured vertex feeds one on another node, that is, no header reads a block directly. */
  lemma FreshTablesRightIff<C>(g: Dag<C>, col: Coloring)
    requires Colored(g, col)
    ensures Counts(map[], map[], Shipments(g, col)) <==> forall v, i :: !EdgeAcross(g, col, v, i)
  {
    hide InOf, OutOf;
    var t := Shipments(g, col);
    if Counts(map[], map[], t) {
      forall v, i ensures !EdgeAcross(g, col, v, i) {
        if EdgeAcross(g, col, v, i) {
          var e := Xfer(v, col[v], col[g[v].parents[i]]);
          ShipmentIff(g, col, e);
          Occurs(t, e);
        }
      }
    }
    if forall v, i :: !EdgeAcross(g, col, v, i) {
      NoneShipped(g, col);
      CountsNothing();
    }
  }

  lemma Occurs(t: set<Xfer>, e: Xfer)
    requires e in t
    ensures !Counts(map[], map[], t)
  {
    var s := set x | x in t && x.dst == e.dst;
    assert e in s;
    assert InOf(t, e.dst) == |s| != 0;
    assert Get(map[], e.dst) == 0;
  }

  lemma ShippedAcross<C>(g: Dag<C>, col: Coloring, e: Xfer)
    requires Colored(g, col) && e in Shipments(g, col)
    ensures exists i :: EdgeAcross(g, col, e.v, i)
  {
    ShipmentIff(g, col, e);
    var i :| 0 <= i < |g[e.v].parents| && col[g[e.v].parents[i]] == e.dst;
    assert EdgeAcross(g, col, e.v, i);
  }

  lemma NoneShipped<C>(g: Dag<C>, col: Coloring)
    requires Colored(g, col) && forall v, i :: !EdgeAcross(g, col, v, i)
    ensures Shipments(g, col) == {}
  {
    hide Shipments, EdgeAcross;
    forall e ensures e !in Shipments(g, col) {
      if e in Shipments(g, col) { ShippedAcross(g, col, e); }
    }
  }
}
