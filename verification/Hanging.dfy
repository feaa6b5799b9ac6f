/** A repair that hangs, from its DAG to the runs of its agents. */
module Hanging {
  import opened Dags
  import opened Traffic
  import opened Network
  import opened Programs
  import opened Compile
  import opened Plumb
  import opened Repair
  import E = Ecdags
  import G = GenTasks

  /** Block 0 feeds the vertices 1 and 2, the second of which also needs the first; the header 3 stores the second. */
  function SplitChildren(v: int): seq<int> {
    if v == 1 then [0] else if v == 2 then [0, 1] else if v == 3 then [2] else []
  }

  ghost predicate IsSplit<C>(g: Dag<C>) {
    (forall v :: v in g <==> 0 <= v <= 3) && forall v | v in g :: g[v].children == SplitChildren(v)
  }

  /** Block 0 is on node 1, both its consumers are to be computed on node 2, and node 3 stores the result. */
  const SPLIT_COLORS: Coloring := map[0 := 1, 1 := 2, 2 := 2, 3 := 3]

  /** The joined DAG is compiled for these colours, and then no schedule of the agents brings the repair to its end. */
  method SplitRepair<C, P>(coef: C) returns (taskmap: G.TaskLists<C>, ghost p: Plan<C>, ghost tasks: TaskMap<C>)
    ensures Sane(p) && IsSplit(p.g) && p.col == SPLIT_COLORS && Compiled(p, tasks) && G.Delivers(taskmap, tasks)
    ensures forall net: Cluster<C, Thread, P>, sched | Runs(net, p, tasks) && net.pktnum > 0 :: !Completes(net, sched)
  {
    hide *;
    var dag := JoinSplit(coef);
    forall col | G.Remapped(SPLIT_COLORS, col, map[]) ensures col == SPLIT_COLORS && G.Deploys(dag.nodes, col, 3, 1, 1, ["block"]) {
      NotRemapped(SPLIT_COLORS, col);
      SplitDeploys(dag.nodes);
    }
    var coloring;
    ghost var who;
    coloring, taskmap, p, who := G.GenRepairTasks(dag, SPLIT_COLORS, 1, 1, ["block"], 0, map[]);
    tasks := G.TasksOf(taskmap, who);
    G.ListsDeliver(taskmap, who);
    SplitSane(p);
    forall net: Cluster<C, Thread, P>, sched | Runs(net, p, tasks) && net.pktnum > 0 ensures !Completes(net, sched) {
      SplitHangs(p, tasks, net, sched);
    }
  }

  lemma SplitHangs<C, P>(p: Plan<C>, tasks: TaskMap<C>, net: Cluster<C, Thread, P>, sched: seq<Thread>)
    requires Sane(p) && !OneLevelPerColor(p) && Compiled(p, tasks) && Runs(net, p, tasks) && net.pktnum > 0
    ensures !Completes(net, sched)
  {
    hide *;
    if Exec(net, sched).Some? {
      SplitConsumersStarve(p, tasks, net, sched, Exec(net, sched).value);
    }
    CompletesIs(net, sched);
  }

  method JoinSplit<C>(coef: C) returns (dag: E.ECDAG<C>)
    ensures fresh(dag) && dag.Valid() && dag.headers == [3] && Mirrored(dag.nodes) && IsSplit(dag.nodes)
  {
    hide Mirrored, IsSplit, Grew, E.Shape, E.ListsFit, E.JoinAdds;
    ElementsOf(0, 1);
    ElementsOf(2, 2);
    dag := new E.ECDAG<C>();
    dag.Join(1, [0], [coef]);
    ghost var g1 := dag.nodes;
    FirstJoined(map[], g1, coef);
    dag.Join(2, [0, 1], [coef, coef]);
    ghost var g2 := dag.nodes;
    SecondJoined(g1, g2, coef);
    dag.Join(3, [2], [coef]);
    ThirdJoined(g2, dag.nodes, coef);
    SplitHeader(dag);
  }

  lemma ElementsOf(x: int, y: int)
    ensures E.Elements([x]) == {x} && E.Elements([x, y]) == {x, y}
  {
    assert [x][0] == x && [x, y][0] == x && [x, y][1] == y;
  }

  lemma FirstJoined<C>(g: Dag<C>, g': Dag<C>, coef: C)
    requires g == map[] && E.JoinAdds(g, g', 1, [0], [coef])
    ensures g'.Keys == {0, 1} && g'[0].kind.Leaf? && g'[1].kind.Root? && g'[1].children == [0]
  {
    ElementsOf(0, 0);
  }

  lemma SecondJoined<C>(g: Dag<C>, g': Dag<C>, coef: C)
    requires g.Keys == {0, 1} && g[0].kind.Leaf? && g[1].kind.Root? && g[1].children == [0] && E.JoinAdds(g, g', 2, [0, 1], [coef, coef])
    ensures g'.Keys == {0, 1, 2} && g'[0].kind.Leaf? && g'[1].kind.Intermediate? && g'[1].children == [0]
    ensures g'[2].kind.Root? && g'[2].children == [0, 1]
  {
    ElementsOf(0, 1);
  }

  ghost predicate Grew<C>(g: Dag<C>) {
    && g.Keys == {0, 1, 2, 3} && g[0].kind.Leaf? && g[1].kind.Intermediate? && g[1].children == [0]
    && g[2].kind.Intermediate? && g[2].children == [0, 1] && g[3].kind.Root? && g[3].children == [2]
  }

  lemma ThirdJoined<C>(g: Dag<C>, g': Dag<C>, coef: C)
    requires g.Keys == {0, 1, 2} && g[0].kind.Leaf? && g[1].kind.Intermediate? && g[1].children == [0]
    requires g[2].kind.Root? && g[2].children == [0, 1] && E.JoinAdds(g, g', 3, [2], [coef])
    ensures Grew(g')
  {
    ElementsOf(2, 2);
  }

  lemma SplitHeader<C>(dag: E.ECDAG<C>)
    requires dag.Valid() && Grew(dag.nodes)
    ensures dag.headers == [3] && Mirrored(dag.nodes) && IsSplit(dag.nodes)
  {
    hide Mirrored, Ranked;
    var g := dag.nodes;
    assert g[0].children == [];
    SplitIf(g);
    forall v ensures v in dag.headers <==> v == 3 {
      assert v in g.Keys <==> v in {0, 1, 2, 3};
    }
    OnlyThree(dag.headers, 3);
  }

  lemma SplitIf<C>(g: Dag<C>)
    requires Grew(g) && g[0].children == []
    ensures IsSplit(g)
  {
    forall v ensures v in g <==> 0 <= v <= 3 {
      assert v in g.Keys <==> v in {0, 1, 2, 3};
    }
  }

  lemma OnlyThree<T>(s: seq<T>, x: T)
    requires Distinct(s) && forall y :: y in s <==> y == x
    ensures s == [x]
  {
    TwoValues(s);
    assert x in s;
  }

  lemma TwoValues<T>(s: seq<T>)
    requires Distinct(s)
    ensures |s| >= 1 ==> s[0] in s
    ensures |s| >= 2 ==> s[1] in s && s[0] != s[1]
  {}

  lemma NotRemapped(before: Coloring, after: Coloring)
    requires G.Remapped(before, after, map[])
    ensures after == before
  {
    forall v | v in before ensures after[v] == before[v] {}
  }

  lemma SplitDeploys<C>(g: Dag<C>)
    requires Mirrored(g) && IsSplit(g)
    ensures G.Deploys(g, SPLIT_COLORS, 3, 1, 1, ["block"])
  {
    hide Mirrored, Closed;
    SplitClosed(g);
    forall v ensures v in SPLIT_COLORS <==> v in g {}
  }

  lemma SplitClosed<C>(g: Dag<C>)
    requires Mirrored(g)
    ensures Closed(g)
  {}

  /** The two consumers have one colour and different levels. */
  lemma SplitSane<C>(p: Plan<C>)
    requires WellFormed(p) && IsSplit(p.g) && p.header == 3 && p.ecn == p.ecw == 1 && p.col == SPLIT_COLORS
    ensures Sane(p) && !OneLevelPerColor(p)
  {
    hide Mirrored, Closed;
    assert p.g[2].children[1] == 1;
    ChildHasParent(p, 1, 0);
    ChildHasParent(p, 2, 0);
    var i :| 0 <= i < |p.g[0].parents| && p.g[0].parents[i] == 1;
    var j :| 0 <= j < |p.g[0].parents| && p.g[0].parents[j] == 2;
    assert p.lev[1] < p.lev[2];
  }
}
