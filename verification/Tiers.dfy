/** Why equally coloured consumers share a level in the repair of a code whose DAG comes in tiers, whatever the
    colouring: all readers of a vertex are in one tier. */
module Tiers {
  import opened Compile
  import opened Dags
  import opened Plumb
  import S = Sorting

  ghost predicate Reads<C>(g: Dag<C>, u: int, v: int) {
    u in g && v in g[u].children
  }

  ghost predicate SameTier(tier: map<int, nat>, u: int, v: int) {
    u in tier && v in tier && tier[u] == tier[v]
  }

  /** tier is the level of every vertex, and whatever reads a vertex is at one level. */
  ghost predicate Tiered<C>(g: Dag<C>, tier: map<int, nat>) {
    && tier.Keys == g.Keys && S.LevelsFit(g, tier)
    && (forall v, a, b | Reads(g, a, v) && Reads(g, b, v) :: SameTier(tier, a, b))
  }

  ghost predicate Unread<C>(g: Dag<C>, to: seq<int>) {
    forall u, v | v in to :: !Reads(g, u, v)
  }

  /** Everything computed but the sub-packets to is needed for something else. */
  ghost predicate Used<C>(g: Dag<C>, to: seq<int>) {
    forall v | v in g && !g[v].kind.Leaf? && v !in to :: exists u :: Reads(g, u, v)
  }

  /** What a code's repair DAG for the sub-packets to has to be for the rest of the repair; indices are below limit. */
  ghost predicate Suits<C>(g: Dag<C>, to: seq<int>, limit: int) {
    && to != [] && Distinct(to) && (forall i | 0 <= i < |to| :: to[i] in g && !g[to[i]].kind.Leaf?)
    && SimpleEdges(g) && (forall v | v in g :: (g[v].kind.Leaf? <==> g[v].children == []) && 0 <= v < limit)
    && Used(g, to) && Unread(g, to) && exists tier :: Tiered(g, tier)
  }

  /** What is left of the code's DAG g, and a header over the sub-packets to. */
  ghost predicate OneRepair<C>(g': Dag<C>, g: Dag<C>, to: seq<int>, header: int) {
    && header in g' && g'[header].children == to
    && (forall v | v in g' && v != header :: v in g && g'[v].children == g[v].children && g'[v].coefs == g[v].coefs)
  }

  /** What the plan and the code's DAG have to do with each other. */
  ghost predicate PlanOf<C>(p: Plan<C>, g: Dag<C>, to: seq<int>) {
    WellFormed(p) && S.LevelsFit(p.g, p.lev) && OneRepair(p.g, g, to, p.header)
  }

  lemma {:induction false} LevelIsTier<C>(p: Plan<C>, g: Dag<C>, to: seq<int>, tier: map<int, nat>, v: int)
    requires PlanOf(p, g, to) && Tiered(g, tier) && v in p.g && v != p.header
    ensures v in g && p.lev[v] == tier[v]
    decreases p.lev[v]
  {
    hide Mirrored;
    assert S.LevelFits(p.g, p.lev, v) && S.LevelFits(g, tier, v);
    var kids := p.g[v].children;
    forall i | 0 <= i < |kids| ensures kids[i] in g && p.lev[kids[i]] == tier[kids[i]] {
      assert p.lev[kids[i]] < p.lev[v] <= p.last;
      LevelIsTier(p, g, to, tier, kids[i]);
    }
    if p.lev[v] > 0 {
      var i :| 0 <= i < |kids| && kids[i] in p.lev && p.lev[kids[i]] == p.lev[v] - 1;
      assert tier[kids[i]] < tier[v];
    }
    if tier[v] > 0 {
      var i :| 0 <= i < |kids| && kids[i] in tier && tier[kids[i]] == tier[v] - 1;
      assert p.lev[kids[i]] < p.lev[v];
    }
  }

  /** Whatever the colouring of the plan. */
  lemma TieredPlan<C>(p: Plan<C>, g: Dag<C>, to: seq<int>, tier: map<int, nat>)
    requires PlanOf(p, g, to) && Tiered(g, tier) && Unread(g, to)
    ensures OneLevelPerColor(p)
  {
    PlanKeys(p);
    hide WellFormed, Tiered, S.LevelsFit, OneRepair, Unread;
    forall v, i, j | v in p.g && 0 <= i < |p.g[v].parents| && 0 <= j < |p.g[v].parents|
      ensures SameTier(p.lev, p.g[v].parents[i], p.g[v].parents[j])
    {
      SameLevel(p, g, to, tier, v, i, j);
    }
  }

  /** The header is the only reader of what it reads. */
  lemma HeaderAlone<C>(p: Plan<C>, g: Dag<C>, to: seq<int>, u: int, v: int)
    requires PlanOf(p, g, to) && Unread(g, to) && Reads(p.g, u, v)
    ensures u == p.header <==> v in to
    ensures u != p.header ==> Reads(g, u, v)
  {
    hide WellFormed, S.LevelsFit;
    if u != p.header { assert Reads(g, u, v); }
  }

  lemma SameLevel<C>(p: Plan<C>, g: Dag<C>, to: seq<int>, tier: map<int, nat>, v: int, i: nat, j: nat)
    requires PlanOf(p, g, to) && Tiered(g, tier) && Unread(g, to)
    requires v in p.g && i < |p.g[v].parents| && j < |p.g[v].parents|
    ensures SameTier(p.lev, p.g[v].parents[i], p.g[v].parents[j])
  {
    hide WellFormed, S.LevelsFit, OneRepair, Unread;
    var a, b := p.g[v].parents[i], p.g[v].parents[j];
    ParentHasChild(p, v, i);
    ParentHasChild(p, v, j);
    PlanKeys(p);
    HeaderAlone(p, g, to, a, v);
    HeaderAlone(p, g, to, b, v);
    if v !in to {
      LevelIsTier(p, g, to, tier, a);
      LevelIsTier(p, g, to, tier, b);
    }
  }

  lemma PlanKeys<C>(p: Plan<C>)
    requires WellFormed(p)
    ensures Closed(p.g) && p.lev.Keys == p.g.Keys
    ensures forall v, i | v in p.g && 0 <= i < |p.g[v].parents| :: p.g[v].parents[i] in p.lev
  {}
}
