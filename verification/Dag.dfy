/** The linear-computation DAG of a repair (src/ec/ECDAG.hh, src/ec/ECNode.hh): every vertex
    is a sub-packet, computed from its children with one coefficient per child. */
module Dags {
  datatype Kind = Leaf | Root | Intermediate

  datatype ECNode<C> = ECNode(kind: Kind, children: seq<int>, coefs: seq<C>, parents: seq<int>, toDelete: bool)

  type Dag<C> = map<int, ECNode<C>>

  /** Every edge joins two vertices of the DAG. */
  ghost predicate Closed<C>(g: Dag<C>) {
    && (forall v, i | v in g && 0 <= i < |g[v].children| :: g[v].children[i] in g)
    && (forall v, i | v in g && 0 <= i < |g[v].parents| :: g[v].parents[i] in g)
  }

  /** Parent lists mirror child lists, one entry per occurrence. */
  ghost predicate Mirrored<C>(g: Dag<C>) {
    && Closed(g)
    && (forall v, p | v in g && p in g :: multiset(g[v].parents)[p] == multiset(g[p].children)[v])
  }

  /** No vertex lists a child twice. */
  ghost predicate SimpleEdges<C>(g: Dag<C>) {
    forall v | v in g :: Distinct(g[v].children)
  }

  ghost predicate Distinct<T>(s: seq<T>) {
    forall i, j | 0 <= i < j < |s| :: s[i] != s[j]
  }

  /** A witness that the DAG has no cycle: ranks fall along every child edge. */
  ghost predicate Ranked<C>(g: Dag<C>, rank: map<int, nat>) {
    && (forall v | v in g :: v in rank)
    && (forall v, i | v in g && 0 <= i < |g[v].children| ::
          g[v].children[i] in rank && rank[g[v].children[i]] < rank[v])
  }

  ghost predicate Acyclic<C>(g: Dag<C>) {
    exists rank :: Ranked(g, rank)
  }

  lemma DistinctCount<T>(s: seq<T>, x: T)
    requires Distinct(s)
    ensures multiset(s)[x] == if x in s then 1 else 0
  {
    if s != [] {
      var n := |s| - 1;
      assert s == s[..n] + [s[n]];
      DistinctCount(s[..n], x);
    }
  }

  lemma CountedDistinct<T>(s: seq<T>)
    requires forall x :: multiset(s)[x] <= 1
    ensures Distinct(s)
  {
    forall i, j | 0 <= i < j < |s| ensures s[i] != s[j] {
      assert s == s[..j] + s[j..];
      assert s[..j][i] in multiset(s[..j]) && s[j..][0] in multiset(s[j..]);
      assert multiset(s)[s[i]] == multiset(s[..j])[s[i]] + multiset(s[j..])[s[i]];
    }
  }

  /** The parent relation read from either side. */
  lemma ParentIffChild<C>(g: Dag<C>, v: int, p: int)
    requires Mirrored(g) && v in g && p in g
    ensures p in g[v].parents <==> v in g[p].children
  {
    assert p in g[v].parents <==> multiset(g[v].parents)[p] > 0;
    assert v in g[p].children <==> multiset(g[p].children)[v] > 0;
  }

  lemma ParentsDistinct<C>(g: Dag<C>, v: int)
    requires Mirrored(g) && SimpleEdges(g) && v in g
    ensures Distinct(g[v].parents)
  {
    forall p ensures multiset(g[v].parents)[p] <= 1 {
      if p in g[v].parents {
        DistinctCount(g[p].children, v);
      }
    }
    CountedDistinct(g[v].parents);
  }

  lemma NotOwnChild<C>(g: Dag<C>, v: int)
    requires Acyclic(g) && v in g
    ensures v !in g[v].children
  {}

  /** topo lists the vertices between leaves and headers once, children first (genTopoIdxs). */
  ghost predicate TopoOrder<C>(g: Dag<C>, topo: seq<int>) {
    && Distinct(topo)
    && (forall i | 0 <= i < |topo| :: topo[i] in g && g[topo[i]].children != [])
    && (forall i, k | 0 <= i < |topo| && 0 <= k < |g[topo[i]].children| :: DoneBefore(g, topo, i, g[topo[i]].children[k]))
  }

  ghost predicate DoneBefore<C>(g: Dag<C>, topo: seq<int>, i: int, c: int)
    requires 0 <= i < |topo|
  {
    c in g && (g[c].children == [] || exists j | 0 <= j < i :: topo[j] == c)
  }
}
