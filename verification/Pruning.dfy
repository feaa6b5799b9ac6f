/** Reference-count pruning: removeChildNode (src/ec/ECNode.cc:120-149), removeNode and DeleteUseless
    (src/ec/ECDAG.cc:2266-2312), and the loop of genRepairECDAG that drives them
    (src/common/Stripe.cc:1425-1439). */
module Pruning {
  import opened Dags
  import opened Ecdags
  import opened Sorting

  /** v can be reached from k along child edges. */
  ghost predicate Reaches<C>(g: Dag<C>, rank: map<int, nat>, k: int, v: int)
    requires Closed(g) && Ranked(g, rank) && k in g
    decreases rank[k]
  {
    v == k || exists i :: 0 <= i < |g[k].children| && Reaches(g, rank, g[k].children[i], v)
  }

  lemma {:induction false} ReachesFurther<C>(g: Dag<C>, rank: map<int, nat>, k: int, p: int, i: nat)
    requires Closed(g) && Ranked(g, rank) && k in g && p in g && Reaches(g, rank, k, p) && i < |g[p].children|
    ensures Reaches(g, rank, k, g[p].children[i])
    decreases rank[k]
  {
    if p != k {
      var j :| 0 <= j < |g[k].children| && Reaches(g, rank, g[k].children[j], p);
      ReachesFurther(g, rank, g[k].children[j], p, i);
    }
  }

  /** Parent links and child entries that are still linked correspond. */
  ghost predicate LinksMatch<C>(g: Dag<C>, pend: map<int, seq<int>>)
    requires g.Keys == pend.Keys
  {
    && (forall v, i | v in g && 0 <= i < |g[v].parents| :: g[v].parents[i] in g)
    && (forall v, p | v in g && p in g :: multiset(g[v].parents)[p] == multiset(pend[p])[v])
  }

  /** While vertices are being removed, pend[p] holds the child entries of p whose parent link is still
      there; the vertices in started have no parents left. */
  ghost predicate PruneState<C>(g0: Dag<C>, g: Dag<C>, pend: map<int, seq<int>>, started: set<int>) {
    && g.Keys == g0.Keys == pend.Keys && started <= g.Keys
    && (forall v | v in g :: g[v] == g0[v].(parents := g[v].parents, toDelete := g[v].toDelete))
    && LinksMatch(g, pend)
    && (forall v | v in started :: g[v].parents == [])
    && (forall v | v in g && g0[v].parents == [] :: g[v].parents == [])
    && (forall v | v in g && v !in started :: pend[v] == g0[v].children && !g[v].toDelete)
  }

  /** Everything taken up so far is finished. */
  ghost predicate Finished<C>(g: Dag<C>, pend: map<int, seq<int>>, vs: set<int>) {
    forall v | v in vs :: v in g && v in pend && pend[v] == [] && g[v].toDelete
  }

  /** From one state to a later one: more is taken up, and what lost its last parent was taken up. */
  ghost predicate Later<C>(g: Dag<C>, pend: map<int, seq<int>>, started: set<int>,
                           g': Dag<C>, pend': map<int, seq<int>>, started': set<int>)
    requires g.Keys == g'.Keys == pend.Keys == pend'.Keys
  {
    && started <= started'
    && (forall v | v in started && v in g :: pend'[v] == pend[v] && g'[v].toDelete == g[v].toDelete)
    && (forall v | v in g && v !in started' && g'[v].parents == [] :: g[v].parents == [])
  }

  /** Apart from v, only vertices that once had a parent were taken up. */
  ghost predicate Below<C>(g0: Dag<C>, ss: set<int>, started: set<int>, v: int) {
    forall u | u in started && u !in ss && u != v :: u in g0 && g0[u].parents != []
  }

  lemma WithoutCount(s: seq<int>, x: int)
    ensures forall y :: multiset(Without(s, x))[y] == multiset(s)[y] - if y == x && x in s then 1 else 0
    ensures forall i | 0 <= i < |Without(s, x)| :: Without(s, x)[i] in s
  {
    if s != [] {
      assert s == [s[0]] + s[1..];
      WithoutCount(s[1..], x);
    }
  }

  /** One parent link goes: entry j of v's children. */
  ghost function Unlink<C>(g: Dag<C>, v: int, c: int): Dag<C>
    requires c in g
  {
    g[c := g[c].(parents := Without(g[c].parents, v))]
  }

  lemma LinksUnlinked<C>(g: Dag<C>, pend: map<int, seq<int>>, v: int)
    requires g.Keys == pend.Keys && LinksMatch(g, pend) && v in g && pend[v] != [] && pend[v][0] in g
    ensures LinksMatch(Unlink(g, v, pend[v][0]), pend[v := pend[v][1..]])
    ensures v in g[pend[v][0]].parents
  {
    var c := pend[v][0];
    LinkThere(g, pend, v, c);
    hide LinksMatch, Without, Unlink;
    var g', pend' := Unlink(g, v, c), pend[v := pend[v][1..]];
    UnlinkKeys(g, v, c);
    forall u, i | u in g' && 0 <= i < |g'[u].parents| ensures g'[u].parents[i] in g' {
      StillParent(g, pend, v, c, u, i);
    }
    forall u, p | u in g' && p in g' ensures multiset(g'[u].parents)[p] == multiset(pend'[p])[u] {
      StillMatched(g, pend, v, u, p);
    }
    LinksMatchIf(g', pend');
  }

  lemma LinksMatchIf<C>(g: Dag<C>, pend: map<int, seq<int>>)
    requires g.Keys == pend.Keys
    requires forall v, i | v in g && 0 <= i < |g[v].parents| :: g[v].parents[i] in g
    requires forall v, p | v in g && p in g :: multiset(g[v].parents)[p] == multiset(pend[p])[v]
    ensures LinksMatch(g, pend)
  {}

  lemma UnlinkKeys<C>(g: Dag<C>, v: int, c: int)
    requires c in g
    ensures Unlink(g, v, c).Keys == g.Keys
  {}

  lemma StillParent<C>(g: Dag<C>, pend: map<int, seq<int>>, v: int, c: int, u: int, i: nat)
    requires g.Keys == pend.Keys && LinksMatch(g, pend) && c in g && u in Unlink(g, v, c) && i < |Unlink(g, v, c)[u].parents|
    ensures Unlink(g, v, c)[u].parents[i] in g
  {
    WithoutCount(g[c].parents, v);
    var p := Unlink(g, v, c)[u].parents[i];
    assert p in g[u].parents;
    ParentPresent(g, pend, u, p);
  }

  lemma StillMatched<C>(g: Dag<C>, pend: map<int, seq<int>>, v: int, u: int, p: int)
    requires g.Keys == pend.Keys && LinksMatch(g, pend) && v in g && pend[v] != [] && pend[v][0] in g && u in g && p in g
    ensures u in Unlink(g, v, pend[v][0])
    ensures multiset(Unlink(g, v, pend[v][0])[u].parents)[p] == multiset(pend[v := pend[v][1..]][p])[u]
  {
    var c, rest := pend[v][0], pend[v][1..];
    assert pend[v] == [c] + rest;
    assert multiset(g[u].parents)[p] == multiset(pend[p])[u];
    assert multiset(pend[v])[u] == multiset(rest)[u] + if u == c then 1 else 0;
    LinkThere(g, pend, v, c);
    hide LinksMatch, Without;
    WithoutCount(g[c].parents, v);
  }

  lemma LinkThere<C>(g: Dag<C>, pend: map<int, seq<int>>, v: int, c: int)
    requires g.Keys == pend.Keys && LinksMatch(g, pend) && v in g && c in g && c in pend[v]
    ensures v in g[c].parents
  {
    assert multiset(pend[v])[c] > 0;
    assert multiset(g[c].parents)[v] > 0;
  }

  lemma ParentPresent<C>(g: Dag<C>, pend: map<int, seq<int>>, c: int, p: int)
    requires g.Keys == pend.Keys && LinksMatch(g, pend) && c in g && p in g[c].parents
    ensures p in g
  {}

  lemma Unlinked<C>(g0: Dag<C>, g: Dag<C>, pend: map<int, seq<int>>, started: set<int>, v: int)
    requires PruneState(g0, g, pend, started) && v in g && v in started && pend[v] != [] && pend[v][0] in g
    ensures PruneState(g0, Unlink(g, v, pend[v][0]), pend[v := pend[v][1..]], started)
    ensures g[pend[v][0]].parents != [] && pend[v][0] !in started
  {
    hide LinksMatch, Without;
    LinksUnlinked(g, pend, v);
  }

  lemma Begun<C>(g0: Dag<C>, g: Dag<C>, pend: map<int, seq<int>>, started: set<int>, v: int)
    requires PruneState(g0, g, pend, started) && v in g && g[v].parents == []
    ensures PruneState(g0, g, pend, started + {v})
  {}

  lemma Ended<C>(g0: Dag<C>, g: Dag<C>, pend: map<int, seq<int>>, started: set<int>, v: int)
    requires PruneState(g0, g, pend, started) && v in started
    ensures PruneState(g0, g[v := g[v].(toDelete := true)], pend, started)
  {}

  /** Where removeChildNode(v) stands after some of v's child entries. */
  ghost predicate Halfway<C>(g0: Dag<C>, gs: Dag<C>, ps: map<int, seq<int>>, ss: set<int>,
                             g: Dag<C>, pend: map<int, seq<int>>, started: set<int>, v: int, j: nat)
    requires PruneState(g0, gs, ps, ss) && PruneState(g0, g, pend, started) && v in g0 && j <= |g0[v].children|
  {
    && v in started && pend[v] == g0[v].children[j..]
    && (forall u | u in ss :: pend[u] == ps[u] && g[u].toDelete == gs[u].toDelete)
    && ss + {v} <= started && Finished(g, pend, started - ss - {v}) && Below(g0, ss, started, v)
    && (forall u | u in g && u !in started && g[u].parents == [] :: gs[u].parents == [])
  }

  lemma EntryThere<C>(g0: Dag<C>, v: int, j: nat)
    requires Closed(g0) && v in g0 && j < |g0[v].children|
    ensures g0[v].children[j] in g0
  {}

  lemma StepLink<C>(g0: Dag<C>, gs: Dag<C>, ps: map<int, seq<int>>, ss: set<int>,
                    g: Dag<C>, pend: map<int, seq<int>>, started: set<int>, v: int, j: nat)
    returns (g': Dag<C>, pend': map<int, seq<int>>)
    requires PruneState(g0, gs, ps, ss) && PruneState(g0, g, pend, started) && v in g0 && v !in ss && j < |g0[v].children|
    requires Closed(g0) && Halfway(g0, gs, ps, ss, g, pend, started, v, j)
    ensures var c := g0[v].children[j];
            && c in g && g' == Unlink(g, v, c) && pend' == pend[v := pend[v][1..]] && c !in started
            && PruneState(g0, g', pend', started)
            && pend'[v] == g0[v].children[j + 1..]
            && (forall u | u in ss :: pend'[u] == ps[u] && g'[u].toDelete == gs[u].toDelete)
            && Finished(g', pend', started - ss - {v}) && g0[c].parents != []
            && (forall u | u in g' && u !in started && u != c && g'[u].parents == [] :: gs[u].parents == [])
            && (g'[c].parents == [] ==> pend'[c] == g0[c].children)
  {
    hide LinksMatch, Closed, Without, Below;
    var c := g0[v].children[j];
    EntryThere(g0, v, j);
    assert pend[v] == [c] + g0[v].children[j + 1..];
    Unlinked(g0, g, pend, started, v);
    g', pend' := Unlink(g, v, c), pend[v := pend[v][1..]];
  }

  /** The recursive call's effect carried over to the caller's bookkeeping. */
  lemma StepChild<C>(g0: Dag<C>, gs: Dag<C>, ps: map<int, seq<int>>, ss: set<int>,
                     g: Dag<C>, pend: map<int, seq<int>>, started: set<int>,
                     g': Dag<C>, pend': map<int, seq<int>>, started': set<int>, v: int, j: nat, c: int)
    requires PruneState(g0, gs, ps, ss) && PruneState(g0, g, pend, started) && PruneState(g0, g', pend', started')
    requires v in g0 && v !in ss && j <= |g0[v].children| && c in started' && ss + {v} <= started
    requires v in started && pend[v] == g0[v].children[j..]
    requires forall u | u in ss :: pend[u] == ps[u] && g[u].toDelete == gs[u].toDelete
    requires Finished(g, pend, started - ss - {v}) && Below(g0, ss, started, v)
    requires c in g0 && g0[c].parents != [] && Below(g0, started, started', c)
    requires forall u | u in g && u !in started && u != c && g[u].parents == [] :: gs[u].parents == []
    requires Later(g, pend, started, g', pend', started') && Finished(g', pend', started' - started)
    ensures Halfway(g0, gs, ps, ss, g', pend', started', v, j)
  {
    forall u | u in started' - ss - {v} ensures u in g' && u in pend' && pend'[u] == [] && g'[u].toDelete {
      if u in started {
        assert u in started - ss - {v};
      } else {
        assert u in started' - started;
      }
    }
  }

  /** src/ec/ECNode.cc:120-143, on a vertex without parents. */
  method RemoveChildNode<C>(dag: ECDAG<C>, v: int, ghost g0: Dag<C>, ghost rank: map<int, nat>,
                            ghost pend0: map<int, seq<int>>, ghost started0: set<int>)
    returns (ghost pend: map<int, seq<int>>, ghost started: set<int>)
    requires Closed(g0) && Ranked(g0, rank) && PruneState(g0, dag.nodes, pend0, started0)
    requires v in g0 && v !in started0 && dag.nodes[v].parents == []
    modifies dag`nodes
    ensures PruneState(g0, dag.nodes, pend, started) && v in started
    ensures Finished(dag.nodes, pend, started - started0) && Below(g0, started0, started, v)
    ensures dag.nodes.Keys == old(dag.nodes).Keys == pend.Keys == pend0.Keys
    ensures Later(old(dag.nodes), pend0, started0, dag.nodes, pend, started)
    decreases rank[v]
  {
    hide PruneState, Finished, Halfway, Closed, Ranked;
    PruneKeys(g0, dag.nodes, pend0, started0);
    Begun(g0, dag.nodes, pend0, started0, v);
    Beginning(g0, dag.nodes, pend0, started0, v);
    pend, started := pend0, started0 + {v};
    var cs := dag.nodes[v].children;
    for j := 0 to |cs|
      invariant PruneState(g0, dag.nodes, pend, started) && cs == g0[v].children
      invariant Halfway(g0, old(dag.nodes), pend0, started0, dag.nodes, pend, started, v, j)
    {
      PruneKeys(g0, dag.nodes, pend, started);
      pend, started := RemoveLink(dag, v, j, g0, rank, old(dag.nodes), pend0, started0, pend, started);
    }
    PruneKeys(g0, dag.nodes, pend, started);
    Ending(g0, old(dag.nodes), pend0, started0, dag.nodes, pend, started, v);
    Ended(g0, dag.nodes, pend, started, v);
    dag.nodes := dag.nodes[v := dag.nodes[v].(toDelete := true)];
  }

  lemma PruneKeys<C>(g0: Dag<C>, g: Dag<C>, pend: map<int, seq<int>>, started: set<int>)
    requires PruneState(g0, g, pend, started)
    ensures g.Keys == g0.Keys == pend.Keys && started <= g.Keys
    ensures forall v | v in g :: g[v].children == g0[v].children
  {}

  lemma Beginning<C>(g0: Dag<C>, g: Dag<C>, pend: map<int, seq<int>>, started: set<int>, v: int)
    requires PruneState(g0, g, pend, started) && PruneState(g0, g, pend, started + {v}) && v in g0 && v !in started && g[v].parents == []
    ensures Halfway(g0, g, pend, started, g, pend, started + {v}, v, 0)
  {
    assert started + {v} - started - {v} == {};
  }

  lemma Ending<C>(g0: Dag<C>, gs: Dag<C>, ps: map<int, seq<int>>, ss: set<int>,
                  g: Dag<C>, pend: map<int, seq<int>>, started: set<int>, v: int)
    requires PruneState(g0, gs, ps, ss) && PruneState(g0, g, pend, started) && v in g0 && v !in ss
    requires Halfway(g0, gs, ps, ss, g, pend, started, v, |g0[v].children|)
    ensures var g' := g[v := g[v].(toDelete := true)];
            Finished(g', pend, started - ss) && Below(g0, ss, started, v) && Later(gs, ps, ss, g', pend, started) && v in started
  {
    var g' := g[v := g[v].(toDelete := true)];
    forall u | u in started - ss ensures u in g' && u in pend && pend[u] == [] && g'[u].toDelete {
      if u != v {
        assert u in started - ss - {v};
      }
    }
  }

  method RemoveLink<C>(dag: ECDAG<C>, v: int, j: nat, ghost g0: Dag<C>, ghost rank: map<int, nat>,
                       ghost gs: Dag<C>, ghost ps: map<int, seq<int>>, ghost ss: set<int>,
                       ghost pend0: map<int, seq<int>>, ghost started0: set<int>)
    returns (ghost pend: map<int, seq<int>>, ghost started: set<int>)
    requires Closed(g0) && Ranked(g0, rank) && PruneState(g0, gs, ps, ss) && PruneState(g0, dag.nodes, pend0, started0)
    requires v in g0 && v !in ss && j < |g0[v].children| && v in dag.nodes && dag.nodes[v].children == g0[v].children
    requires Halfway(g0, gs, ps, ss, dag.nodes, pend0, started0, v, j)
    modifies dag`nodes
    ensures PruneState(g0, dag.nodes, pend, started)
    ensures Halfway(g0, gs, ps, ss, dag.nodes, pend, started, v, j + 1)
    decreases rank[v], 0
  {
    hide PruneState, Finished, Closed;
    var c := dag.nodes[v].children[j];
    EntryThere(g0, v, j);
    ghost var g1, p1 := StepLink(g0, gs, ps, ss, dag.nodes, pend0, started0, v, j);
    dag.nodes := dag.nodes[c := dag.nodes[c].(parents := Without(dag.nodes[c].parents, v))];
    pend, started := p1, started0;
    if |dag.nodes[c].parents| == 0 {
      pend, started := RemoveChildNode(dag, c, g0, rank, pend, started);
      StepChild(g0, gs, ps, ss, g1, p1, started0, dag.nodes, pend, started, v, j + 1, c);
    }
  }

  // ---------------------------------------------------------------------------------------------
  // DeleteUseless

  /** src/ec/ECDAG.cc:2296-2312 */
  method DeleteUseless<C>(dag: ECDAG<C>)
    requires Distinct(dag.leaves) && forall v :: v in dag.leaves <==> v in dag.nodes && dag.nodes[v].kind.Leaf?
    modifies dag`nodes, dag`leaves
    ensures dag.nodes == map v | v in old(dag.nodes) && !old(dag.nodes)[v].toDelete :: old(dag.nodes)[v]
    ensures Distinct(dag.leaves) && forall v :: v in dag.leaves <==> v in dag.nodes && dag.nodes[v].kind.Leaf?
  {
    var todo := dag.nodes.Keys;
    ghost var g := dag.nodes;
    while todo != {}
      invariant todo <= g.Keys
      invariant dag.nodes == map v | v in g && (v in todo || !g[v].toDelete) :: g[v]
      invariant Distinct(dag.leaves) && forall v :: v in dag.leaves <==> v in dag.nodes && dag.nodes[v].kind.Leaf?
      decreases |todo|
    {
      var v := Choose(todo);
      if dag.nodes[v].toDelete {
        if dag.nodes[v].kind.Leaf? {
          WithoutDistinct(dag.leaves, v);
          dag.leaves := Without(dag.leaves, v);
        }
        dag.nodes := dag.nodes - {v};
      }
      todo := todo - {v};
    }
  }

  // ---------------------------------------------------------------------------------------------
  // The loop over the headers

  /** The headers before position i, except keep, have been removed. */
  ghost predicate HeadersGone<C>(g0: Dag<C>, hs: seq<int>, keep: int, i: nat, headers: seq<int>, started: set<int>)
    requires i <= |hs|
  {
    && Distinct(headers) && (forall v :: v in headers <==> v in hs && (v == keep || v !in hs[..i]))
    && (forall k | 0 <= k < i && hs[k] != keep :: hs[k] in started)
    && (forall u | u in started :: u in g0 && (g0[u].parents == [] ==> u in hs[..i] && u != keep))
  }

  ghost predicate OnlyOrphansLeft<C>(g0: Dag<C>, g: Dag<C>, started: set<int>)
    requires g.Keys == g0.Keys
  {
    forall u | u in g && u !in started && g[u].parents == [] :: g0[u].parents == []
  }

  lemma NextGone<C>(g0: Dag<C>, hs: seq<int>, keep: int, i: nat, headers: seq<int>, started0: set<int>, started: set<int>)
    requires i < |hs| && Distinct(hs) && HeadersGone(g0, hs, keep, i, headers, started0) && hs[i] != keep
    requires started0 <= started && hs[i] in started && hs[i] in g0 && Below(g0, started0, started, hs[i])
    ensures HeadersGone(g0, hs, keep, i + 1, Without(headers, hs[i]), started)
  {
    WithoutDistinct(headers, hs[i]);
    assert hs[..i + 1] == hs[..i] + [hs[i]];
  }

  lemma NextKept<C>(g0: Dag<C>, hs: seq<int>, keep: int, i: nat, headers: seq<int>, started: set<int>)
    requires i < |hs| && HeadersGone(g0, hs, keep, i, headers, started) && hs[i] == keep
    ensures HeadersGone(g0, hs, keep, i + 1, headers, started)
  {
    assert hs[..i + 1] == hs[..i] + [hs[i]];
  }

  lemma FinishedMore<C>(g: Dag<C>, pend: map<int, seq<int>>, started: set<int>, g': Dag<C>, pend': map<int, seq<int>>, started': set<int>)
    requires g.Keys == g'.Keys == pend.Keys == pend'.Keys && Finished(g, pend, started) && Later(g, pend, started, g', pend', started')
    requires Finished(g', pend', started' - started)
    ensures Finished(g', pend', started')
  {}

  lemma NotYetStarted<C>(g0: Dag<C>, g: Dag<C>, pend: map<int, seq<int>>, hs: seq<int>, keep: int, i: nat, headers: seq<int>, started: set<int>)
    requires i < |hs| && Distinct(hs) && HeadersGone(g0, hs, keep, i, headers, started) && PruneState(g0, g, pend, started)
    requires hs[i] in g0 && g0[hs[i]].parents == []
    ensures hs[i] !in started && g[hs[i]].parents == []
  {
    var v := hs[i];
    assert v !in hs[..i] by { NotInPrefix(hs, i); }
  }

  lemma NotInPrefix(hs: seq<int>, i: nat)
    requires Distinct(hs) && i < |hs|
    ensures hs[i] !in hs[..i]
  {}

  lemma HeadersAreOrphans<C>(dag: ECDAG<C>)
    requires dag.Valid()
    ensures Distinct(dag.headers) && Closed(dag.nodes) && Ranked(dag.nodes, dag.rank)
    ensures forall i | 0 <= i < |dag.headers| :: dag.headers[i] in dag.nodes && dag.nodes[dag.headers[i]].parents == []
  {
    forall i | 0 <= i < |dag.headers| ensures dag.headers[i] in dag.nodes && dag.nodes[dag.headers[i]].parents == [] {
      var v := dag.headers[i];
      assert v in dag.headers;
    }
  }

  lemma NothingStarted<C>(dag: ECDAG<C>, pend: map<int, seq<int>>, keep: int)
    requires dag.Valid() && pend == map v | v in dag.nodes :: dag.nodes[v].children
    ensures PruneState(dag.nodes, dag.nodes, pend, {}) && Finished(dag.nodes, pend, {})
    ensures OnlyOrphansLeft(dag.nodes, dag.nodes, {}) && HeadersGone(dag.nodes, dag.headers, keep, 0, dag.headers, {})
  {}

  ghost predicate LoopState<C>(g0: Dag<C>, hs: seq<int>, keep: int, i: nat, headers: seq<int>,
                               g: Dag<C>, pend: map<int, seq<int>>, started: set<int>)
  {
    && i <= |hs| && PruneState(g0, g, pend, started) && Finished(g, pend, started)
    && OnlyOrphansLeft(g0, g, started) && HeadersGone(g0, hs, keep, i, headers, started)
  }

  lemma LoopStarts<C>(g0: Dag<C>, hs: seq<int>, keep: int, headers: seq<int>, g: Dag<C>, pend: map<int, seq<int>>, started: set<int>)
    requires PruneState(g0, g, pend, started) && Finished(g, pend, started)
    requires OnlyOrphansLeft(g0, g, started) && HeadersGone(g0, hs, keep, 0, headers, started)
    ensures LoopState(g0, hs, keep, 0, headers, g, pend, started)
  {}

  method PruneHeader<C>(dag: ECDAG<C>, i: nat, hs: seq<int>, keep: int, ghost g0: Dag<C>, ghost rank: map<int, nat>,
                        ghost pend0: map<int, seq<int>>, ghost started0: set<int>)
    returns (ghost pend: map<int, seq<int>>, ghost started: set<int>)
    requires Closed(g0) && Ranked(g0, rank) && Distinct(hs) && i < |hs| && hs[i] in g0 && g0[hs[i]].parents == []
    requires LoopState(g0, hs, keep, i, dag.headers, dag.nodes, pend0, started0)
    modifies dag`nodes, dag`headers
    ensures LoopState(g0, hs, keep, i + 1, dag.headers, dag.nodes, pend, started)
  {
    hide PruneState, Finished, OnlyOrphansLeft, HeadersGone, Closed, Ranked, Below, Distinct;
    pend, started := pend0, started0;
    var req := hs[i];
    if req == keep {
      NextKept(g0, hs, keep, i, dag.headers, started);
    } else {
      NotYetStarted(g0, dag.nodes, pend, hs, keep, i, dag.headers, started);
      ghost var before := dag.nodes;
      pend, started := RemoveChildNode(dag, req, g0, rank, pend, started);
      PruneKeys(g0, dag.nodes, pend, started);
      FinishedMore(before, pend0, started0, dag.nodes, pend, started);
      OrphansMore(g0, before, pend0, started0, dag.nodes, pend, started);
      NextGone(g0, hs, keep, i, dag.headers, started0, started);
      dag.headers := Without(dag.headers, req);
    }
  }

  lemma OrphansMore<C>(g0: Dag<C>, g: Dag<C>, pend: map<int, seq<int>>, started: set<int>, g': Dag<C>, pend': map<int, seq<int>>, started': set<int>)
    requires g.Keys == g'.Keys == pend.Keys == pend'.Keys == g0.Keys
    requires OnlyOrphansLeft(g0, g, started) && Later(g, pend, started, g', pend', started')
    ensures OnlyOrphansLeft(g0, g', started')
  {}

  /** Vertices that keep reaches, if keep is a header at all. */
  ghost predicate Survives<C>(g: Dag<C>, rank: map<int, nat>, headers: seq<int>, keep: int, v: int)
    requires Closed(g) && Ranked(g, rank)
  {
    keep in headers && keep in g && Reaches(g, rank, keep, v)
  }

  ghost function Restrict<K, V>(m: map<K, V>, ks: set<K>): map<K, V> {
    map k | k in m && k in ks :: m[k]
  }

  lemma PartsValid<C>(dag: ECDAG<C>)
    requires Shape(dag.nodes, dag.rank, dag.clock) && ListsFit(dag.nodes, dag.headers, dag.leaves, {})
    ensures dag.Valid()
  {}

  lemma ValidParts<C>(dag: ECDAG<C>)
    requires dag.Valid()
    ensures Shape(dag.nodes, dag.rank, dag.clock) && ListsFit(dag.nodes, dag.headers, dag.leaves, {})
  {}

  lemma HeaderAt<C>(g0: Dag<C>, hs: seq<int>, ls: seq<int>, i: nat)
    requires ListsFit(g0, hs, ls, {}) && i < |hs|
    ensures Distinct(hs) && hs[i] in g0 && g0[hs[i]].parents == []
  {
    var v := hs[i];
    assert v in hs;
  }

  lemma LeavesStill<C>(g0: Dag<C>, hs: seq<int>, keep: int, headers: seq<int>, g: Dag<C>, pend: map<int, seq<int>>, started: set<int>, ls: seq<int>)
    requires LoopState(g0, hs, keep, |hs|, headers, g, pend, started) && ListsFit(g0, hs, ls, {})
    ensures Distinct(ls) && forall v :: v in ls <==> v in g && g[v].kind.Leaf?
  {}

  /** Once every header but keep was removed: a vertex is left exactly when it was not taken up. */
  ghost predicate Over<C>(g0: Dag<C>, hs: seq<int>, keep: int, g1: Dag<C>, pend: map<int, seq<int>>, started: set<int>, g2: Dag<C>) {
    && PruneState(g0, g1, pend, started) && Finished(g1, pend, started) && OnlyOrphansLeft(g0, g1, started)
    && (forall v | v in g0 && g0[v].parents == [] :: v in hs)
    && (forall v | v in hs :: v in g0 && g0[v].parents == [])
    && (forall v | v in hs :: v in started <==> v != keep)
    && g2.Keys == g1.Keys - started
    && (forall v | v in g2 :: g2[v] == g1[v])
  }

  lemma LoopOver<C>(g0: Dag<C>, hs: seq<int>, ls: seq<int>, keep: int, headers: seq<int>, g1: Dag<C>, pend: map<int, seq<int>>, started: set<int>, g2: Dag<C>)
    requires LoopState(g0, hs, keep, |hs|, headers, g1, pend, started) && ListsFit(g0, hs, ls, {})
    requires g2 == map v | v in g1 && !g1[v].toDelete :: g1[v]
    ensures Over(g0, hs, keep, g1, pend, started, g2)
    ensures headers == if keep in hs then [keep] else []
  {
    assert hs[..|hs|] == hs;
    assert g2.Keys == set v | v in g1.Keys && !g1[v].toDelete;
    forall v ensures v in g2.Keys <==> v in g1.Keys - started {
      assert v in g1 && v !in started ==> !g1[v].toDelete;
      assert v in started ==> v in g1 && g1[v].toDelete;
    }
    SameMembers(g2.Keys, g1.Keys - started);
    OneHeader(headers, hs, keep);
    forall v | v in hs ensures v in started <==> v != keep {
      var k := IndexIn(hs, v);
    }
  }

  lemma SameMembers<T>(a: set<T>, b: set<T>)
    requires forall x :: x in a <==> x in b
    ensures a == b
  {}

  lemma OneHeader(headers: seq<int>, hs: seq<int>, keep: int)
    requires Distinct(headers) && forall v :: v in headers <==> v in hs && (v == keep || v !in hs)
    ensures headers == if keep in hs then [keep] else []
  {
    forall i | 0 <= i < |headers| ensures headers[i] == keep && keep in hs {
      var v := headers[i];
      assert v in headers;
    }
    if headers != [] {
      OnlyOne(headers, keep);
    } else {
      assert keep !in headers;
    }
  }

  lemma ChildSurvives<C>(g0: Dag<C>, hs: seq<int>, keep: int, g1: Dag<C>, pend: map<int, seq<int>>, started: set<int>, g2: Dag<C>, v: int, i: nat)
    requires Closed(g0) && Over(g0, hs, keep, g1, pend, started, g2) && v in g2 && i < |g0[v].children|
    ensures g0[v].children[i] in g2
  {
    var c := g0[v].children[i];
    assert pend[v] == g0[v].children && c in pend[v];
    assert c in g0;
    LinkThere(g1, pend, v, c);
  }

  lemma ParentSurvives<C>(g0: Dag<C>, hs: seq<int>, keep: int, g1: Dag<C>, pend: map<int, seq<int>>, started: set<int>, g2: Dag<C>, v: int, p: int)
    requires Over(g0, hs, keep, g1, pend, started, g2) && v in g2 && p in g1[v].parents
    ensures p in g2 && v in g0[p].children
  {
    ParentPresent(g1, pend, v, p);
    assert multiset(g1[v].parents)[p] > 0;
    assert multiset(pend[p])[v] > 0;
  }

  lemma MirroredOver<C>(g0: Dag<C>, hs: seq<int>, keep: int, g1: Dag<C>, pend: map<int, seq<int>>, started: set<int>, g2: Dag<C>)
    requires Closed(g0) && Over(g0, hs, keep, g1, pend, started, g2)
    ensures Mirrored(g2)
  {
    hide Over;
    OverSame(g0, hs, keep, g1, pend, started, g2);
    forall v, i | v in g2 && 0 <= i < |g2[v].children| ensures g2[v].children[i] in g2 {
      ChildSurvives(g0, hs, keep, g1, pend, started, g2, v, i);
    }
    forall v, i | v in g2 && 0 <= i < |g2[v].parents| ensures g2[v].parents[i] in g2 {
      var p := g2[v].parents[i];
      assert p in g1[v].parents;
      ParentSurvives(g0, hs, keep, g1, pend, started, g2, v, p);
    }
    forall v, p | v in g2 && p in g2 ensures multiset(g2[v].parents)[p] == multiset(g2[p].children)[v] {
      LinksOver(g0, hs, keep, g1, pend, started, g2, v, p);
    }
  }

  lemma OverSame<C>(g0: Dag<C>, hs: seq<int>, keep: int, g1: Dag<C>, pend: map<int, seq<int>>, started: set<int>, g2: Dag<C>)
    requires Over(g0, hs, keep, g1, pend, started, g2)
    ensures g2.Keys <= g0.Keys
    ensures forall v | v in g2 :: v in g0 && v in g1 && g2[v] == g1[v] == g0[v].(parents := g1[v].parents, toDelete := false)
  {}

  lemma LinksOver<C>(g0: Dag<C>, hs: seq<int>, keep: int, g1: Dag<C>, pend: map<int, seq<int>>, started: set<int>, g2: Dag<C>, v: int, p: int)
    requires Over(g0, hs, keep, g1, pend, started, g2) && v in g2 && p in g2
    ensures multiset(g1[v].parents)[p] == multiset(g0[p].children)[v]
  {}

  /** Every vertex that is left, except keep, still has a parent. */
  lemma ParentLeft<C>(g0: Dag<C>, hs: seq<int>, keep: int, g1: Dag<C>, pend: map<int, seq<int>>, started: set<int>, g2: Dag<C>, v: int)
    requires Over(g0, hs, keep, g1, pend, started, g2) && v in g2
    ensures g2[v].parents == [] <==> v == keep && keep in hs
  {}

  lemma {:induction false} LeftIsReached<C>(g0: Dag<C>, rank: map<int, nat>, clock: nat, hs: seq<int>, keep: int, g1: Dag<C>, pend: map<int, seq<int>>,
                         started: set<int>, g2: Dag<C>, v: int)
    requires Closed(g0) && Ranked(g0, rank) && Over(g0, hs, keep, g1, pend, started, g2) && v in g2 && v in g0
    requires forall u | u in rank :: rank[u] < clock
    ensures Survives(g0, rank, hs, keep, v)
    decreases clock - rank[v]
  {
    hide Over;
    ParentLeft(g0, hs, keep, g1, pend, started, g2, v);
    OverSame(g0, hs, keep, g1, pend, started, g2);
    if g2[v].parents != [] {
      var p := g2[v].parents[0];
      assert p in g1[v].parents;
      ParentSurvives(g0, hs, keep, g1, pend, started, g2, v, p);
      var i := IndexIn(g0[p].children, v);
      LeftIsReached(g0, rank, clock, hs, keep, g1, pend, started, g2, p);
      ReachesFurther(g0, rank, keep, p, i);
    }
  }

  lemma {:induction false} ReachedIsLeft<C>(g0: Dag<C>, rank: map<int, nat>, hs: seq<int>, keep: int, g1: Dag<C>, pend: map<int, seq<int>>,
                         started: set<int>, g2: Dag<C>, k: int, v: int)
    requires Closed(g0) && Ranked(g0, rank) && Over(g0, hs, keep, g1, pend, started, g2)
    requires k in g2 && k in g0 && Reaches(g0, rank, k, v)
    ensures v in g2
    decreases rank[k]
  {
    hide Over;
    if v != k {
      var i :| 0 <= i < |g0[k].children| && Reaches(g0, rank, g0[k].children[i], v);
      ChildSurvives(g0, hs, keep, g1, pend, started, g2, k, i);
      ReachedIsLeft(g0, rank, hs, keep, g1, pend, started, g2, g0[k].children[i], v);
    }
  }

  lemma KeptIsLeft<C>(g0: Dag<C>, hs: seq<int>, keep: int, g1: Dag<C>, pend: map<int, seq<int>>, started: set<int>, g2: Dag<C>)
    requires Over(g0, hs, keep, g1, pend, started, g2) && keep in hs
    ensures keep in g2 && keep in g0
  {}

  lemma ShapeOver<C>(g0: Dag<C>, rank: map<int, nat>, clock: nat, hs: seq<int>, keep: int, g1: Dag<C>, pend: map<int, seq<int>>,
                     started: set<int>, g2: Dag<C>)
    requires Shape(g0, rank, clock) && Over(g0, hs, keep, g1, pend, started, g2)
    ensures Shape(g2, Restrict(rank, g2.Keys), clock)
  {
    hide Over, Mirrored;
    ShapeClosed(g0, rank, clock);
    MirroredOver(g0, hs, keep, g1, pend, started, g2);
    OverSame(g0, hs, keep, g1, pend, started, g2);
    var rank' := Restrict(rank, g2.Keys);
    assert g2.Keys <= rank.Keys;
    assert rank'.Keys == g2.Keys;
    forall v, i | v in g2 && 0 <= i < |g2[v].children| ensures g2[v].children[i] in rank' && rank'[g2[v].children[i]] < rank'[v] {
      ChildSurvives(g0, hs, keep, g1, pend, started, g2, v, i);
    }
  }

  lemma ListsOver<C>(g0: Dag<C>, hs: seq<int>, ls: seq<int>, keep: int, g1: Dag<C>, pend: map<int, seq<int>>,
                     started: set<int>, g2: Dag<C>, headers: seq<int>, leaves: seq<int>)
    requires ListsFit(g0, hs, ls, {}) && Over(g0, hs, keep, g1, pend, started, g2)
    requires headers == (if keep in hs then [keep] else [])
    requires Distinct(leaves) && forall v :: v in leaves <==> v in g2 && g2[v].kind.Leaf?
    ensures ListsFit(g2, headers, leaves, {})
  {
    hide Over;
    OverSame(g0, hs, keep, g1, pend, started, g2);
    if keep in hs { KeptIsLeft(g0, hs, keep, g1, pend, started, g2); }
    forall v | v in g2 ensures g2[v].parents == [] <==> v == keep && keep in hs {
      ParentLeft(g0, hs, keep, g1, pend, started, g2, v);
    }
    forall v | v in g2 && g2[v].parents != [] ensures g0[v].parents != [] {
      StillParents(g0, hs, keep, g1, pend, started, g2, v);
    }
  }

  lemma StillParents<C>(g0: Dag<C>, hs: seq<int>, keep: int, g1: Dag<C>, pend: map<int, seq<int>>, started: set<int>, g2: Dag<C>, v: int)
    requires Over(g0, hs, keep, g1, pend, started, g2) && v in g2 && g2[v].parents != []
    ensures v in g0 && g0[v].parents != []
  {}

  lemma AllGone<C>(g0: Dag<C>, rank: map<int, nat>, clock: nat, hs: seq<int>, ls: seq<int>, keep: int, headers: seq<int>,
                   g1: Dag<C>, pend: map<int, seq<int>>, started: set<int>, g2: Dag<C>, leaves: seq<int>)
    requires Closed(g0) && Ranked(g0, rank) && Shape(g0, rank, clock) && ListsFit(g0, hs, ls, {})
    requires LoopState(g0, hs, keep, |hs|, headers, g1, pend, started)
    requires g2 == map v | v in g1 && !g1[v].toDelete :: g1[v]
    requires Distinct(leaves) && forall v :: v in leaves <==> v in g2 && g2[v].kind.Leaf?
    ensures Shape(g2, Restrict(rank, g2.Keys), clock) && ListsFit(g2, headers, leaves, {})
    ensures headers == if keep in hs then [keep] else []
    ensures forall v | v in g0 :: v in g2 <==> Survives(g0, rank, hs, keep, v)
    ensures forall v | v in g2 :: v in g0 && g2[v].children == g0[v].children && g2[v].coefs == g0[v].coefs && g2[v].kind == g0[v].kind
  {
    hide Over, ListsFit, LoopState, Closed, Mirrored, Reaches;
    LoopOver(g0, hs, ls, keep, headers, g1, pend, started, g2);
    ShapeOver(g0, rank, clock, hs, keep, g1, pend, started, g2);
    ListsOver(g0, hs, ls, keep, g1, pend, started, g2, headers, leaves);
    OverSame(g0, hs, keep, g1, pend, started, g2);
    forall v | v in g0 ensures v in g2 <==> Survives(g0, rank, hs, keep, v) {
      if v in g2 {
        LeftIsReached(g0, rank, clock, hs, keep, g1, pend, started, g2, v);
      }
      if Survives(g0, rank, hs, keep, v) {
        KeptIsLeft(g0, hs, keep, g1, pend, started, g2);
        ReachedIsLeft(g0, rank, hs, keep, g1, pend, started, g2, keep, v);
      }
    }
  }

  /** src/common/Stripe.cc:1425-1439: exactly what the kept header is made of survives, unchanged. */
  method Prune<C>(dag: ECDAG<C>, keep: int)
    requires dag.Valid()
    modifies dag
    ensures dag.Valid()
    ensures Closed(old(dag.nodes)) && Ranked(old(dag.nodes), old(dag.rank))
    ensures forall v | v in old(dag.nodes) ::
              v in dag.nodes <==> Survives(old(dag.nodes), old(dag.rank), old(dag.headers), keep, v)
    ensures forall v | v in dag.nodes :: v in old(dag.nodes) && dag.nodes[v].children == old(dag.nodes)[v].children
              && dag.nodes[v].coefs == old(dag.nodes)[v].coefs && dag.nodes[v].kind == old(dag.nodes)[v].kind
    ensures dag.headers == if keep in old(dag.headers) then [keep] else []
  {
    hide *;
    HeadersAreOrphans(dag);
    var headers_ec := dag.headers;
    ghost var g0, rank, clock, ls := dag.nodes, dag.rank, dag.clock, dag.leaves;
    ghost var pend: map<int, seq<int>>, started: set<int> := (map v | v in dag.nodes :: dag.nodes[v].children), {};
    NothingStarted(dag, pend, keep);
    ValidParts(dag);
    LoopStarts(g0, headers_ec, keep, dag.headers, dag.nodes, pend, started);
    for i := 0 to |headers_ec|
      invariant LoopState(g0, headers_ec, keep, i, dag.headers, dag.nodes, pend, started)
      invariant dag.rank == rank && dag.clock == clock && dag.leaves == ls
    {
      HeaderAt(g0, headers_ec, ls, i);
      pend, started := PruneHeader(dag, i, headers_ec, keep, g0, rank, pend, started);
    }
    LeavesStill(g0, headers_ec, keep, dag.headers, dag.nodes, pend, started, ls);
    ghost var g1 := dag.nodes;
    DeleteUseless(dag);
    AllGone(g0, rank, clock, headers_ec, ls, keep, dag.headers, g1, pend, started, dag.nodes, dag.leaves);
    dag.rank := Restrict(rank, dag.nodes.Keys);
    PartsValid(dag);
  }

  // ---------------------------------------------------------------------------------------------
  // Values

  /** val assigns every vertex with children what combine makes of its children. */
  ghost predicate Solved<C, P>(g: Dag<C>, combine: (seq<C>, seq<P>) -> P, val: int -> P) {
    forall v | v in g && !g[v].kind.Leaf? :: val(v) == combine(g[v].coefs, Under(g, val, v))
  }

  ghost function Under<C, P>(g: Dag<C>, val: int -> P, v: int): seq<P>
    requires v in g
  {
    seq(|g[v].children|, i requires 0 <= i < |g[v].children| => val(g[v].children[i]))
  }

  /** The values of a DAG follow from those of its leaves. */
  lemma {:induction false} ValuesUnique<C, P>(g: Dag<C>, rank: map<int, nat>, combine: (seq<C>, seq<P>) -> P,
                                              a: int -> P, b: int -> P, v: int)
    requires Closed(g) && Ranked(g, rank) && Solved(g, combine, a) && Solved(g, combine, b) && v in g
    requires forall u | u in g && g[u].kind.Leaf? :: a(u) == b(u)
    ensures a(v) == b(v)
    decreases rank[v]
  {
    if !g[v].kind.Leaf? {
      forall i | 0 <= i < |g[v].children| ensures a(g[v].children[i]) == b(g[v].children[i]) {
        ValuesUnique(g, rank, combine, a, b, g[v].children[i]);
      }
      assert Under(g, a, v) == Under(g, b, v);
    }
  }

  /** Pruning does not change what a surviving vertex evaluates to: solving the pruned DAG from the same
      leaves gives the values of the whole one. */
  lemma SurvivorsKeepValues<C, P>(g: Dag<C>, pruned: Dag<C>, rank: map<int, nat>, combine: (seq<C>, seq<P>) -> P,
                                  whole: int -> P, part: int -> P, v: int)
    requires Closed(g) && Ranked(g, rank) && Closed(pruned) && Solved(g, combine, whole) && Solved(pruned, combine, part)
    requires forall u | u in pruned :: u in g && pruned[u].children == g[u].children && pruned[u].coefs == g[u].coefs
               && pruned[u].kind == g[u].kind
    requires (forall u | u in pruned && pruned[u].kind.Leaf? :: part(u) == whole(u)) && v in pruned
    ensures part(v) == whole(v)
  {
    forall u | u in pruned ensures Under(pruned, whole, u) == Under(g, whole, u) {}
    assert Ranked(pruned, rank);
    ValuesUnique(pruned, rank, combine, whole, part, v);
  }

  /** Computing a vertex from the leaves. */
  ghost function Evaluate<C, P>(g: Dag<C>, rank: map<int, nat>, combine: (seq<C>, seq<P>) -> P, leaf: int -> P, v: int): P
    requires Closed(g) && Ranked(g, rank) && v in g
    decreases rank[v]
  {
    if g[v].kind.Leaf? then leaf(v)
    else combine(g[v].coefs, seq(|g[v].children|, i requires 0 <= i < |g[v].children| => Evaluate(g, rank, combine, leaf, g[v].children[i])))
  }

  ghost function Values<C, P>(g: Dag<C>, rank: map<int, nat>, combine: (seq<C>, seq<P>) -> P, leaf: int -> P): int -> P
    requires Closed(g) && Ranked(g, rank)
  {
    v => if v in g then Evaluate(g, rank, combine, leaf, v) else leaf(v)
  }

  /** Any leaves extend to a solution. */
  lemma ValuesSolve<C, P>(g: Dag<C>, rank: map<int, nat>, combine: (seq<C>, seq<P>) -> P, leaf: int -> P)
    requires Closed(g) && Ranked(g, rank)
    ensures Solved(g, combine, Values(g, rank, combine, leaf))
    ensures forall v | v !in g || g[v].kind.Leaf? :: Values(g, rank, combine, leaf)(v) == leaf(v)
  {
    var val := Values(g, rank, combine, leaf);
    forall v | v in g && !g[v].kind.Leaf? ensures val(v) == combine(g[v].coefs, Under(g, val, v)) {
      assert Under(g, val, v)
        == seq(|g[v].children|, i requires 0 <= i < |g[v].children| => Evaluate(g, rank, combine, leaf, g[v].children[i]));
    }
  }
}
