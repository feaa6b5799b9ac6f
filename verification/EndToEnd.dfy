/** From an encoded stripe to the block on disk: a code's repair DAG, compiled and run on the agents in any
    interleaving, writes exactly the block that was lost. */
module EndToEnd {
  import opened Compile
  import opened Computing
  import opened Dags
  import opened Galois
  import opened Network
  import opened Plumb
  import opened Programs
  import opened Repair
  import opened Tiers
  import E = Ecdags
  import P = Pruning
  import S = Sorting

  /** Packets are field elements, combined linearly. */
  ghost predicate FieldPackets<F(!new)>(f: GF<F>, pk: Packets<F, F>) {
    pk.zero == f.zero && forall coefs, xs :: pk.lin(coefs, xs) == Dot(f, coefs, xs)
  }

  /** Where the plan reads, the stripes' sub-packets are stored; shortened ones are zero. */
  ghost predicate Stores<F(!new)>(p: Plan<F>, f: GF<F>, net: Cluster<F, Thread, F>, stripes: nat -> (int -> F))
    requires WellFormed(p)
  {
    forall v, r: nat | v in p.g && p.g[v].children == [] ::
      stripes(r)(v) == if IsStored(p, v) then net.data(BlockFile(p, v), PlaceIn(net.width, r, v)) else f.zero
  }

  ghost function ValuesOf<F>(stripes: nat -> (int -> F)): (int, nat) -> F {
    (v: int, r: nat) => stripes(r)(v)
  }

  /** The sub-packets vs of every packet in turn. */
  ghost function Original<F>(stripes: nat -> (int -> F), vs: seq<int>, packets: nat): seq<F> {
    if packets == 0 then [] else Original(stripes, vs, packets - 1) + SubPackets(stripes(packets - 1), vs)
  }

  ghost function SubPackets<F>(stripe: int -> F, vs: seq<int>): (r: seq<F>)
    ensures |r| == |vs| && forall i | 0 <= i < |vs| :: r[i] == stripe(vs[i])
  {
    seq(|vs|, i requires 0 <= i < |vs| => stripe(vs[i]))
  }

  lemma {:induction false} BlockIsOriginal<F>(p: Plan<F>, stripes: nat -> (int -> F), packets: nat)
    requires p.header in p.g
    ensures RepairedBlock(p, ValuesOf(stripes), packets) == Original(stripes, p.g[p.header].children, packets)
  {
    if packets > 0 {
      BlockIsOriginal(p, stripes, packets - 1);
      var vs := p.g[p.header].children;
      assert Network.Row(ValuesOf(stripes), vs, packets - 1) == SubPackets(stripes(packets - 1), vs);
    }
  }

  lemma {:induction false} DotZero<F(!new)>(f: GF<F>, a: seq<F>, n: nat)
    requires Field(f)
    ensures Dot(f, a, seq(n, _ => f.zero)) == f.zero
    decreases |a| + n
  {
    hide Field;
    var z := seq(n, _ => f.zero);
    if a != [] && n > 0 {
      if |a| > n {
        DotZero(f, a[..n], n);
      } else if |a| < n {
        assert z[..|a|] == seq(|a|, _ => f.zero);
        DotZero(f, a, |a|);
      } else {
        assert z[..n - 1] == seq(n - 1, _ => f.zero);
        DotZero(f, a[..n - 1], n - 1);
        ProductLaws(f, a[n - 1], f.zero, f.zero);
        SumLaws(f, f.zero, f.zero, f.zero);
      }
    }
  }

  lemma PlanIsLinear<F(!new)>(f: GF<F>, p: Plan<F>, pk: Packets<F, F>)
    requires Field(f) && FieldPackets(f, pk)
    ensures Linear(p, pk)
  {
    hide Field, Dot;
    forall v | v in p.g ensures pk.lin(p.g[v].coefs, Repair.Zeroes(pk, |p.g[v].children|)) == pk.zero {
      var n := |p.g[v].children|;
      assert Repair.Zeroes(pk, n) == seq(n, _ => f.zero);
      DotZero(f, p.g[v].coefs, n);
    }
  }

  /** Stripes that solve the code's DAG solve the plan. */
  lemma StripesSolve<F(!new)>(f: GF<F>, p: Plan<F>, decoded: Dag<F>, to: seq<int>, limit: int, net: Cluster<F, Thread, F>,
                              stripes: nat -> (int -> F))
    requires PlanOf(p, decoded, to) && Suits(decoded, to, limit) && FieldPackets(f, net.pk) && Stores(p, f, net, stripes)
    requires forall r :: Computes(f, decoded, stripes(r))
    ensures Solves(p, net, ValuesOf(stripes))
  {
    hide WellFormed, Dot, Unread, Used;
    var val := ValuesOf(stripes);
    forall v, r: nat | v in p.g && v != p.header && p.g[v].children != []
      ensures val(v, r) == net.pk.lin(p.g[v].coefs, Network.Row(val, p.g[v].children, r))
    {
      assert Computes(f, decoded, stripes(r));
      assert !decoded[v].kind.Leaf?;
      assert Network.Row(val, p.g[v].children, r) == P.Under(decoded, stripes(r), v);
    }
  }

  /** The cluster runs the compiled plan for the sub-packets to of the code's DAG, under any colouring. */
  ghost predicate Deployed<F(!new)>(f: GF<F>, p: Plan<F>, decoded: Dag<F>, to: seq<int>, tasks: TaskMap<F>, net: Cluster<F, Thread, F>) {
    && PlanOf(p, decoded, to) && Sane(p) && Compiled(p, tasks) && Runs(net, p, tasks) && FieldPackets(f, net.pk)
  }

  lemma DeployedPlan<F(!new)>(f: GF<F>, p: Plan<F>, decoded: Dag<F>, to: seq<int>, limit: int, tasks: TaskMap<F>, net: Cluster<F, Thread, F>)
    requires Deployed(f, p, decoded, to, tasks, net) && Suits(decoded, to, limit)
    ensures Deployable(p) && p.header in p.g && p.g[p.header].children == to
  {
    hide WellFormed, ZeroesClosed, Compiled, Runs, FieldPackets, OneLevelPerColor, Used, Unread, Tiered;
    var tier :| Tiered(decoded, tier);
    TieredPlan(p, decoded, to, tier);
  }

  /** Some way of scheduling the threads from here on brings the run to its end. */
  ghost predicate CanComplete<F>(net: Cluster<F, Thread, F>, sched: seq<Thread>) {
    exists sched': seq<Thread> :: sched <= sched' && Completes(net, sched')
  }

  /** The file that the plan's persist task writes. */
  ghost function HeaderFile<F>(p: Plan<F>): File
    requires WellFormed(p)
  {
    RepairFile(p.col[p.header], p.repaired)
  }

  /** Whatever has been scheduled so far, the run can be brought to its end, and at its end, after TotalWork steps,
      the header's node has the sub-packets of the stripes in its file, and nothing else was written. */
  lemma RunWritesStripes<F(!new)>(f: GF<F>, p: Plan<F>, decoded: Dag<F>, to: seq<int>, limit: int, tasks: TaskMap<F>, net: Cluster<F, Thread, F>,
                                  stripes: nat -> (int -> F), sched: seq<Thread>, s: State<Thread, F>)
    requires Field(f) && Deployed(f, p, decoded, to, tasks, net) && Suits(decoded, to, limit)
    requires Stores(p, f, net, stripes) && forall r :: Computes(f, decoded, stripes(r))
    requires Exec(net, sched) == Some(s)
    ensures CanComplete(net, sched) && Network.Fits(net, s) && (Finished(net, s) <==> |sched| == TotalWork(net))
    ensures Finished(net, s) ==> DiskIs(s.disk, HeaderFile(p), Original(stripes, to, net.pktnum))
  {
    hide Field, Compiled, Runs, FieldPackets, Stores, Computes, Finished, Solves, Linear, OneLevelPerColor, ZeroesClosed, Suits, OneRepair, Completes,
         Exec, TotalWork, Plumbed, Inv, PlumbingOf, CanStep, Queue, WellFormed;
    DeployedPlan(f, p, decoded, to, limit, tasks, net);
    PlanIsLinear(f, p, net.pk);
    StripesSolve(f, p, decoded, to, limit, net, stripes);
    RepairCorrect(p, tasks, net, ValuesOf(stripes), sched, s);
    BlockIsOriginal(p, stripes, net.pktnum);
    var sched' := RunToEnd(p, tasks, net, ValuesOf(stripes), sched);
    StateFits(p, net, ValuesOf(stripes), s);
  }

  lemma StateFits<F>(p: Plan<F>, net: Cluster<F, Thread, F>, val: (int, nat) -> F, s: State<Thread, F>)
    requires WellFormed(p) && Plumbed(net, PlumbingOf(p)) && Inv(net, PlumbingOf(p), val, s)
    ensures Network.Fits(net, s)
  {
    hide Plumbed, WellFormed;
  }

  // ---------------------------------------------------------------------------------------------
  // From a code's DAG to the plan's

  lemma {:induction false} OneGroup(cidx: seq<int>, w: int, lost: int)
    requires 0 < w && forall i | 0 <= i < |cidx| :: cidx[i] / w == lost
    ensures E.Group(cidx, w, lost) == cidx && forall b | b != lost :: E.Group(cidx, w, b) == []
  {
    if cidx != [] {
      var k := |cidx| - 1;
      OneGroup(cidx[..k], w, lost);
      assert cidx == cidx[..k] + [cidx[k]];
    }
  }

  /** The DAG is ready to be coloured: what is needed of g under a sole header over to. */
  ghost predicate Prepared<C>(dag: E.ECDAG<C>, g: Dag<C>, to: seq<int>)
    reads dag
  {
    && dag.Valid() && |dag.headers| == 1 && OneRepair(dag.nodes, g, to, dag.headers[0]) && LeavesKept(dag.nodes, g, dag.headers[0])
  }

  ghost predicate LeavesKept<C>(g': Dag<C>, g: Dag<C>, header: int) {
    forall v | v in g' && v != header :: v in g && (g'[v].kind.Leaf? <==> g[v].kind.Leaf?)
  }

  /** The end of genRepairECDAG for one failed node (src/common/Stripe.cc:55-59): the lost sub-packets are put under a
      header. Nothing has to be pruned, because the code's DAG computes nothing in vain. */
  method HeadRepair<C>(dag: E.ECDAG<C>, to: seq<int>, minusOne: C)
    requires dag.Valid() && Suits(dag.nodes, to, E.REQUESTOR)
    modifies dag
    ensures Prepared(dag, old(dag.nodes), to) && dag.headers == [E.REQUESTOR] && dag.nodes.Keys == old(dag.nodes).Keys + {E.REQUESTOR}
  {
    hide E.Shape, E.ListsFit, Tiered, Unread, E.JoinAdds;
    ghost var g0 := dag.nodes;
    HeadersWithoutParents(dag, to);
    dag.Concact(to, minusOne);
    OneHeader(dag, g0, to, seq(|to|, _ => minusOne));
  }

  /** Before that, all headers are among the lost sub-packets. */
  lemma HeadersWithoutParents<C>(dag: E.ECDAG<C>, to: seq<int>)
    requires dag.Valid() && Suits(dag.nodes, to, E.REQUESTOR)
    ensures forall v | v in dag.nodes && dag.nodes[v].kind.Root? :: v in to
    ensures E.REQUESTOR !in dag.nodes && E.Elements(to) <= dag.nodes.Keys
  {
    hide Tiered, Unread;
    forall v | v in dag.nodes && dag.nodes[v].kind.Root? ensures v in to {
      forall u ensures !Reads(dag.nodes, u, v) {
        RootUnread(dag, u, v);
      }
    }
  }

  lemma RootUnread<C>(dag: E.ECDAG<C>, u: int, v: int)
    requires dag.Valid() && v in dag.nodes && dag.nodes[v].kind.Root?
    ensures !Reads(dag.nodes, u, v)
  {
    assert dag.nodes[v].parents == [];
    if u in dag.nodes { ParentIffChild(dag.nodes, v, u); }
  }

  lemma OneHeader<C>(dag: E.ECDAG<C>, g0: Dag<C>, to: seq<int>, coefs: seq<C>)
    requires dag.Valid() && E.JoinAdds(g0, dag.nodes, E.REQUESTOR, to, coefs) && E.Elements(to) <= g0.Keys
    requires forall v | v in g0 && g0[v].kind.Root? :: v in to
    ensures Prepared(dag, g0, to) && dag.headers == [E.REQUESTOR] && dag.nodes.Keys == g0.Keys + {E.REQUESTOR}
  {
    hide E.Shape;
    assert forall v :: v in dag.headers <==> v in dag.nodes && dag.nodes[v].kind.Root?;
    forall v | v in g0 ensures !dag.nodes[v].kind.Root? {
      if v in to {
        var i :| 0 <= i < |to| && to[i] == v;
        assert v in E.Elements(to);
      }
    }
    var hs := dag.headers;
    forall i | 0 <= i < |hs| ensures hs[i] == E.REQUESTOR {
      var v := hs[i];
      assert v in hs;
    }
    S.OnlyOne(hs, E.REQUESTOR);
  }

  /** The end of genRepairECDAG for a list of failed nodes (src/common/Stripe.cc:1423-1438), several of which may be in
      this stripe: a header for every block of the list, and nothing is kept that the block lost does not need. */
  method KeepRepair<C>(dag: E.ECDAG<C>, to: seq<int>, ecn: nat, ecw: nat, lost: nat, minusOne: C)
    requires dag.Valid() && 0 < ecw && lost < ecn && E.Group(to, ecw, lost) != []
    requires forall i | 0 <= i < |to| :: to[i] in dag.nodes && 0 <= to[i] / ecw < ecn
    requires forall b | 0 <= b < ecn :: E.HeaderOf(b) !in dag.nodes
    modifies dag
    ensures Prepared(dag, old(dag.nodes), E.Group(to, ecw, lost)) && dag.headers == [E.HeaderOf(lost)]
  {
    hide E.Shape, E.ListsFit, E.Group, P.Survives, Closed, Ranked, E.Concacted;
    ghost var g0 := dag.nodes;
    dag.ConcactBlocks(to, ecn, ecw, minusOne);
    ghost var g1 := dag.nodes;
    HeadersAre(g0, g1, to, ecw, ecn, lost, seq(|to|, _ => minusOne));
    RootIsHeader(dag, E.HeaderOf(lost));
    P.Prune(dag, E.HeaderOf(lost));
    HeaderStays(dag, E.HeaderOf(lost));
    forall v | v in dag.nodes && v != E.HeaderOf(lost)
      ensures v in g0 && dag.nodes[v].children == g0[v].children && dag.nodes[v].coefs == g0[v].coefs && (dag.nodes[v].kind.Leaf? <==> g0[v].kind.Leaf?)
    {
      if v !in g0 { RootIsHeader(dag, v); }
    }
  }

  lemma HeadersAre<C>(g0: Dag<C>, g1: Dag<C>, to: seq<int>, w: int, n: nat, lost: nat, coefs: seq<C>)
    requires 0 < w && lost < n && E.Concacted(g0, g1, to, w, n, coefs) && E.Group(to, w, lost) != []
    ensures E.HeaderOf(lost) in g1 && g1[E.HeaderOf(lost)].children == E.Group(to, w, lost)
    ensures forall v | v in g1 :: if v in g0 then g1[v].children == g0[v].children && g1[v].coefs == g0[v].coefs && (g1[v].kind.Leaf? <==> g0[v].kind.Leaf?)
                                  else g1[v].kind.Root?
    ensures g1[E.HeaderOf(lost)].kind.Root?
  {
    hide E.Group;
    forall v | v in g1 && v !in g0 ensures g1[v].kind.Root? {
      assert v == E.HeaderOf(E.REQUESTOR - v);
    }
  }

  lemma RootIsHeader<C>(dag: E.ECDAG<C>, v: int)
    requires dag.Valid() && v in dag.nodes && dag.nodes[v].kind.Root?
    ensures v in dag.headers
  {
    hide E.Shape;
  }

  lemma HeaderStays<C>(dag: E.ECDAG<C>, v: int)
    requires dag.Valid() && dag.headers == [v]
    ensures v in dag.nodes
  {
    hide E.Shape;
    assert dag.headers[0] in dag.headers;
  }
}
