/** The whole way for both codes: whatever stripes were encoded, every run of the compiled repair of a lost block can be
    brought to its end, and at its end has written that block. */
module WholeRepair {
  import opened ClaySpec
  import opened Clays
  import opened Compile
  import opened Computing
  import opened Dags
  import opened EndToEnd
  import opened Galois
  import opened Network
  import C = ClayRepair
  import CT = ClayTiers
  import H = Hitchhikers
  import HD = HitchhikerDag
  import HM = HitchhikerMany
  import HN = HitchhikerManyRounds
  import HR = HitchhikerRounds
  import HS = HitchhikerSpec
  import HT = HitchhikerTiers
  import Tiers

  /** However Clay's repair DAG is coloured, equally coloured consumers share a level. */
  lemma ClayOneLevel<F(!new)>(c: Clay<F>, decoded: Dag<F>, lost: nat, p: Plan<F>)
    requires c.Ready() && lost < c.p.n && CT.RepairDag(c, Repairing(c.ShortNode(lost)), decoded)
    requires Tiers.PlanOf(p, decoded, CT.SubPacketsOf(lost, c.p.w))
    ensures WellFormed(p) && OneLevelPerColor(p)
  {
    hide *;
    var mode, to := Repairing(c.ShortNode(lost)), CT.SubPacketsOf(lost, c.p.w);
    PlanIsFormed(p, decoded, to);
    RepairHolds(c, mode, decoded);
    CT.ClayTiered(c, mode, decoded);
    CT.LostIsUnread(c, decoded, lost);
    Tiers.TieredPlan(p, decoded, to, CT.TiersOf(c, mode, decoded));
  }

  lemma PlanIsFormed<F>(p: Plan<F>, decoded: Dag<F>, to: seq<int>)
    requires Tiers.PlanOf(p, decoded, to)
    ensures WellFormed(p)
  {
    hide WellFormed;
  }

  /** And so for Hitchhiker-XOR+. */
  lemma HitchhikerOneLevel<F(!new)>(c: H.HHXORPlus<F>, decoded: Dag<F>, failed: nat, ops: seq<HS.Combination<F>>, p: Plan<F>)
    requires HT.RepairDag(c, decoded, failed, ops) && Tiers.PlanOf(p, decoded, HT.BothLost(c, failed))
    ensures WellFormed(p) && OneLevelPerColor(p)
  {
    hide *;
    HRepairHolds(c, decoded, failed, ops);
    var to := HT.BothLost(c, failed);
    PlanIsFormed(p, decoded, to);
    HT.HitchhikerTiered(c, decoded, failed, ops);
    HT.LostIsUnread(c, decoded, failed, ops);
    Tiers.TieredPlan(p, decoded, to, HT.TiersOf(c, failed, decoded));
  }

  /** A Clay code word for every packet, the repair of node lost with d = n - 1 on the agents, coloured in any way: every
      run can be brought to its end, and then the block is back. */
  lemma ClayBlockComesBack<F(!new)>(c: Clay<F>, encoded: Dag<F>, decoded: Dag<F>, lost: nat, p: Plan<F>, tasks: TaskMap<F>,
                                    net: Cluster<F, Thread, F>, stripes: nat -> (int -> F), sched: seq<Thread>, s: State<Thread, F>)
    requires c.Ready() && lost < c.p.n && ModeFits(c.p, Encoding) && c.Holds(encoded, Encoding)
    requires CT.RepairDag(c, Repairing(c.ShortNode(lost)), decoded)
    requires Invertible(c.f, Rows(c.f, c.p.k + c.p.nu, Others(c.p, Erased(c.p, Repairing(c.ShortNode(lost))))))
    requires forall r :: Computes(c.f, encoded, stripes(r))
    requires Deployed(c.f, p, decoded, CT.SubPacketsOf(lost, c.p.w), tasks, net)
    requires Stores(p, c.f, net, stripes) && Exec(net, sched) == Some(s)
    ensures CanComplete(net, sched) && Network.Fits(net, s) && (Finished(net, s) <==> |sched| == TotalWork(net))
    ensures Finished(net, s) ==> DiskIs(s.disk, HeaderFile(p), Original(stripes, CT.SubPacketsOf(lost, c.p.w), net.pktnum))
  {
    hide *;
    ReadyIs(c);
    RepairHolds(c, Repairing(c.ShortNode(lost)), decoded);
    forall r: nat ensures Computes(c.f, decoded, stripes(r)) {
      C.EncodedIsWord(c, encoded, stripes(r));
      C.WordComputes(c, decoded, c.ShortNode(lost), stripes(r));
    }
    CT.ClaySuits(c, decoded, lost, 2 * Half(c.p, false));
    RunWritesStripes(c.f, p, decoded, CT.SubPacketsOf(lost, c.p.w), 2 * Half(c.p, false), tasks, net, stripes, sched, s);
  }

  lemma RepairHolds<F(!new)>(c: Clay<F>, mode: Mode, g: Dag<F>)
    requires CT.RepairDag(c, mode, g)
    ensures c.Ready() && ModeFits(c.p, mode) && c.Holds(g, mode)
  {
    hide Field;
  }

  lemma ReadyIs<F(!new)>(c: Clay<F>)
    requires c.Ready()
    ensures Field(c.f) && ClaySpec.Fits(c.p)
  {
    hide Field;
  }

  // ---------------------------------------------------------------------------------------------
  // Hitchhiker-XOR+

  ghost function Filled<F(!new)>(c: H.HHXORPlus<F>, stripes: nat -> (int -> F)): nat -> (int -> F)
    requires c.Ready()
  {
    (r: nat) => HR.WithLast(c.p, c.f, c.symbols, stripes(r))
  }

  ghost predicate LastSymbol<F(!new)>(c: H.HHXORPlus<F>, v: int)
    requires c.Ready()
  {
    v == c.symbols[HS.LastAt(c.p)]
  }

  lemma FilledAt<F(!new)>(c: H.HHXORPlus<F>, stripes: nat -> (int -> F), r: nat, v: int)
    requires c.Ready() && !LastSymbol(c, v)
    ensures Filled(c, stripes)(r)(v) == stripes(r)(v)
  {
    hide H.LayoutsRight, H.MatrixRight, H.GroupsRight, H.CodesRight, Field;
  }

  lemma FilledComputes<F(!new)>(c: H.HHXORPlus<F>, encoded: Dag<F>, decoded: Dag<F>, failed: nat, ops: seq<HS.Combination<F>>, stripes: nat -> (int -> F), r: nat)
    requires c.Ready() && failed < c.p.n && HD.Built(encoded, c.symbols, HD.EncodeOps(c.p, c.f)) && Computes(c.f, encoded, stripes(r))
    requires HN.RepairsNode(c, decoded, failed, ops) && Closed(decoded)
    ensures Computes(c.f, decoded, Filled(c, stripes)(r))
  {
    hide Field, H.LayoutsRight, H.MatrixRight, H.GroupsRight, H.CodesRight, HD.Built, Computes, HM.NodeOps, HD.EncodeOps, HS.Stripe, Closed,
         Distinct, HR.WithLast, HR.ByPlace, HS.Meets;
    var p, f, symbols := c.p, c.f, c.symbols;
    var full := HR.WithLast(p, f, symbols, stripes(r));
    HR.EncodedMet(f, encoded, symbols, HD.EncodeOps(p, f), stripes(r));
    HR.StillStripe(p, f, symbols, stripes(r));
    HN.NodeMet(p, f, c.solver, HR.ByPlace(symbols, full), failed, ops);
    HR.MeetsComputes(f, decoded, symbols, ops, full);
  }

  /** The last virtual symbol is read by nothing or computed from something. */
  lemma LastIsNoLeaf<F(!new)>(c: H.HHXORPlus<F>, decoded: Dag<F>, failed: nat, ops: seq<HS.Combination<F>>, v: int)
    requires c.Ready() && failed < c.p.n && HN.RepairsNode(c, decoded, failed, ops) && Closed(decoded) && v in decoded && LastSymbol(c, v)
    ensures !decoded[v].kind.Leaf?
  {
    hide Field, H.LayoutsRight, H.MatrixRight, H.GroupsRight, H.CodesRight, HD.Built, HM.NodeOps, Closed, Distinct, HD.IsInput, HD.IsTarget;
    HN.NodeTargets(c.p, c.f, c.solver, failed, ops);
    HR.LeafIff(decoded, c.symbols, ops, HS.LastAt(c.p));
  }

  lemma SymbolsApart<F(!new)>(c: H.HHXORPlus<F>, sp: nat, failed: nat)
    requires c.Ready() && failed < c.p.n && sp < 2
    ensures !LastSymbol(c, HR.Symbol(c, sp, failed))
  {
    hide Field, H.LayoutsRight, H.MatrixRight, H.GroupsRight, H.CodesRight;
  }

  lemma FilledStored<F(!new)>(c: H.HHXORPlus<F>, decoded: Dag<F>, failed: nat, ops: seq<HS.Combination<F>>, p: Plan<F>, to: seq<int>, limit: int,
                             net: Cluster<F, Thread, F>, stripes: nat -> (int -> F))
    requires HT.RepairDag(c, decoded, failed, ops) && Tiers.PlanOf(p, decoded, to) && Tiers.Suits(decoded, to, limit)
    requires Stores(p, c.f, net, stripes)
    ensures Stores(p, c.f, net, Filled(c, stripes))
  {
    hide Field, H.LayoutsRight, H.MatrixRight, H.GroupsRight, H.CodesRight, HN.RepairsNode, Closed, Filled, LastSymbol, Distinct, WellFormed,
         Tiers.Used, Tiers.Unread, SimpleEdges, HM.NodeOps;
    forall v, r: nat | v in p.g && p.g[v].children == []
      ensures Filled(c, stripes)(r)(v) == stripes(r)(v)
    {
      if LastSymbol(c, v) { LastIsNoLeaf(c, decoded, failed, ops, v); }
      FilledAt(c, stripes, r, v);
    }
  }

  lemma {:induction false} SameOriginal<F(!new)>(c: H.HHXORPlus<F>, stripes: nat -> (int -> F), vs: seq<int>, packets: nat)
    requires c.Ready() && forall i | 0 <= i < |vs| :: !LastSymbol(c, vs[i])
    ensures Original(Filled(c, stripes), vs, packets) == Original(stripes, vs, packets)
  {
    hide Field, H.LayoutsRight, H.MatrixRight, H.GroupsRight, H.CodesRight, Filled, LastSymbol, Distinct;
    if packets > 0 {
      SameOriginal(c, stripes, vs, packets - 1);
      forall i | 0 <= i < |vs| ensures Filled(c, stripes)(packets - 1)(vs[i]) == stripes(packets - 1)(vs[i]) {
        FilledAt(c, stripes, packets - 1, vs[i]);
      }
      assert SubPackets(Filled(c, stripes)(packets - 1), vs) == SubPackets(stripes(packets - 1), vs);
    }
  }

  /** A stripe for every packet, the repair of any node on the agents, coloured in any way: every run can be brought
      to its end, and then the block is back. */
  lemma HitchhikerBlockComesBack<F(!new)>(c: H.HHXORPlus<F>, encoded: Dag<F>, decoded: Dag<F>, failed: nat, ops: seq<HS.Combination<F>>, p: Plan<F>,
                                          tasks: TaskMap<F>, net: Cluster<F, Thread, F>, stripes: nat -> (int -> F), limit: int,
                                          sched: seq<Thread>, s: State<Thread, F>)
    requires c.Ready() && failed < c.p.n && HD.Built(encoded, c.symbols, HD.EncodeOps(c.p, c.f)) && HT.RepairDag(c, decoded, failed, ops)
    requires HT.SymbolsBelow(c.symbols, limit) && forall r :: Computes(c.f, encoded, stripes(r))
    requires Deployed(c.f, p, decoded, HT.BothLost(c, failed), tasks, net)
    requires Stores(p, c.f, net, stripes) && Exec(net, sched) == Some(s)
    ensures CanComplete(net, sched) && Network.Fits(net, s) && (Finished(net, s) <==> |sched| == TotalWork(net))
    ensures Finished(net, s) ==> DiskIs(s.disk, HeaderFile(p), Original(stripes, HT.BothLost(c, failed), net.pktnum))
  {
    hide *;
    HReadyIs(c);
    HRepairHolds(c, decoded, failed, ops);
    var to := HT.BothLost(c, failed);
    forall r: nat ensures Computes(c.f, decoded, Filled(c, stripes)(r)) {
      FilledComputes(c, encoded, decoded, failed, ops, stripes, r);
    }
    HT.HitchhikerSuits(c, decoded, failed, ops, limit);
    DeployedPlanOf(c.f, p, decoded, to, tasks, net);
    FilledStored(c, decoded, failed, ops, p, to, limit, net, stripes);
    RunWritesStripes(c.f, p, decoded, to, limit, tasks, net, Filled(c, stripes), sched, s);
    LostApart(c, failed);
    SameOriginal(c, stripes, to, net.pktnum);
  }

  lemma LostApart<F(!new)>(c: H.HHXORPlus<F>, failed: nat)
    requires c.Ready() && failed < c.p.n
    ensures var to := HT.BothLost(c, failed); forall i | 0 <= i < |to| :: !LastSymbol(c, to[i])
  {
    hide Field, H.LayoutsRight, H.MatrixRight, H.GroupsRight, H.CodesRight, LastSymbol, HR.Symbol;
    SymbolsApart(c, 0, failed);
    SymbolsApart(c, 1, failed);
  }

  lemma HRepairHolds<F(!new)>(c: H.HHXORPlus<F>, g: Dag<F>, failed: nat, ops: seq<HS.Combination<F>>)
    requires HT.RepairDag(c, g, failed, ops)
    ensures c.Ready() && failed < c.p.n && HN.RepairsNode(c, g, failed, ops) && Closed(g)
  {
    hide Field;
  }

  lemma DeployedPlanOf<F(!new)>(f: GF<F>, p: Plan<F>, decoded: Dag<F>, to: seq<int>, tasks: TaskMap<F>, net: Cluster<F, Thread, F>)
    requires Deployed(f, p, decoded, to, tasks, net)
    ensures Tiers.PlanOf(p, decoded, to)
  {
    hide Tiers.PlanOf;
  }

  lemma HReadyIs<F(!new)>(c: H.HHXORPlus<F>)
    requires c.Ready()
    ensures Field(c.f)
  {
    hide Field;
  }
}
