/** The tiers of Hitchhiker-XOR+'s repair DAG: what is read, what the inverse gives back, the couples and group codes,
    and the lost sub-packet 0. */
module HitchhikerTiers {
  import opened Dags
  import opened Galois
  import opened HitchhikerDag
  import opened HitchhikerRepair
  import opened HitchhikerRounds
  import opened HitchhikerSpec
  import opened Hitchhikers
  import M = HitchhikerMany
  import R = HitchhikerManyRounds
  import opened Tiers
  import S = Sorting

  /** By place: the lost sub-packets, the group codes, the uncoupled parities and the sum of the couples. */
  ghost function TierOf(p: Params, failed: nat, place: nat): nat
    requires p.Fits()
  {
    if failed >= p.k then ParityTier(p, failed, place)
    else if place == failed then 3
    else if place == p.n + failed then 1
    else if place <= 2 * p.n then 0
    else if place <= 2 * p.n + p.Groups() then 2
    else if place <= 2 * p.n + 2 * p.Groups() then 1
    else 2
  }

  /** For a lost parity node all is computed from the data, and then coupled. */
  ghost function ParityTier(p: Params, failed: nat, place: nat): nat
    requires p.Fits()
  {
    if place == failed then (if failed == p.k + 1 then 2 else 1)
    else if place == p.n + failed then (if failed == p.k then 1 else 2)
    else if place < 2 * p.n then 0
    else 1
  }

  /** The tier of whatever reads a place. */
  ghost function ReadIn(p: Params, failed: nat, place: nat): nat
    requires p.Fits()
  {
    if failed >= p.k then (if place < 2 * p.n then 1 else 2)
    else if place < p.k then 3
    else if place < p.n then 2
    else if place <= p.n + p.k then 1
    else if place <= 2 * p.n then 2
    else if place <= 2 * p.n + p.Groups() then 3
    else if place <= 2 * p.n + 2 * p.Groups() then 2
    else 3
  }

  ghost predicate IsLost(p: Params, failed: nat, place: nat) {
    place == DataAt(p, 0, failed) || place == DataAt(p, 1, failed)
  }

  ghost predicate SourceFits(p: Params, failed: nat, target: nat, place: nat)
    requires p.Fits()
  {
    !IsLost(p, failed, place) && TierOf(p, failed, place) < TierOf(p, failed, target) == ReadIn(p, failed, place)
  }

  /** What a combination reads: lower tiers, one of them the next, nothing lost, nothing twice. */
  ghost predicate SourcesFit<F>(p: Params, failed: nat, op: Combination<F>)
    requires p.Fits()
  {
    && (forall i | 0 <= i < |op.sources| :: SourceFits(p, failed, op.target, op.sources[i]))
    && (exists i :: 0 <= i < |op.sources| && TierOf(p, failed, op.sources[i]) == TierOf(p, failed, op.target) - 1)
    && Distinct(op.sources)
  }

  lemma SurvivorsFit(p: Params, failed: nat)
    requires p.Fits() && failed < p.k
    ensures var s := Survivors(p, failed);
            s != [] && Distinct(s) && forall i | 0 <= i < |s| :: !IsLost(p, failed, s[i]) && TierOf(p, failed, s[i]) == 0 && ReadIn(p, failed, s[i]) == 1
  {
    var s := Survivors(p, failed);
    forall i | 0 <= i < |s| ensures s[i] == if i < p.k - 1 then p.n + Except(p.k, failed)[i] else p.n + p.k {}
  }

  lemma FirstFits<F(!new)>(p: Params, s: Solver<F>, f: GF<F>, failed: nat)
    requires p.Fits() && failed < p.k && Invertibles(p, f, s, failed)
    ensures SourcesFit(p, failed, FirstBack(p, s, f, failed))
  {
    SurvivorsFit(p, failed);
    hide Recover, Survivors;
    var op := FirstBack(p, s, f, failed);
    assert TierOf(p, failed, op.sources[0]) == 0;
  }

  lemma ParityFits<F(!new)>(p: Params, s: Solver<F>, f: GF<F>, failed: nat, g: nat)
    requires p.Fits() && failed < p.k && Invertibles(p, f, s, failed) && 1 <= g <= p.Groups()
    ensures SourcesFit(p, failed, ParityBack(p, s, f, failed, g))
  {
    SurvivorsFit(p, failed);
    hide Recover, Survivors;
    var op := ParityBack(p, s, f, failed, g);
    assert TierOf(p, failed, op.sources[0]) == 0;
  }

  lemma GroupFits<F(!new)>(p: Params, f: GF<F>, failed: nat, g: nat)
    requires p.Fits() && failed < p.k && 1 <= g <= p.Groups()
    ensures SourcesFit(p, failed, GroupBack(p, f, g))
  {
    var op := GroupBack(p, f, g);
    assert op.sources[0] == UncoupledAt(p, 1, g) && op.sources[1] == CodeAt(p, 1, g);
    assert SourceFits(p, failed, op.target, op.sources[0]) && SourceFits(p, failed, op.target, op.sources[1]);
  }

  lemma OthersInGroup(p: Params, failed: nat, g: nat)
    requires p.Fits() && failed < p.k && InGroup(p, failed, g)
    ensures failed - Start(Average(p), g) < |Members(p, g)|
    ensures var nodes := Drop(Members(p, g), failed - Start(Average(p), g));
            (forall i | 0 <= i < |nodes| :: nodes[i] < p.k && nodes[i] != failed) && Distinct(nodes)
  {
    hide Average, Start, End;
    MemberAt(p, failed, g);
  }

  lemma SecondFits<F(!new)>(p: Params, s: Solver<F>, f: GF<F>, failed: nat, g: nat)
    requires p.Fits() && failed < p.k && Invertibles(p, f, s, failed) && InGroup(p, failed, g)
    ensures 1 <= g <= p.Groups() && SourcesFit(p, failed, SecondBack(p, s, f, failed, g))
  {
    OthersInGroup(p, failed, g);
    hide Recover, RecoverGroup, GroupLine, Average, Start, End, Members, Drop;
    var op := SecondBack(p, s, f, failed, g);
    var nodes := Drop(Members(p, g), failed - Start(Average(p), g));
    SecondSources(p, failed, g, op, nodes);
  }

  lemma SecondSources<F>(p: Params, failed: nat, g: nat, op: Combination<F>, nodes: seq<nat>)
    requires p.Fits() && failed < p.k && 1 <= g <= p.Groups() && op.target == DataAt(p, 0, failed) && op.sources == Places(p, 0, nodes) + [GroupAt(p, g)]
    requires (forall i | 0 <= i < |nodes| :: nodes[i] < p.k && nodes[i] != failed) && Distinct(nodes)
    ensures SourcesFit(p, failed, op)
  {
    forall i | 0 <= i < |op.sources|
      ensures op.sources[i] == (if i < |nodes| then nodes[i] else GroupAt(p, g)) && SourceFits(p, failed, op.target, op.sources[i]) {}
    assert TierOf(p, failed, op.sources[|nodes|]) == 2;
  }

  lemma {:induction false} CouplesApart(p: Params, m: nat)
    requires p.Fits() && m <= p.Groups()
    ensures Distinct(Couples(p, m)) && (m > 0 ==> Couples(p, m)[0] == UncoupledAt(p, 1, 1))
  {
    if m > 0 {
      CouplesApart(p, m - 1);
      var a, b := UncoupledAt(p, 1, m), if m == 1 then CodeAt(p, 0, 1) else CodeAt(p, 1, m);
      if a in Couples(p, m - 1) { InCouples(p, m - 1, a); }
      if b in Couples(p, m - 1) { InCouples(p, m - 1, b); }
      TwoMore(Couples(p, m - 1), a, b);
    }
  }

  lemma TwoMore<T>(s: seq<T>, a: T, b: T)
    requires Distinct(s) && a !in s && b !in s && a != b
    ensures Distinct(s + [a, b])
  {}

  lemma AllCouplesFit<F(!new)>(p: Params, f: GF<F>, failed: nat)
    requires p.Fits() && failed < p.k
    ensures SourcesFit(p, failed, AllCouples(p, f))
  {
    CouplesApart(p, p.Groups());
    hide Couples, Distinct;
    var op := AllCouples(p, f);
    forall i | 0 <= i < |op.sources| ensures SourceFits(p, failed, op.target, op.sources[i]) {
      var t := op.sources[i];
      assert t in op.sources;
      InCouples(p, p.Groups(), t);
    }
    assert TierOf(p, failed, op.sources[0]) == 1;
  }

  lemma LastFits<F(!new)>(p: Params, s: Solver<F>, f: GF<F>)
    requires p.Fits()
    ensures SourcesFit(p, p.k - 1, LastBack(p, s, f))
  {
    var op := LastBack(p, s, f);
    assert op.sources[0] == LastAt(p);
  }

  // ---------------------------------------------------------------------------------------------
  // All combinations of a repair

  ghost predicate Computed<F>(p: Params, failed: nat, ops: seq<Combination<F>>, place: nat)
    requires p.Fits()
  {
    TierOf(p, failed, place) == 0 || IsTarget(ops, place)
  }

  /** Sources in their tiers; what is no leaf tier is computed; what is computed but not lost is read. */
  ghost predicate OpFits<F>(p: Params, failed: nat, ops: seq<Combination<F>>, i: nat)
    requires p.Fits() && i < |ops|
  {
    && SourcesFit(p, failed, ops[i])
    && (forall j | 0 <= j < |ops[i].sources| :: Computed(p, failed, ops, ops[i].sources[j]))
    && (IsLost(p, failed, ops[i].target) || IsSource(ops, ops[i].target))
  }

  lemma OpFitsIf<F>(p: Params, failed: nat, ops: seq<Combination<F>>, i: nat, extra: set<nat>)
    requires p.Fits() && i < |ops| && SourcesFit(p, failed, ops[i]) && forall t | t in extra :: IsTarget(ops, t)
    requires forall j | 0 <= j < |ops[i].sources| :: TierOf(p, failed, ops[i].sources[j]) == 0 || ops[i].sources[j] in extra
    requires IsLost(p, failed, ops[i].target) || IsSource(ops, ops[i].target)
    ensures OpFits(p, failed, ops, i)
  {
    hide SourcesFit, TierOf;
  }

  lemma GroupRepairFits<F(!new)>(p: Params, s: Solver<F>, f: GF<F>, failed: nat, g: nat, i: nat)
    requires p.Fits() && failed < p.k && Invertibles(p, f, s, failed) && InGroup(p, failed, g) && i < 4
    ensures |GroupRepair(p, s, f, failed, g)| == 4 && OpFits(p, failed, GroupRepair(p, s, f, failed, g), i)
  {
    SurvivorsFit(p, failed);
    SecondTiers(p, s, f, failed, g);
    hide Recover, RecoverGroup, Survivors, SourcesFit, Invertibles, SecondBack, InGroup, OpFits, TierOf, ReadIn;
    var ops := GroupRepair(p, s, f, failed, g);
    var a, b := UncoupledAt(p, 1, g), GroupAt(p, g);
    assert ops[1].target == a && ops[2].target == b;
    if i == 0 {
      FirstFits(p, s, f, failed);
      OpFitsIf(p, failed, ops, i, {});
    } else if i == 1 {
      ParityFits(p, s, f, failed, g);
      assert a in ops[2].sources;
      OpFitsIf(p, failed, ops, i, {});
    } else if i == 2 {
      GroupFits(p, f, failed, g);
      assert b in ops[3].sources;
      CodeTierIs(p, failed, g);
      OpFitsIf(p, failed, ops, i, {a});
    } else {
      SecondFits(p, s, f, failed, g);
      OpFitsIf(p, failed, ops, i, {b});
    }
  }

  lemma CodeTierIs(p: Params, failed: nat, g: nat)
    requires p.Fits() && failed < p.k && 1 <= g <= p.Groups()
    ensures TierOf(p, failed, CodeAt(p, 1, g)) == 0
  {}

  lemma SecondTiers<F(!new)>(p: Params, s: Solver<F>, f: GF<F>, failed: nat, g: nat)
    requires p.Fits() && failed < p.k && Invertibles(p, f, s, failed) && InGroup(p, failed, g)
    ensures var src := SecondBack(p, s, f, failed, g).sources;
            GroupAt(p, g) in src && forall j | 0 <= j < |src| :: TierOf(p, failed, src[j]) == 0 || src[j] == GroupAt(p, g)
  {
    OthersInGroup(p, failed, g);
    hide Recover, RecoverGroup, GroupLine, Average, Start, End, Members, Drop, TierOf;
    var src := SecondBack(p, s, f, failed, g).sources;
    var nodes := Drop(Members(p, g), failed - Start(Average(p), g));
    PlacesThen(p, failed, g, nodes);
    assert src == Places(p, 0, nodes) + [GroupAt(p, g)];
  }

  lemma PlacesThen(p: Params, failed: nat, g: nat, nodes: seq<nat>)
    requires p.Fits() && failed < p.k && forall i | 0 <= i < |nodes| :: nodes[i] < p.k && nodes[i] != failed
    ensures var src := Places(p, 0, nodes) + [GroupAt(p, g)];
            GroupAt(p, g) in src && forall j | 0 <= j < |src| :: TierOf(p, failed, src[j]) == 0 || src[j] == GroupAt(p, g)
  {
    var src := Places(p, 0, nodes) + [GroupAt(p, g)];
    assert src[|nodes|] == GroupAt(p, g);
    forall j | 0 <= j < |src| ensures src[j] == if j < |nodes| then nodes[j] else GroupAt(p, g) {}
  }

  lemma ParityAt<F(!new)>(p: Params, s: Solver<F>, f: GF<F>, i: nat)
    requires p.Fits() && Invertibles(p, f, s, p.k - 1)
    ensures var ops := LastRepair(p, s, f);
            && |ops| == p.Groups() + 3 && ops[p.Groups() + 1] == AllCouples(p, f) && ops[p.Groups() + 2] == LastBack(p, s, f)
            && (i == 0 ==> ops[i] == FirstBack(p, s, f, p.k - 1)) && (1 <= i <= p.Groups() ==> ops[i] == ParityBack(p, s, f, p.k - 1, i))
  {
    hide Recover, Invertibles, AllCouples, LastBack, FirstBack, ParityBack;
  }

  lemma {:induction false} CouplesHave(p: Params, m: nat, g: nat)
    requires p.Fits() && m <= p.Groups() && 1 <= g <= m
    ensures UncoupledAt(p, 1, g) in Couples(p, m)
  {
    if g < m { CouplesHave(p, m - 1, g); }
  }

  lemma LastRepairFits<F(!new)>(p: Params, s: Solver<F>, f: GF<F>, i: nat)
    requires p.Fits() && Invertibles(p, f, s, p.k - 1) && i < p.Groups() + 3
    ensures |LastRepair(p, s, f)| == p.Groups() + 3 && OpFits(p, p.k - 1, LastRepair(p, s, f), i)
  {
    hide Invertibles, LastRepair, Couples, SourcesFit, TierOf, ReadIn, OpFits;
    var ops, gs := LastRepair(p, s, f), p.Groups();
    ParityAt(p, s, f, i);
    SurvivorsFit(p, p.k - 1);
    hide Survivors;
    if i == 0 {
      FirstFits(p, s, f, p.k - 1);
      OpFitsIf(p, p.k - 1, ops, i, {});
    } else if i <= gs {
      ParityFits(p, s, f, p.k - 1, i);
      CouplesHave(p, gs, i);
      assert UncoupledAt(p, 1, i) in ops[gs + 1].sources;
      OpFitsIf(p, p.k - 1, ops, i, {});
    } else if i == gs + 1 {
      CouplesSummed(p, s, f);
    } else {
      LastFits(p, s, f);
      assert ops[gs + 1].target == LastAt(p);
      OpFitsIf(p, p.k - 1, ops, i, {LastAt(p)});
    }
  }

  lemma CouplesSummed<F(!new)>(p: Params, s: Solver<F>, f: GF<F>)
    requires p.Fits() && Invertibles(p, f, s, p.k - 1)
    ensures |LastRepair(p, s, f)| == p.Groups() + 3 && OpFits(p, p.k - 1, LastRepair(p, s, f), p.Groups() + 1)
  {
    hide Invertibles, LastRepair, Couples, SourcesFit, TierOf, ReadIn, Computed;
    var ops, i := LastRepair(p, s, f), p.Groups() + 1;
    ParityAt(p, s, f, i);
    AllCouplesFit(p, f, p.k - 1);
    assert ops[i + 1].sources[0] == LastAt(p);
    forall j | 0 <= j < |ops[i].sources| ensures Computed(p, p.k - 1, ops, ops[i].sources[j]) {
      CoupleComputed(p, s, f, ops[i].sources[j]);
    }
  }

  lemma CoupleComputed<F(!new)>(p: Params, s: Solver<F>, f: GF<F>, t: nat)
    requires p.Fits() && Invertibles(p, f, s, p.k - 1) && t in Couples(p, p.Groups())
    ensures Computed(p, p.k - 1, LastRepair(p, s, f), t)
  {
    hide Invertibles, LastRepair, Couples;
    InCouples(p, p.Groups(), t);
    if g: nat :| 1 <= g <= p.Groups() && t == UncoupledAt(p, 1, g) {
      ParityAt(p, s, f, g);
      assert LastRepair(p, s, f)[g].target == t;
    }
  }

  lemma RepairFits<F(!new)>(p: Params, s: Solver<F>, f: GF<F>, failed: nat, ops: seq<Combination<F>>)
    requires p.Fits() && failed < p.k && Invertibles(p, f, s, failed) && HitchhikerDag.IsRepair(p, s, f, failed, ops)
    ensures forall i | 0 <= i < |ops| :: OpFits(p, failed, ops, i)
  {
    hide OpFits, Invertibles, LastRepair, GroupRepair, InGroup;
    if failed == p.k - 1 {
      forall i | 0 <= i < |ops| ensures OpFits(p, failed, ops, i) { ParityAt(p, s, f, 0); LastRepairFits(p, s, f, i); }
    } else {
      var g: nat :| InGroup(p, failed, g) && ops == GroupRepair(p, s, f, failed, g);
      FourOps(p, s, f, failed, g);
      forall i | 0 <= i < |ops| ensures OpFits(p, failed, ops, i) { GroupRepairFits(p, s, f, failed, g, i); }
    }
  }

  lemma NodeFits<F(!new)>(p: Params, s: Solver<F>, f: GF<F>, failed: nat, ops: seq<Combination<F>>)
    requires p.Fits() && failed < p.n && M.NodeOps(p, s, f, failed, ops)
    ensures forall i | 0 <= i < |ops| :: OpFits(p, failed, ops, i)
  {
    hide OpFits, M.Solvable, M.IsMany, Invertibles, HitchhikerDag.IsRepair;
    if failed < p.k {
      RepairFits(p, s, f, failed, ops);
    } else {
      forall i | 0 <= i < |ops| ensures OpFits(p, failed, ops, i) { ParityOpFits(p, s, f, failed, ops, i); }
    }
  }

  // What the conventional repair of a parity node reads, step by step

  lemma DataSources(p: Params, failed: nat, target: nat, sources: seq<nat>)
    requires p.Fits() && p.k <= failed < p.n && TierOf(p, failed, target) == 1 && sources != [] && Distinct(sources)
    requires forall i | 0 <= i < |sources| :: sources[i] < p.k || p.n <= sources[i] < p.n + p.k
    ensures forall i | 0 <= i < |sources| :: SourceFits(p, failed, target, sources[i])
    ensures exists i :: 0 <= i < |sources| && TierOf(p, failed, sources[i]) == TierOf(p, failed, target) - 1
    ensures forall i | 0 <= i < |sources| :: TierOf(p, failed, sources[i]) == 0
  {
    assert TierOf(p, failed, sources[0]) == 0;
  }

  lemma BackSources(p: Params, failed: nat, sp: nat)
    requires p.Fits() && p.k <= failed < p.n && sp < 2
    ensures var x := M.ParityLoss(p, failed);
            |x.data| + |x.parities| == p.k && M.UsedAt(p, x, sp) != [] && Distinct(M.UsedAt(p, x, sp))
            && forall i | 0 <= i < p.k :: M.UsedAt(p, x, sp)[i] == DataAt(p, sp, i)
    ensures TierOf(p, failed, M.PlainAt(p, sp, failed)) == 1
  {
    var x := M.ParityLoss(p, failed);
    forall i | 0 <= i < p.k ensures M.UsedAt(p, x, sp)[i] == DataAt(p, sp, i) {
      assert x.Used(i) == i;
    }
  }

  lemma CodeSources(p: Params, failed: nat, g: nat)
    requires p.Fits() && 1 <= g <= p.Groups() && failed == p.k + g
    ensures var s := Places(p, 0, Members(p, g)); s != [] && Distinct(s) && forall i | 0 <= i < |s| :: s[i] < p.k
    ensures TierOf(p, failed, GroupAt(p, g)) == 1
  {
    hide Average, Start, End;
  }

  ghost predicate IsParityStep<F>(p: Params, failed: nat, ops: seq<Combination<F>>, step: M.Step, op: Combination<F>)
    requires p.Fits() && M.LossFits(p, M.ParityLoss(p, failed))
  {
    var x := M.ParityLoss(p, failed);
    && M.StepFits(p, x, step) && op.target == M.PlaceOf(p, step) && op.sources == M.SourcesOf(p, x, step)
    && (forall other | M.StepFits(p, x, other) :: IsTarget(ops, M.PlaceOf(p, other)))
    && (forall other, j | M.StepFits(p, x, other) && 0 <= j < |M.SourcesOf(p, x, other)| :: IsSource(ops, M.SourcesOf(p, x, other)[j]))
  }

  lemma ParityOpFits<F(!new)>(p: Params, s: Solver<F>, f: GF<F>, failed: nat, ops: seq<Combination<F>>, i: nat)
    requires p.Fits() && p.k <= failed < p.n && M.NodeOps(p, s, f, failed, ops) && i < |ops|
    ensures OpFits(p, failed, ops, i)
  {
    hide OpFits, M.LossFits, M.UsedRows, M.StepFits, M.PlaceOf, M.SourcesOf, M.CoefsOf, M.ParityLoss, IsParityStep, IsTarget, IsSource;
    var x := M.ParityLoss(p, failed);
    assert M.IsStep(p, s, f, x, ops[i]);
    var step :| M.StepFits(p, x, step) && ops[i] == M.Op(p, s, f, x, step);
    ParityStepIs(p, s, f, failed, ops, step, ops[i]);
    StepOpFits(p, failed, ops, step, i);
  }

  lemma ParityStepIs<F(!new)>(p: Params, s: Solver<F>, f: GF<F>, failed: nat, ops: seq<Combination<F>>, step: M.Step, op: Combination<F>)
    requires p.Fits() && M.Solvable(p, f, s, M.ParityLoss(p, failed)) && M.IsMany(p, s, f, M.ParityLoss(p, failed), ops)
    requires M.StepFits(p, M.ParityLoss(p, failed), step) && op == M.Op(p, s, f, M.ParityLoss(p, failed), step)
    ensures M.LossFits(p, M.ParityLoss(p, failed)) && IsParityStep(p, failed, ops, step, op)
  {
    hide M.LossFits, M.UsedRows, M.StepFits, M.PlaceOf, M.SourcesOf, M.CoefsOf, M.ParityLoss, M.IsMany, IsTarget, IsSource;
    var x := M.ParityLoss(p, failed);
    forall other | M.StepFits(p, x, other) ensures IsTarget(ops, M.PlaceOf(p, other)) { M.StepTarget(p, s, f, x, ops, other); }
    forall other, j | M.StepFits(p, x, other) && 0 <= j < |M.SourcesOf(p, x, other)| ensures IsSource(ops, M.SourcesOf(p, x, other)[j]) {
      M.StepSource(p, s, f, x, ops, other, j);
    }
  }

  lemma StepOpFits<F>(p: Params, failed: nat, ops: seq<Combination<F>>, step: M.Step, i: nat)
    requires p.Fits() && p.k <= failed < p.n && M.LossFits(p, M.ParityLoss(p, failed)) && i < |ops| && IsParityStep(p, failed, ops, step, ops[i])
    ensures OpFits(p, failed, ops, i)
  {
    M.ParityLossFits(p, failed);
    hide M.LossFits, M.ParityLoss;
    match step
    case FirstApart => {}
    case Back(sp, node) => { BackOpFits(p, failed, ops, sp, i); }
    case Code(g) => { CodeOpFits(p, failed, ops, g, i); }
    case Apart(g) => {}
    case FirstCouple => { CoupleOpFits(p, failed, ops, step, 1, i); }
    case LaterCouple(g) => { CoupleOpFits(p, failed, ops, step, g, i); }
  }

  lemma BackOpFits<F>(p: Params, failed: nat, ops: seq<Combination<F>>, sp: nat, i: nat)
    requires p.Fits() && p.k <= failed < p.n && M.LossFits(p, M.ParityLoss(p, failed)) && i < |ops| && sp < 2
    requires IsParityStep(p, failed, ops, M.Back(sp, failed), ops[i])
    ensures OpFits(p, failed, ops, i)
  {
    BackSources(p, failed, sp);
    DataSources(p, failed, ops[i].target, ops[i].sources);
    BackNeeded(p, failed, ops, sp, ops[i]);
    hide M.LossFits, M.ParityLoss, TierOf, IsTarget, IsSource, IsParityStep, IsLost, SourceFits, M.UsedAt, M.PlainAt;
  }

  lemma BackNeeded<F>(p: Params, failed: nat, ops: seq<Combination<F>>, sp: nat, op: Combination<F>)
    requires p.Fits() && p.k <= failed < p.n && M.LossFits(p, M.ParityLoss(p, failed)) && sp < 2
    requires IsParityStep(p, failed, ops, M.Back(sp, failed), op)
    ensures op.target == M.PlainAt(p, sp, failed) && op.sources == M.UsedAt(p, M.ParityLoss(p, failed), sp)
    ensures IsLost(p, failed, op.target) || IsSource(ops, op.target)
  {
    M.ParityLossFits(p, failed);
    hide M.LossFits, M.ParityLoss, IsTarget, IsSource;
    if sp == 0 && failed == p.k + 1 {
      SourceNeeded(p, failed, ops, M.Back(sp, failed), op, M.FirstCouple, 0);
    } else if sp == 1 && failed > p.k {
      SourceNeeded(p, failed, ops, M.Back(sp, failed), op, M.LaterCouple(failed - p.k), 0);
    }
  }

  lemma SourceNeeded<F>(p: Params, failed: nat, ops: seq<Combination<F>>, step: M.Step, op: Combination<F>, other: M.Step, j: nat)
    requires p.Fits() && M.LossFits(p, M.ParityLoss(p, failed)) && IsParityStep(p, failed, ops, step, op)
    requires M.StepFits(p, M.ParityLoss(p, failed), other) && j < |M.SourcesOf(p, M.ParityLoss(p, failed), other)|
    ensures IsSource(ops, M.SourcesOf(p, M.ParityLoss(p, failed), other)[j]) && IsTarget(ops, M.PlaceOf(p, other))
  {
    hide M.LossFits, M.ParityLoss, IsTarget, IsSource, M.StepFits, M.SourcesOf, M.PlaceOf;
  }

  lemma CodeOpFits<F>(p: Params, failed: nat, ops: seq<Combination<F>>, g: nat, i: nat)
    requires p.Fits() && 1 <= g <= p.Groups() && failed == p.k + g && M.LossFits(p, M.ParityLoss(p, failed)) && i < |ops|
    requires IsParityStep(p, failed, ops, M.Code(g), ops[i])
    ensures OpFits(p, failed, ops, i)
  {
    CodeSources(p, failed, g);
    CodeNeeded(p, failed, ops, g, ops[i]);
    DataSources(p, failed, ops[i].target, ops[i].sources);
    hide M.LossFits, M.ParityLoss, TierOf, IsTarget, IsSource, IsParityStep, IsLost, SourceFits, Members, Places;
  }

  lemma CodeNeeded<F>(p: Params, failed: nat, ops: seq<Combination<F>>, g: nat, op: Combination<F>)
    requires p.Fits() && 1 <= g <= p.Groups() && failed == p.k + g && M.LossFits(p, M.ParityLoss(p, failed))
    requires IsParityStep(p, failed, ops, M.Code(g), op)
    ensures op.target == GroupAt(p, g) && op.sources == Places(p, 0, Members(p, g)) && IsSource(ops, op.target)
  {
    M.ParityLossFits(p, failed);
    hide M.LossFits, M.ParityLoss, IsTarget, IsSource, Members, Places;
    SourceNeeded(p, failed, ops, M.Code(g), op, M.LaterCouple(g), 1);
  }

  lemma CoupleOpFits<F>(p: Params, failed: nat, ops: seq<Combination<F>>, step: M.Step, g: nat, i: nat)
    requires p.Fits() && 1 <= g <= p.Groups() && failed == p.k + g && M.LossFits(p, M.ParityLoss(p, failed)) && i < |ops|
    requires (step == M.FirstCouple && g == 1) || step == M.LaterCouple(g)
    requires IsParityStep(p, failed, ops, step, ops[i])
    ensures OpFits(p, failed, ops, i)
  {
    CouplesJoined(p, failed, ops, step, g, ops[i]);
    CouplePlaces(p, failed, g);
    hide M.LossFits, M.ParityLoss, TierOf, IsTarget, IsSource, IsParityStep, IsLost, ReadIn, UncoupledAt, GroupAt, CodeAt, DataAt;
    var op := ops[i];
    assert TierOf(p, failed, op.sources[0]) == 1;
  }

  lemma CouplePlaces(p: Params, failed: nat, g: nat)
    requires p.Fits() && 1 <= g <= p.Groups() && failed == p.k + g
    ensures var a, b, code := UncoupledAt(p, 0, 1), UncoupledAt(p, 1, g), GroupAt(p, g);
            && a != b && a != code && b != code
            && !IsLost(p, failed, a) && !IsLost(p, failed, b) && !IsLost(p, failed, code)
            && TierOf(p, failed, a) == TierOf(p, failed, b) == TierOf(p, failed, code) == 1
            && ReadIn(p, failed, a) == ReadIn(p, failed, b) == ReadIn(p, failed, code) == 2
    ensures TierOf(p, failed, CodeAt(p, 1, g)) == 2 && IsLost(p, failed, CodeAt(p, 1, g))
    ensures g == 1 ==> TierOf(p, failed, CodeAt(p, 0, 1)) == 2 && IsLost(p, failed, CodeAt(p, 0, 1))
  {}

  lemma CouplesJoined<F>(p: Params, failed: nat, ops: seq<Combination<F>>, step: M.Step, g: nat, op: Combination<F>)
    requires p.Fits() && 1 <= g <= p.Groups() && failed == p.k + g && M.LossFits(p, M.ParityLoss(p, failed))
    requires (step == M.FirstCouple && g == 1) || step == M.LaterCouple(g)
    requires IsParityStep(p, failed, ops, step, op)
    ensures op.target == if step.FirstCouple? then CodeAt(p, 0, 1) else CodeAt(p, 1, g)
    ensures op.sources == if step.FirstCouple? then [UncoupledAt(p, 0, 1), UncoupledAt(p, 1, g), GroupAt(p, g)] else [UncoupledAt(p, 1, g), GroupAt(p, g)]
    ensures IsTarget(ops, UncoupledAt(p, 1, g)) && IsTarget(ops, GroupAt(p, g)) && (g == 1 ==> IsTarget(ops, UncoupledAt(p, 0, 1)))
  {
    M.ParityLossFits(p, failed);
    hide M.LossFits, M.ParityLoss, IsTarget, IsSource;
    assert IsTarget(ops, M.PlaceOf(p, M.Back(1, failed))) && IsTarget(ops, M.PlaceOf(p, M.Code(g))) && IsTarget(ops, M.PlaceOf(p, M.Back(0, failed)));
  }

  lemma FourOps<F(!new)>(p: Params, s: Solver<F>, f: GF<F>, failed: nat, g: nat)
    requires p.Fits() && failed < p.k && Invertibles(p, f, s, failed) && InGroup(p, failed, g)
    ensures |GroupRepair(p, s, f, failed, g)| == 4
  {
    hide Invertibles, InGroup;
  }

  // ---------------------------------------------------------------------------------------------
  // The same for the DAG

  /** What DAG the lemmas below are about. */
  ghost predicate RepairDag<F(!new)>(c: HHXORPlus<F>, g: Dag<F>, failed: nat, ops: seq<Combination<F>>) {
    && c.Ready() && failed < c.p.n && R.RepairsNode(c, g, failed, ops) && Closed(g)
    && (forall v | v in g && g[v].kind.Leaf? :: g[v].children == [])
  }

  ghost function PlaceAt(symbols: seq<int>, v: int): (t: nat)
    requires v in symbols
    ensures t < |symbols| && symbols[t] == v
  {
    var t: nat :| t < |symbols| && symbols[t] == v; t
  }

  ghost function TierAt<F(!new)>(c: HHXORPlus<F>, failed: nat, v: int): nat
    requires c.Ready()
  {
    if v in c.symbols then TierOf(c.p, failed, PlaceAt(c.symbols, v)) else 0
  }

  ghost function TiersOf<F(!new)>(c: HHXORPlus<F>, failed: nat, g: Dag<F>): map<int, nat>
    requires c.Ready()
  {
    map v | v in g :: TierAt(c, failed, v)
  }

  lemma TierAtIs<F(!new)>(c: HHXORPlus<F>, failed: nat, t: nat)
    requires c.Ready() && t < |c.symbols|
    ensures TierAt(c, failed, c.symbols[t]) == TierOf(c.p, failed, t)
  {
    hide Field, Solves, MatrixRight, LayoutsRight, GroupsRight, CodesRight, TierOf;
    SamePlace(c.symbols, t, PlaceAt(c.symbols, c.symbols[t]));
  }

  /** A vertex by its place, and the combination that computes it. */
  lemma VertexPlace<F(!new)>(c: HHXORPlus<F>, g: Dag<F>, failed: nat, ops: seq<Combination<F>>, v: int) returns (t: nat, i: nat)
    requires RepairDag(c, g, failed, ops) && v in g
    ensures t < |c.symbols| && c.symbols[t] == v && TierAt(c, failed, v) == TierOf(c.p, failed, t)
    ensures g[v].kind.Leaf? ==> g[v].children == [] && TierOf(c.p, failed, t) == 0
    ensures !g[v].kind.Leaf? ==> i < |ops| && ops[i].target == t && OpFits(c.p, failed, ops, i)
    ensures !g[v].kind.Leaf? ==> PlacesFit(c.symbols, ops[i].sources) && g[v].children == Ids(c.symbols, ops[i].sources)
  {
    hide Field, Solves, MatrixRight, LayoutsRight, GroupsRight, CodesRight, TierOf, OpFits, M.NodeOps, Distinct, Closed, TierAt;
    NodeFits(c.p, c.solver, c.f, failed, ops);
    assert Accounted(g, c.symbols, ops, v);
    t :| t < |c.symbols| && c.symbols[t] == v && if g[v].kind.Leaf? then IsInput(ops, t) else IsTarget(ops, t);
    TierAtIs(c, failed, t);
    i := 0;
    if g[v].kind.Leaf? {
      InputTier(c.p, failed, ops, t);
    } else {
      i :| 0 <= i < |ops| && ops[i].target == t;
      assert JoinedAs(g, c.symbols, ops[i]);
    }
  }

  lemma InputTier<F>(p: Params, failed: nat, ops: seq<Combination<F>>, t: nat)
    requires p.Fits() && (forall i | 0 <= i < |ops| :: OpFits(p, failed, ops, i)) && IsInput(ops, t)
    ensures TierOf(p, failed, t) == 0
  {
    hide TierOf, SourcesFit, IsLost;
    var i :| 0 <= i < |ops| && t in ops[i].sources;
    assert OpFits(p, failed, ops, i);
    var j :| 0 <= j < |ops[i].sources| && ops[i].sources[j] == t;
  }

  lemma ReaderPlace<F(!new)>(c: HHXORPlus<F>, g: Dag<F>, failed: nat, ops: seq<Combination<F>>, a: int, v: int) returns (t: nat, u: nat)
    requires RepairDag(c, g, failed, ops) && Reads(g, a, v)
    ensures a in g && TierAt(c, failed, a) == TierOf(c.p, failed, t)
    ensures u < |c.symbols| && c.symbols[u] == v && SourceFits(c.p, failed, t, u)
  {
    hide Field, Solves, MatrixRight, LayoutsRight, GroupsRight, CodesRight, TierOf, M.NodeOps, Distinct, Closed, TierAt, Built,
         SourceFits, IsLost;
    var i;
    t, i := VertexPlace(c, g, failed, ops, a);
    var k :| 0 <= k < |g[a].children| && g[a].children[k] == v;
    u := ops[i].sources[k];
  }

  lemma OneReadTier<F(!new)>(c: HHXORPlus<F>, g: Dag<F>, failed: nat, ops: seq<Combination<F>>, v: int, a: int, b: int)
    requires RepairDag(c, g, failed, ops) && Reads(g, a, v) && Reads(g, b, v)
    ensures SameTier(TiersOf(c, failed, g), a, b)
  {
    hide Field, Solves, MatrixRight, LayoutsRight, GroupsRight, CodesRight, TierOf, R.RepairsNode, Closed, TierAt, ReadIn, IsLost;
    var t, u := ReaderPlace(c, g, failed, ops, a, v);
    var t', u' := ReaderPlace(c, g, failed, ops, b, v);
    SamePlace(c.symbols, u, u');
  }

  lemma VertexLevel<F(!new)>(c: HHXORPlus<F>, g: Dag<F>, failed: nat, ops: seq<Combination<F>>, v: int)
    requires RepairDag(c, g, failed, ops) && v in g
    ensures v in TiersOf(c, failed, g) && S.LevelFits(g, TiersOf(c, failed, g), v)
  {
    hide Field, Solves, MatrixRight, LayoutsRight, GroupsRight, CodesRight, TierOf, R.RepairsNode, TierAt, ReadIn, IsLost, Distinct;
    var tier := TiersOf(c, failed, g);
    var t, i := VertexPlace(c, g, failed, ops, v);
    if !g[v].kind.Leaf? {
      var src := ops[i].sources;
      forall j | 0 <= j < |src| ensures g[v].children[j] in tier && tier[g[v].children[j]] == TierOf(c.p, failed, src[j]) < tier[v] {
        assert SourceFits(c.p, failed, t, src[j]);
        TierAtIs(c, failed, src[j]);
      }
      var j :| 0 <= j < |src| && TierOf(c.p, failed, src[j]) == TierOf(c.p, failed, t) - 1;
      assert tier[g[v].children[j]] == tier[v] - 1;
    }
  }

  /** Hitchhiker-XOR+'s repair DAG comes in tiers. */
  lemma HitchhikerTiered<F(!new)>(c: HHXORPlus<F>, g: Dag<F>, failed: nat, ops: seq<Combination<F>>)
    requires RepairDag(c, g, failed, ops)
    ensures Tiered(g, TiersOf(c, failed, g))
  {
    hide Field, Solves, MatrixRight, LayoutsRight, GroupsRight, CodesRight, R.RepairsNode, TierAt, Closed, S.LevelFits;
    var tier := TiersOf(c, failed, g);
    forall v | v in tier ensures S.LevelFits(g, tier, v) { VertexLevel(c, g, failed, ops, v); }
    forall v, a, b | Reads(g, a, v) && Reads(g, b, v) ensures SameTier(tier, a, b) { OneReadTier(c, g, failed, ops, v, a, b); }
  }

  ghost function BothLost<F(!new)>(c: HHXORPlus<F>, failed: nat): seq<int>
    requires c.Ready() && failed < c.p.n
  {
    [Symbol(c, 0, failed), Symbol(c, 1, failed)]
  }

  lemma LostAt<F(!new)>(c: HHXORPlus<F>, failed: nat, v: int) returns (t: nat)
    requires c.Ready() && failed < c.p.n && v in BothLost(c, failed)
    ensures t < |c.symbols| && c.symbols[t] == v && IsLost(c.p, failed, t)
  {
    hide Field, Solves, MatrixRight, LayoutsRight, GroupsRight, CodesRight, Distinct;
    t := if v == Symbol(c, 0, failed) then DataAt(c.p, 0, failed) else DataAt(c.p, 1, failed);
  }

  lemma LostIsUnread<F(!new)>(c: HHXORPlus<F>, g: Dag<F>, failed: nat, ops: seq<Combination<F>>)
    requires RepairDag(c, g, failed, ops)
    ensures Unread(g, BothLost(c, failed))
  {
    hide Field, Solves, MatrixRight, LayoutsRight, GroupsRight, CodesRight, R.RepairsNode, TierOf, ReadIn, IsLost, Closed, BothLost, Reads;
    var symbols := c.symbols;
    forall a, v | v in BothLost(c, failed) ensures !Reads(g, a, v) {
      var l := LostAt(c, failed, v);
      if Reads(g, a, v) {
        var t, u := ReaderPlace(c, g, failed, ops, a, v);
        SamePlace(symbols, l, u);
      }
    }
  }

  lemma RepairUsesAll<F(!new)>(c: HHXORPlus<F>, g: Dag<F>, failed: nat, ops: seq<Combination<F>>)
    requires RepairDag(c, g, failed, ops)
    ensures Used(g, BothLost(c, failed))
  {
    hide Field, Solves, MatrixRight, LayoutsRight, GroupsRight, CodesRight, TierOf, ReadIn, M.NodeOps, Distinct, Closed, SourcesFit;
    forall v | v in g && !g[v].kind.Leaf? && v !in BothLost(c, failed) ensures exists u :: Reads(g, u, v) {
      var t, i := VertexPlace(c, g, failed, ops, v);
      assert !IsLost(c.p, failed, t);
      var j :| 0 <= j < |ops| && t in ops[j].sources;
      var k :| 0 <= k < |ops[j].sources| && ops[j].sources[k] == t;
      assert JoinedAs(g, c.symbols, ops[j]);
      assert g[c.symbols[ops[j].target]].children[k] == v;
      assert Reads(g, c.symbols[ops[j].target], v);
    }
  }

  lemma LostInDag<F(!new)>(c: HHXORPlus<F>, g: Dag<F>, failed: nat, ops: seq<Combination<F>>)
    requires RepairDag(c, g, failed, ops)
    ensures Symbol(c, 0, failed) in g && Symbol(c, 1, failed) in g && Symbol(c, 0, failed) != Symbol(c, 1, failed)
    ensures !g[Symbol(c, 0, failed)].kind.Leaf? && !g[Symbol(c, 1, failed)].kind.Leaf?
  {
    hide Field, Solves, MatrixRight, LayoutsRight, GroupsRight, CodesRight, M.NodeOps, Closed, JoinedAs, Accounted;
    R.NodeTargets(c.p, c.f, c.solver, failed, ops);
    var i :| 0 <= i < |ops| && ops[i].target == DataAt(c.p, 0, failed);
    var j :| 0 <= j < |ops| && ops[j].target == DataAt(c.p, 1, failed);
    TargetInDag(g, c.symbols, ops, i);
    TargetInDag(g, c.symbols, ops, j);
  }

  lemma ChildrenApart<F(!new)>(c: HHXORPlus<F>, g: Dag<F>, failed: nat, ops: seq<Combination<F>>, v: int)
    requires RepairDag(c, g, failed, ops) && v in g
    ensures Distinct(g[v].children) && (g[v].kind.Leaf? <==> g[v].children == [])
  {
    hide Field, Solves, MatrixRight, LayoutsRight, GroupsRight, CodesRight, TierOf, R.RepairsNode, Closed, TierAt, SourceFits;
    var t, i := VertexPlace(c, g, failed, ops, v);
    if !g[v].kind.Leaf? {
      var src := ops[i].sources;
      forall a, b | 0 <= a < b < |src| ensures c.symbols[src[a]] != c.symbols[src[b]] {
        if c.symbols[src[a]] == c.symbols[src[b]] { SamePlace(c.symbols, src[a], src[b]); }
      }
    }
  }

  /** The symbols are indices below the limit. */
  ghost predicate SymbolsBelow(symbols: seq<int>, limit: int) {
    forall i | 0 <= i < |symbols| :: 0 <= symbols[i] < limit
  }

  /** Hitchhiker-XOR+'s repair DAG suits, if all symbols are below the limit. */
  lemma HitchhikerSuits<F(!new)>(c: HHXORPlus<F>, g: Dag<F>, failed: nat, ops: seq<Combination<F>>, limit: int)
    requires RepairDag(c, g, failed, ops) && SymbolsBelow(c.symbols, limit)
    ensures Suits(g, BothLost(c, failed), limit)
  {
    hide Field, Solves, MatrixRight, LayoutsRight, GroupsRight, CodesRight, R.RepairsNode, Closed, Tiered, Used, Unread, Symbol, TierOf;
    HitchhikerTiered(c, g, failed, ops);
    LostIsUnread(c, g, failed, ops);
    RepairUsesAll(c, g, failed, ops);
    LostInDag(c, g, failed, ops);
    forall v | v in g ensures Distinct(g[v].children) && (g[v].kind.Leaf? <==> g[v].children == []) && 0 <= v < limit {
      ChildrenApart(c, g, failed, ops, v);
      var t, i := VertexPlace(c, g, failed, ops, v);
    }
  }
}
