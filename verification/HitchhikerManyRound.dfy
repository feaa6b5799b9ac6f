/** The repair property of DecodeMultiple: from k nodes of an encoded stripe, every lost node comes back. */
module HitchhikerManyRounds {
  import opened Computing
  import opened Dags
  import opened Galois
  import opened HitchhikerDag
  import opened HitchhikerMany
  import opened HitchhikerRepair
  import opened HitchhikerRounds
  import opened HitchhikerSpec
  import opened Hitchhikers
  import P = Pruning

  /** The DAG is the one that DecodeMultiple builds, and the rows it selects can be solved. */
  ghost predicate RepairsMany<F(!new)>(c: HHXORPlus<F>, g: Dag<F>, x: Loss, ops: seq<Combination<F>>)
    requires c.Ready()
  {
    Solvable(c.p, c.f, c.solver, x) && IsMany(c.p, c.solver, c.f, x, ops) && Built(g, c.symbols, ops)
  }

  lemma InvertibleInverted<F(!new)>(p: Params, f: GF<F>, s: Solver<F>, x: Loss)
    requires Solves(f, s) && |x.data| + |x.parities| == p.k && Invertible(f, UsedRows(p, f, x))
    ensures RowsInverted(p, f, s, x)
  {
    hide IsInverse, Invertible, UsedRows;
    InvertedBy(f, s, UsedRows(p, f, x));
  }

  /** Whenever the selected rows can be inverted: for any stripe that solves Encode's DAG and any evaluation of
      DecodeMultiple's DAG that starts from the stripe's symbols at the leaves, both sub-packets of each lost node
      come out as they were. */
  lemma ManyRecovers<F(!new)>(c: HHXORPlus<F>, encoded: Dag<F>, decoded: Dag<F>, rank: map<int, nat>, x: Loss, ops: seq<Combination<F>>,
                              stripe: int -> F, value: int -> F, sp: nat, node: nat)
    requires c.Ready() && Built(encoded, c.symbols, EncodeOps(c.p, c.f)) && Computes(c.f, encoded, stripe)
    requires RepairsMany(c, decoded, x, ops) && Closed(decoded) && Ranked(decoded, rank) && Computes(c.f, decoded, value)
    requires |x.data| + |x.parities| == c.p.k && Invertible(c.f, UsedRows(c.p, c.f, x))
    requires forall v | v in decoded && decoded[v].kind.Leaf? :: value(v) == stripe(v)
    requires sp < 2 && node in x.lost && node < c.p.n
    ensures var lost := Symbol(c, sp, node);
            lost in decoded && !decoded[lost].kind.Leaf? && value(lost) == stripe(lost)
  {
    hide Field, Solves, MatrixRight, LayoutsRight, GroupsRight, CodesRight, Built, Computes, IsMany, EncodeOps, Stripe, Closed, Ranked, Distinct,
         ByPlace, Meets, IsTarget, LossFits, UsedRows, Invertible;
    var p, f, symbols := c.p, c.f, c.symbols;
    EncodedMet(f, encoded, symbols, EncodeOps(p, f), stripe);
    EncodeIsStripe(p, f, ByPlace(symbols, stripe));
    InvertibleInverted(p, f, c.solver, x);
    ManyMet(p, f, c.solver, ByPlace(symbols, stripe), x, ops);
    MeetsComputes(f, decoded, symbols, ops, stripe);
    LostComputed(p, f, c.solver, x, ops, sp, node);
    TargetComputed(decoded, symbols, ops, DataAt(p, sp, node));
    SameFromLeaves(f, decoded, rank, value, stripe, symbols[DataAt(p, sp, node)]);
  }

  /** Encode a stripe from any data, lose any nodes, repair them from k others: all of them come back. */
  lemma ManyRoundTrip<F(!new)>(c: HHXORPlus<F>, encoded: Dag<F>, rankE: map<int, nat>, decoded: Dag<F>, rankD: map<int, nat>, x: Loss,
                               ops: seq<Combination<F>>, data: int -> F, sp: nat, node: nat)
    requires c.Ready() && Built(encoded, c.symbols, EncodeOps(c.p, c.f)) && Closed(encoded) && Ranked(encoded, rankE)
    requires RepairsMany(c, decoded, x, ops) && Closed(decoded) && Ranked(decoded, rankD)
    requires |x.data| + |x.parities| == c.p.k && Invertible(c.f, UsedRows(c.p, c.f, x)) && sp < 2 && node in x.lost && node < c.p.n
    ensures var stripe, lost := P.Values(encoded, rankE, Combine(c.f), data), Symbol(c, sp, node);
            P.Values(decoded, rankD, Combine(c.f), stripe)(lost) == stripe(lost)
  {
    hide *;
    var stripe := P.Values(encoded, rankE, Combine(c.f), data);
    P.ValuesSolve(encoded, rankE, Combine(c.f), data);
    P.ValuesSolve(decoded, rankD, Combine(c.f), stripe);
    ComputesIs(c.f, encoded, stripe);
    ComputesIs(c.f, decoded, P.Values(decoded, rankD, Combine(c.f), stripe));
    ManyRecovers(c, encoded, decoded, rankD, x, ops, stripe, P.Values(decoded, rankD, Combine(c.f), stripe), sp, node);
  }

  /** The leaves are exactly the symbols that the repair is said to read. */
  lemma ManyLeavesExact<F(!new)>(c: HHXORPlus<F>, g: Dag<F>, x: Loss, ops: seq<Combination<F>>, place: nat)
    requires c.Ready() && RepairsMany(c, g, x, ops) && Closed(g) && x.lost != [] && place < |c.symbols|
    ensures c.symbols[place] in g && g[c.symbols[place]].kind.Leaf? <==> IsRead(c.p, x, place)
  {
    hide Field, Solves, MatrixRight, LayoutsRight, GroupsRight, CodesRight, Built, IsMany, Closed, Distinct, LossFits, UsedRows, IsInput, IsRead;
    LeafIff(g, c.symbols, ops, place);
    ManyInputIff(c.p, c.solver, c.f, x, ops, place);
  }

  /** With every data node at hand the rows are the unit rows, so the inverse exists, and nothing but the data is read. */
  lemma AllDataAtHand<F(!new)>(p: Params, f: GF<F>, x: Loss, place: nat)
    requires Field(f) && LossFits(p, x) && |x.data| == p.k
    ensures p.Fits() && |x.data| + |x.parities| == p.k && Invertible(f, UsedRows(p, f, x))
    ensures IsRead(p, x, place) <==> place < p.k || p.n <= place < p.n + p.k
  {
    hide *;
    LossSize(p, x);
    AllData(p, x);
    UnitRows(p, f, x);
    DataRead(p, x, place);
  }

  lemma DataRead(p: Params, x: Loss, place: nat)
    requires p.Fits() && x.parities == [] && forall d: nat :: d in x.data <==> d < p.k
    ensures IsRead(p, x, place) <==> place < p.k || p.n <= place < p.n + p.k
  {
    hide Members;
    if place < p.k {
      UsedAreRead(p, x, place);
    } else if p.n <= place < p.n + p.k {
      UsedAreRead(p, x, place - p.n);
    }
    if g: nat :| 1 <= g <= p.Groups() && place in Members(p, g) {
      MemberBelow(p, g, place);
    }
  }

  lemma MemberBelow(p: Params, g: nat, place: nat)
    requires p.Fits() && 1 <= g <= p.Groups() && place in Members(p, g)
    ensures place < p.k
  {
    hide Average, Start, End;
  }

  lemma {:induction false} FullRange(s: seq<nat>, n: nat, i: nat)
    requires Ascending(s) && |s| == n && (forall j | 0 <= j < n :: s[j] < n) && i < n
    ensures s[i] == i
  {
    AtLeast(s, i);
    AtMost(s, n, i);
  }

  lemma {:induction false} AtLeast(s: seq<nat>, i: nat)
    requires Ascending(s) && i < |s|
    ensures s[i] >= i
  {
    if i > 0 { AtLeast(s, i - 1); }
  }

  lemma {:induction false} AtMost(s: seq<nat>, n: nat, i: nat)
    requires Ascending(s) && |s| == n && (forall j | 0 <= j < n :: s[j] < n) && i < n
    ensures s[i] <= i
    decreases n - i
  {
    if i < n - 1 { AtMost(s, n, i + 1); }
  }

  lemma AllData(p: Params, x: Loss)
    requires LossFits(p, x) && |x.data| == p.k
    ensures x.parities == [] && |x.data| + |x.parities| == p.k && (forall i | 0 <= i < p.k :: x.data[i] == i == x.Used(i))
    ensures forall d: nat :: d in x.data <==> d < p.k
  {
    forall i | 0 <= i < p.k ensures x.data[i] == i { FullRange(x.data, p.k, i); }
    forall d: nat ensures d in x.data <==> d < p.k {
      if d < p.k { assert x.data[d] == d; }
    }
  }

  lemma UnitRows<F(!new)>(p: Params, f: GF<F>, x: Loss)
    requires Field(f) && LossFits(p, x) && |x.data| == p.k && |x.data| + |x.parities| == p.k
    ensures Invertible(f, UsedRows(p, f, x))
  {
    AllData(p, x);
    hide Field, LossFits, Dot, Row, MatVec;
    var m := UsedRows(p, f, x);
    forall v: seq<F> | |v| == |m| ensures MatVec(f, m, MatVec(f, m, v)) == v {
      UnitActs(p, f, m, v);
      UnitActs(p, f, m, MatVec(f, m, v));
    }
    assert IsInverse(f, m, m);
  }

  lemma UnitActs<F(!new)>(p: Params, f: GF<F>, m: seq<seq<F>>, v: seq<F>)
    requires Field(f) && |m| == |v| == p.k && forall i | 0 <= i < p.k :: m[i] == Row(f, p.k, i)
    ensures MatVec(f, m, v) == v
  {
    hide Field, Dot, Row;
    forall i | 0 <= i < p.k ensures MatVec(f, m, v)[i] == v[i] { UnitRow(f, p.k, i, v); }
  }

  // ---------------------------------------------------------------------------------------------
  // A single node

  ghost predicate RepairsNode<F(!new)>(c: HHXORPlus<F>, g: Dag<F>, failed: nat, ops: seq<Combination<F>>)
    requires c.Ready() && failed < c.p.n
  {
    NodeOps(c.p, c.solver, c.f, failed, ops) && Built(g, c.symbols, ops)
  }

  lemma ParityInverted<F(!new)>(p: Params, f: GF<F>, s: Solver<F>, failed: nat)
    requires Field(f) && Solves(f, s) && p.Fits() && p.k <= failed < p.n
    ensures Solvable(p, f, s, ParityLoss(p, failed)) && RowsInverted(p, f, s, ParityLoss(p, failed))
  {
    ParityLossFits(p, failed);
    UnitRows(p, f, ParityLoss(p, failed));
    InvertibleInverted(p, f, s, ParityLoss(p, failed));
    hide Field, Solves, LossFits, UsedRows, MatVec;
  }

  lemma NodeMet<F(!new)>(p: Params, f: GF<F>, s: Solver<F>, w: nat -> F, failed: nat, ops: seq<Combination<F>>)
    requires Field(f) && Solves(f, s) && p.Fits() && failed < p.n && NodeOps(p, s, f, failed, ops)
    requires Stripe(p, f, w) && Meets(f, w, AllCouples(p, f))
    ensures AllMet(f, w, ops)
  {
    hide Field, Solves, Stripe, Meets, Solvable, IsMany, IsRepair, Invertibles, AllCouples, RowsInverted;
    if failed < p.k {
      RepairMet(p, f, s, w, failed, ops);
    } else {
      ParityInverted(p, f, s, failed);
      ManyMet(p, f, s, w, ParityLoss(p, failed), ops);
    }
  }

  /** Both sub-packets are computed, and the last virtual symbol is not read without being computed. */
  lemma NodeTargets<F(!new)>(p: Params, f: GF<F>, s: Solver<F>, failed: nat, ops: seq<Combination<F>>)
    requires p.Fits() && failed < p.n && NodeOps(p, s, f, failed, ops)
    ensures IsTarget(ops, DataAt(p, 0, failed)) && IsTarget(ops, DataAt(p, 1, failed)) && !IsInput(ops, LastAt(p))
  {
    hide Solvable, IsMany, IsRepair, Invertibles, IsTarget, IsInput, IsRead, ParityLoss;
    if failed < p.k {
      RepairTargets(p, f, s, failed, ops);
    } else {
      var x := ParityLoss(p, failed);
      ParityLossFits(p, failed);
      LostComputed(p, f, s, x, ops, 0, failed);
      LostComputed(p, f, s, x, ops, 1, failed);
      LostSome(p, failed);
      ManyInputIff(p, s, f, x, ops, LastAt(p));
      ParityData(p, failed);
      DataRead(p, x, LastAt(p));
    }
  }

  lemma LostSome(p: Params, failed: nat)
    ensures ParityLoss(p, failed).lost != []
  {}

  lemma ParityData(p: Params, failed: nat)
    ensures var x := ParityLoss(p, failed); x.parities == [] && forall d: nat :: d in x.data <==> d < p.k
  {
    var x := ParityLoss(p, failed);
    forall d: nat ensures d in x.data <==> d < p.k {
      if d < p.k { assert x.data[d] == d; }
    }
  }

  /** The leaves of a parity node's repair are exactly the symbols that GetRequiredSymbolsSingle lists for it. */
  lemma ParityLeavesExact<F(!new)>(c: HHXORPlus<F>, g: Dag<F>, failed: nat, ops: seq<Combination<F>>, v: int)
    requires c.Ready() && c.p.k <= failed < c.p.n && RepairsNode(c, g, failed, ops) && Closed(g)
    ensures |c.data_layout| == 2
    ensures v in g && g[v].kind.Leaf? <==> v in c.data_layout[0] + c.data_layout[1]
  {
    hide Field, Solves, MatrixRight, LayoutsRight, GroupsRight, CodesRight, Built, IsMany, Closed, Distinct, LossFits, UsedRows, IsInput, IsRead,
         JoinedAs, Solvable, ParityLoss, Accounted;
    DataSymbols(c, v);
    if v in g {
      var place := LeafPlace(c, g, ops, v);
      ParityLeaf(c, g, failed, ops, place);
      DataPlace(c, place);
    } else if v in c.data_layout[0] + c.data_layout[1] {
      var place: nat :| place < |c.symbols| && c.symbols[place] == v && (place < c.p.k || c.p.n <= place < c.p.n + c.p.k);
      ParityLeaf(c, g, failed, ops, place);
    }
  }

  lemma LeafPlace<F(!new)>(c: HHXORPlus<F>, g: Dag<F>, ops: seq<Combination<F>>, v: int) returns (place: nat)
    requires Built(g, c.symbols, ops) && v in g
    ensures place < |c.symbols| && c.symbols[place] == v
  {
    hide JoinedAs, IsInput, IsTarget;
    assert Accounted(g, c.symbols, ops, v);
    place :| place < |c.symbols| && c.symbols[place] == v;
  }

  lemma ParityLeaf<F(!new)>(c: HHXORPlus<F>, g: Dag<F>, failed: nat, ops: seq<Combination<F>>, place: nat)
    requires c.Ready() && c.p.k <= failed < c.p.n && RepairsNode(c, g, failed, ops) && Closed(g) && place < |c.symbols|
    ensures c.symbols[place] in g && g[c.symbols[place]].kind.Leaf? <==> place < c.p.k || c.p.n <= place < c.p.n + c.p.k
  {
    hide Field, Solves, MatrixRight, LayoutsRight, GroupsRight, CodesRight, Built, IsMany, Closed, Distinct, Solvable, IsRead, ParityLoss;
    LostSome(c.p, failed);
    ManyLeavesExact(c, g, ParityLoss(c.p, failed), ops, place);
    ParityData(c.p, failed);
    DataRead(c.p, ParityLoss(c.p, failed), place);
  }

  lemma DataSymbols<F(!new)>(c: HHXORPlus<F>, v: int)
    requires c.Ready()
    ensures |c.data_layout| == 2
    ensures v in c.data_layout[0] + c.data_layout[1] ==>
              exists place: nat :: place < |c.symbols| && c.symbols[place] == v && (place < c.p.k || c.p.n <= place < c.p.n + c.p.k)
  {
    hide Field, Solves, MatrixRight, GroupsRight, CodesRight, Distinct;
    if v in c.data_layout[0] {
      var i: nat :| i < c.p.k && c.data_layout[0][i] == v;
      assert c.symbols[DataAt(c.p, 0, i)] == v;
    } else if v in c.data_layout[1] {
      var i: nat :| i < c.p.k && c.data_layout[1][i] == v;
      assert c.symbols[DataAt(c.p, 1, i)] == v;
    }
  }

  /** Different places have different symbols. */
  lemma DataPlace<F(!new)>(c: HHXORPlus<F>, place: nat)
    requires c.Ready() && place < |c.symbols|
    ensures |c.data_layout| == 2
    ensures c.symbols[place] in c.data_layout[0] + c.data_layout[1] <==> place < c.p.k || c.p.n <= place < c.p.n + c.p.k
  {
    hide Field, Solves, MatrixRight, GroupsRight, CodesRight, Distinct;
    DataSymbols(c, c.symbols[place]);
    if c.symbols[place] in c.data_layout[0] + c.data_layout[1] {
      var other: nat :| other < |c.symbols| && c.symbols[other] == c.symbols[place] && (other < c.p.k || c.p.n <= other < c.p.n + c.p.k);
      SamePlace(c.symbols, place, other);
    }
    if place < c.p.k {
      assert c.data_layout[0][place] == c.symbols[DataAt(c.p, 0, place)];
    } else if c.p.n <= place < c.p.n + c.p.k {
      assert c.data_layout[1][place - c.p.n] == c.symbols[DataAt(c.p, 1, place - c.p.n)];
    }
  }
}
