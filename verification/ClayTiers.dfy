/** The four tiers of Clay's repair DAG: sub-chunks of other nodes, uncoupled symbols of the other columns, what comes
    out of the outer code, and the lost sub-chunks that need a helper's pair. */
module ClayTiers {
  import opened ClayDag
  import opened ClayMeaning
  import opened ClayRepair
  import opened ClaySpec
  import opened ClaySteps
  import opened Clays
  import opened Dags
  import opened Galois
  import opened Planes
  import opened Tiers
  import S = Sorting

  /** With a single row nothing is paired, and the outer code reads sub-chunks of other nodes only. */
  ghost function CodeTier(p: Params): nat {
    if p.q == 1 then 1 else 2
  }

  ghost function TierOf(p: Params, mode: Mode, s: Sub): nat
    requires Fits(p) && ModeFits(p, mode) && InCode(p, s)
  {
    match KindOf(p, mode, s)
    case FromPair => 1
    case FromCode => CodeTier(p)
    case FromHelper => 3
    case _ => 0
  }

  /** The tier of whatever reads a sub-chunk. */
  ghost function ReadIn(p: Params, mode: Mode, s: Sub): nat
    requires Fits(p) && ModeFits(p, mode) && mode.Repairing? && InCode(p, s)
  {
    if Col(p, s.node) == Erased(p, mode) then 3
    else if !s.coupled then 2
    else if Paired(p, s) then 1
    else CodeTier(p)
  }

  ghost predicate IsLost(mode: Mode, s: Sub)
    requires mode.Repairing?
  {
    s.coupled && s.node == mode.lost
  }

  /** What s is computed from: lower tiers, at least one of them the next, and nothing lost. */
  ghost predicate SourceFits(p: Params, mode: Mode, s: Sub, u: Sub)
    requires Fits(p) && ModeFits(p, mode) && mode.Repairing? && InCode(p, s)
  {
    && InCode(p, u) && !IsLost(mode, u)
    && TierOf(p, mode, u) < TierOf(p, mode, s) == ReadIn(p, mode, u)
  }

  ghost function Sources<F(!new)>(c: Clay<F>, mode: Mode, s: Sub): seq<Sub>
    requires c.Ready() && ModeFits(c.p, mode) && InCode(c.p, s)
  {
    Rule(c.p, c.f, c.invert, mode, s).0
  }

  ghost predicate SourcesFit<F(!new)>(c: Clay<F>, mode: Mode, s: Sub)
    requires c.Ready() && ModeFits(c.p, mode) && mode.Repairing? && InCode(c.p, s)
  {
    var cs := Sources(c, mode, s);
    && (forall i | 0 <= i < |cs| :: SourceFits(c.p, mode, s, cs[i]))
    && (exists i :: 0 <= i < |cs| && SourceFits(c.p, mode, s, cs[i]) && TierOf(c.p, mode, cs[i]) == TierOf(c.p, mode, s) - 1)
    && Distinct(cs)
  }

  lemma PairSources<F(!new)>(c: Clay<F>, mode: Mode, s: Sub)
    requires c.Ready() && ModeFits(c.p, mode) && mode.Repairing? && InCode(c.p, s) && KindOf(c.p, mode, s) == FromPair
    ensures SourcesFit(c, mode, s)
  {
    hide Inverts, Field, MapsRight, IdenticalRight, Digit, Partner, First, Paired;
    var p := c.p;
    PartnerPlace(p, s);
    PartnerOrder(p, s);
    NodeFits(p, mode.lost);
    NodeFits(p, s.node);
    var r := Partner(p, s);
    var a, b := Sub(true, s.node, s.z), Sub(true, r.node, r.z);
    SameFlags(p, s, true);
    SameFlags(p, r, true);
    PairApart(p, s);
    assert SourceFits(p, mode, s, a) && SourceFits(p, mode, s, b);
    TwoSources(c, mode, s, a, b);
  }

  lemma PairApart(p: Params, s: Sub)
    requires Fits(p) && InCode(p, s) && Paired(p, s)
    ensures Partner(p, s).node != s.node
  {
    hide Digit;
    NodeFits(p, s.node);
    PartnerPlace(p, s);
  }

  lemma TwoSources<F(!new)>(c: Clay<F>, mode: Mode, s: Sub, a: Sub, b: Sub)
    requires c.Ready() && ModeFits(c.p, mode) && mode.Repairing? && InCode(c.p, s) && a != b
    requires Sources(c, mode, s) == [a, b] || Sources(c, mode, s) == [b, a]
    requires SourceFits(c.p, mode, s, a) && SourceFits(c.p, mode, s, b) && TierOf(c.p, mode, b) == TierOf(c.p, mode, s) - 1
    ensures SourcesFit(c, mode, s)
  {
    hide Inverts, Field, MapsRight, IdenticalRight, SourceFits, TierOf, Rule, Sources;
    var cs := Sources(c, mode, s);
    assert cs[if cs == [a, b] then 1 else 0] == b;
  }

  lemma HelperSources<F(!new)>(c: Clay<F>, mode: Mode, s: Sub)
    requires c.Ready() && ModeFits(c.p, mode) && mode.Repairing? && InCode(c.p, s) && KindOf(c.p, mode, s) == FromHelper
    ensures SourcesFit(c, mode, s)
  {
    hide Inverts, Field, MapsRight, IdenticalRight, Digit, Partner, First, Paired, PairCoefs;
    var p := c.p;
    HelperOf(p, mode, s);
    PartnerPlace(p, s);
    PartnerOrder(p, s);
    var r := Partner(p, s);
    SameFlags(p, r, false);
    PairedRows(p, s);
    var u := Sub(false, r.node, r.z);
    assert SourceFits(p, mode, s, r) && SourceFits(p, mode, s, u);
    TwoSources(c, mode, s, r, u);
  }

  lemma PairedRows(p: Params, s: Sub)
    requires Fits(p) && InCode(p, s) && Paired(p, s)
    ensures p.q > 1
  {
    hide Digits;
    NodeFits(p, s.node);
  }

  lemma CodeSources<F(!new)>(c: Clay<F>, mode: Mode, s: Sub)
    requires c.Ready() && ModeFits(c.p, mode) && mode.Repairing? && InCode(c.p, s) && KindOf(c.p, mode, s) == FromCode
    ensures SourcesFit(c, mode, s)
  {
    hide Inverts, Field, MapsRight, IdenticalRight, Digit, Partner, First, Others, CodeCoefs, Paired;
    var p := c.p;
    var y := Erased(p, mode);
    OthersFit(p, y);
    CodeActive(p, mode, s);
    var cs := Sources(c, mode, s);
    forall i | 0 <= i < |cs| ensures cs[i] == Ua(p, Others(p, y)[i], s.z) && SourceFits(p, mode, s, cs[i]) && TierOf(p, mode, cs[i]) == if Paired(p, cs[i]) then 1 else 0 {
      UncoupledSource(p, mode, s, Others(p, y)[i]);
    }
    SurvivorsApart(p, y, s.z);
    var at := 0;
    if p.q > 1 { at := PairedOther(c, y, s.z); }
    assert SourceFits(p, mode, s, cs[at]);
  }

  lemma CodeActive(p: Params, mode: Mode, s: Sub)
    requires Fits(p) && ModeFits(p, mode) && mode.Repairing? && InCode(p, s) && KindOf(p, mode, s) == FromCode
    ensures Active(p, mode, s.z) && Col(p, s.node) == Erased(p, mode)
  {
    hide Digit;
    NodeFits(p, mode.lost);
  }

  lemma UncoupledSource(p: Params, mode: Mode, s: Sub, node: nat)
    requires Fits(p) && ModeFits(p, mode) && mode.Repairing? && InCode(p, s) && KindOf(p, mode, s) == FromCode && Active(p, mode, s.z)
    requires node < p.Total() && Col(p, node) != Erased(p, mode)
    ensures var u := Ua(p, node, s.z); SourceFits(p, mode, s, u) && TierOf(p, mode, u) == if Paired(p, u) then 1 else 0
  {
    hide Digit, Paired;
    NodeFits(p, mode.lost);
    var u := Ua(p, node, s.z);
    SameFlags(p, u, false);
    if Paired(p, u) { PairedRows(p, u); }
  }

  lemma SurvivorsApart(p: Params, y: nat, z: nat)
    requires Fits(p) && y < p.t && z < p.w
    ensures Distinct(Survivors(p, y, z))
  {
    hide Paired;
    OthersFit(p, y);
    var cs := Survivors(p, y, z);
    forall i, j | 0 <= i < j < |cs| ensures cs[i].node != cs[j].node {
      assert Others(p, y)[i] != Others(p, y)[j];
    }
  }

  /** With two rows or more, some survivor of every plane is paired. */
  lemma PairedOther<F(!new)>(c: Clay<F>, y: nat, z: nat) returns (i: nat)
    requires c.Ready() && y < c.p.t && z < c.p.w && c.p.q > 1
    ensures i < |Others(c.p, y)| && Others(c.p, y)[i] < c.p.Total() && Paired(c.p, Ua(c.p, Others(c.p, y)[i], z))
  {
    hide Inverts, Field, MapsRight, IdenticalRight, Digit, Others;
    var p := c.p;
    var col := if y == 0 then 1 else 0;
    var x := if Digit(p, z, col) == 0 then 1 else 0;
    NodeOf(p, x, col);
    i := PlaceAmongOthers(c, y, col * p.q + x);
    OthersFit(p, y);
    assert Paired(p, Ua(p, col * p.q + x, z));
  }

  /** Every Join of the repair reads lower tiers, and only vertices that are read in its own tier. */
  lemma AllSourcesFit<F(!new)>(c: Clay<F>, mode: Mode, s: Sub)
    requires c.Ready() && ModeFits(c.p, mode) && mode.Repairing? && InCode(c.p, s) && KindOf(c.p, mode, s) != Nothing
    ensures SourcesFit(c, mode, s)
  {
    hide SourcesFit, Inverts, Field, MapsRight, IdenticalRight, Paired;
    if KindOf(c.p, mode, s) == FromPair { PairSources(c, mode, s); }
    else if KindOf(c.p, mode, s) == FromCode { CodeSources(c, mode, s); }
    else { HelperSources(c, mode, s); }
  }

  // ---------------------------------------------------------------------------------------------
  // The same for the DAG

  ghost predicate IsSub(p: Params, s: Sub, v: int) {
    InCode(p, s) && Id(p, s) == v
  }

  ghost function TierAt(p: Params, mode: Mode, v: int): nat
    requires Fits(p) && ModeFits(p, mode)
  {
    if exists s :: IsSub(p, s, v) then TierOf(p, mode, SubAt(p, v)) else 0
  }

  ghost function SubAt(p: Params, v: int): (s: Sub)
    requires exists s :: IsSub(p, s, v)
    ensures InCode(p, s) && Id(p, s) == v
  {
    var s :| IsSub(p, s, v); s
  }

  ghost function TiersOf<F(!new)>(c: Clay<F>, mode: Mode, g: Dag<F>): (r: map<int, nat>)
    requires c.Ready() && ModeFits(c.p, mode)
  {
    map v | v in g :: TierAt(c.p, mode, v)
  }

  lemma TierAtIs(p: Params, mode: Mode, s: Sub)
    requires Fits(p) && ModeFits(p, mode) && InCode(p, s)
    ensures TierAt(p, mode, Id(p, s)) == TierOf(p, mode, s)
  {
    hide Id, TierOf;
    assert IsSub(p, s, Id(p, s));
    IdInjective(p, s, SubAt(p, Id(p, s)));
  }

  ghost predicate LeavesBare<F>(g: Dag<F>) {
    forall v | v in g && g[v].kind.Leaf? :: g[v].children == []
  }

  /** What DAG the lemmas below are about. */
  ghost predicate RepairDag<F(!new)>(c: Clay<F>, mode: Mode, g: Dag<F>) {
    c.Ready() && ModeFits(c.p, mode) && mode.Repairing? && c.Holds(g, mode) && Closed(g) && LeavesBare(g)
  }

  lemma VertexSub<F(!new)>(c: Clay<F>, mode: Mode, g: Dag<F>, v: int) returns (s: Sub)
    requires RepairDag(c, mode, g) && v in g
    ensures InCode(c.p, s) && Id(c.p, s) == v && TierAt(c.p, mode, v) == TierOf(c.p, mode, s)
    ensures g[v].kind.Leaf? ==> g[v].children == [] && TierOf(c.p, mode, s) == 0
    ensures !g[v].kind.Leaf? ==> KindOf(c.p, mode, s) != Nothing && g[v].children == Ids(c.p, Sources(c, mode, s)) && SourcesFit(c, mode, s)
  {
    hide Inverts, Field, MapsRight, IdenticalRight, Id, KindOf, Given, Rule, SourcesFit;
    assert c.Explained(g, mode, v);
    s :| InCode(c.p, s) && Id(c.p, s) == v && (if g[v].kind.Leaf? then Given(c.p, mode, s) else KindOf(c.p, mode, s) != Nothing);
    TierAtIs(c.p, mode, s);
    if g[v].kind.Leaf? {
      if KindOf(c.p, mode, s) != Nothing { NotGiven(c.p, mode, s); }
    } else {
      assert JoinedAs(c.p, c.f, c.invert, mode, g, s);
      AllSourcesFit(c, mode, s);
    }
  }

  /** Whoever reads v reads it as the sub-chunk that v is. */
  lemma ReaderSub<F(!new)>(c: Clay<F>, mode: Mode, g: Dag<F>, a: int, v: int) returns (s: Sub, u: Sub)
    requires RepairDag(c, mode, g) && Reads(g, a, v)
    ensures InCode(c.p, s) && a in g && TierAt(c.p, mode, a) == TierOf(c.p, mode, s)
    ensures InCode(c.p, u) && Id(c.p, u) == v && SourceFits(c.p, mode, s, u)
  {
    hide Inverts, Field, MapsRight, IdenticalRight, Id, KindOf, TierOf, Sources, SourceFits;
    s := VertexSub(c, mode, g, a);
    var i :| 0 <= i < |g[a].children| && g[a].children[i] == v;
    u := Sources(c, mode, s)[i];
    assert SourceFits(c.p, mode, s, u);
    hide InCode;
    SourceIn(c.p, mode, s, u);
  }

  lemma SourceIn(p: Params, mode: Mode, s: Sub, u: Sub)
    requires Fits(p) && ModeFits(p, mode) && mode.Repairing? && InCode(p, s) && SourceFits(p, mode, s, u)
    ensures InCode(p, u)
  {}

  lemma OneReadTier<F(!new)>(c: Clay<F>, mode: Mode, g: Dag<F>, v: int, a: int, b: int)
    requires RepairDag(c, mode, g) && Reads(g, a, v) && Reads(g, b, v)
    ensures SameTier(TiersOf(c, mode, g), a, b)
  {
    hide Inverts, Field, MapsRight, IdenticalRight, Id, KindOf, TierOf, TierAt, c.Holds, LeavesBare, Closed, ReadIn;
    var s, u := ReaderSub(c, mode, g, a, v);
    var s', u' := ReaderSub(c, mode, g, b, v);
    IdInjective(c.p, u, u');
  }

  lemma VertexLevel<F(!new)>(c: Clay<F>, mode: Mode, g: Dag<F>, v: int)
    requires RepairDag(c, mode, g) && v in g
    ensures v in TiersOf(c, mode, g) && S.LevelFits(g, TiersOf(c, mode, g), v)
  {
    hide Inverts, Field, MapsRight, IdenticalRight, Id, KindOf, TierOf, TierAt, c.Holds, LeavesBare, Sources, ReadIn, InCode, IsLost;
    var tier := TiersOf(c, mode, g);
    var s := VertexSub(c, mode, g, v);
    if !g[v].kind.Leaf? {
      var cs := Sources(c, mode, s);
      forall i | 0 <= i < |g[v].children| ensures g[v].children[i] in tier && tier[g[v].children[i]] == TierOf(c.p, mode, cs[i]) < tier[v] {
        assert SourceFits(c.p, mode, s, cs[i]);
        TierAtIs(c.p, mode, cs[i]);
      }
      var i :| 0 <= i < |cs| && SourceFits(c.p, mode, s, cs[i]) && TierOf(c.p, mode, cs[i]) == TierOf(c.p, mode, s) - 1;
      assert tier[g[v].children[i]] == tier[v] - 1;
    }
  }

  /** Clay's repair DAG comes in tiers. */
  lemma ClayTiered<F(!new)>(c: Clay<F>, mode: Mode, g: Dag<F>)
    requires RepairDag(c, mode, g)
    ensures Tiered(g, TiersOf(c, mode, g))
  {
    hide Inverts, Field, MapsRight, IdenticalRight, TierAt, c.Holds, LeavesBare, Closed, S.LevelFits;
    var tier := TiersOf(c, mode, g);
    forall v | v in tier ensures S.LevelFits(g, tier, v) { VertexLevel(c, mode, g, v); }
    forall v, a, b | Reads(g, a, v) && Reads(g, b, v) ensures SameTier(tier, a, b) { OneReadTier(c, mode, g, v, a, b); }
  }

  /** The sub-packets of a block. */
  ghost function SubPacketsOf(lost: nat, w: nat): (r: seq<int>)
    ensures |r| == w && forall z | 0 <= z < w :: r[z] == Flat(lost, w, z)
  {
    seq(w, z requires 0 <= z < w => Flat(lost, w, z))
  }

  lemma LostAt<F(!new)>(c: Clay<F>, lost: nat, v: int) returns (s: Sub)
    requires c.Ready() && lost < c.p.n && v in SubPacketsOf(lost, c.p.w)
    ensures ModeFits(c.p, Repairing(c.ShortNode(lost))) && InCode(c.p, s) && Id(c.p, s) == v && IsLost(Repairing(c.ShortNode(lost)), s)
  {
    hide Inverts, Field, MapsRight, IdenticalRight, Flat, Id;
    c.ShortNodeFits(lost);
    var to := SubPacketsOf(lost, c.p.w);
    var z :| 0 <= z < |to| && to[z] == v;
    LostIndex(c, lost, z);
    s := Sub(true, c.ShortNode(lost), z);
  }

  lemma LostIsUnread<F(!new)>(c: Clay<F>, g: Dag<F>, lost: nat)
    requires c.Ready() && lost < c.p.n && RepairDag(c, Repairing(c.ShortNode(lost)), g)
    ensures Unread(g, SubPacketsOf(lost, c.p.w))
  {
    hide Inverts, Field, MapsRight, IdenticalRight, c.Holds, LeavesBare, Closed, SubPacketsOf, InCode, Id, Reads, TierOf, ReadIn;
    var mode := Repairing(c.ShortNode(lost));
    forall a, v | v in SubPacketsOf(lost, c.p.w) ensures !Reads(g, a, v) {
      var l := LostAt(c, lost, v);
      if Reads(g, a, v) {
        var s, u := ReaderSub(c, mode, g, a, v);
        IdInjective(c.p, l, u);
      }
    }
  }

  lemma LostInDag<F(!new)>(c: Clay<F>, g: Dag<F>, lost: nat, v: int)
    requires c.Ready() && lost < c.p.n && RepairDag(c, Repairing(c.ShortNode(lost)), g) && v in SubPacketsOf(lost, c.p.w)
    ensures v in g && !g[v].kind.Leaf?
  {
    hide Inverts, Field, MapsRight, IdenticalRight, LeavesBare, Closed, SubPacketsOf, Id, Rule;
    var s := LostAt(c, lost, v);
    LostIsComputed(c, Repairing(c.ShortNode(lost)), s);
    assert JoinedAs(c.p, c.f, c.invert, Repairing(c.ShortNode(lost)), g, s);
  }

  /** Some Join of the repair reads s. */
  ghost predicate IsSource<F(!new)>(c: Clay<F>, mode: Mode, s: Sub, i: nat, u: Sub)
    requires c.Ready() && ModeFits(c.p, mode) && InCode(c.p, s)
  {
    KindOf(c.p, mode, s) != Nothing && i < |Sources(c, mode, s)| && Sources(c, mode, s)[i] == u
  }

  lemma ReadBy<F(!new)>(c: Clay<F>, mode: Mode, s: Sub) returns (r: Sub, i: nat)
    requires c.Ready() && ModeFits(c.p, mode) && mode.Repairing? && InCode(c.p, s) && KindOf(c.p, mode, s) != Nothing && !IsLost(mode, s)
    ensures InCode(c.p, r) && IsSource(c, mode, r, i, s)
  {
    hide Inverts, Field, MapsRight, IdenticalRight, Digit, Partner, First, Paired, PairCoefs, CodeCoefs, Others;
    var p := c.p;
    NodeFits(p, mode.lost);
    SameFlags(p, s, true);
    if KindOf(p, mode, s) == FromPair {
      var y := Erased(p, mode);
      r := Ua(p, mode.lost, s.z);
      TargetFits(c, mode, mode.lost, s.z);
      i := PlaceAmongOthers(c, y, s.node);
      OthersFit(p, y);
      assert Survivors(p, y, s.z)[i] == s;
    } else {
      SameColumnSameNode(p, mode, s.node, s.z);
      LostOf(p, mode, s.(coupled := true));
      PartnerBack(p, s.(coupled := true));
      r, i := Partner(p, s.(coupled := true)), 1;
    }
  }

  lemma RepairUsesAll<F(!new)>(c: Clay<F>, g: Dag<F>, lost: nat)
    requires c.Ready() && lost < c.p.n && RepairDag(c, Repairing(c.ShortNode(lost)), g)
    ensures Used(g, SubPacketsOf(lost, c.p.w))
  {
    hide Inverts, Field, MapsRight, IdenticalRight, LeavesBare, Closed, SubPacketsOf, Id, KindOf, TierOf, Rule, c.Holds, SourcesFit;
    var mode := Repairing(c.ShortNode(lost));
    forall v | v in g && !g[v].kind.Leaf? && v !in SubPacketsOf(lost, c.p.w) ensures exists u :: Reads(g, u, v) {
      var s := VertexSub(c, mode, g, v);
      if IsLost(mode, s) {
        LostIndex(c, lost, s.z);
        ListedSub(lost, c.p.w, s.z);
      } else {
        var r, i := ReadBy(c, mode, s);
        JoinedReads(c, mode, g, r, i, s);
      }
    }
  }

  lemma ListedSub(lost: nat, w: nat, z: nat)
    requires z < w
    ensures Flat(lost, w, z) in SubPacketsOf(lost, w)
  {
    hide Flat;
    assert SubPacketsOf(lost, w)[z] == Flat(lost, w, z);
  }

  lemma JoinedReads<F(!new)>(c: Clay<F>, mode: Mode, g: Dag<F>, r: Sub, i: nat, u: Sub)
    requires RepairDag(c, mode, g) && InCode(c.p, r) && IsSource(c, mode, r, i, u)
    ensures Reads(g, Id(c.p, r), Id(c.p, u))
  {
    hide Inverts, Field, MapsRight, IdenticalRight, LeavesBare, Closed, Id, KindOf, Rule;
    assert JoinedAs(c.p, c.f, c.invert, mode, g, r);
    assert g[Id(c.p, r)].children[i] == Id(c.p, u);
  }

  lemma ChildrenApart<F(!new)>(c: Clay<F>, mode: Mode, g: Dag<F>, v: int)
    requires RepairDag(c, mode, g) && v in g
    ensures Distinct(g[v].children) && (g[v].kind.Leaf? <==> g[v].children == [])
  {
    hide Inverts, Field, MapsRight, IdenticalRight, Id, KindOf, TierOf, c.Holds, LeavesBare, Closed, Sources, ReadIn, TierAt;
    var s := VertexSub(c, mode, g, v);
    if !g[v].kind.Leaf? {
      var cs := Sources(c, mode, s);
      forall i, j | 0 <= i < j < |cs| ensures Id(c.p, cs[i]) != Id(c.p, cs[j]) {
        assert SourceFits(c.p, mode, s, cs[i]) && SourceFits(c.p, mode, s, cs[j]);
        if Id(c.p, cs[i]) == Id(c.p, cs[j]) { IdInjective(c.p, cs[i], cs[j]); }
      }
    }
  }

  lemma IdBelow(p: Params, s: Sub)
    requires Fits(p) && InCode(p, s)
    ensures 0 <= Id(p, s) < 2 * Half(p, false)
  {
    RealFits(p, s.node);
    Below(Real(p, s.node), p.Total(), p.w, s.z);
    FlatBelow(Real(p, s.node), p.w, s.z);
  }

  lemma FlatBelow(node: nat, w: nat, z: nat)
    ensures Flat(node, w, z) >= 0
  {}

  /** Clay's repair DAG suits, if all its indices are below the limit. */
  lemma ClaySuits<F(!new)>(c: Clay<F>, g: Dag<F>, lost: nat, limit: int)
    requires c.Ready() && lost < c.p.n && RepairDag(c, Repairing(c.ShortNode(lost)), g) && 2 * Half(c.p, false) <= limit
    ensures Suits(g, SubPacketsOf(lost, c.p.w), limit)
  {
    hide Inverts, Field, MapsRight, IdenticalRight, LeavesBare, Closed, c.Holds, Tiered, Used, Unread, Flat, Half, Id;
    var mode, to := Repairing(c.ShortNode(lost)), SubPacketsOf(lost, c.p.w);
    ClayTiered(c, mode, g);
    LostIsUnread(c, g, lost);
    RepairUsesAll(c, g, lost);
    FitsFacts(c.p);
    forall i | 0 <= i < |to| ensures to[i] in g && !g[to[i]].kind.Leaf? {
      LostInDag(c, g, lost, to[i]);
    }
    forall i, j | 0 <= i < j < |to| ensures to[i] != to[j] {
      SubPacketsApart(c.p, lost, i, j);
    }
    forall v | v in g ensures Distinct(g[v].children) && (g[v].kind.Leaf? <==> g[v].children == []) && 0 <= v < limit {
      ChildrenApart(c, mode, g, v);
      var s := VertexSub(c, mode, g, v);
      IdBelow(c.p, s);
    }
  }

  lemma SubPacketsApart(p: Params, lost: nat, i: nat, j: nat)
    requires i < j
    ensures Flat(lost, p.w, i) != Flat(lost, p.w, j)
  {}
}
