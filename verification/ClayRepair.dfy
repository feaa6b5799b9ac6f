/** The repair property of the Clay code: what Decode's DAG computes from the survivors of an encoded stripe
    is the lost node. */
module ClayRepair {
  import opened Dags
  import opened Planes
  import opened Galois
  import opened ClaySpec
  import opened ClayMeaning
  import opened ClayDag
  import opened ClayLayers
  import opened Clays
  import opened Computing
  import P = Pruning
  import E = Ecdags

  lemma ComputedMeets<F(!new)>(c: Clay<F>, g: Dag<F>, mode: Mode, v: int -> F, s: Sub)
    requires c.Ready() && ModeFits(c.p, mode) && Computes(c.f, g, v) && InCode(c.p, s) && JoinedAs(c.p, c.f, c.invert, mode, g, s)
    ensures Meets(c.p, c.f, c.invert, mode, v, s)
  {
    hide Field, Inverts, MapsRight, IdenticalRight, Dot, Rule, Id;
    var (cs, coefs) := Rule(c.p, c.f, c.invert, mode, s);
    assert P.Under(g, v, Id(c.p, s)) == Vals(c.p, v, cs);
  }

  /** Solving Encode's DAG gives a code word. */
  lemma EncodedIsWord<F(!new)>(c: Clay<F>, g: Dag<F>, v: int -> F)
    requires c.Ready() && ModeFits(c.p, Encoding) && c.Holds(g, Encoding) && Computes(c.f, g, v)
    ensures CodeWord(c.p, c.f, v)
  {
    hide Field, Inverts, MapsRight, IdenticalRight, Meets, KindOf, JoinedAs, Computes, CodeWord;
    forall s | InCode(c.p, s) && KindOf(c.p, Encoding, s) != Nothing ensures Meets(c.p, c.f, c.invert, Encoding, v, s) {
      ComputedMeets(c, g, Encoding, v, s);
    }
    EncodeGivesWord(c.p, c.f, c.invert, v);
  }

  lemma MeetsComputes<F(!new)>(c: Clay<F>, g: Dag<F>, mode: Mode, v: int -> F, u: int)
    requires c.Ready() && ModeFits(c.p, mode) && c.Holds(g, mode) && AllMeet(c.p, c.f, c.invert, mode, v)
    requires u in g && !g[u].kind.Leaf?
    ensures v(u) == Dot(c.f, g[u].coefs, P.Under(g, v, u))
  {
    hide Field, Inverts, MapsRight, IdenticalRight, Dot, Rule, Id, KindOf, Given;
    assert c.Explained(g, mode, u);
    var s :| InCode(c.p, s) && Id(c.p, s) == u && KindOf(c.p, mode, s) != Nothing;
    assert JoinedAs(c.p, c.f, c.invert, mode, g, s);
    var (cs, coefs) := Rule(c.p, c.f, c.invert, mode, s);
    assert Meets(c.p, c.f, c.invert, mode, v, s);
    assert P.Under(g, v, u) == Vals(c.p, v, cs);
  }

  /** Every code word solves Decode's DAG. */
  lemma WordComputes<F(!new)>(c: Clay<F>, g: Dag<F>, lost: nat, v: int -> F)
    requires c.Ready() && ModeFits(c.p, Repairing(lost)) && c.Holds(g, Repairing(lost)) && CodeWord(c.p, c.f, v)
    requires Invertible(c.f, Rows(c.f, c.p.k + c.p.nu, Others(c.p, Erased(c.p, Repairing(lost)))))
    ensures Computes(c.f, g, v)
  {
    hide Field, Inverts, MapsRight, IdenticalRight, Meets, KindOf, JoinedAs, CodeWord, Invertible, AllMeet, Dot;
    WordMeetsRepair(c.p, c.f, c.invert, lost, v);
    forall u | u in g && !g[u].kind.Leaf? ensures v(u) == Dot(c.f, g[u].coefs, P.Under(g, v, u)) {
      MeetsComputes(c, g, Repairing(lost), v, u);
    }
  }

  /** Every code word solves the DAG of the layered decoder. */
  lemma WordComputesLayers<F(!new)>(c: Clay<F>, g: Dag<F>, erased: set<nat>, v: int -> F)
    requires c.Ready() && ModeFits(c.p, Layered(erased)) && c.Holds(g, Layered(erased)) && CodeWord(c.p, c.f, v)
    requires Invertible(c.f, Rows(c.f, c.p.k + c.p.nu, Outside(erased, c.p.Total())))
    ensures Computes(c.f, g, v)
  {
    hide Field, Inverts, MapsRight, IdenticalRight, Meets, KindOf, JoinedAs, CodeWord, Invertible, AllMeet, Dot, Outside;
    WordMeetsLayers(c.p, c.f, c.invert, erased, v);
    forall u | u in g && !g[u].kind.Leaf? ensures v(u) == Dot(c.f, g[u].coefs, P.Under(g, v, u)) {
      MeetsComputes(c, g, Layered(erased), v, u);
    }
  }

  /** The leaves: what is given, for a repair the coupled sub-chunks of all nodes but the lost one in the planes where
      that one is unpaired, for layered decoding those of all nodes that are not erased. */
  ghost predicate Leaves<F(!new)>(c: Clay<F>, g: Dag<F>, mode: Mode)
    requires c.Ready() && ModeFits(c.p, mode)
  {
    forall s | InCode(c.p, s) :: Given(c.p, mode, s) <==> Id(c.p, s) in g && g[Id(c.p, s)].kind.Leaf?
  }

  lemma LeafIsGiven<F(!new)>(c: Clay<F>, g: Dag<F>, mode: Mode, s: Sub)
    requires c.Ready() && ModeFits(c.p, mode) && c.Holds(g, mode) && InCode(c.p, s) && Id(c.p, s) in g
    ensures g[Id(c.p, s)].kind.Leaf? <==> Given(c.p, mode, s)
  {
    hide Field, Inverts, MapsRight, IdenticalRight, Id, KindOf, Given, JoinedAs;
    assert c.Explained(g, mode, Id(c.p, s));
    var s' :| InCode(c.p, s') && Id(c.p, s') == Id(c.p, s)
              && (if g[Id(c.p, s)].kind.Leaf? then Given(c.p, mode, s') else KindOf(c.p, mode, s') != Nothing);
    IdInjective(c.p, s, s');
    if KindOf(c.p, mode, s) != Nothing { NotGiven(c.p, mode, s); }
  }

  lemma ChildInDag<F(!new)>(c: Clay<F>, g: Dag<F>, mode: Mode, s: Sub, i: nat)
    requires c.Ready() && ModeFits(c.p, mode) && c.Holds(g, mode) && Closed(g) && InCode(c.p, s) && KindOf(c.p, mode, s) != Nothing
    requires i < |Rule(c.p, c.f, c.invert, mode, s).0|
    ensures Id(c.p, Rule(c.p, c.f, c.invert, mode, s).0[i]) in g
  {
    hide Field, Inverts, MapsRight, IdenticalRight, Id, KindOf, Rule;
    assert JoinedAs(c.p, c.f, c.invert, mode, g, s);
    var (cs, coefs) := Rule(c.p, c.f, c.invert, mode, s);
    assert g[Id(c.p, s)].children[i] == Id(c.p, cs[i]);
  }

  /** Every given sub-chunk is used. */
  lemma GivenInDag<F(!new)>(c: Clay<F>, g: Dag<F>, mode: Mode, s: Sub)
    requires c.Ready() && ModeFits(c.p, mode) && c.Holds(g, mode) && Closed(g) && InCode(c.p, s) && Given(c.p, mode, s)
    ensures Id(c.p, s) in g
  {
    hide Field, Inverts, MapsRight, IdenticalRight, Id, Digit, Partner, First, CodeCoefs, PairCoefs, RowAt, Closed;
    var p := c.p;
    NodeFits(p, s.node);
    if mode.Repairing? { NodeFits(p, mode.lost); }
    var u := AsU(s);
    SameFlags(p, s, false);
    PartnerBack(p, s);
    if mode.Layered? {
      if Paired(p, s) {
        ChildInDag(c, g, mode, u, if Partner(p, u).node in mode.erased || First(p, u) then 0 else 1);
      } else {
        UnerasedUsed(c, g, mode, s);
      }
    } else if mode.Repairing? && Col(p, s.node) == Erased(p, mode) {
      HelperIsPaired(c, mode, s);
      ChildInDag(c, g, mode, Partner(p, s), 0);
    } else if Paired(p, s) {
      assert KindOf(p, mode, u) == FromPair;
      ChildInDag(c, g, mode, u, if First(p, u) then 0 else 1);
    } else {
      UnpairedUsed(c, g, mode, s);
    }
  }

  /** The outer code reads what is left of every plane. */
  lemma UnerasedUsed<F(!new)>(c: Clay<F>, g: Dag<F>, mode: Mode, s: Sub)
    requires c.Ready() && ModeFits(c.p, mode) && mode.Layered? && c.Holds(g, mode) && Closed(g) && InCode(c.p, s) && Given(c.p, mode, s)
    requires !Paired(c.p, s)
    ensures Id(c.p, s) in g
  {
    hide Field, Inverts, MapsRight, IdenticalRight, Id, Digit, Partner, First, Outside, Closed, LineCoefs;
    var p := c.p;
    NodeFits(p, s.node);
    var node := SomeErased(p, mode.erased);
    var i := PlaceOutside(mode.erased, p.Total(), s.node);
    SameFlags(p, s, false);
    SameFlags(p, Sub(false, node, s.z), true);
    assert KindOf(p, mode, Ua(p, node, s.z)) == FromCode;
    ChildInDag(c, g, mode, Ua(p, node, s.z), i);
  }

  lemma SomeErased(p: Params, erased: set<nat>) returns (node: nat)
    requires Fits(p) && ErasedFits(p, erased)
    ensures node in erased && node < p.Total()
  {
    FitsFacts(p);
    node :| node in erased;
  }

  lemma {:induction false} PlaceOutside(erased: set<nat>, m: nat, node: nat) returns (i: nat)
    requires node < m && node !in erased
    ensures i < |Outside(erased, m)| && Outside(erased, m)[i] == node
  {
    if node == m - 1 {
      i := |Outside(erased, m - 1)|;
    } else {
      i := PlaceOutside(erased, m - 1, node);
    }
  }

  lemma HelperIsPaired<F(!new)>(c: Clay<F>, mode: Mode, s: Sub)
    requires c.Ready() && ModeFits(c.p, mode) && mode.Repairing? && InCode(c.p, s) && Given(c.p, mode, s) && Col(c.p, s.node) == Erased(c.p, mode)
    ensures InCode(c.p, Partner(c.p, s)) && KindOf(c.p, mode, Partner(c.p, s)) == FromHelper
  {
    hide Field, Inverts, MapsRight, IdenticalRight, Digit, Partner;
    NodeFits(c.p, s.node);
    NodeFits(c.p, mode.lost);
    PartnerPlace(c.p, s);
    PartnerOrder(c.p, s);
    NodeFits(c.p, Partner(c.p, s).node);
  }

  lemma UnpairedUsed<F(!new)>(c: Clay<F>, g: Dag<F>, mode: Mode, s: Sub)
    requires c.Ready() && ModeFits(c.p, mode) && !mode.Layered? && c.Holds(g, mode) && Closed(g) && InCode(c.p, s) && Given(c.p, mode, s)
    requires !Paired(c.p, s) && Col(c.p, s.node) != Erased(c.p, mode)
    ensures Id(c.p, s) in g
  {
    hide Field, Inverts, MapsRight, IdenticalRight, Id, Digit, Partner, First, CodeCoefs, PairCoefs, RowAt, Closed, Others;
    var p := c.p;
    var y := Erased(p, mode);
    var target := if mode.Repairing? then mode.lost else y * p.q;
    TargetFits(c, mode, target, s.z);
    var i := PlaceAmongOthers(c, y, s.node);
    OthersFit(p, y);
    assert Survivors(p, y, s.z)[i] == s by { SameFlags(p, s, false); }
    ChildInDag(c, g, mode, Ua(p, target, s.z), i);
  }

  lemma TargetFits<F(!new)>(c: Clay<F>, mode: Mode, target: nat, z: nat)
    requires c.Ready() && ModeFits(c.p, mode) && !mode.Layered? && z < c.p.w && Active(c.p, mode, z)
    requires target == if mode.Repairing? then mode.lost else Erased(c.p, mode) * c.p.q
    ensures target < c.p.Total() && KindOf(c.p, mode, Ua(c.p, target, z)) == FromCode
  {
    hide Field, Inverts, MapsRight, IdenticalRight, Digit;
    NodeOf(c.p, 0, Erased(c.p, mode));
    if mode.Repairing? { NodeFits(c.p, mode.lost); }
  }

  lemma PlaceAmongOthers<F(!new)>(c: Clay<F>, y: nat, node: nat) returns (i: nat)
    requires c.Ready() && y < c.p.t && node < c.p.Total() && Col(c.p, node) != y
    ensures i < c.p.k + c.p.nu && Others(c.p, y)[i] == node
  {
    hide Field, Inverts, MapsRight, IdenticalRight;
    NodeFits(c.p, node);
    c.FewerRows();
    Grid(c.p);
    PlaceOf(c.p.q, c.p.t, c.p.k + c.p.nu, y, Col(c.p, node), node);
    i := if Col(c.p, node) < y then node else node - c.p.q;
  }

  lemma PlaceOf(q: nat, t: nat, others: nat, y: nat, col: nat, node: nat)
    requires 0 < q && y < t && col < t && others + q == q * t && col * q <= node < col * q + q && col != y
    ensures if col < y then node < y * q && node < others else y * q <= node - q < others
  {
    if col < y {
      Gap(col, y, q);
      if y < t - 1 { Gap(y, t - 1, q); }
      assert (t - 1) * q + q == q * t;
    } else {
      Gap(y, col, q);
      if col < t - 1 { Gap(col, t - 1, q); }
      assert (t - 1) * q + q == q * t;
    }
  }

  /** A repair and layered decoding read exactly the given sub-chunks; encoding reads exactly the data and shortened nodes. */
  lemma LeavesExact<F(!new)>(c: Clay<F>, g: Dag<F>, mode: Mode)
    requires c.Ready() && ModeFits(c.p, mode) && c.Holds(g, mode) && Closed(g)
    ensures Leaves(c, g, mode)
  {
    hide Field, Inverts, MapsRight, IdenticalRight, Id, Given, KindOf, Closed;
    forall s | InCode(c.p, s) ensures Given(c.p, mode, s) <==> Id(c.p, s) in g && g[Id(c.p, s)].kind.Leaf? {
      if Given(c.p, mode, s) { GivenInDag(c, g, mode, s); }
      if Id(c.p, s) in g { LeafIsGiven(c, g, mode, s); }
    }
  }

  lemma LostIsComputed<F(!new)>(c: Clay<F>, mode: Mode, s: Sub)
    requires c.Ready() && ModeFits(c.p, mode) && mode.Repairing? && InCode(c.p, s) && s.coupled && s.node == mode.lost
    ensures KindOf(c.p, mode, s) != Nothing
  {}

  /** For any stripe that solves Encode's DAG and any evaluation of Decode's DAG that starts from the stripe's
      sub-chunks at the leaves, every sub-chunk of the lost node comes out as it was; the leaves are
      survivors' sub-chunks only. */
  lemma DecodeRecovers<F(!new)>(c: Clay<F>, encoded: Dag<F>, decoded: Dag<F>, rank: map<int, nat>, lost: nat,
                                stripe: int -> F, value: int -> F, z: nat)
    requires c.Ready() && lost < c.p.n && z < c.p.w && ModeFits(c.p, Encoding) && ModeFits(c.p, Repairing(c.ShortNode(lost)))
    requires c.Holds(encoded, Encoding) && c.Holds(decoded, Repairing(c.ShortNode(lost))) && Closed(decoded) && Ranked(decoded, rank)
    requires Computes(c.f, encoded, stripe) && Computes(c.f, decoded, value)
    requires forall v | v in decoded && decoded[v].kind.Leaf? :: value(v) == stripe(v)
    requires Invertible(c.f, Rows(c.f, c.p.k + c.p.nu, Others(c.p, Erased(c.p, Repairing(c.ShortNode(lost))))))
    ensures Flat(lost, c.p.w, z) in decoded && !decoded[Flat(lost, c.p.w, z)].kind.Leaf?
    ensures value(Flat(lost, c.p.w, z)) == stripe(Flat(lost, c.p.w, z))
  {
    hide Field, Inverts, MapsRight, IdenticalRight, Computes, CodeWord, Invertible, Closed, Ranked, KindOf, Rule, Given, Flat;
    var mode := Repairing(c.ShortNode(lost));
    c.ShortNodeFits(lost);
    EncodedIsWord(c, encoded, stripe);
    WordComputes(c, decoded, mode.lost, stripe);
    var s := Sub(true, mode.lost, z);
    LostIsComputed(c, mode, s);
    assert JoinedAs(c.p, c.f, c.invert, mode, decoded, s);
    LostIndex(c, lost, z);
    SameFromLeaves(c.f, decoded, rank, value, stripe, Id(c.p, s));
  }

  lemma LostIndex<F(!new)>(c: Clay<F>, lost: nat, z: nat)
    requires c.Ready() && lost < c.p.n
    ensures Id(c.p, Sub(true, c.ShortNode(lost), z)) == Flat(lost, c.p.w, z)
  {
    hide Field, Inverts, MapsRight, IdenticalRight, Flat;
    c.ShortNodeFits(lost);
  }

  /** Encode a stripe from any data, lose a node, decode it from the rest: the lost sub-chunks come back. */
  lemma RoundTrip<F(!new)>(c: Clay<F>, encoded: Dag<F>, rankE: map<int, nat>, decoded: Dag<F>, rankD: map<int, nat>, lost: nat, data: int -> F, z: nat)
    requires c.Ready() && lost < c.p.n && z < c.p.w && ModeFits(c.p, Encoding) && ModeFits(c.p, Repairing(c.ShortNode(lost)))
    requires c.Holds(encoded, Encoding) && Closed(encoded) && Ranked(encoded, rankE)
    requires c.Holds(decoded, Repairing(c.ShortNode(lost))) && Closed(decoded) && Ranked(decoded, rankD)
    requires Invertible(c.f, Rows(c.f, c.p.k + c.p.nu, Others(c.p, Erased(c.p, Repairing(c.ShortNode(lost))))))
    ensures var stripe := P.Values(encoded, rankE, Combine(c.f), data);
            P.Values(decoded, rankD, Combine(c.f), stripe)(Flat(lost, c.p.w, z)) == stripe(Flat(lost, c.p.w, z))
  {
    hide *;
    var stripe := P.Values(encoded, rankE, Combine(c.f), data);
    P.ValuesSolve(encoded, rankE, Combine(c.f), data);
    P.ValuesSolve(decoded, rankD, Combine(c.f), stripe);
    ComputesIs(c.f, encoded, stripe);
    ComputesIs(c.f, decoded, P.Values(decoded, rankD, Combine(c.f), stripe));
    DecodeRecovers(c, encoded, decoded, rankD, lost, stripe, P.Values(decoded, rankD, Combine(c.f), stripe), z);
  }

  lemma ErasedIsComputed<F(!new)>(c: Clay<F>, erased: set<nat>, s: Sub)
    requires c.Ready() && ModeFits(c.p, Layered(erased)) && InCode(c.p, s) && s.coupled && s.node in erased
    ensures KindOf(c.p, Layered(erased), s) != Nothing
  {}

  /** For any stripe that solves Encode's DAG and any evaluation of the layered decoder's DAG that starts from the
      stripe's sub-chunks at the leaves, every sub-chunk of every erased node comes out as it was, if the rows of the
      other nodes can be inverted. */
  lemma LayeredRecovers<F(!new)>(c: Clay<F>, encoded: Dag<F>, decoded: Dag<F>, rank: map<int, nat>, erased: set<nat>, lost: nat,
                                 stripe: int -> F, value: int -> F, z: nat)
    requires c.Ready() && lost < c.p.n && z < c.p.w && ModeFits(c.p, Encoding) && ModeFits(c.p, Layered(erased)) && c.ShortNode(lost) in erased
    requires c.Holds(encoded, Encoding) && c.Holds(decoded, Layered(erased)) && Closed(decoded) && Ranked(decoded, rank)
    requires Computes(c.f, encoded, stripe) && Computes(c.f, decoded, value)
    requires forall v | v in decoded && decoded[v].kind.Leaf? :: value(v) == stripe(v)
    requires Invertible(c.f, Rows(c.f, c.p.k + c.p.nu, Outside(erased, c.p.Total())))
    ensures Flat(lost, c.p.w, z) in decoded && !decoded[Flat(lost, c.p.w, z)].kind.Leaf?
    ensures value(Flat(lost, c.p.w, z)) == stripe(Flat(lost, c.p.w, z))
  {
    hide Field, Inverts, MapsRight, IdenticalRight, Computes, CodeWord, Invertible, Closed, Ranked, KindOf, Rule, Given, Flat, Outside;
    c.ShortNodeFits(lost);
    EncodedIsWord(c, encoded, stripe);
    WordComputesLayers(c, decoded, erased, stripe);
    var s := Sub(true, c.ShortNode(lost), z);
    ErasedIsComputed(c, erased, s);
    assert JoinedAs(c.p, c.f, c.invert, Layered(erased), decoded, s);
    LostIndex(c, lost, z);
    SameFromLeaves(c.f, decoded, rank, value, stripe, Id(c.p, s));
  }

  /** Encode a stripe from any data, lose up to n - k nodes for which the check refuses a repair, decode them in layers
      from the first k nodes that are left: the lost sub-chunks come back. */
  lemma LayeredRoundTrip<F(!new)>(c: Clay<F>, encoded: Dag<F>, rankE: map<int, nat>, decoded: Dag<F>, rankD: map<int, nat>, erased: set<nat>,
                                  lost: seq<nat>, i: nat, data: int -> F, z: nat)
    requires c.Ready() && c.Wanted(lost) && i < |lost| && z < c.p.w && ModeFits(c.p, Encoding)
    requires ModeFits(c.p, Layered(erased)) && c.ErasedBut(erased, c.FirstLeft(lost))
    requires c.Holds(encoded, Encoding) && Closed(encoded) && Ranked(encoded, rankE)
    requires c.Holds(decoded, Layered(erased)) && Closed(decoded) && Ranked(decoded, rankD)
    requires Invertible(c.f, Rows(c.f, c.p.k + c.p.nu, Outside(erased, c.p.Total())))
    ensures var stripe := P.Values(encoded, rankE, Combine(c.f), data);
            P.Values(decoded, rankD, Combine(c.f), stripe)(Flat(lost[i], c.p.w, z)) == stripe(Flat(lost[i], c.p.w, z))
  {
    hide *;
    c.WantedFits(lost, i);
    c.LostErased(lost, erased, i);
    var stripe := P.Values(encoded, rankE, Combine(c.f), data);
    P.ValuesSolve(encoded, rankE, Combine(c.f), data);
    P.ValuesSolve(decoded, rankD, Combine(c.f), stripe);
    ComputesIs(c.f, encoded, stripe);
    ComputesIs(c.f, decoded, P.Values(decoded, rankD, Combine(c.f), stripe));
    LayeredRecovers(c, encoded, decoded, rankD, erased, lost[i], stripe, P.Values(decoded, rankD, Combine(c.f), stripe), z);
  }

  /** One that is refused: for (7,2), node 0 has the shortened node 2 in its column, which the check takes for
      node -1. */
  lemma NoRepairPathSevenTwo<F(!new)>(c: Clay<F>)
    requires c.Ready() && c.p == ParamsOf(7, 2)
    ensures !c.RepairPath(0)
  {
    hide Field, Inverts, MapsRight, IdenticalRight;
    c.RepairPathIff(0);
  }

  /** And one that is taken although there are fewer data nodes than shortened ones. */
  lemma RepairPathSevenTwo<F(!new)>(c: Clay<F>)
    requires c.Ready() && c.p == ParamsOf(7, 2)
    ensures c.RepairPath(2)
  {
    hide Field, Inverts, MapsRight, IdenticalRight;
    c.RepairPathIff(2);
  }
}
