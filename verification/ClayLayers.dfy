/** Layered decoding (decode_layered in src/ec/Clay.cc): the planes by the number of erased nodes that are unpaired in
    them, and when each sub-chunk is joined. */
module ClayLayers {
  import opened Galois
  import opened ClaySpec
  import opened ClayMeaning
  import opened ClayDag
  import opened Planes

  // ---------------------------------------------------------------------------------------------
  // The order of the planes

  ghost predicate IsDot(p: Params, node: nat, z: nat)
    requires Fits(p)
  {
    node < p.Total() && (NodeFits(p, node); Digit(p, z, Col(p, node)) == node % p.q)
  }

  /** The erased nodes that are unpaired in a plane. */
  ghost function Dots(p: Params, erased: set<nat>, z: nat): set<nat>
    requires Fits(p)
  {
    set node | node in erased && IsDot(p, node, z)
  }

  ghost function Order(p: Params, erased: set<nat>, z: nat): nat
    requires Fits(p)
  {
    |Dots(p, erased, z)|
  }

  /** A node and its partner lie in one column, and in each of the two planes one of them is unpaired. */
  lemma DotsOfPair(p: Params, s: Sub, node: nat)
    requires Fits(p) && InCode(p, s) && Paired(p, s) && node < p.Total()
    ensures InCode(p, Partner(p, s)) && Partner(p, s).node != s.node
    ensures IsDot(p, node, s.z) && Col(p, node) == Col(p, s.node) <==> node == Partner(p, s).node
    ensures IsDot(p, node, Partner(p, s).z) <==> node == s.node || (IsDot(p, node, s.z) && node != Partner(p, s).node)
  {
    hide Digit, Partner;
    NodeFits(p, s.node);
    NodeFits(p, node);
    PartnerPlace(p, s);
    NodeFits(p, Partner(p, s).node);
    PartnerDigits(p, s, Col(p, node));
  }

  lemma DotsOfPartner(p: Params, erased: set<nat>, s: Sub)
    requires Fits(p) && InCode(p, s) && Paired(p, s) && ErasedFits(p, erased)
    ensures InCode(p, Partner(p, s))
    ensures Dots(p, erased, Partner(p, s).z) ==
              Dots(p, erased, s.z) - {Partner(p, s).node} + if s.node in erased then {s.node} else {}
    ensures Partner(p, s).node in Dots(p, erased, s.z) <==> Partner(p, s).node in erased
    ensures s.node !in Dots(p, erased, s.z) && Partner(p, s).node != s.node
  {
    hide IsDot, Partner;
    forall node: nat | node in erased
      ensures IsDot(p, node, Partner(p, s).z) <==> node == s.node || (IsDot(p, node, s.z) && node != Partner(p, s).node)
    {
      DotsOfPair(p, s, node);
    }
    DotsOfPair(p, s, s.node);
    PartnerIn(p, s);
    DotsOfPair(p, s, Partner(p, s).node);
  }

  /** The planes of a pair are in the same layer, or in neighbouring ones if one of the two nodes is erased. */
  lemma OrderOfPartner(p: Params, erased: set<nat>, s: Sub)
    requires Fits(p) && InCode(p, s) && Paired(p, s) && ErasedFits(p, erased)
    ensures InCode(p, Partner(p, s))
    ensures Order(p, erased, Partner(p, s).z) + (if Partner(p, s).node in erased then 1 else 0)
              == Order(p, erased, s.z) + if s.node in erased then 1 else 0
  {
    hide Partner, Dots;
    DotsOfPartner(p, erased, s);
    var a, b := Dots(p, erased, s.z), Partner(p, s).node;
    if b in a { assert |a - {b}| == |a| - 1; } else { assert a - {b} == a; }
    if s.node in erased { assert s.node !in a - {b}; }
  }

  /** The columns with erased nodes. */
  ghost function ErasedColumns(p: Params, erased: set<nat>): set<nat>
    requires Fits(p)
  {
    FitsFacts(p);
    set node | node in erased :: Col(p, node)
  }

  /** In a plane each column has one unpaired node. */
  lemma {:induction false} OnePerColumn(p: Params, nodes: set<nat>, z: nat)
    requires Fits(p) && forall node | node in nodes :: IsDot(p, node, z)
    ensures |ErasedColumns(p, nodes)| == |nodes|
    decreases |nodes|
  {
    hide Digit;
    FitsFacts(p);
    if nodes != {} {
      var node :| node in nodes;
      OnePerColumn(p, nodes - {node}, z);
      ColumnApart(p, nodes, z, node);
    }
  }

  lemma ColumnApart(p: Params, nodes: set<nat>, z: nat, node: nat)
    requires Fits(p) && (forall n | n in nodes :: IsDot(p, n, z)) && node in nodes
    ensures 0 < p.q && ErasedColumns(p, nodes) == ErasedColumns(p, nodes - {node}) + {Col(p, node)}
    ensures Col(p, node) !in ErasedColumns(p, nodes - {node})
  {
    hide Digit, Col;
    FitsFacts(p);
    forall n | n in nodes && Col(p, n) == Col(p, node) ensures n == node {
      assert IsDot(p, n, z) && IsDot(p, node, z);
      NodeFits(p, n);
      NodeFits(p, node);
    }
    forall c ensures c in ErasedColumns(p, nodes) <==> c in ErasedColumns(p, nodes - {node}) + {Col(p, node)} {
      if c in ErasedColumns(p, nodes) {
        var n :| n in nodes && Col(p, n) == c;
        assert n == node || n in nodes - {node};
      }
    }
  }

  /** So no layer is beyond the number of columns with erased nodes. */
  lemma OrderBound(p: Params, erased: set<nat>, z: nat)
    requires Fits(p)
    ensures Order(p, erased, z) <= |ErasedColumns(p, erased)|
  {
    hide IsDot;
    var dots := Dots(p, erased, z);
    OnePerColumn(p, dots, z);
    FitsFacts(p);
    assert ErasedColumns(p, dots) <= ErasedColumns(p, erased);
    SubsetSize(ErasedColumns(p, dots), ErasedColumns(p, erased));
  }

  lemma SubsetSize<T>(a: set<T>, b: set<T>)
    requires a <= b
    ensures |a| <= |b|
  {
    assert b == a + (b - a);
  }

  lemma SameSize<T>(a: set<T>, b: set<T>)
    requires a <= b && |a| == |b|
    ensures a == b
  {
    assert b == a + (b - a);
  }

  // ---------------------------------------------------------------------------------------------
  // When a sub-chunk is joined

  /** Layer, pass, plane, and a place within the pass over the plane. */
  datatype Point = Point(layer: nat, pass: nat, plane: nat, a: nat, b: nat)

  predicate Earlier(x: Point, y: Point) {
    || x.layer < y.layer
    || (x.layer == y.layer && (x.pass < y.pass
        || (x.pass == y.pass && (x.plane < y.plane
            || (x.plane == y.plane && (x.a < y.a || (x.a == y.a && x.b < y.b)))))))
  }

  ghost predicate IsComputed(p: Params, erased: set<nat>, s: Sub)
    requires Fits(p)
  {
    InCode(p, s) && LayerKind(p, erased, s) != Nothing
  }

  /** Pairs are joined with the member that comes first. */
  ghost function When(p: Params, erased: set<nat>, s: Sub): Point
    requires Fits(p) && IsComputed(p, erased, s)
  {
    PartnerIn(p, s);
    var kind := LayerKind(p, erased, s);
    if kind == FromPair then FirstPass(p, erased, Owner(p, s))
    else if kind == FromHalf then FirstPass(p, erased, s)
    else if kind == ToCoupled then SecondPass(p, erased, Owner(p, s))
    else if kind == FromTwin then SecondPass(p, erased, s)
    else Point(Order(p, erased, s.z), 0, s.z, p.q, 0)
  }

  /** decode_erasures visits the nodes row by row, before the outer code. */
  ghost function FirstPass(p: Params, erased: set<nat>, s: Sub): Point
    requires Fits(p) && InCode(p, s)
  {
    NodeFits(p, s.node);
    Point(Order(p, erased, s.z), 0, s.z, s.node % p.q, Col(p, s.node))
  }

  ghost function SecondPass(p: Params, erased: set<nat>, s: Sub): Point
    requires Fits(p)
  {
    Point(Order(p, erased, s.z), 1, s.z, 0, s.node)
  }

  /** Exactly what is due before now has been joined. */
  ghost predicate JoinedBefore(p: Params, erased: set<nat>, now: Point, joined: set<Sub>)
    requires Fits(p)
  {
    && (forall s | s in joined :: IsComputed(p, erased, s))
    && (forall s | IsComputed(p, erased, s) :: s in joined <==> Earlier(When(p, erased, s), now))
  }

  /** Where the joins of a sub-chunk can be. */
  lemma WhenFits(p: Params, erased: set<nat>, s: Sub)
    requires Fits(p) && IsComputed(p, erased, s)
    ensures var w := When(p, erased, s);
            w.plane < p.w && w.layer == Order(p, erased, w.plane)
            && ((w.pass == 0 && ((w.a < p.q && w.b < p.t) || (w.a == p.q && w.b == 0))) || (w.pass == 1 && w.a == 0 && w.b < p.Total()))
  {
    hide Partner, First, Paired, Order, LayerKind;
    PartnerIn(p, s);
    NodeFits(p, s.node);
    NodeFits(p, Owner(p, s).node);
  }

  lemma Advance(p: Params, erased: set<nat>, now: Point, next: Point, joined: set<Sub>, joined': set<Sub>)
    requires Fits(p) && JoinedBefore(p, erased, now, joined)
    requires forall s | s in joined' :: IsComputed(p, erased, s)
    requires forall s | IsComputed(p, erased, s) :: s in joined' <==> s in joined || (!Earlier(When(p, erased, s), now) && Earlier(When(p, erased, s), next))
    requires forall s | IsComputed(p, erased, s) && Earlier(When(p, erased, s), now) :: Earlier(When(p, erased, s), next)
    ensures JoinedBefore(p, erased, next, joined')
  {
    hide When, LayerKind, Earlier;
  }

  lemma EarlierThrough(x: Point, y: Point, z: Point)
    requires Earlier(x, y) && (y == z || Earlier(y, z))
    ensures Earlier(x, z)
  {}

  /** Nothing is due between two points. */
  lemma Idle(p: Params, erased: set<nat>, now: Point, next: Point, joined: set<Sub>)
    requires Fits(p) && JoinedBefore(p, erased, now, joined) && (now == next || Earlier(now, next))
    requires forall s | IsComputed(p, erased, s) :: Earlier(When(p, erased, s), next) ==> Earlier(When(p, erased, s), now)
    ensures JoinedBefore(p, erased, next, joined)
  {
    hide When, LayerKind, Earlier, JoinedBefore;
    JoinedBeforeIs(p, erased, now, joined);
    forall s | IsComputed(p, erased, s) && Earlier(When(p, erased, s), now) ensures Earlier(When(p, erased, s), next) {
      EarlierThrough(When(p, erased, s), now, next);
    }
    Advance(p, erased, now, next, joined, joined);
  }

  lemma JoinedBeforeIs(p: Params, erased: set<nat>, now: Point, joined: set<Sub>)
    requires Fits(p) && JoinedBefore(p, erased, now, joined)
    ensures forall s | IsComputed(p, erased, s) :: s in joined <==> Earlier(When(p, erased, s), now)
    ensures forall s | s in joined :: IsComputed(p, erased, s)
  {
    hide When, LayerKind, Earlier;
  }

  lemma NothingYet(p: Params, erased: set<nat>)
    requires Fits(p)
    ensures JoinedBefore(p, erased, Point(0, 0, 0, 0, 0), {})
  {
    hide When, LayerKind;
  }

  /** What is due at this very point is joined. */
  lemma Joined(p: Params, erased: set<nat>, now: Point, next: Point, joined: set<Sub>, due: set<Sub>)
    requires Fits(p) && JoinedBefore(p, erased, now, joined) && Earlier(now, next)
    requires forall s | s in due :: IsComputed(p, erased, s)
    requires forall s | IsComputed(p, erased, s) :: s in due <==> !Earlier(When(p, erased, s), now) && Earlier(When(p, erased, s), next)
    ensures JoinedBefore(p, erased, next, joined + due)
  {
    hide When, LayerKind, Earlier, JoinedBefore;
    JoinedBeforeIs(p, erased, now, joined);
    forall s | IsComputed(p, erased, s) && Earlier(When(p, erased, s), now) ensures Earlier(When(p, erased, s), next) {
      EarlierThrough(When(p, erased, s), now, next);
    }
    Advance(p, erased, now, next, joined, joined + due);
  }

  // ---------------------------------------------------------------------------------------------
  // What is due at a node

  /** In the first pass: the pair of a node that comes first in it, or the one uncoupled value that can be had. */
  lemma DueFirst(p: Params, erased: set<nat>, node: nat, z: nat, s: Sub)
    requires Fits(p) && node < p.Total() && z < p.w && IsComputed(p, erased, s) && 0 < p.q
    ensures var u, x, y := Sub(false, node, z), node % p.q, Col(p, node);
            !Earlier(When(p, erased, s), Point(Order(p, erased, z), 0, z, x, y)) && Earlier(When(p, erased, s), Point(Order(p, erased, z), 0, z, x, y + 1))
            <==> (LayerKind(p, erased, u) == FromPair && First(p, u) && (s == u || s == Partner(p, u)))
                 || (LayerKind(p, erased, u) == FromHalf && s == u)
  {
    hide Partner, First, Paired, Order, Digit, Col;
    NodeFits(p, node);
    var u := Sub(false, node, z);
    NodeFits(p, s.node);
    PartnerIn(p, s);
    NodeFits(p, Partner(p, s).node);
    LayerOfPair(p, erased, s);
    LayerOfPair(p, erased, u);
  }

  /** Both members of a pair are computed alike, and one of them comes first. */
  lemma LayerOfPair(p: Params, erased: set<nat>, s: Sub)
    requires Fits(p) && InCode(p, s)
    ensures var r := Partner(p, s);
            InCode(p, r) && Partner(p, r) == s && r.coupled == s.coupled
            && (LayerKind(p, erased, s) == FromPair <==> LayerKind(p, erased, r) == FromPair)
            && (LayerKind(p, erased, s) == ToCoupled <==> LayerKind(p, erased, r) == ToCoupled)
            && (Paired(p, s) ==> (First(p, s) <==> !First(p, r)) && r != s) && (First(p, s) ==> Paired(p, s))
  {
    hide Partner, First, Paired, Digit;
    PartnerIn(p, s);
    PartnerBack(p, s);
    PartnerOrder(p, s);
    PartnerBack(p, Partner(p, s));
  }

  /** Then the outer code gives the uncoupled values of the erased nodes. */
  lemma DueLine(p: Params, erased: set<nat>, z: nat, s: Sub)
    requires Fits(p) && z < p.w && ErasedFits(p, erased) && IsComputed(p, erased, s)
    ensures !Earlier(When(p, erased, s), Point(Order(p, erased, z), 0, z, p.q, 0)) && Earlier(When(p, erased, s), Point(Order(p, erased, z), 0, z, p.q, 1))
            <==> s.node in erased && s == Ua(p, s.node, z)
    ensures LayerKind(p, erased, s) == FromCode <==> s.node in erased && s == Ua(p, s.node, s.z)
  {
    hide Partner, First, Order, Digit, Col;
    WhenFits(p, erased, s);
    PartnerIn(p, s);
    NodeFits(p, s.node);
    NodeFits(p, Partner(p, s).node);
    SameFlags(p, s, false);
  }

  lemma CodeComputed(p: Params, erased: set<nat>, node: nat, z: nat)
    requires Fits(p) && z < p.w && node in erased && node < p.Total()
    ensures IsComputed(p, erased, Ua(p, node, z)) && LayerKind(p, erased, Ua(p, node, z)) == FromCode
  {
    hide Partner, Digit;
    SameFlags(p, Sub(false, node, z), true);
  }

  /** In the second pass the coupled values: of a pair with the node that comes first, or of the node alone. */
  lemma DueSecond(p: Params, erased: set<nat>, node: nat, z: nat, s: Sub)
    requires Fits(p) && node < p.Total() && z < p.w && IsComputed(p, erased, s)
    ensures var c := Sub(true, node, z);
            !Earlier(When(p, erased, s), Point(Order(p, erased, z), 1, z, 0, node)) && Earlier(When(p, erased, s), Point(Order(p, erased, z), 1, z, 0, node + 1))
            <==> (LayerKind(p, erased, c) == ToCoupled && First(p, c) && (s == c || s == Partner(p, c)))
                 || (LayerKind(p, erased, c) == FromTwin && s == c)
  {
    hide Partner, First, Paired, Order, Digit, Col;
    var c := Sub(true, node, z);
    NodeFits(p, s.node);
    PartnerIn(p, s);
    NodeFits(p, Partner(p, s).node);
    LayerOfPair(p, erased, s);
    LayerOfPair(p, erased, c);
  }

  // ---------------------------------------------------------------------------------------------
  // Between the nodes

  lemma RowEnds(p: Params, erased: set<nat>, layer: nat, z: nat, x: nat, joined: set<Sub>)
    requires Fits(p) && JoinedBefore(p, erased, Point(layer, 0, z, x, p.t), joined)
    ensures JoinedBefore(p, erased, Point(layer, 0, z, x + 1, 0), joined)
  {
    hide When, IsComputed, JoinedBefore;
    forall s | IsComputed(p, erased, s) ensures Earlier(When(p, erased, s), Point(layer, 0, z, x + 1, 0)) ==> Earlier(When(p, erased, s), Point(layer, 0, z, x, p.t)) {
      WhenFits(p, erased, s);
    }
    Idle(p, erased, Point(layer, 0, z, x, p.t), Point(layer, 0, z, x + 1, 0), joined);
  }

  lemma FirstEnds(p: Params, erased: set<nat>, layer: nat, z: nat, joined: set<Sub>)
    requires Fits(p) && JoinedBefore(p, erased, Point(layer, 0, z, p.q, 1), joined)
    ensures JoinedBefore(p, erased, Point(layer, 0, z + 1, 0, 0), joined)
  {
    hide When, IsComputed, JoinedBefore;
    forall s | IsComputed(p, erased, s) ensures Earlier(When(p, erased, s), Point(layer, 0, z + 1, 0, 0)) ==> Earlier(When(p, erased, s), Point(layer, 0, z, p.q, 1)) {
      WhenFits(p, erased, s);
    }
    Idle(p, erased, Point(layer, 0, z, p.q, 1), Point(layer, 0, z + 1, 0, 0), joined);
  }

  /** Planes of other layers are passed over. */
  lemma OtherLayer(p: Params, erased: set<nat>, layer: nat, pass: nat, z: nat, joined: set<Sub>)
    requires Fits(p) && JoinedBefore(p, erased, Point(layer, pass, z, 0, 0), joined) && Order(p, erased, z) != layer
    ensures JoinedBefore(p, erased, Point(layer, pass, z + 1, 0, 0), joined)
  {
    hide When, IsComputed, JoinedBefore, Order;
    forall s | IsComputed(p, erased, s) ensures Earlier(When(p, erased, s), Point(layer, pass, z + 1, 0, 0)) ==> Earlier(When(p, erased, s), Point(layer, pass, z, 0, 0)) {
      WhenFits(p, erased, s);
    }
    Idle(p, erased, Point(layer, pass, z, 0, 0), Point(layer, pass, z + 1, 0, 0), joined);
  }

  lemma PassEnds(p: Params, erased: set<nat>, layer: nat, joined: set<Sub>)
    requires Fits(p)
    ensures JoinedBefore(p, erased, Point(layer, 0, p.w, 0, 0), joined) ==> JoinedBefore(p, erased, Point(layer, 1, 0, 0, 0), joined)
    ensures JoinedBefore(p, erased, Point(layer, 1, p.w, 0, 0), joined) ==> JoinedBefore(p, erased, Point(layer + 1, 0, 0, 0, 0), joined)
  {
    hide When, IsComputed, JoinedBefore;
    forall s | IsComputed(p, erased, s)
      ensures Earlier(When(p, erased, s), Point(layer, 1, 0, 0, 0)) ==> Earlier(When(p, erased, s), Point(layer, 0, p.w, 0, 0))
      ensures Earlier(When(p, erased, s), Point(layer + 1, 0, 0, 0, 0)) ==> Earlier(When(p, erased, s), Point(layer, 1, p.w, 0, 0))
    {
      WhenFits(p, erased, s);
    }
    if JoinedBefore(p, erased, Point(layer, 0, p.w, 0, 0), joined) { Idle(p, erased, Point(layer, 0, p.w, 0, 0), Point(layer, 1, 0, 0, 0), joined); }
    if JoinedBefore(p, erased, Point(layer, 1, p.w, 0, 0), joined) { Idle(p, erased, Point(layer, 1, p.w, 0, 0), Point(layer + 1, 0, 0, 0, 0), joined); }
  }

  /** In the second pass nodes that are not erased are passed over. */
  lemma NotErased(p: Params, erased: set<nat>, layer: nat, z: nat, from: nat, to: nat, joined: set<Sub>)
    requires Fits(p) && JoinedBefore(p, erased, Point(layer, 1, z, 0, from), joined) && from <= to
    requires forall node: nat | from <= node < to :: node !in erased
    ensures JoinedBefore(p, erased, Point(layer, 1, z, 0, to), joined)
  {
    hide When, IsComputed, JoinedBefore;
    forall s | IsComputed(p, erased, s) ensures Earlier(When(p, erased, s), Point(layer, 1, z, 0, to)) ==> Earlier(When(p, erased, s), Point(layer, 1, z, 0, from)) {
      WhenFits(p, erased, s);
      SecondNode(p, erased, s);
    }
    Idle(p, erased, Point(layer, 1, z, 0, from), Point(layer, 1, z, 0, to), joined);
  }

  lemma SecondNode(p: Params, erased: set<nat>, s: Sub)
    requires Fits(p) && IsComputed(p, erased, s)
    ensures When(p, erased, s).pass == 1 ==> When(p, erased, s).b in erased
  {
    hide Partner, First, Paired, Order;
    PartnerIn(p, s);
  }

  lemma SecondEnds(p: Params, erased: set<nat>, layer: nat, z: nat, joined: set<Sub>)
    requires Fits(p) && JoinedBefore(p, erased, Point(layer, 1, z, 0, p.Total()), joined)
    ensures JoinedBefore(p, erased, Point(layer, 1, z + 1, 0, 0), joined)
  {
    hide When, IsComputed, JoinedBefore;
    forall s | IsComputed(p, erased, s) ensures Earlier(When(p, erased, s), Point(layer, 1, z + 1, 0, 0)) ==> Earlier(When(p, erased, s), Point(layer, 1, z, 0, p.Total())) {
      WhenFits(p, erased, s);
    }
    Idle(p, erased, Point(layer, 1, z, 0, p.Total()), Point(layer, 1, z + 1, 0, 0), joined);
  }

  // ---------------------------------------------------------------------------------------------
  // What is available

  /** An erased node's uncoupled value is there once its plane's first pass is over. */
  lemma CodeThere(p: Params, erased: set<nat>, now: Point, joined: set<Sub>, s: Sub)
    requires Fits(p) && JoinedBefore(p, erased, now, joined) && InCode(p, s) && !s.coupled && s.node in erased && Paired(p, s)
    requires Earlier(Point(Order(p, erased, s.z), 0, s.z, p.q, 0), now)
    ensures s in joined
  {
    hide Partner, First, Order, Digit;
    assert LayerKind(p, erased, s) == FromCode;
    assert When(p, erased, s) == Point(Order(p, erased, s.z), 0, s.z, p.q, 0);
  }

  lemma PairThere(p: Params, erased: set<nat>, joined: set<Sub>, u: Sub)
    requires Fits(p) && ModeFits(p, Layered(erased)) && InCode(p, u) && LayerKind(p, erased, u) == FromPair
    ensures InCode(p, Partner(p, u)) && !Partner(p, u).coupled
    ensures Available(p, Layered(erased), joined, [AsC(u), AsC(Partner(p, u))])
  {
    hide Partner, First, Paired, Digit;
    PartnerIn(p, u);
    var cs := [AsC(u), AsC(Partner(p, u))];
    assert Given(p, Layered(erased), cs[0]) && Given(p, Layered(erased), cs[1]);
  }

  lemma HalfThere(p: Params, erased: set<nat>, now: Point, joined: set<Sub>, u: Sub)
    requires Fits(p) && ModeFits(p, Layered(erased)) && JoinedBefore(p, erased, now, joined) && InCode(p, u) && LayerKind(p, erased, u) == FromHalf
    requires now.layer == Order(p, erased, u.z)
    ensures InCode(p, Partner(p, u)) && Available(p, Layered(erased), joined, [AsC(u), Partner(p, u)])
  {
    hide Partner, First, Paired, Order, Digit, JoinedBefore;
    PartnerIn(p, u);
    PartnerOrder(p, u);
    OrderOfPartner(p, erased, u);
    CodeThere(p, erased, now, joined, Partner(p, u));
    var cs := [AsC(u), Partner(p, u)];
    assert Given(p, Layered(erased), cs[0]);
  }

  lemma CoupledThere(p: Params, erased: set<nat>, now: Point, joined: set<Sub>, c: Sub)
    requires Fits(p) && ModeFits(p, Layered(erased)) && JoinedBefore(p, erased, now, joined) && InCode(p, c) && LayerKind(p, erased, c) == ToCoupled
    requires now.layer == Order(p, erased, c.z) && now.pass == 1
    ensures InCode(p, Partner(p, c)) && AsU(c) in joined && AsU(Partner(p, c)) in joined
  {
    hide Partner, First, Paired, Order, Digit, JoinedBefore;
    PartnerIn(p, c);
    PartnerOrder(p, c);
    OrderOfPartner(p, erased, c);
    SameFlags(p, c, false);
    SameFlags(p, Partner(p, c), false);
    CodeThere(p, erased, now, joined, AsU(c));
    CodeThere(p, erased, now, joined, AsU(Partner(p, c)));
  }

  lemma TwinThere(p: Params, erased: set<nat>, now: Point, joined: set<Sub>, c: Sub)
    requires Fits(p) && ModeFits(p, Layered(erased)) && JoinedBefore(p, erased, now, joined) && InCode(p, c) && LayerKind(p, erased, c) == FromTwin
    requires now.layer == Order(p, erased, c.z) && now.pass == 1
    ensures InCode(p, Partner(p, c)) && Available(p, Layered(erased), joined, [Partner(p, c), AsU(c)])
  {
    hide Partner, First, Paired, Order, Digit, JoinedBefore;
    PartnerIn(p, c);
    SameFlags(p, c, false);
    CodeThere(p, erased, now, joined, AsU(c));
    var cs := [Partner(p, c), AsU(c)];
    assert Given(p, Layered(erased), cs[0]);
  }

  /** After the loops over the nodes of a plane, the uncoupled values of all nodes that are not erased are there. */
  lemma LinesThere(p: Params, erased: set<nat>, layer: nat, z: nat, joined: set<Sub>)
    requires Fits(p) && ModeFits(p, Layered(erased)) && z < p.w && layer == Order(p, erased, z) && JoinedBefore(p, erased, Point(layer, 0, z, p.q, 0), joined)
    ensures Available(p, Layered(erased), joined, LineSubs(p, Outside(erased, p.Total()), z))
  {
    hide Ua, Given, LayerKind, JoinedBefore, Order, Outside;
    var lines := Outside(erased, p.Total());
    var cs := LineSubs(p, lines, z);
    forall i | 0 <= i < |cs| ensures InCode(p, cs[i]) && (cs[i] in joined || Given(p, Layered(erased), cs[i])) {
      LineThere(p, erased, layer, lines[i], z, joined);
    }
  }

  lemma LineThere(p: Params, erased: set<nat>, layer: nat, node: nat, z: nat, joined: set<Sub>)
    requires Fits(p) && ModeFits(p, Layered(erased)) && z < p.w && layer == Order(p, erased, z) && JoinedBefore(p, erased, Point(layer, 0, z, p.q, 0), joined)
    requires node < p.Total() && node !in erased
    ensures Ua(p, node, z) in joined || Given(p, Layered(erased), Ua(p, node, z))
  {
    hide Partner, First, Order, Digit, JoinedBefore, Paired;
    JoinedBeforeIs(p, erased, Point(layer, 0, z, p.q, 0), joined);
    var s := Ua(p, node, z);
    SameFlags(p, s, false);
    if Paired(p, s) {
      LayerOfPair(p, erased, s);
      PartnerOrder(p, s);
      OrderOfPartner(p, erased, s);
      NodeFits(p, node);
      NodeFits(p, Partner(p, s).node);
      assert IsComputed(p, erased, s);
    }
  }

  // ---------------------------------------------------------------------------------------------
  // The rows of the outer code

  lemma {:induction false} OutsideSize(erased: set<nat>, m: nat)
    ensures |Outside(erased, m)| + |set node | node in erased && node < m| == m
    ensures forall node: nat | node < m && node !in erased :: node in Outside(erased, m)
  {
    var below := set node | node in erased && node < m;
    if m == 0 {
      assert below == {};
    } else {
      OutsideSize(erased, m - 1);
      var fewer := set node | node in erased && node < m - 1;
      if m - 1 in erased { assert below == fewer + {m - 1}; } else { assert below == fewer; }
    }
  }

  lemma LinesSize(p: Params, erased: set<nat>)
    requires Fits(p) && ErasedFits(p, erased)
    ensures |Outside(erased, p.Total())| == p.k + p.nu
  {
    OutsideSize(erased, p.Total());
    assert (set node | node in erased && node < p.Total()) == erased;
    FewerThanAll(p);
    Grid(p);
  }

  // ---------------------------------------------------------------------------------------------
  // Every code word satisfies the equations

  lemma {:induction false} SolveLines<F(!new)>(p: Params, f: GF<F>, invert: seq<seq<F>> -> seq<seq<F>>, lines: seq<nat>, node: nat, x: seq<F>, msg: seq<F>)
    requires Field(f) && |lines| == |x| == |msg| == p.k + p.nu
    requires var m := Rows(f, p.k + p.nu, lines); IsInverse(f, m, invert(m)) && MatVec(f, m, msg) == x
    ensures Dot(f, LineCoefs(p, f, invert, lines, node), x) == Dot(f, Row(f, p.k + p.nu, node), msg)
  {
    hide Field, Dot, Row, VecMat, MatVec, IsInverse;
    var m := Rows(f, p.k + p.nu, lines);
    InverseActs(f, m, invert(m), msg);
    DotVecMat(f, Row(f, p.k + p.nu, node), invert(m), x);
  }

  lemma LineValues<F(!new)>(p: Params, f: GF<F>, v: int -> F, lines: seq<nat>, z: nat)
    requires Fits(p) && CodeWord(p, f, v) && z < p.w && forall i | 0 <= i < |lines| :: lines[i] < p.Total()
    ensures MatVec(f, Rows(f, p.k + p.nu, lines), Data(p, v, z)) == Vals(p, v, LineSubs(p, lines, z))
  {
    hide Dot, Row, Ua;
    var m := Rows(f, p.k + p.nu, lines);
    forall i | 0 <= i < |lines| ensures MatVec(f, m, Data(p, v, z))[i] == Vals(p, v, LineSubs(p, lines, z))[i] {
      assert PlaneHolds(p, f, v, lines[i], z);
    }
  }

  lemma WordMeetsLines<F(!new)>(p: Params, f: GF<F>, invert: seq<seq<F>> -> seq<seq<F>>, erased: set<nat>, v: int -> F, s: Sub)
    requires Fits(p) && ModeFits(p, Layered(erased)) && Field(f) && CodeWord(p, f, v) && InCode(p, s) && LayerKind(p, erased, s) == FromCode
    requires var m := Rows(f, p.k + p.nu, Outside(erased, p.Total())); IsInverse(f, m, invert(m))
    ensures Meets(p, f, invert, Layered(erased), v, s)
  {
    hide Field, Dot, Row, MatVec, IsInverse, LineCoefs, Outside, Partner, LineSubs;
    var lines := Outside(erased, p.Total());
    LinesSize(p, erased);
    LineValues(p, f, v, lines, s.z);
    SolveLines(p, f, invert, lines, s.node, Vals(p, v, LineSubs(p, lines, s.z)), Data(p, v, s.z));
    assert PlaneHolds(p, f, v, s.node, s.z);
    assert Ua(p, s.node, s.z) == s;
  }

  /** The pair of which s is a member, in order. */
  lemma PairOf<F(!new)>(p: Params, f: GF<F>, v: int -> F, s: Sub)
    requires Fits(p) && CodeWord(p, f, v) && InCode(p, s) && Paired(p, s)
    ensures var r := Partner(p, s);
            InCode(p, r) && if First(p, s) then Pair(f, Val(p, v, AsC(s)), Val(p, v, AsC(r)), Val(p, v, AsU(s)), Val(p, v, AsU(r)))
                            else Pair(f, Val(p, v, AsC(r)), Val(p, v, AsC(s)), Val(p, v, AsU(r)), Val(p, v, AsU(s)))
  {
    hide Pair, Partner, First, Paired, CodeWord;
    PartnerIn(p, s);
    PartnerOrder(p, s);
    PartnerBack(p, s);
    WordPair(p, f, v, if First(p, s) then s else Partner(p, s));
  }

  lemma WordMeetsHalf<F(!new)>(p: Params, f: GF<F>, invert: seq<seq<F>> -> seq<seq<F>>, erased: set<nat>, v: int -> F, s: Sub)
    requires Fits(p) && ModeFits(p, Layered(erased)) && Field(f) && Inverts(f, invert) && CodeWord(p, f, v) && InCode(p, s)
    requires LayerKind(p, erased, s) == FromHalf
    ensures Meets(p, f, invert, Layered(erased), v, s)
  {
    hide Field, Inverts, Pair, Partner, First, Paired, Dot, Row, InCode, Vals, CodeWord;
    var r := Partner(p, s);
    PartnerIn(p, s);
    PairOf(p, f, v, s);
    ValsTwo(p, v, AsC(s), AsU(r));
    if First(p, s) {
      SelectionSolves(f, invert, 0, 3, 2, Val(p, v, AsC(s)), Val(p, v, AsC(r)), Val(p, v, AsU(s)), Val(p, v, AsU(r)));
    } else {
      SelectionSolves(f, invert, 1, 2, 3, Val(p, v, AsC(r)), Val(p, v, AsC(s)), Val(p, v, AsU(r)), Val(p, v, AsU(s)));
    }
  }

  lemma WordMeetsTwin<F(!new)>(p: Params, f: GF<F>, invert: seq<seq<F>> -> seq<seq<F>>, erased: set<nat>, v: int -> F, s: Sub)
    requires Fits(p) && ModeFits(p, Layered(erased)) && Field(f) && Inverts(f, invert) && CodeWord(p, f, v) && InCode(p, s)
    requires LayerKind(p, erased, s) == FromTwin
    ensures Meets(p, f, invert, Layered(erased), v, s)
  {
    hide Field, Inverts, Pair, Partner, First, Paired, Dot, Row, InCode, Vals, CodeWord;
    var r := Partner(p, s);
    PartnerIn(p, s);
    PairOf(p, f, v, s);
    ValsTwo(p, v, AsC(r), AsU(s));
    if First(p, s) {
      SelectionSolves(f, invert, 1, 2, 0, Val(p, v, AsC(s)), Val(p, v, AsC(r)), Val(p, v, AsU(s)), Val(p, v, AsU(r)));
    } else {
      SelectionSolves(f, invert, 0, 3, 1, Val(p, v, AsC(r)), Val(p, v, AsC(s)), Val(p, v, AsU(r)), Val(p, v, AsU(s)));
    }
  }

  lemma WordMeetsCoupled<F(!new)>(p: Params, f: GF<F>, invert: seq<seq<F>> -> seq<seq<F>>, erased: set<nat>, v: int -> F, s: Sub)
    requires Fits(p) && ModeFits(p, Layered(erased)) && Field(f) && Inverts(f, invert) && CodeWord(p, f, v) && InCode(p, s)
    requires LayerKind(p, erased, s) == ToCoupled
    ensures Meets(p, f, invert, Layered(erased), v, s)
  {
    hide Field, Inverts, Pair, Partner, First, Paired, Dot, Row, InCode, Vals, CodeWord, Rows;
    var r := Partner(p, s);
    PartnerIn(p, s);
    PairOf(p, f, v, s);
    if First(p, s) {
      ValsTwo(p, v, AsU(s), AsU(r));
      CoupledSolve(f, invert, Val(p, v, AsC(s)), Val(p, v, AsC(r)), Val(p, v, AsU(s)), Val(p, v, AsU(r)));
    } else {
      ValsTwo(p, v, AsU(r), AsU(s));
      CoupledSolve(f, invert, Val(p, v, AsC(r)), Val(p, v, AsC(s)), Val(p, v, AsU(r)), Val(p, v, AsU(s)));
    }
  }

  /** Every code word satisfies the equations of layered decoding, if the rows of the nodes that are left can be inverted. */
  lemma WordMeetsLayers<F(!new)>(p: Params, f: GF<F>, invert: seq<seq<F>> -> seq<seq<F>>, erased: set<nat>, v: int -> F)
    requires Fits(p) && ModeFits(p, Layered(erased)) && Field(f) && Inverts(f, invert) && CodeWord(p, f, v)
    requires Invertible(f, Rows(f, p.k + p.nu, Outside(erased, p.Total())))
    ensures AllMeet(p, f, invert, Layered(erased), v)
  {
    hide Field, Inverts, CodeWord, Meets, Rows, Outside, Partner, IsInverse, InCode, Invertible;
    var mode := Layered(erased);
    InverseThere(f, invert, Rows(f, p.k + p.nu, Outside(erased, p.Total())));
    forall s | InCode(p, s) && KindOf(p, mode, s) != Nothing ensures Meets(p, f, invert, mode, v, s) {
      WordMeetsLayer(p, f, invert, erased, v, s);
    }
  }

  lemma WordMeetsLayer<F(!new)>(p: Params, f: GF<F>, invert: seq<seq<F>> -> seq<seq<F>>, erased: set<nat>, v: int -> F, s: Sub)
    requires Fits(p) && ModeFits(p, Layered(erased)) && Field(f) && Inverts(f, invert) && CodeWord(p, f, v)
    requires var m := Rows(f, p.k + p.nu, Outside(erased, p.Total())); IsInverse(f, m, invert(m))
    requires InCode(p, s) && LayerKind(p, erased, s) != Nothing
    ensures Meets(p, f, invert, Layered(erased), v, s)
  {
    hide Field, Inverts, CodeWord, Meets, Rows, Outside, Partner, IsInverse, Paired;
    var kind := LayerKind(p, erased, s);
    if kind == FromPair { WordMeetsPair(p, f, invert, Layered(erased), v, s); }
    else if kind == FromHalf { WordMeetsHalf(p, f, invert, erased, v, s); }
    else if kind == ToCoupled { WordMeetsCoupled(p, f, invert, erased, v, s); }
    else if kind == FromTwin { WordMeetsTwin(p, f, invert, erased, v, s); }
    else { WordMeetsLines(p, f, invert, erased, v, s); }
  }
}
