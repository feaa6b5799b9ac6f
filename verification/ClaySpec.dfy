/** The Clay code with d = n - 1 (src/ec/Clay.cc): its indices, and the equations that Encode and Decode
    are meant to set up. */
module ClaySpec {
  import opened Planes
  import opened Galois

  /** _n, _k, _q, _nu, _t and _w; _m is q, and the outer code has k + nu data and q parity nodes. */
  datatype Params = Params(n: nat, k: nat, q: nat, nu: nat, t: nat, w: nat) {
    /** All nodes, shortened ones included: a grid of q rows and t columns. */
    function Total(): nat {
      n + nu
    }
  }

  /** a * b, by repeated addition. */
  function Product(a: nat, b: nat): nat {
    if b == 0 then 0 else Product(a, b - 1) + a
  }

  lemma {:induction false} ProductIs(a: nat, b: nat)
    ensures Product(a, b) == a * b
  {
    if b > 0 {
      ProductIs(a, b - 1);
      assert a * b == a * (b - 1) + a;
    }
  }

  /** q to the t-th, by repeated addition. */
  function PlaneTotal(q: nat, t: nat): nat {
    if t == 0 then 1 else Product(PlaneTotal(q, t - 1), q)
  }

  lemma {:induction false} PlaneTotalIs(q: nat, t: nat)
    ensures PlaneTotal(q, t) == Pow(q, t)
  {
    if t > 0 {
      PlaneTotalIs(q, t - 1);
      ProductIs(PlaneTotal(q, t - 1), q);
    }
  }

  ghost predicate Fits(p: Params) {
    && 0 < p.k < p.n && p.q == p.n - p.k && p.nu < p.q && 1 < p.t
    && p.n + p.nu == Product(p.q, p.t) && p.w == PlaneTotal(p.q, p.t)
  }

  lemma Grid(p: Params)
    requires Fits(p)
    ensures p.Total() == p.q * p.t && p.q * (p.t - 1) == p.Total() - p.q && p.w == Pow(p.q, p.t)
  {
    ProductIs(p.q, p.t);
    PlaneTotalIs(p.q, p.t);
    assert p.q * (p.t - 1) == p.q * p.t - p.q;
  }

  lemma FitsFacts(p: Params)
    requires Fits(p)
    ensures 0 < p.q && 0 < p.w && 1 < p.t
  {
    Grid(p);
    PowPositive(p.q, p.t);
  }

  /** The parameters the constructor computes from n and k with d = n - 1 (src/ec/Clay.cc:26-57). */
  function ParamsOf(n: nat, k: nat): (p: Params)
    requires 0 < k < n
    ensures Fits(p) && p.n == n && p.k == k
  {
    var q := n - k;
    var nu := if n % q != 0 then q - n % q else 0;
    var t := (n + nu) / q;
    Columns(n, k, q, nu, t);
    ProductIs(q, t);
    PlaneTotalIs(q, t);
    Params(n, k, q, nu, t, Pow(q, t))
  }

  lemma Columns(n: nat, k: nat, q: nat, nu: nat, t: nat)
    requires 0 < k < n && q == n - k && nu == (if n % q != 0 then q - n % q else 0) && t == (n + nu) / q
    ensures nu < q && 1 < t && n + nu == q * t && k + nu == q * (t - 1)
  {
    var a, r := n / q, n % q;
    assert n == a * q + r;
    if r != 0 {
      assert n + nu == (a + 1) * q + 0 by { assert (a + 1) * q == a * q + q; }
      DivMod(a + 1, q, 0);
    } else {
      DivMod(a, q, 0);
    }
    assert t * q == n + nu;
    assert t == 0 ==> t * q == 0;
    assert t == 1 ==> t * q == q;
    assert q * (t - 1) == q * t - q;
  }

  // ---------------------------------------------------------------------------------------------
  // Sub-chunks and their indices

  /** A sub-chunk of a node, numbered with the shortened nodes between data and parity. */
  datatype Sub = Sub(coupled: bool, node: nat, z: nat)

  ghost predicate InCode(p: Params, s: Sub) {
    s.node < p.Total() && s.z < p.w
  }

  /** Where a node really is: shortened nodes come after all others. */
  function Real(p: Params, node: nat): int {
    if node < p.k then node else if node < p.k + p.nu then p.n + node - p.k else node - p.nu
  }

  function Flat(node: int, w: nat, z: nat): int {
    node * w + z
  }

  function Half(p: Params, coupled: bool): nat {
    if coupled then 0 else (p.n + p.nu) * p.w
  }

  function ShortId(p: Params, s: Sub): int {
    Flat(s.node, p.w, s.z) + Half(p, s.coupled)
  }

  function Id(p: Params, s: Sub): int {
    Flat(Real(p, s.node), p.w, s.z) + Half(p, s.coupled)
  }

  lemma RealFits(p: Params, node: nat)
    requires Fits(p) && node < p.Total()
    ensures 0 <= Real(p, node) < p.Total()
  {}

  lemma RealInjective(p: Params, a: nat, b: nat)
    requires Fits(p) && a < p.Total() && b < p.Total() && Real(p, a) == Real(p, b)
    ensures a == b
  {}

  lemma FlatInjective(p: Params, a: nat, y: nat, aHalf: bool, b: nat, z: nat, bHalf: bool)
    requires Fits(p) && a < p.Total() && b < p.Total() && y < p.w && z < p.w
    requires Flat(a, p.w, y) + Half(p, aHalf) == Flat(b, p.w, z) + Half(p, bHalf)
    ensures a == b && y == z && aHalf == bHalf
  {
    var n := p.Total();
    assert n == p.n + p.nu;
    Below(a, n, p.w, y);
    Below(b, n, p.w, z);
    DivMod(a, p.w, y);
    DivMod(b, p.w, z);
  }

  /** Different sub-chunks have different indices. */
  lemma IdInjective(p: Params, a: Sub, b: Sub)
    requires Fits(p) && InCode(p, a) && InCode(p, b) && Id(p, a) == Id(p, b)
    ensures a == b
  {
    hide Flat, Half;
    RealFits(p, a.node);
    RealFits(p, b.node);
    FlatInjective(p, Real(p, a.node), a.z, a.coupled, Real(p, b.node), b.z, b.coupled);
    RealInjective(p, a.node, b.node);
  }

  lemma ShortIdInjective(p: Params, a: Sub, b: Sub)
    requires Fits(p) && InCode(p, a) && InCode(p, b) && ShortId(p, a) == ShortId(p, b)
    ensures a == b
  {
    hide Flat, Half;
    FlatInjective(p, a.node, a.z, a.coupled, b.node, b.z, b.coupled);
  }

  // ---------------------------------------------------------------------------------------------
  // Pairs

  /** Row and column of a node. */
  function Col(p: Params, node: nat): nat
    requires 0 < p.q
  {
    node / p.q
  }

  lemma NodeFits(p: Params, node: nat)
    requires Fits(p) && node < p.Total()
    ensures 0 < p.q && Col(p, node) < p.t && node % p.q < p.q && node == Col(p, node) * p.q + node % p.q
  {
    Grid(p);
    NodeColumn(p.q, p.t, node);
  }

  lemma NodeOf(p: Params, x: nat, y: nat)
    requires Fits(p) && x < p.q && y < p.t
    ensures y * p.q + x < p.Total() && Col(p, y * p.q + x) == y && (y * p.q + x) % p.q == x
  {
    Grid(p);
    Below(y, p.t, p.q, x);
    DivMod(y, p.q, x);
  }

  /** The digit of plane z in column y. */
  ghost function Digit(p: Params, z: nat, y: nat): (d: nat)
    requires Fits(p) && y < p.t
    ensures d < p.q
  {
    Digits(p.q, p.t, z)[y]
  }

  ghost predicate Paired(p: Params, s: Sub)
    requires Fits(p) && InCode(p, s)
  {
    NodeFits(p, s.node);
    Digit(p, s.z, Col(p, s.node)) != s.node % p.q
  }

  /** The member of a pair that the code calls 0 and 2: its plane has the smaller digit. */
  ghost predicate First(p: Params, s: Sub)
    requires Fits(p) && InCode(p, s)
  {
    NodeFits(p, s.node);
    Digit(p, s.z, Col(p, s.node)) < s.node % p.q
  }

  /** (x, y, z) goes with (z[y], y, z with digit y set to x). */
  ghost function Partner(p: Params, s: Sub): Sub
    requires Fits(p) && InCode(p, s)
  {
    NodeFits(p, s.node);
    var y, x := Col(p, s.node), s.node % p.q;
    NodeOf(p, Digit(p, s.z, y), y);
    Grid(p);
    SwapDigits(p.q, p.t, s.z, y, x);
    Sub(s.coupled, y * p.q + Digit(p, s.z, y), Swap(p.q, p.t, s.z, y, x))
  }

  lemma PartnerIn(p: Params, s: Sub)
    requires Fits(p) && InCode(p, s)
    ensures InCode(p, Partner(p, s)) && Partner(p, s).coupled == s.coupled
  {
    hide Digits, Swap;
    NodeFits(p, s.node);
    NodeOf(p, Digit(p, s.z, Col(p, s.node)), Col(p, s.node));
    Grid(p);
    SwapDigits(p.q, p.t, s.z, Col(p, s.node), s.node % p.q);
  }

  lemma PartnerPlace(p: Params, s: Sub)
    requires Fits(p) && InCode(p, s)
    ensures InCode(p, Partner(p, s)) && Partner(p, s).coupled == s.coupled
    ensures Col(p, s.node) < p.t && Col(p, Partner(p, s).node) == Col(p, s.node)
    ensures Partner(p, s).node % p.q == Digit(p, s.z, Col(p, s.node))
  {
    hide Digit, Swap;
    PartnerIn(p, s);
    NodeFits(p, s.node);
    NodeOf(p, Digit(p, s.z, Col(p, s.node)), Col(p, s.node));
  }

  lemma PartnerDigits(p: Params, s: Sub, y: nat)
    requires Fits(p) && InCode(p, s) && y < p.t
    ensures InCode(p, Partner(p, s)) && Digit(p, Partner(p, s).z, y) == if y == Col(p, s.node) then s.node % p.q else Digit(p, s.z, y)
  {
    hide Digits, Swap;
    PartnerIn(p, s);
    NodeFits(p, s.node);
    Grid(p);
    SwapDigits(p.q, p.t, s.z, Col(p, s.node), s.node % p.q);
  }

  /** Pairing is an involution. */
  lemma PartnerBack(p: Params, s: Sub)
    requires Fits(p) && InCode(p, s)
    ensures InCode(p, Partner(p, s)) && Partner(p, Partner(p, s)) == s
  {
    hide Digits, Swap;
    PartnerIn(p, s);
    NodeFits(p, s.node);
    PartnerPlace(p, s);
    PartnerDigits(p, s, Col(p, s.node));
    Grid(p);
    SwapBack(p.q, p.t, s.z, Col(p, s.node), s.node % p.q);
  }

  /** Of a pair, exactly one comes first, and it is in the earlier plane. */
  lemma PartnerOrder(p: Params, s: Sub)
    requires Fits(p) && InCode(p, s)
    ensures InCode(p, Partner(p, s)) && (Paired(p, Partner(p, s)) <==> Paired(p, s))
    ensures First(p, s) ==> Paired(p, s) && !First(p, Partner(p, s)) && s.z < Partner(p, s).z
    ensures Paired(p, s) && !First(p, s) ==> First(p, Partner(p, s)) && Partner(p, s).z < s.z
  {
    hide Digits, Swap;
    PartnerIn(p, s);
    NodeFits(p, s.node);
    PartnerPlace(p, s);
    PartnerDigits(p, s, Col(p, s.node));
    SwapOrder(p.q, p.t, s.z, Col(p, s.node), s.node % p.q);
  }

  /** The uncoupled value of a node in a plane is kept under the coupled index when it is unpaired. */
  ghost function Ua(p: Params, node: nat, z: nat): (s: Sub)
    requires Fits(p) && node < p.Total() && z < p.w
    ensures InCode(p, s) && s.node == node && s.z == z
  {
    Sub(!Paired(p, Sub(false, node, z)), node, z)
  }

  // ---------------------------------------------------------------------------------------------
  // What is computed from what

  /** Encode, the repair of one node, and the layered decoding of q erased nodes. */
  datatype Mode = Encoding | Repairing(lost: nat) | Layered(erased: set<nat>)

  ghost predicate ModeFits(p: Params, mode: Mode) {
    && (mode.Repairing? ==> mode.lost < p.Total() && !(p.k <= mode.lost < p.k + p.nu))
    && (mode.Layered? ==> ErasedFits(p, mode.erased))
  }

  ghost predicate ErasedFits(p: Params, erased: set<nat>) {
    |erased| == p.q && forall node | node in erased :: node < p.Total()
  }

  /** The column whose uncoupled values come out of the outer code. */
  ghost function Erased(p: Params, mode: Mode): (y: nat)
    requires Fits(p) && ModeFits(p, mode) && !mode.Layered?
    ensures y < p.t
  {
    if mode.Encoding? then p.t - 1 else NodeFits(p, mode.lost); Col(p, mode.lost)
  }

  /** The planes that are worked on: those where a lost node is unpaired in a repair, otherwise all. */
  ghost predicate Active(p: Params, mode: Mode, z: nat)
    requires Fits(p) && ModeFits(p, mode)
  {
    !mode.Repairing? || (NodeFits(p, mode.lost); Digit(p, z, Col(p, mode.lost)) == mode.lost % p.q)
  }

  /** What must be there beforehand. */
  ghost predicate Given(p: Params, mode: Mode, s: Sub)
    requires Fits(p) && ModeFits(p, mode) && InCode(p, s)
  {
    && s.coupled
    && if mode.Encoding? then Col(p, s.node) < p.t - 1 else if mode.Layered? then s.node !in mode.erased
       else s.node != mode.lost && Active(p, mode, s.z)
  }

  datatype Origin = FromPair | FromCode | ToCoupled | FromHelper | FromHalf | FromTwin | Nothing

  /** How a sub-chunk is computed. */
  ghost function KindOf(p: Params, mode: Mode, s: Sub): Origin
    requires Fits(p) && ModeFits(p, mode) && InCode(p, s)
  {
    if mode.Layered? then LayerKind(p, mode.erased, s)
    else if !s.coupled then
      if !Paired(p, s) || !Active(p, mode, s.z) then Nothing
      else if Col(p, s.node) == Erased(p, mode) then FromCode else FromPair
    else if mode.Encoding? then
      if Col(p, s.node) != p.t - 1 then Nothing else if Paired(p, s) then ToCoupled else FromCode
    else
      if s.node != mode.lost then Nothing else if Paired(p, s) then FromHelper else FromCode
  }

  /** In layered decoding it depends on whether the node and its partner in the plane are erased. */
  ghost function LayerKind(p: Params, erased: set<nat>, s: Sub): Origin
    requires Fits(p) && InCode(p, s)
  {
    if !s.coupled then
      if !Paired(p, s) then Nothing
      else if s.node in erased then FromCode
      else if Partner(p, s).node in erased then FromHalf else FromPair
    else
      if s.node !in erased then Nothing
      else if !Paired(p, s) then FromCode
      else if Partner(p, s).node in erased then ToCoupled else FromTwin
  }

  /** The nodes below m that are not erased, in order. */
  ghost function Outside(erased: set<nat>, m: nat): (r: seq<nat>)
    ensures forall i | 0 <= i < |r| :: r[i] < m && r[i] !in erased
  {
    if m == 0 then [] else Outside(erased, m - 1) + if m - 1 in erased then [] else [m - 1]
  }

  /** The uncoupled values of some nodes in a plane. */
  ghost function LineSubs(p: Params, lines: seq<nat>, z: nat): (r: seq<Sub>)
    requires Fits(p) && z < p.w && forall i | 0 <= i < |lines| :: lines[i] < p.Total()
    ensures |r| == |lines| && forall i | 0 <= i < |r| :: r[i] == Ua(p, lines[i], z)
  {
    seq(|lines|, i requires 0 <= i < |lines| => Ua(p, lines[i], z))
  }

  /** Row i of the outer code in terms of some nodes. */
  function LineCoefs<F(!new)>(p: Params, f: GF<F>, invert: seq<seq<F>> -> seq<seq<F>>, lines: seq<nat>, i: nat): seq<F> {
    var mds_k := p.k + p.nu;
    Multiply(f, Row(f, mds_k, i), invert(Rows(f, mds_k, lines)), mds_k)
  }

  /** The nodes outside column y, in order. */
  function Others(p: Params, y: nat): seq<nat> {
    seq(p.k + p.nu, i requires 0 <= i < p.k + p.nu => if i < y * p.q then i else i + p.q)
  }

  lemma OthersFit(p: Params, y: nat)
    requires Fits(p) && y < p.t
    ensures |Others(p, y)| == p.k + p.nu
    ensures forall i | 0 <= i < p.k + p.nu :: Others(p, y)[i] < p.Total() && Col(p, Others(p, y)[i]) != y
  {
    Grid(p);
    var o := Others(p, y);
    forall i | 0 <= i < |o| ensures o[i] < p.Total() && Col(p, o[i]) != y {
      if i < y * p.q { DivBelow(i, y, p.q); } else {
        NodeFits(p, i + p.q);
        var c := Col(p, i + p.q);
        assert c == y ==> i + p.q < y * p.q + p.q;
      }
    }
  }

  ghost function Survivors(p: Params, y: nat, z: nat): seq<Sub>
    requires Fits(p) && y < p.t && z < p.w
  {
    OthersFit(p, y);
    seq(p.k + p.nu, i requires 0 <= i < p.k + p.nu => Ua(p, Others(p, y)[i], z))
  }

  /** The arguments of the Join that produces s: children and coefficients. */
  ghost function Rule<F(!new)>(p: Params, f: GF<F>, invert: seq<seq<F>> -> seq<seq<F>>, mode: Mode, s: Sub): (seq<Sub>, seq<F>)
    requires Fits(p) && ModeFits(p, mode) && InCode(p, s)
  {
    var r := Partner(p, s);
    PartnerIn(p, s);
    match KindOf(p, mode, s)
    case FromPair =>
      if First(p, s) then ([Sub(true, s.node, s.z), Sub(true, r.node, r.z)], Row(f, 2, 2))
      else ([Sub(true, r.node, r.z), Sub(true, s.node, s.z)], Row(f, 2, 3))
    case FromCode =>
      if mode.Layered? then
        var lines := Outside(mode.erased, p.Total());
        (LineSubs(p, lines, s.z), LineCoefs(p, f, invert, lines, s.node))
      else
        var y := Erased(p, mode);
        (Survivors(p, y, s.z), CodeCoefs(p, f, invert, y, s.node))
    case ToCoupled =>
      var t := invert(Rows(f, 2, [2, 3]));
      if First(p, s) then ([Sub(false, s.node, s.z), Sub(false, r.node, r.z)], RowAt(t, 0))
      else ([Sub(false, r.node, r.z), Sub(false, s.node, s.z)], RowAt(t, 1))
    case FromHelper =>
      ([r, Sub(false, r.node, r.z)], if First(p, r) then PairCoefs(f, invert, 0, 2, 1) else PairCoefs(f, invert, 1, 3, 0))
    case FromHalf =>
      ([Sub(true, s.node, s.z), Sub(false, r.node, r.z)], if First(p, s) then PairCoefs(f, invert, 0, 3, 2) else PairCoefs(f, invert, 1, 2, 3))
    case FromTwin =>
      ([Sub(true, r.node, r.z), Sub(false, s.node, s.z)], if First(p, s) then PairCoefs(f, invert, 1, 2, 0) else PairCoefs(f, invert, 0, 3, 1))
    case Nothing => ([], [])
  }

  function RowAt<F>(m: seq<seq<F>>, i: nat): seq<F> {
    if i < |m| then m[i] else []
  }

  /** Row target of the transform in terms of rows r and s. */
  function PairCoefs<F(!new)>(f: GF<F>, invert: seq<seq<F>> -> seq<seq<F>>, r: nat, s: nat, target: nat): seq<F> {
    var t := invert(Rows(f, 2, [r, s]));
    Multiply(f, Row(f, 2, target), t, 2)
  }

  /** Row i of the outer code in terms of the nodes outside column y. */
  function CodeCoefs<F(!new)>(p: Params, f: GF<F>, invert: seq<seq<F>> -> seq<seq<F>>, y: nat, i: nat): seq<F> {
    var mds_k := p.k + p.nu;
    Multiply(f, Row(f, mds_k, i), invert(Rows(f, mds_k, Others(p, y))), mds_k)
  }

  /** JerasureMatrixMultiply(v, m, 1, n, n, n); nothing is promised for a badly shaped matrix. */
  function Multiply<F(!new)>(f: GF<F>, v: seq<F>, m: seq<seq<F>>, n: nat): seq<F> {
    if |v| == |m| && forall i | 0 <= i < |m| :: |m[i]| == n then VecMat(f, v, m, n) else []
  }
}
