/** What the Clay equations mean: the values of Encode's DAG form a code word, and every code word
    satisfies the equations of a repair. */
module ClayMeaning {
  import opened Planes
  import opened Galois
  import opened ClaySpec

  ghost function Val<F(!new)>(p: Params, v: int -> F, s: Sub): F {
    v(Id(p, s))
  }

  ghost function Vals<F(!new)>(p: Params, v: int -> F, cs: seq<Sub>): (r: seq<F>)
    ensures |r| == |cs|
  {
    seq(|cs|, i requires 0 <= i < |cs| => Val(p, v, cs[i]))
  }

  /** s has the value that its Join computes. */
  ghost predicate Meets<F(!new)>(p: Params, f: GF<F>, invert: seq<seq<F>> -> seq<seq<F>>, mode: Mode, v: int -> F, s: Sub)
    requires Fits(p) && ModeFits(p, mode) && InCode(p, s)
  {
    var (cs, coefs) := Rule(p, f, invert, mode, s);
    Val(p, v, s) == Dot(f, coefs, Vals(p, v, cs))
  }

  ghost predicate AllMeet<F(!new)>(p: Params, f: GF<F>, invert: seq<seq<F>> -> seq<seq<F>>, mode: Mode, v: int -> F)
    requires Fits(p) && ModeFits(p, mode)
  {
    forall s | InCode(p, s) && KindOf(p, mode, s) != Nothing :: Meets(p, f, invert, mode, v, s)
  }

  function AsC(s: Sub): Sub {
    s.(coupled := true)
  }

  function AsU(s: Sub): Sub {
    s.(coupled := false)
  }

  /** The pairwise transform relates s, the first of a pair, and its partner. */
  ghost predicate PairHolds<F(!new)>(p: Params, f: GF<F>, v: int -> F, s: Sub)
    requires Fits(p) && InCode(p, s)
  {
    var r := Partner(p, s);
    Pair(f, Val(p, v, AsC(s)), Val(p, v, AsC(r)), Val(p, v, AsU(s)), Val(p, v, AsU(r)))
  }

  /** The uncoupled data symbols of plane z. */
  ghost function Data<F(!new)>(p: Params, v: int -> F, z: nat): (r: seq<F>)
    requires Fits(p) && z < p.w
    ensures |r| == p.k + p.nu
  {
    FewerThanAll(p);
    seq(p.k + p.nu, i requires 0 <= i < p.k + p.nu => Val(p, v, Ua(p, i, z)))
  }

  lemma FewerThanAll(p: Params)
    requires Fits(p)
    ensures p.k + p.nu < p.Total() && p.k + p.nu == (p.t - 1) * p.q
  {
    Grid(p);
  }

  /** The uncoupled symbols of every plane form a word of the outer code. */
  ghost predicate PlaneHolds<F(!new)>(p: Params, f: GF<F>, v: int -> F, node: nat, z: nat)
    requires Fits(p) && node < p.Total() && z < p.w
  {
    Val(p, v, Ua(p, node, z)) == Dot(f, Row(f, p.k + p.nu, node), Data(p, v, z))
  }

  ghost predicate CodeWord<F(!new)>(p: Params, f: GF<F>, v: int -> F)
    requires Fits(p)
  {
    && (forall s | InCode(p, s) && First(p, s) :: PairHolds(p, f, v, s))
    && (forall node: nat, z: nat | node < p.Total() && z < p.w :: PlaneHolds(p, f, v, node, z))
  }

  // ---------------------------------------------------------------------------------------------
  // Encoding

  lemma SameFlags(p: Params, s: Sub, c: bool)
    requires Fits(p) && InCode(p, s)
    ensures InCode(p, s.(coupled := c)) && Partner(p, s.(coupled := c)) == Partner(p, s).(coupled := c)
    ensures First(p, s.(coupled := c)) <==> First(p, s)
    ensures Paired(p, s.(coupled := c)) <==> Paired(p, s)
  {}

  lemma ValsTwo<F(!new)>(p: Params, v: int -> F, a: Sub, b: Sub)
    ensures Vals(p, v, [a, b]) == [Val(p, v, a), Val(p, v, b)]
  {}

  lemma EncodedPairBelow<F(!new)>(p: Params, f: GF<F>, invert: seq<seq<F>> -> seq<seq<F>>, v: int -> F, s: Sub)
    requires Fits(p) && Field(f) && AllMeet(p, f, invert, Encoding, v) && InCode(p, s) && First(p, s) && Col(p, s.node) < p.t - 1
    ensures PairHolds(p, f, v, s)
  {
    hide Field, Pair, Partner, First, Paired, Dot, Row, InCode, Vals;
    var u := AsU(s);
    SameFlags(p, s, false);
    SameFlags(p, s, true);
    var r := Partner(p, u);
    PartnerPlace(p, u);
    PartnerOrder(p, u);
    PartnerBack(p, u);
    SameFlags(p, r, true);
    assert Meets(p, f, invert, Encoding, v, u);
    assert Meets(p, f, invert, Encoding, v, r);
    ValsTwo(p, v, AsC(u), AsC(r));
    PairRow(f, 2, Val(p, v, AsC(u)), Val(p, v, AsC(r)), Val(p, v, u), Val(p, v, r));
  }

  lemma EncodedPairTop<F(!new)>(p: Params, f: GF<F>, invert: seq<seq<F>> -> seq<seq<F>>, v: int -> F, s: Sub)
    requires Fits(p) && Field(f) && Inverts(f, invert) && AllMeet(p, f, invert, Encoding, v)
    requires InCode(p, s) && First(p, s) && Col(p, s.node) == p.t - 1
    ensures PairHolds(p, f, v, s)
  {
    hide Field, Inverts, Pair, Partner, First, Paired, Dot, Row, Rows, InCode, Vals;
    var c := AsC(s);
    SameFlags(p, s, false);
    SameFlags(p, s, true);
    var r := Partner(p, c);
    PartnerPlace(p, c);
    PartnerOrder(p, c);
    PartnerBack(p, c);
    SameFlags(p, r, false);
    assert Meets(p, f, invert, Encoding, v, c);
    assert Meets(p, f, invert, Encoding, v, r);
    ValsTwo(p, v, AsU(c), AsU(r));
    CoupledSolve(f, invert, Val(p, v, c), Val(p, v, r), Val(p, v, AsU(c)), Val(p, v, AsU(r)));
  }

  lemma OthersAtTop(p: Params, y: nat)
    requires Fits(p) && y == p.t - 1
    ensures |Others(p, y)| == p.k + p.nu && forall i | 0 <= i < p.k + p.nu :: Others(p, y)[i] == i
  {
    FewerThanAll(p);
  }

  lemma {:induction false} SolveCode<F(!new)>(p: Params, f: GF<F>, invert: seq<seq<F>> -> seq<seq<F>>, y: nat, node: nat, x: seq<F>, msg: seq<F>)
    requires Fits(p) && Field(f) && y < p.t && |x| == |msg| == p.k + p.nu
    requires var m := Rows(f, p.k + p.nu, Others(p, y)); IsInverse(f, m, invert(m)) && MatVec(f, m, msg) == x
    ensures Dot(f, CodeCoefs(p, f, invert, y, node), x) == Dot(f, Row(f, p.k + p.nu, node), msg)
  {
    hide Field, Dot, Row, VecMat, MatVec, IsInverse, Others;
    OthersFit(p, y);
    var m := Rows(f, p.k + p.nu, Others(p, y));
    InverseActs(f, m, invert(m), msg);
    DotVecMat(f, Row(f, p.k + p.nu, node), invert(m), x);
  }

  lemma EncodedPlane<F(!new)>(p: Params, f: GF<F>, invert: seq<seq<F>> -> seq<seq<F>>, v: int -> F, node: nat, z: nat)
    requires Fits(p) && Field(f) && Inverts(f, invert) && AllMeet(p, f, invert, Encoding, v) && node < p.Total() && z < p.w
    ensures PlaneHolds(p, f, v, node, z)
  {
    hide Field, Inverts, Dot, Row, Meets, Paired, Ua;
    FewerThanAll(p);
    if node < p.k + p.nu {
      UnitRow(f, p.k + p.nu, node, Data(p, v, z));
    } else {
      TopNode(p, node);
      TopKind(p, node, z);
      assert Meets(p, f, invert, Encoding, v, Ua(p, node, z));
      TopRow(p, f, invert, v, node, z);
    }
  }

  lemma TopKind(p: Params, node: nat, z: nat)
    requires Fits(p) && node < p.Total() && z < p.w && Col(p, node) == p.t - 1
    ensures KindOf(p, Encoding, Ua(p, node, z)) == FromCode
  {
    hide Digit;
  }

  lemma TopRow<F(!new)>(p: Params, f: GF<F>, invert: seq<seq<F>> -> seq<seq<F>>, v: int -> F, node: nat, z: nat)
    requires Fits(p) && Field(f) && Inverts(f, invert) && node < p.Total() && z < p.w && KindOf(p, Encoding, Ua(p, node, z)) == FromCode
    requires Meets(p, f, invert, Encoding, v, Ua(p, node, z))
    ensures PlaneHolds(p, f, v, node, z)
  {
    hide Field, Inverts, Dot, Row, MatVec, IsInverse, CodeCoefs, Partner, KindOf, Meets, Survivors, Rows, Others, Ua, Vals, Val;
    MeetsCode(p, f, invert, Encoding, v, Ua(p, node, z));
    var y, msg := p.t - 1, Data(p, v, z);
    OthersAtTop(p, y);
    var m := Rows(f, p.k + p.nu, Others(p, y));
    IdentityInverse(f, p.k + p.nu, Others(p, y));
    Inverted(f, invert, m, m);
    SolveCode(p, f, invert, y, node, msg, msg);
    TopSurvivors(p, v, z);
  }

  lemma MeetsCode<F(!new)>(p: Params, f: GF<F>, invert: seq<seq<F>> -> seq<seq<F>>, mode: Mode, v: int -> F, s: Sub)
    requires Fits(p) && ModeFits(p, mode) && !mode.Layered? && InCode(p, s) && KindOf(p, mode, s) == FromCode
    ensures Meets(p, f, invert, mode, v, s) <==>
              Val(p, v, s) == Dot(f, CodeCoefs(p, f, invert, Erased(p, mode), s.node), Vals(p, v, Survivors(p, Erased(p, mode), s.z)))
  {
    hide Dot, CodeCoefs, Survivors, Vals, KindOf, Partner;
  }

  lemma TopSurvivors<F(!new)>(p: Params, v: int -> F, z: nat)
    requires Fits(p) && z < p.w
    ensures Vals(p, v, Survivors(p, p.t - 1, z)) == Data(p, v, z)
  {
    hide Ua, Others;
    OthersAtTop(p, p.t - 1);
    FewerThanAll(p);
  }

  lemma TopNode(p: Params, node: nat)
    requires Fits(p) && node < p.Total()
    ensures Col(p, node) == p.t - 1 <==> p.k + p.nu <= node
    ensures Col(p, node) < p.t
  {
    NodeFits(p, node);
    FewerThanAll(p);
    if node < p.k + p.nu { DivBelow(node, p.t - 1, p.q); }
    else { Gap2(Col(p, node), p.t - 1, p.q, node % p.q); }
  }

  lemma Gap2(a: nat, b: nat, q: nat, r: nat)
    requires r < q && b * q <= a * q + r
    ensures b <= a
  {
    if a < b { Gap(a, b, q); }
  }

  /** Whatever solves the equations of Encode is a code word. */
  lemma EncodeGivesWord<F(!new)>(p: Params, f: GF<F>, invert: seq<seq<F>> -> seq<seq<F>>, v: int -> F)
    requires Fits(p) && Field(f) && Inverts(f, invert) && AllMeet(p, f, invert, Encoding, v)
    ensures CodeWord(p, f, v)
  {
    hide Field, Inverts, AllMeet, PairHolds, PlaneHolds, Partner;
    forall s | InCode(p, s) && First(p, s) ensures PairHolds(p, f, v, s) {
      NodeFits(p, s.node);
      if Col(p, s.node) < p.t - 1 { EncodedPairBelow(p, f, invert, v, s); } else { EncodedPairTop(p, f, invert, v, s); }
    }
    forall node: nat, z: nat | node < p.Total() && z < p.w ensures PlaneHolds(p, f, v, node, z) {
      EncodedPlane(p, f, invert, v, node, z);
    }
  }

  // ---------------------------------------------------------------------------------------------
  // Repairing

  lemma WordPair<F(!new)>(p: Params, f: GF<F>, v: int -> F, s: Sub)
    requires Fits(p) && CodeWord(p, f, v) && InCode(p, s) && First(p, s)
    ensures PairHolds(p, f, v, s)
  {}

  lemma WordMeetsPair<F(!new)>(p: Params, f: GF<F>, invert: seq<seq<F>> -> seq<seq<F>>, mode: Mode, v: int -> F, s: Sub)
    requires Fits(p) && ModeFits(p, mode) && Field(f) && CodeWord(p, f, v) && InCode(p, s) && KindOf(p, mode, s) == FromPair
    ensures Meets(p, f, invert, mode, v, s)
  {
    hide Field, Pair, Partner, First, Paired, Dot, Row, InCode, Vals, CodeWord;
    var r := Partner(p, s);
    PartnerIn(p, s);
    PartnerOrder(p, s);
    PartnerBack(p, s);
    var first := if First(p, s) then s else r;
    WordPair(p, f, v, first);
    var second := Partner(p, first);
    ValsTwo(p, v, AsC(first), AsC(second));
    PairRow(f, 2, Val(p, v, AsC(first)), Val(p, v, AsC(second)), Val(p, v, first), Val(p, v, second));
  }

  lemma WordMeetsCode<F(!new)>(p: Params, f: GF<F>, invert: seq<seq<F>> -> seq<seq<F>>, mode: Mode, v: int -> F, s: Sub)
    requires Fits(p) && ModeFits(p, mode) && !mode.Layered? && Field(f) && CodeWord(p, f, v) && InCode(p, s) && KindOf(p, mode, s) == FromCode
    requires var m := Rows(f, p.k + p.nu, Others(p, Erased(p, mode))); IsInverse(f, m, invert(m))
    ensures Meets(p, f, invert, mode, v, s)
  {
    hide Field, Dot, Row, MatVec, IsInverse, CodeCoefs, Others, Partner;
    var y := Erased(p, mode);
    OthersFit(p, y);
    var msg := Data(p, v, s.z);
    var x := Vals(p, v, Survivors(p, y, s.z));
    var m := Rows(f, p.k + p.nu, Others(p, y));
    assert MatVec(f, m, msg) == x by { SurvivorValues(p, f, v, y, s.z); }
    SolveCode(p, f, invert, y, s.node, x, msg);
    assert PlaneHolds(p, f, v, s.node, s.z);
    assert Ua(p, s.node, s.z) == s;
  }

  lemma SurvivorValues<F(!new)>(p: Params, f: GF<F>, v: int -> F, y: nat, z: nat)
    requires Fits(p) && CodeWord(p, f, v) && y < p.t && z < p.w
    ensures MatVec(f, Rows(f, p.k + p.nu, Others(p, y)), Data(p, v, z)) == Vals(p, v, Survivors(p, y, z))
  {
    hide Dot, Row, Others;
    OthersFit(p, y);
    var m := Rows(f, p.k + p.nu, Others(p, y));
    forall i | 0 <= i < p.k + p.nu ensures MatVec(f, m, Data(p, v, z))[i] == Vals(p, v, Survivors(p, y, z))[i] {
      assert PlaneHolds(p, f, v, Others(p, y)[i], z);
    }
  }

  lemma WordMeetsHelper<F(!new)>(p: Params, f: GF<F>, invert: seq<seq<F>> -> seq<seq<F>>, mode: Mode, v: int -> F, s: Sub)
    requires Fits(p) && ModeFits(p, mode) && Field(f) && Inverts(f, invert) && CodeWord(p, f, v)
    requires InCode(p, s) && KindOf(p, mode, s) == FromHelper
    ensures Meets(p, f, invert, mode, v, s)
  {
    hide Field, Inverts, Pair, Partner, First, Paired, Dot, Row, InCode, Vals, CodeWord;
    var r := Partner(p, s);
    PartnerIn(p, s);
    PartnerOrder(p, s);
    PartnerBack(p, s);
    var first := if First(p, r) then r else s;
    WordPair(p, f, v, first);
    var second := Partner(p, first);
    ValsTwo(p, v, r, AsU(r));
    var c0, c1, u2, u3 := Val(p, v, AsC(first)), Val(p, v, AsC(second)), Val(p, v, AsU(first)), Val(p, v, AsU(second));
    if First(p, r) {
      SelectionSolves(f, invert, 0, 2, 1, c0, c1, u2, u3);
    } else {
      SelectionSolves(f, invert, 1, 3, 0, c0, c1, u2, u3);
    }
  }

  /** Every code word satisfies the equations of a repair, if the inverse of the selected rows is one. */
  lemma WordMeetsRepair<F(!new)>(p: Params, f: GF<F>, invert: seq<seq<F>> -> seq<seq<F>>, lost: nat, v: int -> F)
    requires Fits(p) && ModeFits(p, Repairing(lost)) && Field(f) && Inverts(f, invert) && CodeWord(p, f, v)
    requires Invertible(f, Rows(f, p.k + p.nu, Others(p, Erased(p, Repairing(lost)))))
    ensures AllMeet(p, f, invert, Repairing(lost), v)
  {
    hide Field, CodeWord, Meets, Rows, Others, Partner, IsInverse, InCode;
    var mode := Repairing(lost);
    InverseThere(f, invert, Rows(f, p.k + p.nu, Others(p, Erased(p, mode))));
    forall s | InCode(p, s) && KindOf(p, mode, s) != Nothing ensures Meets(p, f, invert, mode, v, s) {
      match KindOf(p, mode, s)
      case FromPair => WordMeetsPair(p, f, invert, mode, v, s);
      case FromCode => WordMeetsCode(p, f, invert, mode, v, s);
      case FromHelper => WordMeetsHelper(p, f, invert, mode, v, s);
      case ToCoupled =>
    }
  }

  lemma InverseThere<F(!new)>(f: GF<F>, invert: seq<seq<F>> -> seq<seq<F>>, m: seq<seq<F>>)
    requires Inverts(f, invert) && Invertible(f, m)
    ensures IsInverse(f, m, invert(m))
  {}
}
