/** Why DecodeSingle's combinations give a lost data node back (src/ec/HHXORPlus.cc:261-459). */
module HitchhikerRepair {
  import opened Galois
  import opened HitchhikerSpec

  /** What the calls into jerasure and gf_complete provide. */
  datatype Solver<!F(!new)> = Solver(invert: seq<seq<F>> -> seq<seq<F>>, divide: (F, F) -> F)

  ghost predicate Solves<F(!new)>(f: GF<F>, s: Solver<F>) {
    Inverts(f, s.invert) && forall a, b | b != f.zero :: f.mul(b, s.divide(a, b)) == a
  }

  // ---------------------------------------------------------------------------------------------
  // The combinations of a repair

  /** The sub-packets 1 that are read: of the other data nodes and of the first parity node. */
  function Survivors(p: Params, failed: nat): (r: seq<nat>)
    requires failed < p.k
    ensures |r| == p.k
  {
    Places(p, 1, Except(p.k, failed)) + [CodeAt(p, 1, 0)]
  }

  lemma SurvivorsAre(p: Params, failed: nat, place: nat)
    requires failed < p.k
    ensures place in Survivors(p, failed) <==> place == CodeAt(p, 1, 0) || exists d: nat :: d < p.k && d != failed && place == DataAt(p, 1, d)
  {
    var r := Survivors(p, failed);
    if exists d: nat :: d < p.k && d != failed && place == DataAt(p, 1, d) {
      var d: nat :| d < p.k && d != failed && place == DataAt(p, 1, d);
      assert r[if d < failed then d else d - 1] == DataAt(p, 1, d);
    }
    assert r[p.k - 1] == CodeAt(p, 1, 0);
  }

  function Recover<F(!new)>(p: Params, f: GF<F>, failed: nat): (m: seq<seq<F>>)
    requires failed < p.k
    ensures Shaped(m, p.k, p.k)
  {
    OneOut(f, CodeRow(p, f, p.k), failed)
  }

  /** The group's unknown, from the other members and the group code. */
  function RecoverGroup<F(!new)>(p: Params, f: GF<F>, failed: nat, g: nat): seq<seq<F>>
    requires p.Fits() && 1 <= g <= p.Groups() && Start(Average(p), g) <= failed < End(p, g)
  {
    OneOut(f, GroupLine(p, f, g), failed - Start(Average(p), g))
  }

  ghost predicate Usable<F(!new)>(p: Params, f: GF<F>, s: Solver<F>, failed: nat)
    requires failed < p.k
  {
    IsInverse(f, Recover(p, f, failed), s.invert(Recover(p, f, failed)))
  }

  function FirstBack<F(!new)>(p: Params, s: Solver<F>, f: GF<F>, failed: nat): Combination<F>
    requires failed < p.k && |s.invert(Recover(p, f, failed))| == p.k
  {
    Combination(DataAt(p, 1, failed), Survivors(p, failed), s.invert(Recover(p, f, failed))[failed])
  }

  function ParityBack<F(!new)>(p: Params, s: Solver<F>, f: GF<F>, failed: nat, g: nat): Combination<F>
    requires p.Fits() && failed < p.k && Shaped(s.invert(Recover(p, f, failed)), p.k, p.k)
  {
    Combination(UncoupledAt(p, 1, g), Survivors(p, failed), VecMat(f, CodeRow(p, f, p.k + g), s.invert(Recover(p, f, failed)), p.k))
  }

  function GroupBack<F(!new)>(p: Params, f: GF<F>, g: nat): Combination<F>
    requires p.Fits()
  {
    Combination(GroupAt(p, g), [UncoupledAt(p, 1, g), CodeAt(p, 1, g)], [f.one, f.one])
  }

  function SecondBack<F(!new)>(p: Params, s: Solver<F>, f: GF<F>, failed: nat, g: nat): Combination<F>
    requires p.Fits() && 1 <= g <= p.Groups() && Start(Average(p), g) <= failed < End(p, g)
    requires |s.invert(RecoverGroup(p, f, failed, g))| == |Members(p, g)|
  {
    var at := failed - Start(Average(p), g);
    Combination(DataAt(p, 0, failed), Places(p, 0, Drop(Members(p, g), at)) + [GroupAt(p, g)], s.invert(RecoverGroup(p, f, failed, g))[at])
  }

  /** The couples of the first m groups: the uncoupled parity and the coupled one it is in. */
  function Couples(p: Params, m: nat): (r: seq<nat>)
    requires p.Fits()
    ensures |r| == 2 * m
  {
    if m == 0 then [] else Couples(p, m - 1) + [UncoupledAt(p, 1, m), if m == 1 then CodeAt(p, 0, 1) else CodeAt(p, 1, m)]
  }

  function Ones<F(!new)>(f: GF<F>, m: nat): (r: seq<F>)
    ensures |r| == m
  {
    seq(m, _ => f.one)
  }

  function AllCouples<F(!new)>(p: Params, f: GF<F>): Combination<F>
    requires p.Fits()
  {
    Combination(LastAt(p), Couples(p, p.Groups()), Ones(f, 2 * p.Groups()))
  }

  function LastBack<F(!new)>(p: Params, s: Solver<F>, f: GF<F>): Combination<F>
    requires p.Fits()
  {
    Combination(DataAt(p, 0, p.k - 1), [LastAt(p)], [s.divide(f.one, CodeRow(p, f, p.k + 1)[p.k - 1])])
  }

  // ---------------------------------------------------------------------------------------------
  // Coefficients that are not zero

  lemma OneNotZero<F(!new)>(f: GF<F>)
    requires Field(f)
    ensures f.one != f.zero
  {
    hide Field;
    Elements(f);
    ProductLaws(f, f.elem(2), f.one, f.one);
  }

  lemma ProductNotZero<F(!new)>(f: GF<F>, a: F, b: F)
    requires Field(f) && a != f.zero && b != f.zero
    ensures f.mul(a, b) != f.zero
  {
    hide Field;
    var a' := InverseOf(f, a);
    OneNotZero(f);
    ProductLaws(f, a', a, b);
    ProductLaws(f, b, f.one, f.one);
    ProductLaws(f, a', f.zero, f.zero);
  }

  lemma {:induction false} PowerNotZero<F(!new)>(f: GF<F>, a: F, j: nat)
    requires Field(f) && a != f.zero
    ensures Power(f, a, j) != f.zero
  {
    hide Field;
    if j == 0 {
      OneNotZero(f);
    } else {
      PowerNotZero(f, a, j - 1);
      ProductNotZero(f, Power(f, a, j - 1), a);
    }
  }

  lemma CoefficientNotZero<F(!new)>(p: Params, f: GF<F>, i: nat)
    requires Field(f) && i < p.k
    ensures CodeRow(p, f, p.k)[i] != f.zero && CodeRow(p, f, p.k + 1)[i] != f.zero
  {
    hide Field, Power;
    OneNotZero(f);
    Elements(f);
    PowerNotZero(f, f.elem(2), i);
    PowerNotZero(f, f.elem(1), i);
  }

  /** The rows that a repair of any data node selects can be inverted. */
  lemma RecoverInverse<F(!new)>(p: Params, f: GF<F>, s: Solver<F>, failed: nat)
    requires Field(f) && Solves(f, s) && failed < p.k
    ensures Usable(p, f, s, failed)
  {
    hide Field, CodeRow, OneOut, IsInverse, Invertible;
    CoefficientNotZero(p, f, failed);
    OneOutInvertible(f, CodeRow(p, f, p.k), failed);
    InvertedBy(f, s, Recover(p, f, failed));
  }

  lemma RecoverGroupInverse<F(!new)>(p: Params, f: GF<F>, s: Solver<F>, failed: nat, g: nat)
    requires Field(f) && Solves(f, s) && p.Fits() && 1 <= g <= p.Groups() && Start(Average(p), g) <= failed < End(p, g)
    ensures IsInverse(f, RecoverGroup(p, f, failed, g), s.invert(RecoverGroup(p, f, failed, g)))
  {
    hide Field, CodeRow, OneOut, IsInverse, Invertible, Start, End;
    var c, at := GroupLine(p, f, g), failed - Start(Average(p), g);
    assert Members(p, g)[at] == failed;
    CoefficientNotZero(p, f, failed);
    OneOutInvertible(f, c, at);
    InvertedBy(f, s, RecoverGroup(p, f, failed, g));
  }

  lemma InvertedBy<F(!new)>(f: GF<F>, s: Solver<F>, m: seq<seq<F>>)
    requires Solves(f, s) && Invertible(f, m)
    ensures IsInverse(f, m, s.invert(m))
  {
    hide IsInverse, Invertible;
  }

  // ---------------------------------------------------------------------------------------------
  // Solving

  /** The inverse applied to what a matrix makes of x gives x, and any combination of x. */
  lemma Solving<F(!new)>(f: GF<F>, m: seq<seq<F>>, t: seq<seq<F>>, x: seq<F>, known: seq<F>, row: seq<F>, i: nat)
    requires Field(f) && IsInverse(f, m, t) && |x| == |m| == |row| && known == MatVec(f, m, x) && i < |x|
    ensures Shaped(t, |m|, |m|) && Dot(f, t[i], known) == x[i]
    ensures Dot(f, VecMat(f, row, t, |m|), known) == Dot(f, row, x)
  {
    hide Field, IsInverse, Dot, VecMat;
    InverseActs(f, m, t, x);
    assert MatVec(f, t, known)[i] == Dot(f, t[i], known);
    DotVecMat(f, row, t, known);
  }

  lemma SurvivorValues<F(!new)>(p: Params, f: GF<F>, v: nat -> F, failed: nat)
    requires Field(f) && p.Fits() && failed < p.k && Meets(f, v, Uncoupled(p, f, 1, 0))
    ensures Vals(v, Survivors(p, failed)) == MatVec(f, Recover(p, f, failed), Vals(v, DataList(p, 1)))
  {
    hide Field, CodeRow, OneOut, Dot, MatVec;
    var x := Vals(v, DataList(p, 1));
    OneOutActs(f, CodeRow(p, f, p.k), failed, x);
    var known := Vals(v, Survivors(p, failed));
    forall i | 0 <= i < p.k ensures known[i] == (Drop(x, failed) + [Dot(f, CodeRow(p, f, p.k), x)])[i] {}
    assert known == Drop(x, failed) + [Dot(f, CodeRow(p, f, p.k), x)];
  }

  lemma FirstMet<F(!new)>(p: Params, f: GF<F>, s: Solver<F>, v: nat -> F, failed: nat)
    requires Field(f) && p.Fits() && failed < p.k && Usable(p, f, s, failed) && Meets(f, v, Uncoupled(p, f, 1, 0))
    ensures |s.invert(Recover(p, f, failed))| == p.k && Meets(f, v, FirstBack(p, s, f, failed))
  {
    hide Field, CodeRow, Recover, Dot, MatVec, IsInverse;
    SurvivorValues(p, f, v, failed);
    var x := Vals(v, DataList(p, 1));
    Solving(f, Recover(p, f, failed), s.invert(Recover(p, f, failed)), x, Vals(v, Survivors(p, failed)), x, failed);
  }

  lemma ParityMet<F(!new)>(p: Params, f: GF<F>, s: Solver<F>, v: nat -> F, failed: nat, g: nat)
    requires Field(f) && p.Fits() && failed < p.k && Usable(p, f, s, failed) && Meets(f, v, Uncoupled(p, f, 1, 0))
    requires Meets(f, v, Uncoupled(p, f, 1, g))
    ensures Shaped(s.invert(Recover(p, f, failed)), p.k, p.k) && Meets(f, v, ParityBack(p, s, f, failed, g))
  {
    hide Field, CodeRow, Recover, Dot, MatVec, IsInverse, VecMat;
    SurvivorValues(p, f, v, failed);
    var x := Vals(v, DataList(p, 1));
    Solving(f, Recover(p, f, failed), s.invert(Recover(p, f, failed)), x, Vals(v, Survivors(p, failed)), CodeRow(p, f, p.k + g), failed);
  }

  lemma ValsTwo<F>(v: nat -> F, a: nat, b: nat)
    ensures Vals(v, [a, b]) == [v(a), v(b)]
  {}

  lemma GroupMet<F(!new)>(p: Params, f: GF<F>, v: nat -> F, g: nat)
    requires Field(f) && p.Fits() && Meets(f, v, Couple(p, f, g))
    ensures Meets(f, v, GroupBack(p, f, g))
  {
    hide Field, Dot;
    var u, c, code := UncoupledAt(p, 1, g), GroupAt(p, g), CodeAt(p, 1, g);
    ValsTwo(v, u, c);
    ValsTwo(v, u, code);
    XorTwo(f, v(u), v(c));
    XorTwo(f, v(u), v(code));
    Cancels(f, v(u), v(c));
  }

  lemma ValsJoin<F>(v: nat -> F, a: seq<nat>, b: seq<nat>)
    ensures Vals(v, a + b) == Vals(v, a) + Vals(v, b)
  {}

  lemma ValsOne<F>(v: nat -> F, a: nat)
    ensures Vals(v, [a]) == [v(a)]
  {}

  lemma ValsDrop<F>(p: Params, v: nat -> F, nodes: seq<nat>, at: nat)
    requires at < |nodes|
    ensures Vals(v, Places(p, 0, Drop(nodes, at))) == Drop(Vals(v, Places(p, 0, nodes)), at)
    ensures Vals(v, Places(p, 0, nodes))[at] == v(DataAt(p, 0, nodes[at]))
  {}

  lemma MemberAt(p: Params, failed: nat, g: nat)
    requires p.Fits() && 1 <= g <= p.Groups() && Start(Average(p), g) <= failed < End(p, g)
    ensures failed - Start(Average(p), g) < |Members(p, g)| && Members(p, g)[failed - Start(Average(p), g)] == failed
    ensures forall i | 0 <= i < |Members(p, g)| :: Members(p, g)[i] < p.k
  {}

  lemma SecondMet<F(!new)>(p: Params, f: GF<F>, s: Solver<F>, v: nat -> F, failed: nat, g: nat)
    requires Field(f) && Solves(f, s) && p.Fits() && 1 <= g <= p.Groups() && Start(Average(p), g) <= failed < End(p, g)
    requires Meets(f, v, GroupCode(p, f, g))
    ensures |s.invert(RecoverGroup(p, f, failed, g))| == |Members(p, g)| && Meets(f, v, SecondBack(p, s, f, failed, g))
  {
    hide Field, Solves, GroupLine, OneOut, Dot, IsInverse, Start, End, Average, Members, Places, Drop, Vals;
    RecoverGroupInverse(p, f, s, failed, g);
    MemberAt(p, failed, g);
    var ms := Members(p, g);
    var c, at := GroupLine(p, f, g), failed - Start(Average(p), g);
    SecondEqual(p, f, v, ms, c, at, g, s.invert(OneOut(f, c, at)));
  }

  lemma SecondEqual<F(!new)>(p: Params, f: GF<F>, v: nat -> F, nodes: seq<nat>, c: seq<F>, at: nat, g: nat, t: seq<seq<F>>)
    requires Field(f) && at < |c| == |nodes| && IsInverse(f, OneOut(f, c, at), t)
    requires v(GroupAt(p, g)) == Dot(f, c, Vals(v, Places(p, 0, nodes)))
    ensures |t| == |c| && v(DataAt(p, 0, nodes[at])) == Dot(f, t[at], Vals(v, Places(p, 0, Drop(nodes, at)) + [GroupAt(p, g)]))
  {
    hide Field, OneOut, Dot, IsInverse, Drop, Vals, Places;
    var x := Vals(v, Places(p, 0, nodes));
    SecondValues(p, v, nodes, at, g, Dot(f, c, x));
    OneOutSolves(f, c, at, t, x);
  }

  lemma SecondValues<F>(p: Params, v: nat -> F, nodes: seq<nat>, at: nat, g: nat, code: F)
    requires at < |nodes| && v(GroupAt(p, g)) == code
    ensures Vals(v, Places(p, 0, Drop(nodes, at)) + [GroupAt(p, g)]) == Drop(Vals(v, Places(p, 0, nodes)), at) + [code]
    ensures Vals(v, Places(p, 0, nodes))[at] == v(DataAt(p, 0, nodes[at]))
  {
    hide Drop, Places;
    ValsDrop(p, v, nodes, at);
    ValsOne(v, GroupAt(p, g));
    ValsJoin(v, Places(p, 0, Drop(nodes, at)), [GroupAt(p, g)]);
  }

  lemma OneOutSolves<F(!new)>(f: GF<F>, c: seq<F>, at: nat, t: seq<seq<F>>, x: seq<F>)
    requires Field(f) && at < |c| == |x| && IsInverse(f, OneOut(f, c, at), t)
    ensures Shaped(t, |c|, |c|) && Dot(f, t[at], Drop(x, at) + [Dot(f, c, x)]) == x[at]
  {
    hide Field, OneOut, Dot, MatVec, IsInverse, Drop;
    OneOutActs(f, c, at, x);
    Solving(f, OneOut(f, c, at), t, x, Drop(x, at) + [Dot(f, c, x)], c, at);
  }

  // ---------------------------------------------------------------------------------------------
  // The last data node, which is in no group

  /** The part of a sequence that belongs to group g. */
  function Part<T>(p: Params, s: seq<T>, g: nat): seq<T>
    requires p.Fits() && 1 <= g <= p.Groups() && |s| == p.k
  {
    GroupRange(p, g);
    s[Start(Average(p), g)..End(p, g)]
  }

  /** The parts of the first m groups. */
  function Before<T>(p: Params, s: seq<T>, m: nat): seq<T>
    requires p.Fits() && 1 <= m <= p.Groups() && |s| == p.k
  {
    GroupRange(p, m);
    s[..End(p, m)]
  }

  lemma PartsJoin<T>(p: Params, s: seq<T>, m: nat)
    requires p.Fits() && 1 <= m <= p.Groups() && |s| == p.k
    ensures Before(p, s, m) == if m == 1 then Part(p, s, m) else Before(p, s, m - 1) + Part(p, s, m)
    ensures m == p.Groups() ==> Before(p, s, m) == s[..p.k - 1]
  {
    GroupRange(p, m);
    hide Average;
    if m > 1 {
      GroupRange(p, m - 1);
      assert End(p, m - 1) == Start(Average(p), m);
    }
  }

  lemma PartsMatch<F>(p: Params, v: nat -> F, row: seq<F>, g: nat)
    requires p.Fits() && 1 <= g <= p.Groups() && |row| == p.k
    ensures forall i | 0 <= i < |Members(p, g)| :: Members(p, g)[i] < p.k
    ensures Select(row, Members(p, g)) == Part(p, row, g)
    ensures Vals(v, Places(p, 0, Members(p, g))) == Part(p, Vals(v, DataList(p, 0)), g)
    ensures |Part(p, row, g)| == |Part(p, Vals(v, DataList(p, 0)), g)|
  {
    GroupRange(p, g);
    hide Start, End, Average;
  }

  lemma GroupPart<F(!new)>(p: Params, f: GF<F>, v: nat -> F, g: nat)
    requires Field(f) && p.Fits() && 1 <= g <= p.Groups() && Meets(f, v, GroupCode(p, f, g))
    ensures var row, x := CodeRow(p, f, p.k + 1), Vals(v, DataList(p, 0));
            v(GroupAt(p, g)) == Dot(f, Part(p, row, g), Part(p, x, g))
  {
    hide Field, CodeRow, Dot, Start, End, Average, Part, Members, Select, Places, DataList;
    PartsMatch(p, v, CodeRow(p, f, p.k + 1), g);
  }

  /** The sum of the couples of the first m groups. */
  ghost function CouplesTotal<F(!new)>(p: Params, f: GF<F>, v: nat -> F, m: nat): F
    requires p.Fits()
  {
    Dot(f, Ones(f, 2 * m), Vals(v, Couples(p, m)))
  }

  /** The terms of the first m groups in the parity over sub-packet 0. */
  ghost function GroupsTotal<F(!new)>(p: Params, f: GF<F>, v: nat -> F, m: nat): F
    requires p.Fits() && 1 <= m <= p.Groups()
  {
    Dot(f, Before(p, CodeRow(p, f, p.k + 1), m), Before(p, Vals(v, DataList(p, 0)), m))
  }

  lemma GroupsStep<F(!new)>(p: Params, f: GF<F>, v: nat -> F, m: nat)
    requires Field(f) && p.Fits() && 1 <= m <= p.Groups() && Meets(f, v, GroupCode(p, f, m))
    ensures GroupsTotal(p, f, v, m) == if m == 1 then v(GroupAt(p, m)) else f.add(GroupsTotal(p, f, v, m - 1), v(GroupAt(p, m)))
  {
    GroupPart(p, f, v, m);
    hide Field, Meets, CodeRow, Dot, Before, Part, DataList, Average;
    var row, x := CodeRow(p, f, p.k + 1), Vals(v, DataList(p, 0));
    PartsJoin(p, row, m);
    PartsJoin(p, x, m);
    if m > 1 {
      PartSizes(p, row, x, m);
      DotJoin(f, Before(p, row, m - 1), Part(p, row, m), Before(p, x, m - 1), Part(p, x, m));
    }
  }

  lemma {:induction false} CouplesSum<F(!new)>(p: Params, f: GF<F>, v: nat -> F, m: nat)
    requires Field(f) && p.Fits() && Stripe(p, f, v) && 1 <= m <= p.Groups()
    ensures CouplesTotal(p, f, v, m) == f.add(v(UncoupledAt(p, 0, 1)), GroupsTotal(p, f, v, m))
  {
    hide Field, Stripe, Meets, GroupsTotal, CouplesTotal, UncoupledAt, Dot, Average;
    StripeGroup(p, f, v, m);
    GroupsStep(p, f, v, m);
    CoupleValue(p, f, v, m);
    CouplesStep(p, f, v, m);
    if m > 1 {
      CouplesSum(p, f, v, m - 1);
      SumLaws(f, v(UncoupledAt(p, 0, 1)), GroupsTotal(p, f, v, m - 1), v(GroupAt(p, m)));
    }
  }

  lemma PartSizes<T>(p: Params, a: seq<T>, b: seq<T>, m: nat)
    requires p.Fits() && 1 < m <= p.Groups() && |a| == |b| == p.k
    ensures |Before(p, a, m - 1)| == |Before(p, b, m - 1)| && |Part(p, a, m)| == |Part(p, b, m)|
  {
    GroupRange(p, m);
    GroupRange(p, m - 1);
    hide Start, End, Average;
  }

  lemma StripeGroup<F(!new)>(p: Params, f: GF<F>, v: nat -> F, m: nat)
    requires p.Fits() && Stripe(p, f, v) && 1 <= m <= p.Groups()
    ensures Meets(f, v, GroupCode(p, f, m))
  {
    hide Meets;
  }

  /** One couple is the group's code; in the first group together with the uncoupled parity of sub-packet 0. */
  lemma CoupleValue<F(!new)>(p: Params, f: GF<F>, v: nat -> F, m: nat)
    requires Field(f) && p.Fits() && Stripe(p, f, v) && 1 <= m <= p.Groups()
    ensures f.add(v(UncoupledAt(p, 1, m)), v(if m == 1 then CodeAt(p, 0, 1) else CodeAt(p, 1, m))) ==
            if m == 1 then f.add(v(UncoupledAt(p, 0, 1)), v(GroupAt(p, 1))) else v(GroupAt(p, m))
  {
    var u, g := v(UncoupledAt(p, 1, m)), v(GroupAt(p, m));
    assert Meets(f, v, CoupleFirst(p, f)) && Meets(f, v, Couple(p, f, m));
    hide Field, Stripe, Dot;
    if m == 1 {
      var a := v(UncoupledAt(p, 0, 1));
      ValsThree(v, UncoupledAt(p, 0, 1), UncoupledAt(p, 1, 1), GroupAt(p, 1));
      XorThree(f, a, u, g);
      SumLaws(f, a, u, g);
      SumLaws(f, u, a, g);
      Cancels(f, u, f.add(a, g));
    } else {
      ValsTwo(v, UncoupledAt(p, 1, m), GroupAt(p, m));
      XorTwo(f, u, g);
      Cancels(f, u, g);
    }
  }

  lemma ValsThree<F>(v: nat -> F, a: nat, b: nat, c: nat)
    ensures Vals(v, [a, b, c]) == [v(a), v(b), v(c)]
  {}

  lemma CouplesStep<F(!new)>(p: Params, f: GF<F>, v: nat -> F, m: nat)
    requires Field(f) && p.Fits() && 1 <= m
    ensures var pair := f.add(v(UncoupledAt(p, 1, m)), v(if m == 1 then CodeAt(p, 0, 1) else CodeAt(p, 1, m)));
            CouplesTotal(p, f, v, m) == if m == 1 then pair else f.add(CouplesTotal(p, f, v, m - 1), pair)
  {
    hide Field, Dot;
    var a, b := UncoupledAt(p, 1, m), if m == 1 then CodeAt(p, 0, 1) else CodeAt(p, 1, m);
    assert Ones(f, 2 * m) == Ones(f, 2 * (m - 1)) + [f.one, f.one];
    assert Vals(v, Couples(p, m)) == Vals(v, Couples(p, m - 1)) + [v(a), v(b)];
    DotJoin(f, Ones(f, 2 * (m - 1)), [f.one, f.one], Vals(v, Couples(p, m - 1)), [v(a), v(b)]);
    XorTwo(f, v(a), v(b));
    if m == 1 {
      assert Ones(f, 0) == [] && Vals(v, Couples(p, 0)) == [];
      DotNothing(f);
      SumLaws(f, f.add(v(a), v(b)), f.zero, f.zero);
    }
  }

  lemma DotNothing<F(!new)>(f: GF<F>)
    ensures Dot(f, [], []) == f.zero
  {}

  /** All couples together are the last node's term of the parity over sub-packet 0. */
  lemma LastTerm<F(!new)>(p: Params, f: GF<F>, v: nat -> F)
    requires Field(f) && p.Fits() && Stripe(p, f, v)
    ensures CouplesTotal(p, f, v, p.Groups()) == f.mul(CodeRow(p, f, p.k + 1)[p.k - 1], v(DataAt(p, 0, p.k - 1)))
  {
    CouplesSum(p, f, v, p.Groups());
    AllGroups(p, f, v);
    hide *;
    Cancels(f, GroupsTotal(p, f, v, p.Groups()), f.mul(CodeRow(p, f, p.k + 1)[p.k - 1], v(DataAt(p, 0, p.k - 1))));
    var g, t := GroupsTotal(p, f, v, p.Groups()), f.mul(CodeRow(p, f, p.k + 1)[p.k - 1], v(DataAt(p, 0, p.k - 1)));
    SumLaws(f, f.add(g, t), g, g);
  }

  lemma CouplingParity<F(!new)>(p: Params, f: GF<F>, v: nat -> F)
    requires p.Fits() && Stripe(p, f, v)
    ensures v(UncoupledAt(p, 0, 1)) == Dot(f, CodeRow(p, f, p.k + 1), Vals(v, DataList(p, 0)))
  {
    assert Meets(f, v, Uncoupled(p, f, 0, 1));
    hide Stripe, CodeRow, Dot;
  }

  lemma AllGroups<F(!new)>(p: Params, f: GF<F>, v: nat -> F)
    requires Field(f) && p.Fits() && Stripe(p, f, v)
    ensures v(UncoupledAt(p, 0, 1)) ==
            f.add(GroupsTotal(p, f, v, p.Groups()), f.mul(CodeRow(p, f, p.k + 1)[p.k - 1], v(DataAt(p, 0, p.k - 1))))
  {
    hide Field, Stripe, CodeRow, Ones, Couples, Before, Average, Part, Members, UncoupledAt;
    CouplingParity(p, f, v);
    var row, x, e := CodeRow(p, f, p.k + 1), Vals(v, DataList(p, 0)), p.k - 1;
    PartsJoin(p, row, p.Groups());
    PartsJoin(p, x, p.Groups());
    assert Dot(f, row, x) == f.add(Dot(f, row[..e], x[..e]), f.mul(row[e], x[e]));
  }

  lemma LastMet<F(!new)>(p: Params, f: GF<F>, s: Solver<F>, v: nat -> F)
    requires Field(f) && Solves(f, s) && p.Fits() && Stripe(p, f, v) && Meets(f, v, AllCouples(p, f))
    ensures Meets(f, v, LastBack(p, s, f))
  {
    LastTerm(p, f, v);
    CoefficientNotZero(p, f, p.k - 1);
    LastValue(p, f, v);
    ValsOne(v, LastAt(p));
    var c, x := CodeRow(p, f, p.k + 1)[p.k - 1], v(DataAt(p, 0, p.k - 1));
    Dividing(f, s, c, x);
    hide Field, Stripe, CodeRow, Ones, Couples, Dot, CouplesTotal, AllCouples, Solves, Vals;
  }

  /** Multiplying by one over c undoes multiplying by c. */
  lemma Dividing<F(!new)>(f: GF<F>, s: Solver<F>, c: F, x: F)
    requires Field(f) && Solves(f, s) && c != f.zero
    ensures Dot(f, [s.divide(f.one, c)], [f.mul(c, x)]) == x
  {
    var r := s.divide(f.one, c);
    assert f.mul(c, r) == f.one;
    hide Field, Solves, Dot;
    DotOne(f, r, f.mul(c, x));
    ProductLaws(f, r, c, x);
    ProductLaws(f, x, f.one, f.one);
  }

  lemma LastValue<F(!new)>(p: Params, f: GF<F>, v: nat -> F)
    requires p.Fits()
    ensures Meets(f, v, AllCouples(p, f)) <==> v(LastAt(p)) == CouplesTotal(p, f, v, p.Groups())
  {
    hide Dot;
  }
}
