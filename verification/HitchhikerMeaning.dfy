/** What a Hitchhiker-XOR+ stripe stores, in terms of its data alone. */
module HitchhikerMeaning {
  import opened Galois
  import opened HitchhikerSpec

  /** The sub-packets sp of the data nodes. */
  ghost function DataOf<F>(p: Params, v: nat -> F, sp: nat): seq<F> {
    Vals(v, DataList(p, sp))
  }

  /** The sub-packets 0 of a group's members. */
  ghost function GroupOf<F>(p: Params, v: nat -> F, g: nat): seq<F>
    requires p.Fits() && 1 <= g <= p.Groups()
  {
    Vals(v, Places(p, 0, Members(p, g)))
  }

  /** Parity i of sub-packet sp before coupling: the polynomial with the data as coefficients, at 2 for the first parity,
      at i + 1 for the third and later ones; the second, which is coupled, is the plain sum. */
  ghost function PlainParity<F(!new)>(p: Params, f: GF<F>, v: nat -> F, sp: nat, i: nat): F {
    if i == 1 then Sum(f, DataOf(p, v, sp)) else Polynomial(f, f.elem(if i == 0 then 2 else i + 1), DataOf(p, v, sp))
  }

  lemma UncoupledIs<F(!new)>(p: Params, f: GF<F>, v: nat -> F, sp: nat, i: nat)
    requires Field(f) && p.Fits() && Stripe(p, f, v) && sp < 2 && i < p.n - p.k
    ensures v(UncoupledAt(p, sp, i)) == PlainParity(p, f, v, sp, i)
  {
    assert Meets(f, v, Uncoupled(p, f, sp, i));
    hide Field, Stripe, Dot, Row, Polynomial, Sum;
    var x := DataOf(p, v, sp);
    ParityRow(f, p.k, p.k + (if i == 0 then 1 else if i == 1 then 0 else i), x);
    if i == 1 {
      Elements(f);
      PolynomialAtOne(f, x);
    }
  }

  /** Every group code is the plain sum of its members' sub-packets 0. */
  lemma GroupCodeIs<F(!new)>(p: Params, f: GF<F>, v: nat -> F, g: nat)
    requires Field(f) && p.Fits() && Stripe(p, f, v) && 1 <= g <= p.Groups()
    ensures v(GroupAt(p, g)) == Sum(f, GroupOf(p, v, g))
  {
    assert Meets(f, v, GroupCode(p, f, g));
    hide Field, Stripe, Dot, Row, Sum;
    var row := GroupLine(p, f, g);
    forall j | 0 <= j < |row| ensures row[j] == f.one {
      OnesRow(f, p.k, Members(p, g)[j]);
    }
    OnesSum(f, row, GroupOf(p, v, g));
  }

  /** What every parity node stores: of sub-packet 0 the plain parities, with the second one coupled; of sub-packet 1 the
      plain parities, with the code of its group on top of each but the first. */
  lemma StoredParities<F(!new)>(p: Params, f: GF<F>, v: nat -> F, i: nat)
    requires Field(f) && p.Fits() && Stripe(p, f, v) && i < p.n - p.k
    ensures v(CodeAt(p, 0, i)) == if i != 1 then PlainParity(p, f, v, 0, i)
                                  else f.add(f.add(PlainParity(p, f, v, 0, 1), PlainParity(p, f, v, 1, 1)), Sum(f, GroupOf(p, v, 1)))
    ensures v(CodeAt(p, 1, i)) == if i == 0 then PlainParity(p, f, v, 1, 0)
                                  else f.add(PlainParity(p, f, v, 1, i), Sum(f, GroupOf(p, v, i)))
  {
    hide Field, Dot, Row, Sum, PlainParity, GroupOf;
    UncoupledIs(p, f, v, 0, i);
    UncoupledIs(p, f, v, 1, i);
    if i == 1 { CoupledFirst(p, f, v); }
    if i > 0 { Coupled(p, f, v, i); }
  }

  lemma CoupledFirst<F(!new)>(p: Params, f: GF<F>, v: nat -> F)
    requires Field(f) && p.Fits() && Stripe(p, f, v)
    ensures v(CodeAt(p, 0, 1)) == f.add(f.add(PlainParity(p, f, v, 0, 1), PlainParity(p, f, v, 1, 1)), Sum(f, GroupOf(p, v, 1)))
  {
    assert Meets(f, v, CoupleFirst(p, f));
    hide Field, Stripe, Dot, Row, Sum, PlainParity, GroupOf;
    UncoupledIs(p, f, v, 0, 1);
    UncoupledIs(p, f, v, 1, 1);
    GroupCodeIs(p, f, v, 1);
    var a, b, c := UncoupledAt(p, 0, 1), UncoupledAt(p, 1, 1), GroupAt(p, 1);
    assert Vals(v, [a, b, c]) == [v(a), v(b), v(c)];
    XorThree(f, v(a), v(b), v(c));
  }

  lemma Coupled<F(!new)>(p: Params, f: GF<F>, v: nat -> F, g: nat)
    requires Field(f) && p.Fits() && Stripe(p, f, v) && 1 <= g <= p.Groups()
    ensures v(CodeAt(p, 1, g)) == f.add(PlainParity(p, f, v, 1, g), Sum(f, GroupOf(p, v, g)))
  {
    assert Meets(f, v, Couple(p, f, g));
    hide Field, Stripe, Dot, Row, Sum, PlainParity, GroupOf;
    UncoupledIs(p, f, v, 1, g);
    GroupCodeIs(p, f, v, g);
    var a, b := UncoupledAt(p, 1, g), GroupAt(p, g);
    assert Vals(v, [a, b]) == [v(a), v(b)];
    XorTwo(f, v(a), v(b));
  }
}
