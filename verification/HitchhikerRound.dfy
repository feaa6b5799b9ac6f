/** The repair property of Hitchhiker-XOR+: what DecodeSingle's DAG computes from the survivors of an encoded
    stripe is the lost data node, and it reads exactly the symbols that are announced. */
module HitchhikerRounds {
  import opened Computing
  import opened Dags
  import opened Galois
  import opened HitchhikerDag
  import opened HitchhikerMeaning
  import opened HitchhikerRepair
  import opened HitchhikerSpec
  import opened Hitchhikers
  import E = Ecdags
  import P = Pruning

  /** The values of a stripe by place. */
  ghost function ByPlace<F>(symbols: seq<int>, v: int -> F): nat -> F
    requires symbols != []
  {
    (place: nat) => v(symbols[if place < |symbols| then place else 0])
  }

  lemma ByPlaceAt<F>(symbols: seq<int>, v: int -> F, place: nat)
    requires place < |symbols|
    ensures ByPlace(symbols, v)(place) == v(symbols[place])
  {}

  lemma UnderIs<F(!new)>(g: Dag<F>, symbols: seq<int>, c: Combination<F>, v: int -> F)
    requires Fits(symbols, c) && JoinedAs(g, symbols, c)
    ensures P.Under(g, v, symbols[c.target]) == Vals(ByPlace(symbols, v), c.sources)
  {}

  /** A joined combination is met exactly when its vertex has the combined value. */
  lemma MetIff<F(!new)>(f: GF<F>, g: Dag<F>, symbols: seq<int>, c: Combination<F>, v: int -> F)
    requires Fits(symbols, c) && JoinedAs(g, symbols, c)
    ensures Meets(f, ByPlace(symbols, v), c) <==> v(symbols[c.target]) == Dot(f, g[symbols[c.target]].coefs, P.Under(g, v, symbols[c.target]))
  {
    UnderIs(g, symbols, c, v);
    hide Dot;
  }

  lemma ComputedMeets<F(!new)>(f: GF<F>, g: Dag<F>, symbols: seq<int>, ops: seq<Combination<F>>, v: int -> F, i: nat)
    requires Built(g, symbols, ops) && Computes(f, g, v) && i < |ops|
    ensures symbols != [] && Meets(f, ByPlace(symbols, v), ops[i])
  {
    assert Fits(symbols, ops[i]) && JoinedAs(g, symbols, ops[i]);
    MetIff(f, g, symbols, ops[i], v);
    hide Built, Dot;
  }

  lemma MeetsComputes<F(!new)>(f: GF<F>, g: Dag<F>, symbols: seq<int>, ops: seq<Combination<F>>, v: int -> F)
    requires Built(g, symbols, ops) && Closed(g) && symbols != [] && Distinct(symbols) && forall i | 0 <= i < |ops| :: Meets(f, ByPlace(symbols, v), ops[i])
    ensures Computes(f, g, v)
  {
    hide Dot, Meets, JoinedAs;
    forall u | u in g && !g[u].kind.Leaf? ensures v(u) == Dot(f, g[u].coefs, P.Under(g, v, u)) {
      assert Accounted(g, symbols, ops, u);
      var place: nat :| place < |symbols| && symbols[place] == u && IsTarget(ops, place);
      var i :| 0 <= i < |ops| && ops[i].target == place;
      assert Fits(symbols, ops[i]) && JoinedAs(g, symbols, ops[i]);
      MetIff(f, g, symbols, ops[i], v);
    }
  }

  /** The leaves are the inputs. */
  lemma LeafIff<F(!new)>(g: Dag<F>, symbols: seq<int>, ops: seq<Combination<F>>, place: nat)
    requires Built(g, symbols, ops) && Closed(g) && Distinct(symbols) && place < |symbols|
    ensures symbols[place] in g && g[symbols[place]].kind.Leaf? <==> IsInput(ops, place)
  {
    hide JoinedAs;
    var v := symbols[place];
    if v in g {
      assert Accounted(g, symbols, ops, v);
      var other: nat :| other < |symbols| && symbols[other] == v && if g[v].kind.Leaf? then IsInput(ops, other) else IsTarget(ops, other);
      SamePlace(symbols, place, other);
    }
    if IsSource(ops, place) {
      SourceInDag(g, symbols, ops, place);
    }
  }

  lemma SourceInDag<F(!new)>(g: Dag<F>, symbols: seq<int>, ops: seq<Combination<F>>, place: nat)
    requires Built(g, symbols, ops) && Closed(g) && IsSource(ops, place)
    ensures place < |symbols| && symbols[place] in g
  {
    SourceFits(g, symbols, ops, place);
    var i :| 0 <= i < |ops| && place in ops[i].sources;
    assert Fits(symbols, ops[i]) && JoinedAs(g, symbols, ops[i]);
    var j :| 0 <= j < |ops[i].sources| && ops[i].sources[j] == place;
    assert g[symbols[ops[i].target]].children[j] == symbols[place];
  }

  // ---------------------------------------------------------------------------------------------
  // Encode gives stripes

  lemma EncodeHas<F(!new)>(p: Params, f: GF<F>)
    requires p.Fits()
    ensures forall sp, i: nat | 0 <= sp < 2 && i < p.n - p.k :: HasOp(EncodeOps(p, f), Uncoupled(p, f, sp, i))
    ensures forall g: nat | 1 <= g <= p.Groups() :: HasOp(EncodeOps(p, f), GroupCode(p, f, g)) && HasOp(EncodeOps(p, f), Couple(p, f, g))
    ensures HasOp(EncodeOps(p, f), CoupleFirst(p, f))
  {
    hide Average, CodeRow, Members, GroupLine, Uncoupled, GroupCode, Couple, CoupleFirst;
    var ops, m, gs := EncodeOps(p, f), p.n - p.k, p.Groups();
    forall sp, i: nat | 0 <= sp < 2 && i < m ensures HasOp(ops, Uncoupled(p, f, sp, i)) {
      assert ops[if sp == 0 then i else m + i] == Uncoupled(p, f, sp, i);
    }
    forall g: nat | 1 <= g <= gs ensures HasOp(ops, GroupCode(p, f, g)) && HasOp(ops, Couple(p, f, g)) {
      assert ops[m + m + (g - 1)] == GroupCode(p, f, g);
      assert ops[m + m + gs + 1 + (g - 1)] == Couple(p, f, g);
    }
    assert ops[m + m + gs] == CoupleFirst(p, f);
  }

  ghost predicate HasOp<F>(ops: seq<Combination<F>>, c: Combination<F>) {
    exists i :: 0 <= i < |ops| && ops[i] == c
  }

  ghost predicate AllMet<F(!new)>(f: GF<F>, v: nat -> F, ops: seq<Combination<F>>) {
    forall i | 0 <= i < |ops| :: Meets(f, v, ops[i])
  }

  lemma MetOps<F(!new)>(f: GF<F>, v: nat -> F, ops: seq<Combination<F>>, c: Combination<F>)
    requires AllMet(f, v, ops) && HasOp(ops, c)
    ensures Meets(f, v, c)
  {
    hide Meets;
  }

  lemma EncodeIsStripe<F(!new)>(p: Params, f: GF<F>, v: nat -> F)
    requires p.Fits() && AllMet(f, v, EncodeOps(p, f))
    ensures Stripe(p, f, v)
  {
    hide Meets, EncodeOps, AllMet, HasOp, Average, CodeRow, Members, GroupLine;
    EncodeHas(p, f);
    var ops := EncodeOps(p, f);
    forall sp, i: nat | 0 <= sp < 2 && i < p.n - p.k ensures Meets(f, v, Uncoupled(p, f, sp, i)) { MetOps(f, v, ops, Uncoupled(p, f, sp, i)); }
    forall g: nat | 1 <= g <= p.Groups() ensures Meets(f, v, GroupCode(p, f, g)) { MetOps(f, v, ops, GroupCode(p, f, g)); }
    forall g: nat | 1 <= g <= p.Groups() ensures Meets(f, v, Couple(p, f, g)) { MetOps(f, v, ops, Couple(p, f, g)); }
    MetOps(f, v, ops, CoupleFirst(p, f));
  }

  // ---------------------------------------------------------------------------------------------
  // The virtual symbol that only the repair of the last data node uses

  /** The stripe with the sum of the couples in the last symbol. */
  ghost function WithLast<F(!new)>(p: Params, f: GF<F>, symbols: seq<int>, v: int -> F): int -> F
    requires p.Fits() && |symbols| == p.Size()
  {
    (u: int) => if u == symbols[LastAt(p)] then CouplesTotal(p, f, ByPlace(symbols, v), p.Groups()) else v(u)
  }

  lemma WithLastAt<F(!new)>(p: Params, f: GF<F>, symbols: seq<int>, v: int -> F, place: nat)
    requires p.Fits() && |symbols| == p.Size() && Distinct(symbols) && place < |symbols|
    ensures ByPlace(symbols, WithLast(p, f, symbols, v))(place) ==
            if place == LastAt(p) then CouplesTotal(p, f, ByPlace(symbols, v), p.Groups()) else ByPlace(symbols, v)(place)
  {
    hide CouplesTotal;
    if symbols[place] == symbols[LastAt(p)] { SamePlace(symbols, place, LastAt(p)); }
  }

  lemma SameVals<F(!new)>(p: Params, f: GF<F>, symbols: seq<int>, v: int -> F, places: seq<nat>)
    requires p.Fits() && |symbols| == p.Size() && Distinct(symbols) && PlacesFit(symbols, places) && LastAt(p) !in places
    ensures Vals(ByPlace(symbols, WithLast(p, f, symbols, v)), places) == Vals(ByPlace(symbols, v), places)
  {
    hide CouplesTotal, ByPlace, WithLast, Distinct;
    forall i | 0 <= i < |places| ensures ByPlace(symbols, WithLast(p, f, symbols, v))(places[i]) == ByPlace(symbols, v)(places[i]) {
      WithLastAt(p, f, symbols, v, places[i]);
    }
  }

  lemma SameMeets<F(!new)>(p: Params, f: GF<F>, symbols: seq<int>, v: int -> F, c: Combination<F>)
    requires p.Fits() && |symbols| == p.Size() && Distinct(symbols) && Fits(symbols, c) && LastAt(p) !in c.sources && c.target != LastAt(p)
    ensures Meets(f, ByPlace(symbols, WithLast(p, f, symbols, v)), c) <==> Meets(f, ByPlace(symbols, v), c)
  {
    hide Dot, CouplesTotal, ByPlace, WithLast, Vals, Distinct;
    SameVals(p, f, symbols, v, c.sources);
    WithLastAt(p, f, symbols, v, c.target);
  }

  /** Encode never uses the last symbol. */
  lemma EncodeAvoidsLast<F(!new)>(p: Params, f: GF<F>)
    requires p.Fits()
    ensures Avoids(EncodeOps(p, f), LastAt(p))
  {
    hide Average, CodeRow, GroupLine, Start;
    var t := LastAt(p);
    AvoidsUncoupled(p, f, 0, p.n - p.k, t);
    AvoidsUncoupled(p, f, 1, p.n - p.k, t);
    AvoidsGroups(p, f, p.Groups(), t);
    AvoidsJoin(UncoupledOps(p, f, 0, p.n - p.k), UncoupledOps(p, f, 1, p.n - p.k), t);
    AvoidsJoin(UncoupledOps(p, f, 0, p.n - p.k) + UncoupledOps(p, f, 1, p.n - p.k), GroupOps(p, f, p.Groups()), t);
    AvoidsOne(CoupleFirst(p, f), t);
    LastAfterCouples(p, f);
    AvoidsJoin(BeforeCouples(p, f), [CoupleFirst(p, f)], t);
    AvoidsJoin(BeforeCouples(p, f) + [CoupleFirst(p, f)], CoupleOps(p, f, p.Groups()), t);
  }

  lemma LastAfterCouples<F(!new)>(p: Params, f: GF<F>)
    requires p.Fits()
    ensures Avoids(CoupleOps(p, f, p.Groups()), LastAt(p))
  {
    forall i | 0 <= i < p.Groups() ensures CoupleOps(p, f, p.Groups())[i].target != LastAt(p) && LastAt(p) !in CoupleOps(p, f, p.Groups())[i].sources {
      assert CoupleOps(p, f, p.Groups())[i] == Couple(p, f, i + 1);
    }
  }

  lemma StillStripe<F(!new)>(p: Params, f: GF<F>, symbols: seq<int>, v: int -> F)
    requires p.Fits() && |symbols| == p.Size() && Distinct(symbols) && AllMet(f, ByPlace(symbols, v), EncodeOps(p, f))
    requires forall i | 0 <= i < |EncodeOps(p, f)| :: Fits(symbols, EncodeOps(p, f)[i])
    ensures var w := ByPlace(symbols, WithLast(p, f, symbols, v));
            Stripe(p, f, w) && Meets(f, w, AllCouples(p, f))
  {
    hide Meets, EncodeOps, ByPlace, WithLast, CouplesTotal, Stripe, Distinct, Average, AllCouples;
    EncodeAvoidsLast(p, f);
    var ops, w := EncodeOps(p, f), ByPlace(symbols, WithLast(p, f, symbols, v));
    forall i | 0 <= i < |ops| ensures Meets(f, w, ops[i]) {
      SameMeets(p, f, symbols, v, ops[i]);
    }
    EncodeIsStripe(p, f, w);
    CouplesInLast(p, f, symbols, v);
  }

  lemma CouplesInLast<F(!new)>(p: Params, f: GF<F>, symbols: seq<int>, v: int -> F)
    requires p.Fits() && |symbols| == p.Size() && Distinct(symbols)
    ensures Meets(f, ByPlace(symbols, WithLast(p, f, symbols, v)), AllCouples(p, f))
  {
    hide ByPlace, WithLast, Couples, Distinct, Dot, Vals;
    var w := ByPlace(symbols, WithLast(p, f, symbols, v));
    WithLastAt(p, f, symbols, v, LastAt(p));
    CouplesFit(p, symbols);
    SameVals(p, f, symbols, v, Couples(p, p.Groups()));
  }

  lemma CouplesFit(p: Params, symbols: seq<int>)
    requires p.Fits() && |symbols| == p.Size()
    ensures PlacesFit(symbols, Couples(p, p.Groups())) && LastAt(p) !in Couples(p, p.Groups())
  {
    hide Couples;
    var cs := Couples(p, p.Groups());
    forall i | 0 <= i < |cs| ensures cs[i] < |symbols| && cs[i] != LastAt(p) {
      InCouples(p, p.Groups(), cs[i]);
    }
  }

  // ---------------------------------------------------------------------------------------------
  // The repair

  /** A stripe meets every combination of the repair of any of its data nodes. */
  lemma RepairMet<F(!new)>(p: Params, f: GF<F>, s: Solver<F>, w: nat -> F, failed: nat, ops: seq<Combination<F>>)
    requires Field(f) && Solves(f, s) && p.Fits() && failed < p.k && Invertibles(p, f, s, failed) && IsRepair(p, s, f, failed, ops)
    requires Stripe(p, f, w) && Meets(f, w, AllCouples(p, f))
    ensures AllMet(f, w, ops)
  {
    hide Field, Solves, Stripe, Meets, Recover, RecoverGroup, Average, InGroup, Invertibles, GroupRepair, LastRepair;
    if failed == p.k - 1 {
      LastRepairMet(p, f, s, w);
    } else {
      var g: nat :| InGroup(p, failed, g) && ops == GroupRepair(p, s, f, failed, g);
      GroupRepairMet(p, f, s, w, failed, g);
    }
  }

  lemma StripeHas<F(!new)>(p: Params, f: GF<F>, w: nat -> F, g: nat)
    requires p.Fits() && Stripe(p, f, w) && 1 <= g <= p.Groups()
    ensures Meets(f, w, Uncoupled(p, f, 1, 0)) && Meets(f, w, Uncoupled(p, f, 1, g)) && Meets(f, w, GroupCode(p, f, g)) && Meets(f, w, Couple(p, f, g))
  {
    hide Meets, Average, CodeRow, GroupLine, Members;
  }

  lemma MetFour<F(!new)>(f: GF<F>, w: nat -> F, a: Combination<F>, b: Combination<F>, c: Combination<F>, d: Combination<F>)
    requires Meets(f, w, a) && Meets(f, w, b) && Meets(f, w, c) && Meets(f, w, d)
    ensures AllMet(f, w, [a, b, c, d])
  {
    hide Meets;
  }

  lemma MetJoin<F(!new)>(f: GF<F>, w: nat -> F, a: seq<Combination<F>>, b: seq<Combination<F>>)
    requires AllMet(f, w, a) && AllMet(f, w, b)
    ensures AllMet(f, w, a + b)
  {
    hide Meets;
  }

  lemma GroupRepairMet<F(!new)>(p: Params, f: GF<F>, s: Solver<F>, w: nat -> F, failed: nat, g: nat)
    requires Field(f) && Solves(f, s) && p.Fits() && failed < p.k && Invertibles(p, f, s, failed) && InGroup(p, failed, g) && Stripe(p, f, w)
    ensures AllMet(f, w, GroupRepair(p, s, f, failed, g))
  {
    hide Field, Solves, Stripe, Meets, Recover, RecoverGroup, Average, Start, End, AllMet, FirstBack, ParityBack, GroupBack, SecondBack, Usable;
    InvertiblesHold(p, f, s, failed);
    StripeHas(p, f, w, g);
    FirstMet(p, f, s, w, failed);
    ParityMet(p, f, s, w, failed, g);
    GroupMet(p, f, w, g);
    SecondMet(p, f, s, w, failed, g);
    MetFour(f, w, FirstBack(p, s, f, failed), ParityBack(p, s, f, failed, g), GroupBack(p, f, g), SecondBack(p, s, f, failed, g));
  }

  lemma ParitiesMet<F(!new)>(p: Params, f: GF<F>, s: Solver<F>, w: nat -> F)
    requires Field(f) && Solves(f, s) && p.Fits() && Invertibles(p, f, s, p.k - 1) && Stripe(p, f, w)
    ensures AllMet(f, w, ParityOps(p, s, f, p.k - 1, p.Groups()))
  {
    hide Field, Solves, Stripe, Meets, Recover, RecoverGroup, Average, ParityBack, Usable;
    InvertiblesHold(p, f, s, p.k - 1);
    var ops := ParityOps(p, s, f, p.k - 1, p.Groups());
    forall i | 0 <= i < p.Groups() ensures Meets(f, w, ops[i]) {
      StripeHas(p, f, w, i + 1);
      ParityMet(p, f, s, w, p.k - 1, i + 1);
    }
  }

  lemma MetOne<F(!new)>(f: GF<F>, w: nat -> F, a: Combination<F>)
    requires Meets(f, w, a)
    ensures AllMet(f, w, [a])
  {
    hide Meets;
  }

  lemma LastRepairMet<F(!new)>(p: Params, f: GF<F>, s: Solver<F>, w: nat -> F)
    requires Field(f) && Solves(f, s) && p.Fits() && Invertibles(p, f, s, p.k - 1) && Stripe(p, f, w) && Meets(f, w, AllCouples(p, f))
    ensures AllMet(f, w, LastRepair(p, s, f))
  {
    hide Field, Solves, Stripe, Meets, Recover, RecoverGroup, Average, AllMet, AllCouples, LastBack, FirstBack, ParityOps, Usable;
    InvertiblesHold(p, f, s, p.k - 1);
    StripeHas(p, f, w, 1);
    FirstMet(p, f, s, w, p.k - 1);
    ParitiesMet(p, f, s, w);
    LastMet(p, f, s, w);
    var a, b, c, d := FirstBack(p, s, f, p.k - 1), ParityOps(p, s, f, p.k - 1, p.Groups()), AllCouples(p, f), LastBack(p, s, f);
    MetOne(f, w, a);
    MetOne(f, w, c);
    MetOne(f, w, d);
    MetJoin(f, w, [a], b);
    MetJoin(f, w, [c], [d]);
    assert [c] + [d] == [c, d];
    MetJoin(f, w, [a] + b, [c, d]);
  }

  lemma RepairTargets<F(!new)>(p: Params, f: GF<F>, s: Solver<F>, failed: nat, ops: seq<Combination<F>>)
    requires p.Fits() && failed < p.k && Invertibles(p, f, s, failed) && IsRepair(p, s, f, failed, ops)
    ensures IsTarget(ops, DataAt(p, 0, failed)) && IsTarget(ops, DataAt(p, 1, failed))
    ensures !IsInput(ops, LastAt(p))
  {
    hide Recover, RecoverGroup, Average, Couples, Survivors, Start, End;
    assert ops[0].target == DataAt(p, 1, failed) && ops[|ops| - 1].target == DataAt(p, 0, failed);
    if failed == p.k - 1 {
      assert ops[|ops| - 2].target == LastAt(p);
    } else {
      NotLast(p, f, s, failed, ops);
    }
  }

  lemma NotLast<F(!new)>(p: Params, f: GF<F>, s: Solver<F>, failed: nat, ops: seq<Combination<F>>)
    requires p.Fits() && failed < p.k - 1 && Invertibles(p, f, s, failed) && IsRepair(p, s, f, failed, ops)
    ensures !IsSource(ops, LastAt(p))
  {
    hide Recover, RecoverGroup, Average, Start, End, SecondBack, InGroup, Survivors, Invertibles;
    var g: nat :| InGroup(p, failed, g) && ops == GroupRepair(p, s, f, failed, g);
    LastNotRead(p, f, s, failed, g);
    forall i | 0 <= i < |ops| ensures LastAt(p) !in ops[i].sources {}
  }

  lemma LastNotRead<F(!new)>(p: Params, f: GF<F>, s: Solver<F>, failed: nat, g: nat)
    requires p.Fits() && failed < p.k - 1 && Invertibles(p, f, s, failed) && InGroup(p, failed, g)
    ensures LastAt(p) !in FirstBack(p, s, f, failed).sources && LastAt(p) !in ParityBack(p, s, f, failed, g).sources
    ensures LastAt(p) !in GroupBack(p, f, g).sources && LastAt(p) !in SecondBack(p, s, f, failed, g).sources
  {
    hide Recover, RecoverGroup, Average, Start, End, Survivors;
    MemberAt(p, failed, g);
    if LastAt(p) in Survivors(p, failed) { InSurvivors(p, failed, LastAt(p)); }
  }

  /** The DAG is the one that DecodeSingle builds for a failed data node. */
  ghost predicate Repairs<F(!new)>(c: HHXORPlus<F>, g: Dag<F>, failed: nat, ops: seq<Combination<F>>)
    requires c.Ready() && failed < c.p.k
  {
    Invertibles(c.p, c.f, c.solver, failed) && IsRepair(c.p, c.solver, c.f, failed, ops) && Built(g, c.symbols, ops)
  }

  /** The symbol of a sub-packet of a node. */
  ghost function Symbol<F(!new)>(c: HHXORPlus<F>, sp: nat, d: nat): int
    requires c.Ready() && d < c.p.n && sp < 2
  {
    c.symbols[DataAt(c.p, sp, d)]
  }

  /** What a stripe that solves Encode's DAG has in its parity nodes, computed from the symbols of its data nodes. */
  lemma EncodeStores<F(!new)>(c: HHXORPlus<F>, encoded: Dag<F>, stripe: int -> F, i: nat)
    requires c.Ready() && i < c.p.n - c.p.k && Built(encoded, c.symbols, EncodeOps(c.p, c.f)) && Computes(c.f, encoded, stripe)
    ensures var p, f, w := c.p, c.f, ByPlace(c.symbols, stripe);
            && (forall sp: nat, j: nat | sp < 2 && j < p.k :: DataOf(p, w, sp)[j] == stripe(Symbol(c, sp, j)))
            && (forall g: nat, j: nat | 1 <= g <= p.Groups() && j < |Members(p, g)| :: GroupOf(p, w, g)[j] == stripe(Symbol(c, 0, Members(p, g)[j])))
            && stripe(Symbol(c, 0, p.k + i)) == (if i != 1 then PlainParity(p, f, w, 0, i)
                 else f.add(f.add(PlainParity(p, f, w, 0, 1), PlainParity(p, f, w, 1, 1)), Sum(f, GroupOf(p, w, 1))))
            && stripe(Symbol(c, 1, p.k + i)) == if i == 0 then PlainParity(p, f, w, 1, 0)
                 else f.add(PlainParity(p, f, w, 1, i), Sum(f, GroupOf(p, w, i)))
  {
    hide Field, Solves, MatrixRight, LayoutsRight, GroupsRight, CodesRight, Built, Computes, EncodeOps, Stripe, Distinct, PlainParity, Sum, AllMet, Members;
    var p, f := c.p, c.f;
    EncodedMet(f, encoded, c.symbols, EncodeOps(p, f), stripe);
    EncodeIsStripe(p, f, ByPlace(c.symbols, stripe));
    StoredParities(p, f, ByPlace(c.symbols, stripe), i);
  }

  /** For any stripe that solves Encode's DAG and any evaluation of DecodeSingle's DAG that starts from the
      stripe's symbols at the leaves, both sub-packets of the lost data node come out as they were. */
  lemma DecodeRecovers<F(!new)>(c: HHXORPlus<F>, encoded: Dag<F>, decoded: Dag<F>, rank: map<int, nat>, failed: nat, ops: seq<Combination<F>>,
                                stripe: int -> F, value: int -> F, sp: nat)
    requires c.Ready() && failed < c.p.k && sp < 2 && Built(encoded, c.symbols, EncodeOps(c.p, c.f)) && Computes(c.f, encoded, stripe)
    requires Repairs(c, decoded, failed, ops) && Closed(decoded) && Ranked(decoded, rank) && Computes(c.f, decoded, value)
    requires forall v | v in decoded && decoded[v].kind.Leaf? :: value(v) == stripe(v)
    ensures var lost := Symbol(c, sp, failed);
            lost in decoded && !decoded[lost].kind.Leaf? && value(lost) == stripe(lost)
  {
    hide Field, Solves, MatrixRight, LayoutsRight, GroupsRight, CodesRight, Built, Computes, IsRepair, EncodeOps, Stripe, Closed, Ranked,
         Invertibles, Distinct, WithLast, ByPlace, AllCouples, Meets, IsInput, IsTarget;
    var p, f, symbols := c.p, c.f, c.symbols;
    EncodedMet(f, encoded, symbols, EncodeOps(p, f), stripe);
    StillStripe(p, f, symbols, stripe);
    var full := WithLast(p, f, symbols, stripe);
    RepairMet(p, f, c.solver, ByPlace(symbols, full), failed, ops);
    MeetsComputes(f, decoded, symbols, ops, full);
    RepairTargets(p, f, c.solver, failed, ops);
    SameLeaves(p, f, decoded, symbols, ops, stripe, value);
    TargetComputed(decoded, symbols, ops, DataAt(p, sp, failed));
    SameFromLeaves(f, decoded, rank, value, full, symbols[DataAt(p, sp, failed)]);
    WithLastAt(p, f, symbols, stripe, DataAt(p, sp, failed));
    ByPlaceAt(symbols, full, DataAt(p, sp, failed));
    ByPlaceAt(symbols, stripe, DataAt(p, sp, failed));
  }

  lemma EncodedMet<F(!new)>(f: GF<F>, g: Dag<F>, symbols: seq<int>, ops: seq<Combination<F>>, v: int -> F)
    requires Built(g, symbols, ops) && Computes(f, g, v) && symbols != []
    ensures AllMet(f, ByPlace(symbols, v), ops) && forall i | 0 <= i < |ops| :: Fits(symbols, ops[i])
  {
    hide Meets, Computes, ByPlace, JoinedAs;
    forall i | 0 <= i < |ops| ensures Meets(f, ByPlace(symbols, v), ops[i]) { ComputedMeets(f, g, symbols, ops, v, i); }
  }

  lemma SameLeaves<F(!new)>(p: Params, f: GF<F>, g: Dag<F>, symbols: seq<int>, ops: seq<Combination<F>>, stripe: int -> F, value: int -> F)
    requires p.Fits() && |symbols| == p.Size() && Distinct(symbols) && Built(g, symbols, ops) && Closed(g) && !IsInput(ops, LastAt(p))
    requires forall v | v in g && g[v].kind.Leaf? :: value(v) == stripe(v)
    ensures forall v | v in g && g[v].kind.Leaf? :: value(v) == WithLast(p, f, symbols, stripe)(v)
  {
    LeafIff(g, symbols, ops, LastAt(p));
    hide Built, CouplesTotal, ByPlace;
  }

  lemma TargetComputed<F(!new)>(g: Dag<F>, symbols: seq<int>, ops: seq<Combination<F>>, place: nat)
    requires Built(g, symbols, ops) && IsTarget(ops, place)
    ensures place < |symbols| && symbols[place] in g && !g[symbols[place]].kind.Leaf?
  {
    var i :| 0 <= i < |ops| && ops[i].target == place;
    assert Fits(symbols, ops[i]) && JoinedAs(g, symbols, ops[i]);
  }

  /** Encode a stripe from any data, lose a data node, repair it from the rest: both sub-packets come back. */
  lemma RoundTrip<F(!new)>(c: HHXORPlus<F>, encoded: Dag<F>, rankE: map<int, nat>, decoded: Dag<F>, rankD: map<int, nat>, failed: nat,
                           ops: seq<Combination<F>>, data: int -> F, sp: nat)
    requires c.Ready() && failed < c.p.k && sp < 2 && Built(encoded, c.symbols, EncodeOps(c.p, c.f)) && Closed(encoded) && Ranked(encoded, rankE)
    requires Repairs(c, decoded, failed, ops) && Closed(decoded) && Ranked(decoded, rankD)
    ensures var stripe, lost := P.Values(encoded, rankE, Combine(c.f), data), Symbol(c, sp, failed);
            P.Values(decoded, rankD, Combine(c.f), stripe)(lost) == stripe(lost)
  {
    hide *;
    var stripe := P.Values(encoded, rankE, Combine(c.f), data);
    P.ValuesSolve(encoded, rankE, Combine(c.f), data);
    P.ValuesSolve(decoded, rankD, Combine(c.f), stripe);
    ComputesIs(c.f, encoded, stripe);
    ComputesIs(c.f, decoded, P.Values(decoded, rankD, Combine(c.f), stripe));
    DecodeRecovers(c, encoded, decoded, rankD, failed, ops, stripe, P.Values(decoded, rankD, Combine(c.f), stripe), sp);
  }

  // ---------------------------------------------------------------------------------------------
  // What the repair reads

  lemma SourceOfFour<F>(a: Combination<F>, b: Combination<F>, c: Combination<F>, d: Combination<F>, place: nat)
    ensures var ops := [a, b, c, d];
            && (IsSource(ops, place) <==> place in a.sources || place in b.sources || place in c.sources || place in d.sources)
            && (IsTarget(ops, place) <==> place == a.target || place == b.target || place == c.target || place == d.target)
  {
    var ops := [a, b, c, d];
    assert ops[0] == a && ops[1] == b && ops[2] == c && ops[3] == d;
  }

  lemma InSnoc<T>(s: seq<T>, x: T, y: T)
    ensures y in s + [x] <==> y in s || y == x
  {}

  /** What the repair through a group reads and computes. */
  lemma GroupTouches<F(!new)>(p: Params, s: Solver<F>, f: GF<F>, failed: nat, g: nat, others: seq<nat>, place: nat)
    requires p.Fits() && failed < p.k - 1 && Invertibles(p, f, s, failed) && InGroup(p, failed, g)
    requires SecondBack(p, s, f, failed, g).sources == others + [GroupAt(p, g)]
    ensures var ops := GroupRepair(p, s, f, failed, g);
            && (IsSource(ops, place) <==> place in Survivors(p, failed) || place == UncoupledAt(p, 1, g) || place == CodeAt(p, 1, g)
                                            || place in others || place == GroupAt(p, g))
            && (IsTarget(ops, place) <==> place == DataAt(p, 1, failed) || place == UncoupledAt(p, 1, g) || place == GroupAt(p, g) || place == DataAt(p, 0, failed))
  {
    hide Recover, RecoverGroup, Average, Start, End, Survivors, IsSource, IsTarget, CodeAt, DataAt, UncoupledAt, GroupAt;
    SourceOfFour(FirstBack(p, s, f, failed), ParityBack(p, s, f, failed, g), GroupBack(p, f, g), SecondBack(p, s, f, failed, g), place);
    InSnoc([UncoupledAt(p, 1, g)], CodeAt(p, 1, g), place);
    InSnoc(others, GroupAt(p, g), place);
  }

  /** Reading less what is computed. */
  lemma GroupLeft(p: Params, failed: nat, g: nat, others: seq<nat>, place: nat)
    requires p.Fits() && failed < p.k && 1 <= g <= p.Groups() && (place in others ==> place < p.k && place != failed)
    ensures (place in Survivors(p, failed) || place in others || place == CodeAt(p, 1, g)) <==>
            (place in Survivors(p, failed) || place == UncoupledAt(p, 1, g) || place == CodeAt(p, 1, g) || place in others || place == GroupAt(p, g))
            && !(place == DataAt(p, 1, failed) || place == UncoupledAt(p, 1, g) || place == GroupAt(p, g) || place == DataAt(p, 0, failed))
  {
    hide Survivors;
    if place in Survivors(p, failed) { InSurvivors(p, failed, place); }
  }

  lemma GroupInputs<F(!new)>(c: HHXORPlus<F>, failed: nat, g: nat, place: nat)
    requires c.Ready() && failed < c.p.k - 1 && Invertibles(c.p, c.f, c.solver, failed) && InGroup(c.p, failed, g)
    ensures IsInput(GroupRepair(c.p, c.solver, c.f, failed, g), place) <==> c.Required(failed, place)
  {
    hide Field, Solves, MatrixRight, LayoutsRight, GroupsRight, CodesRight, Recover, RecoverGroup, Average, Start, End, Survivors, IsSource, IsTarget,
         Distinct, c.Required, GroupRepair, CodeAt, DataAt, UncoupledAt, GroupAt, Drop, Places, Members, Invertibles;
    var p := c.p;
    MemberAt(p, failed, g);
    var others := Places(p, 0, Drop(Members(p, g), failed - Start(Average(p), g)));
    GroupTouches(p, c.solver, c.f, failed, g, others, place);
    OthersAreFirst(p, failed, g, place);
    GroupLeft(p, failed, g, others, place);
    c.RequiredInGroup(failed, g, place);
    InSnoc(others, CodeAt(p, 1, g), place);
  }

  /** The other members are stored in sub-packets 0 of data nodes. */
  lemma OthersAreFirst(p: Params, failed: nat, g: nat, place: nat)
    requires p.Fits() && failed < p.k && InGroup(p, failed, g) && failed - Start(Average(p), g) < |Members(p, g)|
    ensures place in Places(p, 0, Drop(Members(p, g), failed - Start(Average(p), g))) ==> place < p.k && place != failed
  {
    MemberAt(p, failed, g);
    hide Average;
  }

  /** A coupled parity is not computed by the repair of the last data node. */
  ghost predicate Coupled(p: Params, place: nat)
    requires p.Fits()
  {
    place == CodeAt(p, 0, 1) || exists g: nat :: 2 <= g <= p.Groups() && place == CodeAt(p, 1, g)
  }

  ghost predicate UncoupledSecond(p: Params, place: nat)
    requires p.Fits()
  {
    exists g: nat :: 1 <= g <= p.Groups() && place == UncoupledAt(p, 1, g)
  }

  lemma CouplesSplit(p: Params, place: nat)
    requires p.Fits()
    ensures place in Couples(p, p.Groups()) <==> Coupled(p, place) || UncoupledSecond(p, place)
  {
    hide Couples, CodeAt, UncoupledAt;
    CouplesAre(p, p.Groups(), place);
    if place in Couples(p, p.Groups()) {
      var g: nat :| 1 <= g <= p.Groups() && (place == UncoupledAt(p, 1, g) || place == if g == 1 then CodeAt(p, 0, 1) else CodeAt(p, 1, g));
      if place != UncoupledAt(p, 1, g) && g > 1 { assert 2 <= g; }
    }
    CoupleStays(p, p.Groups());
  }

  lemma {:induction false} CoupleStays(p: Params, m: nat)
    requires p.Fits() && 1 <= m <= p.Groups()
    ensures CodeAt(p, 0, 1) in Couples(p, m)
  {
    if m > 1 { CoupleStays(p, m - 1); }
  }

  lemma LastLeft(p: Params, place: nat)
    requires p.Fits()
    ensures Coupled(p, place) || place in Survivors(p, p.k - 1) ==>
            place != DataAt(p, 1, p.k - 1) && place != DataAt(p, 0, p.k - 1) && place != LastAt(p) && !UncoupledSecond(p, place)
  {
    hide Survivors;
    if place in Survivors(p, p.k - 1) { InSurvivors(p, p.k - 1, place); }
  }

  lemma LastInputs<F(!new)>(c: HHXORPlus<F>, place: nat)
    requires c.Ready() && Invertibles(c.p, c.f, c.solver, c.p.k - 1)
    ensures IsInput(LastRepair(c.p, c.solver, c.f), place) <==> c.Required(c.p.k - 1, place)
  {
    hide Field, Solves, MatrixRight, LayoutsRight, GroupsRight, CodesRight, Recover, Average, Survivors, IsSource, IsTarget, Distinct,
         Couples, LastRepair, c.Required, CodeAt, DataAt, UncoupledAt, LastAt, Invertibles;
    LastTouches(c.p, c.solver, c.f, place);
    c.RequiredOfLast(place);
    CouplesSplit(c.p, place);
    StoredAre(c, place);
    LastLeft(c.p, place);
  }

  /** What the repair of the last data node reads and computes. */
  lemma LastTouches<F(!new)>(p: Params, s: Solver<F>, f: GF<F>, place: nat)
    requires p.Fits() && Invertibles(p, f, s, p.k - 1)
    ensures IsSource(LastRepair(p, s, f), place) <==> place in Survivors(p, p.k - 1) || place in Couples(p, p.Groups()) || place == LastAt(p)
    ensures IsTarget(LastRepair(p, s, f), place) <==> place == DataAt(p, 1, p.k - 1) || place == DataAt(p, 0, p.k - 1) || place == LastAt(p)
                                                       || exists g: nat :: 1 <= g <= p.Groups() && place == UncoupledAt(p, 1, g)
  {
    hide Recover, Average, Survivors, Couples, CodeRow;
    var ops, m := LastRepair(p, s, f), p.Groups();
    assert |ops| == m + 3 && ops[0] == FirstBack(p, s, f, p.k - 1) && ops[m + 1] == AllCouples(p, f) && ops[m + 2] == LastBack(p, s, f);
    forall i | 0 < i <= m ensures ops[i] == ParityBack(p, s, f, p.k - 1, i) {}
    if g: nat :| 1 <= g <= m && place == UncoupledAt(p, 1, g) { assert ops[g].target == place; }
  }

  lemma {:induction false} CouplesAre(p: Params, m: nat, place: nat)
    requires p.Fits() && m <= p.Groups()
    ensures place in Couples(p, m) <==>
            exists g: nat :: 1 <= g <= m && (place == UncoupledAt(p, 1, g) || place == if g == 1 then CodeAt(p, 0, 1) else CodeAt(p, 1, g))
  {
    if m > 0 { CouplesAre(p, m - 1, place); }
  }

  lemma StoredAre<F(!new)>(c: HHXORPlus<F>, place: nat)
    requires c.Ready()
    ensures place in c.StoredCodes(c.p.Groups() - 1) + [CodeAt(c.p, 0, 1)] <==>
            place == CodeAt(c.p, 0, 1) || exists g: nat :: 2 <= g <= c.p.Groups() && place == CodeAt(c.p, 1, g)
  {
    hide Field, Solves, MatrixRight, LayoutsRight, GroupsRight, CodesRight, Distinct;
    var places := c.StoredCodes(c.p.Groups() - 1) + [CodeAt(c.p, 0, 1)];
    if g: nat :| 2 <= g <= c.p.Groups() && place == CodeAt(c.p, 1, g) { assert places[g - 2] == place; }
    if place == CodeAt(c.p, 0, 1) { assert places[|places| - 1] == place; }
  }

  /** The leaves of DecodeSingle's DAG are exactly the symbols of GetRequiredSymbolsSingle. */
  lemma LeavesExact<F(!new)>(c: HHXORPlus<F>, g: Dag<F>, failed: nat, ops: seq<Combination<F>>, required_symbols: seq<int>, v: int)
    requires c.Ready() && failed < c.p.k && Repairs(c, g, failed, ops) && Closed(g) && c.Lists(required_symbols, failed)
    ensures v in g && g[v].kind.Leaf? <==> v in required_symbols
  {
    hide Field, Solves, MatrixRight, LayoutsRight, GroupsRight, CodesRight, Closed, JoinedAs, IsInput, IsTarget, c.Required, Recover, RecoverGroup, Distinct;
    if v in g {
      assert Accounted(g, c.symbols, ops, v);
      var place: nat :| place < |c.symbols| && c.symbols[place] == v;
      LeafIff(g, c.symbols, ops, place);
      InputIff(c, failed, ops, place);
    }
    if v in required_symbols {
      var i :| 0 <= i < |required_symbols| && required_symbols[i] == v;
      assert v in c.symbols;
      var place: nat :| place < |c.symbols| && c.symbols[place] == v;
      LeafIff(g, c.symbols, ops, place);
      InputIff(c, failed, ops, place);
    }
  }

  lemma InputIff<F(!new)>(c: HHXORPlus<F>, failed: nat, ops: seq<Combination<F>>, place: nat)
    requires c.Ready() && failed < c.p.k && Invertibles(c.p, c.f, c.solver, failed) && IsRepair(c.p, c.solver, c.f, failed, ops)
    ensures IsInput(ops, place) <==> c.Required(failed, place)
  {
    hide Field, Solves, MatrixRight, LayoutsRight, GroupsRight, CodesRight, Recover, RecoverGroup, IsInput, c.Required, GroupRepair, LastRepair,
         InGroup, Distinct, Invertibles;
    if failed == c.p.k - 1 {
      LastInputs(c, place);
    } else {
      var g: nat :| InGroup(c.p, failed, g) && ops == GroupRepair(c.p, c.solver, c.f, failed, g);
      GroupInputs(c, failed, g, place);
    }
  }
}
