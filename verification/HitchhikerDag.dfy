/** The DAGs that Hitchhiker-XOR+ builds, as lists of combinations over places of symbols. */
module HitchhikerDag {
  import opened Dags
  import opened Galois
  import opened HitchhikerRepair
  import opened HitchhikerSpec
  import E = Ecdags
  import P = Pruning

  // ---------------------------------------------------------------------------------------------
  // A DAG and the combinations joined so far

  ghost predicate PlacesFit(symbols: seq<int>, places: seq<nat>) {
    forall i | 0 <= i < |places| :: places[i] < |symbols|
  }

  ghost predicate Fits<F>(symbols: seq<int>, c: Combination<F>) {
    c.target < |symbols| && PlacesFit(symbols, c.sources)
  }

  ghost function Ids(symbols: seq<int>, places: seq<nat>): (r: seq<int>)
    requires PlacesFit(symbols, places)
    ensures |r| == |places| && forall i | 0 <= i < |r| :: r[i] == symbols[places[i]]
  {
    seq(|places|, i requires 0 <= i < |places| => symbols[places[i]])
  }

  ghost predicate JoinedAs<F>(g: Dag<F>, symbols: seq<int>, c: Combination<F>)
    requires Fits(symbols, c)
  {
    var v := symbols[c.target];
    v in g && !g[v].kind.Leaf? && g[v].children == Ids(symbols, c.sources) && g[v].coefs == c.coefs
  }

  ghost predicate IsTarget<F>(ops: seq<Combination<F>>, place: nat) {
    exists i :: 0 <= i < |ops| && ops[i].target == place
  }

  ghost predicate IsSource<F>(ops: seq<Combination<F>>, place: nat) {
    exists i :: 0 <= i < |ops| && place in ops[i].sources
  }

  /** What is read but not computed. */
  ghost predicate IsInput<F>(ops: seq<Combination<F>>, place: nat) {
    IsSource(ops, place) && !IsTarget(ops, place)
  }

  ghost predicate Accounted<F>(g: Dag<F>, symbols: seq<int>, ops: seq<Combination<F>>, v: int)
    requires v in g
  {
    exists place: nat :: place < |symbols| && symbols[place] == v
      && if g[v].kind.Leaf? then IsInput(ops, place) else IsTarget(ops, place)
  }

  /** The DAG holds exactly these combinations. */
  ghost predicate Built<F>(g: Dag<F>, symbols: seq<int>, ops: seq<Combination<F>>) {
    && (forall i | 0 <= i < |ops| :: Fits(symbols, ops[i]) && JoinedAs(g, symbols, ops[i]))
    && (forall v | v in g :: Accounted(g, symbols, ops, v))
  }

  /** The place is neither computed nor read by the combinations. */
  ghost predicate Avoids<F>(ops: seq<Combination<F>>, place: nat) {
    forall i | 0 <= i < |ops| :: ops[i].target != place && place !in ops[i].sources
  }

  lemma AvoidsJoin<F>(a: seq<Combination<F>>, b: seq<Combination<F>>, place: nat)
    requires Avoids(a, place) && Avoids(b, place)
    ensures Avoids(a + b, place)
  {}

  lemma SamePlace(symbols: seq<int>, a: nat, b: nat)
    requires Distinct(symbols) && a < |symbols| && b < |symbols| && symbols[a] == symbols[b]
    ensures a == b
  {}

  lemma SourceFits<F>(g: Dag<F>, symbols: seq<int>, ops: seq<Combination<F>>, place: nat)
    requires Built(g, symbols, ops) && IsSource(ops, place)
    ensures place < |symbols|
  {
    var i :| 0 <= i < |ops| && place in ops[i].sources;
    assert Fits(symbols, ops[i]);
  }

  /** A symbol of the DAG has been computed or read. */
  lemma Touched<F>(g: Dag<F>, symbols: seq<int>, ops: seq<Combination<F>>, t: nat)
    requires Distinct(symbols) && Built(g, symbols, ops) && t < |symbols| && symbols[t] in g
    ensures !Avoids(ops, t)
  {
    hide JoinedAs;
    assert Accounted(g, symbols, ops, symbols[t]);
    var place: nat :| place < |symbols| && symbols[place] == symbols[t]
                      && if g[symbols[t]].kind.Leaf? then IsInput(ops, place) else IsTarget(ops, place);
    SamePlace(symbols, place, t);
  }

  lemma AmongIds(symbols: seq<int>, places: seq<nat>, t: nat)
    requires Distinct(symbols) && PlacesFit(symbols, places) && t < |symbols| && symbols[t] in E.Elements(Ids(symbols, places))
    ensures t in places
  {
    var i :| 0 <= i < |places| && Ids(symbols, places)[i] == symbols[t];
    SamePlace(symbols, places[i], t);
  }

  lemma AvoidedIsNew<F>(g: Dag<F>, symbols: seq<int>, ops: seq<Combination<F>>, c: Combination<F>)
    requires Distinct(symbols) && Built(g, symbols, ops) && Fits(symbols, c) && Avoids(ops, c.target) && c.target !in c.sources
    ensures symbols[c.target] !in g && symbols[c.target] !in E.Elements(Ids(symbols, c.sources))
  {
    hide Built, Avoids, E.Elements, Distinct;
    if symbols[c.target] in g { Touched(g, symbols, ops, c.target); }
    if symbols[c.target] in E.Elements(Ids(symbols, c.sources)) { AmongIds(symbols, c.sources, c.target); }
  }

  lemma StillJoined<F>(g: Dag<F>, g': Dag<F>, symbols: seq<int>, pidx: int, cidx: seq<int>, coefs: seq<F>, op: Combination<F>)
    requires Fits(symbols, op) && JoinedAs(g, symbols, op) && E.JoinAdds(g, g', pidx, cidx, coefs)
    ensures JoinedAs(g', symbols, op)
  {
    hide E.Elements, Ids;
  }

  lemma StillAccounted<F>(g: Dag<F>, g': Dag<F>, symbols: seq<int>, ops: seq<Combination<F>>, c: Combination<F>, v: int)
    requires Distinct(symbols) && Built(g, symbols, ops) && Fits(symbols, c) && Avoids(ops, c.target) && c.target !in c.sources
    requires E.JoinAdds(g, g', symbols[c.target], Ids(symbols, c.sources), c.coefs) && v in g'
    ensures Accounted(g', symbols, ops + [c], v)
  {
    hide JoinedAs;
    var ops' := ops + [c];
    assert ops'[|ops|] == c;
    if v == symbols[c.target] {
      assert IsTarget(ops', c.target);
    } else if v in g {
      assert Accounted(g, symbols, ops, v);
      var place: nat :| place < |symbols| && symbols[place] == v && if g[v].kind.Leaf? then IsInput(ops, place) else IsTarget(ops, place);
      MoreOps(ops, c, place);
    } else {
      var i :| 0 <= i < |c.sources| && Ids(symbols, c.sources)[i] == v;
      var place := c.sources[i];
      assert IsSource(ops', place);
      if IsTarget(ops, place) {
        var j :| 0 <= j < |ops| && ops[j].target == place;
        TargetInDag(g, symbols, ops, j);
      }
      MoreOps(ops, c, place);
    }
  }

  lemma TargetInDag<F>(g: Dag<F>, symbols: seq<int>, ops: seq<Combination<F>>, j: nat)
    requires Built(g, symbols, ops) && j < |ops|
    ensures Fits(symbols, ops[j]) && symbols[ops[j].target] in g && !g[symbols[ops[j].target]].kind.Leaf?
  {
    assert JoinedAs(g, symbols, ops[j]);
  }

  lemma MoreOps<F>(ops: seq<Combination<F>>, c: Combination<F>, place: nat)
    ensures IsTarget(ops + [c], place) <==> IsTarget(ops, place) || c.target == place
    ensures IsSource(ops + [c], place) <==> IsSource(ops, place) || place in c.sources
  {
    var ops' := ops + [c];
    assert ops'[|ops|] == c;
    if IsTarget(ops, place) {
      var i :| 0 <= i < |ops| && ops[i].target == place;
      assert ops'[i].target == place;
    }
    if IsSource(ops, place) {
      var i :| 0 <= i < |ops| && place in ops[i].sources;
      assert place in ops'[i].sources;
    }
  }

  lemma BuiltMore<F>(g: Dag<F>, g': Dag<F>, symbols: seq<int>, ops: seq<Combination<F>>, c: Combination<F>)
    requires Distinct(symbols) && Built(g, symbols, ops) && Fits(symbols, c) && Avoids(ops, c.target) && c.target !in c.sources
    requires E.JoinAdds(g, g', symbols[c.target], Ids(symbols, c.sources), c.coefs)
    ensures Built(g', symbols, ops + [c])
  {
    hide JoinedAs, Accounted, Avoids;
    forall i | 0 <= i < |ops + [c]| ensures Fits(symbols, (ops + [c])[i]) && JoinedAs(g', symbols, (ops + [c])[i]) {
      if i < |ops| {
        StillJoined(g, g', symbols, symbols[c.target], Ids(symbols, c.sources), c.coefs, ops[i]);
      } else {
        NewlyJoined(g, g', symbols, c);
      }
    }
    forall v | v in g' ensures Accounted(g', symbols, ops + [c], v) {
      StillAccounted(g, g', symbols, ops, c, v);
    }
  }

  lemma NewlyJoined<F>(g: Dag<F>, g': Dag<F>, symbols: seq<int>, c: Combination<F>)
    requires Fits(symbols, c) && E.JoinAdds(g, g', symbols[c.target], Ids(symbols, c.sources), c.coefs)
    ensures JoinedAs(g', symbols, c)
  {}

  lemma NothingBuilt<F>(symbols: seq<int>)
    ensures Built<F>(map[], symbols, [])
  {}

  // ---------------------------------------------------------------------------------------------
  // What Encode joins

  function UncoupledOps<F(!new)>(p: Params, f: GF<F>, sp: nat, m: nat): (r: seq<Combination<F>>)
    requires p.Fits()
    ensures |r| == m && forall i | 0 <= i < m :: r[i] == Uncoupled(p, f, sp, i)
  {
    seq(m, i requires 0 <= i < m => Uncoupled(p, f, sp, i))
  }

  function GroupOps<F(!new)>(p: Params, f: GF<F>, m: nat): (r: seq<Combination<F>>)
    requires p.Fits() && m <= p.Groups()
    ensures |r| == m && forall i | 0 <= i < m :: r[i] == GroupCode(p, f, i + 1)
  {
    seq(m, i requires 0 <= i < m => GroupCode(p, f, i + 1))
  }

  function CoupleOps<F(!new)>(p: Params, f: GF<F>, m: nat): (r: seq<Combination<F>>)
    requires p.Fits()
    ensures |r| == m && forall i | 0 <= i < m :: r[i] == Couple(p, f, i + 1)
  {
    seq(m, i requires 0 <= i < m => Couple(p, f, i + 1))
  }

  function BeforeCouples<F(!new)>(p: Params, f: GF<F>): seq<Combination<F>>
    requires p.Fits()
  {
    UncoupledOps(p, f, 0, p.n - p.k) + UncoupledOps(p, f, 1, p.n - p.k) + GroupOps(p, f, p.Groups())
  }

  function EncodeOps<F(!new)>(p: Params, f: GF<F>): seq<Combination<F>>
    requires p.Fits()
  {
    BeforeCouples(p, f) + [CoupleFirst(p, f)] + CoupleOps(p, f, p.Groups())
  }

  /** Not a sub-packet of a data node. */
  predicate NotData(p: Params, place: nat) {
    p.k <= place < p.n || p.n + p.k <= place
  }

  lemma AvoidsUncoupled<F(!new)>(p: Params, f: GF<F>, sp: nat, m: nat, t: nat)
    requires p.Fits() && sp < 2 && NotData(p, t) && forall i | 0 <= i < m :: UncoupledAt(p, sp, i) != t
    ensures Avoids(UncoupledOps(p, f, sp, m), t)
  {
    hide CodeRow, UncoupledAt;
  }

  lemma AvoidsGroups<F(!new)>(p: Params, f: GF<F>, m: nat, t: nat)
    requires p.Fits() && m <= p.Groups() && NotData(p, t) && forall g | 1 <= g <= m :: GroupAt(p, g) != t
    ensures Avoids(GroupOps(p, f, m), t)
  {
    hide GroupLine, Start, Average;
    forall i | 0 <= i < m ensures GroupOps(p, f, m)[i].target != t && t !in GroupOps(p, f, m)[i].sources {
      assert GroupOps(p, f, m)[i] == GroupCode(p, f, i + 1);
    }
  }

  lemma AvoidsCouples<F(!new)>(p: Params, f: GF<F>, m: nat, t: nat)
    requires p.Fits() && m <= p.Groups() && t != 2 * p.n && t < 2 * p.n && forall g | 1 <= g <= m :: CodeAt(p, 1, g) != t
    ensures Avoids(CoupleOps(p, f, m), t)
  {
    forall i | 0 <= i < m ensures CoupleOps(p, f, m)[i].target != t && t !in CoupleOps(p, f, m)[i].sources {
      assert CoupleOps(p, f, m)[i] == Couple(p, f, i + 1);
    }
  }

  /** Each step of Encode computes a symbol that was neither computed nor read. */
  lemma UncoupledIsNew<F(!new)>(p: Params, f: GF<F>, sp: nat, i: nat)
    requires p.Fits() && sp < 2 && i < p.n - p.k
    ensures var t := UncoupledAt(p, sp, i);
            t !in DataList(p, sp) && Avoids(if sp == 0 then UncoupledOps(p, f, 0, i) else UncoupledOps(p, f, 0, p.n - p.k) + UncoupledOps(p, f, 1, i), t)
  {
    var t := UncoupledAt(p, sp, i);
    if sp == 0 {
      AvoidsUncoupled(p, f, 0, i, t);
    } else {
      AvoidsUncoupled(p, f, 0, p.n - p.k, t);
      AvoidsUncoupled(p, f, 1, i, t);
      AvoidsJoin(UncoupledOps(p, f, 0, p.n - p.k), UncoupledOps(p, f, 1, i), t);
    }
  }

  lemma GroupIsNew<F(!new)>(p: Params, f: GF<F>, g: nat)
    requires p.Fits() && 1 <= g <= p.Groups()
    ensures GroupAt(p, g) !in Places(p, 0, Members(p, g))
    ensures Avoids(UncoupledOps(p, f, 0, p.n - p.k) + UncoupledOps(p, f, 1, p.n - p.k) + GroupOps(p, f, g - 1), GroupAt(p, g))
  {
    hide Start, Average, GroupLine, CodeRow;
    var t := GroupAt(p, g);
    AvoidsUncoupled(p, f, 0, p.n - p.k, t);
    AvoidsUncoupled(p, f, 1, p.n - p.k, t);
    AvoidsGroups(p, f, g - 1, t);
    AvoidsJoin(UncoupledOps(p, f, 0, p.n - p.k), UncoupledOps(p, f, 1, p.n - p.k), t);
    AvoidsJoin(UncoupledOps(p, f, 0, p.n - p.k) + UncoupledOps(p, f, 1, p.n - p.k), GroupOps(p, f, g - 1), t);
  }

  /** A parity that is stored coupled is not touched before the couples. */
  lemma StoredIsNew<F(!new)>(p: Params, f: GF<F>, t: nat)
    requires p.Fits() && (t == CodeAt(p, 0, 1) || exists g: nat :: 1 <= g <= p.Groups() && t == CodeAt(p, 1, g))
    ensures Avoids(BeforeCouples(p, f), t) && t < 2 * p.n
  {
    hide Start, Average, GroupLine, CodeRow;
    AvoidsUncoupled(p, f, 0, p.n - p.k, t);
    AvoidsUncoupled(p, f, 1, p.n - p.k, t);
    AvoidsGroups(p, f, p.Groups(), t);
    AvoidsJoin(UncoupledOps(p, f, 0, p.n - p.k), UncoupledOps(p, f, 1, p.n - p.k), t);
    AvoidsJoin(UncoupledOps(p, f, 0, p.n - p.k) + UncoupledOps(p, f, 1, p.n - p.k), GroupOps(p, f, p.Groups()), t);
  }

  lemma CoupleIsNew<F(!new)>(p: Params, f: GF<F>, g: nat)
    requires p.Fits() && 1 <= g <= p.Groups()
    ensures var t := CodeAt(p, 1, g);
            t !in [UncoupledAt(p, 1, g), GroupAt(p, g)] && Avoids(BeforeCouples(p, f) + [CoupleFirst(p, f)] + CoupleOps(p, f, g - 1), t)
  {
    hide BeforeCouples, CodeRow;
    var t := CodeAt(p, 1, g);
    StoredIsNew(p, f, t);
    AvoidsCouples(p, f, g - 1, t);
    assert Avoids([CoupleFirst(p, f)], t);
    AvoidsJoin(BeforeCouples(p, f), [CoupleFirst(p, f)], t);
    AvoidsJoin(BeforeCouples(p, f) + [CoupleFirst(p, f)], CoupleOps(p, f, g - 1), t);
  }

  // ---------------------------------------------------------------------------------------------
  // What DecodeSingle joins

  /** The group that a data node belongs to. */
  ghost predicate InGroup(p: Params, d: nat, g: nat)
    requires p.Fits()
  {
    1 <= g <= p.Groups() && Start(Average(p), g) <= d < End(p, g)
  }

  ghost predicate Invertibles<F(!new)>(p: Params, f: GF<F>, s: Solver<F>, failed: nat)
    requires p.Fits() && failed < p.k
  {
    && Shaped(s.invert(Recover(p, f, failed)), p.k, p.k)
    && (forall g: nat | InGroup(p, failed, g) :: |s.invert(RecoverGroup(p, f, failed, g))| == |Members(p, g)|)
  }

  ghost function ParityOps<F(!new)>(p: Params, s: Solver<F>, f: GF<F>, failed: nat, m: nat): (r: seq<Combination<F>>)
    requires p.Fits() && failed < p.k && Invertibles(p, f, s, failed)
    ensures |r| == m && forall i | 0 <= i < m :: r[i] == ParityBack(p, s, f, failed, i + 1)
  {
    seq(m, i requires 0 <= i < m => ParityBack(p, s, f, failed, i + 1))
  }

  ghost function GroupRepair<F(!new)>(p: Params, s: Solver<F>, f: GF<F>, failed: nat, g: nat): seq<Combination<F>>
    requires p.Fits() && failed < p.k && Invertibles(p, f, s, failed) && InGroup(p, failed, g)
  {
    [FirstBack(p, s, f, failed), ParityBack(p, s, f, failed, g), GroupBack(p, f, g), SecondBack(p, s, f, failed, g)]
  }

  ghost function LastRepair<F(!new)>(p: Params, s: Solver<F>, f: GF<F>): seq<Combination<F>>
    requires p.Fits() && Invertibles(p, f, s, p.k - 1)
  {
    [FirstBack(p, s, f, p.k - 1)] + ParityOps(p, s, f, p.k - 1, p.Groups()) + [AllCouples(p, f), LastBack(p, s, f)]
  }

  /** The combinations of the repair of a data node. */
  ghost predicate IsRepair<F(!new)>(p: Params, s: Solver<F>, f: GF<F>, failed: nat, ops: seq<Combination<F>>)
    requires p.Fits() && failed < p.k && Invertibles(p, f, s, failed)
  {
    if failed == p.k - 1 then ops == LastRepair(p, s, f)
    else exists g: nat :: InGroup(p, failed, g) && ops == GroupRepair(p, s, f, failed, g)
  }

  lemma InvertiblesHold<F(!new)>(p: Params, f: GF<F>, s: Solver<F>, failed: nat)
    requires Field(f) && Solves(f, s) && p.Fits() && failed < p.k
    ensures Invertibles(p, f, s, failed) && Usable(p, f, s, failed)
  {
    hide Field, Solves, Recover, RecoverGroup;
    RecoverInverse(p, f, s, failed);
    forall g: nat | InGroup(p, failed, g) ensures |s.invert(RecoverGroup(p, f, failed, g))| == |Members(p, g)| {
      RecoverGroupInverse(p, f, s, failed, g);
      RecoverGroupSize(p, f, failed, g);
    }
  }

  lemma RecoverGroupSize<F(!new)>(p: Params, f: GF<F>, failed: nat, g: nat)
    requires p.Fits() && failed < p.k && InGroup(p, failed, g)
    ensures |RecoverGroup(p, f, failed, g)| == |Members(p, g)|
  {
    hide GroupLine;
  }

  lemma AvoidsOne<F>(c: Combination<F>, t: nat)
    requires t != c.target && t !in c.sources
    ensures Avoids([c], t)
  {}

  lemma InSurvivors(p: Params, failed: nat, t: nat)
    requires p.Fits() && failed < p.k && t in Survivors(p, failed)
    ensures t == CodeAt(p, 1, 0) || (exists i :: 0 <= i < p.k && i != failed && t == DataAt(p, 1, i))
  {
    var s := Survivors(p, failed);
    var i :| 0 <= i < |s| && s[i] == t;
    if i < p.k - 1 { assert s[i] == DataAt(p, 1, Except(p.k, failed)[i]); }
  }

  lemma FirstIsNew(p: Params, failed: nat)
    requires p.Fits() && failed < p.k
    ensures DataAt(p, 1, failed) !in Survivors(p, failed)
  {
    if DataAt(p, 1, failed) in Survivors(p, failed) {
      InSurvivors(p, failed, DataAt(p, 1, failed));
    }
  }

  /** What the first combination of a repair leaves alone. */
  lemma AvoidsFirst<F(!new)>(p: Params, s: Solver<F>, f: GF<F>, failed: nat, t: nat)
    requires p.Fits() && failed < p.k && Invertibles(p, f, s, failed) && (t < p.k || t >= 2 * p.n)
    ensures Avoids([FirstBack(p, s, f, failed)], t) && t !in Survivors(p, failed)
  {
    hide Recover;
    if t in Survivors(p, failed) { InSurvivors(p, failed, t); }
    AvoidsOne(FirstBack(p, s, f, failed), t);
  }

  lemma AvoidsParity<F(!new)>(p: Params, s: Solver<F>, f: GF<F>, failed: nat, g: nat, t: nat)
    requires p.Fits() && failed < p.k && Invertibles(p, f, s, failed) && (t < p.k || t >= 2 * p.n) && 1 <= g && t != UncoupledAt(p, 1, g)
    ensures Avoids([ParityBack(p, s, f, failed, g)], t)
  {
    AvoidsFirst(p, s, f, failed, t);
    hide Recover, Survivors;
    AvoidsOne(ParityBack(p, s, f, failed, g), t);
  }

  lemma AvoidsParities<F(!new)>(p: Params, s: Solver<F>, f: GF<F>, failed: nat, m: nat, t: nat)
    requires p.Fits() && failed < p.k && Invertibles(p, f, s, failed) && (t < p.k || t >= 2 * p.n)
    requires forall g | 1 <= g <= m :: t != UncoupledAt(p, 1, g)
    ensures Avoids([FirstBack(p, s, f, failed)] + ParityOps(p, s, f, failed, m), t)
  {
    AvoidsFirst(p, s, f, failed, t);
    hide Recover, Survivors, CodeRow;
    forall i | 0 <= i < m ensures ParityOps(p, s, f, failed, m)[i].target != t && t !in ParityOps(p, s, f, failed, m)[i].sources {
      assert ParityOps(p, s, f, failed, m)[i] == ParityBack(p, s, f, failed, i + 1);
    }
    AvoidsJoin([FirstBack(p, s, f, failed)], ParityOps(p, s, f, failed, m), t);
  }

  lemma GroupBackIsNew<F(!new)>(p: Params, s: Solver<F>, f: GF<F>, failed: nat, g: nat)
    requires p.Fits() && failed < p.k && Invertibles(p, f, s, failed) && 1 <= g <= p.Groups()
    ensures Avoids([FirstBack(p, s, f, failed), ParityBack(p, s, f, failed, g)], GroupAt(p, g))
    ensures GroupAt(p, g) !in [UncoupledAt(p, 1, g), CodeAt(p, 1, g)]
  {
    hide Recover, Survivors;
    AvoidsFirst(p, s, f, failed, GroupAt(p, g));
    AvoidsParity(p, s, f, failed, g, GroupAt(p, g));
    var a, b := [FirstBack(p, s, f, failed)], [ParityBack(p, s, f, failed, g)];
    assert a + b == [FirstBack(p, s, f, failed), ParityBack(p, s, f, failed, g)];
    AvoidsJoin(a, b, GroupAt(p, g));
  }

  lemma SecondIsNew<F(!new)>(p: Params, s: Solver<F>, f: GF<F>, failed: nat, g: nat)
    requires p.Fits() && failed < p.k && Invertibles(p, f, s, failed) && InGroup(p, failed, g)
    ensures Avoids([FirstBack(p, s, f, failed), ParityBack(p, s, f, failed, g), GroupBack(p, f, g)], DataAt(p, 0, failed))
    ensures DataAt(p, 0, failed) !in SecondBack(p, s, f, failed, g).sources
  {
    SecondReads(p, s, f, failed, g);
    hide Recover, Survivors, InGroup, RecoverGroup, SecondBack;
    var t := DataAt(p, 0, failed);
    AvoidsFirst(p, s, f, failed, t);
    AvoidsParity(p, s, f, failed, g, t);
    AvoidsOne(GroupBack(p, f, g), t);
    var a, b, c := [FirstBack(p, s, f, failed)], [ParityBack(p, s, f, failed, g)], [GroupBack(p, f, g)];
    assert a + b + c == [FirstBack(p, s, f, failed), ParityBack(p, s, f, failed, g), GroupBack(p, f, g)];
    AvoidsJoin(a, b, t);
    AvoidsJoin(a + b, c, t);
  }

  lemma SecondReads<F(!new)>(p: Params, s: Solver<F>, f: GF<F>, failed: nat, g: nat)
    requires p.Fits() && failed < p.k && Invertibles(p, f, s, failed) && InGroup(p, failed, g)
    ensures 1 <= g <= p.Groups() && DataAt(p, 0, failed) !in SecondBack(p, s, f, failed, g).sources
  {
    hide Recover, RecoverGroup, GroupLine, Average;
    MemberAt(p, failed, g);
    var nodes := Drop(Members(p, g), failed - Start(Average(p), g));
    forall i | 0 <= i < |nodes| ensures nodes[i] != failed {}
  }

  lemma {:induction false} InCouples(p: Params, m: nat, t: nat)
    requires p.Fits() && m <= p.Groups() && t in Couples(p, m)
    ensures exists g: nat :: 1 <= g <= m && (t == UncoupledAt(p, 1, g) || t == if g == 1 then CodeAt(p, 0, 1) else CodeAt(p, 1, g))
  {
    if m > 0 && t != UncoupledAt(p, 1, m) && t != (if m == 1 then CodeAt(p, 0, 1) else CodeAt(p, 1, m)) {
      InCouples(p, m - 1, t);
    }
  }

  lemma CouplesAreNew<F(!new)>(p: Params, s: Solver<F>, f: GF<F>)
    requires p.Fits() && Invertibles(p, f, s, p.k - 1)
    ensures Avoids([FirstBack(p, s, f, p.k - 1)] + ParityOps(p, s, f, p.k - 1, p.Groups()), LastAt(p))
    ensures LastAt(p) !in Couples(p, p.Groups())
  {
    hide Recover, Couples;
    AvoidsParities(p, s, f, p.k - 1, p.Groups(), LastAt(p));
    if LastAt(p) in Couples(p, p.Groups()) { InCouples(p, p.Groups(), LastAt(p)); }
  }

  lemma LastNotCoupled(p: Params)
    requires p.Fits()
    ensures DataAt(p, 0, p.k - 1) !in Couples(p, p.Groups())
  {
    hide Couples;
    if DataAt(p, 0, p.k - 1) in Couples(p, p.Groups()) { InCouples(p, p.Groups(), DataAt(p, 0, p.k - 1)); }
  }

  lemma LastIsNew<F(!new)>(p: Params, s: Solver<F>, f: GF<F>)
    requires p.Fits() && Invertibles(p, f, s, p.k - 1)
    ensures Avoids([FirstBack(p, s, f, p.k - 1)] + ParityOps(p, s, f, p.k - 1, p.Groups()) + [AllCouples(p, f)], DataAt(p, 0, p.k - 1))
    ensures DataAt(p, 0, p.k - 1) !in [LastAt(p)]
  {
    hide Recover, Couples;
    var t := DataAt(p, 0, p.k - 1);
    AvoidsParities(p, s, f, p.k - 1, p.Groups(), t);
    LastNotCoupled(p);
    AvoidsOne(AllCouples(p, f), t);
    AvoidsJoin([FirstBack(p, s, f, p.k - 1)] + ParityOps(p, s, f, p.k - 1, p.Groups()), [AllCouples(p, f)], t);
  }
}
