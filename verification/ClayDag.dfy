/** The DAGs that Clay builds: which Join comes when, and what has been joined so far. */
module ClayDag {
  import opened Dags
  import opened Galois
  import opened ClaySpec
  import E = Ecdags

  // ---------------------------------------------------------------------------------------------
  // The DAG and the sub-chunks joined so far

  function Ids(p: Params, cs: seq<Sub>): (r: seq<int>)
    ensures |r| == |cs|
  {
    seq(|cs|, i requires 0 <= i < |cs| => Id(p, cs[i]))
  }

  ghost predicate JoinedAs<F(!new)>(p: Params, f: GF<F>, invert: seq<seq<F>> -> seq<seq<F>>, mode: Mode, g: Dag<F>, s: Sub)
    requires Fits(p) && ModeFits(p, mode) && InCode(p, s)
  {
    var (cs, coefs) := Rule(p, f, invert, mode, s);
    Id(p, s) in g && !g[Id(p, s)].kind.Leaf? && g[Id(p, s)].children == Ids(p, cs) && g[Id(p, s)].coefs == coefs
  }

  /** A vertex is a joined sub-chunk or a leaf that was given. */
  ghost predicate Accounted<F(!new)>(p: Params, mode: Mode, g: Dag<F>, joined: set<Sub>, v: int)
    requires Fits(p) && ModeFits(p, mode) && v in g
  {
    exists s :: InCode(p, s) && Id(p, s) == v && (s in joined || (Given(p, mode, s) && g[v].kind.Leaf?))
  }

  ghost predicate Traced<F(!new)>(p: Params, f: GF<F>, invert: seq<seq<F>> -> seq<seq<F>>, mode: Mode, g: Dag<F>, joined: set<Sub>)
    requires Fits(p) && ModeFits(p, mode)
  {
    && (forall s | s in joined :: InCode(p, s) && KindOf(p, mode, s) != Nothing && JoinedAs(p, f, invert, mode, g, s))
    && (forall v | v in g :: Accounted(p, mode, g, joined, v))
  }

  ghost predicate Available(p: Params, mode: Mode, joined: set<Sub>, cs: seq<Sub>)
    requires Fits(p) && ModeFits(p, mode)
  {
    forall i | 0 <= i < |cs| :: InCode(p, cs[i]) && (cs[i] in joined || Given(p, mode, cs[i]))
  }

  /** What is computed is not given. */
  lemma NotGiven(p: Params, mode: Mode, s: Sub)
    requires Fits(p) && ModeFits(p, mode) && InCode(p, s) && KindOf(p, mode, s) != Nothing
    ensures !Given(p, mode, s)
  {}

  /** The next Join is allowed. */
  lemma Fresh<F(!new)>(p: Params, f: GF<F>, invert: seq<seq<F>> -> seq<seq<F>>, mode: Mode, g: Dag<F>, joined: set<Sub>, s: Sub, cs: seq<Sub>)
    requires Fits(p) && ModeFits(p, mode) && Traced(p, f, invert, mode, g, joined) && Available(p, mode, joined, cs)
    requires InCode(p, s) && KindOf(p, mode, s) != Nothing && s !in joined
    ensures Id(p, s) !in g && Id(p, s) !in E.Elements(Ids(p, cs))
  {
    hide JoinedAs, KindOf, Given, Id;
    NotGiven(p, mode, s);
    if Id(p, s) in g {
      assert Accounted(p, mode, g, joined, Id(p, s));
      var s' :| InCode(p, s') && Id(p, s') == Id(p, s) && (s' in joined || (Given(p, mode, s') && g[Id(p, s)].kind.Leaf?));
      IdInjective(p, s, s');
    }
    if Id(p, s) in E.Elements(Ids(p, cs)) {
      var i :| 0 <= i < |cs| && Ids(p, cs)[i] == Id(p, s);
      IdInjective(p, s, cs[i]);
    }
  }

  lemma StillAccounted<F(!new)>(p: Params, mode: Mode, g: Dag<F>, g': Dag<F>, joined: set<Sub>, s: Sub, cs: seq<Sub>, coefs: seq<F>, v: int)
    requires Fits(p) && ModeFits(p, mode) && Available(p, mode, joined, cs) && InCode(p, s)
    requires E.JoinAdds(g, g', Id(p, s), Ids(p, cs), coefs) && v in g'
    requires (forall u | u in g :: Accounted(p, mode, g, joined, u)) && forall u | u in joined :: InCode(p, u) && Id(p, u) in g
    ensures Accounted(p, mode, g', joined + {s}, v)
  {
    hide KindOf, Given, Id, InCode;
    if v == Id(p, s) {
      assert s in joined + {s};
    } else if v in g {
      assert Accounted(p, mode, g, joined, v);
      var s' :| InCode(p, s') && Id(p, s') == v && (s' in joined || (Given(p, mode, s') && g[v].kind.Leaf?));
      assert InCode(p, s') && Id(p, s') == v && (s' in joined + {s} || (Given(p, mode, s') && g'[v].kind.Leaf?));
    } else {
      var i := ElementAt(Ids(p, cs), v);
      assert cs[i] in joined ==> v in g;
      assert InCode(p, cs[i]) && Id(p, cs[i]) == v;
    }
  }

  lemma ElementAt(s: seq<int>, v: int) returns (i: nat)
    requires v in E.Elements(s)
    ensures i < |s| && s[i] == v
  {
    i :| 0 <= i < |s| && s[i] == v;
  }

  lemma JoinedStill<F(!new)>(p: Params, f: GF<F>, invert: seq<seq<F>> -> seq<seq<F>>, mode: Mode, g: Dag<F>, g': Dag<F>, pidx: int, cidx: seq<int>, coefs: seq<F>, u: Sub)
    requires Fits(p) && ModeFits(p, mode) && InCode(p, u) && JoinedAs(p, f, invert, mode, g, u) && E.JoinAdds(g, g', pidx, cidx, coefs)
    ensures JoinedAs(p, f, invert, mode, g', u)
  {
    hide Rule, Id, E.Elements;
  }

  lemma TracedJoin<F(!new)>(p: Params, f: GF<F>, invert: seq<seq<F>> -> seq<seq<F>>, mode: Mode, g: Dag<F>, g': Dag<F>, joined: set<Sub>,
                            s: Sub, cs: seq<Sub>, coefs: seq<F>)
    requires Fits(p) && ModeFits(p, mode) && Traced(p, f, invert, mode, g, joined) && Available(p, mode, joined, cs)
    requires InCode(p, s) && KindOf(p, mode, s) != Nothing && Rule(p, f, invert, mode, s) == (cs, coefs)
    requires E.JoinAdds(g, g', Id(p, s), Ids(p, cs), coefs)
    ensures Traced(p, f, invert, mode, g', joined + {s})
  {
    hide Available, Accounted, Rule, KindOf, Id, InCode;
    forall u | u in joined + {s} ensures InCode(p, u) && KindOf(p, mode, u) != Nothing && JoinedAs(p, f, invert, mode, g', u) {
      if u in joined {
        JoinedStill(p, f, invert, mode, g, g', Id(p, s), Ids(p, cs), coefs, u);
      }
    }
    forall u | u in joined ensures Id(p, u) in g {
      assert JoinedAs(p, f, invert, mode, g, u);
    }
    forall v | v in g' ensures Accounted(p, mode, g', joined + {s}, v) {
      StillAccounted(p, mode, g, g', joined, s, cs, coefs, v);
    }
  }

  // ---------------------------------------------------------------------------------------------
  // The order of the Joins

  ghost function Owner(p: Params, s: Sub): Sub
    requires Fits(p) && InCode(p, s)
  {
    if First(p, s) then s else Partner(p, s)
  }

  /** The plane of a repair in which s is joined. */
  ghost function Round(p: Params, mode: Mode, s: Sub): nat
    requires Fits(p) && ModeFits(p, mode) && InCode(p, s)
  {
    match KindOf(p, mode, s)
    case FromPair => s.z
    case FromCode => s.z
    case FromHelper => Partner(p, s).z
    case _ => 0
  }

  ghost function Group(kind: Origin): nat {
    match kind
    case FromPair => 0
    case FromCode => 1
    case _ => 2
  }

  /** The node at which s is joined. */
  ghost function At(p: Params, mode: Mode, s: Sub): nat
    requires Fits(p) && ModeFits(p, mode) && InCode(p, s)
  {
    match KindOf(p, mode, s)
    case FromPair => s.node
    case FromCode => s.node
    case FromHelper => Partner(p, s).node
    case _ => 0
  }

  /** Where the construction stands: some rounds are over, and in the current one everything before a
      group and, within the group, the nodes in seen. */
  datatype Stage = Stage(rounds: set<nat>, round: nat, group: nat, seen: set<nat>)

  ghost predicate Past(p: Params, mode: Mode, st: Stage, s: Sub)
    requires Fits(p) && ModeFits(p, mode) && InCode(p, s)
  {
    && KindOf(p, mode, s) != Nothing
    && (Round(p, mode, s) in st.rounds
        || (Round(p, mode, s) == st.round
            && (Group(KindOf(p, mode, s)) < st.group || (Group(KindOf(p, mode, s)) == st.group && At(p, mode, s) in st.seen))))
  }

  ghost predicate Stands(p: Params, mode: Mode, st: Stage, joined: set<Sub>)
    requires Fits(p) && ModeFits(p, mode)
  {
    && st.round !in st.rounds
    && (forall s | s in joined :: InCode(p, s))
    && (forall s | InCode(p, s) :: s in joined <==> Past(p, mode, st, s))
  }

  /** s is due at this very point. */
  ghost predicate Due(p: Params, mode: Mode, st: Stage, node: nat, s: Sub)
    requires Fits(p) && ModeFits(p, mode) && InCode(p, s)
  {
    KindOf(p, mode, s) != Nothing && Round(p, mode, s) == st.round && Group(KindOf(p, mode, s)) == st.group && At(p, mode, s) == node
  }

  lemma DueIsNew(p: Params, mode: Mode, st: Stage, joined: set<Sub>, node: nat, s: Sub)
    requires Fits(p) && ModeFits(p, mode) && InCode(p, s) && Stands(p, mode, st, joined) && Due(p, mode, st, node, s) && node !in st.seen
    ensures s !in joined
  {
    hide KindOf, Round, At;
  }

  lemma NodeDone(p: Params, mode: Mode, st: Stage, joined: set<Sub>, joined': set<Sub>, node: nat)
    requires Fits(p) && ModeFits(p, mode) && Stands(p, mode, st, joined)
    requires (forall s | s in joined' :: InCode(p, s))
    requires forall s | InCode(p, s) :: s in joined' <==> s in joined || Due(p, mode, st, node, s)
    ensures Stands(p, mode, st.(seen := st.seen + {node}), joined')
  {
    hide KindOf, Round, At, InCode, Group;
  }

  lemma GroupDone(p: Params, mode: Mode, st: Stage, joined: set<Sub>)
    requires Fits(p) && ModeFits(p, mode) && Stands(p, mode, st, joined)
    requires forall s | InCode(p, s) && KindOf(p, mode, s) != Nothing && Round(p, mode, s) == st.round && Group(KindOf(p, mode, s)) == st.group ::
               At(p, mode, s) in st.seen
    ensures Stands(p, mode, st.(group := st.group + 1, seen := {}), joined)
  {
    hide KindOf, Round, At, InCode, Group;
  }

  lemma GroupJoined(p: Params, mode: Mode, st: Stage, joined: set<Sub>, joined': set<Sub>)
    requires Fits(p) && ModeFits(p, mode) && Stands(p, mode, st, joined) && st.seen == {}
    requires (forall s | s in joined' :: InCode(p, s))
    requires forall s | InCode(p, s) :: s in joined' <==>
               s in joined || (KindOf(p, mode, s) != Nothing && Round(p, mode, s) == st.round && Group(KindOf(p, mode, s)) == st.group)
    ensures Stands(p, mode, Stage(st.rounds, st.round, st.group + 1, {}), joined')
  {
    hide KindOf, Round, At, InCode, Group;
  }

  lemma RoundDone(p: Params, mode: Mode, st: Stage, joined: set<Sub>, next: nat)
    requires Fits(p) && ModeFits(p, mode) && Stands(p, mode, st, joined) && st.group == 3 && next !in st.rounds && next != st.round
    ensures Stands(p, mode, Stage(st.rounds + {st.round}, next, 0, {}), joined)
  {
    hide KindOf, Round, At, InCode;
  }

  lemma NothingJoined<F(!new)>(p: Params, f: GF<F>, invert: seq<seq<F>> -> seq<seq<F>>, mode: Mode, round: nat)
    requires Fits(p) && ModeFits(p, mode)
    ensures Stands(p, mode, Stage({}, round, 0, {}), {}) && Traced<F>(p, f, invert, mode, map[], {})
  {
    hide KindOf, Round, At, InCode;
  }
}
