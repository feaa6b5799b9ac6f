/** Which sub-chunks are due at each point of a repair, and that what they are computed from is there. */
module ClaySteps {
  import opened Galois
  import opened ClaySpec
  import opened ClayMeaning
  import opened ClayDag

  lemma DueCode(p: Params, mode: Mode, st: Stage, node: nat, s: Sub)
    requires Fits(p) && ModeFits(p, mode) && mode.Repairing? && st.round < p.w && st.group == 1 && node < p.Total() && InCode(p, s)
    ensures Due(p, mode, st, node, s) <==> Col(p, node) == Erased(p, mode) && Active(p, mode, st.round) && s == Ua(p, node, st.round)
  {
    hide Partner, Owner, Digit, Col;
    NodeFits(p, node);
    NodeFits(p, s.node);
    if mode.Repairing? { NodeFits(p, mode.lost); }
    if s.node == node && s.z == st.round {
      SameFlags(p, s, false);
      if mode.Repairing? && Col(p, node) == Col(p, mode.lost) {
        SameColumnSameNode(p, mode, node, st.round);
      }
    }
  }

  /** In the lost node's column only the lost node is unpaired in an active plane. */
  lemma SameColumnSameNode(p: Params, mode: Mode, node: nat, z: nat)
    requires Fits(p) && ModeFits(p, mode) && node < p.Total() && z < p.w && mode.Repairing? && Col(p, node) == Col(p, mode.lost)
    ensures Active(p, mode, z) ==> (Paired(p, Sub(false, node, z)) <==> node != mode.lost)
    ensures node == mode.lost ==> (Paired(p, Sub(false, node, z)) <==> !Active(p, mode, z))
  {
    hide Digit;
    NodeFits(p, node);
    NodeFits(p, mode.lost);
  }

  lemma DuePairRepair(p: Params, mode: Mode, st: Stage, node: nat, s: Sub)
    requires Fits(p) && ModeFits(p, mode) && mode.Repairing? && st.round < p.w && st.group == 0 && node < p.Total() && InCode(p, s)
    ensures var u := Sub(false, node, st.round);
            InCode(p, u) && (Due(p, mode, st, node, s) <==> s == u && Paired(p, u) && Col(p, node) != Erased(p, mode) && Active(p, mode, st.round))
  {
    hide First, Partner, Paired, Digit, Col;
  }

  lemma DueHelper(p: Params, mode: Mode, st: Stage, node: nat, s: Sub)
    requires Fits(p) && ModeFits(p, mode) && mode.Repairing? && st.round < p.w && st.group == 2 && node < p.Total() && InCode(p, s)
    ensures var h := Sub(true, node, st.round);
            InCode(p, h) && (Due(p, mode, st, node, s) <==>
              Col(p, node) == Erased(p, mode) && node != mode.lost && Active(p, mode, st.round) && s == Partner(p, h))
  {
    hide First, Partner, Paired, Digit, Col;
    var h := Sub(true, node, st.round);
    NodeFits(p, node);
    NodeFits(p, mode.lost);
    PartnerBack(p, s);
    PartnerBack(p, h);
    PartnerPlace(p, s);
    PartnerPlace(p, h);
    PartnerOrder(p, h);
    if KindOf(p, mode, s) == FromHelper {
      HelperOf(p, mode, s);
    }
    if Col(p, node) == Erased(p, mode) && node != mode.lost && Active(p, mode, st.round) {
      LostOf(p, mode, h);
    }
  }

  /** The partner of a lost, paired sub-chunk is a helper's in an active plane. */
  lemma HelperOf(p: Params, mode: Mode, s: Sub)
    requires Fits(p) && ModeFits(p, mode) && mode.Repairing? && InCode(p, s) && s.coupled && s.node == mode.lost && Paired(p, s)
    ensures var h := Partner(p, s); InCode(p, h) && h.node != mode.lost && Col(p, h.node) == Col(p, mode.lost) && Active(p, mode, h.z)
  {
    hide Digit;
    NodeFits(p, mode.lost);
    PartnerPlace(p, s);
    PartnerDigits(p, s, Col(p, mode.lost));
  }

  lemma LostOf(p: Params, mode: Mode, h: Sub)
    requires Fits(p) && ModeFits(p, mode) && mode.Repairing? && InCode(p, h) && h.coupled
    requires h.node != mode.lost && Col(p, h.node) == Col(p, mode.lost) && Active(p, mode, h.z)
    ensures InCode(p, Partner(p, h)) && Partner(p, h).coupled && Partner(p, h).node == mode.lost && Paired(p, Partner(p, h)) && Paired(p, h)
  {
    hide Digit, Partner;
    NodeFits(p, mode.lost);
    NodeFits(p, h.node);
    PartnerPlace(p, h);
    PartnerOrder(p, h);
    NodeFits(p, Partner(p, h).node);
  }

  // ---------------------------------------------------------------------------------------------
  // What is available

  /** Both coupled members of a pair are given. */
  lemma PairAvailable(p: Params, mode: Mode, joined: set<Sub>, s: Sub)
    requires Fits(p) && ModeFits(p, mode) && InCode(p, s) && KindOf(p, mode, s) == FromPair
    ensures Available(p, mode, joined, [AsC(s), AsC(Partner(p, s))]) && Available(p, mode, joined, [AsC(Partner(p, s)), AsC(s)])
  {
    hide Digit, First, Paired;
    NodeFits(p, s.node);
    PartnerPlace(p, s);
    if mode.Repairing? {
      NodeFits(p, mode.lost);
      PartnerDigits(p, s, Col(p, mode.lost));
    }
    assert Given(p, mode, AsC(s)) && Given(p, mode, AsC(Partner(p, s)));
  }

  /** In the second group of a round, the uncoupled symbols outside the erased column are there. */
  lemma SurvivorsAvailable(p: Params, mode: Mode, st: Stage, joined: set<Sub>)
    requires Fits(p) && ModeFits(p, mode) && mode.Repairing? && Stands(p, mode, st, joined) && st.round < p.w && st.group == 1 && Active(p, mode, st.round)
    ensures Available(p, mode, joined, Survivors(p, Erased(p, mode), st.round))
  {
    hide Others, Ua, Given, KindOf;
    var y, z := Erased(p, mode), st.round;
    OthersFit(p, y);
    var cs := Survivors(p, y, z);
    forall i | 0 <= i < |cs| ensures InCode(p, cs[i]) && (cs[i] in joined || Given(p, mode, cs[i])) {
      SurvivorAvailable(p, mode, st, joined, Others(p, y)[i]);
    }
  }

  lemma SurvivorAvailable(p: Params, mode: Mode, st: Stage, joined: set<Sub>, node: nat)
    requires Fits(p) && ModeFits(p, mode) && mode.Repairing? && Stands(p, mode, st, joined) && st.round < p.w && st.group == 1 && Active(p, mode, st.round)
    requires node < p.Total() && Col(p, node) != Erased(p, mode)
    ensures var s := Ua(p, node, st.round); s in joined || Given(p, mode, s)
  {
    hide Digit, Partner, First, Col;
    NodeFits(p, node);
    var s := Ua(p, node, st.round);
    SameFlags(p, s, false);
    if Paired(p, s) {
      assert KindOf(p, mode, s) == FromPair;
      PartnerOrder(p, s);
      assert Past(p, mode, st, s);
    } else if mode.Repairing? {
      NodeFits(p, mode.lost);
    }
  }

  /** In the last group of a round, a helper's coupled and uncoupled values are there. */
  lemma HelperAvailable(p: Params, mode: Mode, st: Stage, joined: set<Sub>, node: nat)
    requires Fits(p) && ModeFits(p, mode) && mode.Repairing? && Stands(p, mode, st, joined) && st.round < p.w && st.group == 2
    requires Active(p, mode, st.round) && node < p.Total() && Col(p, node) == Erased(p, mode) && node != mode.lost
    ensures Available(p, mode, joined, [Sub(true, node, st.round), Sub(false, node, st.round)])
  {
    hide Digit, Partner, First;
    NodeFits(p, node);
    NodeFits(p, mode.lost);
    SameColumnSameNode(p, mode, node, st.round);
    var u := Sub(false, node, st.round);
    assert KindOf(p, mode, u) == FromCode;
    assert Past(p, mode, st, u);
    assert Given(p, mode, Sub(true, node, st.round));
  }
}
