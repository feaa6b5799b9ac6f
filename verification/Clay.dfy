/** The Clay code's DAG construction (src/ec/Clay.cc) with d = n - 1. */
module Clays {
  import opened Dags
  import opened Planes
  import opened Galois
  import opened ClaySpec
  import opened ClayMeaning
  import opened ClayDag
  import opened ClayLayers
  import opened ClaySteps
  import E = Ecdags

  // ---------------------------------------------------------------------------------------------
  // Index maps

  ghost predicate Before(s: Sub, node: nat, z: nat) {
    s.node < node || (s.node == node && s.z < z)
  }

  /** The maps are right for the sub-chunks before (node, z). */
  ghost predicate MapsRight(p: Params, short2real: map<int, int>, real2short: map<int, int>, node: nat, z: nat) {
    forall s | InCode(p, s) && Before(s, node, z) ::
      && ShortId(p, s) in short2real && short2real[ShortId(p, s)] == Id(p, s)
      && Id(p, s) in real2short && real2short[Id(p, s)] == ShortId(p, s)
  }

  /** identical maps the uncoupled index of an unpaired sub-chunk to its coupled one, and nothing else. */
  ghost predicate IdenticalRight(p: Params, identical: map<int, int>, node: nat, z: nat)
    requires Fits(p)
  {
    forall s | InCode(p, s) && !s.coupled ::
      && (ShortId(p, s) in identical <==> Before(s, node, z) && !Paired(p, s))
      && (ShortId(p, s) in identical ==> identical[ShortId(p, s)] == ShortId(p, AsC(s)))
  }

  lemma MapsStep(p: Params, short2real: map<int, int>, real2short: map<int, int>, node: nat, z: nat)
    requires Fits(p) && MapsRight(p, short2real, real2short, node, z) && node < p.Total() && z < p.w
    ensures var c, u := Sub(true, node, z), Sub(false, node, z);
            MapsRight(p, short2real[ShortId(p, c) := Id(p, c)][ShortId(p, u) := Id(p, u)],
                      real2short[Id(p, c) := ShortId(p, c)][Id(p, u) := ShortId(p, u)], node, z + 1)
  {
    hide ShortId, Id;
    var c, u := Sub(true, node, z), Sub(false, node, z);
    forall s | InCode(p, s) && Before(s, node, z + 1)
      ensures ShortId(p, s) == ShortId(p, c) ==> s == c
      ensures ShortId(p, s) == ShortId(p, u) ==> s == u
      ensures Id(p, s) == Id(p, c) ==> s == c
      ensures Id(p, s) == Id(p, u) ==> s == u
      ensures Before(s, node, z) || s == c || s == u
    {
      if ShortId(p, s) == ShortId(p, c) { ShortIdInjective(p, s, c); }
      if ShortId(p, s) == ShortId(p, u) { ShortIdInjective(p, s, u); }
      if Id(p, s) == Id(p, c) { IdInjective(p, s, c); }
      if Id(p, s) == Id(p, u) { IdInjective(p, s, u); }
    }
  }

  lemma MapsNextNode(p: Params, short2real: map<int, int>, real2short: map<int, int>, node: nat)
    requires MapsRight(p, short2real, real2short, node, p.w)
    ensures MapsRight(p, short2real, real2short, node + 1, 0)
  {
    hide ShortId, Id;
  }

  /** The inner loops over j (src/ec/Clay.cc:61-97), for one node. */
  method FillNode(p: Params, shortPktIdx: nat, realPktIdx: int, s2r: map<int, int>, r2s: map<int, int>)
    returns (short2real: map<int, int>, real2short: map<int, int>)
    requires Fits(p) && shortPktIdx < p.Total() && realPktIdx == Real(p, shortPktIdx) && MapsRight(p, s2r, r2s, shortPktIdx, 0)
    ensures MapsRight(p, short2real, real2short, shortPktIdx + 1, 0)
  {
    hide MapsRight, Fits;
    short2real, real2short := s2r, r2s;
    for j := 0 to p.w
      invariant MapsRight(p, short2real, real2short, shortPktIdx, j)
    {
      var shortSubPktIdx := shortPktIdx * p.w + j;
      var realSubPktIdx := realPktIdx * p.w + j;
      var virShortSubPktIdx := shortSubPktIdx + (p.n + p.nu) * p.w;
      var virRealSubPktIdx := realSubPktIdx + (p.n + p.nu) * p.w;
      MapsStep(p, short2real, real2short, shortPktIdx, j);
      short2real := short2real[shortSubPktIdx := realSubPktIdx];
      real2short := real2short[realSubPktIdx := shortSubPktIdx];
      short2real := short2real[virShortSubPktIdx := virRealSubPktIdx];
      real2short := real2short[virRealSubPktIdx := virShortSubPktIdx];
    }
    MapsNextNode(p, short2real, real2short, shortPktIdx);
  }

  /** src/ec/Clay.cc:59-98 */
  method FillMaps(p: Params) returns (short2real: map<int, int>, real2short: map<int, int>)
    requires Fits(p)
    ensures MapsRight(p, short2real, real2short, p.Total(), 0)
  {
    hide MapsRight;
    short2real, real2short := map[], map[];
    NoMaps(p);
    for i := 0 to p.k
      invariant MapsRight(p, short2real, real2short, i, 0)
    {
      short2real, real2short := FillNode(p, i, i, short2real, real2short);
    }
    for i := 0 to p.nu
      invariant MapsRight(p, short2real, real2short, p.k + i, 0)
    {
      short2real, real2short := FillNode(p, p.k + i, p.n + i, short2real, real2short);
    }
    for i := 0 to p.n - p.k
      invariant MapsRight(p, short2real, real2short, p.k + p.nu + i, 0)
    {
      short2real, real2short := FillNode(p, p.k + p.nu + i, p.k + i, short2real, real2short);
    }
  }

  lemma NoMaps(p: Params)
    ensures MapsRight(p, map[], map[], 0, 0)
  {}

  lemma IdenticalStep(p: Params, identical: map<int, int>, node: nat, z: nat)
    requires Fits(p) && IdenticalRight(p, identical, node, z) && node < p.Total() && z < p.w
    ensures var u := Sub(false, node, z);
            IdenticalRight(p, if Paired(p, u) then identical else identical[ShortId(p, u) := ShortId(p, AsC(u))], node, z + 1)
  {
    hide ShortId, Paired;
    var u := Sub(false, node, z);
    forall s | InCode(p, s) && !s.coupled
      ensures ShortId(p, s) == ShortId(p, u) ==> s == u
      ensures Before(s, node, z + 1) <==> Before(s, node, z) || s == u
    {
      if ShortId(p, s) == ShortId(p, u) { ShortIdInjective(p, s, u); }
    }
  }

  lemma IdenticalNextNode(p: Params, identical: map<int, int>, node: nat)
    requires Fits(p) && IdenticalRight(p, identical, node, p.w)
    ensures IdenticalRight(p, identical, node + 1, 0)
  {
    hide ShortId, Paired;
  }

  function NodeAt(q: nat, x: nat, y: nat): nat {
    y * q + x
  }

  lemma NodeOrder(q: nat, x: nat, y: nat)
    ensures NodeAt(q, x, y) + 1 == NodeAt(q, x + 1, y) && NodeAt(q, q, y) == NodeAt(q, 0, y + 1)
    ensures NodeAt(q, 0, 0) == 0 && NodeAt(q, 0, y) == q * y
  {
    assert (y + 1) * q == y * q + q;
  }

  lemma NodeAtFits(p: Params, x: nat, y: nat)
    requires Fits(p) && x < p.q && y < p.t
    ensures NodeAt(p.q, x, y) == y * p.q + x
    ensures NodeAt(p.q, x, y) < p.Total() && Col(p, NodeAt(p.q, x, y)) == y && NodeAt(p.q, x, y) % p.q == x
  {
    NodeOf(p, x, y);
  }

  /** src/ec/Clay.cc:100-123 */
  method FillIdentical(p: Params) returns (identical: map<int, int>)
    requires Fits(p)
    ensures IdenticalRight(p, identical, p.Total(), 0)
  {
    hide *;
    identical := map[];
    NoIdentical(p);
    NodeOrder(p.q, 0, 0);
    for y := 0 to p.t
      invariant IdenticalRight(p, identical, NodeAt(p.q, 0, y), 0)
    {
      for x := 0 to p.q
        invariant IdenticalRight(p, identical, NodeAt(p.q, x, y), 0)
      {
        identical := FillIdenticalNode(p, x, y, identical);
        NodeOrder(p.q, x, y);
      }
      NodeOrder(p.q, 0, y);
    }
    NodeOrder(p.q, 0, p.t);
    Grid(p);
  }

  method FillIdenticalNode(p: Params, x: nat, y: nat, identical0: map<int, int>) returns (identical: map<int, int>)
    requires Fits(p) && x < p.q && y < p.t && IdenticalRight(p, identical0, NodeAt(p.q, x, y), 0)
    ensures IdenticalRight(p, identical, NodeAt(p.q, x, y) + 1, 0)
  {
    hide IdenticalRight, Digits;
    NodeOf(p, x, y);
    var node_xy := y * p.q + x;
    identical := identical0;
    for z := 0 to p.w
      invariant IdenticalRight(p, identical, node_xy, z)
    {
      var z_vec := GetPlaneVector(p.q, p.t, z);
      var idx := node_xy * p.w + z;
      var pidx := idx + (p.n + p.nu) * p.w;
      IdenticalStep(p, identical, node_xy, z);
      assert z_vec[y] == x <==> !Paired(p, Sub(false, node_xy, z));
      if z_vec[y] == x {
        identical := identical[pidx := idx];
      }
    }
    IdenticalNextNode(p, identical, node_xy);
  }

  lemma NoIdentical(p: Params)
    requires Fits(p)
    ensures IdenticalRight(p, map[], 0, 0)
  {}

  /** The numbers below n. */
  ghost function Upto(n: nat): set<nat> {
    if n == 0 then {} else Upto(n - 1) + {n - 1}
  }

  lemma {:induction false} UptoHas(n: nat, r: nat)
    ensures r in Upto(n) <==> r < n
  {
    if n > 0 { UptoHas(n - 1, r); }
  }

  lemma UptoNext(n: nat)
    ensures Upto(n + 1) == Upto(n) + {n} && n !in Upto(n) && n + 1 !in Upto(n) && Upto(0) == {}
    ensures forall r: nat | r < n :: r in Upto(n)
  {
    UptoHas(n, n);
    UptoHas(n, n + 1);
    forall r: nat | r < n ensures r in Upto(n) { UptoHas(n, r); }
  }

  /** The nodes of column y. */
  function Column(p: Params, y: nat): (r: seq<nat>)
    ensures |r| == p.q
  {
    seq(p.q, i => y * p.q + i)
  }

  lemma InColumn(p: Params, y: nat, node: nat)
    ensures node in Column(p, y) <==> y * p.q <= node < y * p.q + p.q
  {
    if y * p.q <= node < y * p.q + p.q {
      assert Column(p, y)[node - y * p.q] == node;
    }
  }

  /** The elements of a list. */
  ghost function SetOf(s: seq<nat>): set<nat> {
    set i | 0 <= i < |s| :: s[i]
  }

  lemma SetOfNext(s: seq<nat>, i: nat)
    requires i < |s|
    ensures SetOf(s[..i + 1]) == SetOf(s[..i]) + {s[i]} && SetOf(s[..0]) == {} && s[..|s|] == s
    ensures Distinct(s) ==> s[i] !in SetOf(s[..i])
  {
    assert s[..i + 1] == s[..i] + [s[i]];
    assert s[..i + 1][i] == s[i];
  }

  lemma InSetOf(s: seq<nat>, x: nat)
    ensures x in SetOf(s) <==> x in s
  {}

  lemma {:induction false} SetOfSize(s: seq<nat>)
    requires Distinct(s)
    ensures |SetOf(s)| == |s|
    decreases |s|
  {
    if s != [] {
      var n := |s| - 1;
      SetOfNext(s, n);
      SetOfSize(s[..n]);
    } else {
      assert SetOf(s) == {};
    }
  }

  /** A list of q erased nodes. */
  ghost predicate ErasedList(p: Params, erased_chunks: seq<nat>) {
    Distinct(erased_chunks) && |erased_chunks| == p.q && forall i | 0 <= i < |erased_chunks| :: erased_chunks[i] < p.Total()
  }

  lemma ErasedListParts(p: Params, erased_chunks: seq<nat>)
    requires ErasedList(p, erased_chunks)
    ensures Distinct(erased_chunks) && |erased_chunks| == p.q && forall i | 0 <= i < |erased_chunks| :: erased_chunks[i] < p.Total()
  {}

  lemma ErasedListFits(p: Params, erased_chunks: seq<nat>)
    requires Fits(p) && ErasedList(p, erased_chunks)
    ensures ModeFits(p, Layered(SetOf(erased_chunks))) && ErasedFits(p, SetOf(erased_chunks))
  {
    SetOfSize(erased_chunks);
  }

  lemma {:induction false} OutsidePrefix(erased: set<nat>, i: nat, m: nat)
    requires i <= m
    ensures |Outside(erased, i)| <= |Outside(erased, m)| && Outside(erased, m)[..|Outside(erased, i)|] == Outside(erased, i)
  {
    if i < m {
      OutsidePrefix(erased, i, m - 1);
      var a, b := Outside(erased, i), Outside(erased, m - 1);
      assert Outside(erased, m)[..|b|] == b;
      assert Outside(erased, m)[..|a|] == b[..|a|];
    }
  }

  /** src/ec/Clay.cc:1440-1451 */
  method SelectLines(p: Params, erased_chunks: seq<nat>, z: nat) returns (select_lines: seq<nat>, data: seq<int>)
    requires Fits(p) && z < p.w && ErasedList(p, erased_chunks)
    ensures select_lines == Outside(SetOf(erased_chunks), p.Total()) && |data| == |select_lines| == p.k + p.nu
    ensures forall i | 0 <= i < |data| :: data[i] == ShortId(p, Sub(false, select_lines[i], z))
  {
    ErasedListFits(p, erased_chunks);
    hide Fits, Outside, ErasedList, SetOf, ErasedFits, ShortId;
    ghost var erased := SetOf(erased_chunks);
    LinesSize(p, erased);
    RowsFewer(p);
    ghost var last := 0;
    OutsideStep(erased, 0);
    select_lines, data := [], [];
    for i := 0 to p.k + p.nu + p.q
      invariant last == i && select_lines == Outside(erased, i) && |data| == |select_lines| && (|select_lines| < p.k + p.nu || p.k + p.nu == 0)
      invariant forall j | 0 <= j < |data| :: data[j] == ShortId(p, Sub(false, select_lines[j], z))
    {
      OutsideStep(erased, i);
      InSetOf(erased_chunks, i);
      if i !in erased_chunks {
        select_lines := select_lines + [i];
        var curidx := i * p.w + z + (p.n + p.nu) * p.w;
        ShortIdIs(p, i, z);
        data := data + [curidx];
      }
      last := i + 1;
      if |select_lines| == p.k + p.nu {
        break;
      }
      OutsidePrefix(erased, i + 1, p.Total());
    }
    OutsidePrefix(erased, last, p.Total());
  }

  lemma ShortIdIs(p: Params, node: nat, z: nat)
    ensures ShortId(p, Sub(false, node, z)) == node * p.w + z + (p.n + p.nu) * p.w
  {}

  lemma RowsFewer(p: Params)
    requires Fits(p)
    ensures p.Total() == p.k + p.nu + p.q && 0 < p.k + p.nu
  {}

  lemma OutsideStep(erased: set<nat>, i: nat)
    ensures Outside(erased, i + 1) == Outside(erased, i) + (if i in erased then [] else [i]) && Outside(erased, 0) == []
  {}

  lemma ColumnAtMost(y: nat, last: nat, q: nat)
    requires y <= last
    ensures y * q <= last * q
  {
    if y < last { Gap(y, last, q); }
  }

  class Clay<F(!new)> {
    const p: Params
    const f: GF<F>
    const invert: seq<seq<F>> -> seq<seq<F>>
    const short2real: map<int, int>
    const real2short: map<int, int>
    const identical: map<int, int>

    ghost predicate Ready() {
      && Fits(p) && Field(f) && Inverts(f, invert)
      && MapsRight(p, short2real, real2short, p.Total(), 0) && IdenticalRight(p, identical, p.Total(), 0)
    }

    /** src/ec/Clay.cc:18-130, for d = n - 1 */
    constructor (n: nat, k: nat, f: GF<F>, invert: seq<seq<F>> -> seq<seq<F>>)
      requires 0 < k < n && Field(f) && Inverts(f, invert)
      ensures Ready() && p == ParamsOf(n, k) && this.f == f && this.invert == invert
    {
      hide Field, Inverts, MapsRight, IdenticalRight;
      var d := n - 1;
      var q := d - k + 1;
      var nu := if n % q != 0 then q - n % q else 0;
      var t := (n + nu) / q;
      var sub_chunk_no := PowInt(q, t);
      Columns(n, k, q, nu, t);
      ProductIs(q, t);
      PlaneTotalIs(q, t);
      var ps := Params(n, k, q, nu, t, sub_chunk_no);
      this.p := ps;
      this.f := f;
      this.invert := invert;
      var s2r, r2s := FillMaps(ps);
      short2real := s2r;
      real2short := r2s;
      var same := FillIdentical(ps);
      identical := same;
    }

    /** src/ec/Clay.cc:2260-2265 */
    function RealFromShort(idx: int): int {
      if idx in short2real then short2real[idx] else idx
    }

    lemma RealIndex(s: Sub)
      requires Ready() && InCode(p, s)
      ensures RealFromShort(ShortId(p, s)) == Id(p, s)
    {
      hide Field, Inverts, IdenticalRight, ShortId, Id;
      assert Before(s, p.Total(), 0);
    }

    /** The uncoupled index, or the coupled one it is identical with (src/ec/Clay.cc:1465-1469, 1533-1534). */
    function Unaliased(idx: int): int {
      if idx in identical then identical[idx] else idx
    }

    lemma AliasIndex(node: nat, z: nat)
      requires Ready() && node < p.Total() && z < p.w
      ensures Unaliased(ShortId(p, Sub(false, node, z))) == ShortId(p, Ua(p, node, z))
    {
      hide Field, Inverts, MapsRight, ShortId, Paired;
      var u := Sub(false, node, z);
      assert Before(u, p.Total(), 0);
    }

    // -------------------------------------------------------------------------------------------
    // One Join

    ghost predicate Building(dag: E.ECDAG<F>, mode: Mode, st: Stage, joined: set<Sub>)
      requires Ready()
      reads dag
    {
      && ModeFits(p, mode) && dag.Valid()
      && Traced(p, f, invert, mode, dag.nodes, joined) && Stands(p, mode, st, joined)
    }

    method JoinSub(dag: E.ECDAG<F>, pidx: int, cidx: seq<int>, coefs: seq<F>, ghost mode: Mode, ghost joined0: set<Sub>, ghost s: Sub, ghost cs: seq<Sub>)
      returns (ghost joined: set<Sub>)
      requires Ready() && ModeFits(p, mode) && dag.Valid() && Traced(p, f, invert, mode, dag.nodes, joined0)
      requires InCode(p, s) && KindOf(p, mode, s) != Nothing && s !in joined0 && Available(p, mode, joined0, cs)
      requires Rule(p, f, invert, mode, s) == (cs, coefs) && pidx == Id(p, s) && cidx == Ids(p, cs)
      modifies dag
      ensures dag.Valid() && Traced(p, f, invert, mode, dag.nodes, joined) && joined == joined0 + {s}
    {
      hide *;
      Fits0();
      Fresh(p, f, invert, mode, dag.nodes, joined0, s, cs);
      ghost var g := dag.nodes;
      dag.Join(pidx, cidx, coefs);
      TracedJoin(p, f, invert, mode, g, dag.nodes, joined0, s, cs, coefs);
      joined := joined0 + {s};
    }

    lemma Fits0()
      requires Ready()
      ensures Fits(p) && Field(f) && Inverts(f, invert) && 0 < p.q && 0 < p.w && 1 < p.t
    {
      hide Field, Inverts, MapsRight, IdenticalRight;
      FitsFacts(p);
    }

    /** What the index arithmetic of the pair functions computes: node_xy in plane z, its partner, and the
        real indices of their coupled and uncoupled values. */
    lemma PairIndex(x: nat, y: nat, z: nat, z_vec: seq<nat>, z_sw: int)
      requires Ready() && x < p.q && y < p.t && z < p.w && z_vec == Digits(p.q, p.t, z)
      requires z_sw == z + (x - z_vec[y]) * Pow(p.q, p.t - 1 - y)
      ensures NodeAt(p.q, x, y) < p.Total() && Col(p, NodeAt(p.q, x, y)) == y && NodeAt(p.q, x, y) % p.q == x
      ensures InCode(p, Sub(true, NodeAt(p.q, x, y), z)) && InCode(p, Sub(false, NodeAt(p.q, x, y), z)) && Digit(p, z, y) == z_vec[y]
      ensures 0 <= z_sw < p.w && Partner(p, Sub(true, NodeAt(p.q, x, y), z)) == Sub(true, NodeAt(p.q, z_vec[y], y), z_sw)
      ensures Partner(p, Sub(false, NodeAt(p.q, x, y), z)) == Sub(false, NodeAt(p.q, z_vec[y], y), z_sw)
      ensures RealFromShort(NodeAt(p.q, x, y) * p.w + z) == Id(p, Sub(true, NodeAt(p.q, x, y), z))
      ensures RealFromShort(NodeAt(p.q, z_vec[y], y) * p.w + z_sw) == Id(p, Sub(true, NodeAt(p.q, z_vec[y], y), z_sw))
      ensures RealFromShort(NodeAt(p.q, x, y) * p.w + z + (p.n + p.nu) * p.w) == Id(p, Sub(false, NodeAt(p.q, x, y), z))
      ensures RealFromShort(NodeAt(p.q, z_vec[y], y) * p.w + z_sw + (p.n + p.nu) * p.w) == Id(p, Sub(false, NodeAt(p.q, z_vec[y], y), z_sw))
    {
      hide Field, Inverts, MapsRight, IdenticalRight, Digits, Id;
      NodeAtFits(p, x, y);
      NodeAtFits(p, Digit(p, z, y), y);
      Grid(p);
      SwapDigits(p.q, p.t, z, y, x);
      RealIndex(Sub(true, NodeAt(p.q, x, y), z));
      RealIndex(Sub(false, NodeAt(p.q, x, y), z));
      RealIndex(Sub(true, NodeAt(p.q, z_vec[y], y), z_sw));
      RealIndex(Sub(false, NodeAt(p.q, z_vec[y], y), z_sw));
    }

    /** Where a node is in the order of the loops, and its digit. */
    ghost predicate Visits(st: Stage, group: nat, x: nat, y: nat, z: nat, z_vec: seq<nat>)
      requires Ready()
    {
      && st.round == z < p.w && st.group == group && x < p.q && y < p.t && z_vec == Digits(p.q, p.t, z) && NodeAt(p.q, x, y) !in st.seen
    }

    ghost predicate Joining(dag: E.ECDAG<F>, mode: Mode, joined: set<Sub>)
      requires Ready()
      reads dag
    {
      ModeFits(p, mode) && dag.Valid() && Traced(p, f, invert, mode, dag.nodes, joined)
    }

    lemma JoiningParts(dag: E.ECDAG<F>, mode: Mode, joined: set<Sub>)
      requires Ready()
      ensures Joining(dag, mode, joined) <==> ModeFits(p, mode) && dag.Valid() && Traced(p, f, invert, mode, dag.nodes, joined)
    {
      hide Field, Inverts, MapsRight, IdenticalRight, Traced;
    }

    function Flip(s: Sub): Sub {
      s.(coupled := !s.coupled)
    }

    /** Both members of a pair can be joined, s and its partner, from their values of the other sort. */
    ghost predicate PairDue(mode: Mode, joined: set<Sub>, s: Sub, kind: Origin)
      requires Ready() && ModeFits(p, mode)
    {
      && InCode(p, s) && InCode(p, Partner(p, s)) && First(p, s) && Partner(p, s) != s && Partner(p, Partner(p, s)) == s && !First(p, Partner(p, s))
      && KindOf(p, mode, s) == KindOf(p, mode, Partner(p, s)) == kind && s !in joined && Partner(p, s) !in joined
      && Partner(p, s).coupled == s.coupled && Available(p, mode, joined, [Flip(s), Flip(Partner(p, s))])
    }

    lemma PairRules(mode: Mode, joined: set<Sub>, s: Sub)
      requires Ready() && ModeFits(p, mode)
      ensures PairDue(mode, joined, s, FromPair) && !s.coupled ==>
                var r := Partner(p, s);
                Rule(p, f, invert, mode, s) == ([Flip(s), Flip(r)], Row(f, 2, 2)) && Rule(p, f, invert, mode, r) == ([Flip(s), Flip(r)], Row(f, 2, 3))
      ensures PairDue(mode, joined, s, ToCoupled) && s.coupled ==>
                var r, t := Partner(p, s), invert(Rows(f, 2, [2, 3]));
                Rule(p, f, invert, mode, s) == ([Flip(s), Flip(r)], RowAt(t, 0)) && Rule(p, f, invert, mode, r) == ([Flip(s), Flip(r)], RowAt(t, 1))
    {
      hide Field, Inverts, MapsRight, IdenticalRight, Partner, First, KindOf, RowAt, Row, Rows, Available;
    }

    lemma PairDueParts(mode: Mode, joined: set<Sub>, s: Sub, kind: Origin)
      requires Ready() && ModeFits(p, mode) && PairDue(mode, joined, s, kind) && kind != Nothing
      ensures InCode(p, s) && InCode(p, Partner(p, s)) && s !in joined && Partner(p, s) !in joined && Partner(p, s) != s
      ensures KindOf(p, mode, s) != Nothing && KindOf(p, mode, Partner(p, s)) != Nothing
      ensures Available(p, mode, joined, [Flip(s), Flip(Partner(p, s))])
    {
      hide Field, Inverts, MapsRight, IdenticalRight, Partner, First, KindOf, Available;
    }

    /** src/ec/Clay.cc:356-437 */
    method GetUncoupledFromCoupled(dag: E.ECDAG<F>, x: nat, y: nat, z: nat, z_vec: seq<nat>, ghost mode: Mode, ghost joined0: set<Sub>)
      returns (ghost joined: set<Sub>)
      requires Ready() && Joining(dag, mode, joined0) && x < p.q && y < p.t && z < p.w && z_vec == Digits(p.q, p.t, z) && z_vec[y] < x
      requires PairDue(mode, joined0, Sub(false, NodeAt(p.q, x, y), z), FromPair)
      modifies dag
      ensures Joining(dag, mode, joined)
      ensures var s := Sub(false, NodeAt(p.q, x, y), z); InCode(p, s) && joined == joined0 + {s, Partner(p, s)}
    {
      hide *;
      Fits0();
      JoiningParts(dag, mode, joined0);
      var pft_encode_matrix := GenerateMatrix(f, 4, 2);
      var node_xy, node_sw := NodeAt(p.q, x, y), NodeAt(p.q, z_vec[y], y);
      var step := PowInt(p.q, p.t - 1 - y);
      var z_sw := z + (x - z_vec[y]) * step;
      PairIndex(x, y, z, z_vec, z_sw);
      var idx0, idx1 := node_xy * p.w + z, node_sw * p.w + z_sw;
      var idx2, idx3 := idx0 + (p.n + p.nu) * p.w, idx1 + (p.n + p.nu) * p.w;
      var realdata := [RealFromShort(idx0), RealFromShort(idx1)];
      ghost var s, r := Sub(false, node_xy, z), Sub(false, node_sw, z_sw);
      ghost var cs := [Sub(true, node_xy, z), Sub(true, node_sw, z_sw)];
      FlipIs(s);
      FlipIs(r);
      IdsTwo(cs[0], cs[1]);
      PairDueParts(mode, joined0, s, FromPair);
      PairRules(mode, joined0, s);
      joined := JoinSub(dag, RealFromShort(idx2), realdata, pft_encode_matrix[2], mode, joined0, s, cs);
      StillAvailable(mode, joined0, joined, cs);
      joined := JoinSub(dag, RealFromShort(idx3), realdata, pft_encode_matrix[3], mode, joined, r, cs);
      assert joined == joined0 + {s, r};
      JoiningParts(dag, mode, joined);
    }

    lemma FlipIs(s: Sub)
      ensures Flip(s) == Sub(!s.coupled, s.node, s.z)
    {}

    lemma Visiting(st: Stage, group: nat, x: nat, y: nat, z: nat, z_vec: seq<nat>)
      requires Ready() && Visits(st, group, x, y, z, z_vec)
      ensures st.round == z < p.w && st.group == group && x < p.q && y < p.t && z_vec == Digits(p.q, p.t, z) && |z_vec| == p.t
      ensures NodeAt(p.q, x, y) !in st.seen
    {}

    lemma BuildingParts(dag: E.ECDAG<F>, mode: Mode, st: Stage, joined: set<Sub>)
      requires Ready() && Building(dag, mode, st, joined)
      ensures ModeFits(p, mode) && dag.Valid() && Traced(p, f, invert, mode, dag.nodes, joined) && Stands(p, mode, st, joined)
    {}

    lemma BuildingWhole(dag: E.ECDAG<F>, mode: Mode, st: Stage, joined: set<Sub>)
      requires Ready() && ModeFits(p, mode) && dag.Valid() && Traced(p, f, invert, mode, dag.nodes, joined) && Stands(p, mode, st, joined)
      ensures Building(dag, mode, st, joined)
    {}

    lemma StillAvailable(mode: Mode, joined: set<Sub>, joined': set<Sub>, cs: seq<Sub>)
      requires Ready() && ModeFits(p, mode) && Available(p, mode, joined, cs) && joined <= joined'
      ensures Available(p, mode, joined', cs)
    {}

    lemma StandsInCode(mode: Mode, st: Stage, joined: set<Sub>)
      requires Ready() && ModeFits(p, mode) && Stands(p, mode, st, joined)
      ensures forall s | s in joined :: InCode(p, s)
    {}

    // -------------------------------------------------------------------------------------------
    // The other pair functions

    /** One Join over a pair, in a repair: s = U(x, y, z) from the two coupled values. */
    lemma RepairPairStep(mode: Mode, st: Stage, joined0: set<Sub>, x: nat, y: nat, z: nat, z_vec: seq<nat>, z_sw: nat)
      requires Ready() && ModeFits(p, mode) && mode.Repairing? && Stands(p, mode, st, joined0) && Visits(st, 0, x, y, z, z_vec)
      requires y != Erased(p, mode) && z_vec[y] != x && Active(p, mode, z) && z_sw == z + (x - z_vec[y]) * Pow(p.q, p.t - 1 - y)
      ensures var s, c0, c1 := Sub(false, NodeAt(p.q, x, y), z), Sub(true, NodeAt(p.q, x, y), z), Sub(true, NodeAt(p.q, z_vec[y], y), z_sw);
              var cs := if z_vec[y] < x then [c0, c1] else [c1, c0];
              && InCode(p, s) && s !in joined0 && KindOf(p, mode, s) == FromPair && Available(p, mode, joined0, cs)
              && Rule(p, f, invert, mode, s) == (cs, Row(f, 2, if z_vec[y] < x then 2 else 3))
              && Ids(p, cs) == [Id(p, cs[0]), Id(p, cs[1])]
              && Stands(p, mode, st.(seen := st.seen + {NodeAt(p.q, x, y)}), joined0 + {s})
    {
      hide Field, Inverts, MapsRight, IdenticalRight, Digits, Id, Stands, Due;
      PairIndex(x, y, z, z_vec, z_sw);
      var s := Sub(false, NodeAt(p.q, x, y), z);
      PairAvailable(p, mode, joined0, s);
      forall u | InCode(p, u) ensures Due(p, mode, st, s.node, u) <==> u == s {
        DuePairRepair(p, mode, st, s.node, u);
      }
      DueIsNew(p, mode, st, joined0, s.node, s);
      StandsInCode(mode, st, joined0);
      NodeDone(p, mode, st, joined0, joined0 + {s}, s.node);
    }

    /** src/ec/Clay.cc:439-505 */
    method GetUncoupled2FromCoupled(dag: E.ECDAG<F>, x: nat, y: nat, z: nat, z_vec: seq<nat>, ghost mode: Mode, ghost st: Stage, ghost joined0: set<Sub>)
      returns (ghost joined: set<Sub>)
      requires Ready() && ModeFits(p, mode) && mode.Repairing? && Building(dag, mode, st, joined0) && Visits(st, 0, x, y, z, z_vec)
      requires y != Erased(p, mode) && z_vec[y] < x && Active(p, mode, z)
      modifies dag
      ensures Building(dag, mode, st.(seen := st.seen + {NodeAt(p.q, x, y)}), joined)
    {
      hide *;
      Fits0();
      Visiting(st, 0, x, y, z, z_vec);
      BuildingParts(dag, mode, st, joined0);
      var pft_encode_matrix := GenerateMatrix(f, 4, 2);
      var node_xy, node_sw := NodeAt(p.q, x, y), NodeAt(p.q, z_vec[y], y);
      var step := PowInt(p.q, p.t - 1 - y);
      var z_sw := z + (x - z_vec[y]) * step;
      PairIndex(x, y, z, z_vec, z_sw);
      var idx0, idx1 := node_xy * p.w + z, node_sw * p.w + z_sw;
      var idx2 := idx0 + (p.n + p.nu) * p.w;
      var realdata := [RealFromShort(idx0), RealFromShort(idx1)];
      ghost var s, cs := Sub(false, node_xy, z), [Sub(true, node_xy, z), Sub(true, node_sw, z_sw)];
      RepairPairStep(mode, st, joined0, x, y, z, z_vec, z_sw);
      joined := JoinSub(dag, RealFromShort(idx2), realdata, pft_encode_matrix[2], mode, joined0, s, cs);
      BuildingWhole(dag, mode, st.(seen := st.seen + {node_xy}), joined);
    }

    /** src/ec/Clay.cc:507-571 */
    method GetUncoupled3FromCoupled(dag: E.ECDAG<F>, x: nat, y: nat, z: nat, z_vec: seq<nat>, ghost mode: Mode, ghost st: Stage, ghost joined0: set<Sub>)
      returns (ghost joined: set<Sub>)
      requires Ready() && ModeFits(p, mode) && mode.Repairing? && Building(dag, mode, st, joined0) && Visits(st, 0, x, y, z, z_vec)
      requires y != Erased(p, mode) && z_vec[y] > x && Active(p, mode, z)
      modifies dag
      ensures Building(dag, mode, st.(seen := st.seen + {NodeAt(p.q, x, y)}), joined)
    {
      hide *;
      Fits0();
      Visiting(st, 0, x, y, z, z_vec);
      BuildingParts(dag, mode, st, joined0);
      var pft_encode_matrix := GenerateMatrix(f, 4, 2);
      var node_xy, node_sw := NodeAt(p.q, x, y), NodeAt(p.q, z_vec[y], y);
      var step := PowInt(p.q, p.t - 1 - y);
      var z_sw := z + (x - z_vec[y]) * step;
      PairIndex(x, y, z, z_vec, z_sw);
      var idx1, idx0 := node_xy * p.w + z, node_sw * p.w + z_sw;
      var idx3 := idx1 + (p.n + p.nu) * p.w;
      var realdata := [RealFromShort(idx0), RealFromShort(idx1)];
      ghost var s, cs := Sub(false, node_xy, z), [Sub(true, node_sw, z_sw), Sub(true, node_xy, z)];
      RepairPairStep(mode, st, joined0, x, y, z, z_vec, z_sw);
      joined := JoinSub(dag, RealFromShort(idx3), realdata, pft_encode_matrix[3], mode, joined0, s, cs);
      BuildingWhole(dag, mode, st.(seen := st.seen + {node_xy}), joined);
    }

    lemma SelectTwo(m: seq<seq<F>>, r: nat, s: nat)
      requires |m| == 4 && (forall i | 0 <= i < 4 :: m[i] == Row(f, 2, i)) && r < 4 && s < 4
      ensures [m[r], m[s]] == Rows(f, 2, [r, s])
    {
      hide Row;
    }

    /** src/ec/Clay.cc:821-915 */
    method GetCoupledFromUncoupled(dag: E.ECDAG<F>, x: nat, y: nat, z: nat, z_vec: seq<nat>, ghost mode: Mode, ghost joined0: set<Sub>)
      returns (ghost joined: set<Sub>)
      requires Ready() && Joining(dag, mode, joined0) && x < p.q && y < p.t && z < p.w && z_vec == Digits(p.q, p.t, z) && z_vec[y] < x
      requires PairDue(mode, joined0, Sub(true, NodeAt(p.q, x, y), z), ToCoupled)
      modifies dag
      ensures Joining(dag, mode, joined)
      ensures var s := Sub(true, NodeAt(p.q, x, y), z); InCode(p, s) && joined == joined0 + {s, Partner(p, s)}
    {
      hide *;
      Fits0();
      JoiningParts(dag, mode, joined0);
      var pft_encode_matrix := GenerateMatrix(f, 4, 2);
      var node_xy, node_sw := NodeAt(p.q, x, y), NodeAt(p.q, z_vec[y], y);
      var step := PowInt(p.q, p.t - 1 - y);
      var z_sw := z + (x - z_vec[y]) * step;
      PairIndex(x, y, z, z_vec, z_sw);
      var idx0, idx1 := node_xy * p.w + z, node_sw * p.w + z_sw;
      var idx2, idx3 := idx0 + (p.n + p.nu) * p.w, idx1 + (p.n + p.nu) * p.w;
      SelectTwo(pft_encode_matrix, 2, 3);
      var invert_matrix := invert([pft_encode_matrix[2], pft_encode_matrix[3]]);
      var realdata := [RealFromShort(idx2), RealFromShort(idx3)];
      ghost var s, r := Sub(true, node_xy, z), Sub(true, node_sw, z_sw);
      ghost var cs := [Sub(false, node_xy, z), Sub(false, node_sw, z_sw)];
      FlipIs(s);
      FlipIs(r);
      IdsTwo(cs[0], cs[1]);
      PairDueParts(mode, joined0, s, ToCoupled);
      PairRules(mode, joined0, s);
      joined := JoinSub(dag, RealFromShort(idx0), realdata, RowAt(invert_matrix, 0), mode, joined0, s, cs);
      StillAvailable(mode, joined0, joined, cs);
      joined := JoinSub(dag, RealFromShort(idx1), realdata, RowAt(invert_matrix, 1), mode, joined, r, cs);
      assert joined == joined0 + {s, r};
      JoiningParts(dag, mode, joined);
    }

    /** One value of a pair can be joined from two others. */
    ghost predicate OneDue(mode: Mode, joined: set<Sub>, s: Sub, kind: Origin)
      requires Ready() && ModeFits(p, mode)
    {
      && InCode(p, s) && KindOf(p, mode, s) == kind && s !in joined && InCode(p, Partner(p, s))
      && if kind == FromHalf then !s.coupled && Available(p, mode, joined, [Flip(s), Partner(p, s)])
         else kind == FromTwin && s.coupled && Available(p, mode, joined, [Partner(p, s), Flip(s)])
    }

    ghost function HalfCoefs(s: Sub): seq<F>
      requires Ready() && InCode(p, s)
    {
      if First(p, s) then PairCoefs(f, invert, 0, 3, 2) else PairCoefs(f, invert, 1, 2, 3)
    }

    ghost function TwinCoefs(s: Sub): seq<F>
      requires Ready() && InCode(p, s)
    {
      if First(p, s) then PairCoefs(f, invert, 1, 2, 0) else PairCoefs(f, invert, 0, 3, 1)
    }

    lemma CoefsAre(s: Sub)
      requires Ready() && InCode(p, s)
      ensures HalfCoefs(s) == if First(p, s) then PairCoefs(f, invert, 0, 3, 2) else PairCoefs(f, invert, 1, 2, 3)
      ensures TwinCoefs(s) == if First(p, s) then PairCoefs(f, invert, 1, 2, 0) else PairCoefs(f, invert, 0, 3, 1)
    {
      hide Field, Inverts, MapsRight, IdenticalRight, PairCoefs;
    }

    lemma OneDueParts(mode: Mode, joined: set<Sub>, s: Sub, kind: Origin)
      requires Ready() && ModeFits(p, mode) && OneDue(mode, joined, s, kind)
      ensures InCode(p, s) && s !in joined && InCode(p, Partner(p, s)) && KindOf(p, mode, s) != Nothing
      ensures kind == FromHalf ==> Available(p, mode, joined, [Flip(s), Partner(p, s)])
      ensures kind == FromHalf ==> Rule(p, f, invert, mode, s) == ([Flip(s), Partner(p, s)], HalfCoefs(s))
      ensures kind == FromTwin ==> Available(p, mode, joined, [Partner(p, s), Flip(s)])
      ensures kind == FromTwin ==> Rule(p, f, invert, mode, s) == ([Partner(p, s), Flip(s)], TwinCoefs(s))
    {
      PartnerFlag(s);
      hide Field, Inverts, MapsRight, IdenticalRight, Partner, First, KindOf, Available, PairCoefs;
    }

    lemma PartnerFlag(s: Sub)
      requires Ready() && InCode(p, s)
      ensures InCode(p, Partner(p, s)) && Partner(p, s).coupled == s.coupled
    {
      hide Field, Inverts, MapsRight, IdenticalRight, Partner;
      PartnerIn(p, s);
    }

    /** The product with the inverse of two selected rows. */
    method SelectedCoefs(pft_encode_matrix: seq<seq<F>>, r: nat, s: nat, target: nat) returns (coef: seq<F>)
      requires |pft_encode_matrix| == 4 && (forall i | 0 <= i < 4 :: pft_encode_matrix[i] == Row(f, 2, i)) && r < 4 && s < 4 && target < 4
      ensures coef == PairCoefs(f, invert, r, s, target)
    {
      hide *;
      SelectTwo(pft_encode_matrix, r, s);
      var invert_matrix := invert([pft_encode_matrix[r], pft_encode_matrix[s]]);
      coef := Multiply(f, pft_encode_matrix[target], invert_matrix, 2);
      PairCoefsAre(r, s, target);
    }

    /** src/ec/Clay.cc:739-819 */
    method GetUncoupled2FromCoupled03(dag: E.ECDAG<F>, x: nat, y: nat, z: nat, z_vec: seq<nat>, ghost mode: Mode, ghost joined0: set<Sub>)
      returns (ghost joined: set<Sub>)
      requires Ready() && Joining(dag, mode, joined0) && x < p.q && y < p.t && z < p.w && z_vec == Digits(p.q, p.t, z) && z_vec[y] < x
      requires OneDue(mode, joined0, Sub(false, NodeAt(p.q, x, y), z), FromHalf)
      modifies dag
      ensures Joining(dag, mode, joined) && joined == joined0 + {Sub(false, NodeAt(p.q, x, y), z)}
    {
      hide *;
      Fits0();
      JoiningParts(dag, mode, joined0);
      var pft_encode_matrix := GenerateMatrix(f, 4, 2);
      var node_xy, node_sw := NodeAt(p.q, x, y), NodeAt(p.q, z_vec[y], y);
      var step := PowInt(p.q, p.t - 1 - y);
      var z_sw := z + (x - z_vec[y]) * step;
      PairIndex(x, y, z, z_vec, z_sw);
      var idx0, idx1 := node_xy * p.w + z, node_sw * p.w + z_sw;
      var idx2, idx3 := idx0 + (p.n + p.nu) * p.w, idx1 + (p.n + p.nu) * p.w;
      var coef := SelectedCoefs(pft_encode_matrix, 0, 3, 2);
      var realdata := [RealFromShort(idx0), RealFromShort(idx3)];
      ghost var s, r := Sub(false, node_xy, z), Sub(false, node_sw, z_sw);
      FlipIs(s);
      FirstIs(s, x, y, z_vec);
      IdsTwo(Flip(s), r);
      CoefsAre(s);
      OneDueParts(mode, joined0, s, FromHalf);
      joined := JoinSub(dag, RealFromShort(idx2), realdata, coef, mode, joined0, s, [Flip(s), r]);
      JoiningParts(dag, mode, joined);
    }

    /** src/ec/Clay.cc:574-654 */
    method GetUncoupled3FromCoupled02(dag: E.ECDAG<F>, x: nat, y: nat, z: nat, z_vec: seq<nat>, ghost mode: Mode, ghost joined0: set<Sub>)
      returns (ghost joined: set<Sub>)
      requires Ready() && Joining(dag, mode, joined0) && x < p.q && y < p.t && z < p.w && z_vec == Digits(p.q, p.t, z) && z_vec[y] > x
      requires OneDue(mode, joined0, Sub(false, NodeAt(p.q, x, y), z), FromHalf)
      modifies dag
      ensures Joining(dag, mode, joined) && joined == joined0 + {Sub(false, NodeAt(p.q, x, y), z)}
    {
      hide *;
      Fits0();
      JoiningParts(dag, mode, joined0);
      var pft_encode_matrix := GenerateMatrix(f, 4, 2);
      var node_xy, node_sw := NodeAt(p.q, x, y), NodeAt(p.q, z_vec[y], y);
      var step := PowInt(p.q, p.t - 1 - y);
      var z_sw := z + (x - z_vec[y]) * step;
      PairIndex(x, y, z, z_vec, z_sw);
      var idx1, idx0 := node_xy * p.w + z, node_sw * p.w + z_sw;
      var idx2, idx3 := idx0 + (p.n + p.nu) * p.w, idx1 + (p.n + p.nu) * p.w;
      var coef := SelectedCoefs(pft_encode_matrix, 1, 2, 3);
      var realdata := [RealFromShort(idx1), RealFromShort(idx2)];
      ghost var s, r := Sub(false, node_xy, z), Sub(false, node_sw, z_sw);
      FlipIs(s);
      FirstIs(s, x, y, z_vec);
      IdsTwo(Flip(s), r);
      CoefsAre(s);
      OneDueParts(mode, joined0, s, FromHalf);
      joined := JoinSub(dag, RealFromShort(idx3), realdata, coef, mode, joined0, s, [Flip(s), r]);
      JoiningParts(dag, mode, joined);
    }

    /** src/ec/Clay.cc:1103-1222 */
    method GetCoupled0FromPair12(dag: E.ECDAG<F>, x: nat, y: nat, z: nat, z_vec: seq<nat>, ghost mode: Mode, ghost joined0: set<Sub>)
      returns (ghost joined: set<Sub>)
      requires Ready() && Joining(dag, mode, joined0) && x < p.q && y < p.t && z < p.w && z_vec == Digits(p.q, p.t, z) && z_vec[y] < x
      requires OneDue(mode, joined0, Sub(true, NodeAt(p.q, x, y), z), FromTwin)
      modifies dag
      ensures Joining(dag, mode, joined) && joined == joined0 + {Sub(true, NodeAt(p.q, x, y), z)}
    {
      hide *;
      Fits0();
      JoiningParts(dag, mode, joined0);
      var pft_encode_matrix := GenerateMatrix(f, 4, 2);
      var node_xy, node_sw := NodeAt(p.q, x, y), NodeAt(p.q, z_vec[y], y);
      var step := PowInt(p.q, p.t - 1 - y);
      var z_sw := z + (x - z_vec[y]) * step;
      PairIndex(x, y, z, z_vec, z_sw);
      var idx0, idx1 := node_xy * p.w + z, node_sw * p.w + z_sw;
      var idx2 := idx0 + (p.n + p.nu) * p.w;
      var coef := SelectedCoefs(pft_encode_matrix, 1, 2, 0);
      var realdata := [RealFromShort(idx1), RealFromShort(idx2)];
      ghost var s, r := Sub(true, node_xy, z), Sub(true, node_sw, z_sw);
      FlipIs(s);
      FirstIs(s, x, y, z_vec);
      IdsTwo(r, Flip(s));
      CoefsAre(s);
      OneDueParts(mode, joined0, s, FromTwin);
      joined := JoinSub(dag, RealFromShort(idx0), realdata, coef, mode, joined0, s, [r, Flip(s)]);
      JoiningParts(dag, mode, joined);
    }

    /** src/ec/Clay.cc:1224-1340 */
    method GetCoupled1FromPair03(dag: E.ECDAG<F>, x: nat, y: nat, z: nat, z_vec: seq<nat>, ghost mode: Mode, ghost joined0: set<Sub>)
      returns (ghost joined: set<Sub>)
      requires Ready() && Joining(dag, mode, joined0) && x < p.q && y < p.t && z < p.w && z_vec == Digits(p.q, p.t, z) && z_vec[y] > x
      requires OneDue(mode, joined0, Sub(true, NodeAt(p.q, x, y), z), FromTwin)
      modifies dag
      ensures Joining(dag, mode, joined) && joined == joined0 + {Sub(true, NodeAt(p.q, x, y), z)}
    {
      hide *;
      Fits0();
      JoiningParts(dag, mode, joined0);
      var pft_encode_matrix := GenerateMatrix(f, 4, 2);
      var node_xy, node_sw := NodeAt(p.q, x, y), NodeAt(p.q, z_vec[y], y);
      var step := PowInt(p.q, p.t - 1 - y);
      var z_sw := z + (x - z_vec[y]) * step;
      PairIndex(x, y, z, z_vec, z_sw);
      var idx1, idx0 := node_xy * p.w + z, node_sw * p.w + z_sw;
      var idx3 := idx1 + (p.n + p.nu) * p.w;
      var coef := SelectedCoefs(pft_encode_matrix, 0, 3, 1);
      var realdata := [RealFromShort(idx0), RealFromShort(idx3)];
      ghost var s, r := Sub(true, node_xy, z), Sub(true, node_sw, z_sw);
      FlipIs(s);
      FirstIs(s, x, y, z_vec);
      IdsTwo(r, Flip(s));
      CoefsAre(s);
      OneDueParts(mode, joined0, s, FromTwin);
      joined := JoinSub(dag, RealFromShort(idx1), realdata, coef, mode, joined0, s, [r, Flip(s)]);
      JoiningParts(dag, mode, joined);
    }

    lemma HelperStep(mode: Mode, st: Stage, joined0: set<Sub>, x: nat, y: nat, z: nat, z_vec: seq<nat>, z_sw: nat)
      requires Ready() && ModeFits(p, mode) && mode.Repairing? && Stands(p, mode, st, joined0) && Visits(st, 2, x, y, z, z_vec)
      requires y == Erased(p, mode) && Active(p, mode, z) && z_vec[y] != x && z_sw == z + (x - z_vec[y]) * Pow(p.q, p.t - 1 - y)
      ensures var h, u, s := Sub(true, NodeAt(p.q, x, y), z), Sub(false, NodeAt(p.q, x, y), z), Sub(true, NodeAt(p.q, z_vec[y], y), z_sw);
              && InCode(p, s) && s !in joined0 && KindOf(p, mode, s) == FromHelper && Available(p, mode, joined0, [h, u])
              && Rule(p, f, invert, mode, s) == ([h, u], if z_vec[y] < x then PairCoefs(f, invert, 0, 2, 1) else PairCoefs(f, invert, 1, 3, 0))
              && Ids(p, [h, u]) == [Id(p, h), Id(p, u)]
              && Stands(p, mode, st.(seen := st.seen + {NodeAt(p.q, x, y)}), joined0 + {s})
    {
      hide *;
      Fits0();
      Visiting(st, 2, x, y, z, z_vec);
      PairIndex(x, y, z, z_vec, z_sw);
      ErasedIs(mode);
      var h, s := Sub(true, NodeAt(p.q, x, y), z), Sub(true, NodeAt(p.q, z_vec[y], y), z_sw);
      PartnerIn(p, h);
      HelperNotLost(mode, x, y, z, z_vec);
      HelperAvailable(p, mode, st, joined0, h.node);
      HelperDue(mode, st, joined0, h, s);
      HelperRule(mode, h, s);
      FirstIs(h, x, y, z_vec);
      IdsTwo(h, Sub(false, NodeAt(p.q, x, y), z));
    }

    lemma ErasedIs(mode: Mode)
      requires Ready() && ModeFits(p, mode) && mode.Repairing?
      ensures Erased(p, mode) == Col(p, mode.lost)
    {}

    lemma IdsTwo(a: Sub, b: Sub)
      ensures Ids(p, [a, b]) == [Id(p, a), Id(p, b)]
    {}

    lemma FirstIs(h: Sub, x: nat, y: nat, z_vec: seq<nat>)
      requires Ready() && InCode(p, h) && y < p.t && Col(p, h.node) == y && h.node % p.q == x && z_vec == Digits(p.q, p.t, h.z)
      ensures First(p, h) <==> z_vec[y] < x
    {
      hide Field, Inverts, MapsRight, IdenticalRight, Digits;
    }

    lemma HelperNotLost(mode: Mode, x: nat, y: nat, z: nat, z_vec: seq<nat>)
      requires Ready() && ModeFits(p, mode) && mode.Repairing? && x < p.q && y == Erased(p, mode) && Active(p, mode, z)
      requires z_vec == Digits(p.q, p.t, z) && z_vec[y] != x && NodeAt(p.q, x, y) % p.q == x
      ensures NodeAt(p.q, x, y) != mode.lost
    {
      hide Field, Inverts, MapsRight, IdenticalRight, Digits;
      NodeFits(p, mode.lost);
    }

    /** What a helper's pair is computed from. */
    lemma HelperRule(mode: Mode, h: Sub, s: Sub)
      requires Ready() && ModeFits(p, mode) && mode.Repairing? && InCode(p, h) && h.coupled && InCode(p, s) && s == Partner(p, h)
      requires Col(p, h.node) == Erased(p, mode) && h.node != mode.lost && Active(p, mode, h.z)
      ensures KindOf(p, mode, s) == FromHelper
      ensures Rule(p, f, invert, mode, s) == ([h, Sub(false, h.node, h.z)], if First(p, h) then PairCoefs(f, invert, 0, 2, 1) else PairCoefs(f, invert, 1, 3, 0))
    {
      hide Field, Inverts, MapsRight, IdenticalRight, Digit, PairCoefs, Partner, First, Paired;
      NodeFits(p, mode.lost);
      PartnerBack(p, h);
      LostOf(p, mode, h);
    }

    lemma HelperDue(mode: Mode, st: Stage, joined0: set<Sub>, h: Sub, s: Sub)
      requires Ready() && ModeFits(p, mode) && mode.Repairing? && Stands(p, mode, st, joined0) && st.group == 2 && st.round < p.w && h.node !in st.seen
      requires InCode(p, h) && h.coupled && h.z == st.round && InCode(p, s) && s == Partner(p, h)
      requires Col(p, h.node) == Erased(p, mode) && h.node != mode.lost && Active(p, mode, h.z)
      ensures s !in joined0 && Stands(p, mode, st.(seen := st.seen + {h.node}), joined0 + {s})
    {
      hide Field, Inverts, MapsRight, IdenticalRight, Stands, Due, Partner, Active, Erased;
      forall v | InCode(p, v) ensures Due(p, mode, st, h.node, v) <==> v == s {
        DueHelper(p, mode, st, h.node, v);
      }
      DueIsNew(p, mode, st, joined0, h.node, s);
      StandsInCode(mode, st, joined0);
      NodeDone(p, mode, st, joined0, joined0 + {s}, h.node);
    }

    /** src/ec/Clay.cc:1022-1101 */
    method GetCoupled1FromPair02(dag: E.ECDAG<F>, x: nat, y: nat, z: nat, z_vec: seq<nat>, ghost mode: Mode, ghost st: Stage, ghost joined0: set<Sub>)
      returns (ghost joined: set<Sub>)
      requires Ready() && ModeFits(p, mode) && mode.Repairing? && Building(dag, mode, st, joined0) && Visits(st, 2, x, y, z, z_vec)
      requires y == Erased(p, mode) && Active(p, mode, z) && z_vec[y] < x
      modifies dag
      ensures Building(dag, mode, st.(seen := st.seen + {NodeAt(p.q, x, y)}), joined)
    {
      hide *;
      Fits0();
      Visiting(st, 2, x, y, z, z_vec);
      BuildingParts(dag, mode, st, joined0);
      var pft_encode_matrix := GenerateMatrix(f, 4, 2);
      var node_xy, node_sw := NodeAt(p.q, x, y), NodeAt(p.q, z_vec[y], y);
      var step := PowInt(p.q, p.t - 1 - y);
      var z_sw := z + (x - z_vec[y]) * step;
      PairIndex(x, y, z, z_vec, z_sw);
      var idx0, idx1 := node_xy * p.w + z, node_sw * p.w + z_sw;
      var idx2 := idx0 + (p.n + p.nu) * p.w;
      SelectTwo(pft_encode_matrix, 0, 2);
      var invert_matrix := invert([pft_encode_matrix[0], pft_encode_matrix[2]]);
      var coef := Multiply(f, pft_encode_matrix[1], invert_matrix, 2);
      PairCoefsAre(0, 2, 1);
      var realdata := [RealFromShort(idx0), RealFromShort(idx2)];
      HelperStep(mode, st, joined0, x, y, z, z_vec, z_sw);
      joined := JoinSub(dag, RealFromShort(idx1), realdata, coef, mode, joined0,
        Sub(true, node_sw, z_sw), [Sub(true, node_xy, z), Sub(false, node_xy, z)]);
      BuildingWhole(dag, mode, st.(seen := st.seen + {node_xy}), joined);
    }

    lemma PairCoefsAre(r: nat, s: nat, target: nat)
      ensures PairCoefs(f, invert, r, s, target) == Multiply(f, Row(f, 2, target), invert(Rows(f, 2, [r, s])), 2)
    {}

    /** src/ec/Clay.cc:1342-1415 */
    method GetCoupled0FromPair13(dag: E.ECDAG<F>, x: nat, y: nat, z: nat, z_vec: seq<nat>, ghost mode: Mode, ghost st: Stage, ghost joined0: set<Sub>)
      returns (ghost joined: set<Sub>)
      requires Ready() && ModeFits(p, mode) && mode.Repairing? && Building(dag, mode, st, joined0) && Visits(st, 2, x, y, z, z_vec)
      requires y == Erased(p, mode) && Active(p, mode, z) && z_vec[y] > x
      modifies dag
      ensures Building(dag, mode, st.(seen := st.seen + {NodeAt(p.q, x, y)}), joined)
    {
      hide *;
      Fits0();
      Visiting(st, 2, x, y, z, z_vec);
      BuildingParts(dag, mode, st, joined0);
      var pft_encode_matrix := GenerateMatrix(f, 4, 2);
      var node_xy, node_sw := NodeAt(p.q, x, y), NodeAt(p.q, z_vec[y], y);
      var step := PowInt(p.q, p.t - 1 - y);
      var z_sw := z + (x - z_vec[y]) * step;
      PairIndex(x, y, z, z_vec, z_sw);
      var idx0, idx1 := node_sw * p.w + z_sw, node_xy * p.w + z;
      var idx3 := idx1 + (p.n + p.nu) * p.w;
      SelectTwo(pft_encode_matrix, 1, 3);
      var invert_matrix := invert([pft_encode_matrix[1], pft_encode_matrix[3]]);
      var coef := Multiply(f, pft_encode_matrix[0], invert_matrix, 2);
      PairCoefsAre(1, 3, 0);
      var realdata := [RealFromShort(idx1), RealFromShort(idx3)];
      HelperStep(mode, st, joined0, x, y, z, z_vec, z_sw);
      joined := JoinSub(dag, RealFromShort(idx0), realdata, coef, mode, joined0,
        Sub(true, node_sw, z_sw), [Sub(true, node_xy, z), Sub(false, node_xy, z)]);
      BuildingWhole(dag, mode, st.(seen := st.seen + {node_xy}), joined);
    }

    // -------------------------------------------------------------------------------------------
    // The outer code

    /** Row node of the outer code can be joined in plane z. */
    ghost predicate CodeDue(mode: Mode, joined: set<Sub>, lines: seq<nat>, node: nat, z: nat)
      requires Ready() && ModeFits(p, mode) && z < p.w && node < p.Total() && forall i | 0 <= i < |lines| :: lines[i] < p.Total()
    {
      var s := Ua(p, node, z);
      && KindOf(p, mode, s) != Nothing && s !in joined
      && Rule(p, f, invert, mode, s) == (LineSubs(p, lines, z), LineCoefs(p, f, invert, lines, node))
    }

    ghost function CodesOf(nodes: seq<nat>, z: nat): set<Sub>
      requires Ready() && z < p.w && forall i | 0 <= i < |nodes| :: nodes[i] < p.Total()
    {
      set i | 0 <= i < |nodes| :: Ua(p, nodes[i], z)
    }

    lemma NoCodes(nodes: seq<nat>, z: nat)
      requires Ready() && z < p.w && forall i | 0 <= i < |nodes| :: nodes[i] < p.Total()
      ensures CodesOf(nodes[..0], z) == {} && nodes[..|nodes|] == nodes
    {
      hide Field, Inverts, MapsRight, IdenticalRight, Ua;
    }

    lemma CodesNext(nodes: seq<nat>, i: nat, z: nat)
      requires Ready() && z < p.w && (forall i | 0 <= i < |nodes| :: nodes[i] < p.Total()) && i < |nodes| && Distinct(nodes)
      ensures CodesOf(nodes[..i + 1], z) == CodesOf(nodes[..i], z) + {Ua(p, nodes[i], z)}
      ensures Ua(p, nodes[i], z) !in CodesOf(nodes[..i], z)
    {
      hide Field, Inverts, MapsRight, IdenticalRight, Ua;
      assert nodes[..i + 1] == nodes[..i] + [nodes[i]];
      assert nodes[..i + 1][i] == nodes[i];
    }

    /** The indices the outer code works on: aliased, then real (src/ec/Clay.cc:1465-1469, 1541-1545). */
    method SurvivorIds(ghost z: nat, ghost lines: seq<nat>, data0: seq<int>) returns (realdata: seq<int>)
      requires Ready() && z < p.w && |data0| == |lines| && forall i | 0 <= i < |lines| :: lines[i] < p.Total()
      requires forall i | 0 <= i < |data0| :: data0[i] == ShortId(p, Sub(false, lines[i], z))
      ensures realdata == Ids(p, LineSubs(p, lines, z))
    {
      hide Field, Inverts, MapsRight, IdenticalRight, Id, ShortId, Ua, RealFromShort, Unaliased;
      var data := data0;
      for i := 0 to |data|
        invariant |data| == |data0|
        invariant forall j | 0 <= j < i :: data[j] == ShortId(p, Ua(p, lines[j], z))
        invariant forall j | i <= j < |data| :: data[j] == data0[j]
      {
        AliasIndex(lines[i], z);
        data := data[i := Unaliased(data[i])];
      }
      realdata := [];
      for i := 0 to |data|
        invariant |realdata| == i && forall j | 0 <= j < i :: realdata[j] == Id(p, Ua(p, lines[j], z))
      {
        RealIndex(Ua(p, lines[i], z));
        realdata := realdata + [RealFromShort(data[i])];
      }
      assert realdata == Ids(p, LineSubs(p, lines, z));
    }

    /** src/ec/Clay.cc:1417-1560 */
    method DecodeUncoupled(dag: E.ECDAG<F>, erased_chunks: seq<nat>, z: nat, ghost mode: Mode, ghost joined0: set<Sub>)
      returns (ghost joined: set<Sub>)
      requires Ready() && Joining(dag, mode, joined0) && z < p.w && ErasedList(p, erased_chunks)
      requires Available(p, mode, joined0, LineSubs(p, Outside(SetOf(erased_chunks), p.Total()), z))
      requires forall i | 0 <= i < |erased_chunks| :: CodeDue(mode, joined0, Outside(SetOf(erased_chunks), p.Total()), erased_chunks[i], z)
      modifies dag
      ensures Joining(dag, mode, joined) && joined == joined0 + CodesOf(erased_chunks, z)
    {
      hide *;
      Fits0();
      var select_lines, invert_matrix, realdata := SelectedInverse(erased_chunks, z);
      var mds_encode_matrix := GenerateMatrix(f, p.k + p.nu + p.q, p.k + p.nu);
      RowsFewer(p);
      ErasedListParts(p, erased_chunks);
      joined := joined0;
      NoCodes(erased_chunks, z);
      for i := 0 to |erased_chunks|
        invariant Joining(dag, mode, joined) && joined == joined0 + CodesOf(erased_chunks[..i], z)
      {
        CodesNext(erased_chunks, i, z);
        JoiningParts(dag, mode, joined);
        CodeDueParts(mode, joined0, select_lines, erased_chunks[i], z);
        joined := DecodeOne(dag, erased_chunks[i], z, mds_encode_matrix, invert_matrix, realdata, select_lines, mode, joined0, joined);
      }
    }

    /** The inverse of the rows that are left, and the symbols it acts on (src/ec/Clay.cc:1434-1483). */
    method SelectedInverse(erased_chunks: seq<nat>, z: nat) returns (select_lines: seq<nat>, invert_matrix: seq<seq<F>>, realdata: seq<int>)
      requires Ready() && z < p.w && ErasedList(p, erased_chunks)
      ensures select_lines == Outside(SetOf(erased_chunks), p.Total()) && invert_matrix == invert(Rows(f, p.k + p.nu, select_lines))
      ensures (forall i | 0 <= i < |select_lines| :: select_lines[i] < p.Total()) && realdata == Ids(p, LineSubs(p, select_lines, z))
    {
      hide *;
      Fits0();
      RowsFewer(p);
      var data;
      select_lines, data := SelectLines(p, erased_chunks, z);
      realdata := SurvivorIds(z, select_lines, data);
      var mds_encode_matrix := GenerateMatrix(f, p.k + p.nu + p.q, p.k + p.nu);
      var select_matrix := seq(|select_lines|, i requires 0 <= i < |select_lines| => mds_encode_matrix[select_lines[i]]);
      SelectedRows(select_matrix, select_lines);
      invert_matrix := invert(select_matrix);
    }

    lemma FewerRows()
      requires Ready()
      ensures p.Total() == p.k + p.nu + p.q
    {
      hide Field, Inverts, MapsRight, IdenticalRight;
    }

    lemma SelectedRows(m: seq<seq<F>>, lines: seq<nat>)
      requires |m| == |lines| && forall i | 0 <= i < |m| :: m[i] == Row(f, p.k + p.nu, lines[i])
      ensures m == Rows(f, p.k + p.nu, lines)
    {
      hide Row;
    }

    method DecodeOne(dag: E.ECDAG<F>, cidx: nat, z: nat, matrix: seq<seq<F>>, invert_matrix: seq<seq<F>>, realdata: seq<int>,
                     ghost lines: seq<nat>, ghost mode: Mode, ghost joined0: set<Sub>, ghost joined1: set<Sub>)
      returns (ghost joined: set<Sub>)
      requires Ready() && Joining(dag, mode, joined1) && z < p.w && cidx < p.Total() && joined0 <= joined1
      requires (forall i | 0 <= i < |lines| :: lines[i] < p.Total()) && Available(p, mode, joined0, LineSubs(p, lines, z))
      requires CodeDue(mode, joined0, lines, cidx, z) && Ua(p, cidx, z) !in joined1
      requires |matrix| == p.Total() && forall r | 0 <= r < |matrix| :: matrix[r] == Row(f, p.k + p.nu, r)
      requires invert_matrix == invert(Rows(f, p.k + p.nu, lines)) && realdata == Ids(p, LineSubs(p, lines, z))
      modifies dag
      ensures Joining(dag, mode, joined) && joined == joined1 + {Ua(p, cidx, z)}
    {
      hide *;
      Fits0();
      JoiningParts(dag, mode, joined1);
      CodeDueParts(mode, joined0, lines, cidx, z);
      StillAvailable(mode, joined0, joined1, LineSubs(p, lines, z));
      var coef := Multiply(f, matrix[cidx], invert_matrix, p.k + p.nu);
      LineCoefsAre(lines, cidx);
      var targetidx := Unaliased(cidx * p.w + z + (p.n + p.nu) * p.w);
      AliasIndex(cidx, z);
      UncoupledIndex(cidx, z);
      RealIndex(Ua(p, cidx, z));
      joined := JoinSub(dag, RealFromShort(targetidx), realdata, coef, mode, joined1, Ua(p, cidx, z), LineSubs(p, lines, z));
      JoiningParts(dag, mode, joined);
    }

    lemma CodeDueParts(mode: Mode, joined: set<Sub>, lines: seq<nat>, node: nat, z: nat)
      requires Ready() && ModeFits(p, mode) && z < p.w && node < p.Total() && forall i | 0 <= i < |lines| :: lines[i] < p.Total()
      requires CodeDue(mode, joined, lines, node, z)
      ensures InCode(p, Ua(p, node, z)) && KindOf(p, mode, Ua(p, node, z)) != Nothing && Ua(p, node, z) !in joined
      ensures Rule(p, f, invert, mode, Ua(p, node, z)) == (LineSubs(p, lines, z), LineCoefs(p, f, invert, lines, node))
    {
      hide Field, Inverts, MapsRight, IdenticalRight, KindOf, Rule, LineSubs, LineCoefs;
    }

    lemma LineCoefsAre(lines: seq<nat>, i: nat)
      ensures LineCoefs(p, f, invert, lines, i) == Multiply(f, Row(f, p.k + p.nu, i), invert(Rows(f, p.k + p.nu, lines)), p.k + p.nu)
    {}

    lemma UncoupledIndex(node: nat, z: nat)
      ensures ShortId(p, Sub(false, node, z)) == node * p.w + z + (p.n + p.nu) * p.w
    {}

    lemma ColumnNode(y: nat, i: nat)
      requires Ready() && y < p.t && i < p.q
      ensures Column(p, y)[i] < p.Total() && Col(p, Column(p, y)[i]) == y
      ensures forall j | 0 <= j < i :: Column(p, y)[j] != Column(p, y)[i]
    {
      hide Field, Inverts, MapsRight, IdenticalRight;
      NodeAtFits(p, i, y);
    }

    lemma ColumnLength(y: nat)
      ensures |Column(p, y)| == p.q
    {}

    lemma NotInRange(s: seq<nat>, i: nat)
      requires i < |s| && forall j | 0 <= j < i :: s[j] != s[i]
      ensures s[i] !in Range(s, i)
    {}

    lemma AtFits(mode: Mode, s: Sub)
      requires Ready() && ModeFits(p, mode) && InCode(p, s)
      ensures At(p, mode, s) < p.Total()
    {
      hide Field, Inverts, MapsRight, IdenticalRight, Partner, First, Paired;
      PartnerIn(p, s);
    }

    ghost function Range(s: seq<nat>, n: nat): set<nat>
      requires n <= |s|
    {
      set i | 0 <= i < n :: s[i]
    }

    lemma SeenSoFar(s: seq<nat>, st: Stage)
      requires st.seen == {}
      ensures st.seen == Range(s, 0) && st.(seen := {}) == st
    {}

    lemma RangeNext(s: seq<nat>, i: nat)
      requires i < |s|
      ensures Range(s, i + 1) == Range(s, i) + {s[i]}
    {}

    lemma WholeRange(s: seq<nat>)
      ensures forall x: nat | x in s :: x in Range(s, |s|)
    {}

    // -------------------------------------------------------------------------------------------
    // Layered decoding

    /** Exactly what is due before a point of the layered decoding has been joined. */
    ghost predicate Layering(dag: E.ECDAG<F>, erased: set<nat>, now: Point, joined: set<Sub>)
      requires Ready()
      reads dag
    {
      Joining(dag, Layered(erased), joined) && JoinedBefore(p, erased, now, joined)
    }

    lemma LayeringIs(dag: E.ECDAG<F>, erased: set<nat>, now: Point, joined: set<Sub>)
      requires Ready()
      ensures Layering(dag, erased, now, joined) <==> Joining(dag, Layered(erased), joined) && JoinedBefore(p, erased, now, joined)
      ensures Joining(dag, Layered(erased), joined) ==> ModeFits(p, Layered(erased)) && ErasedFits(p, erased)
    {
      hide Field, Inverts, MapsRight, IdenticalRight, Traced, JoinedBefore;
    }

    /** What there is to do for a node of a plane in the first pass. */
    lemma NodeKind(erased_chunks: seq<nat>, x: nat, y: nat, z: nat, z_vec: seq<nat>)
      requires Ready() && x < p.q && y < p.t && z < p.w && z_vec == Digits(p.q, p.t, z)
      ensures var node, sw, u := NodeAt(p.q, x, y), NodeAt(p.q, z_vec[y], y), Sub(false, NodeAt(p.q, x, y), z);
              && InCode(p, u) && InCode(p, AsC(u)) && (First(p, u) <==> z_vec[y] < x) && (First(p, AsC(u)) <==> z_vec[y] < x)
              && LayerKind(p, SetOf(erased_chunks), u) == (if z_vec[y] == x then Nothing else if node in erased_chunks then FromCode
                                                           else if sw in erased_chunks then FromHalf else FromPair)
              && LayerKind(p, SetOf(erased_chunks), AsC(u)) == (if node !in erased_chunks then Nothing else if z_vec[y] == x then FromCode
                                                                else if sw in erased_chunks then ToCoupled else FromTwin)
              && node < p.Total() && Col(p, node) == y && node % p.q == x
    {
      hide Field, Inverts, MapsRight, IdenticalRight, Digits, SetOf, Partner;
      NodeAtFits(p, x, y);
      var u := Sub(false, NodeAt(p.q, x, y), z);
      PartnerPlace(p, u);
      PartnerPlace(p, AsC(u));
      SameFlags(p, u, true);
      NodeFits(p, Partner(p, u).node);
      InSetOf(erased_chunks, NodeAt(p.q, x, y));
      InSetOf(erased_chunks, NodeAt(p.q, z_vec[y], y));
    }

    ghost function FirstDue(erased: set<nat>, node: nat, z: nat): set<Sub>
      requires Ready() && node < p.Total() && z < p.w
    {
      var u := Sub(false, node, z);
      if LayerKind(p, erased, u) == FromPair && First(p, u) then {u, Partner(p, u)} else if LayerKind(p, erased, u) == FromHalf then {u} else {}
    }

    ghost function SecondDue(erased: set<nat>, node: nat, z: nat): set<Sub>
      requires Ready() && node < p.Total() && z < p.w
    {
      var c := Sub(true, node, z);
      if LayerKind(p, erased, c) == ToCoupled && First(p, c) then {c, Partner(p, c)} else if LayerKind(p, erased, c) == FromTwin then {c} else {}
    }

    /** A node of the first pass is done. */
    lemma FirstDone(erased: set<nat>, node: nat, z: nat, joined: set<Sub>)
      requires Ready() && ErasedFits(p, erased) && node < p.Total() && z < p.w && 0 < p.q
      requires JoinedBefore(p, erased, Point(Order(p, erased, z), 0, z, node % p.q, Col(p, node)), joined)
      ensures JoinedBefore(p, erased, Point(Order(p, erased, z), 0, z, node % p.q, Col(p, node) + 1), joined + FirstDue(erased, node, z))
    {
      hide Field, Inverts, MapsRight, IdenticalRight, JoinedBefore, Order, Partner, First, Paired, When, Col;
      var u := Sub(false, node, z);
      LayerOfPair(p, erased, u);
      forall s | IsComputed(p, erased, s)
        ensures s in FirstDue(erased, node, z) <==> (!Earlier(When(p, erased, s), Point(Order(p, erased, z), 0, z, node % p.q, Col(p, node)))
                                                     && Earlier(When(p, erased, s), Point(Order(p, erased, z), 0, z, node % p.q, Col(p, node) + 1)))
      {
        DueFirst(p, erased, node, z, s);
      }
      Joined(p, erased, Point(Order(p, erased, z), 0, z, node % p.q, Col(p, node)), Point(Order(p, erased, z), 0, z, node % p.q, Col(p, node) + 1),
        joined, FirstDue(erased, node, z));
    }

    lemma SecondDone(erased: set<nat>, node: nat, z: nat, joined: set<Sub>)
      requires Ready() && ErasedFits(p, erased) && node < p.Total() && z < p.w && JoinedBefore(p, erased, Point(Order(p, erased, z), 1, z, 0, node), joined)
      ensures JoinedBefore(p, erased, Point(Order(p, erased, z), 1, z, 0, node + 1), joined + SecondDue(erased, node, z))
    {
      hide Field, Inverts, MapsRight, IdenticalRight, JoinedBefore, Order, Partner, First, Paired, When;
      var c := Sub(true, node, z);
      LayerOfPair(p, erased, c);
      forall s | IsComputed(p, erased, s)
        ensures s in SecondDue(erased, node, z) <==> (!Earlier(When(p, erased, s), Point(Order(p, erased, z), 1, z, 0, node))
                                                      && Earlier(When(p, erased, s), Point(Order(p, erased, z), 1, z, 0, node + 1)))
      {
        DueSecond(p, erased, node, z, s);
      }
      Joined(p, erased, Point(Order(p, erased, z), 1, z, 0, node), Point(Order(p, erased, z), 1, z, 0, node + 1), joined, SecondDue(erased, node, z));
    }

    /** What is due at a point has not been joined before. */
    lemma NotYet(erased: set<nat>, now: Point, joined: set<Sub>, s: Sub)
      requires Ready() && JoinedBefore(p, erased, now, joined) && IsComputed(p, erased, s) && !Earlier(When(p, erased, s), now)
      ensures s !in joined
    {
      hide Field, Inverts, MapsRight, IdenticalRight, When, Earlier, IsComputed;
    }

    lemma FirstPairDue(erased: set<nat>, node: nat, z: nat, joined: set<Sub>)
      requires Ready() && ModeFits(p, Layered(erased)) && node < p.Total() && z < p.w && 0 < p.q
      requires JoinedBefore(p, erased, Point(Order(p, erased, z), 0, z, node % p.q, Col(p, node)), joined)
      requires LayerKind(p, erased, Sub(false, node, z)) == FromPair && First(p, Sub(false, node, z))
      ensures PairDue(Layered(erased), joined, Sub(false, node, z), FromPair)
    {
      hide Field, Inverts, MapsRight, IdenticalRight, JoinedBefore, Order, Partner, First, Paired, When, Col, Available;
      var u, now := Sub(false, node, z), Point(Order(p, erased, z), 0, z, node % p.q, Col(p, node));
      LayerOfPair(p, erased, u);
      LayerOfPair(p, erased, Partner(p, u));
      PairThere(p, erased, joined, u);
      DueFirst(p, erased, node, z, u);
      DueFirst(p, erased, node, z, Partner(p, u));
      NotYet(erased, now, joined, u);
      NotYet(erased, now, joined, Partner(p, u));
    }

    lemma HalfDue(erased: set<nat>, node: nat, z: nat, joined: set<Sub>)
      requires Ready() && ModeFits(p, Layered(erased)) && node < p.Total() && z < p.w && 0 < p.q
      requires JoinedBefore(p, erased, Point(Order(p, erased, z), 0, z, node % p.q, Col(p, node)), joined)
      requires LayerKind(p, erased, Sub(false, node, z)) == FromHalf
      ensures OneDue(Layered(erased), joined, Sub(false, node, z), FromHalf)
    {
      hide Field, Inverts, MapsRight, IdenticalRight, JoinedBefore, Order, Partner, First, Paired, When, Col, Available;
      var u, now := Sub(false, node, z), Point(Order(p, erased, z), 0, z, node % p.q, Col(p, node));
      HalfThere(p, erased, now, joined, u);
      DueFirst(p, erased, node, z, u);
      NotYet(erased, now, joined, u);
    }

    lemma SecondPairDue(erased: set<nat>, node: nat, z: nat, joined: set<Sub>)
      requires Ready() && ModeFits(p, Layered(erased)) && node < p.Total() && z < p.w && JoinedBefore(p, erased, Point(Order(p, erased, z), 1, z, 0, node), joined)
      requires LayerKind(p, erased, Sub(true, node, z)) == ToCoupled && First(p, Sub(true, node, z))
      ensures PairDue(Layered(erased), joined, Sub(true, node, z), ToCoupled)
    {
      hide Field, Inverts, MapsRight, IdenticalRight, JoinedBefore, Order, Partner, First, Paired, When, Col;
      var c, now := Sub(true, node, z), Point(Order(p, erased, z), 1, z, 0, node);
      LayerOfPair(p, erased, c);
      LayerOfPair(p, erased, Partner(p, c));
      CoupledThere(p, erased, now, joined, c);
      DueSecond(p, erased, node, z, c);
      DueSecond(p, erased, node, z, Partner(p, c));
      NotYet(erased, now, joined, c);
      NotYet(erased, now, joined, Partner(p, c));
      InCodeFlip(c);
      InCodeFlip(Partner(p, c));
    }

    lemma InCodeFlip(s: Sub)
      ensures InCode(p, s) ==> InCode(p, Flip(s))
    {}

    lemma TwinDue(erased: set<nat>, node: nat, z: nat, joined: set<Sub>)
      requires Ready() && ModeFits(p, Layered(erased)) && node < p.Total() && z < p.w && JoinedBefore(p, erased, Point(Order(p, erased, z), 1, z, 0, node), joined)
      requires LayerKind(p, erased, Sub(true, node, z)) == FromTwin
      ensures OneDue(Layered(erased), joined, Sub(true, node, z), FromTwin)
    {
      hide Field, Inverts, MapsRight, IdenticalRight, JoinedBefore, Order, Partner, First, Paired, When, Col, Available;
      var c, now := Sub(true, node, z), Point(Order(p, erased, z), 1, z, 0, node);
      TwinThere(p, erased, now, joined, c);
      DueSecond(p, erased, node, z, c);
      NotYet(erased, now, joined, c);
    }

    /** One node of a plane (src/ec/Clay.cc:311-350). */
    method DecodeNode(dag: E.ECDAG<F>, erased_chunks: seq<nat>, x: nat, y: nat, z: nat, z_vec: seq<nat>, ghost joined0: set<Sub>)
      returns (ghost joined: set<Sub>)
      requires Ready() && x < p.q && y < p.t && z < p.w && z_vec == Digits(p.q, p.t, z)
      requires Layering(dag, SetOf(erased_chunks), Point(Order(p, SetOf(erased_chunks), z), 0, z, x, y), joined0)
      modifies dag
      ensures Layering(dag, SetOf(erased_chunks), Point(Order(p, SetOf(erased_chunks), z), 0, z, x, y + 1), joined)
    {
      hide *;
      Fits0();
      ghost var e := SetOf(erased_chunks);
      ghost var now := Point(Order(p, e, z), 0, z, x, y);
      LayeringIs(dag, e, now, joined0);
      NodeKind(erased_chunks, x, y, z, z_vec);
      ghost var u := Sub(false, NodeAt(p.q, x, y), z);
      FirstDone(e, u.node, z, joined0);
      FirstDueIs(e, u.node, z);
      joined := joined0;
      var node_xy := NodeAt(p.q, x, y);
      var node_sw := NodeAt(p.q, z_vec[y], y);
      if node_xy !in erased_chunks {
        if z_vec[y] < x {
          if node_sw !in erased_chunks {
            FirstPairDue(e, node_xy, z, joined0);
            joined := GetUncoupledFromCoupled(dag, x, y, z, z_vec, Layered(e), joined0);
          } else {
            HalfDue(e, node_xy, z, joined0);
            joined := GetUncoupled2FromCoupled03(dag, x, y, z, z_vec, Layered(e), joined0);
          }
        } else if z_vec[y] != x {
          if node_sw in erased_chunks {
            HalfDue(e, node_xy, z, joined0);
            joined := GetUncoupled3FromCoupled02(dag, x, y, z, z_vec, Layered(e), joined0);
          }
        }
      }
      assert joined == joined0 + FirstDue(e, u.node, z);
      LayeringIs(dag, e, Point(Order(p, e, z), 0, z, x, y + 1), joined);
    }

    lemma FirstDueIs(erased: set<nat>, node: nat, z: nat)
      requires Ready() && node < p.Total() && z < p.w
      ensures var u := Sub(false, node, z);
              InCode(p, u) && FirstDue(erased, node, z) ==
                if LayerKind(p, erased, u) == FromPair && First(p, u) then {u, Partner(p, u)} else if LayerKind(p, erased, u) == FromHalf then {u} else {}
    {
      hide Field, Inverts, MapsRight, IdenticalRight, LayerKind;
    }

    lemma SecondDueIs(erased: set<nat>, node: nat, z: nat)
      requires Ready() && node < p.Total() && z < p.w
      ensures var c := Sub(true, node, z);
              InCode(p, c) && SecondDue(erased, node, z) ==
                if LayerKind(p, erased, c) == ToCoupled && First(p, c) then {c, Partner(p, c)} else if LayerKind(p, erased, c) == FromTwin then {c} else {}
    {
      hide Field, Inverts, MapsRight, IdenticalRight, LayerKind;
    }

    /** src/ec/Clay.cc:295-355 */
    method DecodeErasures(dag: E.ECDAG<F>, erased_chunks: seq<nat>, z: nat, ghost joined0: set<Sub>)
      returns (ghost joined: set<Sub>)
      requires Ready() && z < p.w && ErasedList(p, erased_chunks)
      requires Layering(dag, SetOf(erased_chunks), Point(Order(p, SetOf(erased_chunks), z), 0, z, 0, 0), joined0)
      modifies dag
      ensures Layering(dag, SetOf(erased_chunks), Point(Order(p, SetOf(erased_chunks), z), 0, z + 1, 0, 0), joined)
    {
      hide *;
      Fits0();
      ghost var e := SetOf(erased_chunks);
      ghost var layer := Order(p, e, z);
      var z_vec := GetPlaneVector(p.q, p.t, z);
      joined := joined0;
      for x := 0 to p.q
        invariant Layering(dag, e, Point(layer, 0, z, x, 0), joined)
      {
        for y := 0 to p.t
          invariant Layering(dag, e, Point(layer, 0, z, x, y), joined)
        {
          joined := DecodeNode(dag, erased_chunks, x, y, z, z_vec, joined);
        }
        LayeringIs(dag, e, Point(layer, 0, z, x, p.t), joined);
        RowEnds(p, e, layer, z, x, joined);
        LayeringIs(dag, e, Point(layer, 0, z, x + 1, 0), joined);
      }
      LayeringIs(dag, e, Point(layer, 0, z, p.q, 0), joined);
      LinesThere(p, e, layer, z, joined);
      LayerCodesDue(erased_chunks, z, joined);
      ghost var before := joined;
      joined := DecodeUncoupled(dag, erased_chunks, z, Layered(e), joined);
      LayerCodesDone(erased_chunks, z, before);
      FirstEnds(p, e, layer, z, joined);
      LayeringIs(dag, e, Point(layer, 0, z + 1, 0, 0), joined);
    }

    lemma LayerCodesDue(erased_chunks: seq<nat>, z: nat, joined: set<Sub>)
      requires Ready() && z < p.w && ErasedList(p, erased_chunks) && ModeFits(p, Layered(SetOf(erased_chunks)))
      requires JoinedBefore(p, SetOf(erased_chunks), Point(Order(p, SetOf(erased_chunks), z), 0, z, p.q, 0), joined)
      ensures forall i | 0 <= i < |erased_chunks| ::
                CodeDue(Layered(SetOf(erased_chunks)), joined, Outside(SetOf(erased_chunks), p.Total()), erased_chunks[i], z)
    {
      hide Field, Inverts, MapsRight, IdenticalRight, JoinedBefore, Order, Ua, When, LayerKind, Outside, LineSubs, LineCoefs, SetOf, Partner, ErasedFits, Distinct;
      ghost var e := SetOf(erased_chunks);
      forall i | 0 <= i < |erased_chunks| ensures CodeDue(Layered(e), joined, Outside(e, p.Total()), erased_chunks[i], z) {
        assert erased_chunks[i] in erased_chunks;
        InSetOf(erased_chunks, erased_chunks[i]);
        var s := Ua(p, erased_chunks[i], z);
        CodeComputed(p, e, erased_chunks[i], z);
        DueLine(p, e, z, s);
        NotYet(e, Point(Order(p, e, z), 0, z, p.q, 0), joined, s);
      }
    }

    lemma LayerCodesDone(erased_chunks: seq<nat>, z: nat, joined: set<Sub>)
      requires Ready() && z < p.w && ErasedList(p, erased_chunks) && ErasedFits(p, SetOf(erased_chunks))
      requires JoinedBefore(p, SetOf(erased_chunks), Point(Order(p, SetOf(erased_chunks), z), 0, z, p.q, 0), joined)
      ensures JoinedBefore(p, SetOf(erased_chunks), Point(Order(p, SetOf(erased_chunks), z), 0, z, p.q, 1), joined + CodesOf(erased_chunks, z))
    {
      hide Field, Inverts, MapsRight, IdenticalRight, JoinedBefore, Order, Ua, When, LayerKind, SetOf, Partner, ErasedFits, Distinct;
      ghost var e := SetOf(erased_chunks);
      ghost var due := CodesOf(erased_chunks, z);
      forall s ensures s in due <==> s.node in e && s.node < p.Total() && s == Ua(p, s.node, z) { CodesAre(erased_chunks, z, s); }
      forall s | s in due ensures IsComputed(p, e, s) { CodeComputed(p, e, s.node, z); }
      forall s | IsComputed(p, e, s)
        ensures s in due <==> !Earlier(When(p, e, s), Point(Order(p, e, z), 0, z, p.q, 0)) && Earlier(When(p, e, s), Point(Order(p, e, z), 0, z, p.q, 1))
      {
        DueLine(p, e, z, s);
      }
      Joined(p, e, Point(Order(p, e, z), 0, z, p.q, 0), Point(Order(p, e, z), 0, z, p.q, 1), joined, due);
    }

    lemma CodesAre(nodes: seq<nat>, z: nat, s: Sub)
      requires Ready() && z < p.w && forall i | 0 <= i < |nodes| :: nodes[i] < p.Total()
      ensures s in CodesOf(nodes, z) <==> s.node in SetOf(nodes) && s.node < p.Total() && s == Ua(p, s.node, z)
    {
      hide Field, Inverts, MapsRight, IdenticalRight, Paired;
    }

    /** No other erased node of the column is unpaired in the plane (src/ec/Clay.cc:2556-2567). */
    method IsErasureType1(ind: nat, erased_chunks: seq<nat>, z_vec: seq<nat>) returns (r: bool)
      requires Ready() && ErasedList(p, erased_chunks) && ind < |erased_chunks| && |z_vec| == p.t
      requires forall y | 0 <= y < p.t :: z_vec[y] < p.q
      ensures 0 < p.q && erased_chunks[ind] / p.q < p.t
      ensures var y := erased_chunks[ind] / p.q;
              r <==> erased_chunks[ind] % p.q != z_vec[y] && NodeAt(p.q, z_vec[y], y) !in erased_chunks
    {
      hide Field, Inverts, MapsRight, IdenticalRight;
      Fits0();
      NodeFits(p, erased_chunks[ind]);
      var y := erased_chunks[ind] / p.q;
      if erased_chunks[ind] % p.q == z_vec[y] {
        return false;
      }
      for i := 0 to |erased_chunks|
        invariant forall j | 0 <= j < i :: erased_chunks[j] != NodeAt(p.q, z_vec[y], y)
      {
        NodeFits(p, erased_chunks[i]);
        NodeAtFits(p, z_vec[y], y);
        if erased_chunks[i] / p.q == y {
          if erased_chunks[i] % p.q == z_vec[erased_chunks[i] / p.q] {
            return false;
          }
        }
      }
      return true;
    }

    /** One erased node of a plane (src/ec/Clay.cc:2489-2520). */
    method CoupleNode(dag: E.ECDAG<F>, erased_chunks: seq<nat>, i: nat, z: nat, z_vec: seq<nat>, ghost joined0: set<Sub>)
      returns (ghost joined: set<Sub>)
      requires Ready() && z < p.w && ErasedList(p, erased_chunks) && i < |erased_chunks| && z_vec == Digits(p.q, p.t, z)
      requires Layering(dag, SetOf(erased_chunks), Point(Order(p, SetOf(erased_chunks), z), 1, z, 0, erased_chunks[i]), joined0)
      modifies dag
      ensures Layering(dag, SetOf(erased_chunks), Point(Order(p, SetOf(erased_chunks), z), 1, z, 0, erased_chunks[i] + 1), joined)
    {
      hide *;
      Fits0();
      ghost var e := SetOf(erased_chunks);
      var x, y := erased_chunks[i] % p.q, erased_chunks[i] / p.q;
      ErasedPlace(erased_chunks, i, z);
      LayeringIs(dag, e, Point(Order(p, e, z), 1, z, 0, erased_chunks[i]), joined0);
      NodeKind(erased_chunks, x, y, z, z_vec);
      ghost var c := Sub(true, NodeAt(p.q, x, y), z);
      AsCIs(NodeAt(p.q, x, y), z);
      SecondDone(e, c.node, z, joined0);
      SecondDueIs(e, c.node, z);
      joined := joined0;
      if z_vec[y] != x {
        var type1 := IsErasureType1(i, erased_chunks, z_vec);
        if type1 {
          TwinDue(e, c.node, z, joined0);
          if x > z_vec[y] {
            joined := GetCoupled0FromPair12(dag, x, y, z, z_vec, Layered(e), joined0);
          } else {
            joined := GetCoupled1FromPair03(dag, x, y, z, z_vec, Layered(e), joined0);
          }
        } else if z_vec[y] < x {
          SecondPairDue(e, c.node, z, joined0);
          joined := GetCoupledFromUncoupled(dag, x, y, z, z_vec, Layered(e), joined0);
        }
      }
      assert joined == joined0 + SecondDue(e, c.node, z);
      LayeringIs(dag, e, Point(Order(p, e, z), 1, z, 0, erased_chunks[i] + 1), joined);
    }

    lemma AsCIs(node: nat, z: nat)
      ensures AsC(Sub(false, node, z)) == Sub(true, node, z)
    {}

    lemma ErasedPlace(erased_chunks: seq<nat>, i: nat, z: nat)
      requires Ready() && ErasedList(p, erased_chunks) && i < |erased_chunks| && z < p.w
      ensures 0 < p.q && var x, y := erased_chunks[i] % p.q, erased_chunks[i] / p.q;
              x < p.q && y < p.t && erased_chunks[i] == NodeAt(p.q, x, y) < p.Total() && erased_chunks[i] in erased_chunks
      ensures |Digits(p.q, p.t, z)| == p.t && forall y | 0 <= y < p.t :: Digits(p.q, p.t, z)[y] < p.q
    {
      hide Field, Inverts, MapsRight, IdenticalRight, Distinct;
      NodeFits(p, erased_chunks[i]);
    }

    /** Erased nodes are listed in ascending order. */
    ghost predicate Rising(nodes: seq<nat>) {
      forall i, j | 0 <= i < j < |nodes| :: nodes[i] < nodes[j]
    }

    ghost function NextErased(nodes: seq<nat>, i: nat): nat {
      if i < |nodes| then nodes[i] else p.Total()
    }

    lemma NotBetween(nodes: seq<nat>, i: nat, node: nat)
      requires Rising(nodes) && i <= |nodes| && (if i == 0 then 0 else nodes[i - 1] + 1) <= node && (i < |nodes| ==> node < nodes[i])
      ensures node !in nodes
    {
      forall j | 0 <= j < |nodes| ensures nodes[j] != node {
        if j < i { assert nodes[j] <= nodes[i - 1]; } else { assert nodes[i] <= nodes[j]; }
      }
    }

    /** Between two erased nodes, and before the first and after the last, nothing is due. */
    lemma BetweenErased(erased_chunks: seq<nat>, layer: nat, z: nat, i: nat, joined: set<Sub>)
      requires Ready() && ErasedList(p, erased_chunks) && Rising(erased_chunks) && i <= |erased_chunks|
      requires JoinedBefore(p, SetOf(erased_chunks), Point(layer, 1, z, 0, if i == 0 then 0 else erased_chunks[i - 1] + 1), joined)
      ensures JoinedBefore(p, SetOf(erased_chunks), Point(layer, 1, z, 0, NextErased(erased_chunks, i)), joined)
    {
      hide Field, Inverts, MapsRight, IdenticalRight, JoinedBefore, SetOf, Distinct;
      var from := if i == 0 then 0 else erased_chunks[i - 1] + 1;
      forall node: nat | from <= node < NextErased(erased_chunks, i) ensures node !in SetOf(erased_chunks) {
        InSetOf(erased_chunks, node);
        NotBetween(erased_chunks, i, node);
      }
      NotErased(p, SetOf(erased_chunks), layer, z, from, NextErased(erased_chunks, i), joined);
    }

    /** The loop over the erased nodes (src/ec/Clay.cc:2486-2545). */
    method CouplePlane(dag: E.ECDAG<F>, erased_chunks: seq<nat>, z: nat, encode: bool, ghost joined0: set<Sub>) returns (ghost joined: set<Sub>)
      requires Ready() && z < p.w && ErasedList(p, erased_chunks) && Rising(erased_chunks) && (encode ==> erased_chunks == Column(p, p.t - 1))
      requires Layering(dag, SetOf(erased_chunks), Point(Order(p, SetOf(erased_chunks), z), 1, z, 0, 0), joined0)
      modifies dag
      ensures Layering(dag, SetOf(erased_chunks), Point(Order(p, SetOf(erased_chunks), z), 1, z + 1, 0, 0), joined)
    {
      hide *;
      Fits0();
      ghost var e := SetOf(erased_chunks);
      ghost var layer := Order(p, e, z);
      var z_vec := GetPlaneVector(p.q, p.t, z);
      joined := joined0;
      LayeringIs(dag, e, Point(layer, 1, z, 0, 0), joined);
      BetweenErased(erased_chunks, layer, z, 0, joined);
      LayeringIs(dag, e, Point(layer, 1, z, 0, NextErased(erased_chunks, 0)), joined);
      for i := 0 to |erased_chunks|
        invariant Layering(dag, e, Point(layer, 1, z, 0, NextErased(erased_chunks, i)), joined)
      {
        NextIs(erased_chunks, i);
        if encode {
          joined := EncodeNode(dag, erased_chunks, i, z, z_vec, joined);
        } else {
          joined := CoupleNode(dag, erased_chunks, i, z, z_vec, joined);
        }
        LayeringIs(dag, e, Point(layer, 1, z, 0, erased_chunks[i] + 1), joined);
        BetweenErased(erased_chunks, layer, z, i + 1, joined);
        LayeringIs(dag, e, Point(layer, 1, z, 0, NextErased(erased_chunks, i + 1)), joined);
      }
      NextIs(erased_chunks, |erased_chunks|);
      LayeringIs(dag, e, Point(layer, 1, z, 0, p.Total()), joined);
      SecondEnds(p, e, layer, z, joined);
      LayeringIs(dag, e, Point(layer, 1, z + 1, 0, 0), joined);
    }

    lemma NextIs(nodes: seq<nat>, i: nat)
      ensures NextErased(nodes, i) == if i < |nodes| then nodes[i] else p.Total()
    {}

    /** Encode's own loop over the parity nodes (src/ec/Clay.cc:259-284): there the partner is a parity node, too. */
    method EncodeNode(dag: E.ECDAG<F>, erased_chunks: seq<nat>, i: nat, z: nat, z_vec: seq<nat>, ghost joined0: set<Sub>)
      returns (ghost joined: set<Sub>)
      requires Ready() && z < p.w && ErasedList(p, erased_chunks) && erased_chunks == Column(p, p.t - 1) && i < |erased_chunks| && z_vec == Digits(p.q, p.t, z)
      requires Layering(dag, SetOf(erased_chunks), Point(Order(p, SetOf(erased_chunks), z), 1, z, 0, erased_chunks[i]), joined0)
      modifies dag
      ensures Layering(dag, SetOf(erased_chunks), Point(Order(p, SetOf(erased_chunks), z), 1, z, 0, erased_chunks[i] + 1), joined)
    {
      hide *;
      Fits0();
      ghost var e := SetOf(erased_chunks);
      var x, y := erased_chunks[i] % p.q, erased_chunks[i] / p.q;
      ErasedPlace(erased_chunks, i, z);
      LayeringIs(dag, e, Point(Order(p, e, z), 1, z, 0, erased_chunks[i]), joined0);
      NodeKind(erased_chunks, x, y, z, z_vec);
      ghost var c := Sub(true, NodeAt(p.q, x, y), z);
      AsCIs(NodeAt(p.q, x, y), z);
      SecondDone(e, c.node, z, joined0);
      SecondDueIs(e, c.node, z);
      PartnerAtTop(i, z, z_vec);
      joined := joined0;
      if z_vec[y] != x && z_vec[y] < x {
        SecondPairDue(e, c.node, z, joined0);
        joined := GetCoupledFromUncoupled(dag, x, y, z, z_vec, Layered(e), joined0);
      }
      assert joined == joined0 + SecondDue(e, c.node, z);
      LayeringIs(dag, e, Point(Order(p, e, z), 1, z, 0, erased_chunks[i] + 1), joined);
    }

    lemma PartnerAtTop(i: nat, z: nat, z_vec: seq<nat>)
      requires Ready() && z < p.w && i < p.q && z_vec == Digits(p.q, p.t, z) && |Column(p, p.t - 1)| == p.q
      ensures 0 < p.q && Column(p, p.t - 1)[i] / p.q == p.t - 1 && NodeAt(p.q, z_vec[p.t - 1], p.t - 1) in Column(p, p.t - 1)
    {
      hide Field, Inverts, MapsRight, IdenticalRight;
      Fits0();
      NodeAtFits(p, i, p.t - 1);
      InColumn(p, p.t - 1, NodeAt(p.q, z_vec[p.t - 1], p.t - 1));
    }

    /** src/ec/Clay.cc:170-183 */
    method PlaneOrder(erased_chunks: seq<nat>) returns (order: seq<nat>)
      requires Ready() && ErasedList(p, erased_chunks)
      ensures |order| == p.w && forall z | 0 <= z < p.w :: order[z] == Order(p, SetOf(erased_chunks), z)
    {
      hide Field, Inverts, MapsRight, IdenticalRight, Order, Digits, ErasedList, SetOf;
      Fits0();
      order := [];
      for z := 0 to p.w
        invariant |order| == z && forall j | 0 <= j < z :: order[j] == Order(p, SetOf(erased_chunks), j)
      {
        var z_vec := GetPlaneVector(p.q, p.t, z);
        var count := 0;
        NoDots(erased_chunks, z);
        for i := 0 to |erased_chunks|
          invariant count == Order(p, SetOf(erased_chunks[..i]), z)
        {
          ErasedPlace(erased_chunks, i, z);
          OneMoreDot(erased_chunks, i, z);
          if erased_chunks[i] % p.q == z_vec[erased_chunks[i] / p.q] {
            count := count + 1;
          }
        }
        order := order + [count];
      }
    }

    lemma NoDots(erased_chunks: seq<nat>, z: nat)
      requires Ready()
      ensures Order(p, SetOf(erased_chunks[..0]), z) == 0 && erased_chunks[..|erased_chunks|] == erased_chunks
    {
      hide Field, Inverts, MapsRight, IdenticalRight, IsDot;
      assert Dots(p, SetOf([]), z) == {};
    }

    lemma OneMoreDot(erased_chunks: seq<nat>, i: nat, z: nat)
      requires Ready() && ErasedList(p, erased_chunks) && i < |erased_chunks| && z < p.w
      ensures 0 < p.q && erased_chunks[i] / p.q < p.t
      ensures Order(p, SetOf(erased_chunks[..i + 1]), z)
                == Order(p, SetOf(erased_chunks[..i]), z) + if Digits(p.q, p.t, z)[erased_chunks[i] / p.q] == erased_chunks[i] % p.q then 1 else 0
    {
      hide Field, Inverts, MapsRight, IdenticalRight, SetOf, Digits;
      NodeFits(p, erased_chunks[i]);
      SetOfNext(erased_chunks, i);
      var a, b, node := Dots(p, SetOf(erased_chunks[..i]), z), Dots(p, SetOf(erased_chunks[..i + 1]), z), erased_chunks[i];
      if IsDot(p, node, z) { assert b == a + {node} && node !in a; } else { assert b == a; }
    }

    /** src/ec/Clay.cc:152-168: the number of columns with erased nodes. */
    method MaxWeight(erased_chunks: seq<nat>) returns (weight: nat)
      requires Ready() && ErasedList(p, erased_chunks)
      ensures weight == |ErasedColumns(p, SetOf(erased_chunks))|
    {
      hide Field, Inverts, MapsRight, IdenticalRight, ErasedList, ErasedColumns, SetOf;
      Fits0();
      var weight_vec := seq(p.t, _ => 0);
      NoColumns(erased_chunks);
      for i := 0 to |erased_chunks|
        invariant |weight_vec| == p.t && forall y: nat | y < p.t :: weight_vec[y] >= 0 && (weight_vec[y] != 0 <==> y in ErasedColumns(p, SetOf(erased_chunks[..i])))
      {
        ErasedPlace(erased_chunks, i, 0);
        OneMoreColumn(erased_chunks, i);
        var y := erased_chunks[i] / p.q;
        weight_vec := weight_vec[y := weight_vec[y] + 1];
      }
      weight := 0;
      ghost var seen: set<nat> := {};
      for y := 0 to p.t
        invariant weight == |seen| && forall c: nat :: c in seen <==> c < y && c in ErasedColumns(p, SetOf(erased_chunks))
      {
        if weight_vec[y] != 0 {
          weight := weight + 1;
          seen := seen + {y};
        }
      }
      ColumnsBelow(erased_chunks, seen);
    }

    lemma NoColumns(erased_chunks: seq<nat>)
      requires Ready()
      ensures ErasedColumns(p, SetOf(erased_chunks[..0])) == {} && erased_chunks[..|erased_chunks|] == erased_chunks
    {
      hide Field, Inverts, MapsRight, IdenticalRight;
    }

    lemma OneMoreColumn(erased_chunks: seq<nat>, i: nat)
      requires Ready() && ErasedList(p, erased_chunks) && i < |erased_chunks| && 0 < p.q
      ensures ErasedColumns(p, SetOf(erased_chunks[..i + 1])) == ErasedColumns(p, SetOf(erased_chunks[..i])) + {erased_chunks[i] / p.q}
    {
      hide Field, Inverts, MapsRight, IdenticalRight, SetOf, ErasedList;
      SetOfNext(erased_chunks, i);
      var a, b := SetOf(erased_chunks[..i]), SetOf(erased_chunks[..i + 1]);
      forall c ensures c in ErasedColumns(p, b) <==> c in ErasedColumns(p, a) + {erased_chunks[i] / p.q} {
        ColumnsAre(a, c);
        ColumnsAre(b, c);
        if c == erased_chunks[i] / p.q { assert erased_chunks[i] in b && Col(p, erased_chunks[i]) == c; }
      }
    }

    lemma ColumnsAre(erased: set<nat>, c: nat)
      requires Ready()
      ensures 0 < p.q && (c in ErasedColumns(p, erased) <==> exists node: nat :: node in erased && Col(p, node) == c)
    {
      hide Field, Inverts, MapsRight, IdenticalRight, Col;
      Fits0();
    }

    lemma ColumnsBelow(erased_chunks: seq<nat>, seen: set<nat>)
      requires Ready() && ErasedList(p, erased_chunks)
      requires forall c: nat :: c in seen <==> c < p.t && c in ErasedColumns(p, SetOf(erased_chunks))
      ensures seen == ErasedColumns(p, SetOf(erased_chunks))
    {
      hide Field, Inverts, MapsRight, IdenticalRight, SetOf, Col;
      forall c | c in ErasedColumns(p, SetOf(erased_chunks)) ensures c < p.t {
        ColumnsAre(SetOf(erased_chunks), c);
        var node: nat :| node in SetOf(erased_chunks) && Col(p, node) == c;
        InSetOf(erased_chunks, node);
        var i := ElementIndex(erased_chunks, node);
        NodeFits(p, node);
      }
    }

    /** The planes of one layer, in two passes (src/ec/Clay.cc:2466-2545, 231-287). */
    method DecodeLayer(dag: E.ECDAG<F>, erased_chunks: seq<nat>, order: seq<nat>, hm_w: nat, encode: bool, ghost joined0: set<Sub>)
      returns (ghost joined: set<Sub>)
      requires Ready() && ErasedList(p, erased_chunks) && Rising(erased_chunks) && (encode ==> erased_chunks == Column(p, p.t - 1))
      requires |order| == p.w && forall z | 0 <= z < p.w :: order[z] == Order(p, SetOf(erased_chunks), z)
      requires Layering(dag, SetOf(erased_chunks), Point(hm_w, 0, 0, 0, 0), joined0)
      modifies dag
      ensures Layering(dag, SetOf(erased_chunks), Point(hm_w + 1, 0, 0, 0, 0), joined)
    {
      hide *;
      Fits0();
      ghost var e := SetOf(erased_chunks);
      joined := joined0;
      for z := 0 to p.w
        invariant Layering(dag, e, Point(hm_w, 0, z, 0, 0), joined)
      {
        if order[z] == hm_w {
          joined := DecodeErasures(dag, erased_chunks, z, joined);
        } else {
          LayeringIs(dag, e, Point(hm_w, 0, z, 0, 0), joined);
          OtherLayer(p, e, hm_w, 0, z, joined);
          LayeringIs(dag, e, Point(hm_w, 0, z + 1, 0, 0), joined);
        }
      }
      LayeringIs(dag, e, Point(hm_w, 0, p.w, 0, 0), joined);
      PassEnds(p, e, hm_w, joined);
      LayeringIs(dag, e, Point(hm_w, 1, 0, 0, 0), joined);
      for z := 0 to p.w
        invariant Layering(dag, e, Point(hm_w, 1, z, 0, 0), joined)
      {
        if order[z] == hm_w {
          joined := CouplePlane(dag, erased_chunks, z, encode, joined);
        } else {
          LayeringIs(dag, e, Point(hm_w, 1, z, 0, 0), joined);
          OtherLayer(p, e, hm_w, 1, z, joined);
          LayeringIs(dag, e, Point(hm_w, 1, z + 1, 0, 0), joined);
        }
      }
      LayeringIs(dag, e, Point(hm_w, 1, p.w, 0, 0), joined);
      PassEnds(p, e, hm_w, joined);
      LayeringIs(dag, e, Point(hm_w + 1, 0, 0, 0, 0), joined);
    }

    /** All layers, from an empty DAG. */
    method DecodeLayers(dag: E.ECDAG<F>, erased_chunks: seq<nat>, encode: bool)
      requires Ready() && ErasedList(p, erased_chunks) && Rising(erased_chunks) && (encode ==> erased_chunks == Column(p, p.t - 1))
      requires dag.Valid() && dag.nodes == map[]
      modifies dag
      ensures ModeFits(p, Layered(SetOf(erased_chunks))) && Built(dag, Layered(SetOf(erased_chunks)))
    {
      hide *;
      Fits0();
      ghost var e := SetOf(erased_chunks);
      var max_weight := MaxWeight(erased_chunks);
      var order := PlaneOrder(erased_chunks);
      ghost var joined: set<Sub> := {};
      NothingLayered(dag, erased_chunks);
      for hm_w := 0 to max_weight + 1
        invariant Layering(dag, e, Point(hm_w, 0, 0, 0, 0), joined)
      {
        joined := DecodeLayer(dag, erased_chunks, order, hm_w, encode, joined);
      }
      LayeringIs(dag, e, Point(max_weight + 1, 0, 0, 0, 0), joined);
      JoiningParts(dag, Layered(e), joined);
      AllLayers(e, max_weight, joined);
      AllBuilt(dag, Layered(e), joined);
    }

    lemma NothingLayered(dag: E.ECDAG<F>, erased_chunks: seq<nat>)
      requires Ready() && ErasedList(p, erased_chunks) && dag.Valid() && dag.nodes == map[]
      ensures Layering(dag, SetOf(erased_chunks), Point(0, 0, 0, 0, 0), {})
    {
      hide Field, Inverts, MapsRight, IdenticalRight, SetOf, ErasedList, ErasedFits;
      ErasedListFits(p, erased_chunks);
      ClayLayers.NothingYet(p, SetOf(erased_chunks));
      NothingJoined<F>(p, f, invert, Layered(SetOf(erased_chunks)), 0);
    }

    lemma AllLayers(erased: set<nat>, max_weight: nat, joined: set<Sub>)
      requires Ready() && ModeFits(p, Layered(erased)) && max_weight == |ErasedColumns(p, erased)|
      requires JoinedBefore(p, erased, Point(max_weight + 1, 0, 0, 0, 0), joined)
      ensures forall s | InCode(p, s) && KindOf(p, Layered(erased), s) != Nothing :: s in joined
    {
      hide Field, Inverts, MapsRight, IdenticalRight, When, LayerKind, Order, ErasedColumns;
      forall s | InCode(p, s) && KindOf(p, Layered(erased), s) != Nothing ensures s in joined {
        WhenFits(p, erased, s);
        OrderBound(p, erased, When(p, erased, s).plane);
      }
    }

    /** src/ec/Clay.cc:2422-2554: any q erased nodes, listed in ascending order. */
    method DecodeLayered(erased_chunks: seq<nat>, dag: E.ECDAG<F>)
      requires Ready() && ErasedList(p, erased_chunks) && Rising(erased_chunks) && dag.Valid() && dag.nodes == map[]
      modifies dag
      ensures ModeFits(p, Layered(SetOf(erased_chunks))) && Built(dag, Layered(SetOf(erased_chunks)))
    {
      DecodeLayers(dag, erased_chunks, false);
    }

    // -------------------------------------------------------------------------------------------
    // Encode

    lemma NothingDueHere(mode: Mode, st: Stage, joined: set<Sub>, node: nat)
      requires Ready() && ModeFits(p, mode) && Stands(p, mode, st, joined)
      requires forall s | InCode(p, s) :: !Due(p, mode, st, node, s)
      ensures Stands(p, mode, st.(seen := st.seen + {node}), joined)
    {
      hide Field, Inverts, MapsRight, IdenticalRight, Stands, Due;
      StandsInCode(mode, st, joined);
      StandsIff(mode, st, joined);
      NodeDone(p, mode, st, joined, joined, node);
    }

    lemma StandsIff(mode: Mode, st: Stage, joined: set<Sub>)
      requires Ready() && ModeFits(p, mode) && Stands(p, mode, st, joined)
      ensures forall s | InCode(p, s) :: s in joined <==> Past(p, mode, st, s)
    {}

    lemma VisitNow(st: Stage, group: nat, x: nat, y: nat, z: nat, z_vec: seq<nat>)
      requires Ready() && st.round == z < p.w && st.group == group && x < p.q && y < p.t && z_vec == Digits(p.q, p.t, z) && NodeAt(p.q, x, y) !in st.seen
      ensures Visits(st, group, x, y, z, z_vec)
    {}

    lemma TopErased()
      requires Ready()
      ensures ErasedList(p, Column(p, p.t - 1)) && Rising(Column(p, p.t - 1)) && ModeFits(p, Layered(SetOf(Column(p, p.t - 1))))
      ensures forall node: nat | node < p.Total() :: node in SetOf(Column(p, p.t - 1)) <==> Col(p, node) == p.t - 1
    {
      hide Field, Inverts, MapsRight, IdenticalRight, SetOf;
      Fits0();
      var column := Column(p, p.t - 1);
      forall i | 0 <= i < p.q ensures column[i] < p.Total() { ColumnNode(p.t - 1, i); }
      ErasedListFits(p, column);
      forall node: nat | node < p.Total() ensures node in SetOf(column) <==> Col(p, node) == p.t - 1 {
        InSetOf(column, node);
        InColumn(p, p.t - 1, node);
        TopNode(p, node);
        NodeFits(p, node);
        FewerThanAll(p);
        FewerRows();
      }
    }

    /** Decoding the parity nodes is what Encode is to compute. */
    lemma EncodingIsLayered(s: Sub)
      requires Ready() && InCode(p, s) && ModeFits(p, Layered(SetOf(Column(p, p.t - 1))))
      ensures ModeFits(p, Encoding)
      ensures KindOf(p, Layered(SetOf(Column(p, p.t - 1))), s) == KindOf(p, Encoding, s)
      ensures Given(p, Layered(SetOf(Column(p, p.t - 1))), s) <==> Given(p, Encoding, s)
      ensures Rule(p, f, invert, Layered(SetOf(Column(p, p.t - 1))), s) == Rule(p, f, invert, Encoding, s)
    {
      hide Field, Inverts, MapsRight, IdenticalRight, SetOf, Column, Partner, Paired, First, Outside, LineSubs, LineCoefs, CodeCoefs, PairCoefs, RowAt, Row, Rows, Ua;
      TopErased();
      NodeFits(p, s.node);
      PartnerPlace(p, s);
      TopLines(s.z, s.node);
    }

    lemma TopLines(z: nat, node: nat)
      requires Ready() && z < p.w
      ensures var lines := Outside(SetOf(Column(p, p.t - 1)), p.Total());
              LineSubs(p, lines, z) == Survivors(p, p.t - 1, z) && LineCoefs(p, f, invert, lines, node) == CodeCoefs(p, f, invert, p.t - 1, node)
    {
      hide Field, Inverts, MapsRight, IdenticalRight, SetOf, Column, Ua;
      TopErased();
      ColumnOutside(p.t - 1);
    }

    /** The rows outside a column, in order. */
    lemma ColumnOutside(y: nat)
      requires Ready() && y < p.t
      ensures Outside(SetOf(Column(p, y)), p.Total()) == Others(p, y)
    {
      hide Field, Inverts, MapsRight, IdenticalRight, SetOf, Column;
      RowsFewer(p);
      FewerThanAll(p);
      ColumnAtMost(y, p.t - 1, p.q);
      OutsideColumn(y, p.Total());
    }

    lemma {:induction false} OutsideColumn(y: nat, m: nat)
      requires Ready() && y < p.t && m <= p.Total()
      ensures var r := Outside(SetOf(Column(p, y)), m);
              |r| == (if m <= y * p.q then m else if m <= y * p.q + p.q then y * p.q else m - p.q)
              && forall i | 0 <= i < |r| :: r[i] == if i < y * p.q then i else i + p.q
    {
      hide Field, Inverts, MapsRight, IdenticalRight, SetOf, Column, Fits;
      if m > 0 {
        OutsideColumn(y, m - 1);
        InSetOf(Column(p, y), m - 1);
        InColumn(p, y, m - 1);
      }
    }

    lemma EncodedBuilt(dag: E.ECDAG<F>)
      requires Ready() && ModeFits(p, Layered(SetOf(Column(p, p.t - 1)))) && Built(dag, Layered(SetOf(Column(p, p.t - 1))))
      ensures ModeFits(p, Encoding) && Built(dag, Encoding)
    {
      hide Field, Inverts, MapsRight, IdenticalRight, SetOf, Column, KindOf, Given, Rule, Id, ErasedFits;
      var g, mode := dag.nodes, Layered(SetOf(Column(p, p.t - 1)));
      forall s | InCode(p, s) && KindOf(p, Encoding, s) != Nothing ensures JoinedAs(p, f, invert, Encoding, g, s) {
        EncodingIsLayered(s);
        assert JoinedAs(p, f, invert, mode, g, s);
      }
      forall v | v in g ensures Explained(g, Encoding, v) {
        assert Explained(g, mode, v);
        var s :| InCode(p, s) && Id(p, s) == v && (if g[v].kind.Leaf? then Given(p, mode, s) else KindOf(p, mode, s) != Nothing);
        EncodingIsLayered(s);
      }
    }

    /** The graph holds exactly the Joins of the mode, over given leaves. */
    ghost predicate Holds(g: Dag<F>, mode: Mode)
      requires Ready() && ModeFits(p, mode)
    {
      && (forall s | InCode(p, s) && KindOf(p, mode, s) != Nothing :: JoinedAs(p, f, invert, mode, g, s))
      && (forall v | v in g :: Explained(g, mode, v))
    }

    ghost predicate Built(dag: E.ECDAG<F>, mode: Mode)
      requires Ready() && ModeFits(p, mode)
      reads dag
    {
      dag.Valid() && Holds(dag.nodes, mode)
    }

    /** A leaf is given, any other vertex computed. */
    ghost predicate Explained(g: Dag<F>, mode: Mode, v: int)
      requires Ready() && ModeFits(p, mode) && v in g
    {
      exists s :: InCode(p, s) && Id(p, s) == v && (if g[v].kind.Leaf? then Given(p, mode, s) else KindOf(p, mode, s) != Nothing)
    }

    lemma AllBuilt(dag: E.ECDAG<F>, mode: Mode, joined: set<Sub>)
      requires Ready() && ModeFits(p, mode) && dag.Valid() && Traced(p, f, invert, mode, dag.nodes, joined)
      requires forall s | InCode(p, s) && KindOf(p, mode, s) != Nothing :: s in joined
      ensures Built(dag, mode)
    {
      hide Field, Inverts, MapsRight, IdenticalRight, Id, KindOf, Given, Rule;
      forall v | v in dag.nodes ensures Explained(dag.nodes, mode, v) {
        assert Accounted(p, mode, dag.nodes, joined, v);
        var s :| InCode(p, s) && Id(p, s) == v && (s in joined || (Given(p, mode, s) && dag.nodes[v].kind.Leaf?));
        assert s in joined ==> JoinedAs(p, f, invert, mode, dag.nodes, s);
      }
    }

    /** src/ec/Clay.cc:193-293: the parity nodes are decoded layer by layer. */
    method Encode() returns (dag: E.ECDAG<F>)
      requires Ready()
      ensures fresh(dag) && ModeFits(p, Encoding) && Built(dag, Encoding)
    {
      hide *;
      Fits0();
      TopErased();
      dag := new E.ECDAG<F>();
      var erased_chunks := ErasedParity();
      DecodeLayers(dag, erased_chunks, true);
      EncodedBuilt(dag);
    }

    /** The parity nodes are the last column (src/ec/Clay.cc:198-200). */
    method ErasedParity() returns (erased_chunks: seq<nat>)
      requires Ready()
      ensures erased_chunks == Column(p, p.t - 1)
    {
      hide Field, Inverts, MapsRight, IdenticalRight;
      FewerThanAll(p);
      erased_chunks := [];
      for idx := p.k + p.nu to p.n + p.nu
        invariant |erased_chunks| == idx - (p.k + p.nu) && forall i | 0 <= i < |erased_chunks| :: erased_chunks[i] == p.k + p.nu + i
      {
        erased_chunks := erased_chunks + [idx];
      }
    }

    // -------------------------------------------------------------------------------------------
    // Repairing one lost node

    lemma NoPairInRepair(mode: Mode, st: Stage, joined: set<Sub>, x: nat, y: nat, z: nat, z_vec: seq<nat>)
      requires Ready() && ModeFits(p, mode) && mode.Repairing? && Stands(p, mode, st, joined) && Visits(st, 0, x, y, z, z_vec)
      requires y == Erased(p, mode) || x == z_vec[y]
      ensures Stands(p, mode, st.(seen := st.seen + {NodeAt(p.q, x, y)}), joined)
    {
      hide Field, Inverts, MapsRight, IdenticalRight, Stands, Due, Digits;
      NodeAtFits(p, x, y);
      forall s | InCode(p, s) ensures !Due(p, mode, st, NodeAt(p.q, x, y), s) {
        DuePairRepair(p, mode, st, NodeAt(p.q, x, y), s);
      }
      NothingDueHere(mode, st, joined, NodeAt(p.q, x, y));
    }

    lemma NoHelperHere(mode: Mode, st: Stage, joined: set<Sub>, x: nat, y: nat, z: nat, z_vec: seq<nat>)
      requires Ready() && ModeFits(p, mode) && mode.Repairing? && Stands(p, mode, st, joined) && Visits(st, 2, x, y, z, z_vec)
      requires y == Erased(p, mode) && Active(p, mode, z) && x == z_vec[y]
      ensures Stands(p, mode, st.(seen := st.seen + {NodeAt(p.q, x, y)}), joined)
    {
      hide Field, Inverts, MapsRight, IdenticalRight, Stands, Due, Digits;
      NodeAtFits(p, x, y);
      NodeFits(p, mode.lost);
      forall s | InCode(p, s) ensures !Due(p, mode, st, NodeAt(p.q, x, y), s) {
        DueHelper(p, mode, st, NodeAt(p.q, x, y), s);
      }
      NothingDueHere(mode, st, joined, NodeAt(p.q, x, y));
    }

    lemma RepairPairsDone(mode: Mode, st: Stage, joined: set<Sub>)
      requires Ready() && ModeFits(p, mode) && Stands(p, mode, st, joined) && st.group == 0 && st.seen == Upto(p.Total())
      ensures Stands(p, mode, st.(group := 1, seen := {}), joined)
    {
      hide Field, Inverts, MapsRight, IdenticalRight, Stands, KindOf, Round, At, Upto;
      forall s | InCode(p, s) ensures At(p, mode, s) in st.seen {
        AtFits(mode, s);
        UptoHas(p.Total(), At(p, mode, s));
      }
      GroupDone(p, mode, st, joined);
    }

    lemma HelpersDone(mode: Mode, st: Stage, joined: set<Sub>, next: nat)
      requires Ready() && ModeFits(p, mode) && mode.Repairing? && Stands(p, mode, st, joined) && st.round < p.w && st.group == 2
      requires (forall node: nat | node in Column(p, Erased(p, mode)) :: node in st.seen) && next !in st.rounds && next != st.round
      ensures Stands(p, mode, Stage(st.rounds + {st.round}, next, 0, {}), joined)
    {
      hide Field, Inverts, MapsRight, IdenticalRight, Stands, At, KindOf, Round, Column, Partner, Col, Active;
      forall s | InCode(p, s) && KindOf(p, mode, s) != Nothing && Round(p, mode, s) == st.round && Group(KindOf(p, mode, s)) == 2
        ensures At(p, mode, s) in st.seen
      {
        var node := At(p, mode, s);
        AtFits(mode, s);
        DueHelper(p, mode, st, node, s);
        NodeFits(p, node);
        InColumn(p, Erased(p, mode), node);
      }
      GroupDone(p, mode, st, joined);
      RoundDone(p, mode, st.(group := 3, seen := {}), joined, next);
    }

    /** One node of a plane (src/ec/Clay.cc:2081-2138). */
    method RepairNode(dag: E.ECDAG<F>, erasures: seq<nat>, helper_data: set<nat>, x: nat, y: nat, z: nat, z_vec: seq<nat>,
                      ghost mode: Mode, ghost st: Stage, ghost joined0: set<Sub>)
      returns (ghost joined: set<Sub>)
      requires Ready() && ModeFits(p, mode) && mode.Repairing? && Building(dag, mode, st, joined0) && Visits(st, 0, x, y, z, z_vec)
      requires erasures == Column(p, Erased(p, mode)) && Active(p, mode, z)
      requires forall node: nat | node < p.Total() && node != mode.lost :: node in helper_data
      modifies dag
      ensures Building(dag, mode, st.(seen := st.seen + {NodeAt(p.q, x, y)}), joined)
    {
      hide Field, Inverts, MapsRight, IdenticalRight, Building, Stands, Digits, Column, Active, Erased;
      BuildingParts(dag, mode, st, joined0);
      joined := joined0;
      var node_xy := NodeAt(p.q, x, y);
      NodeAtFits(p, x, y);
      InErased(mode, x, y);
      if node_xy !in erasures {
        assert node_xy in helper_data;
        if z_vec[y] == x {
          NoPairInRepair(mode, st, joined0, x, y, z, z_vec);
          BuildingWhole(dag, mode, st.(seen := st.seen + {node_xy}), joined0);
        } else if z_vec[y] < x {
          joined := GetUncoupled2FromCoupled(dag, x, y, z, z_vec, mode, st, joined0);
        } else {
          joined := GetUncoupled3FromCoupled(dag, x, y, z, z_vec, mode, st, joined0);
        }
      } else {
        NoPairInRepair(mode, st, joined0, x, y, z, z_vec);
        BuildingWhole(dag, mode, st.(seen := st.seen + {node_xy}), joined0);
      }
    }

    /** The outer code in a plane of the repair. */
    method RepairCode(dag: E.ECDAG<F>, erasures: seq<nat>, z: nat, ghost mode: Mode, ghost st: Stage, ghost joined0: set<Sub>)
      returns (ghost joined: set<Sub>)
      requires Ready() && ModeFits(p, mode) && mode.Repairing? && Building(dag, mode, st, joined0) && erasures == Column(p, Erased(p, mode))
      requires st.round == z < p.w && st.group == 1 && st.seen == {} && Active(p, mode, z)
      modifies dag
      ensures Building(dag, mode, Stage(st.rounds, z, 2, {}), joined)
    {
      hide *;
      Fits0();
      BuildingParts(dag, mode, st, joined0);
      JoiningParts(dag, mode, joined0);
      RepairLines(mode, z);
      SurvivorsAvailable(p, mode, st, joined0);
      RepairCodesDue(mode, st, joined0);
      joined := DecodeUncoupled(dag, erasures, z, mode, joined0);
      JoiningParts(dag, mode, joined);
      RepairCodesDone(mode, st, joined0);
      BuildingWhole(dag, mode, Stage(st.rounds, z, 2, {}), joined);
    }

    lemma RepairLines(mode: Mode, z: nat)
      requires Ready() && ModeFits(p, mode) && mode.Repairing? && z < p.w
      ensures var y := Erased(p, mode);
              && ErasedList(p, Column(p, y)) && Outside(SetOf(Column(p, y)), p.Total()) == Others(p, y)
              && LineSubs(p, Outside(SetOf(Column(p, y)), p.Total()), z) == Survivors(p, y, z)
    {
      hide Field, Inverts, MapsRight, IdenticalRight, SetOf, Ua;
      var y := Erased(p, mode);
      ColumnOutside(y);
      forall i | 0 <= i < p.q ensures Column(p, y)[i] < p.Total() { ColumnNode(y, i); }
    }

    lemma CodeRule(mode: Mode, node: nat, z: nat)
      requires Ready() && ModeFits(p, mode) && mode.Repairing? && z < p.w && node < p.Total() && KindOf(p, mode, Ua(p, node, z)) == FromCode
      ensures forall i | 0 <= i < |Others(p, Erased(p, mode))| :: Others(p, Erased(p, mode))[i] < p.Total()
      ensures Rule(p, f, invert, mode, Ua(p, node, z)) ==
              (LineSubs(p, Others(p, Erased(p, mode)), z), LineCoefs(p, f, invert, Others(p, Erased(p, mode)), node))
    {
      hide Field, Inverts, MapsRight, IdenticalRight, Paired, KindOf, Row, Rows, Multiply;
      OthersFit(p, Erased(p, mode));
      assert LineSubs(p, Others(p, Erased(p, mode)), z) == Survivors(p, Erased(p, mode), z);
    }

    lemma OneKindInGroupOne(mode: Mode, s: Sub)
      requires Ready() && ModeFits(p, mode) && mode.Repairing? && InCode(p, s) && Group(KindOf(p, mode, s)) == 1
      ensures KindOf(p, mode, s) == FromCode
    {}

    lemma RepairCodesDue(mode: Mode, st: Stage, joined: set<Sub>)
      requires Ready() && ModeFits(p, mode) && mode.Repairing? && Stands(p, mode, st, joined) && st.round < p.w && st.group == 1 && st.seen == {}
      requires Active(p, mode, st.round)
      ensures var column := Column(p, Erased(p, mode));
              ErasedList(p, column) && forall i | 0 <= i < |column| :: CodeDue(mode, joined, Outside(SetOf(column), p.Total()), column[i], st.round)
    {
      hide Field, Inverts, MapsRight, IdenticalRight, Stands, Ua, KindOf, At, Round, SetOf, Outside, Others, LineCoefs, LineSubs, Partner, Distinct, Rule;
      var column, z := Column(p, Erased(p, mode)), st.round;
      RepairLines(mode, z);
      forall i | 0 <= i < |column| ensures CodeDue(mode, joined, Outside(SetOf(column), p.Total()), column[i], z) {
        ColumnNode(Erased(p, mode), i);
        var s := Ua(p, column[i], z);
        DueCode(p, mode, st, column[i], s);
        DueIsNew(p, mode, st, joined, column[i], s);
        OneKindInGroupOne(mode, s);
        CodeRule(mode, column[i], z);
      }
    }

    /** All nodes of the erased column are done, and no others are due. */
    lemma RepairCodesDone(mode: Mode, st: Stage, joined: set<Sub>)
      requires Ready() && ModeFits(p, mode) && mode.Repairing? && Stands(p, mode, st, joined) && st.round < p.w && st.group == 1 && st.seen == {}
      requires Active(p, mode, st.round) && ErasedList(p, Column(p, Erased(p, mode)))
      ensures Stands(p, mode, Stage(st.rounds, st.round, 2, {}), joined + CodesOf(Column(p, Erased(p, mode)), st.round))
    {
      hide Field, Inverts, MapsRight, IdenticalRight, Stands, Ua, KindOf, At, Round, SetOf, CodesOf, Column, Erased, Active, Distinct, Group;
      var column, z := Column(p, Erased(p, mode)), st.round;
      StandsInCode(mode, st, joined);
      forall s | s in CodesOf(column, z) ensures InCode(p, s) { CodesAre(column, z, s); }
      forall s | InCode(p, s)
        ensures s in CodesOf(column, z) <==> KindOf(p, mode, s) != Nothing && Round(p, mode, s) == z && Group(KindOf(p, mode, s)) == 1
      {
        RepairCodeIff(mode, st, s);
      }
      GroupJoined(p, mode, st, joined, joined + CodesOf(column, z));
    }

    lemma RepairCodeIff(mode: Mode, st: Stage, s: Sub)
      requires Ready() && ModeFits(p, mode) && mode.Repairing? && st.round < p.w && st.group == 1 && Active(p, mode, st.round)
      requires InCode(p, s) && ErasedList(p, Column(p, Erased(p, mode)))
      ensures s in CodesOf(Column(p, Erased(p, mode)), st.round) <==>
                KindOf(p, mode, s) != Nothing && Round(p, mode, s) == st.round && Group(KindOf(p, mode, s)) == 1
    {
      hide Field, Inverts, MapsRight, IdenticalRight, Ua, KindOf, At, Round, SetOf, CodesOf, Column, Erased, Active, Distinct;
      var column := Column(p, Erased(p, mode));
      CodesAre(column, st.round, s);
      AtFits(mode, s);
      DueCode(p, mode, st, At(p, mode, s), s);
      DueCode(p, mode, st, s.node, s);
      NodeFits(p, s.node);
      InSetOf(column, s.node);
      InColumn(p, Erased(p, mode), s.node);
      InColumnIff(Erased(p, mode), s.node);
    }

    lemma InColumnIff(y: nat, node: nat)
      requires Ready() && y < p.t && node < p.Total()
      ensures 0 < p.q && (Col(p, node) == y <==> y * p.q <= node < y * p.q + p.q)
    {
      hide Field, Inverts, MapsRight, IdenticalRight;
      NodeFits(p, node);
      if Col(p, node) < y { Gap(Col(p, node), y, p.q); }
      if y < Col(p, node) { Gap(y, Col(p, node), p.q); }
    }

    lemma InErased(mode: Mode, x: nat, y: nat)
      requires Ready() && ModeFits(p, mode) && !mode.Layered? && x < p.q && y < p.t
      ensures NodeAt(p.q, x, y) in Column(p, Erased(p, mode)) <==> y == Erased(p, mode)
      ensures mode.Repairing? ==> (mode.lost == NodeAt(p.q, x, y) ==> y == Erased(p, mode))
    {
      hide Field, Inverts, MapsRight, IdenticalRight, Column;
      var e := Erased(p, mode);
      InColumn(p, e, NodeAt(p.q, x, y));
      NodeAtFits(p, x, y);
      if y < e { Gap(y, e, p.q); }
      if e < y { Gap(e, y, p.q); }
    }

    /** One plane of the repair (src/ec/Clay.cc:2077-2204); the planes still to come follow. */
    method RepairPlane(dag: E.ECDAG<F>, erasures: seq<nat>, helper_data: set<nat>, z: nat, ghost mode: Mode, ghost rounds: set<nat>, ghost next: nat,
                       ghost joined0: set<Sub>)
      returns (ghost joined: set<Sub>)
      requires Ready() && ModeFits(p, mode) && mode.Repairing? && Building(dag, mode, Stage(rounds, z, 0, {}), joined0) && z < p.w
      requires erasures == Column(p, Erased(p, mode)) && Active(p, mode, z) && next !in rounds && next != z
      requires forall node: nat | node < p.Total() && node != mode.lost :: node in helper_data
      modifies dag
      ensures Building(dag, mode, Stage(rounds + {z}, next, 0, {}), joined)
    {
      hide *;
      Fits0();
      var z_vec := GetPlaneVector(p.q, p.t, z);
      joined := joined0;
      UptoNext(0);
      NodeOrder(p.q, 0, 0);
      for y := 0 to p.t
        invariant Building(dag, mode, Stage(rounds, z, 0, Upto(NodeAt(p.q, 0, y))), joined)
      {
        for x := 0 to p.q
          invariant Building(dag, mode, Stage(rounds, z, 0, Upto(NodeAt(p.q, x, y))), joined)
        {
          UptoNext(NodeAt(p.q, x, y));
          VisitNow(Stage(rounds, z, 0, Upto(NodeAt(p.q, x, y))), 0, x, y, z, z_vec);
          joined := RepairNode(dag, erasures, helper_data, x, y, z, z_vec, mode, Stage(rounds, z, 0, Upto(NodeAt(p.q, x, y))), joined);
          NodeOrder(p.q, x, y);
        }
        NodeOrder(p.q, 0, y);
      }
      NodeOrder(p.q, 0, p.t);
      Grid(p);
      BuildingParts(dag, mode, Stage(rounds, z, 0, Upto(p.Total())), joined);
      RepairPairsDone(mode, Stage(rounds, z, 0, Upto(p.Total())), joined);
      BuildingWhole(dag, mode, Stage(rounds, z, 1, {}), joined);
      joined := RepairCode(dag, erasures, z, mode, Stage(rounds, z, 1, {}), joined);
      joined := RecoverPlane(dag, erasures, helper_data, z, z_vec, mode, Stage(rounds, z, 2, {}), next, joined);
    }

    /** The loop over the lost node's column (src/ec/Clay.cc:2154-2202). */
    method RecoverPlane(dag: E.ECDAG<F>, erasures: seq<nat>, helper_data: set<nat>, z: nat, z_vec: seq<nat>,
                        ghost mode: Mode, ghost st: Stage, ghost next: nat, ghost joined0: set<Sub>)
      returns (ghost joined: set<Sub>)
      requires Ready() && ModeFits(p, mode) && mode.Repairing? && Building(dag, mode, st, joined0) && z < p.w
      requires st.round == z && st.group == 2 && st.seen == {} && z_vec == Digits(p.q, p.t, z)
      requires erasures == Column(p, Erased(p, mode)) && Active(p, mode, z) && next !in st.rounds && next != z
      requires forall node: nat | node < p.Total() && node != mode.lost :: node in helper_data
      modifies dag
      ensures Building(dag, mode, Stage(st.rounds + {z}, next, 0, {}), joined)
    {
      hide *;
      Fits0();
      joined := joined0;
      ghost var now := st;
      SeenSoFar(erasures, now);
      ColumnLength(Erased(p, mode));
      for i := 0 to |erasures|
        invariant Building(dag, mode, now, joined) && now == st.(seen := Range(erasures, i))
      {
        joined := RecoverNode(dag, erasures, helper_data, i, z, z_vec, mode, now, joined);
        now := now.(seen := now.seen + {erasures[i]});
        RangeNext(erasures, i);
      }
      WholeRange(erasures);
      BuildingParts(dag, mode, now, joined);
      HelpersDone(mode, now, joined, next);
      BuildingWhole(dag, mode, Stage(st.rounds + {z}, next, 0, {}), joined);
    }

    method RecoverNode(dag: E.ECDAG<F>, erasures: seq<nat>, helper_data: set<nat>, i: nat, z: nat, z_vec: seq<nat>,
                       ghost mode: Mode, ghost st: Stage, ghost joined0: set<Sub>)
      returns (ghost joined: set<Sub>)
      requires Ready() && ModeFits(p, mode) && mode.Repairing? && Building(dag, mode, st, joined0) && z < p.w && i < |erasures|
      requires st.round == z && st.group == 2 && st.seen == Range(erasures, i) && z_vec == Digits(p.q, p.t, z)
      requires erasures == Column(p, Erased(p, mode)) && Active(p, mode, z)
      requires forall node: nat | node < p.Total() && node != mode.lost :: node in helper_data
      modifies dag
      ensures Building(dag, mode, st.(seen := st.seen + {erasures[i]}), joined)
    {
      hide Field, Inverts, MapsRight, IdenticalRight, Building, Stands, Digits, Column, Active, Erased, Range;
      BuildingParts(dag, mode, st, joined0);
      ColumnLength(Erased(p, mode));
      ColumnNode(Erased(p, mode), i);
      NotInRange(erasures, i);
      ErasedNode(mode, i);
      joined := joined0;
      var x, y := erasures[i] % p.q, erasures[i] / p.q;
      VisitNow(st, 2, x, y, z, z_vec);
      if x == z_vec[y] {
        NoHelperHere(mode, st, joined0, x, y, z, z_vec);
        BuildingWhole(dag, mode, st.(seen := st.seen + {erasures[i]}), joined0);
      } else {
        UnpairedIsLost(mode, x, z, z_vec);
        assert erasures[i] in helper_data;
        if z_vec[y] < x {
          joined := GetCoupled1FromPair02(dag, x, y, z, z_vec, mode, st, joined0);
        } else {
          joined := GetCoupled0FromPair13(dag, x, y, z, z_vec, mode, st, joined0);
        }
      }
    }

    lemma ErasedNode(mode: Mode, i: nat)
      requires Ready() && ModeFits(p, mode) && !mode.Layered? && i < p.q
      ensures var node := Column(p, Erased(p, mode))[i];
              node < p.Total() && node / p.q == Erased(p, mode) && node % p.q == i && node == NodeAt(p.q, i, Erased(p, mode))
    {
      hide Field, Inverts, MapsRight, IdenticalRight;
      NodeAtFits(p, i, Erased(p, mode));
    }

    lemma UnpairedIsLost(mode: Mode, x: nat, z: nat, z_vec: seq<nat>)
      requires Ready() && ModeFits(p, mode) && mode.Repairing? && Active(p, mode, z) && z_vec == Digits(p.q, p.t, z) && x < p.q
      ensures x != z_vec[Erased(p, mode)] ==> NodeAt(p.q, x, Erased(p, mode)) != mode.lost
    {
      hide Field, Inverts, MapsRight, IdenticalRight, Digits;
      NodeFits(p, mode.lost);
      NodeAtFits(p, x, Erased(p, mode));
    }

    // The planes of a repair, by the number of unpaired failures in them

    ghost predicate IsPlan(mode: Mode, planes: seq<nat>)
      requires Ready() && ModeFits(p, mode)
    {
      && Distinct(planes) && (forall i | 0 <= i < |planes| :: planes[i] < p.w && Active(p, mode, planes[i]))
      && (forall z: nat | z < p.w && Active(p, mode, z) :: z in planes)
    }

    ghost predicate PlannedBelow(mode: Mode, planes: seq<nat>, limit: nat)
      requires Ready() && ModeFits(p, mode)
    {
      && Distinct(planes) && (forall i | 0 <= i < |planes| :: planes[i] < p.w && Active(p, mode, planes[i]) && planes[i] < limit)
      && (forall z: nat | z < limit && z < p.w && Active(p, mode, z) :: z in planes)
    }

    lemma PlanOne(mode: Mode, ordered_planes: map<int, seq<nat>>, j: nat, count: nat)
      requires Ready() && ModeFits(p, mode) && PlannedSoFar(mode, ordered_planes, j, count) && j < p.w && Active(p, mode, j)
      ensures PlannedSoFar(mode, ordered_planes[1 := PlanesAt(ordered_planes, 1) + [j]], j + 1, count + 1)
      ensures 1 in ordered_planes ==> PlanesAt(ordered_planes, 1) == ordered_planes[1]
      ensures 1 !in ordered_planes ==> PlanesAt(ordered_planes, 1) == []
    {
      hide Field, Inverts, MapsRight, IdenticalRight, Active;
      var planes := PlanesAt(ordered_planes, 1);
      var next := planes + [j];
      forall z: nat | z < j + 1 && z < p.w && Active(p, mode, z) ensures z in next {
        if z < j { assert z in planes; } else { assert next[|planes|] == j; }
      }
    }

    lemma PlanSkip(mode: Mode, ordered_planes: map<int, seq<nat>>, from: nat, to: nat, count: nat)
      requires Ready() && ModeFits(p, mode) && PlannedSoFar(mode, ordered_planes, from, count) && from <= to
      requires forall z: nat | from <= z < to && z < p.w :: !Active(p, mode, z)
      ensures PlannedSoFar(mode, ordered_planes, to, count)
    {
      hide Field, Inverts, MapsRight, IdenticalRight, Active;
    }

    ghost predicate RangesOf(mode: Mode, ranges: seq<(nat, nat)>)
      requires Ready() && ModeFits(p, mode) && !mode.Layered?
    {
      && (forall i | 0 <= i < |ranges| :: 0 < ranges[i].1 && ranges[i].0 + ranges[i].1 <= p.w)
      && (forall i, j | 0 <= i < j < |ranges| :: ranges[i].0 + ranges[i].1 <= ranges[j].0)
      && (forall z: nat :: Covered(ranges, z) <==> z < p.w && Active(p, mode, z))
      && |ranges| == Pow(p.q, Erased(p, mode)) && forall i | 0 <= i < |ranges| :: ranges[i].1 == Pow(p.q, p.t - 1 - Erased(p, mode))
    }

    /** Together the ranges hold one plane in q (src/ec/Clay.cc:1974, 2029). */
    lemma PlaneCount(mode: Mode, ranges: seq<(nat, nat)>)
      requires Ready() && ModeFits(p, mode) && !mode.Layered? && RangesOf(mode, ranges)
      ensures |ranges| * Pow(p.q, p.t - 1 - Erased(p, mode)) == p.w / p.q
      ensures forall i | 0 <= i < |ranges| :: ranges[i].1 == Pow(p.q, p.t - 1 - Erased(p, mode))
    {
      hide Field, Inverts, MapsRight, IdenticalRight, Active, Covered;
      var y := Erased(p, mode);
      Grid(p);
      PowAdd(p.q, y, p.t - 1 - y);
      DivMod(Pow(p.q, p.t - 1), p.q, 0);
    }

    ghost function EndOf(ranges: seq<(nat, nat)>, i: nat): nat
      requires i <= |ranges|
    {
      if i == 0 then 0 else ranges[i - 1].0 + ranges[i - 1].1
    }

    lemma GapInactive(mode: Mode, ranges: seq<(nat, nat)>, i: nat)
      requires Ready() && ModeFits(p, mode) && !mode.Layered? && RangesOf(mode, ranges) && i <= |ranges|
      ensures var to := if i < |ranges| then ranges[i].0 else p.w;
              EndOf(ranges, i) <= to && forall z: nat | EndOf(ranges, i) <= z < to :: z < p.w ==> !Active(p, mode, z)
    {
      hide Field, Inverts, MapsRight, IdenticalRight, Active;
      var to := if i < |ranges| then ranges[i].0 else p.w;
      forall z: nat | EndOf(ranges, i) <= z < to && z < p.w ensures !Active(p, mode, z) {
        if Covered(ranges, z) {
          var j :| 0 <= j < |ranges| && ranges[j].0 <= z < ranges[j].0 + ranges[j].1;
          RangeNotAt(mode, ranges, i, j, z);
        }
      }
    }

    lemma RangeNotAt(mode: Mode, ranges: seq<(nat, nat)>, i: nat, j: nat, z: nat)
      requires Ready() && ModeFits(p, mode) && !mode.Layered? && RangesOf(mode, ranges) && i <= |ranges| && j < |ranges|
      ensures EndOf(ranges, i) <= z < (if i < |ranges| then ranges[i].0 else p.w) ==> !(ranges[j].0 <= z < ranges[j].0 + ranges[j].1)
    {
      hide Field, Inverts, MapsRight, IdenticalRight, Active, Covered;
      if j < i && j != i - 1 { assert ranges[j].0 + ranges[j].1 <= ranges[i - 1].0; }
      if i < j { assert ranges[i].0 + ranges[i].1 <= ranges[j].0; }
    }

    lemma InRangeActive(mode: Mode, ranges: seq<(nat, nat)>, i: nat, j: nat)
      requires Ready() && ModeFits(p, mode) && !mode.Layered? && RangesOf(mode, ranges) && i < |ranges| && ranges[i].0 <= j < ranges[i].0 + ranges[i].1
      ensures j < p.w && Active(p, mode, j)
    {
      hide Field, Inverts, MapsRight, IdenticalRight, Active;
      assert Covered(ranges, j);
    }

    function PlanesAt(ordered_planes: map<int, seq<nat>>, order: int): seq<nat> {
      if order in ordered_planes then ordered_planes[order] else []
    }

    /** src/ec/Clay.cc:1974-2029: with one lost node every plane to repair has order 1. */
    method OrderPlanes(ranges: seq<(nat, nat)>, lost: nat) returns (ordered_planes: map<int, seq<nat>>)
      requires Ready() && ModeFits(p, Repairing(lost)) && RangesOf(Repairing(lost), ranges)
      ensures ordered_planes.Keys <= {1} && IsPlan(Repairing(lost), PlanesAt(ordered_planes, 1))
      ensures |PlanesAt(ordered_planes, 1)| == p.w / p.q
    {
      hide *;
      Fits0();
      ghost var mode := Repairing(lost);
      ghost var size := Pow(p.q, p.t - 1 - Erased(p, mode));
      var repair_subchunks := p.w / p.q;
      PlaneCount(mode, ranges);
      ordered_planes := map[];
      var plane_ind := 0;
      NoPlan(mode, ranges);
      for i := 0 to |ranges|
        invariant PlannedSoFar(mode, ordered_planes, EndOf(ranges, i), plane_ind) && plane_ind == i * size
      {
        var index, count := ranges[i].0, ranges[i].1;
        GapInactive(mode, ranges, i);
        EndNext(ranges, i);
        PlanSkip(mode, ordered_planes, EndOf(ranges, i), index, plane_ind);
        for j := index to index + count
          invariant PlannedSoFar(mode, ordered_planes, j, plane_ind) && plane_ind == i * size + (j - index)
        {
          InRangeActive(mode, ranges, i, j);
          var order := OrderOf(j, lost);
          PlanOne(mode, ordered_planes, j, plane_ind);
          if order !in ordered_planes {
            assert [] + [j] == [j];
            ordered_planes := ordered_planes[order := [j]];
          } else {
            ordered_planes := ordered_planes[order := ordered_planes[order] + [j]];
          }
          plane_ind := plane_ind + 1;
        }
        assert (i + 1) * size == i * size + size;
      }
      assert plane_ind == repair_subchunks;
      GapInactive(mode, ranges, |ranges|);
      PlanSkip(mode, ordered_planes, EndOf(ranges, |ranges|), p.w, plane_ind);
      PlanWhole(mode, ordered_planes, plane_ind);
    }

    /** The planes below limit that are to be repaired have been filed under order 1. */
    ghost predicate PlannedSoFar(mode: Mode, ordered_planes: map<int, seq<nat>>, limit: nat, count: nat)
      requires Ready() && ModeFits(p, mode)
    {
      ordered_planes.Keys <= {1} && |PlanesAt(ordered_planes, 1)| == count && PlannedBelow(mode, PlanesAt(ordered_planes, 1), limit)
    }

    lemma EndNext(ranges: seq<(nat, nat)>, i: nat)
      requires i < |ranges|
      ensures EndOf(ranges, i + 1) == ranges[i].0 + ranges[i].1
    {}

    lemma NoPlan(mode: Mode, ranges: seq<(nat, nat)>)
      requires Ready() && ModeFits(p, mode)
      ensures PlannedSoFar(mode, map[], EndOf(ranges, 0), 0)
    {
      hide Field, Inverts, MapsRight, IdenticalRight, Active;
    }

    lemma PlanWhole(mode: Mode, ordered_planes: map<int, seq<nat>>, count: nat)
      requires Ready() && ModeFits(p, mode) && PlannedSoFar(mode, ordered_planes, p.w, count)
      ensures ordered_planes.Keys <= {1} && |PlanesAt(ordered_planes, 1)| == count && IsPlan(mode, PlanesAt(ordered_planes, 1))
    {
      hide Field, Inverts, MapsRight, IdenticalRight, Active;
    }

    method OrderOf(j: nat, lost: nat) returns (order: nat)
      requires Ready() && ModeFits(p, Repairing(lost)) && Active(p, Repairing(lost), j)
      ensures order == 1
    {
      hide Field, Inverts, MapsRight, IdenticalRight, Digits;
      NodeFits(p, lost);
      var z_vec := GetPlaneVector(p.q, p.t, j);
      order := 0;
      if lost % p.q == z_vec[lost / p.q] {
        order := order + 1;
      }
    }

    ghost function NextRound(planes: seq<nat>, i: nat): nat {
      if i < |planes| then planes[i] else p.w
    }

    lemma PlaneFacts(mode: Mode, planes: seq<nat>, i: nat)
      requires Ready() && ModeFits(p, mode) && IsPlan(mode, planes) && i < |planes|
      ensures planes[i] < p.w && Active(p, mode, planes[i])
      ensures NextRound(planes, i + 1) != planes[i] && NextRound(planes, i + 1) !in Range(planes, i)
      ensures NextRound(planes, i) == planes[i]
    {
      hide Field, Inverts, MapsRight, IdenticalRight, Active;
    }

    lemma AllRepaired(mode: Mode, planes: seq<nat>, joined: set<Sub>)
      requires Ready() && ModeFits(p, mode) && mode.Repairing? && IsPlan(mode, planes)
      requires Stands(p, mode, Stage(Range(planes, |planes|), p.w, 0, {}), joined)
      ensures forall s | InCode(p, s) && KindOf(p, mode, s) != Nothing :: s in joined
    {
      hide Field, Inverts, MapsRight, IdenticalRight, Group, At, Digit;
      var st := Stage(Range(planes, |planes|), p.w, 0, {});
      forall s | InCode(p, s) && KindOf(p, mode, s) != Nothing ensures s in joined {
        RoundActive(mode, s);
        WholeRange(planes);
        assert Round(p, mode, s) in planes;
        assert Past(p, mode, st, s);
      }
    }

    lemma RoundActive(mode: Mode, s: Sub)
      requires Ready() && ModeFits(p, mode) && mode.Repairing? && InCode(p, s) && KindOf(p, mode, s) != Nothing
      ensures Round(p, mode, s) < p.w && Active(p, mode, Round(p, mode, s))
    {
      hide Field, Inverts, MapsRight, IdenticalRight, Digit, Partner;
      NodeFits(p, mode.lost);
      PartnerIn(p, s);
      if KindOf(p, mode, s) == FromHelper { HelperOf(p, mode, s); }
    }

    /** src/ec/Clay.cc:1949-2208, without aloof nodes; the sorted list of orders is [1]. */
    method RepairOneLostChunk(lost_chunk: nat, helper_data: set<nat>, ranges: seq<(nat, nat)>, dag: E.ECDAG<F>)
      requires Ready() && ModeFits(p, Repairing(lost_chunk)) && RangesOf(Repairing(lost_chunk), ranges)
      requires forall node: nat | node < p.Total() && node != lost_chunk :: node in helper_data
      requires dag.Valid() && dag.nodes == map[]
      modifies dag
      ensures Built(dag, Repairing(lost_chunk))
    {
      hide *;
      Fits0();
      ghost var mode := Repairing(lost_chunk);
      var ordered_planes := OrderPlanes(ranges, lost_chunk);
      var erasures := ErasuresOf(lost_chunk);
      ghost var joined: set<Sub> := {};
      var planes := PlanesAt(ordered_planes, 1);
      NothingJoined(p, f, invert, mode, NextRound(planes, 0));
      BuildingWhole(dag, mode, Stage({}, NextRound(planes, 0), 0, {}), joined);
      SeenSoFar(planes, Stage({}, 0, 0, {}));
      for i := 0 to |planes|
        invariant Building(dag, mode, Stage(Range(planes, i), NextRound(planes, i), 0, {}), joined)
      {
        PlaneFacts(mode, planes, i);
        joined := RepairPlane(dag, erasures, helper_data, planes[i], mode, Range(planes, i), NextRound(planes, i + 1), joined);
        RangeNext(planes, i);
      }
      LastRound(planes);
      BuildingParts(dag, mode, Stage(Range(planes, |planes|), p.w, 0, {}), joined);
      AllRepaired(mode, planes, joined);
      AllBuilt(dag, mode, joined);
    }

    lemma LastRound(planes: seq<nat>)
      ensures NextRound(planes, |planes|) == p.w
    {}

    /** src/ec/Clay.cc:2041-2044 */
    method ErasuresOf(lost_chunk: nat) returns (erasures: seq<nat>)
      requires Ready() && ModeFits(p, Repairing(lost_chunk))
      ensures erasures == Column(p, Erased(p, Repairing(lost_chunk)))
    {
      hide Field, Inverts, MapsRight, IdenticalRight;
      NodeFits(p, lost_chunk);
      erasures := [];
      for i := 0 to p.q
        invariant |erasures| == i && forall j | 0 <= j < i :: erasures[j] == lost_chunk - lost_chunk % p.q + j
      {
        erasures := erasures + [lost_chunk - lost_chunk % p.q + i];
      }
    }

    // -------------------------------------------------------------------------------------------
    // Decode

    /** A real node by its number among shortened nodes. */
    function ShortNode(i: nat): nat {
      if i < p.k then i else i + p.nu
    }

    lemma ShortNodeFits(i: nat)
      requires Ready() && i < p.n
      ensures ModeFits(p, Repairing(ShortNode(i))) && ShortNode(i) < p.Total() && Real(p, ShortNode(i)) == i
    {
      hide Field, Inverts, MapsRight, IdenticalRight;
    }

    /** Whether Decode takes the single-node repair: no shortened node of the column is numbered below nu. */
    ghost predicate RepairPath(i: nat)
      requires Ready() && i < p.n
    {
      Fits0();
      forall x | 0 <= x < p.q :: ColumnMate(i, x) < p.k || p.nu <= ColumnMate(i, x)
    }

    function ColumnMate(i: nat, x: nat): nat
      requires 0 < p.q
    {
      ShortNode(i) / p.q * p.q + x
    }

    /** Which single-node repairs the check lets through: all of them if there are at least as many data nodes as
        shortened ones, and otherwise those of nodes outside the first column. */
    lemma RepairPathIff(i: nat)
      requires Ready() && i < p.n
      ensures RepairPath(i) <==> p.nu <= p.k || p.q <= ShortNode(i)
    {
      hide Field, Inverts, MapsRight, IdenticalRight;
      Fits0();
      if p.k < p.nu {
        if p.q <= ShortNode(i) {
          forall x | 0 <= x < p.q ensures p.nu <= ColumnMate(i, x) {
            LaterColumn(ShortNode(i), p.q);
          }
        } else {
          FirstColumn(ShortNode(i), p.q);
          assert ColumnMate(i, p.k) == p.k;
        }
      }
    }

    lemma LaterColumn(node: nat, q: nat)
      requires 0 < q <= node
      ensures node / q * q >= q
    {
      assert node / q >= 1;
    }

    lemma FirstColumn(node: nat, q: nat)
      requires node < q
      ensures node / q * q == 0
    {
      assert node / q == 0;
    }

    /** All nodes but i, counting shortened nodes last (src/ec/Clay.cc:1816-1821). */
    ghost predicate IsAvail(avail: seq<nat>, i: nat) {
      && |avail| == p.Total() - 1
      && forall j | 0 <= j < |avail| :: avail[j] == if j < i then j else j + 1
    }

    /** What Decode can be asked for: one to n - k different real nodes. */
    ghost predicate Wanted(want_to_read: seq<nat>) {
      && 0 < |want_to_read| <= p.q && Distinct(want_to_read)
      && forall i | 0 <= i < |want_to_read| :: want_to_read[i] < p.n
    }

    lemma WantedFits(want_to_read: seq<nat>, i: nat)
      requires Wanted(want_to_read) && i < |want_to_read|
      ensures want_to_read[i] < p.n && Distinct(want_to_read) && 0 < |want_to_read| <= p.q
    {}

    lemma SomeWanted(want_to_read: seq<nat>)
      requires Wanted(want_to_read)
      ensures 0 < |want_to_read|
    {}

    method AllOthers(want_to_read: seq<nat>) returns (avail: seq<nat>)
      requires Ready()
      ensures avail == Outside(SetOf(want_to_read), p.Total())
    {
      hide *;
      Fits0();
      FewerRows();
      avail := [];
      OutsideStep(SetOf(want_to_read), 0);
      for j := 0 to p.k + p.nu + p.q
        invariant avail == Outside(SetOf(want_to_read), j)
      {
        OutsideStep(SetOf(want_to_read), j);
        InSetOf(want_to_read, j);
        if j !in want_to_read {
          avail := avail + [j];
        }
      }
    }

    lemma {:induction false} OthersOfOne(i: nat, m: nat)
      ensures var r := Outside({i}, m); |r| == (if m <= i then m else m - 1) && forall j | 0 <= j < |r| :: r[j] == if j < i then j else j + 1
    {
      if m > 0 { OthersOfOne(i, m - 1); }
    }

    lemma OneLeft(want_to_read: seq<nat>)
      requires Ready() && Wanted(want_to_read) && |want_to_read| == 1
      ensures want_to_read[0] < p.n && IsAvail(Outside(SetOf(want_to_read), p.Total()), want_to_read[0])
    {
      hide Field, Inverts, MapsRight, IdenticalRight, Outside;
      assert SetOf(want_to_read) == {want_to_read[0]};
      OthersOfOne(want_to_read[0], p.Total());
    }

    lemma InAvail(avail: seq<nat>, i: nat, node: int)
      requires Ready() && i < p.n && IsAvail(avail, i)
      ensures node in avail <==> 0 <= node < p.Total() && node != i
    {
      hide Field, Inverts, MapsRight, IdenticalRight;
      if 0 <= node < p.Total() && node != i {
        assert avail[if node < i then node else node - 1] == node;
      }
      if node in avail {
        var j := ElementIndex(avail, node);
      }
    }

    lemma ElementIndex(s: seq<nat>, v: int) returns (j: nat)
      requires v in s
      ensures j < |s| && s[j] == v
    {
      j :| 0 <= j < |s| && s[j] == v;
    }

    /** Whether Decode takes a repair: for several nodes, if they leave a node of their column, the first counted with
        the shortened nodes and the others without. */
    ghost predicate Repairable(want_to_read: seq<nat>)
      requires Ready() && Wanted(want_to_read)
    {
      WantedFits(want_to_read, 0);
      if |want_to_read| == 1 then RepairPath(want_to_read[0])
      else |want_to_read| < p.q && forall i | 1 <= i < |want_to_read| :: want_to_read[i] / p.q == ShortNode(want_to_read[0]) / p.q
    }

    /** src/ec/Clay.cc:1587-1635 */
    method IsRepair(want_to_read: seq<nat>, avail: seq<nat>) returns (r: bool)
      requires Ready() && Wanted(want_to_read) && avail == Outside(SetOf(want_to_read), p.Total())
      ensures r <==> Repairable(want_to_read)
    {
      hide Field, Inverts, MapsRight, IdenticalRight, Outside, SetOf, RepairPath;
      Fits0();
      WantedFits(want_to_read, 0);
      if |want_to_read| == 1 {
        OneLeft(want_to_read);
        r := IsRepairOfOne(want_to_read[0], avail);
      } else if |want_to_read| <= p.q - 1 {
        var lost_node_index := if want_to_read[0] < p.k then want_to_read[0] else want_to_read[0] + p.nu;
        var y_lost := lost_node_index / p.q;
        for i := 1 to |want_to_read|
          invariant forall j | 1 <= j < i :: want_to_read[j] / p.q == y_lost
        {
          if want_to_read[i] / p.q != y_lost {
            return false;
          }
        }
        r := true;
      } else {
        r := false;
      }
    }

    /** src/ec/Clay.cc:1590-1605 */
    method IsRepairOfOne(i: nat, avail: seq<nat>) returns (r: bool)
      requires Ready() && i < p.n && IsAvail(avail, i)
      ensures r <==> RepairPath(i)
    {
      hide Field, Inverts, MapsRight, IdenticalRight;
      Fits0();
      ShortNodeFits(i);
      FewerRows();
      var lost_node_id := if i < p.k then i else i + p.nu;
      for x := 0 to p.q
        invariant forall x' | 0 <= x' < x :: ColumnMate(i, x') < p.k || p.nu <= ColumnMate(i, x')
      {
        var short := lost_node_id / p.q * p.q + x;
        var node: int := if short < p.k then short else short - p.nu;
        InAvail(avail, i, node);
        MateFits(i, x);
        if node != i && node !in avail {
          assert !(ColumnMate(i, x) < p.k || p.nu <= ColumnMate(i, x));
          return false;
        }
      }
      var d := p.n - 1;
      r := |avail| >= d;
    }

    lemma MateFits(i: nat, x: nat)
      requires Ready() && i < p.n && x < p.q
      ensures 0 < p.q && ColumnMate(i, x) < p.Total()
    {
      hide Field, Inverts, MapsRight, IdenticalRight;
      ShortNodeFits(i);
      NodeFits(p, ShortNode(i));
      NodeAtFits(p, x, ShortNode(i) / p.q);
    }

    ghost function Helpers(i: nat): set<nat> {
      Upto(p.n) - {i}
    }

    lemma {:induction false} UptoSize(n: nat)
      ensures |Upto(n)| == n
    {
      if n > 0 {
        UptoSize(n - 1);
        UptoHas(n - 1, n - 1);
      }
    }

    lemma HelperFacts(i: nat)
      requires i < p.n
      ensures |Helpers(i)| == p.n - 1 && forall v: nat :: v in Helpers(i) <==> v < p.n && v != i
    {
      UptoSize(p.n);
      UptoHas(p.n, i);
      forall v: nat ensures v in Upto(p.n) <==> v < p.n { UptoHas(p.n, v); }
    }

    /** src/ec/Clay.cc:1678-1714, for one lost node: every other real node becomes a helper. */
    method MinimumToRepair(i: nat, available_chunks: seq<nat>) returns (minimum: set<nat>)
      requires Ready() && i < p.n && IsAvail(available_chunks, i)
      ensures minimum == Helpers(i)
    {
      hide Field, Inverts, MapsRight, IdenticalRight, Helpers;
      Fits0();
      FewerRows();
      var d := p.n - 1;
      var lost_node_index := if i < p.k then i else i + p.nu;
      minimum := {};
      HelperFacts(i);
      if |available_chunks| >= d {
        for j := 0 to p.q
          invariant minimum <= Helpers(i)
        {
          MateFits(i, j);
          MateApart(i, j);
          if j != lost_node_index % p.q {
            var rep_node_index := lost_node_index / p.q * p.q + j;
            if rep_node_index < p.k {
              minimum := minimum + {rep_node_index};
            } else if rep_node_index >= p.k + p.nu {
              minimum := minimum + {rep_node_index - p.nu};
            }
          }
        }
        minimum := FillUp(i, available_chunks, minimum);
      }
    }

    lemma MateApart(i: nat, j: nat)
      requires Ready() && i < p.n && j < p.q
      ensures 0 < p.q && (ColumnMate(i, j) == ShortNode(i) <==> j == ShortNode(i) % p.q)
    {
      hide Field, Inverts, MapsRight, IdenticalRight;
      ShortNodeFits(i);
      NodeFits(p, ShortNode(i));
    }

    /** src/ec/Clay.cc:1704-1711 */
    method FillUp(i: nat, available_chunks: seq<nat>, minimum0: set<nat>) returns (minimum: set<nat>)
      requires Ready() && i < p.n && IsAvail(available_chunks, i) && minimum0 <= Helpers(i)
      ensures minimum == Helpers(i)
    {
      hide Field, Inverts, MapsRight, IdenticalRight, Helpers;
      Fits0();
      FewerRows();
      HelperFacts(i);
      minimum := minimum0;
      var d := p.n - 1;
      for j := 0 to |available_chunks|
        invariant minimum <= Helpers(i)
        invariant forall v: nat | v < Reached(i, j) && v < p.n && v != i :: v in minimum
      {
        EnoughHelpers(i, j, minimum);
        if |minimum| >= d {
          break;
        }
        var chunk := available_chunks[j];
        minimum := minimum + {chunk};
      }
      if |minimum| < d {
        EnoughHelpers(i, |available_chunks|, minimum);
      }
      SubsetSize(minimum, Helpers(i));
      SameSize(minimum, Helpers(i));
    }

    lemma EnoughHelpers(i: nat, j: nat, minimum: set<nat>)
      requires i < p.n && minimum <= Helpers(i) && forall v: nat | v < Reached(i, j) && v < p.n && v != i :: v in minimum
      ensures Reached(i, j) >= p.n ==> |minimum| >= p.n - 1
      ensures |minimum| <= p.n - 1
    {
      HelperFacts(i);
      SubsetSize(minimum, Helpers(i));
      if Reached(i, j) >= p.n {
        assert Helpers(i) <= minimum;
        SubsetSize(Helpers(i), minimum);
      }
    }

    /** The next node after the first j that are available. */
    ghost function Reached(i: nat, j: nat): nat {
      if j < i then j else j + 1
    }

    /** Who helps, in shortened numbering (src/ec/Clay.cc:1887-1911). */
    method Roles(chunks: set<nat>, ghost lost: nat) returns (helper_data: set<nat>, recovered: nat, ranges: seq<(nat, nat)>)
      requires Ready() && lost < p.n && chunks == Helpers(lost)
      ensures recovered == ShortNode(lost) && ModeFits(p, Repairing(recovered)) && RangesOf(Repairing(recovered), ranges)
      ensures forall node: nat | node < p.Total() && node != recovered :: node in helper_data
    {
      hide *;
      Fits0();
      HelperFacts(lost);
      helper_data := {};
      recovered, ranges := 0, [];
      NoHelpers(lost);
      for i := 0 to p.n
        invariant Helping(helper_data, lost, i)
        invariant i > lost ==> recovered == ShortNode(lost) && ModeFits(p, Repairing(recovered)) && RangesOf(Repairing(recovered), ranges)
      {
        HelpingMore(helper_data, lost, i);
        if i in chunks {
          helper_data := helper_data + {if i < p.k then i else i + p.nu};
        } else {
          recovered := if i < p.k then i else i + p.nu;
          ShortNodeFits(i);
          Grid(p);
          ranges := GetRepairSubchunks(p.q, p.t, recovered);
          RangesAreOf(recovered, ranges);
        }
      }
      ghost var before := helper_data;
      for i := p.k to p.k + p.nu
        invariant before <= helper_data && forall v: nat | p.k <= v < i :: v in helper_data
      {
        helper_data := helper_data + {i};
      }
      AllHelp(before, helper_data, lost);
    }

    ghost predicate Helping(helper_data: set<nat>, lost: nat, i: nat) {
      forall v: nat | v < i && v != lost :: ShortNode(v) in helper_data
    }

    lemma NoHelpers(lost: nat)
      ensures Helping({}, lost, 0)
    {}

    lemma HelpingMore(helper_data: set<nat>, lost: nat, i: nat)
      requires Helping(helper_data, lost, i)
      ensures Helping(helper_data + {if i < p.k then i else i + p.nu}, lost, i + 1)
      ensures i == lost ==> Helping(helper_data, lost, i + 1)
      ensures ShortNode(i) == if i < p.k then i else i + p.nu
    {}

    lemma AllHelp(before: set<nat>, helper_data: set<nat>, lost: nat)
      requires Ready() && lost < p.n && Helping(before, lost, p.n) && before <= helper_data
      requires forall v: nat | p.k <= v < p.k + p.nu :: v in helper_data
      ensures forall node: nat | node < p.Total() && node != ShortNode(lost) :: node in helper_data
    {
      hide Field, Inverts, MapsRight, IdenticalRight;
      forall node: nat | node < p.Total() && node != ShortNode(lost) ensures node in helper_data {
        if node < p.k { assert ShortNode(node) in before; }
        else if node >= p.k + p.nu { assert ShortNode(node - p.nu) in before; }
      }
    }

    lemma RangesAreOf(lost: nat, ranges: seq<(nat, nat)>)
      requires Ready() && ModeFits(p, Repairing(lost))
      requires forall i | 0 <= i < |ranges| :: 0 < ranges[i].1 && ranges[i].0 + ranges[i].1 <= Pow(p.q, p.t)
      requires forall i, j | 0 <= i < j < |ranges| :: ranges[i].0 + ranges[i].1 <= ranges[j].0
      requires 0 < p.q && lost / p.q < p.t && |ranges| == Pow(p.q, lost / p.q)
      requires forall i | 0 <= i < |ranges| :: ranges[i].1 == Pow(p.q, p.t - 1 - lost / p.q)
      requires forall z: nat :: Covered(ranges, z) <==> z < Pow(p.q, p.t) && lost / p.q < p.t && Digits(p.q, p.t, z)[lost / p.q] == lost % p.q
      ensures RangesOf(Repairing(lost), ranges)
    {
      hide Field, Inverts, MapsRight, IdenticalRight, Covered, Digits, Pow;
      Grid(p);
    }

    lemma {:induction false} OutsideRises(erased: set<nat>, m: nat)
      ensures Rising(Outside(erased, m))
    {
      if m > 0 { OutsideRises(erased, m - 1); }
    }

    lemma EnoughLeft(want_to_read: seq<nat>)
      requires Ready() && Wanted(want_to_read)
      ensures var avail := Outside(SetOf(want_to_read), p.Total());
              p.k <= |avail| && Distinct(avail[..p.k]) && forall j | 0 <= j < p.k :: avail[j] < p.n && avail[j] !in want_to_read
    {
      hide Field, Inverts, MapsRight, IdenticalRight, Outside, SetOf;
      var lost := SetOf(want_to_read);
      OutsideSize(lost, p.n);
      SetOfSize(want_to_read);
      SubsetSize((set node | node in lost && node < p.n), lost);
      OutsidePrefix(lost, p.n, p.Total());
      OutsideRises(lost, p.Total());
      var avail, below := Outside(lost, p.Total()), Outside(lost, p.n);
      forall j | 0 <= j < p.k ensures avail[j] < p.n && avail[j] !in want_to_read {
        assert avail[..|below|][j] == below[j];
        InSetOf(want_to_read, avail[j]);
      }
    }

    /** The first k nodes that are left (src/ec/Clay.cc:2289-2321); as nothing that is wanted is left, includes is false. */
    method RsMinimumToDecode(ghost want_to_read: seq<nat>, available: seq<nat>) returns (minimum: set<nat>)
      requires Ready() && Wanted(want_to_read) && available == Outside(SetOf(want_to_read), p.Total())
      ensures p.k <= |available| && minimum == SetOf(available[..p.k])
    {
      hide *;
      EnoughLeft(want_to_read);
      minimum := {};
      NoneOf(available);
      for j := 0 to p.k
        invariant minimum == SetOf(available[..j])
      {
        SetOfNext(available, j);
        minimum := minimum + {available[j]};
      }
    }

    lemma NoneOf(s: seq<nat>)
      ensures SetOf(s[..0]) == {}
    {}

    /** The erased nodes when real nodes chunks are read. */
    ghost predicate ErasedBut(erased: set<nat>, chunks: set<nat>) {
      && (forall i: nat | i < p.n :: ShortNode(i) in erased <==> i !in chunks)
      && (forall v | v in erased :: v < p.k || p.k + p.nu <= v)
    }

    /** The list erasures when nodes below i have been looked at. */
    ghost predicate ErasuresAt(erasures: seq<nat>, chunks: set<nat>, i: nat) {
      && |erasures| == |Outside(chunks, i)|
      && forall j | 0 <= j < |erasures| :: erasures[j] == ShortNode(Outside(chunks, i)[j])
    }

    lemma ErasuresMore(erasures: seq<nat>, chunks: set<nat>, i: nat)
      requires ErasuresAt(erasures, chunks, i)
      ensures ErasuresAt(if i in chunks then erasures else erasures + [if i < p.k then i else i + p.nu], chunks, i + 1)
    {}

    lemma ErasuresWhole(erasures: seq<nat>, chunks: set<nat>)
      requires Ready() && ErasuresAt(erasures, chunks, p.n) && |chunks| == p.k && forall v | v in chunks :: v < p.n
      ensures ErasedList(p, erasures) && Rising(erasures)
    {
      hide Field, Inverts, MapsRight, IdenticalRight, Outside;
      OutsideSize(chunks, p.n);
      assert (set node | node in chunks && node < p.n) == chunks;
      OutsideRises(chunks, p.n);
    }

    lemma ErasuresAre(erasures: seq<nat>, chunks: set<nat>)
      requires Ready() && ErasuresAt(erasures, chunks, p.n)
      ensures ErasedBut(SetOf(erasures), chunks)
    {
      hide Field, Inverts, MapsRight, IdenticalRight, SetOf;
      var lines := Outside(chunks, p.n);
      forall i: nat | i < p.n ensures ShortNode(i) in SetOf(erasures) <==> i !in chunks {
        InSetOf(erasures, ShortNode(i));
        if i !in chunks {
          OutsideSize(chunks, p.n);
          var j := ElementIndex(lines, i);
          assert erasures[j] == ShortNode(i);
        }
        if ShortNode(i) in erasures {
          var j := ElementIndex(erasures, ShortNode(i));
          assert lines[j] == i;
        }
      }
      forall v | v in SetOf(erasures) ensures v < p.k || p.k + p.nu <= v {
        InSetOf(erasures, v);
        var j := ElementIndex(erasures, v);
      }
    }

    /** src/ec/Clay.cc:2324-2420: all real nodes that are not read count as erased, and the layered decoder gets them in
        ascending order. Nothing that is wanted is read, so nothing is copied. */
    method RsDecode(chunks: set<nat>, dag: E.ECDAG<F>) returns (ghost erased: set<nat>)
      requires Ready() && |chunks| == p.k && (forall v | v in chunks :: v < p.n) && dag.Valid() && dag.nodes == map[]
      modifies dag
      ensures ErasedBut(erased, chunks) && ModeFits(p, Layered(erased)) && Built(dag, Layered(erased))
    {
      hide *;
      var erasures := Erasures(chunks);
      ErasuresWhole(erasures, chunks);
      ErasuresAre(erasures, chunks);
      erased := SetOf(erasures);
      DecodeLayered(erasures, dag);
    }

    /** src/ec/Clay.cc:2396-2405 */
    method Erasures(chunks: set<nat>) returns (erasures: seq<nat>)
      requires Ready()
      ensures ErasuresAt(erasures, chunks, p.n)
    {
      hide *;
      erasures := [];
      NoErasures(chunks);
      for i := 0 to p.n
        invariant ErasuresAt(erasures, chunks, i)
      {
        ErasuresMore(erasures, chunks, i);
        if i !in chunks {
          erasures := erasures + [if i < p.k then i else i + p.nu];
        }
      }
    }

    lemma NoErasures(chunks: set<nat>)
      ensures ErasuresAt([], chunks, 0)
    {}

    /** The nodes that are read where a repair is refused. */
    ghost function FirstLeft(want_to_read: seq<nat>): (r: set<nat>)
      requires Ready() && Wanted(want_to_read)
      ensures |r| == p.k && forall v | v in r :: v < p.n && v !in want_to_read
    {
      EnoughLeft(want_to_read);
      var first := Outside(SetOf(want_to_read), p.Total())[..p.k];
      SetOfSize(first);
      SetOf(first)
    }

    lemma LostErased(want_to_read: seq<nat>, erased: set<nat>, i: nat)
      requires Ready() && Wanted(want_to_read) && ErasedBut(erased, FirstLeft(want_to_read)) && i < |want_to_read|
      ensures ShortNode(want_to_read[i]) in erased
    {
      hide Field, Inverts, MapsRight, IdenticalRight, FirstLeft, ShortNode;
      WantedFits(want_to_read, i);
    }

    /** The sub-packets of the blocks in lost, block after block. */
    ghost predicate SubPackets(to: seq<int>, lost: seq<nat>) {
      && |to| == Flat(|lost|, p.w, 0)
      && forall b: nat, z: nat | b < |lost| && z < p.w :: 0 <= Flat(b, p.w, z) < |to| && to[Flat(b, p.w, z)] == Flat(lost[b], p.w, z)
    }

    /** src/ec/Clay.cc:1793-1947 for the sub-packets of up to n - k lost blocks. A single one is repaired on its own
        exactly if the check lets it through. Where the check refuses, all nodes but the first k that are left count as
        erased, and the layered decoder brings back each of them. What the code does for several nodes that the
        check lets through is not part of this model; the DAG is handed on empty there. */
    method Decode(to: seq<int>, ghost lost: seq<nat>) returns (repaired: bool, dag: E.ECDAG<F>, ghost erased: set<nat>)
      requires Ready() && Wanted(lost) && SubPackets(to, lost)
      ensures fresh(dag) && (repaired <==> Repairable(lost))
      ensures |lost| == 1 ==> (repaired <==> p.nu <= p.k || p.q <= ShortNode(lost[0])) && ModeFits(p, Repairing(ShortNode(lost[0])))
      ensures repaired && |lost| == 1 ==> Built(dag, Repairing(ShortNode(lost[0])))
      ensures repaired && |lost| > 1 ==> dag.Valid() && dag.nodes == map[]
      ensures !repaired ==> ModeFits(p, Layered(erased)) && Built(dag, Layered(erased)) && ErasedBut(erased, FirstLeft(lost))
    {
      hide *;
      Fits0();
      SomeWanted(lost);
      WantedFits(lost, 0);
      ShortNodeFits(lost[0]);
      if |lost| == 1 { RepairableOne(lost); }
      dag := new E.ECDAG<F>();
      erased := {};
      var want_to_read := NodesOf(to, lost);
      var avail := AllOthers(want_to_read);
      repaired := IsRepair(want_to_read, avail);
      if !repaired {
        var chunks := RsMinimumToDecode(want_to_read, avail);
        FirstLeftIs(lost);
        erased := RsDecode(chunks, dag);
      } else if |want_to_read| == 1 {
        OneLeft(want_to_read);
        var minimum_map := MinimumToRepair(want_to_read[0], avail);
        var helper_data, recovered, repair_sub_chunks_ind := Roles(minimum_map, lost[0]);
        RepairOneLostChunk(recovered, helper_data, repair_sub_chunks_ind, dag);
      }
    }

    lemma RepairableOne(lost: seq<nat>)
      requires Ready() && Wanted(lost) && |lost| == 1
      ensures Repairable(lost) <==> p.nu <= p.k || p.q <= ShortNode(lost[0])
    {
      hide Field, Inverts, MapsRight, IdenticalRight, RepairPath;
      WantedFits(lost, 0);
      RepairPathIff(lost[0]);
    }

    lemma FirstLeftIs(want_to_read: seq<nat>)
      requires Ready() && Wanted(want_to_read)
      ensures p.k <= |Outside(SetOf(want_to_read), p.Total())| && FirstLeft(want_to_read) == SetOf(Outside(SetOf(want_to_read), p.Total())[..p.k])
    {
      hide Field, Inverts, MapsRight, IdenticalRight, Outside, SetOf;
      EnoughLeft(want_to_read);
    }

    /** src/ec/Clay.cc:1802-1805 */
    method NodesOf(to: seq<int>, ghost lost: seq<nat>) returns (want_to_read: seq<nat>)
      requires Ready() && Wanted(lost) && SubPackets(to, lost)
      ensures want_to_read == lost
    {
      hide Field, Inverts, MapsRight, IdenticalRight, Flat;
      Fits0();
      FitsFacts(p);
      want_to_read := [];
      var i := 0;
      FlatNext(0, p.w);
      while i < |to|
        invariant |want_to_read| <= |lost| && want_to_read == lost[..|want_to_read|] && i == Flat(|want_to_read|, p.w, 0)
        decreases |lost| - |want_to_read|
      {
        ghost var b := |want_to_read|;
        FlatNext(b, p.w);
        assert to[Flat(b, p.w, 0)] == Flat(lost[b], p.w, 0);
        NodeOfPacket(lost[b], p.w);
        want_to_read := want_to_read + [to[i] / p.w];
        i := i + p.w;
      }
      PacketAt(to, lost, |want_to_read|);
    }

    lemma PacketAt(to: seq<int>, lost: seq<nat>, b: nat)
      requires SubPackets(to, lost) && 0 < p.w
      ensures b < |lost| ==> Flat(b, p.w, 0) < |to|
    {
      hide Flat;
      if b < |lost| { assert 0 <= Flat(b, p.w, 0); }
    }

    lemma FlatNext(b: nat, w: nat)
      ensures Flat(b, w, 0) >= 0 && Flat(b + 1, w, 0) == Flat(b, w, 0) + w && Flat(0, w, 0) == 0
    {}

    lemma NodeOfPacket(node: nat, w: nat)
      requires 0 < w
      ensures Flat(node, w, 0) / w == node
    {
      DivMod(node, w, 0);
    }
  }
}
