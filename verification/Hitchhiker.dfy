/** The Hitchhiker-XOR+ code (src/ec/HHXORPlus.cc): layout, Encode, and the repairs of one data node and of
    any other nodes. */
module Hitchhikers {
  import opened Dags
  import opened Galois
  import opened HitchhikerDag
  import opened HitchhikerMany
  import opened HitchhikerRepair
  import opened HitchhikerSpec
  import E = Ecdags
  import Planes

  // ---------------------------------------------------------------------------------------------
  // Symbols

  /** Sub-packet sp of a node in one of several instances laid side by side. */
  function SymbolAt(instances: nat, instance: nat, node: nat, sp: nat): nat {
    node * (2 * instances) + (2 * instance + sp)
  }

  /** A virtual symbol, by its place: they are numbered after the sub-packets, one instance after the other. */
  function VirtualAt(p: Params, instances: nat, instance: nat, place: nat): int
    requires p.Fits()
  {
    p.n * (2 * instances) + instance * (p.Size() - 2 * p.n) + (place - 2 * p.n)
  }

  lemma SymbolOrder(instances: nat, instance: nat, a: nat, b: nat, sp: nat, sq: nat)
    requires instance < instances && sp < 2 && sq < 2 && a < b
    ensures SymbolAt(instances, instance, a, sp) < SymbolAt(instances, instance, b, sq)
  {
    Planes.Gap(a, b, 2 * instances);
  }

  lemma SymbolBound(instances: nat, instance: nat, n: nat, node: nat, sp: nat)
    requires instance < instances && sp < 2 && node < n
    ensures SymbolAt(instances, instance, node, sp) < n * (2 * instances)
  {
    Planes.Gap(node, n, 2 * instances);
  }

  /** One row of an instance's layout. */
  ghost predicate RowRight(row: seq<int>, instances: nat, instance: nat, n: nat, sp: nat) {
    |row| == n && forall node | 0 <= node < n :: row[node] == SymbolAt(instances, instance, node, sp)
  }

  lemma SymbolsDistinct(row0: seq<int>, row1: seq<int>, extra: seq<int>, instances: nat, instance: nat, n: nat, first: int)
    requires instance < instances && RowRight(row0, instances, instance, n, 0) && RowRight(row1, instances, instance, n, 1)
    requires first >= n * (2 * instances) && forall i | 0 <= i < |extra| :: extra[i] == first + i
    ensures Distinct(row0 + row1 + extra)
  {
    hide SymbolAt;
    var s := row0 + row1 + extra;
    forall i, j | 0 <= i < j < |s| ensures s[i] != s[j] {
      PlaceApart(row0, row1, extra, instances, instance, n, first, i, j);
    }
  }

  lemma PlaceApart(row0: seq<int>, row1: seq<int>, extra: seq<int>, instances: nat, instance: nat, n: nat, first: int, i: nat, j: nat)
    requires instance < instances && RowRight(row0, instances, instance, n, 0) && RowRight(row1, instances, instance, n, 1)
    requires first >= n * (2 * instances) && forall l | 0 <= l < |extra| :: extra[l] == first + l
    requires i < j < |row0 + row1 + extra|
    ensures (row0 + row1 + extra)[i] != (row0 + row1 + extra)[j]
  {
    var a, b := if i < n then i else i - n, if j < n then j else j - n;
    var sp, sq: nat := if i < n then 0 else 1, if j < n then 0 else 1;
    if i < 2 * n { SymbolBound(instances, instance, n, a, sp); }
    if j < 2 * n {
      if a < b { SymbolOrder(instances, instance, a, b, sp, sq); }
      if b < a { SymbolOrder(instances, instance, b, a, sq, sp); }
    }
  }

  /** src/ec/HHXORPlus.cc:734-772, for the instance at hand */
  method InitLayout(p: Params, num_instances: nat, instance_id: nat) returns (layout: seq<seq<int>>, symbols: seq<int>)
    requires p.Fits() && instance_id < num_instances
    ensures |layout| == 2 && |layout[0]| == |layout[1]| == p.n && Distinct(symbols) && |symbols| == p.Size()
    ensures forall sp, i | 0 <= sp < 2 && 0 <= i < p.n :: layout[sp][i] == symbols[DataAt(p, sp, i)] == SymbolAt(num_instances, instance_id, i, sp)
    ensures forall j | 2 * p.n <= j < p.Size() :: symbols[j] == VirtualAt(p, num_instances, instance_id, j)
    ensures forall sp, i | 0 <= sp < 2 && 0 <= i < p.n :: layout[sp][i] == i * (2 * num_instances) + 2 * instance_id + sp
    ensures forall j | 2 * p.n <= j < p.Size() :: symbols[j] == p.n * (2 * num_instances) + instance_id * (2 * (p.n - p.k)) + j - 2 * p.n
  {
    hide SymbolAt;
    var rows: seq<seq<int>> := [[], []];
    symbols := [];
    for sp := 0 to 2
      invariant |rows| == 2 && (sp > 0 ==> RowRight(rows[0], num_instances, instance_id, p.n, 0))
      invariant sp > 1 ==> RowRight(rows[1], num_instances, instance_id, p.n, 1)
      invariant symbols == (if sp == 0 then [] else if sp == 1 then rows[0] else rows[0] + rows[1]) && (sp == 0 ==> rows[0] == []) && (sp < 2 ==> rows[1] == [])
    {
      var row := LayoutRow(p.n, num_instances, instance_id, sp);
      rows := rows[sp := row];
      symbols := symbols + row;
    }
    var vs_id := p.n * (2 * num_instances) + instance_id * (p.Size() - 2 * p.n);
    var extra := seq(p.Size() - 2 * p.n, i => vs_id + i);
    SymbolsDistinct(rows[0], rows[1], extra, num_instances, instance_id, p.n, vs_id);
    symbols := symbols + extra;
    layout := rows;
    forall sp, i | 0 <= sp < 2 && 0 <= i < p.n ensures layout[sp][i] == i * (2 * num_instances) + 2 * instance_id + sp {
      SymbolIs(num_instances, instance_id, i, sp);
    }
  }

  lemma SymbolIs(instances: nat, instance: nat, node: nat, sp: nat)
    ensures SymbolAt(instances, instance, node, sp) == node * (2 * instances) + 2 * instance + sp
  {}

  method LayoutRow(n: nat, num_instances: nat, instance_id: nat, sp: nat) returns (row: seq<int>)
    ensures RowRight(row, num_instances, instance_id, n, sp)
  {
    row := [];
    for node_id := 0 to n
      invariant RowRight(row, num_instances, instance_id, node_id, sp)
    {
      row := row + [SymbolAt(num_instances, instance_id, node_id, sp)];
    }
  }

  // ---------------------------------------------------------------------------------------------
  // Groups and the matrix

  ghost predicate GroupsRight(p: Params, groups: map<int, seq<nat>>, m: nat)
    requires p.Fits() && m <= p.Groups()
  {
    && (forall g | 1 <= g <= m :: g in groups && groups[g] == Members(p, g))
    && (forall g | g in groups :: 1 <= g <= m)
  }

  /** src/ec/HHXORPlus.cc:33-43 */
  method GroupSizes(p: Params) returns (avg_group_size: nat, last_group_size: nat)
    requires p.Fits()
    ensures avg_group_size == Average(p) && last_group_size == End(p, p.Groups()) - Start(Average(p), p.Groups())
  {
    LastSize(p);
    var num_groups := p.Groups();
    avg_group_size := p.k / num_groups;
    last_group_size := p.k - avg_group_size * (num_groups - 1) - 1;
  }

  /** src/ec/HHXORPlus.cc:45-52 */
  method FillGroups(p: Params) returns (groups: map<int, seq<nat>>)
    requires p.Fits()
    ensures GroupsRight(p, groups, p.Groups())
  {
    hide Start, End, Average, Members, GroupsRight;
    var num_groups := p.Groups();
    var avg_group_size, last_group_size := GroupSizes(p);
    groups := map[];
    var data_idx := 0;
    FirstStart(avg_group_size);
    NoGroups(p, groups);
    for i := 0 to num_groups
      invariant GroupsRight(p, groups, i) && (i < num_groups ==> data_idx == Start(avg_group_size, i + 1))
    {
      var parity_idx := i + 1;
      var group_size := if i < num_groups - 1 then avg_group_size else last_group_size;
      GroupSizeIs(p, parity_idx, avg_group_size, last_group_size);
      var group;
      group, data_idx := NextGroup(data_idx, group_size);
      GroupsMore(p, groups, i, group);
      groups := groups[parity_idx := group];
    }
  }

  lemma NoGroups(p: Params, groups: map<int, seq<nat>>)
    requires p.Fits() && groups == map[]
    ensures GroupsRight(p, groups, 0)
  {}

  lemma GroupsMore(p: Params, groups: map<int, seq<nat>>, m: nat, group: seq<nat>)
    requires p.Fits() && m < p.Groups() && GroupsRight(p, groups, m) && |group| == |Members(p, m + 1)|
    requires forall j | 0 <= j < |group| :: group[j] == Members(p, m + 1)[j]
    ensures GroupsRight(p, groups[m + 1 := group], m + 1)
  {
    hide Members;
    assert group == Members(p, m + 1);
  }

  /** src/ec/HHXORPlus.cc:48-51 */
  method NextGroup(from: nat, group_size: nat) returns (group: seq<nat>, data_idx: nat)
    ensures |group| == group_size && data_idx == from + group_size && forall j | 0 <= j < group_size :: group[j] == from + j
  {
    group, data_idx := [], from;
    for did := 0 to group_size
      invariant data_idx == from + did && |group| == did && forall j | 0 <= j < did :: group[j] == from + j
    {
      group := group + [data_idx];
      data_idx := data_idx + 1;
    }
  }

  lemma FirstStart(avg: nat)
    ensures Start(avg, 1) == 0
  {}

  lemma LastSize(p: Params)
    requires p.Fits()
    ensures Average(p) == p.k / p.Groups()
    ensures p.k - Average(p) * (p.Groups() - 1) - 1 == End(p, p.Groups()) - Start(Average(p), p.Groups()) >= 0
  {
    GroupRange(p, p.Groups());
    StartIs(Average(p), p.Groups());
  }

  lemma GroupSizeIs(p: Params, g: nat, avg: nat, last: int)
    requires p.Fits() && 1 <= g <= p.Groups() && avg == Average(p) && last == End(p, p.Groups()) - Start(avg, p.Groups())
    ensures Start(avg, g + 1) == Start(avg, g) + avg
    ensures |Members(p, g)| == if g < p.Groups() then avg else last
    ensures forall j | 0 <= j < |Members(p, g)| :: Members(p, g)[j] == Start(avg, g) + j
  {
    hide Average;
  }

  ghost predicate MatrixRight<F(!new)>(p: Params, f: GF<F>, matrix: seq<seq<F>>) {
    |matrix| == p.n && forall r | 0 <= r < p.n :: matrix[r] == CodeRow(p, f, r)
  }

  /** src/ec/HHXORPlus.cc:28-31, 112-120 */
  method SwappedMatrix<F(!new)>(p: Params, f: GF<F>) returns (matrix: seq<seq<F>>)
    requires p.Fits()
    ensures MatrixRight(p, f, matrix)
  {
    hide Row;
    matrix := GenerateMatrix(f, p.n, p.k);
    var tmp_row := matrix[p.k];
    matrix := matrix[p.k := matrix[p.k + 1]];
    matrix := matrix[p.k + 1 := tmp_row];
  }

  /** The layout split in data and parities, and the symbols behind coupled parities. */
  ghost predicate LayoutsRight(p: Params, symbols: seq<int>, layout: seq<seq<int>>, data: seq<seq<int>>, code: seq<seq<int>>, uncoupled: seq<seq<int>>)
    requires p.Fits() && |symbols| == p.Size()
  {
    && |layout| == |data| == |code| == |uncoupled| == 2
    && forall sp | 0 <= sp < 2 ::
         && |layout[sp]| == p.n && |data[sp]| == p.k && |code[sp]| == |uncoupled[sp]| == p.n - p.k
         && (forall i | 0 <= i < p.n :: layout[sp][i] == symbols[DataAt(p, sp, i)])
         && (forall i | 0 <= i < p.k :: data[sp][i] == symbols[DataAt(p, sp, i)])
         && (forall i | 0 <= i < p.n - p.k :: code[sp][i] == symbols[CodeAt(p, sp, i)] && uncoupled[sp][i] == symbols[UncoupledAt(p, sp, i)])
  }

  ghost predicate CodesRight(p: Params, symbols: seq<int>, codes: map<int, int>, m: nat)
    requires p.Fits() && |symbols| == p.Size() && m <= p.Groups()
  {
    forall g | 1 <= g <= m :: g in codes && codes[g] == symbols[GroupAt(p, g)]
  }

  /** src/ec/HHXORPlus.cc:824-829: the virtual symbols of the groups' codes. */
  method GroupCodes(p: Params, symbols: seq<int>) returns (codes: map<int, int>)
    requires p.Fits() && |symbols| == p.Size()
    ensures CodesRight(p, symbols, codes, p.Groups())
  {
    var vs_id := 2 * p.n + 1;
    codes := map[];
    for g := 1 to p.Groups() + 1
      invariant vs_id == 2 * p.n + g && CodesRight(p, symbols, codes, g - 1)
    {
      codes := codes[g := symbols[vs_id]];
      vs_id := vs_id + 1;
    }
  }

  /** src/ec/HHXORPlus.cc:831-835: the virtual symbols of the parities before they are coupled. */
  method UncoupledRow(p: Params, symbols: seq<int>, row: seq<int>) returns (unc1: seq<int>)
    requires p.Fits() && |symbols| == p.Size() && |row| == p.n - p.k
    requires forall i | 0 <= i < p.n - p.k :: row[i] == symbols[CodeAt(p, 1, i)]
    ensures |unc1| == p.n - p.k
    ensures forall i | 0 <= i < p.n - p.k :: unc1[i] == symbols[UncoupledAt(p, 1, i)]
  {
    var vs_id := 2 * p.n + 1 + p.Groups();
    unc1 := row;
    for g := 1 to p.Groups() + 1
      invariant vs_id == 2 * p.n + p.Groups() + g && |unc1| == p.n - p.k
      invariant forall i | 0 <= i < p.n - p.k :: unc1[i] == symbols[if i < g then UncoupledAt(p, 1, i) else CodeAt(p, 1, i)]
    {
      unc1 := unc1[g := symbols[vs_id]];
      vs_id := vs_id + 1;
    }
  }

  /** src/ec/HHXORPlus.cc:774-844 */
  method SetLayouts(p: Params, layout: seq<seq<int>>, symbols: seq<int>)
    returns (data: seq<seq<int>>, code: seq<seq<int>>, uncoupled: seq<seq<int>>, codes: map<int, int>)
    requires p.Fits() && |symbols| == p.Size() && |layout| == 2 && |layout[0]| == |layout[1]| == p.n
    requires forall sp, i | 0 <= sp < 2 && 0 <= i < p.n :: layout[sp][i] == symbols[DataAt(p, sp, i)]
    ensures LayoutsRight(p, symbols, layout, data, code, uncoupled) && CodesRight(p, symbols, codes, p.Groups())
  {
    hide CodesRight;
    data := [layout[0][..p.k], layout[1][..p.k]];
    code := [layout[0][p.k..], layout[1][p.k..]];
    var unc0 := code[0][1 := symbols[2 * p.n]];
    codes := GroupCodes(p, symbols);
    var unc1 := UncoupledRow(p, symbols, code[1]);
    uncoupled := [unc0, unc1];
  }

  class HHXORPlus<F(!new)> {
    const p: Params
    const f: GF<F>
    const solver: Solver<F>
    const matrix: seq<seq<F>>
    const layout: seq<seq<int>>
    const data_layout: seq<seq<int>>
    const code_layout: seq<seq<int>>
    const uncoupled_code_layout: seq<seq<int>>
    const pid_group_map: map<int, seq<nat>>
    const pid_group_code_map: map<int, int>
    const symbols: seq<int>

    ghost predicate Ready() {
      && p.Fits() && Field(f) && Solves(f, solver) && Distinct(symbols) && |symbols| == p.Size() && MatrixRight(p, f, matrix)
      && LayoutsRight(p, symbols, layout, data_layout, code_layout, uncoupled_code_layout)
      && GroupsRight(p, pid_group_map, p.Groups()) && CodesRight(p, symbols, pid_group_code_map, p.Groups())
    }

    /** src/ec/HHXORPlus.cc:3-123, for parameters that pass its checks */
    constructor (n: nat, k: nat, num_instances: nat, instance_id: nat, f: GF<F>, solver: Solver<F>)
      requires n >= k + 3 && k >= (n - k - 1) * 2 && instance_id < num_instances && Field(f) && Solves(f, solver)
      ensures Ready() && p == Params(n, k) && this.f == f && this.solver == solver
      ensures forall sp, i | 0 <= sp < 2 && 0 <= i < n :: layout[sp][i] == SymbolAt(num_instances, instance_id, i, sp)
      ensures forall j | 2 * n <= j < p.Size() :: symbols[j] == VirtualAt(p, num_instances, instance_id, j)
    {
      hide Field, Solves, MatrixRight, GroupsRight, CodesRight;
      var ps := Params(n, k);
      var rows := SwappedMatrix(ps, f);
      var groups := FillGroups(ps);
      var lay, syms := InitLayout(ps, num_instances, instance_id);
      var data, code, uncoupled, codes := SetLayouts(ps, lay, syms);
      this.p := ps;
      this.f, this.solver := f, solver;
      matrix, layout, symbols := rows, lay, syms;
      data_layout, code_layout, uncoupled_code_layout := data, code, uncoupled;
      pid_group_map, pid_group_code_map := groups, codes;
    }

    /** The checks at the top of the constructor (src/ec/HHXORPlus.cc:18-40): parameters that fail one get an error message
        and no usable code, here null; all others give a code that is ready. */
    static method Make(n: nat, k: nat, w: int, num_instances: nat, instance_id: nat, f: GF<F>, solver: Solver<F>) returns (code: HHXORPlus?<F>)
      requires instance_id < num_instances && Field(f) && Solves(f, solver)
      ensures code != null <==> w == 2 && n - k >= 3 && k >= (n - k - 1) * 2
      ensures code != null ==> code.Ready() && code.p == Params(n, k) && code.f == f && code.solver == solver
      ensures code != null && num_instances == 1 ==> code.BaseCode()
    {
      hide Field, Solves, MatrixRight, LayoutsRight, GroupsRight, CodesRight, SymbolAt, VirtualAt;
      if w != 2 {
        return null;
      }
      if n - k < 3 {
        return null;
      }
      var num_groups := n - k - 1;
      if k < num_groups * 2 {
        return null;
      }
      code := new HHXORPlus(n, k, num_instances, instance_id, f, solver);
    }

    /** The code by itself, not as one of several instances (src/ec/HHXORPlus.cc:9-11). */
    ghost predicate BaseCode() {
      && Ready()
      && (forall sp, i | 0 <= sp < 2 && 0 <= i < p.n :: layout[sp][i] == SymbolAt(1, 0, i, sp))
      && (forall j | 2 * p.n <= j < p.Size() :: symbols[j] == VirtualAt(p, 1, 0, j))
    }

    // -------------------------------------------------------------------------------------------
    // Building a DAG

    ghost predicate Building(dag: E.ECDAG<F>, ops: seq<Combination<F>>)
      reads dag
    {
      Ready() && dag.Valid() && Built(dag.nodes, symbols, ops)
    }

    method JoinOne(dag: E.ECDAG<F>, pidx: int, cidx: seq<int>, coefs: seq<F>, ghost ops: seq<Combination<F>>, ghost c: Combination<F>)
      requires Building(dag, ops) && Fits(symbols, c) && Avoids(ops, c.target) && c.target !in c.sources
      requires pidx == symbols[c.target] && cidx == Ids(symbols, c.sources) && coefs == c.coefs
      modifies dag
      ensures Building(dag, ops + [c])
    {
      hide Field, Solves, MatrixRight, LayoutsRight, GroupsRight, CodesRight, Avoids, Built, Fits;
      AvoidedIsNew(dag.nodes, symbols, ops, c);
      BuildingNext(dag.nodes, ops, c);
      dag.Join(pidx, cidx, coefs);
    }

    /** Whatever a Join does to the graph, the combination is there afterwards. */
    lemma BuildingNext(g: Dag<F>, ops: seq<Combination<F>>, c: Combination<F>)
      requires Distinct(symbols) && Built(g, symbols, ops) && Fits(symbols, c) && Avoids(ops, c.target) && c.target !in c.sources
      ensures forall g' | E.JoinAdds(g, g', symbols[c.target], Ids(symbols, c.sources), c.coefs) :: Built(g', symbols, ops + [c])
    {
      hide Built, Avoids, E.JoinAdds;
      forall g' | E.JoinAdds(g, g', symbols[c.target], Ids(symbols, c.sources), c.coefs) ensures Built(g', symbols, ops + [c]) {
        BuiltMore(g, g', symbols, ops, c);
      }
    }

    lemma UncoupledInputs(sp: nat, i: nat)
      requires Ready() && sp < 2 && i < p.n - p.k
      ensures var c := Uncoupled(p, f, sp, i);
              Fits(symbols, c) && uncoupled_code_layout[sp][i] == symbols[c.target] && data_layout[sp] == Ids(symbols, c.sources)
              && p.k + i < |matrix| && matrix[p.k + i] == c.coefs
      ensures |uncoupled_code_layout| == |data_layout| == 2 && |uncoupled_code_layout[sp]| == p.n - p.k
    {
      hide Field, Solves, GroupsRight, CodesRight, CodeRow, MatrixRight, Ids;
      MatrixInputs(sp, i);
      DataInputs(sp, i);
    }

    lemma MatrixInputs(sp: nat, i: nat)
      requires Ready() && sp < 2 && i < p.n - p.k
      ensures p.k + i < |matrix| && matrix[p.k + i] == Uncoupled(p, f, sp, i).coefs
    {
      hide Field, Solves, GroupsRight, CodesRight, CodeRow, LayoutsRight;
    }

    lemma DataInputs(sp: nat, i: nat)
      requires Ready() && sp < 2 && i < p.n - p.k
      ensures PlacesFit(symbols, Uncoupled(p, f, sp, i).sources) && |data_layout| == 2
      ensures data_layout[sp] == Ids(symbols, Uncoupled(p, f, sp, i).sources)
    {
      hide Field, Solves, GroupsRight, CodesRight, CodeRow, MatrixRight;
    }

    ghost function UncoupledSoFar(sp: nat): seq<Combination<F>>
      requires Ready() && sp <= 2
    {
      if sp == 0 then [] else if sp == 1 then UncoupledOps(p, f, 0, p.n - p.k)
      else UncoupledOps(p, f, 0, p.n - p.k) + UncoupledOps(p, f, 1, p.n - p.k)
    }

    /** src/ec/HHXORPlus.cc:187-190 */
    method JoinUncoupled(dag: E.ECDAG<F>, sp: nat, i: nat)
      requires Ready() && sp < 2 && i < p.n - p.k && Building(dag, UncoupledSoFar(sp) + UncoupledOps(p, f, sp, i))
      modifies dag
      ensures Building(dag, UncoupledSoFar(sp) + UncoupledOps(p, f, sp, i + 1))
    {
      hide Field, Solves, MatrixRight, LayoutsRight, GroupsRight, CodesRight, Avoids, Built, Fits, CodeRow, UncoupledAt;
      UncoupledInputs(sp, i);
      UncoupledIsNew(p, f, sp, i);
      ghost var before, c := UncoupledSoFar(sp) + UncoupledOps(p, f, sp, i), Uncoupled(p, f, sp, i);
      assert before == if sp == 0 then UncoupledOps(p, f, 0, i) else UncoupledOps(p, f, 0, p.n - p.k) + UncoupledOps(p, f, 1, i);
      JoinOne(dag, uncoupled_code_layout[sp][i], data_layout[sp], matrix[p.k + i], before, c);
      assert before + [c] == UncoupledSoFar(sp) + UncoupledOps(p, f, sp, i + 1);
    }

    /** src/ec/HHXORPlus.cc:182-192 */
    method EncodeUncoupled(dag: E.ECDAG<F>)
      requires Building(dag, [])
      modifies dag
      ensures Building(dag, UncoupledSoFar(2))
    {
      hide Field, Solves, MatrixRight, LayoutsRight, GroupsRight, CodesRight, Avoids, Built, Fits;
      for sp := 0 to 2
        invariant Building(dag, UncoupledSoFar(sp))
      {
        assert UncoupledSoFar(sp) + UncoupledOps(p, f, sp, 0) == UncoupledSoFar(sp);
        for i := 0 to p.n - p.k
          invariant Building(dag, UncoupledSoFar(sp) + UncoupledOps(p, f, sp, i))
        {
          JoinUncoupled(dag, sp, i);
        }
        assert UncoupledSoFar(sp + 1) == UncoupledSoFar(sp) + UncoupledOps(p, f, sp, p.n - p.k);
      }
    }

    lemma GroupFacts(g: nat)
      requires Ready() && 1 <= g <= p.Groups()
      ensures g in pid_group_map && pid_group_map[g] == Members(p, g) && |matrix| == p.n && |layout| == 2 && |layout[0]| == p.n
      ensures g in pid_group_code_map && pid_group_code_map[g] == symbols[GroupAt(p, g)] && GroupAt(p, g) < |symbols|
      ensures Fits(symbols, GroupCode(p, f, g)) && |matrix[p.k + 1]| == p.k
      ensures var c := GroupCode(p, f, g);
              forall i | 0 <= i < |Members(p, g)| :: Members(p, g)[i] < p.k
                && layout[0][Members(p, g)[i]] == Ids(symbols, c.sources)[i] && matrix[p.k + 1][Members(p, g)[i]] == c.coefs[i]
    {
      hide Field, Solves, CodeRow, Average, Start, End;
    }

    /** The data sub-packets 0 of a group and their coefficients (src/ec/HHXORPlus.cc:198-210). */
    method GroupInputs(g: nat) returns (cidx_group: seq<int>, coefs_group: seq<F>)
      requires Ready() && 1 <= g <= p.Groups()
      ensures var c := GroupCode(p, f, g); Fits(symbols, c) && cidx_group == Ids(symbols, c.sources) && coefs_group == c.coefs
      ensures g in pid_group_code_map && pid_group_code_map[g] == symbols[GroupAt(p, g)]
    {
      hide Field, Solves, CodeRow, Average, Start, End, MatrixRight, LayoutsRight, GroupsRight, CodesRight, Members, GroupLine, Places, Fits;
      GroupFacts(g);
      var group := pid_group_map[g];
      ghost var c := GroupCode(p, f, g);
      cidx_group, coefs_group := [], [];
      for i := 0 to |group|
        invariant cidx_group == Ids(symbols, c.sources)[..i] && coefs_group == c.coefs[..i]
      {
        cidx_group := cidx_group + [layout[0][group[i]]];
        coefs_group := coefs_group + [matrix[p.k + 1][group[i]]];
      }
    }

    ghost function GroupsSoFar(m: nat): seq<Combination<F>>
      requires Ready() && m <= p.Groups()
    {
      UncoupledOps(p, f, 0, p.n - p.k) + UncoupledOps(p, f, 1, p.n - p.k) + GroupOps(p, f, m)
    }

    /** src/ec/HHXORPlus.cc:196-213 */
    method JoinGroup(dag: E.ECDAG<F>, g: nat)
      requires Ready() && 1 <= g <= p.Groups() && Building(dag, GroupsSoFar(g - 1))
      modifies dag
      ensures Building(dag, GroupsSoFar(g))
    {
      hide Field, Solves, MatrixRight, LayoutsRight, GroupsRight, CodesRight, Avoids, Built, Fits, Average, Members, GroupLine, CodeRow, Places;
      var cidx_group, coefs_group := GroupInputs(g);
      GroupIsNew(p, f, g);
      JoinOne(dag, pid_group_code_map[g], cidx_group, coefs_group, GroupsSoFar(g - 1), GroupCode(p, f, g));
      assert GroupsSoFar(g - 1) + [GroupCode(p, f, g)] == GroupsSoFar(g);
    }

    /** src/ec/HHXORPlus.cc:194-214 */
    method EncodeGroups(dag: E.ECDAG<F>)
      requires Ready() && Building(dag, UncoupledSoFar(2))
      modifies dag
      ensures Building(dag, BeforeCouples(p, f))
    {
      hide Field, Solves, MatrixRight, LayoutsRight, GroupsRight, CodesRight, Avoids, Built, Fits, Average;
      assert GroupsSoFar(0) == UncoupledSoFar(2);
      for g := 1 to p.Groups() + 1
        invariant Building(dag, GroupsSoFar(g - 1))
      {
        JoinGroup(dag, g);
      }
    }

    lemma CoupleInputs(g: nat)
      requires Ready() && 1 <= g <= p.Groups()
      ensures g < p.n - p.k && g in pid_group_code_map
      ensures |code_layout| == |uncoupled_code_layout| == 2 && |code_layout[0]| == |code_layout[1]| == p.n - p.k
      ensures |uncoupled_code_layout[0]| == |uncoupled_code_layout[1]| == p.n - p.k
      ensures Fits(symbols, Couple(p, f, g)) && code_layout[1][g] == symbols[CodeAt(p, 1, g)]
      ensures Ids(symbols, Couple(p, f, g).sources) == [uncoupled_code_layout[1][g], pid_group_code_map[g]]
      ensures Fits(symbols, CoupleFirst(p, f)) && code_layout[0][1] == symbols[CodeAt(p, 0, 1)]
      ensures g == 1 ==> Ids(symbols, CoupleFirst(p, f).sources) == [uncoupled_code_layout[0][1], uncoupled_code_layout[1][1], pid_group_code_map[1]]
    {
      hide Field, Solves, MatrixRight, GroupsRight;
    }

    ghost function CouplesSoFar(m: nat): seq<Combination<F>>
      requires Ready() && m <= p.Groups()
    {
      BeforeCouples(p, f) + [CoupleFirst(p, f)] + CoupleOps(p, f, m)
    }

    /** src/ec/HHXORPlus.cc:216-230 */
    method EncodeCouples(dag: E.ECDAG<F>)
      requires Ready() && Building(dag, BeforeCouples(p, f))
      modifies dag
      ensures Building(dag, EncodeOps(p, f))
    {
      hide Field, Solves, MatrixRight, LayoutsRight, GroupsRight, CodesRight, Avoids, Built, Fits, BeforeCouples, Building;
      CoupleInputs(1);
      StoredIsNew(p, f, CodeAt(p, 0, 1));
      JoinOne(dag, code_layout[0][1], [uncoupled_code_layout[0][1], uncoupled_code_layout[1][1], pid_group_code_map[1]],
        [f.one, f.one, f.one], BeforeCouples(p, f), CoupleFirst(p, f));
      assert CouplesSoFar(0) == BeforeCouples(p, f) + [CoupleFirst(p, f)];
      for g := 1 to p.Groups() + 1
        invariant Building(dag, CouplesSoFar(g - 1))
      {
        CoupleInputs(g);
        CoupleIsNew(p, f, g);
        JoinOne(dag, code_layout[1][g], [uncoupled_code_layout[1][g], pid_group_code_map[g]], [f.one, f.one], CouplesSoFar(g - 1), Couple(p, f, g));
        assert CouplesSoFar(g - 1) + [Couple(p, f, g)] == CouplesSoFar(g);
      }
    }

    /** src/ec/HHXORPlus.cc:168-231: the DAG holds the equations of a stripe. */
    method Encode() returns (dag: E.ECDAG<F>)
      requires Ready()
      ensures fresh(dag) && Building(dag, EncodeOps(p, f))
    {
      hide Field, Solves, MatrixRight, LayoutsRight, GroupsRight, CodesRight;
      dag := new E.ECDAG();
      NothingBuilt<F>(symbols);
      EncodeUncoupled(dag);
      EncodeGroups(dag);
      EncodeCouples(dag);
    }

    // -------------------------------------------------------------------------------------------
    // Repairing a data node

    /** node has this symbol. */
    predicate Holds(node: nat, symbol: int)
      requires |layout| == 2 && node < |layout[0]| && node < |layout[1]|
    {
      layout[0][node] == symbol || layout[1][node] == symbol
    }

    lemma OneHolder(a: nat, b: nat, symbol: int)
      requires Ready() && a < p.n && b < p.n && Holds(a, symbol) && Holds(b, symbol)
      ensures a == b
    {
      SizesRight();
      hide Field, Solves, MatrixRight, GroupsRight, CodesRight, LayoutsRight;
      var sa: nat := if layout[0][a] == symbol then 0 else 1;
      var sb: nat := if layout[0][b] == symbol then 0 else 1;
      SymbolOf(sa, a);
      SymbolOf(sb, b);
      SamePlace(symbols, DataAt(p, sa, a), DataAt(p, sb, b));
    }

    lemma SymbolOf(sp: nat, i: nat)
      requires Ready() && sp < 2 && i < p.n
      ensures |layout| == 2 && |layout[sp]| == p.n && DataAt(p, sp, i) < |symbols| && layout[sp][i] == symbols[DataAt(p, sp, i)]
    {
      hide Field, Solves, MatrixRight, GroupsRight, CodesRight;
    }

    /** src/ec/HHXORPlus.cc:270-277, 285-294: the node of a symbol, or the default when no node has it. */
    method NodeOf(symbol: int, otherwise: int) returns (node: int)
      requires Ready()
      ensures node == otherwise || (0 <= node < p.n && Holds(node, symbol))
      ensures forall i: nat | i < p.n && Holds(i, symbol) :: node == i
    {
      SizesRight();
      hide Field, Solves, MatrixRight, GroupsRight, CodesRight, LayoutsRight;
      node := otherwise;
      for w := 0 to 2
        invariant node == otherwise || (0 <= node < p.n && Holds(node, symbol))
        invariant forall i: nat | i < p.n && w > 0 && layout[0][i] == symbol :: node == i
        invariant forall i: nat | i < p.n && w > 1 && layout[1][i] == symbol :: node == i
      {
        node := NodeInRow(symbol, node, w);
        forall i: nat | i < p.n && Holds(i, symbol) ensures 0 <= node < p.n && Holds(node, symbol) ==> node == i {
          if 0 <= node < p.n && Holds(node, symbol) { OneHolder(i, node, symbol); }
        }
      }
    }

    lemma SizesRight()
      requires Ready()
      ensures |layout| == |data_layout| == |code_layout| == |uncoupled_code_layout| == 2 && |layout[0]| == |layout[1]| == p.n
      ensures |code_layout[0]| == |code_layout[1]| == p.n - p.k
    {
      hide Field, Solves, MatrixRight, GroupsRight, CodesRight;
    }

    method NodeInRow(symbol: int, otherwise: int, w: nat) returns (node: int)
      requires w < 2 && |layout| == 2 && |layout[0]| == |layout[1]| == p.n
      ensures if exists i: nat :: i < p.n && layout[w][i] == symbol then 0 <= node < p.n && layout[w][node] == symbol else node == otherwise
    {
      node := otherwise;
      var node_id := 0;
      while node_id < p.n
        invariant node_id <= p.n && node == otherwise && forall i: nat | i < node_id :: layout[w][i] != symbol
      {
        if symbol == layout[w][node_id] {
          node := node_id;
          break;
        }
        node_id := node_id + 1;
      }
    }

    /** The survivors' symbols: some of every data node but the failed one, none of that. */
    ghost predicate Survive(from: seq<int>, failed: nat)
      requires Ready() && failed < p.k
    {
      SizesRight();
      && (forall j, node: nat | 0 <= j < |from| && node < p.n && Holds(node, from[j]) :: node != failed)
      && (forall node: nat | node < p.k && node != failed :: Alive(from, |from|, node))
    }

    /** One of the first m symbols is the node's. */
    ghost predicate Alive(from: seq<int>, m: nat, node: nat)
      requires |layout| == 2 && node < |layout[0]| && node < |layout[1]| && m <= |from|
    {
      exists j :: 0 <= j < m && Holds(node, from[j])
    }

    /** src/ec/HHXORPlus.cc:283-310: the data nodes that survive, in order. */
    method AliveData(from: seq<int>, ghost failed: nat) returns (avail_data_node: seq<nat>)
      requires Ready() && failed < p.k && Survive(from, failed)
      ensures avail_data_node == Except(p.k, failed)
    {
      SizesRight();
      hide Field, Solves, MatrixRight, GroupsRight, CodesRight, LayoutsRight;
      var alive := NodesOf(from);
      forall node: nat | node < p.k ensures alive[node] <==> node != failed {
        assert alive[node] <==> Alive(from, |from|, node);
      }
      avail_data_node := [];
      for node_id := 0 to p.k
        invariant avail_data_node == Except(p.k, failed)[..if node_id <= failed then node_id else node_id - 1]
      {
        if alive[node_id] {
          avail_data_node := avail_data_node + [node_id];
        }
      }
    }

    /** src/ec/HHXORPlus.cc:317-322 */
    method RecoverMatrix(avail_data_node: seq<nat>, ghost failed: nat) returns (recover_matrix: seq<seq<F>>)
      requires Ready() && failed < p.k && avail_data_node == Except(p.k, failed)
      ensures recover_matrix == Recover(p, f, failed)
    {
      MatrixFacts();
      hide Field, Solves, MatrixRight, LayoutsRight, GroupsRight, CodesRight, Row;
      ghost var m := Recover(p, f, failed);
      recover_matrix := [];
      for i := 0 to |avail_data_node|
        invariant recover_matrix == m[..i]
      {
        recover_matrix := recover_matrix + [matrix[avail_data_node[i]]];
      }
      recover_matrix := recover_matrix + [matrix[p.k]];
    }

    lemma MatrixFacts()
      requires Ready()
      ensures |matrix| == p.n && forall r | 0 <= r < p.n :: matrix[r] == CodeRow(p, f, r)
    {
      hide Field, Solves, LayoutsRight, GroupsRight, CodesRight, CodeRow;
    }

    /** src/ec/HHXORPlus.cc:333-337 */
    method SurvivorSymbols(avail_data_node: seq<nat>, ghost failed: nat) returns (cidx_sp1: seq<int>)
      requires Ready() && failed < p.k && avail_data_node == Except(p.k, failed)
      ensures PlacesFit(symbols, Survivors(p, failed)) && cidx_sp1 == Ids(symbols, Survivors(p, failed))
    {
      SizesRight();
      SurvivorFacts(failed);
      hide Field, Solves, MatrixRight, LayoutsRight, GroupsRight, CodesRight;
      ghost var ids := Ids(symbols, Survivors(p, failed));
      cidx_sp1 := [];
      for i := 0 to |avail_data_node|
        invariant cidx_sp1 == ids[..i]
      {
        SymbolOf(1, avail_data_node[i]);
        cidx_sp1 := cidx_sp1 + [layout[1][avail_data_node[i]]];
      }
      SymbolOf(1, p.k);
      cidx_sp1 := cidx_sp1 + [layout[1][p.k]];
    }

    lemma SurvivorFacts(failed: nat)
      requires Ready() && failed < p.k
      ensures PlacesFit(symbols, Survivors(p, failed))
    {
      hide Field, Solves, MatrixRight, LayoutsRight, GroupsRight, CodesRight;
    }

    /** The rows that give the failed member of a group, and its place (src/ec/HHXORPlus.cc:369-385). */
    method GroupMatrix(g: nat, failed_node: nat) returns (recover_matrix_group: seq<seq<F>>, in_group_idx: nat)
      requires Ready() && failed_node < p.k && InGroup(p, failed_node, g)
      ensures recover_matrix_group == RecoverGroup(p, f, failed_node, g)
      ensures in_group_idx == failed_node - Start(Average(p), g) && in_group_idx < |Members(p, g)|
    {
      hide Field, Solves, MatrixRight, LayoutsRight, GroupsRight, CodesRight, CodeRow, Average, Start, End, Row;
      MemberAt(p, failed_node, g);
      GroupFacts(g);
      var group := pid_group_map[g];
      ghost var at: nat := failed_node - Start(Average(p), g);
      recover_matrix_group, in_group_idx := UnitRows(group, failed_node, at);
      var last := GroupCoefs(g);
      recover_matrix_group := recover_matrix_group + [last];
      assert recover_matrix_group == OneOut(f, GroupLine(p, f, g), at);
    }

    /** src/ec/HHXORPlus.cc:373-382 */
    method UnitRows(group: seq<nat>, failed_node: nat, ghost at: nat) returns (rows: seq<seq<F>>, in_group_idx: nat)
      requires at < |group| && group[at] == failed_node && forall i | 0 <= i < |group| && i != at :: group[i] != failed_node
      ensures |rows| == |group| - 1 && in_group_idx == at
      ensures forall i | 0 <= i < |rows| :: rows[i] == Row(f, |group|, Except(|group|, at)[i])
    {
      hide Row;
      var group_size := |group|;
      rows, in_group_idx := [], 0;
      for i := 0 to group_size
        invariant |rows| == (if i <= at then i else i - 1) && (i > at ==> in_group_idx == at)
        invariant forall j | 0 <= j < |rows| :: rows[j] == Row(f, group_size, Except(group_size, at)[j])
      {
        if group[i] != failed_node {
          UnitRowIs(group_size, i);
          rows := rows + [seq(group_size, j => if j == i then f.one else f.zero)];
        } else {
          in_group_idx := i;
        }
      }
    }

    /** src/ec/HHXORPlus.cc:383-385 */
    method GroupCoefs(g: nat) returns (last: seq<F>)
      requires Ready() && 1 <= g <= p.Groups()
      ensures last == GroupLine(p, f, g)
    {
      hide Field, Solves, MatrixRight, LayoutsRight, GroupsRight, CodesRight, CodeRow, Average, Start, End, GroupLine, Members;
      GroupFacts(g);
      var group := pid_group_map[g];
      last := [];
      for i := 0 to |group|
        invariant last == GroupLine(p, f, g)[..i]
      {
        last := last + [matrix[p.k + 1][group[i]]];
      }
    }

    lemma UnitRowIs(size: nat, i: nat)
      requires i < size
      ensures seq(size, j => if j == i then f.one else f.zero) == Row(f, size, i)
    {}

    /** src/ec/HHXORPlus.cc:395-401 */
    method GroupSurvivors(g: nat, failed_node: nat) returns (cidx_group: seq<int>)
      requires Ready() && failed_node < p.k && InGroup(p, failed_node, g)
      ensures failed_node - Start(Average(p), g) < |Members(p, g)|
      ensures var places := Places(p, 0, Drop(Members(p, g), failed_node - Start(Average(p), g))) + [GroupAt(p, g)];
              PlacesFit(symbols, places) && cidx_group == Ids(symbols, places)
    {
      hide Field, Solves, MatrixRight, LayoutsRight, GroupsRight, CodesRight, CodeRow, Average, Start, End, GroupLine;
      MemberAt(p, failed_node, g);
      GroupFacts(g);
      ghost var at: nat := failed_node - Start(Average(p), g);
      cidx_group := OtherMembers(pid_group_map[g], failed_node, at);
      cidx_group := cidx_group + [pid_group_code_map[g]];
    }

    /** src/ec/HHXORPlus.cc:395-400 */
    method OtherMembers(group: seq<nat>, failed_node: nat, ghost at: nat) returns (cidx_group: seq<int>)
      requires Ready() && at < |group| && group[at] == failed_node && forall i | 0 <= i < |group| && i != at :: group[i] != failed_node
      requires forall i | 0 <= i < |group| :: group[i] < p.k
      ensures var places := Places(p, 0, Drop(group, at)); PlacesFit(symbols, places) && cidx_group == Ids(symbols, places)
    {
      SizesRight();
      hide Field, Solves, MatrixRight, LayoutsRight, GroupsRight, CodesRight;
      cidx_group := [];
      for i := 0 to |group|
        invariant |cidx_group| == (if i <= at then i else i - 1)
        invariant forall j | 0 <= j < |cidx_group| :: Drop(group, at)[j] < |symbols| && cidx_group[j] == symbols[Drop(group, at)[j]]
      {
        if group[i] != failed_node {
          SymbolOf(0, group[i]);
          cidx_group := cidx_group + [layout[0][group[i]]];
        }
      }
    }

    // What JoinOne needs to know about the combinations of a repair

    lemma FirstInputs(failed: nat)
      requires Ready() && failed < p.k && Invertibles(p, f, solver, failed)
      ensures |data_layout| == 2 && |data_layout[0]| == |data_layout[1]| == p.k
      ensures Fits(symbols, FirstBack(p, solver, f, failed)) && data_layout[1][failed] == symbols[DataAt(p, 1, failed)]
      ensures data_layout[0][failed] == symbols[DataAt(p, 0, failed)]
    {
      SurvivorFacts(failed);
      hide Field, Solves, MatrixRight, GroupsRight, CodesRight, Recover;
    }

    lemma ParityInputs(failed: nat, g: nat)
      requires Ready() && failed < p.k && Invertibles(p, f, solver, failed) && 1 <= g <= p.Groups()
      ensures |uncoupled_code_layout| == 2 && |uncoupled_code_layout[1]| == p.n - p.k && g < p.n - p.k
      ensures Fits(symbols, ParityBack(p, solver, f, failed, g)) && uncoupled_code_layout[1][g] == symbols[UncoupledAt(p, 1, g)]
    {
      SurvivorFacts(failed);
      hide Field, Solves, MatrixRight, GroupsRight, Recover, CodeRow;
    }

    lemma CodeInputs(g: nat)
      requires p.Fits() && |symbols| == p.Size() && LayoutsRight(p, symbols, layout, data_layout, code_layout, uncoupled_code_layout)
      requires CodesRight(p, symbols, pid_group_code_map, p.Groups()) && 1 <= g <= p.Groups()
      ensures |code_layout| == 2 && |code_layout[1]| == |code_layout[0]| == p.n - p.k && g < p.n - p.k && p.Groups() >= 1
      ensures code_layout[0][1] == symbols[CodeAt(p, 0, 1)] && code_layout[1][g] == symbols[CodeAt(p, 1, g)]
      ensures g in pid_group_code_map && pid_group_code_map[g] == symbols[GroupAt(p, g)]
    {}

    lemma GroupBackInputs(g: nat)
      requires Ready() && 1 <= g <= p.Groups()
      ensures Fits(symbols, GroupBack(p, f, g))
      ensures Ids(symbols, GroupBack(p, f, g).sources) == [symbols[UncoupledAt(p, 1, g)], symbols[CodeAt(p, 1, g)]]
    {
      hide Field, Solves, MatrixRight, GroupsRight, CodesRight, LayoutsRight, CodeRow;
    }

    method JoinFirst(dag: E.ECDAG<F>, failed: nat, inv: seq<seq<F>>, cidx_sp1: seq<int>)
      requires Ready() && failed < p.k && Invertibles(p, f, solver, failed) && Building(dag, [])
      requires inv == solver.invert(Recover(p, f, failed)) && PlacesFit(symbols, Survivors(p, failed)) && cidx_sp1 == Ids(symbols, Survivors(p, failed))
      modifies dag
      ensures Building(dag, [FirstBack(p, solver, f, failed)])
    {
      hide Field, Solves, MatrixRight, LayoutsRight, GroupsRight, CodesRight, Recover, Built;
      FirstInputs(failed);
      FirstIsNew(p, failed);
      JoinOne(dag, data_layout[1][failed], cidx_sp1, inv[failed], [], FirstBack(p, solver, f, failed));
      assert [] + [FirstBack(p, solver, f, failed)] == [FirstBack(p, solver, f, failed)];
    }

    /** src/ec/HHXORPlus.cc:353-361, 419-426 */
    method JoinParity(dag: E.ECDAG<F>, failed: nat, g: nat, inv: seq<seq<F>>, cidx_sp1: seq<int>, ghost ops: seq<Combination<F>>)
      requires Ready() && failed < p.k && Invertibles(p, f, solver, failed) && 1 <= g <= p.Groups() && Building(dag, ops)
      requires inv == solver.invert(Recover(p, f, failed)) && PlacesFit(symbols, Survivors(p, failed)) && cidx_sp1 == Ids(symbols, Survivors(p, failed))
      requires Avoids(ops, UncoupledAt(p, 1, g))
      modifies dag
      ensures Building(dag, ops + [ParityBack(p, solver, f, failed, g)])
    {
      hide Field, Solves, MatrixRight, LayoutsRight, GroupsRight, CodesRight, Recover, Built, CodeRow, Avoids;
      ParityInputs(failed, g);
      MatrixFacts();
      AvoidsFirst(p, solver, f, failed, UncoupledAt(p, 1, g));
      var decode_parity_vector := VecMat(f, matrix[p.k + g], inv, p.k);
      JoinOne(dag, uncoupled_code_layout[1][g], cidx_sp1, decode_parity_vector, ops, ParityBack(p, solver, f, failed, g));
    }

    /** src/ec/HHXORPlus.cc:345-410: the failed node's own group. */
    method RepairInGroup(dag: E.ECDAG<F>, failed_node: nat, g: nat, inv: seq<seq<F>>, cidx_sp1: seq<int>)
      requires Ready() && failed_node < p.k && Invertibles(p, f, solver, failed_node) && InGroup(p, failed_node, g)
      requires inv == solver.invert(Recover(p, f, failed_node))
      requires PlacesFit(symbols, Survivors(p, failed_node)) && cidx_sp1 == Ids(symbols, Survivors(p, failed_node))
      requires Building(dag, [FirstBack(p, solver, f, failed_node)])
      modifies dag
      ensures Building(dag, GroupRepair(p, solver, f, failed_node, g))
    {
      InGroupIs(failed_node, g);
      hide Field, Solves, MatrixRight, LayoutsRight, GroupsRight, CodesRight, Recover, RecoverGroup, Built, CodeRow, Avoids, InGroup, Building;
      ghost var a, b := FirstBack(p, solver, f, failed_node), ParityBack(p, solver, f, failed_node, g);
      AvoidsFirst(p, solver, f, failed_node, UncoupledAt(p, 1, g));
      JoinParity(dag, failed_node, g, inv, cidx_sp1, [a]);
      assert [a] + [b] == [a, b];
      JoinGroupCode(dag, failed_node, g);
      JoinSecond(dag, failed_node, g);
    }

    method JoinGroupCode(dag: E.ECDAG<F>, failed_node: nat, g: nat)
      requires Ready() && failed_node < p.k && Invertibles(p, f, solver, failed_node) && InGroup(p, failed_node, g)
      requires Building(dag, [FirstBack(p, solver, f, failed_node), ParityBack(p, solver, f, failed_node, g)])
      modifies dag
      ensures Building(dag, [FirstBack(p, solver, f, failed_node), ParityBack(p, solver, f, failed_node, g), GroupBack(p, f, g)])
    {
      InGroupIs(failed_node, g);
      hide Field, Solves, MatrixRight, LayoutsRight, GroupsRight, CodesRight, Recover, RecoverGroup, Built, CodeRow, Avoids, InGroup, Building,
           Invertibles;
      ghost var a, b, c := FirstBack(p, solver, f, failed_node), ParityBack(p, solver, f, failed_node, g), GroupBack(p, f, g);
      ParityInputs(failed_node, g);
      CodeInputs(g);
      GroupBackInputs(g);
      GroupBackIsNew(p, solver, f, failed_node, g);
      JoinOne(dag, pid_group_code_map[g], [uncoupled_code_layout[1][g], code_layout[1][g]], [f.one, f.one], [a, b], c);
      assert [a, b] + [c] == [a, b, c];
    }

    lemma InGroupIs(failed: nat, g: nat)
      requires p.Fits() && InGroup(p, failed, g)
      ensures 1 <= g <= p.Groups() && Start(Average(p), g) <= failed < End(p, g)
    {}

    /** src/ec/HHXORPlus.cc:368-404 */
    method JoinSecond(dag: E.ECDAG<F>, failed_node: nat, g: nat)
      requires Ready() && failed_node < p.k && Invertibles(p, f, solver, failed_node) && InGroup(p, failed_node, g)
      requires Building(dag, [FirstBack(p, solver, f, failed_node), ParityBack(p, solver, f, failed_node, g), GroupBack(p, f, g)])
      modifies dag
      ensures Building(dag, GroupRepair(p, solver, f, failed_node, g))
    {
      hide Field, Solves, MatrixRight, LayoutsRight, GroupsRight, CodesRight, Recover, RecoverGroup, Built, CodeRow, Avoids, InGroup,
           Average, Start, End, Invertibles, Drop, Places, Members, Building;
      InGroupIs(failed_node, g);
      GroupInverseSize(failed_node, g);
      var recover_matrix_group, in_group_idx := GroupMatrix(g, failed_node);
      var recover_matrix_group_inv := solver.invert(recover_matrix_group);
      var cidx_group := GroupSurvivors(g, failed_node);
      FirstInputs(failed_node);
      SecondIsNew(p, solver, f, failed_node, g);
      ghost var d := SecondBack(p, solver, f, failed_node, g);
      ghost var before := [FirstBack(p, solver, f, failed_node), ParityBack(p, solver, f, failed_node, g), GroupBack(p, f, g)];
      JoinOne(dag, data_layout[0][failed_node], cidx_group, recover_matrix_group_inv[in_group_idx], before, d);
      assert before + [d] == GroupRepair(p, solver, f, failed_node, g);
    }

    lemma GroupInverseSize(failed: nat, g: nat)
      requires p.Fits() && failed < p.k && Invertibles(p, f, solver, failed) && InGroup(p, failed, g)
      ensures |solver.invert(RecoverGroup(p, f, failed, g))| == |Members(p, g)|
      ensures Shaped(solver.invert(Recover(p, f, failed)), p.k, p.k)
    {
      hide Recover, RecoverGroup;
    }

    ghost function ParitiesSoFar(m: nat): seq<Combination<F>>
      requires p.Fits() && Invertibles(p, f, solver, p.k - 1)
    {
      [FirstBack(p, solver, f, p.k - 1)] + ParityOps(p, solver, f, p.k - 1, m)
    }

    /** src/ec/HHXORPlus.cc:414-427 */
    method JoinParities(dag: E.ECDAG<F>, inv: seq<seq<F>>, cidx_sp1: seq<int>)
      requires Ready() && Invertibles(p, f, solver, p.k - 1) && inv == solver.invert(Recover(p, f, p.k - 1))
      requires PlacesFit(symbols, Survivors(p, p.k - 1)) && cidx_sp1 == Ids(symbols, Survivors(p, p.k - 1))
      requires Building(dag, [FirstBack(p, solver, f, p.k - 1)])
      modifies dag
      ensures Building(dag, ParitiesSoFar(p.Groups()))
    {
      hide Field, Solves, MatrixRight, LayoutsRight, GroupsRight, CodesRight, Recover, Built, CodeRow, Avoids;
      assert ParitiesSoFar(0) == [FirstBack(p, solver, f, p.k - 1)];
      for g := 1 to p.Groups() + 1
        invariant Building(dag, ParitiesSoFar(g - 1))
      {
        AvoidsParities(p, solver, f, p.k - 1, g - 1, UncoupledAt(p, 1, g));
        JoinParity(dag, p.k - 1, g, inv, cidx_sp1, ParitiesSoFar(g - 1));
        assert ParitiesSoFar(g - 1) + [ParityBack(p, solver, f, p.k - 1, g)] == ParitiesSoFar(g);
      }
    }

    /** src/ec/HHXORPlus.cc:429-443 */
    method CoupleSymbols() returns (cidx_couples: seq<int>, coefs_couples: seq<F>)
      requires Ready()
      ensures PlacesFit(symbols, Couples(p, p.Groups())) && cidx_couples == Ids(symbols, Couples(p, p.Groups()))
      ensures coefs_couples == Ones(f, 2 * p.Groups())
    {
      hide Field, Solves, MatrixRight, LayoutsRight, GroupsRight, CodesRight, Couples, Ids, PlacesFit, Ones;
      NoCouples();
      cidx_couples, coefs_couples := [], [];
      for parity_idx := 1 to p.Groups() + 1
        invariant PlacesFit(symbols, Couples(p, parity_idx - 1)) && cidx_couples == Ids(symbols, Couples(p, parity_idx - 1))
        invariant coefs_couples == Ones(f, 2 * (parity_idx - 1))
      {
        UncoupledSymbol(parity_idx);
        CodeInputs(parity_idx);
        CouplesMore(parity_idx);
        cidx_couples := cidx_couples + [uncoupled_code_layout[1][parity_idx]];
        if parity_idx != 1 {
          cidx_couples := cidx_couples + [code_layout[1][parity_idx]];
        } else {
          cidx_couples := cidx_couples + [code_layout[0][parity_idx]];
        }
        coefs_couples := coefs_couples + [f.one];
        coefs_couples := coefs_couples + [f.one];
      }
    }

    lemma NoCouples()
      requires p.Fits()
      ensures PlacesFit(symbols, Couples(p, 0)) && Ids(symbols, Couples(p, 0)) == [] && Ones(f, 0) == []
    {}

    lemma CouplesMore(g: nat)
      requires Ready() && 1 <= g <= p.Groups() && PlacesFit(symbols, Couples(p, g - 1))
      ensures |uncoupled_code_layout| == |code_layout| == 2 && |uncoupled_code_layout[1]| == |code_layout[0]| == |code_layout[1]| == p.n - p.k > g
      ensures PlacesFit(symbols, Couples(p, g))
      ensures Ids(symbols, Couples(p, g)) ==
              Ids(symbols, Couples(p, g - 1)) + [uncoupled_code_layout[1][g]] + [if g != 1 then code_layout[1][g] else code_layout[0][g]]
      ensures Ones(f, 2 * g) == Ones(f, 2 * (g - 1)) + [f.one] + [f.one]
    {
      hide Field, Solves, MatrixRight, LayoutsRight, GroupsRight, CodesRight, Distinct, UncoupledAt, CodeAt;
      UncoupledSymbol(g);
      CodeInputs(g);
      CodesFit(g);
    }

    lemma CodesFit(g: nat)
      requires Ready() && 1 <= g <= p.Groups()
      ensures UncoupledAt(p, 1, g) < |symbols| && CodeAt(p, 0, 1) < |symbols| && CodeAt(p, 1, g) < |symbols|
    {
      hide Field, Solves, MatrixRight, LayoutsRight, GroupsRight, CodesRight, Distinct;
    }

    lemma UncoupledSymbol(g: nat)
      requires Ready() && 1 <= g <= p.Groups()
      ensures |uncoupled_code_layout| == 2 && |uncoupled_code_layout[1]| == p.n - p.k && g < p.n - p.k
      ensures uncoupled_code_layout[1][g] == symbols[UncoupledAt(p, 1, g)]
    {
      hide Field, Solves, MatrixRight, GroupsRight, CodesRight;
    }

    lemma LastInputs()
      requires Ready()
      ensures |symbols| - 1 == LastAt(p) && Fits(symbols, LastBack(p, solver, f)) && Ids(symbols, LastBack(p, solver, f).sources) == [symbols[LastAt(p)]]
      ensures |data_layout| == 2 && |data_layout[0]| == p.k && data_layout[0][p.k - 1] == symbols[DataAt(p, 0, p.k - 1)]
    {
      hide Field, Solves, MatrixRight, GroupsRight, CodesRight, CodeRow;
    }

    /** src/ec/HHXORPlus.cc:412-454: the last data node, which is in no group. */
    method RepairLast(dag: E.ECDAG<F>, inv: seq<seq<F>>, cidx_sp1: seq<int>) returns (ghost ops: seq<Combination<F>>)
      requires Ready() && Invertibles(p, f, solver, p.k - 1) && inv == solver.invert(Recover(p, f, p.k - 1))
      requires PlacesFit(symbols, Survivors(p, p.k - 1)) && cidx_sp1 == Ids(symbols, Survivors(p, p.k - 1))
      requires Building(dag, [FirstBack(p, solver, f, p.k - 1)])
      modifies dag
      ensures IsRepair(p, solver, f, p.k - 1, ops) && Building(dag, ops)
    {
      hide Field, Solves, MatrixRight, LayoutsRight, GroupsRight, CodesRight, Recover, Built, CodeRow, Avoids, Couples, Building;
      JoinParities(dag, inv, cidx_sp1);
      var cidx_couples, coefs_couples := CoupleSymbols();
      LastInputs();
      MatrixFacts();
      CouplesAreNew(p, solver, f);
      ghost var a, b, c := ParitiesSoFar(p.Groups()), AllCouples(p, f), LastBack(p, solver, f);
      JoinOne(dag, symbols[|symbols| - 1], cidx_couples, coefs_couples, a, b);
      var coef := solver.divide(f.one, matrix[p.k + 1][p.k - 1]);
      LastIsNew(p, solver, f);
      JoinOne(dag, data_layout[0][p.k - 1], [symbols[|symbols| - 1]], [coef], a + [b], c);
      ops := LastRepair(p, solver, f);
      assert a + [b] + [c] == ops;
      LastIsRepair();
    }

    /** src/ec/HHXORPlus.cc:283-337: the inverse and the symbols it applies to. */
    method Prepare(from: seq<int>, failed_node: nat) returns (inv: seq<seq<F>>, cidx_sp1: seq<int>)
      requires Ready() && failed_node < p.k && Survive(from, failed_node)
      ensures inv == solver.invert(Recover(p, f, failed_node))
      ensures PlacesFit(symbols, Survivors(p, failed_node)) && cidx_sp1 == Ids(symbols, Survivors(p, failed_node))
    {
      hide Field, Solves, MatrixRight, LayoutsRight, GroupsRight, CodesRight, Recover, Survive, Distinct;
      var avail_data_node := AliveData(from, failed_node);
      var recover_matrix := RecoverMatrix(avail_data_node, failed_node);
      inv := solver.invert(recover_matrix);
      cidx_sp1 := SurvivorSymbols(avail_data_node, failed_node);
    }

    /** src/ec/HHXORPlus.cc:268-277 */
    method FailedNode(to: seq<int>, ghost failed: nat) returns (failed_node: nat)
      requires Ready() && failed < p.n && to != [] && |layout| == 2 && |layout[0]| == |layout[1]| == p.n && Holds(failed, to[0])
      ensures failed_node == failed
    {
      hide Field, Solves, MatrixRight, LayoutsRight, GroupsRight, CodesRight, Distinct, Holds;
      var node := NodeOf(to[0], to[0] / 2);
      failed_node := node;
    }

    /** What DecodeSingle is given: for a data node symbols of all other data nodes, for a parity node what the conventional
        repair takes. */
    ghost predicate CanRepairOne(from: seq<int>, to: seq<int>, failed: nat)
      requires Ready() && failed < p.n && |layout| == 2 && |layout[0]| == |layout[1]| == p.n
    {
      && to != [] && Holds(failed, to[0])
      && if failed < p.k then Survive(from, failed)
         else CanRepair(from, to) && Solvable(p, f, solver, LossOf(from, to))
    }

    /** The combinations that repair a single node. */
    ghost predicate RepairsOne(from: seq<int>, to: seq<int>, failed: nat, ops: seq<Combination<F>>)
      requires Ready() && failed < p.n && |layout| == 2 && |layout[0]| == |layout[1]| == p.n
    {
      if failed < p.k then Invertibles(p, f, solver, failed) && IsRepair(p, solver, f, failed, ops)
      else Solvable(p, f, solver, LossOf(from, to)) && IsMany(p, solver, f, LossOf(from, to), ops)
    }

    /** The repair of a single node (src/ec/HHXORPlus.cc:261-459): the DAG holds the combinations of its repair. */
    method DecodeSingle(dag: E.ECDAG<F>, from: seq<int>, to: seq<int>, ghost failed: nat) returns (ghost ops: seq<Combination<F>>)
      requires Ready() && failed < p.n && |layout| == 2 && |layout[0]| == |layout[1]| == p.n && CanRepairOne(from, to, failed) && Building(dag, [])
      modifies dag
      ensures RepairsOne(from, to, failed, ops) && Building(dag, ops)
    {
      hide Field, Solves, MatrixRight, LayoutsRight, GroupsRight, CodesRight, Recover, Survive, Building, Invertibles, IsRepair, Distinct,
           PlacesFit, Survivors, Holds, CanRepair, LossOf, Solvable, IsMany, UsedRows, LossFits;
      var failed_node := FailedNode(to, failed);
      if failed_node >= p.k {
        ghost var x;
        x, ops := DecodeMultiple(dag, from, to);
        return;
      }
      ops := RepairDataNode(dag, from, failed_node);
    }

    /** src/ec/HHXORPlus.cc:283-458 */
    method RepairDataNode(dag: E.ECDAG<F>, from: seq<int>, failed_node: nat) returns (ghost ops: seq<Combination<F>>)
      requires Ready() && failed_node < p.k && Survive(from, failed_node) && Building(dag, [])
      modifies dag
      ensures Invertibles(p, f, solver, failed_node) && IsRepair(p, solver, f, failed_node, ops) && Building(dag, ops)
    {
      hide Field, Solves, MatrixRight, LayoutsRight, GroupsRight, CodesRight, Recover, Survive, Building, Invertibles, IsRepair, Distinct,
           PlacesFit, Survivors;
      InvertiblesHold(p, f, solver, failed_node);
      var recover_matrix_inv, cidx_sp1 := Prepare(from, failed_node);
      JoinFirst(dag, failed_node, recover_matrix_inv, cidx_sp1);
      if failed_node < p.k - 1 {
        ops := RepairGroups(dag, failed_node, recover_matrix_inv, cidx_sp1);
      } else {
        ops := RepairLast(dag, recover_matrix_inv, cidx_sp1);
      }
    }

    /** Whether Decode turns to the repair of a single node. */
    ghost predicate OneLost(to: seq<int>) {
      |to| / 2 == 1
    }

    /** src/ec/HHXORPlus.cc:233-254: the number of symbols says which repair it is; an odd number of them, no repair at all. */
    method Decode(from: seq<int>, to: seq<int>, ghost failed: nat) returns (dag: E.ECDAG<F>, ghost ops: seq<Combination<F>>)
      requires Ready() && |layout| == 2 && |layout[0]| == |layout[1]| == p.n
      requires |from| % 2 == |to| % 2 == 0 && OneLost(to) ==> failed < p.n && CanRepairOne(from, to, failed)
      requires |from| % 2 == |to| % 2 == 0 && !OneLost(to) ==> CanRepair(from, to) && Solvable(p, f, solver, LossOf(from, to))
      ensures fresh(dag) && Building(dag, ops)
      ensures |from| % 2 != 0 || |to| % 2 != 0 ==> ops == []
      ensures |from| % 2 == |to| % 2 == 0 && OneLost(to) ==> RepairsOne(from, to, failed, ops)
      ensures |from| % 2 == |to| % 2 == 0 && !OneLost(to) ==>
                Solvable(p, f, solver, LossOf(from, to)) && IsMany(p, solver, f, LossOf(from, to), ops)
    {
      hide Field, Solves, MatrixRight, LayoutsRight, GroupsRight, CodesRight, Building, Distinct, CanRepairOne, RepairsOne, CanRepair, Solvable, IsMany,
           LossOf, UsedRows;
      dag := NewDag();
      ops := [];
      if |from| % 2 != 0 || |to| % 2 != 0 {
        return;
      }
      var num_failed_nodes := |to| / 2;
      if num_failed_nodes == 1 {
        ops := DecodeSingle(dag, from, to, failed);
      } else {
        ghost var x;
        x, ops := DecodeMultiple(dag, from, to);
      }
    }

    method NewDag() returns (dag: E.ECDAG<F>)
      requires Ready()
      ensures fresh(dag) && Building(dag, [])
    {
      hide Field, Solves, MatrixRight, LayoutsRight, GroupsRight, CodesRight;
      dag := new E.ECDAG();
      NothingBuilt<F>(symbols);
    }

    lemma LastIsRepair()
      requires p.Fits() && Invertibles(p, f, solver, p.k - 1)
      ensures IsRepair(p, solver, f, p.k - 1, LastRepair(p, solver, f))
    {
      hide Recover;
    }

    lemma GroupIsRepair(failed: nat, g: nat)
      requires p.Fits() && failed < p.k - 1 && Invertibles(p, f, solver, failed) && InGroup(p, failed, g)
      ensures IsRepair(p, solver, f, failed, GroupRepair(p, solver, f, failed, g))
    {
      hide Recover, RecoverGroup, GroupRepair, InGroup;
    }

    lemma ContainsIff(g: nat, failed: nat)
      requires p.Fits() && failed < p.k && 1 <= g <= p.Groups()
      ensures failed in Members(p, g) <==> InGroup(p, failed, g)
    {
      if InGroup(p, failed, g) { MemberAt(p, failed, g); }
    }

    /** src/ec/HHXORPlus.cc:343-410: the group that has the failed node. */
    method RepairGroups(dag: E.ECDAG<F>, failed_node: nat, inv: seq<seq<F>>, cidx_sp1: seq<int>) returns (ghost ops: seq<Combination<F>>)
      requires Ready() && failed_node < p.k - 1 && Invertibles(p, f, solver, failed_node) && inv == solver.invert(Recover(p, f, failed_node))
      requires PlacesFit(symbols, Survivors(p, failed_node)) && cidx_sp1 == Ids(symbols, Survivors(p, failed_node))
      requires Building(dag, [FirstBack(p, solver, f, failed_node)])
      modifies dag
      ensures IsRepair(p, solver, f, failed_node, ops) && Building(dag, ops)
    {
      hide Field, Solves, MatrixRight, LayoutsRight, GroupsRight, CodesRight, Recover, RecoverGroup, Built, CodeRow, Average, Start, End, Members,
           InGroup, Building, IsRepair, Distinct, GroupRepair;
      GroupExists(failed_node);
      ghost var found: nat := 0;
      ops := [FirstBack(p, solver, f, failed_node)];
      for g := 1 to p.Groups() + 1
        invariant Building(dag, ops)
        invariant found == 0 ==> ops == [FirstBack(p, solver, f, failed_node)] && forall h: nat | 1 <= h < g :: !InGroup(p, failed_node, h)
        invariant found != 0 ==> 1 <= found < g && InGroup(p, failed_node, found) && IsRepair(p, solver, f, failed_node, ops)
      {
        GroupFacts(g);
        ContainsIff(g, failed_node);
        if failed_node !in pid_group_map[g] {
          continue;
        }
        OnlyGroup(failed_node, found, g);
        RepairInGroup(dag, failed_node, g, inv, cidx_sp1);
        GroupIsRepair(failed_node, g);
        found := g;
        ops := GroupRepair(p, solver, f, failed_node, g);
      }
    }

    lemma GroupExists(failed: nat)
      requires p.Fits() && failed < p.k - 1
      ensures exists h: nat :: 1 <= h <= p.Groups() && InGroup(p, failed, h)
    {
      var h := GroupFrom(p, failed, 1);
      assert InGroup(p, failed, h);
    }

    lemma OnlyGroup(failed: nat, a: nat, b: nat)
      requires p.Fits() && failed < p.k && 1 <= b <= p.Groups() && InGroup(p, failed, b) && a < b
      ensures a == 0 || !InGroup(p, failed, a)
    {
      if a > 0 && InGroup(p, failed, a) {
        ContainsIff(a, failed);
        ContainsIff(b, failed);
        OneGroup(p, failed, a, b);
      }
    }

    // -------------------------------------------------------------------------------------------
    // Repairing any nodes

    /** Exactly the steps before time t of the conventional repair have been joined. */
    ghost predicate Repairing(dag: E.ECDAG<F>, x: Loss, steps: seq<Step>, t: nat)
      reads dag
    {
      && Ready() && Solvable(p, f, solver, x) && AllFit(p, x, steps) && TakenUpto(p, x, steps, t)
      && Building(dag, OpsOf(p, solver, f, x, steps))
    }

    method JoinStep(dag: E.ECDAG<F>, ghost x: Loss, ghost steps: seq<Step>, ghost step: Step, pidx: int, cidx: seq<int>, coefs: seq<F>)
      requires Ready() && LossFits(p, x) && StepFits(p, x, step) && Repairing(dag, x, steps, Time(p, x, step))
      requires PlaceOf(p, step) < |symbols| && pidx == symbols[PlaceOf(p, step)]
      requires PlacesFit(symbols, SourcesOf(p, x, step)) && cidx == Ids(symbols, SourcesOf(p, x, step))
      requires coefs == CoefsOf(p, solver, f, x, step)
      modifies dag
      ensures Repairing(dag, x, steps + [step], Time(p, x, step) + 1)
    {
      hide Field, Solves, MatrixRight, LayoutsRight, GroupsRight, CodesRight, Distinct, LossFits, StepFits, Time, TakenUpto, PlaceOf, SourcesOf, CoefsOf,
           UsedRows, Avoids, Building, AllFit;
      StepIsNew(p, solver, f, x, steps, Time(p, x, step), step);
      Took(p, x, steps, step);
      UptoFits(p, x, steps + [step], Time(p, x, step) + 1);
      JoinOne(dag, pidx, cidx, coefs, OpsOf(p, solver, f, x, steps), Op(p, solver, f, x, step));
      OpsMore(p, solver, f, x, steps, step);
    }

    lemma PlainSymbol(sp: nat, node: nat)
      requires Ready() && sp < 2 && node < p.n
      ensures |layout| == |data_layout| == |uncoupled_code_layout| == 2 && |uncoupled_code_layout[sp]| == p.n - p.k && |layout[sp]| == p.n
      ensures |data_layout[sp]| == p.k && PlainAt(p, sp, node) < |symbols|
      ensures if node < p.k then layout[sp][node] == data_layout[sp][node] == symbols[PlainAt(p, sp, node)]
              else uncoupled_code_layout[sp][node - p.k] == symbols[PlainAt(p, sp, node)]
    {
      hide Field, Solves, MatrixRight, GroupsRight, CodesRight, Distinct;
    }

    /** src/ec/HHXORPlus.cc:570-576 */
    method UsedMatrix(x: Loss) returns (recover_matrix: seq<seq<F>>)
      requires Ready() && LossFits(p, x)
      ensures recover_matrix == UsedRows(p, f, x)
    {
      MatrixFacts();
      UsedFit(p, x);
      hide Field, Solves, MatrixRight, LayoutsRight, GroupsRight, CodesRight, CodeRow, LossFits, Distinct;
      recover_matrix := [];
      for i := 0 to |x.data|
        invariant recover_matrix == UsedRows(p, f, x)[..i]
      {
        recover_matrix := recover_matrix + [matrix[x.data[i]]];
      }
      for i := 0 to |x.parities|
        invariant recover_matrix == UsedRows(p, f, x)[..|x.data| + i]
      {
        recover_matrix := recover_matrix + [matrix[x.parities[i]]];
      }
    }

    /** src/ec/HHXORPlus.cc:585-592, 664-670: the used sub-packets, data before parities. */
    method UsedSymbols(x: Loss, sp: nat) returns (cidx: seq<int>)
      requires Ready() && LossFits(p, x) && sp < 2
      ensures PlacesFit(symbols, UsedAt(p, x, sp)) && cidx == Ids(symbols, UsedAt(p, x, sp))
    {
      UsedPlacesFit(x, sp);
      LossSize(p, x);
      hide *;
      var data := UsedDataSymbols(x, sp);
      var parities := UsedParitySymbols(x, sp);
      cidx := data + parities;
      ghost var ids := Ids(symbols, UsedAt(p, x, sp));
      assert cidx == ids[..|x.data|] + ids[|x.data|..];
    }

    method UsedDataSymbols(x: Loss, sp: nat) returns (cidx: seq<int>)
      requires Ready() && LossFits(p, x) && sp < 2 && PlacesFit(symbols, UsedAt(p, x, sp)) && |x.data| <= p.k
      ensures cidx == Ids(symbols, UsedAt(p, x, sp))[..|x.data|]
    {
      hide *;
      LossSize(p, x);
      cidx := [];
      for i := 0 to |x.data|
        invariant cidx == Ids(symbols, UsedAt(p, x, sp))[..i]
      {
        UsedSymbol(x, sp, i);
        cidx := cidx + [layout[sp][x.data[i]]];
      }
    }

    method UsedParitySymbols(x: Loss, sp: nat) returns (cidx: seq<int>)
      requires Ready() && LossFits(p, x) && sp < 2 && PlacesFit(symbols, UsedAt(p, x, sp)) && |x.data| + |x.parities| == p.k
      ensures cidx == Ids(symbols, UsedAt(p, x, sp))[|x.data|..]
    {
      hide *;
      LossSize(p, x);
      ghost var rest := Ids(symbols, UsedAt(p, x, sp))[|x.data|..];
      cidx := [];
      for i := 0 to |x.parities|
        invariant cidx == rest[..i]
      {
        UsedSymbol(x, sp, |x.data| + i);
        cidx := cidx + [uncoupled_code_layout[sp][x.parities[i] - p.k]];
      }
    }

    lemma UsedSymbol(x: Loss, sp: nat, i: nat)
      requires Ready() && LossFits(p, x) && sp < 2 && i < p.k && PlacesFit(symbols, UsedAt(p, x, sp))
      ensures |x.data| + |x.parities| == p.k && x.Used(i) < p.n && (i < |x.data| ==> x.data[i] < p.k) && (i >= |x.data| ==> p.k <= x.parities[i - |x.data|] < p.n)
      ensures |layout| == |uncoupled_code_layout| == 2 && |uncoupled_code_layout[sp]| == p.n - p.k && |layout[sp]| == p.n
      ensures Ids(symbols, UsedAt(p, x, sp))[i] ==
              if i < |x.data| then layout[sp][x.data[i]] else uncoupled_code_layout[sp][x.parities[i - |x.data|] - p.k]
    {
      UsedFit(p, x);
      hide Field, Solves, MatrixRight, LayoutsRight, GroupsRight, CodesRight, LossFits, Distinct, PlainAt;
      PlainSymbol(sp, x.Used(i));
    }

    lemma UsedPlacesFit(x: Loss, sp: nat)
      requires Ready() && LossFits(p, x) && sp < 2
      ensures PlacesFit(symbols, UsedAt(p, x, sp))
    {
      UsedFit(p, x);
      hide Field, Solves, MatrixRight, LayoutsRight, GroupsRight, CodesRight, LossFits, Distinct, PlainAt;
      forall i | 0 <= i < p.k ensures UsedAt(p, x, sp)[i] < |symbols| { PlainSymbol(sp, x.Used(i)); }
    }

    /** src/ec/HHXORPlus.cc:558-564 */
    method SeparateFirst(dag: E.ECDAG<F>, ghost x: Loss, parities: seq<nat>) returns (ghost steps: seq<Step>)
      requires Ready() && LossFits(p, x) && parities == x.parities && Repairing(dag, x, [], 1)
      modifies dag
      ensures Repairing(dag, x, steps, 2)
    {
      hide Field, Solves, MatrixRight, LayoutsRight, GroupsRight, CodesRight, Distinct, LossFits, TakenUpto, UsedRows, Building, AllFit;
      steps := [];
      if p.k + 1 in parities {
        FirstSymbols(x);
        JoinStep(dag, x, [], FirstApart, uncoupled_code_layout[0][1], [code_layout[0][1], code_layout[1][1]], [f.one, f.one]);
        steps := [FirstApart];
        assert [] + [FirstApart] == steps;
      } else {
        InRange(p, x, 0);
        Idle(p, x, [], 1, 0);
      }
    }

    lemma FirstSymbols(x: Loss)
      requires Ready() && LossFits(p, x) && StepFits(p, x, FirstApart)
      ensures |uncoupled_code_layout| == |code_layout| == 2 && |uncoupled_code_layout[0]| == |code_layout[0]| == |code_layout[1]| == p.n - p.k >= 2
      ensures PlaceOf(p, FirstApart) < |symbols| && uncoupled_code_layout[0][1] == symbols[PlaceOf(p, FirstApart)]
      ensures PlacesFit(symbols, SourcesOf(p, x, FirstApart)) && Ids(symbols, SourcesOf(p, x, FirstApart)) == [code_layout[0][1], code_layout[1][1]]
    {
      hide Field, Solves, MatrixRight, GroupsRight, CodesRight, Distinct, LossFits;
      InRange(p, x, 0);
    }

    /** src/ec/HHXORPlus.cc:595-634: sub-packet 0 of one lost node, and the group code of its parity. */
    method RecoverFirst(dag: E.ECDAG<F>, ghost x: Loss, ghost steps0: seq<Step>, node: nat, inv: seq<seq<F>>, cidx_sp0: seq<int>) returns (ghost steps: seq<Step>)
      requires Ready() && LossFits(p, x) && node in x.lost && node < p.n && Repairing(dag, x, steps0, 2 + 2 * node)
      requires inv == solver.invert(UsedRows(p, f, x)) && PlacesFit(symbols, UsedAt(p, x, 0)) && cidx_sp0 == Ids(symbols, UsedAt(p, x, 0))
      modifies dag
      ensures Repairing(dag, x, steps, 4 + 2 * node)
    {
      hide Field, Solves, MatrixRight, LayoutsRight, GroupsRight, CodesRight, Distinct, LossFits, TakenUpto, UsedRows, UsedAt, Building, AllFit, PlainAt, CodeRow;
      JoinBack(dag, x, steps0, 0, node, inv, cidx_sp0);
      steps := steps0 + [Back(0, node)];
      GroupKeys(node);
      if node >= p.k && node - p.k in pid_group_map {
        JoinCode(dag, x, steps, node - p.k);
        steps := steps + [Code(node - p.k)];
      } else {
        Idle(p, x, steps, 3 + 2 * node, node);
      }
    }

    lemma GroupKeys(node: nat)
      requires Ready() && node < p.n
      ensures node - p.k in pid_group_map <==> node > p.k
    {
      hide Field, Solves, MatrixRight, LayoutsRight, CodesRight, Distinct, Members;
    }

    /** A lost node's sub-packet, as it is before coupling, from the used ones. */
    method JoinBack(dag: E.ECDAG<F>, ghost x: Loss, ghost steps: seq<Step>, sp: nat, node: nat, inv: seq<seq<F>>, cidx: seq<int>)
      requires Ready() && LossFits(p, x) && sp < 2 && node in x.lost && node < p.n && Repairing(dag, x, steps, Time(p, x, Back(sp, node)))
      requires inv == solver.invert(UsedRows(p, f, x)) && PlacesFit(symbols, UsedAt(p, x, sp)) && cidx == Ids(symbols, UsedAt(p, x, sp))
      modifies dag
      ensures Repairing(dag, x, steps + [Back(sp, node)], Time(p, x, Back(sp, node)) + 1)
    {
      MatrixFacts();
      PlainSymbol(sp, node);
      hide Field, Solves, MatrixRight, LayoutsRight, GroupsRight, CodesRight, Distinct, LossFits, TakenUpto, UsedRows, UsedAt, Building, AllFit, PlainAt, CodeRow;
      var decode_parity_vector := VecMat(f, matrix[node], inv, p.k);
      if node < p.k {
        JoinStep(dag, x, steps, Back(sp, node), data_layout[sp][node], cidx, decode_parity_vector);
      } else {
        JoinStep(dag, x, steps, Back(sp, node), uncoupled_code_layout[sp][node - p.k], cidx, decode_parity_vector);
      }
    }

    method JoinCode(dag: E.ECDAG<F>, ghost x: Loss, ghost steps: seq<Step>, g: nat)
      requires Ready() && LossFits(p, x) && StepFits(p, x, Code(g)) && Repairing(dag, x, steps, Time(p, x, Code(g)))
      modifies dag
      ensures Repairing(dag, x, steps + [Code(g)], Time(p, x, Code(g)) + 1)
    {
      hide Field, Solves, MatrixRight, LayoutsRight, GroupsRight, CodesRight, Distinct, LossFits, TakenUpto, UsedRows, Building, AllFit, Members, Places, GroupLine;
      var cidx_group, coefs_group := GroupInputs(g);
      JoinStep(dag, x, steps, Code(g), pid_group_code_map[g], cidx_group, coefs_group);
    }

    /** src/ec/HHXORPlus.cc:595-634 */
    method RecoverAllFirst(dag: E.ECDAG<F>, x: Loss, ghost steps0: seq<Step>, inv: seq<seq<F>>, cidx_sp0: seq<int>) returns (ghost steps: seq<Step>)
      requires Ready() && LossFits(p, x) && Repairing(dag, x, steps0, 2)
      requires inv == solver.invert(UsedRows(p, f, x)) && PlacesFit(symbols, UsedAt(p, x, 0)) && cidx_sp0 == Ids(symbols, UsedAt(p, x, 0))
      modifies dag
      ensures Repairing(dag, x, steps, 2 + 2 * p.n)
    {
      hide Field, Solves, MatrixRight, LayoutsRight, GroupsRight, CodesRight, Distinct, LossFits, TakenUpto, UsedRows, UsedAt, Building, AllFit;
      steps := steps0;
      FirstGap(p, x, steps, 0);
      for j := 0 to |x.lost|
        invariant Repairing(dag, x, steps, 2 + 2 * NodeFrom(p, x.lost, j))
      {
        LostFits(p, x, j);
        steps := RecoverFirst(dag, x, steps, x.lost[j], inv, cidx_sp0);
        FirstGap(p, x, steps, j + 1);
      }
    }

    /** src/ec/HHXORPlus.cc:637-661: what a used parity stores without its group code. */
    method SeparateOne(dag: E.ECDAG<F>, ghost x: Loss, ghost steps0: seq<Step>, node: nat) returns (ghost steps: seq<Step>)
      requires Ready() && LossFits(p, x) && node in x.parities && p.k <= node < p.n && Repairing(dag, x, steps0, 2 * p.n + 2 + 2 * node)
      modifies dag
      ensures Repairing(dag, x, steps, 2 * p.n + 4 + 2 * node)
    {
      ParityFacts(p, x, node);
      hide Field, Solves, MatrixRight, LayoutsRight, GroupsRight, CodesRight, Distinct, LossFits, TakenUpto, UsedRows, Building, AllFit, StepFits, Time;
      steps := steps0;
      var parity_idx := node - p.k;
      GroupKeys(node);
      if parity_idx in pid_group_map {
        steps := SeparateCoupled(dag, x, steps, node);
      } else {
        Idle(p, x, steps, 2 * p.n + 2 + 2 * node, node);
        Idle(p, x, steps, 2 * p.n + 3 + 2 * node, node);
      }
    }

    method SeparateCoupled(dag: E.ECDAG<F>, ghost x: Loss, ghost steps0: seq<Step>, node: nat) returns (ghost steps: seq<Step>)
      requires Ready() && LossFits(p, x) && node in x.parities && p.k < node < p.n && Repairing(dag, x, steps0, 2 * p.n + 2 + 2 * node)
      modifies dag
      ensures Repairing(dag, x, steps, 2 * p.n + 4 + 2 * node)
    {
      hide *;
      ParityFacts(p, x, node);
      ghost var g := node - p.k;
      JoinCode(dag, x, steps0, node - p.k);
      JoinApart(dag, x, steps0 + [Code(g)], node - p.k);
      steps := steps0 + [Code(g)] + [Apart(g)];
    }

    method JoinApart(dag: E.ECDAG<F>, ghost x: Loss, ghost steps: seq<Step>, g: nat)
      requires Ready() && LossFits(p, x) && StepFits(p, x, Apart(g)) && Repairing(dag, x, steps, Time(p, x, Apart(g)))
      modifies dag
      ensures Repairing(dag, x, steps + [Apart(g)], Time(p, x, Apart(g)) + 1)
    {
      hide Field, Solves, MatrixRight, LayoutsRight, GroupsRight, CodesRight, Distinct, LossFits, TakenUpto, UsedRows, Building, AllFit, PlaceOf, SourcesOf;
      ApartSymbols(x, g);
      JoinStep(dag, x, steps, Apart(g), uncoupled_code_layout[1][g], [code_layout[1][g], pid_group_code_map[g]], [f.one, f.one]);
    }

    lemma ApartSymbols(x: Loss, g: nat)
      requires Ready() && LossFits(p, x) && StepFits(p, x, Apart(g))
      ensures |uncoupled_code_layout| == |code_layout| == 2 && |uncoupled_code_layout[1]| == |code_layout[1]| == p.n - p.k && g < p.n - p.k
      ensures PlaceOf(p, Apart(g)) < |symbols| && uncoupled_code_layout[1][g] == symbols[PlaceOf(p, Apart(g))] && g in pid_group_code_map
      ensures PlacesFit(symbols, SourcesOf(p, x, Apart(g)))
      ensures Ids(symbols, SourcesOf(p, x, Apart(g))) == [code_layout[1][g], pid_group_code_map[g]]
    {
      hide Field, Solves, MatrixRight, LayoutsRight, GroupsRight, CodesRight, Distinct, LossFits, CodeAt, GroupAt;
      UncoupledSymbol(g);
      CodeInputs(g);
      GroupFacts(g);
      UncoupledInputs(1, g);
      CodeFits(g);
    }

    lemma CodeFits(g: nat)
      requires Ready() && 1 <= g <= p.Groups()
      ensures CodeAt(p, 1, g) < |symbols| && CodeAt(p, 0, g) < |symbols| && UncoupledAt(p, 0, g) < |symbols| && UncoupledAt(p, 1, g) < |symbols|
      ensures GroupAt(p, g) < |symbols|
    {
      hide Field, Solves, MatrixRight, LayoutsRight, GroupsRight, CodesRight, Distinct;
    }

    /** src/ec/HHXORPlus.cc:637-661 */
    method SeparateAll(dag: E.ECDAG<F>, x: Loss, ghost steps0: seq<Step>) returns (ghost steps: seq<Step>)
      requires Ready() && LossFits(p, x) && Repairing(dag, x, steps0, 2 + 2 * p.n)
      modifies dag
      ensures Repairing(dag, x, steps, 4 * p.n + 2)
    {
      hide Field, Solves, MatrixRight, LayoutsRight, GroupsRight, CodesRight, Distinct, LossFits, TakenUpto, UsedRows, Building, AllFit;
      steps := steps0;
      ApartGap(p, x, steps, 0);
      for j := 0 to |x.parities|
        invariant Repairing(dag, x, steps, 2 * p.n + 2 + 2 * NodeFrom(p, x.parities, j))
      {
        ParityFits(p, x, j);
        steps := SeparateOne(dag, x, steps, x.parities[j]);
        ApartGap(p, x, steps, j + 1);
      }
    }

    /** src/ec/HHXORPlus.cc:672-690 */
    method RecoverAllSecond(dag: E.ECDAG<F>, x: Loss, ghost steps0: seq<Step>, inv: seq<seq<F>>, cidx_sp1: seq<int>) returns (ghost steps: seq<Step>)
      requires Ready() && LossFits(p, x) && Repairing(dag, x, steps0, 4 * p.n + 2)
      requires inv == solver.invert(UsedRows(p, f, x)) && PlacesFit(symbols, UsedAt(p, x, 1)) && cidx_sp1 == Ids(symbols, UsedAt(p, x, 1))
      modifies dag
      ensures Repairing(dag, x, steps, 5 * p.n + 2)
    {
      hide Field, Solves, MatrixRight, LayoutsRight, GroupsRight, CodesRight, Distinct, LossFits, TakenUpto, UsedRows, UsedAt, Building, AllFit;
      steps := steps0;
      SecondGap(p, x, steps, 0);
      for j := 0 to |x.lost|
        invariant Repairing(dag, x, steps, 4 * p.n + 2 + NodeFrom(p, x.lost, j))
      {
        LostFits(p, x, j);
        JoinBack(dag, x, steps, 1, x.lost[j], inv, cidx_sp1);
        steps := steps + [Back(1, x.lost[j])];
        SecondGap(p, x, steps, j + 1);
      }
    }

    /** src/ec/HHXORPlus.cc:692-700 */
    method CoupleFirstLost(dag: E.ECDAG<F>, x: Loss, ghost steps0: seq<Step>) returns (ghost steps: seq<Step>)
      requires Ready() && LossFits(p, x) && Repairing(dag, x, steps0, 5 * p.n + 2)
      modifies dag
      ensures Repairing(dag, x, steps, CoupleStart(p, 0))
    {
      InRange(p, x, 0);
      hide Field, Solves, MatrixRight, LayoutsRight, GroupsRight, CodesRight, Distinct, LossFits, TakenUpto, UsedRows, Building, AllFit, PlaceOf, SourcesOf;
      steps := steps0;
      if p.k + 1 in x.lost {
        FirstCoupleSymbols(x);
        JoinStep(dag, x, steps, FirstCouple, code_layout[0][1], [uncoupled_code_layout[0][1], uncoupled_code_layout[1][1], pid_group_code_map[1]],
          [f.one, f.one, f.one]);
        steps := steps + [FirstCouple];
      } else {
        Idle(p, x, steps, 5 * p.n + 2, 0);
      }
    }

    lemma FirstCoupleSymbols(x: Loss)
      requires Ready() && LossFits(p, x) && StepFits(p, x, FirstCouple)
      ensures |uncoupled_code_layout| == |code_layout| == 2 && |code_layout[0]| == |uncoupled_code_layout[0]| == |uncoupled_code_layout[1]| == p.n - p.k >= 2
      ensures PlaceOf(p, FirstCouple) < |symbols| && code_layout[0][1] == symbols[PlaceOf(p, FirstCouple)] && 1 in pid_group_code_map
      ensures PlacesFit(symbols, SourcesOf(p, x, FirstCouple))
      ensures Ids(symbols, SourcesOf(p, x, FirstCouple)) == [uncoupled_code_layout[0][1], uncoupled_code_layout[1][1], pid_group_code_map[1]]
    {
      InRange(p, x, 0);
      hide Field, Solves, MatrixRight, LayoutsRight, GroupsRight, CodesRight, Distinct, LossFits;
      CoupleInputs(1);
      CodeFits(1);
    }

    lemma CoupleSources(x: Loss, g: nat)
      requires Ready() && LossFits(p, x) && StepFits(p, x, LaterCouple(g))
      ensures |uncoupled_code_layout| == |code_layout| == 2 && |code_layout[1]| == |uncoupled_code_layout[1]| == p.n - p.k > g
      ensures PlaceOf(p, LaterCouple(g)) < |symbols| && code_layout[1][g] == symbols[PlaceOf(p, LaterCouple(g))] && g in pid_group_code_map
      ensures PlacesFit(symbols, SourcesOf(p, x, LaterCouple(g)))
      ensures Ids(symbols, SourcesOf(p, x, LaterCouple(g))) == [uncoupled_code_layout[1][g], pid_group_code_map[g]]
    {
      hide Field, Solves, MatrixRight, LayoutsRight, GroupsRight, CodesRight, Distinct, LossFits;
      CoupleInputs(g);
      CodeFits(g);
    }

    /** src/ec/HHXORPlus.cc:702-714; lost data nodes are passed over. */
    method CoupleLaterLost(dag: E.ECDAG<F>, x: Loss, ghost steps0: seq<Step>) returns (ghost steps: seq<Step>)
      requires Ready() && LossFits(p, x) && Repairing(dag, x, steps0, CoupleStart(p, 0))
      modifies dag
      ensures Repairing(dag, x, steps, CoupleStart(p, p.n))
    {
      hide Field, Solves, MatrixRight, LayoutsRight, GroupsRight, CodesRight, Distinct, LossFits, TakenUpto, UsedRows, Building, AllFit, PlaceOf, SourcesOf;
      steps := steps0;
      CoupleGap(p, x, steps, 0);
      for j := 0 to |x.lost|
        invariant Repairing(dag, x, steps, CoupleStart(p, NodeFrom(p, x.lost, j)))
      {
        LostFits(p, x, j);
        GroupKeys(x.lost[j]);
        if x.lost[j] >= p.k && x.lost[j] - p.k in pid_group_map {
          var parity_idx := x.lost[j] - p.k;
          CoupleSources(x, parity_idx);
          JoinStep(dag, x, steps, LaterCouple(parity_idx), code_layout[1][parity_idx], [uncoupled_code_layout[1][parity_idx], pid_group_code_map[parity_idx]],
            [f.one, f.one]);
          steps := steps + [LaterCouple(parity_idx)];
        }
        CoupleGap(p, x, steps, j + 1);
      }
    }

    /** src/ec/HHXORPlus.cc:467-485, 488-501: which nodes the symbols belong to. */
    method NodesOf(syms: seq<int>) returns (alive: seq<bool>)
      requires Ready() && |layout| == 2 && |layout[0]| == |layout[1]| == p.n
      ensures |alive| == p.n && forall node: nat | node < p.n :: alive[node] <==> Alive(syms, |syms|, node)
    {
      hide Field, Solves, MatrixRight, GroupsRight, CodesRight, LayoutsRight;
      alive := seq(p.n, _ => false);
      for j := 0 to |syms|
        invariant |alive| == p.n
        invariant forall node: nat | node < p.n :: alive[node] <==> Alive(syms, j, node)
      {
        var alive_node := NodeOf(syms[j], -1);
        ghost var before := alive;
        if alive_node != -1 {
          alive := alive[alive_node := true];
        }
        forall node: nat | node < p.n ensures alive[node] <==> Alive(syms, j + 1, node) {
          assert before[node] <==> Alive(syms, j, node);
          assert Holds(node, syms[j]) ==> alive[node];
        }
      }
    }

    /** The nodes from a to b that one of the symbols belongs to, in order. */
    ghost function NodesWith(syms: seq<int>, a: nat, b: nat): (r: seq<nat>)
      requires |layout| == 2 && |layout[0]| == |layout[1]| == p.n && b <= p.n
      ensures |r| <= b
    {
      if b <= a then [] else NodesWith(syms, a, b - 1) + if Alive(syms, |syms|, b - 1) then [b - 1] else []
    }

    lemma NodesWithAre(syms: seq<int>, a: nat, b: nat)
      requires |layout| == 2 && |layout[0]| == |layout[1]| == p.n && b <= p.n
      ensures Ascending(NodesWith(syms, a, b))
      ensures forall i | 0 <= i < |NodesWith(syms, a, b)| :: a <= NodesWith(syms, a, b)[i] < b && Alive(syms, |syms|, NodesWith(syms, a, b)[i])
      ensures forall node: nat | a <= node < b && Alive(syms, |syms|, node) :: node in NodesWith(syms, a, b)
    {
      hide Alive, NodesWith;
      NodesAscend(syms, a, b);
      var r := NodesWith(syms, a, b);
      forall i | 0 <= i < |r| ensures a <= r[i] < b && Alive(syms, |syms|, r[i]) { NodeListed(syms, a, b, r[i]); }
      forall node: nat | a <= node < b && Alive(syms, |syms|, node) ensures node in r { NodeListed(syms, a, b, node); }
    }

    lemma {:induction false} NodeListed(syms: seq<int>, a: nat, b: nat, node: nat)
      requires |layout| == 2 && |layout[0]| == |layout[1]| == p.n && b <= p.n
      ensures node in NodesWith(syms, a, b) <==> a <= node < b && Alive(syms, |syms|, node)
      decreases b
    {
      hide Alive;
      if a < b { NodeListed(syms, a, b - 1, node); }
    }

    lemma {:induction false} NodesAscend(syms: seq<int>, a: nat, b: nat)
      requires |layout| == 2 && |layout[0]| == |layout[1]| == p.n && b <= p.n
      ensures Ascending(NodesWith(syms, a, b))
      decreases b
    {
      hide Alive;
      if a < b {
        NodesAscend(syms, a, b - 1);
        var r := NodesWith(syms, a, b - 1);
        forall i | 0 <= i < |r| ensures r[i] < b - 1 { NodeListed(syms, a, b - 1, r[i]); }
      }
    }

    lemma {:induction false} NodesJoin(syms: seq<int>, a: nat, b: nat)
      requires |layout| == 2 && |layout[0]| == |layout[1]| == p.n && a <= b <= p.n
      ensures NodesWith(syms, 0, b) == NodesWith(syms, 0, a) + NodesWith(syms, a, b)
      decreases b
    {
      hide Alive;
      if a < b { NodesJoin(syms, a, b - 1); }
    }

    method Listed(ghost syms: seq<int>, alive: seq<bool>, a: nat, b: nat) returns (nodes: seq<nat>)
      requires Ready() && |layout| == 2 && |layout[0]| == |layout[1]| == p.n && a <= b <= p.n == |alive|
      requires forall node: nat | node < p.n :: alive[node] <==> Alive(syms, |syms|, node)
      ensures nodes == NodesWith(syms, a, b)
    {
      hide Field, Solves, MatrixRight, GroupsRight, CodesRight, LayoutsRight, Alive;
      nodes := [];
      for node_id := a to b
        invariant nodes == NodesWith(syms, a, node_id)
      {
        if alive[node_id] {
          nodes := nodes + [node_id];
        }
      }
    }

    /** The nodes that are read and those that are lost: all data nodes there are, and as many parity nodes as it takes. */
    ghost function LossOf(from: seq<int>, to: seq<int>): Loss
      requires p.k <= p.n && |layout| == 2 && |layout[0]| == |layout[1]| == p.n
    {
      var data, parities := NodesWith(from, 0, p.k), NodesWith(from, p.k, p.n);
      Loss(data, if p.k - |data| <= |parities| then parities[..p.k - |data|] else parities, NodesWith(to, 0, p.n))
    }

    ghost predicate OfSomeNode(symbol: int)
      requires p.k <= p.n && |layout| == 2 && |layout[0]| == |layout[1]| == p.n
    {
      exists node: nat :: node < p.n && Holds(node, symbol)
    }

    /** Every lost symbol is some node's, no lost node is read, and k nodes can be read. */
    ghost predicate CanRepair(from: seq<int>, to: seq<int>)
      requires Ready() && |layout| == 2 && |layout[0]| == |layout[1]| == p.n
    {
      && (forall j | 0 <= j < |to| :: OfSomeNode(to[j]))
      && (forall node: nat | node < p.n :: !(Alive(from, |from|, node) && Alive(to, |to|, node)))
      && |NodesWith(from, 0, p.n)| >= p.k
    }

    /** Read are all data nodes there are and those parity nodes that have fewer than k - |data| parity nodes before them
        among the ones there are. */
    lemma WhichRead(from: seq<int>, to: seq<int>, node: nat)
      requires Ready() && |layout| == 2 && |layout[0]| == |layout[1]| == p.n && node < p.n
      ensures node in LossOf(from, to).data <==> node < p.k && Alive(from, |from|, node)
      ensures node in LossOf(from, to).parities <==>
                p.k <= node && Alive(from, |from|, node) && |LossOf(from, to).data| + |NodesWith(from, p.k, node)| < p.k
      ensures node in LossOf(from, to).lost <==> Alive(to, |to|, node)
    {
      hide Field, Solves, MatrixRight, GroupsRight, CodesRight, LayoutsRight, Alive, NodesWith, Distinct;
      NodesWithAre(from, 0, p.k);
      NodesWithAre(from, p.k, p.n);
      NodesWithAre(to, 0, p.n);
      var parities := NodesWith(from, p.k, p.n);
      if p.k <= node && Alive(from, |from|, node) { PlaceAmong(from, p.k, p.n, node); }
    }

    /** A node comes after as many as there are before it. */
    lemma {:induction false} PlaceAmong(syms: seq<int>, a: nat, b: nat, node: nat)
      requires |layout| == 2 && |layout[0]| == |layout[1]| == p.n && a <= node < b <= p.n && Alive(syms, |syms|, node)
      ensures var r, i := NodesWith(syms, a, b), |NodesWith(syms, a, node)|; i < |r| && r[i] == node
      ensures forall i | 0 <= i < |NodesWith(syms, a, b)| && NodesWith(syms, a, b)[i] == node :: i == |NodesWith(syms, a, node)|
      decreases b
    {
      hide Alive;
      NodesWithAre(syms, a, b);
      if node < b - 1 { PlaceAmong(syms, a, b - 1, node); }
    }

    /** So what is asked of the inverse in a repair is only its size. */
    lemma LossOfFits(from: seq<int>, to: seq<int>)
      requires Ready() && |layout| == 2 && |layout[0]| == |layout[1]| == p.n && CanRepair(from, to)
      ensures LossFits(p, LossOf(from, to))
    {
      hide Field, Solves, MatrixRight, GroupsRight, CodesRight, LayoutsRight, Alive, NodesWith, Distinct;
      NodesJoin(from, p.k, p.n);
      NodesWithAre(from, 0, p.k);
      NodesWithAre(from, p.k, p.n);
      NodesWithAre(to, 0, p.n);
    }

    /** src/ec/HHXORPlus.cc:462-715: the conventional repair of any nodes, from k others. */
    method DecodeMultiple(dag: E.ECDAG<F>, from: seq<int>, to: seq<int>) returns (ghost x: Loss, ghost ops: seq<Combination<F>>)
      requires Ready() && |layout| == 2 && |layout[0]| == |layout[1]| == p.n && Building(dag, []) && CanRepair(from, to)
      requires Solvable(p, f, solver, LossOf(from, to))
      modifies dag
      ensures x == LossOf(from, to) && Solvable(p, f, solver, x) && IsMany(p, solver, f, x, ops) && Building(dag, ops)
    {
      hide *;
      var loss := ReadAndLost(from, to);
      x := loss;
      SolvableFits(p, f, solver, x);
      ghost var steps := NothingJoined(dag, x);
      steps := SeparateFirst(dag, x, loss.parities);
      var recover_matrix := UsedMatrix(loss);
      var recover_matrix_inv := solver.invert(recover_matrix);
      var cidx_sp0 := UsedSymbols(loss, 0);
      steps := RecoverAllFirst(dag, loss, steps, recover_matrix_inv, cidx_sp0);
      steps := SeparateAll(dag, loss, steps);
      var cidx_sp1 := UsedSymbols(loss, 1);
      steps := RecoverAllSecond(dag, loss, steps, recover_matrix_inv, cidx_sp1);
      steps := CoupleFirstLost(dag, loss, steps);
      steps := CoupleLaterLost(dag, loss, steps);
      ops := AllJoined(dag, x, steps);
    }

    /** src/ec/HHXORPlus.cc:467-541 */
    method ReadAndLost(from: seq<int>, to: seq<int>) returns (loss: Loss)
      requires Ready() && |layout| == 2 && |layout[0]| == |layout[1]| == p.n
      ensures loss == LossOf(from, to)
    {
      hide Field, Solves, MatrixRight, GroupsRight, CodesRight, LayoutsRight, Alive, NodesWith, Distinct;
      var alive := NodesOf(from);
      var gone := NodesOf(to);
      var avail_data_node := Listed(from, alive, 0, p.k);
      var parities := Listed(from, alive, p.k, p.n);
      var avail_parity_node := [];
      for i := 0 to |parities|
        invariant avail_parity_node == parities[..if |avail_data_node| + i <= p.k then i else p.k - |avail_data_node|]
      {
        if |avail_data_node| + |avail_parity_node| < p.k {
          avail_parity_node := avail_parity_node + [parities[i]];
        }
      }
      var lost := Listed(to, gone, 0, p.n);
      loss := Loss(avail_data_node, avail_parity_node, lost);
    }

    lemma NothingJoined(dag: E.ECDAG<F>, x: Loss) returns (steps: seq<Step>)
      requires Ready() && Building(dag, []) && Solvable(p, f, solver, x)
      ensures steps == [] && Repairing(dag, x, [], 1)
    {
      hide Field, Solves, MatrixRight, GroupsRight, CodesRight, LayoutsRight, Distinct, Building, LossFits, TakenUpto, UsedRows;
      steps := [];
      NothingYet(p, x);
      assert OpsOf(p, solver, f, x, []) == [];
    }

    lemma AllJoined(dag: E.ECDAG<F>, x: Loss, steps: seq<Step>) returns (ops: seq<Combination<F>>)
      requires Ready() && LossFits(p, x) && Repairing(dag, x, steps, CoupleStart(p, p.n))
      ensures Solvable(p, f, solver, x) && IsMany(p, solver, f, x, ops) && Building(dag, ops)
    {
      hide Field, Solves, MatrixRight, GroupsRight, CodesRight, LayoutsRight, Distinct, Building, TakenUpto, UsedRows, AllFit;
      LossSize(p, x);
      AllTaken(p, x, steps);
      ops := OpsOf(p, solver, f, x, steps);
      ManyIf(p, solver, f, x, steps);
    }

    // -------------------------------------------------------------------------------------------
    // What a repair reads

    /** The places of the symbols that a repair needs. */
    ghost predicate Required(failed: nat, place: nat)
      requires Ready() && failed < p.k
    {
      || place in Survivors(p, failed)
      || (failed < p.k - 1 && exists g: nat :: InGroup(p, failed, g) && OfGroup(failed, g, place))
      || (failed == p.k - 1 && (place == CodeAt(p, 0, 1) || exists g: nat :: 2 <= g <= p.Groups() && place == CodeAt(p, 1, g)))
    }

    /** The group's coupled parity, or a sub-packet 0 of another member. */
    ghost predicate OfGroup(failed: nat, g: nat, place: nat)
      requires p.Fits()
    {
      place == CodeAt(p, 1, g) || exists d: nat :: d != failed && InGroup(p, d, g) && place == DataAt(p, 0, d)
    }

    /** The symbols listed are those of the required places. */
    ghost predicate Lists(required_symbols: seq<int>, failed: nat)
      requires Ready() && failed < p.k
    {
      && (forall i | 0 <= i < |required_symbols| :: required_symbols[i] in symbols)
      && (forall place: nat | place < |symbols| :: symbols[place] in required_symbols <==> Required(failed, place))
    }

    /** src/ec/HHXORPlus.cc:851-858 */
    method RequiredSecond(failed_node: nat) returns (required_symbols: seq<int>)
      requires Ready() && failed_node < p.k
      ensures PlacesFit(symbols, Survivors(p, failed_node)) && required_symbols == Ids(symbols, Survivors(p, failed_node))
    {
      hide Field, Solves, MatrixRight, LayoutsRight, GroupsRight, CodesRight;
      SizesRight();
      SurvivorFacts(failed_node);
      ghost var ids := Ids(symbols, Survivors(p, failed_node));
      required_symbols := [];
      for node_id := 0 to p.k
        invariant required_symbols == ids[..if node_id <= failed_node then node_id else node_id - 1]
      {
        if node_id == failed_node {
          continue;
        }
        SymbolOf(1, node_id);
        required_symbols := required_symbols + [layout[1][node_id]];
      }
      SymbolOf(1, p.k);
      required_symbols := required_symbols + [layout[1][p.k]];
    }

    /** src/ec/HHXORPlus.cc:861-870 */
    method GroupOf(failed_node: nat) returns (failed_pid: nat)
      requires Ready() && failed_node < p.k - 1
      ensures InGroup(p, failed_node, failed_pid)
    {
      hide Field, Solves, MatrixRight, LayoutsRight, GroupsRight, CodesRight, CodeRow, Average, Start, End, Members, InGroup, GroupLine;
      GroupExists(failed_node);
      failed_pid := 0;
      for g := 1 to p.Groups() + 1
        invariant failed_pid == 0 ==> forall h: nat | 1 <= h < g :: !InGroup(p, failed_node, h)
        invariant failed_pid != 0 ==> InGroup(p, failed_node, failed_pid)
      {
        GroupFacts(g);
        ContainsIff(g, failed_node);
        if failed_node in pid_group_map[g] {
          failed_pid := g;
        }
      }
    }

    ghost function OwnGroup(failed: nat, g: nat): seq<nat>
      requires p.Fits() && failed < p.k && InGroup(p, failed, g)
    {
      MemberAt(p, failed, g);
      Places(p, 0, Drop(Members(p, g), failed - Start(Average(p), g))) + [CodeAt(p, 1, g)]
    }

    /** src/ec/HHXORPlus.cc:872-879 */
    method RequiredFirst(failed_node: nat) returns (required_symbols: seq<int>, ghost g: nat)
      requires Ready() && failed_node < p.k - 1
      ensures InGroup(p, failed_node, g) && PlacesFit(symbols, OwnGroup(failed_node, g)) && required_symbols == Ids(symbols, OwnGroup(failed_node, g))
    {
      hide Field, Solves, MatrixRight, LayoutsRight, GroupsRight, CodesRight, CodeRow, Average, Start, End, GroupLine;
      var failed_pid := GroupOf(failed_node);
      g := failed_pid;
      MemberAt(p, failed_node, g);
      GroupFacts(g);
      required_symbols := OtherMembers(pid_group_map[failed_pid], failed_node, failed_node - Start(Average(p), g));
      SymbolOf(1, p.k + failed_pid);
      required_symbols := required_symbols + [layout[1][p.k + failed_pid]];
    }

    ghost function StoredCodes(m: nat): (r: seq<nat>)
      requires p.Fits()
      ensures |r| == m && forall i | 0 <= i < m :: r[i] == CodeAt(p, 1, i + 2)
    {
      seq(m, i requires 0 <= i < m => CodeAt(p, 1, i + 2))
    }

    /** src/ec/HHXORPlus.cc:881-888 */
    method RequiredLast() returns (required_symbols: seq<int>)
      requires Ready()
      ensures var places := StoredCodes(p.Groups() - 1) + [CodeAt(p, 0, 1)];
              PlacesFit(symbols, places) && required_symbols == Ids(symbols, places)
    {
      hide Field, Solves, MatrixRight, LayoutsRight, GroupsRight, CodesRight;
      SizesRight();
      required_symbols := [];
      for g := 1 to p.Groups() + 1
        invariant PlacesFit(symbols, StoredCodes(if g < 2 then 0 else g - 2))
        invariant required_symbols == Ids(symbols, StoredCodes(if g < 2 then 0 else g - 2))
      {
        if g == 1 {
          continue;
        }
        SymbolOf(1, p.k + g);
        required_symbols := required_symbols + [layout[1][p.k + g]];
      }
      SymbolOf(0, p.k + 1);
      required_symbols := required_symbols + [layout[0][p.k + 1]];
    }

    lemma ListsPlaces(required_symbols: seq<int>, places: seq<nat>, failed: nat)
      requires Ready() && failed < p.k && PlacesFit(symbols, places) && required_symbols == Ids(symbols, places)
      requires forall place: nat :: place in places <==> Required(failed, place)
      ensures Lists(required_symbols, failed)
    {
      hide Field, Solves, MatrixRight, LayoutsRight, GroupsRight, CodesRight, Required;
      forall place: nat | place < |symbols| ensures symbols[place] in required_symbols <==> Required(failed, place) {
        if symbols[place] in required_symbols {
          var i :| 0 <= i < |required_symbols| && required_symbols[i] == symbols[place];
          SamePlace(symbols, places[i], place);
        }
        if place in places {
          var i :| 0 <= i < |places| && places[i] == place;
          assert required_symbols[i] == symbols[place];
        }
      }
    }

    lemma GroupPlaced(failed: nat, g: nat, d: nat)
      requires p.Fits() && failed < p.k && d != failed && InGroup(p, failed, g) && InGroup(p, d, g)
      ensures DataAt(p, 0, d) in OwnGroup(failed, g)
    {
      hide Average;
      MemberAt(p, failed, g);
      var at := failed - Start(Average(p), g);
      var j := d - Start(Average(p), g);
      assert OwnGroup(failed, g)[if j < at then j else j - 1] == DataAt(p, 0, d);
    }

    lemma PlacedOf(failed: nat, g: nat, i: nat)
      requires p.Fits() && failed < p.k && InGroup(p, failed, g) && i < |OwnGroup(failed, g)| - 1
      ensures OfGroup(failed, g, OwnGroup(failed, g)[i])
    {
      hide Average;
      MemberAt(p, failed, g);
      var d := Drop(Members(p, g), failed - Start(Average(p), g))[i];
      assert InGroup(p, d, g) && d != failed;
    }

    lemma OwnGroupIs(failed: nat, g: nat, place: nat)
      requires p.Fits() && failed < p.k && InGroup(p, failed, g)
      ensures place in OwnGroup(failed, g) <==> OfGroup(failed, g, place)
    {
      hide Average, InGroup, Start, End;
      var places := OwnGroup(failed, g);
      assert places[|places| - 1] == CodeAt(p, 1, g);
      if d: nat :| d != failed && InGroup(p, d, g) && place == DataAt(p, 0, d) { GroupPlaced(failed, g, d); }
      if i :| 0 <= i < |places| - 1 && places[i] == place { PlacedOf(failed, g, i); }
    }

    lemma RequiredInGroup(failed: nat, g: nat, place: nat)
      requires Ready() && failed < p.k - 1 && InGroup(p, failed, g)
      ensures Required(failed, place) <==> place in Survivors(p, failed) || place in OwnGroup(failed, g)
    {
      hide Field, Solves, MatrixRight, LayoutsRight, GroupsRight, CodesRight, Survivors, OwnGroup, OfGroup, InGroup;
      OwnGroupIs(failed, g, place);
      if h: nat :| InGroup(p, failed, h) && OfGroup(failed, h, place) {
        SameGroup(failed, g, h);
      }
    }

    lemma SameGroup(failed: nat, g: nat, h: nat)
      requires p.Fits() && failed < p.k && InGroup(p, failed, g) && InGroup(p, failed, h)
      ensures g == h
    {
      ContainsIff(g, failed);
      ContainsIff(h, failed);
      OneGroup(p, failed, g, h);
    }

    lemma RequiredOfLast(place: nat)
      requires Ready()
      ensures Required(p.k - 1, place) <==> place in Survivors(p, p.k - 1) || place in StoredCodes(p.Groups() - 1) + [CodeAt(p, 0, 1)]
    {
      hide Field, Solves, MatrixRight, LayoutsRight, GroupsRight, CodesRight, Survivors;
      var places := StoredCodes(p.Groups() - 1) + [CodeAt(p, 0, 1)];
      if g: nat :| 2 <= g <= p.Groups() && place == CodeAt(p, 1, g) {
        assert places[g - 2] == place;
      }
      if place == CodeAt(p, 0, 1) { assert places[|places| - 1] == place; }
    }

    /** src/ec/HHXORPlus.cc:846-899 */
    method GetRequiredSymbolsSingle(failed_node: nat) returns (required_symbols: seq<int>)
      requires Ready() && failed_node < p.n
      ensures failed_node < p.k ==> Lists(required_symbols, failed_node)
      ensures failed_node >= p.k ==> |data_layout| == 2 && required_symbols == data_layout[0] + data_layout[1]
    {
      hide Field, Solves, MatrixRight, GroupsRight, CodesRight, Survivors, Required, Lists, Average, Start, End;
      if failed_node < p.k {
        required_symbols := RequiredSecond(failed_node);
        if failed_node < p.k - 1 {
          var more, g := RequiredFirst(failed_node);
          ghost var a, b := Survivors(p, failed_node), OwnGroup(failed_node, g);
          required_symbols := required_symbols + more;
          IdsJoin(symbols, a, b);
          forall place: nat ensures place in a + b <==> Required(failed_node, place) { RequiredInGroup(failed_node, g, place); }
          ListsPlaces(required_symbols, a + b, failed_node);
        } else {
          var more := RequiredLast();
          ghost var a, b := Survivors(p, failed_node), StoredCodes(p.Groups() - 1) + [CodeAt(p, 0, 1)];
          required_symbols := required_symbols + more;
          IdsJoin(symbols, a, b);
          forall place: nat ensures place in a + b <==> Required(failed_node, place) { RequiredOfLast(place); }
          ListsPlaces(required_symbols, a + b, failed_node);
        }
      } else {
        required_symbols := AllData();
      }
    }

    lemma RowsAre()
      requires Ready()
      ensures |layout| == 2 && |data_layout| == 2 && |layout[0]| == |layout[1]| == p.n && |data_layout[0]| == |data_layout[1]| == p.k <= p.n
      ensures forall w, i | 0 <= w < 2 && 0 <= i < p.k :: layout[w][i] == data_layout[w][i]
    {
      hide Field, Solves, MatrixRight, GroupsRight, CodesRight, Distinct;
    }

    /** src/ec/HHXORPlus.cc:891-895 */
    method AllData() returns (required_symbols: seq<int>)
      requires Ready()
      ensures |data_layout| == 2 && required_symbols == data_layout[0] + data_layout[1]
    {
      RowsAre();
      hide Field, Solves, MatrixRight, GroupsRight, CodesRight, LayoutsRight, Distinct;
      required_symbols := [];
      for w := 0 to 2
        invariant required_symbols == if w == 0 then [] else if w == 1 then data_layout[0] else data_layout[0] + data_layout[1]
      {
        ghost var before := required_symbols;
        assert before + data_layout[w][..0] == before;
        for node_id := 0 to p.k
          invariant required_symbols == before + data_layout[w][..node_id]
        {
          PrefixNext(before, data_layout[w], node_id);
          required_symbols := required_symbols + [layout[w][node_id]];
        }
        assert data_layout[w][..p.k] == data_layout[w];
      }
    }
  }

  lemma PrefixNext(before: seq<int>, row: seq<int>, i: nat)
    requires i < |row|
    ensures before + row[..i] + [row[i]] == before + row[..i + 1]
  {}

  lemma IdsJoin(symbols: seq<int>, a: seq<nat>, b: seq<nat>)
    requires PlacesFit(symbols, a) && PlacesFit(symbols, b)
    ensures PlacesFit(symbols, a + b) && Ids(symbols, a + b) == Ids(symbols, a) + Ids(symbols, b)
  {}
}
