/** Flows on square matrices: what FlowGraph (src/sol/FlowGraph.cc) computes, independent of how. */
module Flows {
  type Matrix = seq<seq<int>>

  ghost predicate Square(m: Matrix, n: nat) {
    |m| == n && forall u | 0 <= u < n :: |m[u]| == n
  }

  // ---------------------------------------------------------------------------------------------
  // Sums

  ghost function Sum(r: seq<int>): int {
    if r == [] then 0 else Sum(r[..|r| - 1]) + r[|r| - 1]
  }

  lemma {:induction false} SumUpdate(r: seq<int>, i: nat, x: int)
    requires i < |r|
    ensures Sum(r[i := x]) == Sum(r) - r[i] + x
  {
    var r' := r[i := x];
    if i == |r| - 1 {
      assert r'[..i] == r[..i];
    } else {
      assert r'[..|r| - 1] == r[..|r| - 1][i := x];
      SumUpdate(r[..|r| - 1], i, x);
    }
  }

  lemma {:induction false} SumMonotone(a: seq<int>, b: seq<int>)
    requires |a| == |b| && forall i | 0 <= i < |a| :: a[i] <= b[i]
    ensures Sum(a) <= Sum(b)
  {
    if a != [] { SumMonotone(a[..|a| - 1], b[..|b| - 1]); }
  }

  lemma {:induction false} SumOpposite(a: seq<int>, b: seq<int>)
    requires |a| == |b| && forall i | 0 <= i < |a| :: a[i] == -b[i]
    ensures Sum(a) == -Sum(b)
  {
    if a != [] { SumOpposite(a[..|a| - 1], b[..|b| - 1]); }
  }

  lemma {:induction false} SumApart(a: seq<int>, b: seq<int>, c: seq<int>)
    requires |a| == |b| == |c| && forall i | 0 <= i < |a| :: a[i] == b[i] + c[i]
    ensures Sum(a) == Sum(b) + Sum(c)
  {
    if a != [] { SumApart(a[..|a| - 1], b[..|b| - 1], c[..|c| - 1]); }
  }

  lemma {:induction false} SumZero(r: seq<int>)
    requires forall i | 0 <= i < |r| :: r[i] == 0
    ensures Sum(r) == 0
  {
    if r != [] { SumZero(r[..|r| - 1]); }
  }

  /** The vertices. */
  ghost function All(n: nat): (s: set<int>)
    ensures forall v :: v in s <==> 0 <= v < n
  {
    if n == 0 then {} else All(n - 1) + {n - 1}
  }

  /** How many entries of a row of zeros and ones are ones. */
  lemma {:induction false} SumCounts(r: seq<int>, ones: set<int>)
    requires ones <= All(|r|)
    requires forall i | 0 <= i < |r| :: r[i] == if i in ones then 1 else 0
    ensures Sum(r) == |ones|
  {
    if r == [] {
      assert ones == {};
    } else {
      var n := |r| - 1;
      SumCounts(r[..n], ones - {n});
      if n in ones { assert ones == ones - {n} + {n}; } else { assert ones - {n} == ones; }
    }
  }

  /** The row with everything outside cols set to zero. */
  ghost function Masked(r: seq<int>, cols: set<int>): (m: seq<int>)
    ensures |m| == |r| && forall v | 0 <= v < |r| :: m[v] == if v in cols then r[v] else 0
  {
    seq(|r|, v requires 0 <= v < |r| => if v in cols then r[v] else 0)
  }

  ghost function Column(m: Matrix, n: nat, v: nat, k: nat): (c: seq<int>)
    requires Square(m, n) && v < n && k <= n
    ensures |c| == k && forall u | 0 <= u < k :: c[u] == m[u][v]
  {
    seq(k, u requires 0 <= u < k => m[u][v])
  }

  /** The sum of the entries m[u][v] with u < k in rows and v < l in cols. */
  ghost function Block(m: Matrix, n: nat, rows: set<int>, cols: set<int>, k: nat, l: nat): int
    requires Square(m, n) && k <= n && l <= n
  {
    if k == 0 then 0
    else Block(m, n, rows, cols, k - 1, l) + if k - 1 in rows then Sum(Masked(m[k - 1], cols)[..l]) else 0
  }

  lemma {:induction false} BlockWiden(m: Matrix, n: nat, rows: set<int>, cols: set<int>, k: nat, l: nat)
    requires Square(m, n) && k <= n && l < n
    ensures Block(m, n, rows, cols, k, l + 1) ==
            Block(m, n, rows, cols, k, l) + if l in cols then Sum(Masked(Column(m, n, l, k), rows)) else 0
  {
    if k > 0 {
      BlockWiden(m, n, rows, cols, k - 1, l);
      var r := Masked(m[k - 1], cols);
      assert r[..l + 1][..l] == r[..l];
      var c := Masked(Column(m, n, l, k), rows);
      assert c[..k - 1] == Masked(Column(m, n, l, k - 1), rows);
    }
  }

  lemma {:induction false} BlockApart(m: Matrix, n: nat, rows: set<int>, a: set<int>, b: set<int>, k: nat)
    requires Square(m, n) && k <= n && a !! b
    ensures Block(m, n, rows, a + b, k, n) == Block(m, n, rows, a, k, n) + Block(m, n, rows, b, k, n)
  {
    if k > 0 {
      BlockApart(m, n, rows, a, b, k - 1);
      SumApart(Masked(m[k - 1], a + b)[..n], Masked(m[k - 1], a)[..n], Masked(m[k - 1], b)[..n]);
    }
  }

  lemma {:induction false} BlockMonotone(a: Matrix, b: Matrix, n: nat, rows: set<int>, cols: set<int>, k: nat)
    requires Square(a, n) && Square(b, n) && k <= n
    requires forall u, v | 0 <= u < n && 0 <= v < n && u in rows && v in cols :: a[u][v] <= b[u][v]
    ensures Block(a, n, rows, cols, k, n) <= Block(b, n, rows, cols, k, n)
  {
    if k > 0 {
      BlockMonotone(a, b, n, rows, cols, k - 1);
      if k - 1 in rows { SumMonotone(Masked(a[k - 1], cols)[..n], Masked(b[k - 1], cols)[..n]); }
    }
  }

  // ---------------------------------------------------------------------------------------------
  // Flows and cuts

  ghost predicate Skew(f: Matrix, n: nat)
    requires Square(f, n)
  {
    forall u, v | 0 <= u < n && 0 <= v < n :: f[u][v] == -f[v][u]
  }

  /** A flow from vertex 0 to vertex n - 1 within the capacities: what leaves any other vertex sums to zero. */
  ghost predicate IsFlow(cap: Matrix, f: Matrix, n: nat) {
    && Square(cap, n) && Square(f, n) && Skew(f, n)
    && (forall u, v | 0 <= u < n && 0 <= v < n :: f[u][v] <= cap[u][v])
    && (forall u | 0 < u < n - 1 :: Sum(f[u]) == 0)
  }

  ghost function Value(f: Matrix): int
    requires f != []
  {
    Sum(f[0])
  }

  /** A side of a cut: it has the source and not the sink. */
  ghost predicate IsCut(side: set<int>, n: nat) {
    side <= All(n) && 0 in side && n - 1 !in side
  }

  ghost function CutCapacity(cap: Matrix, n: nat, side: set<int>): int
    requires Square(cap, n)
  {
    Block(cap, n, side, All(n) - side, n, n)
  }

  /** What goes round inside one side cancels. */
  lemma {:induction false} InsideCancels(f: Matrix, n: nat, side: set<int>, k: nat)
    requires Square(f, n) && Skew(f, n) && k <= n
    ensures Block(f, n, side, side, k, k) == 0
  {
    if k > 0 {
      var l := k - 1;
      InsideCancels(f, n, side, l);
      BlockWiden(f, n, side, side, l, l);
      if l in side {
        var row, col := Masked(f[l], side), Masked(Column(f, n, l, l), side);
        assert row[..k][..l] == row[..l];
        assert f[l][l] == -f[l][l];
        SumOpposite(row[..l], col);
      }
    }
  }

  lemma {:induction false} BlockValue(cap: Matrix, f: Matrix, n: nat, side: set<int>, k: nat)
    requires IsFlow(cap, f, n) && IsCut(side, n) && k <= n
    ensures Block(f, n, side, All(n), k, n) == if k == 0 then 0 else Value(f)
  {
    if k > 0 {
      BlockValue(cap, f, n, side, k - 1);
      assert Masked(f[k - 1], All(n))[..n] == f[k - 1];
    }
  }

  /** The value of a flow is what it carries over any cut. */
  lemma AcrossCut(cap: Matrix, f: Matrix, n: nat, side: set<int>)
    requires IsFlow(cap, f, n) && IsCut(side, n)
    ensures Value(f) == Block(f, n, side, All(n) - side, n, n)
  {
    BlockValue(cap, f, n, side, n);
    BlockApart(f, n, side, side, All(n) - side, n);
    assert side + (All(n) - side) == All(n);
    InsideCancels(f, n, side, n);
  }

  lemma CutBound(cap: Matrix, f: Matrix, n: nat, side: set<int>)
    requires IsFlow(cap, f, n) && IsCut(side, n)
    ensures Value(f) <= CutCapacity(cap, n, side)
  {
    AcrossCut(cap, f, n, side);
    BlockMonotone(f, cap, n, side, All(n) - side, n);
  }

  ghost predicate Saturated(cap: Matrix, f: Matrix, n: nat, side: set<int>)
    requires Square(cap, n) && Square(f, n)
  {
    forall u, v | 0 <= u < n && 0 <= v < n && u in side && v !in side :: f[u][v] == cap[u][v]
  }

  /** A flow that fills a cut is a maximum flow, and its value is the capacity of that cut. */
  lemma MaxFlowMinCut(cap: Matrix, f: Matrix, n: nat, side: set<int>)
    requires IsFlow(cap, f, n) && IsCut(side, n) && Saturated(cap, f, n, side)
    ensures Value(f) == CutCapacity(cap, n, side)
    ensures forall g | IsFlow(cap, g, n) :: Value(g) <= Value(f)
    ensures forall other | IsCut(other, n) :: CutCapacity(cap, n, side) <= CutCapacity(cap, n, other)
  {
    CutBound(cap, f, n, side);
    AcrossCut(cap, f, n, side);
    BlockMonotone(cap, f, n, side, All(n) - side, n);
    forall g | IsFlow(cap, g, n) ensures Value(g) <= Value(f) { CutBound(cap, g, n, side); }
    forall other | IsCut(other, n) ensures Value(f) <= CutCapacity(cap, n, other) { CutBound(cap, f, n, other); }
  }

  // ---------------------------------------------------------------------------------------------
  // Residual capacities

  /** Residuals are capacities less what flows, in both directions. */
  ghost predicate Residual(cap: Matrix, res: Matrix, n: nat) {
    && Square(cap, n) && Square(res, n)
    && (forall u, v | 0 <= u < n && 0 <= v < n :: 0 <= res[u][v])
    && (forall u, v | 0 <= u < n && 0 <= v < n :: res[u][v] + res[v][u] == cap[u][v] + cap[v][u])
  }

  ghost function NetRow(cap: seq<int>, res: seq<int>): (f: seq<int>)
    requires |cap| == |res|
    ensures |f| == |cap| && forall v | 0 <= v < |cap| :: f[v] == cap[v] - res[v]
  {
    seq(|cap|, v requires 0 <= v < |cap| => cap[v] - res[v])
  }

  /** The flow that the residuals stand for. */
  ghost function Net(cap: Matrix, res: Matrix, n: nat): (f: Matrix)
    requires Square(cap, n) && Square(res, n)
    ensures Square(f, n) && forall u | 0 <= u < n :: f[u] == NetRow(cap[u], res[u])
  {
    seq(n, u requires 0 <= u < n => NetRow(cap[u], res[u]))
  }

  ghost predicate Conserves(cap: Matrix, res: Matrix, n: nat) {
    Residual(cap, res, n) && forall u | 0 < u < n - 1 :: Sum(NetRow(cap[u], res[u])) == 0
  }

  lemma NetIsFlow(cap: Matrix, res: Matrix, n: nat)
    requires Conserves(cap, res, n)
    ensures IsFlow(cap, Net(cap, res, n), n)
  {
    hide Sum;
  }

  lemma NothingFlows(cap: Matrix, n: nat)
    requires Square(cap, n) && forall u, v | 0 <= u < n && 0 <= v < n :: 0 <= cap[u][v]
    ensures Conserves(cap, cap, n) && forall u | 0 <= u < n :: Sum(NetRow(cap[u], cap[u])) == 0
  {
    forall u | 0 <= u < n ensures Sum(NetRow(cap[u], cap[u])) == 0 { SumZero(NetRow(cap[u], cap[u])); }
  }

  /** amount more goes from u to v. */
  ghost function Push(res: Matrix, n: nat, u: nat, v: nat, amount: int): (r: Matrix)
    requires Square(res, n) && u < n && v < n && u != v
    ensures Square(r, n)
    ensures forall a, b | 0 <= a < n && 0 <= b < n ::
              r[a][b] == res[a][b] - (if a == u && b == v then amount else 0) + (if a == v && b == u then amount else 0)
  {
    res[u := res[u][v := res[u][v] - amount]][v := res[v][u := res[v][u] + amount]]
  }

  lemma PushRow(cap: seq<int>, res: seq<int>, v: nat, amount: int)
    requires |cap| == |res| && v < |cap|
    ensures Sum(NetRow(cap, res[v := res[v] - amount])) == Sum(NetRow(cap, res)) + amount
  {
    var f := NetRow(cap, res);
    assert NetRow(cap, res[v := res[v] - amount]) == f[v := f[v] + amount];
    SumUpdate(f, v, f[v] + amount);
  }

  lemma PushedRow(res: Matrix, n: nat, u: nat, v: nat, amount: int, x: nat)
    requires Square(res, n) && u < n && v < n && u != v && x < n
    ensures |Push(res, n, u, v, amount)| == |res| && |Push(res, n, u, v, amount)[x]| == |res[x]| == n
    ensures Push(res, n, u, v, amount)[x]
            == if x == u then res[u][v := res[u][v] - amount] else if x == v then res[v][u := res[v][u] + amount] else res[x]
  {}

  lemma PushSums(cap: Matrix, res: Matrix, n: nat, u: nat, v: nat, amount: int, x: nat)
    requires Square(cap, n) && Square(res, n) && u < n && v < n && u != v && x < n
    ensures var res' := Push(res, n, u, v, amount);
            Sum(NetRow(cap[x], res'[x])) == Sum(NetRow(cap[x], res[x])) + (if x == u then amount else 0) - (if x == v then amount else 0)
  {
    hide Sum, Push, NetRow;
    PushedRow(res, n, u, v, amount, x);
    if x == u {
      PushRow(cap[u], res[u], v, amount);
    } else if x == v {
      PushRow(cap[v], res[v], u, -amount);
    }
  }

  lemma PushResidual(cap: Matrix, res: Matrix, n: nat, u: nat, v: nat, amount: int)
    requires Residual(cap, res, n) && u < n && v < n && u != v && 0 <= amount <= res[u][v]
    ensures Residual(cap, Push(res, n, u, v, amount), n)
  {
    var res' := Push(res, n, u, v, amount);
    forall a, b | 0 <= a < n && 0 <= b < n ensures 0 <= res'[a][b] && res'[a][b] + res'[b][a] == cap[a][b] + cap[b][a] {
      PushedEntry(cap, res, n, u, v, amount, a, b);
    }
    hide Push;
  }

  lemma PushedEntry(cap: Matrix, res: Matrix, n: nat, u: nat, v: nat, amount: int, a: nat, b: nat)
    requires Residual(cap, res, n) && u < n && v < n && u != v && 0 <= amount <= res[u][v] && a < n && b < n
    ensures var res' := Push(res, n, u, v, amount); 0 <= res'[a][b] && res'[a][b] + res'[b][a] == cap[a][b] + cap[b][a]
  {
    assert res[a][b] + res[b][a] == cap[a][b] + cap[b][a];
    assert 0 <= res[a][b];
    hide Residual;
  }

  // ---------------------------------------------------------------------------------------------
  // Paths

  /** A path from a to b over edges with something left. */
  ghost predicate IsPath(res: Matrix, n: nat, path: seq<int>, a: int, b: int) {
    && Square(res, n) && path != [] && path[0] == a && path[|path| - 1] == b
    && (forall i | 0 <= i < |path| :: 0 <= path[i] < n)
    && (forall i | 0 < i < |path| :: res[path[i - 1]][path[i]] > 0)
  }

  /** Nothing left leads out of the side. */
  ghost predicate Sealed(res: Matrix, n: nat, side: set<int>)
    requires Square(res, n)
  {
    forall u, v | 0 <= u < n && 0 <= v < n && u in side && v !in side :: res[u][v] <= 0
  }

  lemma {:induction false} SealedIn(res: Matrix, n: nat, side: set<int>, path: seq<int>, a: int, b: int)
    requires IsPath(res, n, path, a, b) && Sealed(res, n, side) && a in side
    ensures b in side
    decreases |path|
  {
    if |path| > 1 {
      var m := |path| - 1;
      SealedIn(res, n, side, path[..m], a, path[m - 1]);
      assert res[path[m - 1]][path[m]] > 0;
    }
  }

  lemma SealedSaturated(cap: Matrix, res: Matrix, n: nat, side: set<int>)
    requires Residual(cap, res, n) && Sealed(res, n, side)
    ensures Saturated(cap, Net(cap, res, n), n, side)
  {
    forall u, v | 0 <= u < n && 0 <= v < n && u in side && v !in side ensures Net(cap, res, n)[u][v] == cap[u][v] {
      assert 0 <= res[u][v] <= 0;
    }
  }
}
