/** The equations of Hitchhiker-XOR+ (src/ec/HHXORPlus.cc): which combinations Encode and DecodeSingle join,
    and why the second undo the first. */
module HitchhikerSpec {
  import opened Galois

  /** n nodes, k of them data, two sub-packets each; the groups belong to parities 1 to groups. */
  datatype Params = Params(n: nat, k: nat) {
    ghost predicate Fits() { n >= k + 3 && k >= 2 * (n - k - 1) }
    function Groups(): nat requires n >= k + 1 { n - k - 1 }
    function Size(): nat requires n >= k + 1 { 2 * n + 2 * (Groups() + 1) }
  }

  // Symbols by place: the two sub-packets of each node, then the virtual symbols in the order in which
  // SetSymbols hands them out (src/ec/HHXORPlus.cc:815-844).

  function DataAt(p: Params, sp: nat, i: nat): nat {
    if sp == 0 then i else p.n + i
  }

  function CodeAt(p: Params, sp: nat, i: nat): nat {
    DataAt(p, sp, p.k + i)
  }

  function GroupAt(p: Params, g: nat): nat {
    2 * p.n + g
  }

  function UncoupledAt(p: Params, sp: nat, i: nat): nat
    requires p.n >= p.k + 1
  {
    if sp == 0 then (if i == 1 then 2 * p.n else CodeAt(p, 0, i))
    else if i == 0 then CodeAt(p, 1, 0)
    else 2 * p.n + p.Groups() + i
  }

  function LastAt(p: Params): nat
    requires p.n >= p.k + 1
  {
    2 * p.n + 2 * p.Groups() + 1
  }

  /** The encoding matrix after its first two parity rows are swapped (src/ec/HHXORPlus.cc:112-120). */
  function CodeRow<F(!new)>(p: Params, f: GF<F>, r: nat): (row: seq<F>)
    ensures |row| == p.k
  {
    if r == p.k then Row(f, p.k, p.k + 1) else if r == p.k + 1 then Row(f, p.k, p.k) else Row(f, p.k, r)
  }

  // ---------------------------------------------------------------------------------------------
  // Groups of data nodes (src/ec/HHXORPlus.cc:33-61)

  function Average(p: Params): nat
    requires p.n > p.k + 1
  {
    p.k / p.Groups()
  }

  /** The first data node of group g, counted from 1; Start(groups + 1) would be past the last. */
  function Start(avg: nat, g: nat): nat {
    if g <= 1 then 0 else Start(avg, g - 1) + avg
  }

  function End(p: Params, g: nat): nat
    requires p.n > p.k + 1 && p.k > 0
  {
    if g < p.Groups() then Start(Average(p), g + 1) else p.k - 1
  }

  lemma {:induction false} StartIs(avg: nat, g: nat)
    requires g >= 1
    ensures Start(avg, g) == avg * (g - 1)
  {
    if g > 1 {
      StartIs(avg, g - 1);
      assert avg * (g - 1) == avg * (g - 2) + avg;
    }
  }

  /** The last group would end before k even with the last data node in it. */
  lemma LastStart(p: Params)
    requires p.Fits()
    ensures Average(p) >= 2 && Start(Average(p), p.Groups()) + Average(p) <= p.k
  {
    var gs, avg := p.Groups(), Average(p);
    AtLeastTwo(p.k, gs);
    StartIs(avg, gs + 1);
    assert avg * gs + p.k % gs == p.k;
  }

  /** Groups are not empty, and the last ends before the last data node. */
  lemma GroupRange(p: Params, g: nat)
    requires p.Fits() && 1 <= g <= p.Groups()
    ensures Average(p) >= 2 && Start(Average(p), g) < End(p, g) <= p.k - 1
  {
    LastStart(p);
    hide Average;
    var gs, avg := p.Groups(), Average(p);
    StartMonotone(avg, g, gs);
    if g < gs { StartMonotone(avg, g + 1, gs); }
  }

  lemma AtLeastTwo(k: nat, gs: nat)
    requires gs > 0 && k >= 2 * gs
    ensures k / gs >= 2
  {
    assert k / gs * gs + k % gs == k;
  }

  lemma {:induction false} StartMonotone(avg: nat, a: nat, b: nat)
    requires 1 <= a <= b
    ensures Start(avg, a) <= Start(avg, b)
  {
    if a < b { StartMonotone(avg, a, b - 1); }
  }

  function Members(p: Params, g: nat): (r: seq<nat>)
    requires p.Fits() && 1 <= g <= p.Groups()
    ensures |r| == End(p, g) - Start(Average(p), g) > 0
    ensures forall i | 0 <= i < |r| :: r[i] == Start(Average(p), g) + i < p.k - 1
  {
    GroupRange(p, g);
    seq(End(p, g) - Start(Average(p), g), i requires 0 <= i < End(p, g) - Start(Average(p), g) => Start(Average(p), g) + i)
  }

  /** The groups follow each other, all of them of size k / (n - k - 1) but the last, which takes what is left but the
      last data node. */
  lemma GroupShape(p: Params, g: nat)
    requires p.Fits() && 1 <= g <= p.n - p.k - 1
    ensures var gs := p.n - p.k - 1;
            && Members(p, g)[0] == p.k / gs * (g - 1)
            && |Members(p, g)| == if g < gs then p.k / gs else p.k - 1 - p.k / gs * (gs - 1)
  {
    GroupRange(p, g);
    StartIs(Average(p), g);
    StartIs(Average(p), g + 1);
    assert Average(p) * g == Average(p) * (g - 1) + Average(p);
  }

  /** Every data node but the last is in one group. */
  lemma {:induction false} GroupFrom(p: Params, d: nat, g: nat) returns (h: nat)
    requires p.Fits() && 1 <= g <= p.Groups() && Start(Average(p), g) <= d < p.k - 1
    ensures g <= h <= p.Groups() && Start(Average(p), h) <= d < End(p, h)
    decreases p.Groups() - g
  {
    if d < End(p, g) {
      h := g;
    } else {
      h := GroupFrom(p, d, g + 1);
    }
  }

  lemma OneGroup(p: Params, d: nat, g: nat, h: nat)
    requires p.Fits() && 1 <= g <= p.Groups() && 1 <= h <= p.Groups() && d in Members(p, g) && d in Members(p, h)
    ensures g == h
  {
    if g < h { StartMonotone(Average(p), g + 1, h); }
    if h < g { StartMonotone(Average(p), h + 1, g); }
  }

  // ---------------------------------------------------------------------------------------------
  // The combinations

  /** Symbol target is to be the combination of sources. */
  datatype Combination<F> = Combination(target: nat, sources: seq<nat>, coefs: seq<F>)

  ghost function Vals<F>(v: nat -> F, places: seq<nat>): (r: seq<F>)
    ensures |r| == |places| && forall i | 0 <= i < |r| :: r[i] == v(places[i])
  {
    seq(|places|, i requires 0 <= i < |places| => v(places[i]))
  }

  ghost predicate Meets<F(!new)>(f: GF<F>, v: nat -> F, c: Combination<F>) {
    v(c.target) == Dot(f, c.coefs, Vals(v, c.sources))
  }

  function DataList(p: Params, sp: nat): (r: seq<nat>)
    ensures |r| == p.k && forall i | 0 <= i < p.k :: r[i] == DataAt(p, sp, i)
  {
    seq(p.k, i requires 0 <= i < p.k => DataAt(p, sp, i))
  }

  function Places(p: Params, sp: nat, nodes: seq<nat>): (r: seq<nat>)
    ensures |r| == |nodes| && forall i | 0 <= i < |r| :: r[i] == DataAt(p, sp, nodes[i])
  {
    seq(|nodes|, i requires 0 <= i < |nodes| => DataAt(p, sp, nodes[i]))
  }

  /** The coefficients of some columns of a row. */
  function Select<F>(row: seq<F>, nodes: seq<nat>): (r: seq<F>)
    requires forall i | 0 <= i < |nodes| :: nodes[i] < |row|
    ensures |r| == |nodes| && forall i | 0 <= i < |r| :: r[i] == row[nodes[i]]
  {
    seq(|nodes|, i requires 0 <= i < |nodes| => row[nodes[i]])
  }

  function Uncoupled<F(!new)>(p: Params, f: GF<F>, sp: nat, i: nat): Combination<F>
    requires p.Fits()
  {
    Combination(UncoupledAt(p, sp, i), DataList(p, sp), CodeRow(p, f, p.k + i))
  }

  function GroupCode<F(!new)>(p: Params, f: GF<F>, g: nat): Combination<F>
    requires p.Fits() && 1 <= g <= p.Groups()
  {
    Combination(GroupAt(p, g), Places(p, 0, Members(p, g)), GroupLine(p, f, g))
  }

  /** The columns of the coupling parity that belong to group g. */
  function GroupLine<F(!new)>(p: Params, f: GF<F>, g: nat): (r: seq<F>)
    requires p.Fits() && 1 <= g <= p.Groups()
    ensures |r| == |Members(p, g)|
  {
    Select(CodeRow(p, f, p.k + 1), Members(p, g))
  }

  function CoupleFirst<F(!new)>(p: Params, f: GF<F>): Combination<F>
    requires p.Fits()
  {
    Combination(CodeAt(p, 0, 1), [UncoupledAt(p, 0, 1), UncoupledAt(p, 1, 1), GroupAt(p, 1)], [f.one, f.one, f.one])
  }

  function Couple<F(!new)>(p: Params, f: GF<F>, g: nat): Combination<F>
    requires p.Fits()
  {
    Combination(CodeAt(p, 1, g), [UncoupledAt(p, 1, g), GroupAt(p, g)], [f.one, f.one])
  }

  /** A stripe: both uncoupled parities, the group codes, and the coupled parities. */
  ghost predicate Stripe<F(!new)>(p: Params, f: GF<F>, v: nat -> F)
    requires p.Fits()
  {
    && (forall sp, i: nat | 0 <= sp < 2 && i < p.n - p.k :: Meets(f, v, Uncoupled(p, f, sp, i)))
    && (forall g: nat | 1 <= g <= p.Groups() :: Meets(f, v, GroupCode(p, f, g)))
    && Meets(f, v, CoupleFirst(p, f))
    && (forall g: nat | 1 <= g <= p.Groups() :: Meets(f, v, Couple(p, f, g)))
  }

  // ---------------------------------------------------------------------------------------------
  // Inner products

  lemma XorTwo<F(!new)>(f: GF<F>, x: F, y: F)
    requires Field(f)
    ensures Dot(f, [f.one, f.one], [x, y]) == f.add(x, y)
  {
    hide Field;
    DotTwo(f, [f.one, f.one], [x, y]);
    ProductLaws(f, x, f.one, f.one);
    ProductLaws(f, y, f.one, f.one);
  }

  lemma XorThree<F(!new)>(f: GF<F>, x: F, y: F, z: F)
    requires Field(f)
    ensures Dot(f, [f.one, f.one, f.one], [x, y, z]) == f.add(f.add(x, y), z)
  {
    hide Field, Dot;
    DotJoin(f, [f.one, f.one], [f.one], [x, y], [z]);
    assert [f.one, f.one] + [f.one] == [f.one, f.one, f.one] && [x, y] + [z] == [x, y, z];
    XorTwo(f, x, y);
    DotOne(f, f.one, z);
    ProductLaws(f, z, f.one, f.one);
  }

  /** a + (a + b) is b in characteristic two. */
  lemma Cancels<F(!new)>(f: GF<F>, a: F, b: F)
    requires Field(f)
    ensures f.add(a, f.add(a, b)) == b && f.add(f.add(a, b), b) == a && f.add(f.add(b, a), b) == a
  {
    hide Field;
    SumLaws(f, a, a, b);
    SumLaws(f, b, f.zero, b);
    SumLaws(f, a, b, b);
    SumLaws(f, b, b, b);
    SumLaws(f, a, f.zero, a);
    SumLaws(f, b, a, b);
  }

  // ---------------------------------------------------------------------------------------------
  // A matrix with all unit rows but one

  /** The list without place d. */
  function Drop<T>(s: seq<T>, d: nat): (r: seq<T>)
    requires d < |s|
    ensures |r| == |s| - 1 && forall i | 0 <= i < |r| :: r[i] == if i < d then s[i] else s[i + 1]
  {
    s[..d] + s[d + 1..]
  }

  function Upto(n: nat): (r: seq<nat>)
    ensures |r| == n && forall i | 0 <= i < n :: r[i] == i
  {
    seq(n, i => i)
  }

  /** The places other than d, in order. */
  function Except(n: nat, d: nat): (r: seq<nat>)
    requires d < n
    ensures |r| == n - 1 && forall i | 0 <= i < n - 1 :: r[i] == (if i < d then i else i + 1) < n && r[i] != d
  {
    Drop(Upto(n), d)
  }

  /** Unit rows for every column but d, and c below. */
  function OneOut<F(!new)>(f: GF<F>, c: seq<F>, d: nat): (m: seq<seq<F>>)
    requires d < |c|
    ensures Shaped(m, |c|, |c|)
  {
    seq(|c|, i requires 0 <= i < |c| => if i < |c| - 1 then Row(f, |c|, Except(|c|, d)[i]) else c)
  }

  lemma DotDrop<F(!new)>(f: GF<F>, c: seq<F>, x: seq<F>, d: nat)
    requires Field(f) && |c| == |x| && d < |c|
    ensures Dot(f, c, x) == f.add(Dot(f, Drop(c, d), Drop(x, d)), f.mul(c[d], x[d]))
  {
    hide Field, Dot;
    var a, b, y, z := c[..d], c[d + 1..], x[..d], x[d + 1..];
    assert c == (a + [c[d]]) + b && x == (y + [x[d]]) + z;
    DotJoin(f, a + [c[d]], b, y + [x[d]], z);
    DotJoin(f, a, [c[d]], y, [x[d]]);
    DotOne(f, c[d], x[d]);
    DotJoin(f, a, b, y, z);
    var p, q, r := Dot(f, a, y), f.mul(c[d], x[d]), Dot(f, b, z);
    SumLaws(f, p, q, r);
    SumLaws(f, q, r, p);
    SumLaws(f, p, r, q);
  }

  /** What a one-out matrix makes of a vector: everything but place d, then the combination. */
  lemma OneOutActs<F(!new)>(f: GF<F>, c: seq<F>, d: nat, x: seq<F>)
    requires Field(f) && d < |c| == |x|
    ensures MatVec(f, OneOut(f, c, d), x) == Drop(x, d) + [Dot(f, c, x)]
  {
    hide Field, Dot, Row;
    var m := OneOut(f, c, d);
    forall i | 0 <= i < |c| ensures MatVec(f, m, x)[i] == (Drop(x, d) + [Dot(f, c, x)])[i] {
      if i < |c| - 1 {
        UnitRow(f, |c|, Except(|c|, d)[i], x);
      }
    }
  }

  /** The matrix that puts place d back. */
  function PutBack<F(!new)>(f: GF<F>, c: seq<F>, d: nat, e: F): (m: seq<seq<F>>)
    requires d < |c|
    ensures Shaped(m, |c|, |c|)
  {
    seq(|c|, i requires 0 <= i < |c| => PutBackRow(f, c, d, e, i))
  }

  function PutBackRow<F(!new)>(f: GF<F>, c: seq<F>, d: nat, e: F, i: nat): (r: seq<F>)
    requires d < |c| && i < |c|
    ensures |r| == |c|
  {
    if i < d then Row(f, |c|, i) else if i == d then Times(f, e, Drop(c, d)) + [e] else Row(f, |c|, i - 1)
  }

  lemma PutBackAt<F(!new)>(f: GF<F>, c: seq<F>, d: nat, e: F, y: seq<F>, i: nat)
    requires Field(f) && d < |c| == |y| && i < |c|
    ensures var n := |c| - 1;
            MatVec(f, PutBack(f, c, d, e), y)[i] ==
              if i < d then y[i] else if i == d then f.mul(e, f.add(Dot(f, Drop(c, d), y[..n]), y[n])) else y[i - 1]
  {
    hide Field, Dot, Row;
    var n := |c| - 1;
    if i < d {
      UnitRow(f, |c|, i, y);
    } else if i == d {
      assert y == y[..n] + [y[n]];
      DotJoin(f, Times(f, e, Drop(c, d)), [e], y[..n], [y[n]]);
      DotTimes(f, e, Drop(c, d), y[..n]);
      DotOne(f, e, y[n]);
      Distributes(f, e, Dot(f, Drop(c, d), y[..n]), y[n]);
    } else {
      UnitRow(f, |c|, i - 1, y);
    }
  }

  /** Such a matrix can be inverted when the odd row has something in the odd column. */
  lemma OneOutInvertible<F(!new)>(f: GF<F>, c: seq<F>, d: nat)
    requires Field(f) && d < |c| && c[d] != f.zero
    ensures Invertible(f, OneOut(f, c, d))
  {
    hide Field, Dot, MatVec;
    var e := InverseOf(f, c[d]);
    var s, t := OneOut(f, c, d), PutBack(f, c, d, e);
    forall x: seq<F> | |x| == |s| ensures MatVec(f, t, MatVec(f, s, x)) == x { BackAfterOut(f, c, d, e, x); }
    forall y: seq<F> | |y| == |s| ensures MatVec(f, s, MatVec(f, t, y)) == y { OutAfterBack(f, c, d, e, y); }
    assert IsInverse(f, s, t);
  }

  lemma BackAfterOut<F(!new)>(f: GF<F>, c: seq<F>, d: nat, e: F, x: seq<F>)
    requires Field(f) && d < |c| == |x| && f.mul(e, c[d]) == f.one
    ensures MatVec(f, PutBack(f, c, d, e), MatVec(f, OneOut(f, c, d), x)) == x
  {
    hide Field, Dot, MatVec;
    OneOutActs(f, c, d, x);
    var y := Drop(x, d) + [Dot(f, c, x)];
    var n := |c| - 1;
    assert y[..n] == Drop(x, d);
    forall i | 0 <= i < |c| ensures MatVec(f, PutBack(f, c, d, e), y)[i] == x[i] {
      PutBackAt(f, c, d, e, y, i);
      if i == d {
        DotDrop(f, c, x, d);
        Cancels(f, Dot(f, Drop(c, d), Drop(x, d)), f.mul(c[d], x[d]));
        ProductLaws(f, e, c[d], x[d]);
        ProductLaws(f, x[d], f.one, f.one);
      }
    }
  }

  lemma OutAfterBack<F(!new)>(f: GF<F>, c: seq<F>, d: nat, e: F, y: seq<F>)
    requires Field(f) && d < |c| == |y| && f.mul(c[d], e) == f.one
    ensures MatVec(f, OneOut(f, c, d), MatVec(f, PutBack(f, c, d, e), y)) == y
  {
    hide Field, Dot, MatVec;
    var n := |c| - 1;
    var x := MatVec(f, PutBack(f, c, d, e), y);
    PutBackAt(f, c, d, e, y, d);
    forall i | 0 <= i < n ensures Drop(x, d)[i] == y[i] {
      PutBackAt(f, c, d, e, y, if i < d then i else i + 1);
    }
    assert Drop(x, d) == y[..n];
    OneOutActs(f, c, d, x);
    DotDrop(f, c, x, d);
    var q := Dot(f, Drop(c, d), y[..n]);
    ProductLaws(f, c[d], e, f.add(q, y[n]));
    ProductLaws(f, f.add(q, y[n]), f.one, f.one);
    Cancels(f, q, y[n]);
    assert y == y[..n] + [y[n]];
  }
}
