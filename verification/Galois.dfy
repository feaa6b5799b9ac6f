/** The field arithmetic behind the codes: an abstract field of characteristic 2, and the matrix calls of
    src/ec/Computation.hh that the code constructions make. */
module Galois {
  /** elem(a) is the field element written as the integer a. */
  datatype GF<!F(!new)> = GF(zero: F, one: F, add: (F, F) -> F, mul: (F, F) -> F, elem: nat -> F)

  /** Always true: the elements that the laws are to be applied to. */
  ghost predicate About<F(!new)>(f: GF<F>, a: F, b: F, c: F) {
    true
  }

  ghost predicate Field<F(!new)>(f: GF<F>) {
    && Adds(f) && Multiplies(f)
    && (forall a, b, c {:trigger About(f, a, b, c)} :: About(f, a, b, c) ==>
          f.mul(a, f.add(b, c)) == f.add(f.mul(a, b), f.mul(a, c)))
    && f.elem(1) == f.one && f.elem(2) != f.zero && f.elem(2) != f.one
  }

  ghost predicate Adds<F(!new)>(f: GF<F>) {
    forall a, b, c {:trigger About(f, a, b, c)} :: About(f, a, b, c) ==>
      && f.add(a, b) == f.add(b, a)
      && f.add(f.add(a, b), c) == f.add(a, f.add(b, c))
      && f.add(a, f.zero) == a && f.add(a, a) == f.zero
  }

  ghost predicate Multiplies<F(!new)>(f: GF<F>) {
    forall a, b, c {:trigger About(f, a, b, c)} :: About(f, a, b, c) ==>
      && f.mul(a, b) == f.mul(b, a)
      && f.mul(f.mul(a, b), c) == f.mul(a, f.mul(b, c))
      && f.mul(a, f.one) == a && f.mul(a, f.zero) == f.zero
      && (a != f.zero ==> HasInverse(f, a))
  }

  ghost predicate HasInverse<F(!new)>(f: GF<F>, a: F) {
    exists b :: f.mul(a, b) == f.one
  }

  lemma SumLaws<F(!new)>(f: GF<F>, a: F, b: F, c: F)
    requires Field(f)
    ensures f.add(a, b) == f.add(b, a) && f.add(f.add(a, b), c) == f.add(a, f.add(b, c))
    ensures f.add(a, f.zero) == a && f.add(f.zero, a) == a && f.add(a, a) == f.zero
  {
    hide Multiplies;
    assert About(f, a, b, c) && About(f, f.zero, a, a);
  }

  lemma ProductLaws<F(!new)>(f: GF<F>, a: F, b: F, c: F)
    requires Field(f)
    ensures f.mul(a, b) == f.mul(b, a) && f.mul(f.mul(a, b), c) == f.mul(a, f.mul(b, c))
    ensures f.mul(a, f.one) == a && f.mul(f.one, a) == a && f.mul(a, f.zero) == f.zero && f.mul(f.zero, a) == f.zero
  {
    hide Adds;
    assert About(f, a, b, c) && About(f, f.one, a, a) && About(f, f.zero, a, a);
  }

  lemma Distributes<F(!new)>(f: GF<F>, a: F, b: F, c: F)
    requires Field(f)
    ensures f.mul(a, f.add(b, c)) == f.add(f.mul(a, b), f.mul(a, c))
    ensures f.mul(f.add(b, c), a) == f.add(f.mul(b, a), f.mul(c, a))
  {
    hide Adds;
    assert About(f, a, b, c);
    ProductLaws(f, a, f.add(b, c), a);
    ProductLaws(f, a, b, a);
    ProductLaws(f, a, c, a);
  }

  lemma Elements<F(!new)>(f: GF<F>)
    requires Field(f)
    ensures f.elem(1) == f.one && f.elem(2) != f.zero && f.elem(2) != f.one
  {
    hide Adds, Multiplies;
  }

  lemma InverseOf<F(!new)>(f: GF<F>, a: F) returns (b: F)
    requires Field(f) && a != f.zero
    ensures f.mul(a, b) == f.one && f.mul(b, a) == f.one
  {
    hide Adds;
    assert About(f, a, f.one, a);
    assert HasInverse(f, a);
    b :| f.mul(a, b) == f.one;
    assert About(f, a, b, a);
  }

  /** The inner product over the shorter of the two. */
  function Dot<F(!new)>(f: GF<F>, a: seq<F>, b: seq<F>): F {
    if a == [] || b == [] then f.zero
    else if |a| > |b| then Dot(f, a[..|b|], b)
    else if |b| > |a| then Dot(f, a, b[..|a|])
    else f.add(Dot(f, a[..|a| - 1], b[..|a| - 1]), f.mul(a[|a| - 1], b[|a| - 1]))
  }

  /** Matrix times column. */
  function MatVec<F(!new)>(f: GF<F>, m: seq<seq<F>>, x: seq<F>): (r: seq<F>)
    ensures |r| == |m|
  {
    seq(|m|, i requires 0 <= i < |m| => Dot(f, m[i], x))
  }

  ghost predicate Shaped<F>(m: seq<seq<F>>, rows: nat, cols: nat) {
    |m| == rows && forall i | 0 <= i < rows :: |m[i]| == cols
  }

  function Zeroes<F(!new)>(f: GF<F>, n: nat): seq<F> {
    seq(n, _ => f.zero)
  }

  function Plus<F(!new)>(f: GF<F>, a: seq<F>, b: seq<F>): (r: seq<F>)
    requires |a| == |b|
    ensures |r| == |a|
  {
    seq(|a|, i requires 0 <= i < |a| => f.add(a[i], b[i]))
  }

  function Times<F(!new)>(f: GF<F>, c: F, a: seq<F>): (r: seq<F>)
    ensures |r| == |a|
  {
    seq(|a|, i requires 0 <= i < |a| => f.mul(c, a[i]))
  }

  /** Row times matrix: JerasureMatrixMultiply with a single row. */
  function VecMat<F(!new)>(f: GF<F>, v: seq<F>, m: seq<seq<F>>, cols: nat): (r: seq<F>)
    requires |v| == |m| && forall i | 0 <= i < |m| :: |m[i]| == cols
    ensures |r| == cols
    decreases |v|
  {
    if v == [] then Zeroes(f, cols)
    else
      var n := |v| - 1;
      Plus(f, VecMat(f, v[..n], m[..n], cols), Times(f, v[n], m[n]))
  }

  lemma {:induction false} DotZeroes<F(!new)>(f: GF<F>, n: nat, x: seq<F>)
    requires Field(f) && |x| == n
    ensures Dot(f, Zeroes(f, n), x) == f.zero
  {
    hide Field;
    if n > 0 {
      assert Zeroes(f, n)[..n - 1] == Zeroes(f, n - 1);
      DotZeroes(f, n - 1, x[..n - 1]);
      ProductLaws(f, x[n - 1], f.zero, f.zero);
      SumLaws(f, f.zero, f.zero, f.zero);
    }
  }

  lemma {:induction false} DotPlus<F(!new)>(f: GF<F>, a: seq<F>, b: seq<F>, x: seq<F>)
    requires Field(f) && |a| == |b| == |x|
    ensures Dot(f, Plus(f, a, b), x) == f.add(Dot(f, a, x), Dot(f, b, x))
  {
    hide Field;
    if a == [] {
      SumLaws(f, f.zero, f.zero, f.zero);
    } else {
      var n := |a| - 1;
      var a', b', x' := a[..n], b[..n], x[..n];
      assert Plus(f, a, b)[..n] == Plus(f, a', b');
      DotPlus(f, a', b', x');
      Mixed(f, Dot(f, a', x'), Dot(f, b', x'), a[n], b[n], x[n]);
    }
  }

  lemma Mixed<F(!new)>(f: GF<F>, p: F, q: F, a: F, b: F, x: F)
    requires Field(f)
    ensures f.add(f.add(p, q), f.mul(f.add(a, b), x)) == f.add(f.add(p, f.mul(a, x)), f.add(q, f.mul(b, x)))
  {
    hide Field;
    var ax, bx := f.mul(a, x), f.mul(b, x);
    Distributes(f, x, a, b);
    SumLaws(f, p, q, f.add(ax, bx));
    SumLaws(f, q, ax, bx);
    SumLaws(f, ax, q, bx);
    SumLaws(f, p, ax, f.add(q, bx));
  }

  lemma {:induction false} DotTimes<F(!new)>(f: GF<F>, c: F, a: seq<F>, x: seq<F>)
    requires Field(f) && |a| == |x|
    ensures Dot(f, Times(f, c, a), x) == f.mul(c, Dot(f, a, x))
  {
    hide Field;
    if a == [] {
      ProductLaws(f, c, c, c);
    } else {
      var n := |a| - 1;
      assert Times(f, c, a)[..n] == Times(f, c, a[..n]);
      DotTimes(f, c, a[..n], x[..n]);
      ProductLaws(f, c, a[n], x[n]);
      Distributes(f, c, Dot(f, a[..n], x[..n]), f.mul(a[n], x[n]));
    }
  }

  /** (v M) x == v (M x) */
  lemma {:induction false} DotVecMat<F(!new)>(f: GF<F>, v: seq<F>, m: seq<seq<F>>, x: seq<F>)
    requires Field(f) && |v| == |m| && forall i | 0 <= i < |m| :: |m[i]| == |x|
    ensures Dot(f, VecMat(f, v, m, |x|), x) == Dot(f, v, MatVec(f, m, x))
    decreases |v|
  {
    hide Field;
    if v == [] {
      DotZeroes(f, |x|, x);
    } else {
      var n := |v| - 1;
      DotVecMat(f, v[..n], m[..n], x);
      DotPlus(f, VecMat(f, v[..n], m[..n], |x|), Times(f, v[n], m[n]), x);
      DotTimes(f, v[n], m[n], x);
      assert MatVec(f, m, x)[..n] == MatVec(f, m[..n], x);
    }
  }

  /** t undoes s on both sides. */
  ghost predicate IsInverse<F(!new)>(f: GF<F>, s: seq<seq<F>>, t: seq<seq<F>>) {
    && Shaped(s, |s|, |s|) && Shaped(t, |s|, |s|)
    && (forall x: seq<F> | |x| == |s| :: MatVec(f, t, MatVec(f, s, x)) == x)
    && (forall x: seq<F> | |x| == |s| :: MatVec(f, s, MatVec(f, t, x)) == x)
  }

  /** JerasureInvertMatrix: an inverse whenever there is one. */
  ghost predicate Inverts<F(!new)>(f: GF<F>, invert: seq<seq<F>> -> seq<seq<F>>) {
    forall s | Invertible(f, s) :: IsInverse(f, s, invert(s))
  }

  ghost predicate Invertible<F(!new)>(f: GF<F>, s: seq<seq<F>>) {
    exists t :: IsInverse(f, s, t)
  }

  lemma Inverted<F(!new)>(f: GF<F>, invert: seq<seq<F>> -> seq<seq<F>>, s: seq<seq<F>>, t: seq<seq<F>>)
    requires Inverts(f, invert) && IsInverse(f, s, t)
    ensures IsInverse(f, s, invert(s))
  {
    hide IsInverse;
    assert Invertible(f, s);
  }

  // ---------------------------------------------------------------------------------------------
  // The encoding matrix

  function Power<F(!new)>(f: GF<F>, a: F, j: nat): F {
    if j == 0 then f.one else f.mul(Power(f, a, j - 1), a)
  }

  /** Row r of the matrix over cols data symbols: the identity above, powers of r - cols + 1 below. */
  function Row<F(!new)>(f: GF<F>, cols: nat, r: nat): (row: seq<F>)
    ensures |row| == cols
  {
    seq(cols, j requires 0 <= j < cols => if r < cols then (if r == j then f.one else f.zero) else Power(f, f.elem(r - cols + 1), j))
  }

  lemma {:induction false} DotUnit<F(!new)>(f: GF<F>, cols: nat, r: nat, x: seq<F>, n: nat)
    requires Field(f) && r < cols == |x| && n <= cols
    ensures Dot(f, Row(f, cols, r)[..n], x[..n]) == if r < n then x[r] else f.zero
  {
    hide Field;
    if n > 0 {
      DotUnit(f, cols, r, x, n - 1);
      var a, b := Row(f, cols, r)[..n], x[..n];
      assert a[..n - 1] == Row(f, cols, r)[..n - 1] && b[..n - 1] == x[..n - 1];
      assert Dot(f, a, b) == f.add(Dot(f, a[..n - 1], b[..n - 1]), f.mul(a[n - 1], b[n - 1]));
      SumLaws(f, x[n - 1], f.zero, f.zero);
      SumLaws(f, x[r], f.zero, f.zero);
      SumLaws(f, f.zero, f.zero, f.zero);
      ProductLaws(f, x[n - 1], f.zero, f.zero);
    }
  }

  /** A data row picks its symbol. */
  lemma UnitRow<F(!new)>(f: GF<F>, cols: nat, r: nat, x: seq<F>)
    requires Field(f) && r < cols == |x|
    ensures Dot(f, Row(f, cols, r), x) == x[r]
  {
    hide Field;
    DotUnit(f, cols, r, x, cols);
    assert Row(f, cols, r)[..cols] == Row(f, cols, r) && x[..cols] == x;
  }

  function Rows<F(!new)>(f: GF<F>, cols: nat, lines: seq<nat>): (m: seq<seq<F>>)
    ensures Shaped(m, |lines|, cols)
  {
    seq(|lines|, i requires 0 <= i < |lines| => Row(f, cols, lines[i]))
  }

  /** x[0] + a x[1] + a^2 x[2] + ... */
  ghost function Polynomial<F(!new)>(f: GF<F>, a: F, x: seq<F>): F {
    if x == [] then f.zero else f.add(x[0], f.mul(a, Polynomial(f, a, x[1..])))
  }

  ghost function Sum<F(!new)>(f: GF<F>, x: seq<F>): F {
    if x == [] then f.zero else f.add(x[0], Sum(f, x[1..]))
  }

  lemma {:induction false} DotJoin<F(!new)>(f: GF<F>, a: seq<F>, b: seq<F>, x: seq<F>, y: seq<F>)
    requires Field(f) && |a| == |x| && |b| == |y|
    ensures Dot(f, a + b, x + y) == f.add(Dot(f, a, x), Dot(f, b, y))
  {
    hide Field;
    if b == [] {
      assert a + b == a && x + y == x;
      SumLaws(f, Dot(f, a, x), f.zero, f.zero);
    } else {
      var m := |b| - 1;
      DotJoin(f, a, b[..m], x, y[..m]);
      var ab, xy := a + b, x + y;
      assert ab[..|ab| - 1] == a + b[..m] && xy[..|ab| - 1] == x + y[..m];
      SumLaws(f, Dot(f, a, x), Dot(f, b[..m], y[..m]), f.mul(b[m], y[m]));
    }
  }

  lemma DotOne<F(!new)>(f: GF<F>, a: F, x: F)
    requires Field(f)
    ensures Dot(f, [a], [x]) == f.mul(a, x)
  {
    hide Field;
    assert [a][..0] == [] && [x][..0] == [];
    SumLaws(f, f.mul(a, x), f.zero, f.zero);
  }

  lemma {:induction false} PowersAct<F(!new)>(f: GF<F>, a: F, s: nat, row: seq<F>, x: seq<F>)
    requires Field(f) && |row| == |x| && forall j | 0 <= j < |row| :: row[j] == Power(f, a, s + j)
    ensures Dot(f, row, x) == f.mul(Power(f, a, s), Polynomial(f, a, x))
    decreases |x|
  {
    hide Field, Dot;
    var p := Power(f, a, s);
    if x == [] {
      DotEmpty(f, row, x);
      ProductLaws(f, p, p, p);
    } else {
      var rest := Polynomial(f, a, x[1..]);
      assert row == [row[0]] + row[1..] && x == [x[0]] + x[1..];
      DotJoin(f, [row[0]], row[1..], [x[0]], x[1..]);
      DotOne(f, row[0], x[0]);
      PowersAct(f, a, s + 1, row[1..], x[1..]);
      ProductLaws(f, p, a, rest);
      Distributes(f, p, x[0], f.mul(a, rest));
    }
  }

  lemma DotEmpty<F(!new)>(f: GF<F>, row: seq<F>, x: seq<F>)
    requires x == []
    ensures Dot(f, row, x) == f.zero
  {}

  /** A row below the identity takes the data for the coefficients of a polynomial, at the row's own point. */
  lemma ParityRow<F(!new)>(f: GF<F>, cols: nat, r: nat, x: seq<F>)
    requires Field(f) && cols <= r && |x| == cols
    ensures Dot(f, Row(f, cols, r), x) == Polynomial(f, f.elem(r - cols + 1), x)
  {
    hide Field, Dot;
    var a := f.elem(r - cols + 1);
    PowersAct(f, a, 0, Row(f, cols, r), x);
    ProductLaws(f, Polynomial(f, a, x), f.one, f.one);
  }

  lemma {:induction false} PolynomialAtOne<F(!new)>(f: GF<F>, x: seq<F>)
    requires Field(f)
    ensures Polynomial(f, f.one, x) == Sum(f, x)
  {
    hide Field;
    if x != [] {
      PolynomialAtOne(f, x[1..]);
      ProductLaws(f, Sum(f, x[1..]), f.one, f.one);
    }
  }

  lemma {:induction false} PowerOfOne<F(!new)>(f: GF<F>, j: nat)
    requires Field(f)
    ensures Power(f, f.one, j) == f.one
  {
    hide Field;
    if j > 0 {
      PowerOfOne(f, j - 1);
      ProductLaws(f, f.one, f.one, f.one);
    }
  }

  /** The first of them is all ones. */
  lemma OnesRow<F(!new)>(f: GF<F>, cols: nat, j: nat)
    requires Field(f) && j < cols
    ensures Row(f, cols, cols)[j] == f.one
  {
    hide Field;
    Elements(f);
    PowerOfOne(f, j);
  }

  lemma OnesSum<F(!new)>(f: GF<F>, row: seq<F>, x: seq<F>)
    requires Field(f) && |row| == |x| && forall j | 0 <= j < |row| :: row[j] == f.one
    ensures Dot(f, row, x) == Sum(f, x)
  {
    hide Field, Dot;
    forall j | 0 <= j < |row| ensures row[j] == Power(f, f.one, j) { PowerOfOne(f, j); }
    PowersAct(f, f.one, 0, row, x);
    PolynomialAtOne(f, x);
    ProductLaws(f, Sum(f, x), f.one, f.one);
  }

  /** The identity is its own inverse. */
  lemma IdentityInverse<F(!new)>(f: GF<F>, n: nat, lines: seq<nat>)
    requires Field(f) && |lines| == n && forall i | 0 <= i < n :: lines[i] == i
    ensures IsInverse(f, Rows(f, n, lines), Rows(f, n, lines))
    ensures forall x: seq<F> | |x| == n :: MatVec(f, Rows(f, n, lines), x) == x
  {
    hide Field;
    var s := Rows(f, n, lines);
    forall x: seq<F> | |x| == n ensures MatVec(f, s, x) == x {
      forall i | 0 <= i < n ensures MatVec(f, s, x)[i] == x[i] {
        UnitRow(f, n, i, x);
      }
    }
  }

  /** One parity row (src/ec/Clay.cc:2222-2229). */
  method PowerRow<F(!new)>(f: GF<F>, cols: nat, a: nat) returns (row: seq<F>)
    requires 0 < a
    ensures row == Row(f, cols, cols + a - 1)
  {
    row := [];
    var tmp := f.one;
    for j := 0 to cols
      invariant |row| == j && tmp == Power(f, f.elem(a), j)
      invariant forall l | 0 <= l < j :: row[l] == Power(f, f.elem(a), l)
    {
      row := row + [tmp];
      tmp := f.mul(tmp, f.elem(a));
    }
  }

  /** src/ec/Clay.cc:2211-2232 */
  method GenerateMatrix<F(!new)>(f: GF<F>, rows: nat, cols: nat) returns (matrix: seq<seq<F>>)
    requires cols <= rows
    ensures |matrix| == rows && forall r | 0 <= r < rows :: matrix[r] == Row(f, cols, r)
  {
    hide Power;
    matrix := [];
    for i := 0 to cols
      invariant |matrix| == i && forall r | 0 <= r < i :: matrix[r] == Row(f, cols, r)
    {
      matrix := matrix + [seq(cols, j => if j == i then f.one else f.zero)];
    }
    var a := 1;
    for i := 0 to rows - cols
      invariant |matrix| == cols + i && a == i + 1
      invariant forall r | 0 <= r < cols + i :: matrix[r] == Row(f, cols, r)
    {
      var row := PowerRow(f, cols, a);
      matrix := matrix + [row];
      a := a + 1;
    }
  }

  /** Two matrices whose product is the identity undo each other. */
  lemma ProductIdentity<F(!new)>(f: GF<F>, s: seq<seq<F>>, t: seq<seq<F>>, n: nat)
    requires Field(f) && Shaped(s, n, n) && Shaped(t, n, n)
    requires forall i | 0 <= i < n :: VecMat(f, s[i], t, n) == Row(f, n, i)
    ensures forall x: seq<F> | |x| == n :: MatVec(f, s, MatVec(f, t, x)) == x
  {
    hide Field, VecMat, Dot, Row;
    forall x: seq<F> | |x| == n ensures MatVec(f, s, MatVec(f, t, x)) == x {
      forall i | 0 <= i < n ensures MatVec(f, s, MatVec(f, t, x))[i] == x[i] {
        DotVecMat(f, s[i], t, x);
        UnitRow(f, n, i, x);
      }
    }
  }

  // ---------------------------------------------------------------------------------------------
  // The pairwise transform

  /** u2 and u3 are the uncoupled pair of the coupled c0 and c1. */
  ghost predicate Pair<F(!new)>(f: GF<F>, c0: F, c1: F, u2: F, u3: F) {
    u2 == f.add(c0, c1) && u3 == f.add(c0, f.mul(f.elem(2), c1))
  }

  /** What row r of the 4x2 transform matrix gives. */
  ghost function Part<F(!new)>(r: nat, c0: F, c1: F, u2: F, u3: F): F {
    if r == 0 then c0 else if r == 1 then c1 else if r == 2 then u2 else u3
  }

  lemma DotTwo<F(!new)>(f: GF<F>, a: seq<F>, b: seq<F>)
    requires Field(f) && |a| == |b| == 2
    ensures Dot(f, a, b) == f.add(f.mul(a[0], b[0]), f.mul(a[1], b[1]))
  {
    hide Field;
    assert a[..1][..0] == [] && b[..1][..0] == [];
    assert Dot(f, a[..1], b[..1]) == f.add(f.zero, f.mul(a[0], b[0]));
    SumLaws(f, f.mul(a[0], b[0]), f.zero, f.zero);
  }

  lemma TransformRow<F(!new)>(f: GF<F>, a: nat, c0: F, c1: F)
    requires Field(f) && (a == 1 || a == 2)
    ensures Row(f, 2, a + 1) == [f.one, f.elem(a)]
    ensures Dot(f, Row(f, 2, a + 1), [c0, c1]) == f.add(c0, f.mul(f.elem(a), c1))
  {
    hide Field;
    assert Power(f, f.elem(a), 0) == f.one;
    assert Power(f, f.elem(a), 1) == f.mul(Power(f, f.elem(a), 0), f.elem(a));
    ProductLaws(f, f.elem(a), f.one, f.one);
    ProductLaws(f, c0, f.one, f.one);
    assert Row(f, 2, a + 1) == [f.one, f.elem(a)];
    DotTwo(f, Row(f, 2, a + 1), [c0, c1]);
  }

  lemma PairRow<F(!new)>(f: GF<F>, r: nat, c0: F, c1: F, u2: F, u3: F)
    requires Field(f) && r < 4
    ensures Pair(f, c0, c1, u2, u3) <==> Dot(f, Row(f, 2, 2), [c0, c1]) == u2 && Dot(f, Row(f, 2, 3), [c0, c1]) == u3
    ensures r < 2 || Pair(f, c0, c1, u2, u3) ==> Dot(f, Row(f, 2, r), [c0, c1]) == Part(r, c0, c1, u2, u3)
  {
    hide Field;
    UnitRow(f, 2, 0, [c0, c1]);
    UnitRow(f, 2, 1, [c0, c1]);
    TransformRow(f, 1, c0, c1);
    TransformRow(f, 2, c0, c1);
    Elements(f);
    ProductLaws(f, c1, f.one, f.one);
  }

  lemma VecMatTwo<F(!new)>(f: GF<F>, p: F, q: F, a: F, b: F, c: F, d: F)
    requires Field(f)
    ensures VecMat(f, [p, q], [[a, b], [c, d]], 2) == [f.add(f.mul(p, a), f.mul(q, c)), f.add(f.mul(p, b), f.mul(q, d))]
  {
    hide Field;
    var v, m := [p, q], [[a, b], [c, d]];
    assert v[..1] == [p] && m[..1] == [[a, b]] && v[..1][..0] == [] && m[..1][..0] == [];
    assert VecMat(f, v[..1], m[..1], 2) == Plus(f, Zeroes(f, 2), Times(f, p, [a, b]));
    SumLaws(f, f.mul(p, a), f.zero, f.zero);
    SumLaws(f, f.mul(p, b), f.zero, f.zero);
    assert VecMat(f, [p], [[a, b]], 2) == [f.mul(p, a), f.mul(p, b)];
    assert VecMat(f, v, m, 2) == Plus(f, VecMat(f, v[..1], m[..1], 2), Times(f, q, [c, d]));
  }

  lemma UnitRows<F(!new)>(f: GF<F>)
    ensures Row(f, 2, 0) == [f.one, f.zero] && Row(f, 2, 1) == [f.zero, f.one]
  {}

  lemma TransformRows<F(!new)>(f: GF<F>)
    requires Field(f)
    ensures Row(f, 2, 2) == [f.one, f.one] && Row(f, 2, 3) == [f.one, f.elem(2)]
  {
    hide Field, Row;
    TransformRow(f, 1, f.one, f.one);
    TransformRow(f, 2, f.one, f.one);
    Elements(f);
  }

  /** The selections of the transform that the code inverts. */
  predicate Selection(r: nat, s: nat) {
    (r == 0 && s == 2) || (r == 1 && s == 3) || (r == 2 && s == 3) || (r == 0 && s == 3) || (r == 1 && s == 2)
  }

  lemma BothInverse<F(!new)>(f: GF<F>, s: seq<seq<F>>, t: seq<seq<F>>, n: nat)
    requires Field(f) && Shaped(s, n, n) && Shaped(t, n, n)
    requires forall i | 0 <= i < n :: VecMat(f, s[i], t, n) == Row(f, n, i) && VecMat(f, t[i], s, n) == Row(f, n, i)
    ensures Invertible(f, s)
  {
    hide Field, VecMat, Row, MatVec;
    ProductIdentity(f, s, t, n);
    ProductIdentity(f, t, s, n);
    assert IsInverse(f, s, t);
  }

  lemma Invertible02<F(!new)>(f: GF<F>)
    requires Field(f)
    ensures Invertible(f, Rows(f, 2, [0, 2]))
  {
    hide Field, Row, VecMat, MatVec, Dot;
    UnitRows(f);
    TransformRows(f);
    var m := Rows(f, 2, [0, 2]);
    assert m == [[f.one, f.zero], [f.one, f.one]];
    VecMatTwo(f, f.one, f.zero, f.one, f.zero, f.one, f.one);
    VecMatTwo(f, f.one, f.one, f.one, f.zero, f.one, f.one);
    ProductLaws(f, f.one, f.zero, f.one);
    ProductLaws(f, f.one, f.one, f.one);
    ProductLaws(f, f.zero, f.zero, f.zero);
    SumLaws(f, f.one, f.zero, f.one);
    SumLaws(f, f.zero, f.zero, f.one);
    ProductIdentity(f, m, m, 2);
    assert IsInverse(f, m, m);
  }

  lemma Invertible13<F(!new)>(f: GF<F>)
    requires Field(f)
    ensures Invertible(f, Rows(f, 2, [1, 3]))
  {
    hide Field, Row, VecMat, MatVec, Dot;
    UnitRows(f);
    TransformRows(f);
    var two := f.elem(2);
    var m, t := Rows(f, 2, [1, 3]), [[two, f.one], [f.one, f.zero]];
    assert m == [[f.zero, f.one], [f.one, two]];
    VecMatTwo(f, f.zero, f.one, two, f.one, f.one, f.zero);
    VecMatTwo(f, f.one, two, two, f.one, f.one, f.zero);
    VecMatTwo(f, two, f.one, f.zero, f.one, f.one, two);
    VecMatTwo(f, f.one, f.zero, f.zero, f.one, f.one, two);
    ProductLaws(f, f.one, f.zero, f.one);
    ProductLaws(f, two, f.zero, f.one);
    ProductLaws(f, f.one, two, f.one);
    ProductLaws(f, f.one, f.one, f.one);
    ProductLaws(f, f.zero, f.zero, f.zero);
    SumLaws(f, f.one, f.zero, f.one);
    SumLaws(f, two, two, two);
    SumLaws(f, f.zero, f.zero, f.one);
    BothInverse(f, m, t, 2);
  }

  lemma Invertible03<F(!new)>(f: GF<F>)
    requires Field(f)
    ensures Invertible(f, Rows(f, 2, [0, 3]))
  {
    hide Field, Row, VecMat, MatVec, Dot;
    UnitRows(f);
    TransformRows(f);
    Elements(f);
    var two := f.elem(2);
    var e := InverseOf(f, two);
    var m, t := Rows(f, 2, [0, 3]), [[f.one, f.zero], [e, e]];
    assert m == [[f.one, f.zero], [f.one, two]];
    VecMatTwo(f, f.one, f.zero, f.one, f.zero, e, e);
    VecMatTwo(f, f.one, two, f.one, f.zero, e, e);
    VecMatTwo(f, f.one, f.zero, f.one, f.zero, f.one, two);
    VecMatTwo(f, e, e, f.one, f.zero, f.one, two);
    ProductLaws(f, e, f.one, f.one);
    ProductLaws(f, e, f.zero, f.one);
    ProductLaws(f, two, f.zero, f.one);
    ProductLaws(f, f.one, f.zero, f.one);
    SumLaws(f, f.one, f.zero, f.one);
    SumLaws(f, e, e, e);
    SumLaws(f, f.zero, f.zero, f.one);
    SumLaws(f, f.zero, f.one, f.one);
    BothInverse(f, m, t, 2);
  }

  lemma Invertible12<F(!new)>(f: GF<F>)
    requires Field(f)
    ensures Invertible(f, Rows(f, 2, [1, 2]))
  {
    hide Field, Row, VecMat, MatVec, Dot;
    UnitRows(f);
    TransformRows(f);
    var m, t := Rows(f, 2, [1, 2]), [[f.one, f.one], [f.one, f.zero]];
    assert m == [[f.zero, f.one], [f.one, f.one]];
    VecMatTwo(f, f.zero, f.one, f.one, f.one, f.one, f.zero);
    VecMatTwo(f, f.one, f.one, f.one, f.one, f.one, f.zero);
    VecMatTwo(f, f.one, f.one, f.zero, f.one, f.one, f.one);
    VecMatTwo(f, f.one, f.zero, f.zero, f.one, f.one, f.one);
    ProductLaws(f, f.one, f.zero, f.one);
    ProductLaws(f, f.one, f.one, f.one);
    ProductLaws(f, f.zero, f.zero, f.zero);
    SumLaws(f, f.one, f.zero, f.one);
    SumLaws(f, f.zero, f.one, f.one);
    SumLaws(f, f.zero, f.zero, f.one);
    BothInverse(f, m, t, 2);
  }

  lemma OnePlusTwo<F(!new)>(f: GF<F>)
    requires Field(f)
    ensures f.add(f.one, f.elem(2)) != f.zero
  {
    hide Field;
    var two := f.elem(2);
    Elements(f);
    SumLaws(f, f.one, two, two);
    SumLaws(f, two, two, two);
    SumLaws(f, f.one, f.zero, f.zero);
  }

  lemma Invertible23<F(!new)>(f: GF<F>)
    requires Field(f)
    ensures Invertible(f, Rows(f, 2, [2, 3]))
  {
    hide Field, Row, VecMat, MatVec, Dot;
    TransformRows(f);
    UnitRows(f);
    OnePlusTwo(f);
    var two := f.elem(2);
    var e := InverseOf(f, f.add(f.one, two));
    var e2 := f.mul(e, two);
    var m, t := Rows(f, 2, [2, 3]), [[e2, e], [e, e]];
    assert m == [[f.one, f.one], [f.one, two]];
    VecMatTwo(f, f.one, f.one, e2, e, e, e);
    VecMatTwo(f, f.one, two, e2, e, e, e);
    VecMatTwo(f, e2, e, f.one, f.one, f.one, two);
    VecMatTwo(f, e, e, f.one, f.one, f.one, two);
    Distributes(f, e, f.one, two);
    ProductLaws(f, e, f.one, f.one);
    ProductLaws(f, e2, f.one, f.one);
    ProductLaws(f, e, two, two);
    SumLaws(f, e, e2, e2);
    SumLaws(f, e, e, e);
    SumLaws(f, e2, e2, e2);
    assert f.add(e, e2) == f.one == f.add(e2, e);
    BothInverse(f, m, t, 2);
  }

  lemma SelectionInverse<F(!new)>(f: GF<F>, invert: seq<seq<F>> -> seq<seq<F>>, r: nat, s: nat)
    requires Field(f) && Inverts(f, invert) && Selection(r, s)
    ensures IsInverse(f, Rows(f, 2, [r, s]), invert(Rows(f, 2, [r, s])))
  {
    hide Field, IsInverse;
    if r == 0 && s == 2 { Invertible02(f); }
    else if r == 1 && s == 3 { Invertible13(f); }
    else if r == 0 { Invertible03(f); }
    else if r == 1 { Invertible12(f); }
    else { Invertible23(f); }
  }

  /** From two entries of a pair that the code selects, the product with the inverse gives any entry. */
  lemma SelectionSolves<F(!new)>(f: GF<F>, invert: seq<seq<F>> -> seq<seq<F>>, r: nat, s: nat, target: nat, c0: F, c1: F, u2: F, u3: F)
    requires Field(f) && Inverts(f, invert) && Selection(r, s) && target < 4 && Pair(f, c0, c1, u2, u3)
    ensures Shaped(invert(Rows(f, 2, [r, s])), 2, 2)
    ensures Dot(f, VecMat(f, Row(f, 2, target), invert(Rows(f, 2, [r, s])), 2), [Part(r, c0, c1, u2, u3), Part(s, c0, c1, u2, u3)])
              == Part(target, c0, c1, u2, u3)
  {
    hide Field, Pair, Dot, VecMat, Row, Part, Inverts;
    hide MatVec, IsInverse;
    SelectionInverse(f, invert, r, s);
    var m := Rows(f, 2, [r, s]);
    var t := invert(m);
    InverseActs(f, m, t, [c0, c1]);
    MatVecTwo(f, m, [c0, c1]);
    PairRow(f, r, c0, c1, u2, u3);
    PairRow(f, s, c0, c1, u2, u3);
    PairRow(f, target, c0, c1, u2, u3);
    var known := [Part(r, c0, c1, u2, u3), Part(s, c0, c1, u2, u3)];
    assert MatVec(f, m, [c0, c1]) == known;
    DotVecMat(f, Row(f, 2, target), t, known);
  }

  lemma MatVecTwo<F(!new)>(f: GF<F>, m: seq<seq<F>>, x: seq<F>)
    requires |m| == 2
    ensures MatVec(f, m, x) == [Dot(f, m[0], x), Dot(f, m[1], x)]
  {
    hide Dot;
  }

  lemma InverseActs<F(!new)>(f: GF<F>, m: seq<seq<F>>, t: seq<seq<F>>, x: seq<F>)
    requires IsInverse(f, m, t) && |x| == |m|
    ensures MatVec(f, t, MatVec(f, m, x)) == x && MatVec(f, m, MatVec(f, t, x)) == x
    ensures Shaped(t, |m|, |m|)
  {}

  /** Both coupled values of a pair at once. */
  lemma CoupledSolve<F(!new)>(f: GF<F>, invert: seq<seq<F>> -> seq<seq<F>>, c0: F, c1: F, u2: F, u3: F)
    requires Field(f) && Inverts(f, invert)
    ensures var t := invert(Rows(f, 2, [2, 3]));
            Shaped(t, 2, 2) && (Pair(f, c0, c1, u2, u3) <==> c0 == Dot(f, t[0], [u2, u3]) && c1 == Dot(f, t[1], [u2, u3]))
  {
    hide Field, Pair, Dot, Row, Inverts, MatVec, IsInverse;
    SelectionInverse(f, invert, 2, 3);
    var m := Rows(f, 2, [2, 3]);
    var t := invert(m);
    PairRow(f, 2, c0, c1, u2, u3);
    PairRow(f, 3, c0, c1, u2, u3);
    InverseActs(f, m, t, [c0, c1]);
    InverseActs(f, m, t, [u2, u3]);
    MatVecTwo(f, m, [c0, c1]);
    MatVecTwo(f, t, [u2, u3]);
  }
}
