/** Plane arithmetic of the Clay code (src/ec/Clay.cc): a plane is a number below q^t, seen as t digits
    in base q, the first digit being the most significant. */
module Planes {
  function Pow(a: nat, e: nat): nat {
    if e == 0 then 1 else Pow(a, e - 1) * a
  }

  lemma {:induction false} PowSquare(a: nat, e: nat)
    ensures Pow(a, 2 * e) == Pow(a * a, e)
  {
    if e > 0 {
      PowSquare(a, e - 1);
      assert Pow(a, 2 * e) == Pow(a, 2 * e - 1) * a == Pow(a, 2 * e - 2) * a * a;
      Assoc(Pow(a, 2 * (e - 1)), a, a);
    }
  }

  lemma Assoc(x: nat, y: nat, z: nat)
    ensures x * y * z == x * (y * z)
  {}

  lemma {:induction false} PowPositive(a: nat, e: nat)
    requires 0 < a
    ensures 0 < Pow(a, e)
  {
    if e > 0 { PowPositive(a, e - 1); }
  }

  lemma PowStep(power: nat, a: nat, x: nat)
    requires 0 < x
    ensures power * Pow(a, x) == (if x % 2 == 1 then power * a else power) * Pow(a * a, x / 2)
  {
    PowSquare(a, x / 2);
    if x % 2 == 1 {
      assert x == 2 * (x / 2) + 1;
      assert Pow(a, x) == Pow(a, 2 * (x / 2)) * a;
      Assoc(power, a, Pow(a * a, x / 2));
    }
  }

  /** src/ec/Clay.cc:132-140 */
  method PowInt(a0: nat, x0: nat) returns (power: nat)
    ensures power == Pow(a0, x0)
  {
    power := 1;
    var a, x := a0, x0;
    while x != 0
      invariant power * Pow(a, x) == Pow(a0, x0)
    {
      PowStep(power, a, x);
      if x % 2 == 1 {
        power := power * a;
      }
      x := x / 2;
      a := a * a;
    }
  }

  // ---------------------------------------------------------------------------------------------
  // Digits

  function Digits(q: nat, t: nat, z: nat): (v: seq<nat>)
    requires 0 < q
    ensures |v| == t && forall i | 0 <= i < t :: v[i] < q
  {
    if t == 0 then [] else Digits(q, t - 1, z / q) + [z % q]
  }

  /** The base-q sum of a plane vector. */
  function Number(q: nat, v: seq<nat>): nat {
    if v == [] then 0 else Number(q, v[..|v| - 1]) * q + v[|v| - 1]
  }

  lemma {:induction false} DigitsOfNumber(q: nat, v: seq<nat>)
    requires 0 < q && forall i | 0 <= i < |v| :: v[i] < q
    ensures Number(q, v) < Pow(q, |v|) && Digits(q, |v|, Number(q, v)) == v
  {
    if v != [] {
      var w, d := v[..|v| - 1], v[|v| - 1];
      DigitsOfNumber(q, w);
      DivMod(Number(q, w), q, d);
      Below(Number(q, w), Pow(q, |w|), q, d);
      assert v == w + [d];
    }
  }

  lemma {:induction false} NumberOfDigits(q: nat, t: nat, z: nat)
    requires 0 < q && z < Pow(q, t)
    ensures Number(q, Digits(q, t, z)) == z
  {
    hide Pow;
    if t == 0 {
      NoDigits(q, z);
    } else {
      PowNext(q, t);
      DivBelow(z, Pow(q, t - 1), q);
      NumberOfDigits(q, t - 1, z / q);
      LastDigit(q, t, z);
    }
  }

  lemma NoDigits(q: nat, z: nat)
    requires z < Pow(q, 0)
    ensures z == 0
  {}

  lemma PowNext(q: nat, t: nat)
    requires 0 < t
    ensures Pow(q, t) == Pow(q, t - 1) * q
  {}

  lemma LastDigit(q: nat, t: nat, z: nat)
    requires 0 < q && 0 < t && Number(q, Digits(q, t - 1, z / q)) == z / q
    ensures Number(q, Digits(q, t, z)) == z
  {
    var v := Digits(q, t, z);
    assert v[..|v| - 1] == Digits(q, t - 1, z / q) && v[|v| - 1] == z % q;
    Remainder(z, q);
  }

  lemma Remainder(z: nat, q: nat)
    requires 0 < q
    ensures z / q * q + z % q == z
  {}

  lemma DivMod(a: nat, q: nat, d: nat)
    requires d < q
    ensures (a * q + d) / q == a && (a * q + d) % q == d
  {
    var b, e := (a * q + d) / q, (a * q + d) % q;
    assert a * q + d == b * q + e;
    if a < b { Gap(a, b, q); } else if b < a { Gap(b, a, q); }
  }

  lemma Gap(a: nat, b: nat, q: nat)
    requires a < b
    ensures a * q + q <= b * q
  {
    assert (b - a) * q == b * q - a * q;
    assert (b - a - 1) * q >= 0;
    assert (b - a) * q == (b - a - 1) * q + q;
  }

  lemma Below(a: nat, p: nat, q: nat, d: nat)
    requires a < p && d < q
    ensures a * q + d < p * q
  {
    Gap(a, p, q);
  }

  lemma DivBelow(z: nat, p: nat, q: nat)
    requires 0 < q && z < p * q
    ensures z / q < p
  {
    assert z == z / q * q + z % q;
    if p < z / q { Gap(p, z / q, q); }
  }

  /** src/ec/Clay.cc:185-191 */
  method GetPlaneVector(q: nat, t: nat, z0: nat) returns (z_vec: seq<nat>)
    requires 0 < q
    ensures z_vec == Digits(q, t, z0)
  {
    var z: nat := z0;
    z_vec := seq(t, _ => 0);
    for i := 0 to t
      invariant |z_vec| == t && Digits(q, t, z0) == Digits(q, t - i, z) + z_vec[t - i..]
    {
      var d := z % q;
      z_vec := z_vec[t - 1 - i := d];
      assert z - d == z / q * q;
      DivMod(z / q, q, 0);
      z := (z - d) / q;
      assert z_vec[t - 1 - i..] == [d] + z_vec[t - i..];
    }
  }

  /** z with digit y replaced by x, the way the code computes it. */
  function Swap(q: nat, t: nat, z: nat, y: nat, x: nat): int
    requires 0 < q && y < t
  {
    z + (x - Digits(q, t, z)[y]) * Pow(q, t - 1 - y)
  }

  lemma {:induction false} SwapDigits(q: nat, t: nat, z: nat, y: nat, x: nat)
    requires 0 < q && y < t && z < Pow(q, t) && x < q
    ensures 0 <= Swap(q, t, z, y, x) < Pow(q, t)
    ensures Digits(q, t, Swap(q, t, z, y, x)) == Digits(q, t, z)[y := x]
  {
    var d := z % q;
    var v := Digits(q, t, z);
    DivBelow(z, Pow(q, t - 1), q);
    assert z == z / q * q + d;
    if y == t - 1 {
      assert Pow(q, 0) == 1;
      assert Swap(q, t, z, y, x) == z / q * q + x;
      DivMod(z / q, q, x);
      Below(z / q, Pow(q, t - 1), q, x);
    } else {
      SwapDigits(q, t - 1, z / q, y, x);
      var s := Swap(q, t - 1, z / q, y, x);
      assert v[y] == Digits(q, t - 1, z / q)[y];
      Scale(z / q, x - v[y], Pow(q, t - 2 - y), q, d);
      assert Swap(q, t, z, y, x) == s * q + d;
      DivMod(s, q, d);
      Below(s, Pow(q, t - 1), q, d);
    }
  }

  lemma Scale(a: nat, c: int, p: nat, q: nat, d: nat)
    ensures a * q + d + c * (p * q) == (a + c * p) * q + d
  {
    assert c * (p * q) == c * p * q;
    assert (a + c * p) * q == a * q + c * p * q;
  }

  /** Swapping the digit back gives the plane back: (x, y, z) and (z[y], y, swapped z) are a pair. */
  lemma SwapBack(q: nat, t: nat, z: nat, y: nat, x: nat)
    requires 0 < q && y < t && z < Pow(q, t) && x < q
    ensures 0 <= Swap(q, t, z, y, x) && Swap(q, t, Swap(q, t, z, y, x), y, Digits(q, t, z)[y]) == z
  {
    SwapDigits(q, t, z, y, x);
    var d, p := Digits(q, t, z)[y], Pow(q, t - 1 - y);
    assert (x - d) * p + (d - x) * p == 0;
  }

  /** The partner plane comes first exactly when its digit is the smaller one. */
  lemma SwapOrder(q: nat, t: nat, z: nat, y: nat, x: nat)
    requires 0 < q && y < t && x < q
    ensures x < Digits(q, t, z)[y] ==> Swap(q, t, z, y, x) < z
    ensures x == Digits(q, t, z)[y] ==> Swap(q, t, z, y, x) == z
    ensures x > Digits(q, t, z)[y] ==> Swap(q, t, z, y, x) > z
  {
    hide Digits, Pow;
    PowPositive(q, t - 1 - y);
    ShiftSign(x, Digits(q, t, z)[y], Pow(q, t - 1 - y));
  }

  lemma ShiftSign(x: nat, d: nat, p: nat)
    requires 0 < p
    ensures x < d ==> (x - d) * p < 0
    ensures x == d ==> (x - d) * p == 0
    ensures x > d ==> (x - d) * p > 0
  {
    if x < d { assert (d - x) * p > 0; assert (x - d) * p == -((d - x) * p); }
    if x > d { assert (x - d) * p > 0; }
  }

  // ---------------------------------------------------------------------------------------------
  // The planes a repair reads

  lemma {:induction false} DigitAt(q: nat, t: nat, z: nat, y: nat)
    requires 0 < q && y < t
    ensures 0 < Pow(q, t - 1 - y) && Digits(q, t, z)[y] == z / Pow(q, t - 1 - y) % q
  {
    PowPositive(q, t - 1 - y);
    if y == t - 1 {
      assert Pow(q, 0) == 1;
    } else {
      DigitAt(q, t - 1, z / q, y);
      DivTwice(z, q, Pow(q, t - 2 - y));
    }
  }

  lemma DivTwice(z: nat, q: nat, p: nat)
    requires 0 < q && 0 < p
    ensures 0 < p * q && z / q / p == z / (p * q)
  {
    var a := z / q / p;
    var r, s := z % q, z / q % p;
    assert z / q == a * p + s;
    assert z == (a * p + s) * q + r;
    assert (a * p + s) * q == a * (p * q) + s * q by { Scale(0, a, p, q, 0); assert (a * p + s) * q == a * p * q + s * q; }
    Below(s, p, q, r);
    DivMod(a, p * q, s * q + r);
  }

  ghost predicate Covered(ranges: seq<(nat, nat)>, z: nat) {
    exists i :: 0 <= i < |ranges| && ranges[i].0 <= z < ranges[i].0 + ranges[i].1
  }

  /** src/ec/Clay.cc:1765-1775: ranges (first plane, number of planes), disjoint and ascending. */
  method GetRepairSubchunks(q: nat, t: nat, lost_node: nat) returns (ranges: seq<(nat, nat)>)
    requires 0 < q && lost_node < q * t
    ensures forall i | 0 <= i < |ranges| :: 0 < ranges[i].1 && ranges[i].0 + ranges[i].1 <= Pow(q, t)
    ensures forall i, j | 0 <= i < j < |ranges| :: ranges[i].0 + ranges[i].1 <= ranges[j].0
    ensures lost_node / q < t && |ranges| == Pow(q, lost_node / q)
    ensures forall i | 0 <= i < |ranges| :: ranges[i].1 == Pow(q, t - 1 - lost_node / q)
    ensures forall z: nat :: Covered(ranges, z) <==> z < Pow(q, t) && lost_node / q < t && Digits(q, t, z)[lost_node / q] == lost_node % q
  {
    hide *;
    NodeColumn(q, t, lost_node);
    var y_lost, x_lost := lost_node / q, lost_node % q;
    var seq_sc_count := PowInt(q, t - 1 - y_lost);
    var num_seq := PowInt(q, y_lost);
    var index := x_lost * seq_sc_count;
    FirstStart(q, t, y_lost, x_lost);
    ranges := [];
    for ind_seq := 0 to num_seq
      invariant index == Start(q, t, y_lost, x_lost, ind_seq)
      invariant |ranges| == ind_seq
      invariant forall i | 0 <= i < |ranges| :: ranges[i] == (Start(q, t, y_lost, x_lost, i), seq_sc_count)
    {
      ranges := ranges + [(index, seq_sc_count)];
      NextStart(q, t, y_lost, x_lost, ind_seq);
      index := index + q * seq_sc_count;
    }
    RangesAre(q, t, y_lost, x_lost, ranges);
  }

  lemma FirstStart(q: nat, t: nat, y: nat, x: nat)
    requires y < t
    ensures Start(q, t, y, x, 0) == x * Pow(q, t - 1 - y)
  {}

  lemma NextStart(q: nat, t: nat, y: nat, x: nat, i: nat)
    requires y < t
    ensures Start(q, t, y, x, i + 1) == Start(q, t, y, x, i) + q * Pow(q, t - 1 - y)
  {
    NextRange(i, q, x, Pow(q, t - 1 - y));
  }

  lemma NodeColumn(q: nat, t: nat, node: nat)
    requires 0 < q && node < q * t
    ensures node / q < t && node % q < q && node == node / q * q + node % q
  {
    DivBelow(node, t, q);
  }

  lemma NextRange(i: nat, q: nat, x: nat, s: nat)
    ensures ((i + 1) * q + x) * s == (i * q + x) * s + q * s
  {
    assert (i + 1) * q + x == i * q + x + q;
    assert (i * q + x + q) * s == (i * q + x) * s + q * s;
  }

  lemma {:induction false} PowAdd(q: nat, a: nat, b: nat)
    ensures Pow(q, a + b) == Pow(q, a) * Pow(q, b)
  {
    if b > 0 {
      PowAdd(q, a, b - 1);
      Assoc(Pow(q, a), Pow(q, b - 1), q);
    }
  }

  /** The first plane of range i. */
  function Start(q: nat, t: nat, y: nat, x: nat, i: nat): nat
    requires y < t
  {
    (i * q + x) * Pow(q, t - 1 - y)
  }

  lemma InRange(q: nat, t: nat, y: nat, x: nat, i: nat, z: nat)
    requires 0 < q && y < t && x < q
    ensures 0 < Pow(q, t - 1 - y)
    ensures Start(q, t, y, x, i) <= z < Start(q, t, y, x, i) + Pow(q, t - 1 - y) <==> z / Pow(q, t - 1 - y) == i * q + x
  {
    var s := Pow(q, t - 1 - y);
    PowPositive(q, t - 1 - y);
    var a := i * q + x;
    if z / s == a { assert z == a * s + z % s; }
    if a * s <= z < a * s + s { DivMod(a, s, z - a * s); }
  }

  lemma RangesAre(q: nat, t: nat, y: nat, x: nat, ranges: seq<(nat, nat)>)
    requires 0 < q && y < t && x < q && |ranges| == Pow(q, y)
    requires forall i | 0 <= i < |ranges| :: ranges[i] == (Start(q, t, y, x, i), Pow(q, t - 1 - y))
    ensures forall i | 0 <= i < |ranges| :: 0 < ranges[i].1 && ranges[i].0 + ranges[i].1 <= Pow(q, t)
    ensures forall i, j | 0 <= i < j < |ranges| :: ranges[i].0 + ranges[i].1 <= ranges[j].0
    ensures forall z: nat :: Covered(ranges, z) <==> z < Pow(q, t) && Digits(q, t, z)[y] == x
  {
    hide Pow, Digits, Start;
    forall i | 0 <= i < |ranges| ensures 0 < ranges[i].1 && ranges[i].0 + ranges[i].1 <= Pow(q, t) {
      PowPositive(q, t - 1 - y);
      RangeFits(q, t, y, x, i);
    }
    forall i, j | 0 <= i < j < |ranges| ensures ranges[i].0 + ranges[i].1 <= ranges[j].0 {
      RangesAscend(q, t, y, x, i, j);
    }
    forall z: nat ensures Covered(ranges, z) <==> z < Pow(q, t) && Digits(q, t, z)[y] == x {
      if Covered(ranges, z) {
        var i :| 0 <= i < |ranges| && ranges[i].0 <= z < ranges[i].0 + ranges[i].1;
        RangeFits(q, t, y, x, i);
        RangeDigit(q, t, y, x, i, z);
      }
      if z < Pow(q, t) && Digits(q, t, z)[y] == x {
        var i := DigitRange(q, t, y, x, z);
        assert ranges[i].0 <= z < ranges[i].0 + ranges[i].1;
      }
    }
  }

  lemma RangesAscend(q: nat, t: nat, y: nat, x: nat, i: nat, j: nat)
    requires 0 < q && y < t && i < j
    ensures Start(q, t, y, x, i) + Pow(q, t - 1 - y) <= Start(q, t, y, x, j)
  {
    Gap(i, j, q);
    Gap(i * q + x, j * q + x, Pow(q, t - 1 - y));
  }

  lemma RangeDigit(q: nat, t: nat, y: nat, x: nat, i: nat, z: nat)
    requires 0 < q && y < t && x < q && Start(q, t, y, x, i) <= z < Start(q, t, y, x, i) + Pow(q, t - 1 - y)
    ensures Digits(q, t, z)[y] == x
  {
    hide Pow, Digits, Start;
    InRange(q, t, y, x, i, z);
    DigitAt(q, t, z, y);
    DivMod(i, q, x);
  }

  lemma DigitRange(q: nat, t: nat, y: nat, x: nat, z: nat) returns (i: nat)
    requires 0 < q && y < t && x < q && z < Pow(q, t) && Digits(q, t, z)[y] == x
    ensures i < Pow(q, y) && Start(q, t, y, x, i) <= z < Start(q, t, y, x, i) + Pow(q, t - 1 - y)
  {
    hide Pow, Digits, Start;
    DigitAt(q, t, z, y);
    IndexFits(q, t, y, z);
    var a := z / Pow(q, t - 1 - y);
    i := a / q;
    assert a == a / q * q + a % q;
    InRange(q, t, y, x, i, z);
  }

  lemma IndexFits(q: nat, t: nat, y: nat, z: nat)
    requires 0 < q && y < t && z < Pow(q, t)
    ensures 0 < Pow(q, t - 1 - y) && z / Pow(q, t - 1 - y) / q < Pow(q, y)
  {
    PowPositive(q, t - 1 - y);
    PowAdd(q, y + 1, t - 1 - y);
    DivBelow(z, Pow(q, y + 1), Pow(q, t - 1 - y));
    DivBelow(z / Pow(q, t - 1 - y), Pow(q, y), q);
  }

  lemma RangeFits(q: nat, t: nat, y: nat, x: nat, i: nat)
    requires 0 < q && y < t && x < q && i < Pow(q, y)
    ensures Start(q, t, y, x, i) + Pow(q, t - 1 - y) <= Pow(q, t)
  {
    PowAdd(q, y + 1, t - 1 - y);
    Below(i, Pow(q, y), q, x);
    Gap(i * q + x, Pow(q, y + 1), Pow(q, t - 1 - y));
  }
}
