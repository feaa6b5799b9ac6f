/** The fixed-width colour string of a solution and its decoder (src/single/PRSolution.cc:364-376,
    src/common/TradeoffPoints.cc:34-44, src/util/DistUtil.cc:75-95). */
module ColorStrings {
  function DigitOf(r: nat): char
    requires r < 10
  {
    "0123456789"[r]
  }

  function ValueOf(c: char): nat
    requires '0' <= c <= '9'
  {
    (c - '0') as nat
  }

  predicate Numeric(s: string) {
    forall i | 0 <= i < |s| :: '0' <= s[i] <= '9'
  }

  /** x followed by n zeros; ten to the n is Shift(1, n). */
  function Shift(x: nat, n: nat): nat {
    if n == 0 then x else 10 * Shift(x, n - 1)
  }

  /** The number a decimal string stands for (what std::stoi makes of it). */
  function Number(s: string): nat
    requires Numeric(s)
  {
    if s == "" then 0 else 10 * Number(s[..|s| - 1]) + ValueOf(s[|s| - 1])
  }

  /** The decimal numeral without leading zeros, empty for zero. */
  function Decimal(num: nat): string {
    if num == 0 then "" else Decimal(num / 10) + [DigitOf(num % 10)]
  }

  function Padded(s: string, digits: nat): string
    decreases digits - |s|
  {
    if |s| >= digits then s else Padded("0" + s, digits)
  }

  /** src/util/DistUtil.cc:75-82 */
  method Ndigits(m: nat) returns (digits: nat)
    ensures digits == |Decimal(m)|
  {
    digits := 0;
    var left := m;
    while left > 0
      invariant digits + |Decimal(left)| == |Decimal(m)|
    {
      digits := digits + 1;
      left := left / 10;
    }
  }

  /** src/util/DistUtil.cc:84-95 */
  method Num2Str(num: nat, digits: nat) returns (toret: string)
    ensures toret == Padded(Decimal(num), digits)
  {
    toret := "";
    var left := num;
    while left > 0
      invariant Decimal(left) + toret == Decimal(num)
    {
      var r := left % 10;
      assert Decimal(left) + toret == Decimal(left / 10) + ([DigitOf(r)] + toret);
      toret := [DigitOf(r)] + toret;
      left := left / 10;
    }
    assert toret == Decimal(num);
    while |toret| < digits
      invariant Padded(toret, digits) == Padded(Decimal(num), digits)
      decreases digits - |toret|
    {
      toret := "0" + toret;
    }
  }

  lemma {:induction false} DecimalNumber(num: nat)
    ensures Numeric(Decimal(num)) && Number(Decimal(num)) == num
  {
    if num > 0 {
      DecimalNumber(num / 10);
      var s := Decimal(num);
      assert s[..|s| - 1] == Decimal(num / 10);
    }
  }

  lemma {:induction false} LeadingZero(s: string)
    requires Numeric(s)
    ensures Numeric("0" + s) && Number("0" + s) == Number(s)
  {
    var z := "0" + s;
    if s == "" {
      assert z[..0] == "";
    } else {
      LeadingZero(s[..|s| - 1]);
      assert z[..|z| - 1] == "0" + s[..|s| - 1];
    }
  }

  lemma {:induction false} PaddedNumber(s: string, digits: nat)
    requires Numeric(s)
    ensures Numeric(Padded(s, digits)) && Number(Padded(s, digits)) == Number(s)
    ensures |Padded(s, digits)| == if |s| >= digits then |s| else digits
    decreases digits - |s|
  {
    if |s| < digits {
      LeadingZero(s);
      PaddedNumber("0" + s, digits);
    }
  }

  /** A number below ten to the n has at most n digits, and the other way round. */
  lemma {:induction false} DigitsIff(num: nat, n: nat)
    ensures |Decimal(num)| <= n <==> num < Shift(1, n)
    decreases n
  {
    if n > 0 {
      DigitsIff(num / 10, n - 1);
      assert num / 10 < Shift(1, n - 1) <==> num < 10 * Shift(1, n - 1);
    }
  }

  /** The numeral of a number: padded to the width when it fits, and longer when it does not. */
  lemma NumeralIs(num: nat, digits: nat)
    ensures var s := Padded(Decimal(num), digits);
            && Numeric(s) && Number(s) == num && |s| >= digits
            && (|s| == digits <==> num < Shift(1, digits))
  {
    DecimalNumber(num);
    PaddedNumber(Decimal(num), digits);
    DigitsIff(num, digits);
  }

  lemma {:induction false} ShiftMonotone(x: nat, y: nat)
    requires x <= y
    ensures |Decimal(x)| <= |Decimal(y)|
    decreases y
  {
    if x > 0 { ShiftMonotone(x / 10, y / 10); }
  }

  // ---------------------------------------------------------------------------------------------
  // The whole string

  /** The numerals of the colours one after the other. */
  function Spelled(colors: seq<nat>, digits: nat): string {
    if colors == [] then "" else Spelled(colors[..|colors| - 1], digits) + Padded(Decimal(colors[|colors| - 1]), digits)
  }

  /** src/single/PRSolution.cc:364-376 */
  method GetString(solution: seq<nat>, m: nat) returns (toret: string)
    ensures toret == Spelled(solution, |Decimal(m)|)
  {
    toret := "";
    var digits := Ndigits(m);
    for i := 0 to |solution|
      invariant toret == Spelled(solution[..i], digits)
    {
      var part := Num2Str(solution[i], digits);
      assert solution[..i + 1][..i] == solution[..i];
      toret := toret + part;
    }
    assert solution[..|solution|] == solution;
  }

  /** The numbers spelled by the pieces of length digits of a string, the last one perhaps shorter. */
  function Pieces(s: string, digits: nat): (r: seq<nat>)
    requires Numeric(s) && digits > 0
    decreases |s|
  {
    if s == "" then []
    else if |s| <= digits then [Number(s)]
    else [Number(s[..digits])] + Pieces(s[digits..], digits)
  }

  function From(s: string, i: nat): string {
    if i <= |s| then s[i..] else ""
  }

  /** src/common/TradeoffPoints.cc:34-44 */
  method GetColoring(tmps: string, digits: nat) returns (toret: seq<nat>)
    requires Numeric(tmps) && digits > 0
    ensures toret == Pieces(tmps, digits)
  {
    toret := [];
    var i := 0;
    hide Pieces, Number;
    while i < |tmps|
      invariant 0 <= i && Numeric(From(tmps, i)) && toret + Pieces(From(tmps, i), digits) == Pieces(tmps, digits)
      decreases |tmps| - i
    {
      var end := if i + digits <= |tmps| then i + digits else |tmps|;
      var v := Number(tmps[i..end]);
      PieceNext(tmps, i, end, digits);
      assert toret + Pieces(From(tmps, i), digits) == (toret + [v]) + Pieces(From(tmps, i + digits), digits);
      toret := toret + [v];
      i := i + digits;
    }
    NothingSpelled(digits);
  }

  lemma PieceNext(s: string, i: nat, end: nat, digits: nat)
    requires Numeric(s) && digits > 0 && i < |s| && end == if i + digits <= |s| then i + digits else |s|
    ensures Pieces(From(s, i), digits) == [Number(s[i..end])] + Pieces(From(s, i + digits), digits)
  {
    var rest := s[i..];
    if i + digits < |s| {
      assert rest[..digits] == s[i..end] && rest[digits..] == s[i + digits..];
    } else {
      assert rest == s[i..end] && From(s, i + digits) == "";
    }
  }

  /** The length of k pieces. */
  function Width(k: nat, digits: nat): nat {
    if k == 0 then 0 else Width(k - 1, digits) + digits
  }

  lemma {:induction false} PiecesCount(s: string, digits: nat)
    requires Numeric(s) && digits > 0
    ensures |s| <= Width(|Pieces(s, digits)|, digits)
    decreases |s|
  {
    if |s| > digits {
      PiecesCount(s[digits..], digits);
      assert |Pieces(s, digits)| == 1 + |Pieces(s[digits..], digits)|;
    } else if s != "" {
      assert Width(1, digits) == Width(0, digits) + digits;
    }
  }

  lemma PiecesFirst(s: string, digits: nat)
    requires Numeric(s) && 0 < digits <= |s|
    ensures Numeric(s[..digits]) && Numeric(s[digits..])
    ensures Pieces(s, digits) == [Number(s[..digits])] + Pieces(s[digits..], digits)
  {
    hide Number;
    if |s| == digits { assert s[digits..] == "" && s[..digits] == s; }
  }

  /** A whole piece more. */
  lemma {:induction false} PiecesMore(s: string, part: string, digits: nat, k: nat)
    requires Numeric(s) && Numeric(part) && digits > 0 && |part| == digits && |s| == Width(k, digits)
    ensures Numeric(s + part) && Pieces(s + part, digits) == Pieces(s, digits) + [Number(part)]
    decreases k
  {
    hide Numeric, Number, Pieces, Width;
    NumericJoin(s, part);
    PiecesFirst(s + part, digits);
    if k == 0 {
      NothingSpelled(digits);
      assert s + part == part && part[..digits] == part && part[digits..] == "";
    } else {
      WidthFirst(k, digits);
      PiecesFirst(s, digits);
      PiecesMore(s[digits..], part, digits, k - 1);
      CutJoined(s, part, digits);
    }
  }

  lemma CutJoined(s: string, part: string, digits: nat)
    requires digits <= |s|
    ensures (s + part)[..digits] == s[..digits] && (s + part)[digits..] == s[digits..] + part
  {}

  lemma WidthFirst(k: nat, digits: nat)
    requires k > 0
    ensures Width(k, digits) >= digits && Width(k, digits) - digits == Width(k - 1, digits)
  {}

  /** Every colour fits in the width. */
  predicate Fit(colors: seq<nat>, digits: nat) {
    forall i | 0 <= i < |colors| :: colors[i] < Shift(1, digits)
  }

  lemma SpelledIs(colors: seq<nat>, digits: nat)
    requires colors != []
    ensures Spelled(colors, digits) == Spelled(colors[..|colors| - 1], digits) + Padded(Decimal(colors[|colors| - 1]), digits)
    ensures Width(|colors|, digits) == Width(|colors| - 1, digits) + digits
    ensures colors == colors[..|colors| - 1] + [colors[|colors| - 1]]
  {
    hide Padded, Decimal;
  }

  lemma NumericJoin(a: string, b: string)
    requires Numeric(a) && Numeric(b)
    ensures Numeric(a + b)
  {}

  lemma NothingSpelled(digits: nat)
    ensures Spelled([], digits) == "" && Numeric("") && Width(0, digits) == 0 && Fit([], digits)
    ensures digits > 0 ==> Pieces("", digits) == []
  {}

  lemma {:induction false} SpelledLength(colors: seq<nat>, digits: nat)
    ensures Numeric(Spelled(colors, digits)) && |Spelled(colors, digits)| >= Width(|colors|, digits)
    ensures |Spelled(colors, digits)| == Width(|colors|, digits) <==> Fit(colors, digits)
  {
    hide *;
    if colors == [] {
      NothingSpelled(digits);
    } else {
      var k := |colors| - 1;
      SpelledIs(colors, digits);
      SpelledLength(colors[..k], digits);
      NumeralIs(colors[k], digits);
      NumericJoin(Spelled(colors[..k], digits), Padded(Decimal(colors[k]), digits));
      FitLast(colors, digits);
    }
  }

  lemma {:induction false} WidthGrows(i: nat, k: nat, digits: nat)
    requires i < k
    ensures Width(i, digits) + digits == Width(i + 1, digits) <= Width(k, digits)
  {
    if i + 1 < k { WidthGrows(i, k - 1, digits); }
  }

  /** When all colours fit in the width, the string has the numeral of colour i in its i-th piece. */
  lemma {:induction false} SpelledAt(colors: seq<nat>, digits: nat, i: nat)
    requires Fit(colors, digits) && i < |colors|
    ensures Width(i, digits) <= Width(i + 1, digits) <= |Spelled(colors, digits)|
    ensures Spelled(colors, digits)[Width(i, digits)..Width(i + 1, digits)] == Padded(Decimal(colors[i]), digits)
  {
    hide *;
    var k := |colors| - 1;
    var before, last := Spelled(colors[..k], digits), Padded(Decimal(colors[k]), digits);
    SpelledIs(colors, digits);
    FitLast(colors, digits);
    SpelledLength(colors[..k], digits);
    NumeralIs(colors[k], digits);
    WidthGrows(i, k + 1, digits);
    if i < k {
      SpelledAt(colors[..k], digits, i);
      assert (before + last)[Width(i, digits)..Width(i + 1, digits)] == before[Width(i, digits)..Width(i + 1, digits)];
    } else {
      assert (before + last)[|before|..] == last;
    }
  }

  lemma FitLast(colors: seq<nat>, digits: nat)
    requires colors != []
    ensures Fit(colors, digits) <==> Fit(colors[..|colors| - 1], digits) && colors[|colors| - 1] < Shift(1, digits)
  {
    if Fit(colors[..|colors| - 1], digits) && colors[|colors| - 1] < Shift(1, digits) {
      forall i | 0 <= i < |colors| ensures colors[i] < Shift(1, digits) {
        if i < |colors| - 1 { assert colors[..|colors| - 1][i] == colors[i]; }
      }
    }
  }

  lemma {:induction false} PiecesOfSpelled(colors: seq<nat>, digits: nat)
    requires digits > 0 && Fit(colors, digits)
    ensures Numeric(Spelled(colors, digits)) && Pieces(Spelled(colors, digits), digits) == colors
  {
    hide *;
    SpelledLength(colors, digits);
    if colors == [] {
      NothingSpelled(digits);
    } else {
      var k := |colors| - 1;
      SpelledIs(colors, digits);
      FitLast(colors, digits);
      PiecesOfSpelled(colors[..k], digits);
      SpelledLength(colors[..k], digits);
      NumeralIs(colors[k], digits);
      PiecesMore(Spelled(colors[..k], digits), Padded(Decimal(colors[k]), digits), digits, k);
    }
  }

  /** The decoder gives the colours back exactly when they all fit in the width. */
  lemma DecodesIff(colors: seq<nat>, digits: nat)
    requires digits > 0
    ensures Numeric(Spelled(colors, digits))
    ensures Pieces(Spelled(colors, digits), digits) == colors <==> Fit(colors, digits)
  {
    SpelledLength(colors, digits);
    if Fit(colors, digits) {
      PiecesOfSpelled(colors, digits);
    } else {
      PiecesCount(Spelled(colors, digits), digits);
    }
  }

  /** Colours below m come back from the solution's own string, whatever they are. */
  method ColorsRoundTrip(solution: seq<nat>, m: nat) returns (back: seq<nat>)
    requires m > 0 && forall i | 0 <= i < |solution| :: solution[i] < m
    ensures back == solution
  {
    var s := GetString(solution, m);
    var digits := Ndigits(m);
    forall i | 0 <= i < |solution| ensures solution[i] < Shift(1, digits) {
      ShiftMonotone(solution[i], m);
      DigitsIff(solution[i], digits);
    }
    DecodesIff(solution, digits);
    back := GetColoring(s, digits);
  }
}
