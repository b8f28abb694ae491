/** The `gt_zero` field check of server/schemas.py, over exact decimals. */
module Schemas {
  import opened Constants

  /** A validated field value: a Python `int` (ids, after `coerce=int`) or a
      `decimal.Decimal` (amounts, after `coerce=Decimal`), which is
      `coefficient * 10^exponent` exactly. */
  datatype Number = Int(i: int) | Dec(coefficient: int, exponent: int)

  /** Significant digits of the default decimal context. */
  const Precision: nat := 28

  function Pow10(k: nat): (r: int)
    ensures r >= 1
  {
    if k == 0 then 1 else 10 * Pow10(k - 1)
  }

  /** `n / d` rounded to an integer, ties to the even neighbour
      (ROUND_HALF_EVEN, the default context's rounding). */
  function RoundHalfEven(n: int, d: int): (r: int)
    requires d >= 1
  {
    var q, rem := n / d, n % d;
    if 2 * rem > d || (2 * rem == d && q % 2 == 1) then q + 1 else q
  }

  /** The coefficient of `value.quantize(Decimal('.00'))`: the value in cents. */
  function QuantizeCents(coefficient: int, exponent: int): (cents: int) {
    if exponent >= -2 then coefficient * Pow10(exponent + 2)
    else RoundHalfEven(coefficient, Pow10(-2 - exponent))
  }

  /** What a field check does: report errors through the `error` callback,
      or raise decimal.InvalidOperation because the quantized coefficient
      has more digits than the context allows. */
  datatype Check = Reported(errors: seq<(string, ValidationError)>) | InvalidOperation

  /** `gt_zero(field, value, error)`: for a Decimal, the value rounded to
      cents must be positive; for anything else the value itself must be. */
  function GtZero(field: string, value: Number): (r: Check)
    ensures r.Reported? ==> |r.errors| <= 1
    ensures r.Reported? ==> forall k :: 0 <= k < |r.errors| ==> r.errors[k] == (field, MustBeGreater0)
    ensures value.Int? ==> r.Reported? && (r.errors == [] <==> value.i > 0)
    ensures value.Dec? && value.coefficient <= 0 && r.Reported? ==> r.errors != []
    ensures value.Dec? ==>
              (r.InvalidOperation? <==> Pow10(Precision) <= Abs(QuantizeCents(value.coefficient, value.exponent)))
  {
    match value
    case Int(i) =>
      if i <= 0 then Reported([(field, MustBeGreater0)]) else Reported([])
    case Dec(c, e) =>
      var q := QuantizeCents(c, e);
      if q <= -Pow10(Precision) || Pow10(Precision) <= q then InvalidOperation
      else if q <= 0 || c <= 0 then Reported([(field, MustBeGreater0)])
      else Reported([])
  }

  function Abs(n: int): (m: nat) {
    if n < 0 then -n else n
  }

  /** Whether `|coefficient * 10^exponent| < 10^k`. */
  predicate MagnitudeBelow(coefficient: int, exponent: int, k: nat) {
    if exponent >= 0 then Abs(coefficient) * Pow10(exponent) < Pow10(k)
    else Abs(coefficient) < Pow10(k) * Pow10(-exponent)
  }

  lemma Pow10Add(a: nat, b: nat)
    ensures Pow10(a + b) == Pow10(a) * Pow10(b)
  {
    if a > 0 {
      Pow10Add(a - 1, b);
    }
  }

  /** Half-even rounding of `n / d` is a nearest integer, and a tie goes to
      the even one. */
  lemma RoundHalfEvenNearest(n: int, d: int)
    requires d >= 1
    ensures var r := RoundHalfEven(n, d);
            -d <= 2 * (n - r * d) <= d
    ensures var r := RoundHalfEven(n, d);
            (2 * (n - r * d) == d || 2 * (n - r * d) == -d) ==> r % 2 == 0
  {
    var q, rem := n / d, n % d;
    assert n == q * d + rem;
    assert (q + 1) * d == q * d + d;
  }

  /** `quantize(Decimal('.00'))` gives the nearest whole number of cents: it
      is exact for a value with at most two decimals, and otherwise off by at
      most half a cent, a tie going to the even number of cents. */
  lemma QuantizeNearest(c: int, e: int)
    ensures e >= 0 ==> QuantizeCents(c, e) == 100 * (c * Pow10(e))
    ensures e < 0 ==>
              var r, d := QuantizeCents(c, e), Pow10(-e);
              -d <= 200 * c - 2 * r * d <= d
    ensures e < 0 ==>
              var r, d := QuantizeCents(c, e), Pow10(-e);
              (200 * c - 2 * r * d == d || 200 * c - 2 * r * d == -d) ==> r % 2 == 0
  {
    assert Pow10(2) == 100;
    if e >= 0 {
      Pow10Add(2, e);
      assert c * (100 * Pow10(e)) == 100 * (c * Pow10(e));
    } else if e == -1 {
      assert Pow10(1) == 10;
    } else if e < -2 {
      var d := Pow10(-2 - e);
      var r := RoundHalfEven(c, d);
      Pow10Add(2, -2 - e);
      RoundHalfEvenNearest(c, d);
      assert 200 * c - 2 * r * (100 * d) == 100 * (2 * (c - r * d));
    }
  }

  /** Quantizing a value below `10^k` in magnitude gives at most `10^k`
      hundred cents. */
  lemma QuantizeBound(c: int, e: int, k: nat)
    requires MagnitudeBelow(c, e, k)
    ensures Abs(QuantizeCents(c, e)) <= 100 * Pow10(k)
  {
    if e >= 0 {
      ScaleUpBound(c, e, k);
    } else if e >= -2 {
      ShiftBound(c, e, k);
    } else {
      RoundDownBound(c, e, k);
    }
  }

  lemma ScaleUpBound(c: int, e: int, k: nat)
    requires e >= 0 && Abs(c) * Pow10(e) < Pow10(k)
    ensures Abs(c * Pow10(e + 2)) <= 100 * Pow10(k)
  {
    Pow10Add(2, e);
    assert Pow10(2) == 100;
    var x := Abs(c) * Pow10(e);
    assert Abs(c * Pow10(e + 2)) == x * 100;
  }

  lemma ShiftBound(c: int, e: int, k: nat)
    requires -2 <= e < 0 && Abs(c) < Pow10(k) * Pow10(-e)
    ensures Abs(c * Pow10(e + 2)) <= 100 * Pow10(k)
  {
    if e == -1 {
      assert Pow10(1) == 10;
    } else {
      assert Pow10(2) == 100;
    }
  }

  lemma RoundDownBound(c: int, e: int, k: nat)
    requires e < -2 && Abs(c) < Pow10(k) * Pow10(-e)
    ensures Abs(RoundHalfEven(c, Pow10(-2 - e))) <= 100 * Pow10(k)
  {
    var d := Pow10(-2 - e);
    Pow10Add(2, -2 - e);
    assert Pow10(2) == 100;
    var b := 100 * Pow10(k);
    assert Pow10(k) * Pow10(-e) == b * d;
    QuotientBound(c, d, b);
  }

  /** Multiplying by a positive factor keeps the order. */
  lemma MulMonotonic(x: int, y: int, d: int)
    requires d >= 1
    ensures x <= y <==> x * d <= y * d
  {
  }

  /** `|n| < b * d` bounds the Euclidean quotient by `b`. */
  lemma QuotientBound(n: int, d: int, b: int)
    requires d >= 1 && b >= 0 && Abs(n) < b * d
    ensures -b <= n / d < b
  {
    var q := n / d;
    assert n == q * d + n % d;
    MulMonotonic(b, q, d);
    MulMonotonic(q + 1, -b, d);
    assert (q + 1) * d == q * d + d;
    assert (-b) * d == -(b * d);
  }

  /** Quantizing a Decimal below 10^25 in magnitude gives at most 28
      digits of cents, so it never raises InvalidOperation. */
  lemma QuantizeFitsPrecision(c: int, e: int)
    requires MagnitudeBelow(c, e, Precision - 3)
    ensures Abs(QuantizeCents(c, e)) < Pow10(Precision)
  {
    QuantizeBound(c, e, Precision - 3);
    Pow10Add(3, Precision - 3);
    assert Pow10(3) == 1000;
  }

  /** Every Decimal below 10^25 in magnitude reaches the comparison, and
      passes exactly when it exceeds half a cent. */
  lemma ModerateDecimalsAreChecked(field: string, c: int, e: int)
    requires MagnitudeBelow(c, e, Precision - 3)
    ensures GtZero(field, Dec(c, e)).Reported?
    ensures GtZero(field, Dec(c, e)).errors == [] <==> AboveHalfCent(c, e)
  {
    QuantizeFitsPrecision(c, e);
    DecimalAcceptedIffAboveHalfCent(field, c, e);
  }

  /** Whether `coefficient * 10^exponent` exceeds half a cent, i.e. 0.005. */
  predicate AboveHalfCent(coefficient: int, exponent: int) {
    if exponent >= 0 then coefficient > 0 else 200 * coefficient > Pow10(-exponent)
  }

  lemma RoundHalfEvenPositive(n: int, d: int)
    requires d >= 1
    ensures RoundHalfEven(n, d) > 0 <==> 2 * n > d
  {
  }

  lemma QuantizePositive(c: int, e: int)
    ensures QuantizeCents(c, e) > 0 <==> AboveHalfCent(c, e)
  {
    if e >= -2 {
      var p := Pow10(e + 2);
      if c > 0 { assert c * p >= p; } else { assert c * p <= 0; }
      if e == -2 {
        assert Pow10(-e) == 100;
      } else if e == -1 {
        assert Pow10(-e) == 10;
      }
    } else {
      var k := -2 - e;
      assert Pow10(-e) == 100 * Pow10(k);
      RoundHalfEvenPositive(c, Pow10(k));
    }
  }

  /** A Decimal the context can quantize passes `gt_zero` exactly when it is
      more than half a cent: `Decimal('0.005')` rounds to 0.00 (ties go to even)
      and is rejected, and the trailing `value <= 0` test never rejects
      anything the rounding test let through. */
  lemma DecimalAcceptedIffAboveHalfCent(field: string, c: int, e: int)
    requires GtZero(field, Dec(c, e)).Reported?
    ensures GtZero(field, Dec(c, e)).errors == [] <==> AboveHalfCent(c, e)
    ensures QuantizeCents(c, e) > 0 ==> c > 0
  {
    QuantizePositive(c, e);
  }

  /** The values the test suite sends, as exact decimals: 0.001, 0 and -1
      (and `Decimal('0.005')`, the tie) are rejected as amounts; 0.01, 0.1, 1
      and 10 pass; ids 0 and -1 are rejected. */
  lemma TestedValues()
    ensures GtZero("amount", Dec(1, -3)) == Reported([("amount", MustBeGreater0)])
    ensures GtZero("amount", Dec(5, -3)) == Reported([("amount", MustBeGreater0)])
    ensures GtZero("amount", Dec(0, 0)) == Reported([("amount", MustBeGreater0)])
    ensures GtZero("amount", Dec(-1, 0)) == Reported([("amount", MustBeGreater0)])
    ensures GtZero("amount", Dec(1, -2)) == Reported([])
    ensures GtZero("amount", Dec(1, -1)) == Reported([])
    ensures GtZero("amount", Dec(1, 0)) == Reported([])
    ensures GtZero("amount", Dec(10, 0)) == Reported([])
    ensures GtZero("id", Int(0)) == Reported([("id", MustBeGreater0)])
    ensures GtZero("id", Int(-1)) == Reported([("id", MustBeGreater0)])
  {
  }
}
