/** Errors that the Python code raises and the results that carry them. */
module Outcomes {

  datatype Error = ValueError | TypeError | AssertionError | RuntimeError | TimeoutError | StructError | KeyError

  datatype Result<+T> = Ok(value: T) | Err(error: Error) {
    predicate IsFailure() {
      Err?
    }

    function PropagateFailure<U>(): Result<U>
      requires Err?
    {
      Err(error)
    }

    function Extract(): T
      requires Ok?
    {
      value
    }
  }

  datatype Option<+T> = None | Some(value: T) {
    predicate IsFailure() {
      None?
    }

    function PropagateFailure<U>(): Option<U>
      requires None?
    {
      None
    }

    function Extract(): T
      requires Some?
    {
      value
    }
  }
}

/**
 Rounding of a rational number to the nearest integer, exact halves to even.
 The predicate IsNearestEven says what the result means; RneNearest and
 NearestEvenUnique together say that Rne computes exactly that.
 */
module Rounding {
  import opened Outcomes

  function Abs(x: int): nat {
    if x < 0 then -x else x
  }

  function Max(x: int, y: int): int {
    if x < y then y else x
  }

  function Min(x: int, y: int): int {
    if x < y then x else y
  }

  function Clip(value: int, lower: int, upper: int): int {
    Max(lower, Min(upper, value))
  }

  function Sat16(value: int): int {
    Clip(value, -32768, 32767)
  }

  /** r is v, moved to the nearer end if v lies outside the range. */
  predicate IsSaturated(v: int, lower: int, upper: int, r: int) {
    && lower <= r <= upper
    && (r < v ==> r == upper)
    && (r > v ==> r == lower)
  }

  predicate IsSat16(v: int, r: int) {
    IsSaturated(v, -32768, 32767, r)
  }

  /** q is a nearest integer to n/d and, of two equally near ones, the even one. */
  ghost predicate IsNearestEven(n: int, d: int, q: int) {
    && 2 * Abs(n - q * d) <= d
    && (2 * Abs(n - q * d) == d ==> q % 2 == 0)
  }

  function RneNat(n: nat, d: int): int
    requires d > 0
  {
    var q, r := n / d, n % d;
    if 2 * r > d || (2 * r == d && q % 2 == 1) then q + 1 else q
  }

  function Rne(n: int, d: int): int
    requires d > 0
  {
    if n < 0 then -RneNat(-n, d) else RneNat(n, d)
  }

  lemma DivMod(m: int, d: int)
    requires d > 0
    ensures m == (m / d) * d + m % d && 0 <= m % d < d
  {
  }

  lemma RneNatNearest(n: nat, d: int)
    requires d > 0
    ensures IsNearestEven(n, d, RneNat(n, d))
  {
    DivMod(n, d);
    assert (n / d + 1) * d == (n / d) * d + d;
  }

  lemma RneNearest(n: int, d: int)
    requires d > 0
    ensures IsNearestEven(n, d, Rne(n, d))
  {
    RneNatNearest(Abs(n), d);
    assert (-RneNat(Abs(n), d)) * d == -(RneNat(Abs(n), d) * d);
  }

  /** At most one integer is nearest-even, so IsNearestEven pins its argument down. */
  lemma NearestEvenUnique(n: int, d: int, p: int, q: int)
    requires d > 0
    requires IsNearestEven(n, d, p) && IsNearestEven(n, d, q)
    ensures p == q
  {
    MulGap(p, q, d);
    MulGap(q, p, d);
  }

  lemma MulGap(p: int, q: int, d: int)
    requires d > 0
    ensures p < q ==> q * d >= p * d + d
    ensures p + 2 <= q ==> q * d >= p * d + 2 * d
  {
    var gap := q - p;
    assert q * d == p * d + gap * d;
  }

  lemma MulOrder(a: int, b: int, d: int)
    requires d >= 0
    ensures a >= b ==> a * d >= b * d
  {
  }

  /** Rounding never moves a value across an integer bound. */
  lemma RneBounds(n: int, d: int, lower: int, upper: int)
    requires d > 0
    requires lower * d <= n <= upper * d
    ensures lower <= Rne(n, d) <= upper
  {
    var q := Rne(n, d);
    RneNearest(n, d);
    MulGap(upper, q, d);
    MulGap(q, lower, d);
  }

  lemma RneAbs(n: int, d: int)
    requires d > 0
    ensures Abs(Rne(n, d)) == RneNat(Abs(n), d) <= Abs(n)
  {
    var m: nat := Abs(n);
    RneNearest(m, d);
    RneBounds(m, d, 0, m) by {
      MulOrder(d, 1, m);
    }
  }

  /** The reference division: it bumps the truncated quotient of the magnitude. */
  method RneDiv(numerator: int, denominator: int) returns (r: Result<int>)
    ensures denominator <= 0 ==> r == Err(ValueError)
    ensures denominator > 0 ==> r.Ok? && IsNearestEven(numerator, denominator, r.value)
    ensures denominator > 0 ==> r == Ok(Rne(numerator, denominator))
  {
    if denominator <= 0 {
      return Err(ValueError);
    }
    var magnitude := Abs(numerator);
    var quotient, remainder := magnitude / denominator, magnitude % denominator;
    if 2 * remainder > denominator || (2 * remainder == denominator && quotient % 2 == 1) {
      quotient := quotient + 1;
    }
    RneNearest(numerator, denominator);
    return Ok(if numerator < 0 then -quotient else quotient);
  }

  // ----- rounding right shifts ---------------------------------------------

  function Pow2(k: nat): (p: nat)
    ensures p > 0
  {
    if k == 0 then 1 else 2 * Pow2(k - 1)
  }

  lemma {:induction false} Pow2Monotone(j: nat, k: nat)
    requires j <= k
    ensures Pow2(j) <= Pow2(k)
    decreases k - j
  {
    if j < k {
      Pow2Monotone(j + 1, k);
    }
  }

  lemma Pow2Values()
    ensures Pow2(8) == 0x100 && Pow2(16) == 0x1_0000 && Pow2(24) == 0x100_0000
    ensures Pow2(31) == 0x8000_0000
  {
    assert Pow2(4) == 16;
    assert Pow2(8) == 256;
    assert Pow2(12) == 4096;
    assert Pow2(16) == 65536;
    assert Pow2(20) == 0x10_0000;
    assert Pow2(24) == 0x100_0000;
    assert Pow2(28) == 0x1000_0000;
  }

  const INT64_MIN := -0x8000_0000_0000_0000

  /** One element of the vectorized shift: magnitude, shifted quotient, remainder by subtraction. */
  function RneShiftValue(value: int, shift: nat): int {
    var denominator := Pow2(shift);
    var magnitude := Abs(value);
    var quotient := magnitude / denominator;
    var remainder := magnitude - quotient * denominator;
    var bumped := if 2 * remainder > denominator || (2 * remainder == denominator && quotient % 2 != 0)
                  then quotient + 1 else quotient;
    if value < 0 then -bumped else bumped
  }

  function RneShift(values: seq<int>, shift: int): Result<seq<int>> {
    if !(0 <= shift <= 31) || INT64_MIN in values then
      Err(ValueError)
    else
      Ok(seq(|values|, i requires 0 <= i < |values| => RneShiftValue(values[i], shift)))
  }

  /** The vectorized shift is the reference division by a power of two. */
  lemma RneShiftIsRne(value: int, shift: nat)
    ensures RneShiftValue(value, shift) == Rne(value, Pow2(shift))
  {
    DivMod(Abs(value), Pow2(shift));
  }
}
