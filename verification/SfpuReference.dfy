/** Sums over the first n entries of an integer sequence. */
module Sums {

  function Sum(x: seq<int>, n: nat): int
    requires n <= |x|
  {
    if n == 0 then 0 else Sum(x, n - 1) + x[n - 1]
  }

  function Squares(x: seq<int>): (s: seq<int>)
    ensures |s| == |x| && forall i :: 0 <= i < |x| ==> s[i] == x[i] * x[i]
  {
    seq(|x|, i requires 0 <= i < |x| => x[i] * x[i])
  }

  /** A sum over two parts is the sum of both; a single entry is its own sum. */
  lemma {:induction false} SumJoins(x: seq<int>, y: seq<int>, n: nat)
    requires n <= |y|
    ensures Sum(x + y, |x| + n) == Sum(x, |x|) + Sum(y, n)
    ensures n == 1 ==> Sum(y, n) == y[0]
  {
    if n > 0 {
      SumJoins(x, y, n - 1);
    } else {
      SumOfEqual(x + y, x, |x|);
    }
  }

  lemma {:induction false} SumBounds(x: seq<int>, n: nat, lower: int, upper: int)
    requires n <= |x|
    requires forall i :: 0 <= i < n ==> lower <= x[i] <= upper
    ensures n * lower <= Sum(x, n) <= n * upper
  {
    if n > 0 {
      SumBounds(x, n - 1, lower, upper);
      assert n * lower == (n - 1) * lower + lower && n * upper == (n - 1) * upper + upper;
    }
  }

  lemma {:induction false} SumOfEqual(x: seq<int>, y: seq<int>, n: nat)
    requires n <= |x| && n <= |y|
    requires forall i :: 0 <= i < n ==> x[i] == y[i]
    ensures Sum(x, n) == Sum(y, n)
  {
    if n > 0 {
      SumOfEqual(x, y, n - 1);
    }
  }
}

/**
 The seven SFPU operators on unbounded integers, as ref/sfpu_ref.py defines them.  The GELU and
 exponential tables are given constants; TableData.Valid lists the facts used about them.
 */
module SfpuReference {
  import opened Outcomes
  import opened Rounding
  import opened SquareRoot
  import opened Sums

  const MAX_VECTOR := 3072
  const MAX_SOFTMAX := 1024
  const PROB_SCALE := 32768

  datatype TableData = TableData(gelu: seq<int>, exp: seq<int>) {
    ghost predicate Valid() {
      && |gelu| == 2049
      && (forall i :: 0 <= i < 2049 ==> 0 <= gelu[i] <= i)
      && |exp| == 257
      && exp[0] == 0x100_0000
      && (forall i :: 0 <= i < 257 ==> 0 <= exp[i] <= 0x100_0000)
    }
  }

  type Tables = t: TableData | t.Valid()
    witness TableData(seq(2049, i => 0), [0x100_0000] + seq(256, i => 0))

  predicate InRange(values: seq<int>, lower: int, upper: int) {
    forall i :: 0 <= i < |values| ==> lower <= values[i] <= upper
  }

  predicate IsVector(values: seq<int>, maximum: int, lower: int, upper: int) {
    1 <= |values| <= maximum && InRange(values, lower, upper)
  }

  predicate IsInt16Vector(values: seq<int>) {
    IsVector(values, MAX_VECTOR, -32768, 32767)
  }

  predicate IsInt32Vector(values: seq<int>) {
    IsVector(values, MAX_VECTOR, -0x8000_0000, 0x7fff_ffff)
  }

  // ----- GELU ---------------------------------------------------------------

  function GeluValue(t: Tables, raw: int): int {
    var magnitude := Abs(raw);
    var positive := if magnitude <= 2048 then t.gelu[magnitude] else magnitude;
    if raw >= 0 then positive else positive - magnitude
  }

  function GeluInt(t: Tables, values: seq<int>): Result<seq<int>> {
    if !IsInt16Vector(values) then Err(ValueError)
    else Ok(seq(|values|, i requires 0 <= i < |values| => GeluValue(t, values[i])))
  }

  // ----- LayerNorm ----------------------------------------------------------

  /** L * T - S^2, the variance numerator. */
  function Spread(x: seq<int>, n: nat): int
    requires n <= |x|
  {
    n * Sum(Squares(x), n) - Sum(x, n) * Sum(x, n)
  }

  function EpsilonTerm(length: nat): int {
    Rne(length * length * 0x100_0000_0000, 100000)
  }

  function Radicand(x: seq<int>): int {
    Spread(x, |x|) * 0x100_0000 + EpsilonTerm(|x|)
  }

  function LayerNormInt(values: seq<int>, gain: seq<int>, bias: seq<int>): Result<seq<int>> {
    if !IsInt16Vector(values) || !IsInt16Vector(gain) || !IsInt16Vector(bias) then
      Err(ValueError)
    else if |values| != |gain| || |values| != |bias| then
      Err(ValueError)
    else if Radicand(values) < 0 then
      Err(ValueError)
    else
      var denominator := Isqrt(Radicand(values));
      if denominator <= 0 then
        Err(AssertionError)
      else
        Ok(LayerNormRow(values, gain, bias, denominator))
  }

  function LayerNormRow(x: seq<int>, gain: seq<int>, bias: seq<int>, denominator: int): (r: seq<int>)
    requires |x| == |gain| == |bias| && denominator > 0
    ensures |r| == |x|
  {
    var total := Sum(x, |x|);
    seq(|x|, i requires 0 <= i < |x| => LayerNormValue(|x| * x[i] - total, gain[i], bias[i], denominator))
  }

  function LayerNormValue(centered: int, scale: int, offset: int, denominator: int): int
    requires denominator > 0
  {
    Sat16(Rne(centered * scale * 256, denominator) + offset)
  }

  // ----- softmax ------------------------------------------------------------

  function ExpWeight(t: Tables, difference: nat): int {
    if difference >= 4096 then 0
    else
      var index, fraction := difference / 16, difference % 16;
      Rne(t.exp[index] * (16 - fraction) + t.exp[index + 1] * fraction, 16)
  }

  /** The largest valid score among the first n. */
  function MaxValid(x: seq<int>, mask: seq<bool>, n: nat): (m: Option<int>)
    requires n <= |x| == |mask|
    ensures m.None? <==> forall i :: 0 <= i < n ==> !mask[i]
    ensures m.Some? ==> exists i :: 0 <= i < n && mask[i] && x[i] == m.value
    ensures m.Some? ==> forall i :: 0 <= i < n && mask[i] ==> x[i] <= m.value
  {
    if n == 0 then None
    else
      var below := MaxValid(x, mask, n - 1);
      if mask[n - 1] && (below.None? || x[n - 1] > below.value) then Some(x[n - 1]) else below
  }

  function Weight(t: Tables, maximum: int, raw: int, keep: bool): int
    requires keep ==> raw <= maximum
  {
    if keep then ExpWeight(t, maximum - raw) else 0
  }

  function Weights(t: Tables, x: seq<int>, mask: seq<bool>, maximum: int): (w: seq<int>)
    requires |x| == |mask|
    requires forall i :: 0 <= i < |x| && mask[i] ==> x[i] <= maximum
    ensures |w| == |x|
  {
    seq(|x|, i requires 0 <= i < |x| => Weight(t, maximum, x[i], mask[i]))
  }

  /** Floors of the exact shares of PROB_SCALE. */
  function Floors(w: seq<int>, total: int): (q: seq<int>)
    requires total > 0
    ensures |q| == |w|
  {
    seq(|w|, i requires 0 <= i < |w| => w[i] * PROB_SCALE / total)
  }

  /** How many of the first n weights are nonzero. */
  function Nonzeros(w: seq<int>, n: nat): nat
    requires n <= |w|
  {
    if n == 0 then 0 else Nonzeros(w, n - 1) + if w[n - 1] != 0 then 1 else 0
  }

  /** One unit goes to each of the first `mass` nonzero weights. */
  function Correction(w: seq<int>, mass: int, i: nat): int
    requires i < |w|
  {
    if w[i] != 0 && Nonzeros(w, i) < mass then 1 else 0
  }

  function Corrected(w: seq<int>, q: seq<int>, mass: int): (p: seq<int>)
    requires |w| == |q|
    ensures |p| == |w|
  {
    seq(|w|, i requires 0 <= i < |w| => q[i] + Correction(w, mass, i))
  }

  function Normalized(w: seq<int>): Result<seq<int>> {
    if Sum(w, |w|) <= 0 then Err(AssertionError) else
    var q := Floors(w, Sum(w, |w|));
    var mass := PROB_SCALE - Sum(q, |q|);
    if mass < 0 || mass > Nonzeros(w, |w|) then Err(AssertionError)
    else Ok(Corrected(w, q, mass))
  }

  /** Softmax of scores of any size: the table weights of the differences to the maximum, normalized. */
  function LutSoftmax(t: Tables, x: seq<int>, mask: seq<bool>): Result<seq<int>>
    requires |x| == |mask|
  {
    var maximum := MaxValid(x, mask, |x|);
    if maximum.None? then Ok(seq(|x|, i => 0))
    else Normalized(Weights(t, x, mask, maximum.value))
  }

  function Softmax(t: Tables, values: seq<int>, mask: seq<bool>): Result<seq<int>> {
    if !IsVector(values, MAX_SOFTMAX, -32768, 32767) || |mask| != |values| then Err(ValueError)
    else LutSoftmax(t, values, mask)
  }

  // ----- affine, requantize, add --------------------------------------------

  function AddInt(values: seq<int>, other: seq<int>): Result<seq<int>> {
    if !IsInt16Vector(values) || !IsInt16Vector(other) || |values| != |other| then Err(ValueError)
    else Ok(seq(|values|, i requires 0 <= i < |values| => Sat16(values[i] + other[i])))
  }

  function AffineValue(raw: int, scale: int, bias: int, shift: nat): int {
    Sat16(Rne(raw * scale, Pow2(shift)) + bias)
  }

  function AffineInt(values: seq<int>, multipliers: seq<int>, biases: seq<int>, shift: int): Result<seq<int>> {
    if !IsInt32Vector(values) || !IsVector(multipliers, MAX_VECTOR, 0, 0x7fff_ffff) || !IsInt32Vector(biases) then
      Err(ValueError)
    else if !(0 <= shift <= 31) || |values| != |multipliers| || |values| != |biases| then
      Err(ValueError)
    else
      Ok(seq(|values|, i requires 0 <= i < |values| => AffineValue(values[i], multipliers[i], biases[i], shift)))
  }

  function RequantizeValue(raw: int, multiplier: int, shift: nat): int {
    Clip(Rne(raw * multiplier, Pow2(shift)), -128, 127)
  }

  function RequantizeInt8(values: seq<int>, multiplier: int, shift: int): Result<seq<int>> {
    if !IsInt32Vector(values) then Err(ValueError)
    else if !(0 <= multiplier < 0x8000_0000) || !(0 <= shift <= 31) then Err(ValueError)
    else Ok(seq(|values|, i requires 0 <= i < |values| => RequantizeValue(values[i], multiplier, shift)))
  }
}
