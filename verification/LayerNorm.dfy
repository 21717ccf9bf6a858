/** Why layernorm_int is well defined, how large its terms are, and what does not change its result. */
module LayerNormProperties {
  import opened Rounding
  import opened SquareRoot
  import opened Sums
  import opened SfpuReference

  /** Sum of squared distances to c, expanded. */
  lemma {:induction false} SquaredDistances(x: seq<int>, n: nat, c: int)
    requires n <= |x|
    ensures Sum(Squares(x), n) - 2 * c * Sum(x, n) + n * (c * c) >= 0
  {
    if n > 0 {
      SquaredDistances(x, n - 1, c);
      DistanceStep(n, Sum(x, n - 1), Sum(Squares(x), n - 1), x[n - 1], c);
    }
  }

  lemma DistanceStep(n: int, s: int, t: int, v: int, c: int)
    ensures (t + v * v) - 2 * c * (s + v) + n * (c * c) == (t - 2 * c * s + (n - 1) * (c * c)) + (v - c) * (v - c)
    ensures (v - c) * (v - c) >= 0
  {
    var cc, cv := c * c, c * v;
    assert 2 * c * (s + v) == 2 * c * s + 2 * cv;
    assert n * cc == (n - 1) * cc + cc;
    assert (v - c) * (v - c) == v * v - 2 * cv + cc;
    SquareNonNegative(v - c);
  }

  lemma SquareNonNegative(a: int)
    ensures a * a >= 0
  {
  }

  /** Cauchy-Schwarz: the variance numerator of any prefix is never negative. */
  lemma {:induction false} SpreadNonNegative(x: seq<int>, n: nat)
    requires n <= |x|
    ensures Spread(x, n) >= 0
  {
    if n > 0 {
      SpreadNonNegative(x, n - 1);
      SquaredDistances(x, n - 1, x[n - 1]);
      SpreadStep(n - 1, Sum(x, n - 1), Sum(Squares(x), n - 1), x[n - 1]);
    }
  }

  lemma SpreadStep(n: int, s: int, t: int, v: int)
    ensures (n + 1) * (t + v * v) - (s + v) * (s + v) == (n * t - s * s) + (t - 2 * v * s + n * (v * v))
  {
    assert (n + 1) * (t + v * v) == n * t + n * (v * v) + t + v * v;
    assert (s + v) * (s + v) == s * s + 2 * v * s + v * v;
  }

  // ----- removing one element -----------------------------------------------

  function Without(x: seq<int>, i: nat): (r: seq<int>)
    requires i < |x|
    ensures |r| == |x| - 1
  {
    x[..i] + x[i + 1..]
  }

  lemma {:induction false} SumWithout(x: seq<int>, i: nat, n: nat)
    requires i < n <= |x|
    ensures Sum(Without(x, i), n - 1) == Sum(x, n) - x[i]
  {
    if i < n - 1 {
      SumWithout(x, i, n - 1);
    } else {
      SumOfEqual(Without(x, i), x, n - 1);
    }
  }

  lemma SumOfRest(y: seq<int>, rest: seq<int>, i: nat)
    requires i < |y| && rest == Without(y, i)
    ensures Sum(rest, |rest|) == Sum(y, |y|) - y[i]
  {
    SumWithout(y, i, |y|);
  }

  lemma SquaresWithout(x: seq<int>, i: nat)
    requires i < |x|
    ensures Squares(Without(x, i)) == Without(Squares(x), i)
  {
    var left, right := Squares(Without(x, i)), Without(Squares(x), i);
    assert |left| == |right|;
    forall j | 0 <= j < |left|
      ensures left[j] == right[j]
    {
      var source := if j < i then j else j + 1;
      assert Without(x, i)[j] == x[source] && right[j] == Squares(x)[source];
    }
  }

  function Centered(x: seq<int>, i: nat): int
    requires i < |x|
  {
    |x| * x[i] - Sum(x, |x|)
  }

  /** Samuelson: no entry is further from the mean than sqrt(L - 1) standard deviations. */
  lemma CenteredBound(x: seq<int>, i: nat)
    requires i < |x|
    ensures Centered(x, i) * Centered(x, i) <= (|x| - 1) * Spread(x, |x|)
  {
    var n, rest := |x|, Without(x, i);
    SumOfRest(x, rest, i);
    SquaresWithout(x, i);
    SumOfRest(Squares(x), Squares(rest), i);
    SpreadNonNegative(rest, n - 1);
    var v, s1, t1 := x[i], Sum(rest, n - 1), Sum(Squares(rest), n - 1);
    CenteredOfRest(n - 1, v, s1);
    SamuelsonTotals(n - 1, v, s1, t1, Sum(x, n), Sum(Squares(x), n), Centered(x, i), Spread(x, n), Spread(rest, n - 1));
  }

  lemma CenteredOfRest(k: int, v: int, s: int)
    ensures (k + 1) * v - (s + v) == k * v - s
  {
  }

  lemma SamuelsonTotals(k: int, v: int, s1: int, t1: int, s: int, t: int, centered: int, spread: int, rest: int)
    requires s == s1 + v && t == t1 + v * v && centered == k * v - s1
    requires spread == (k + 1) * t - s * s && rest == k * t1 - s1 * s1
    requires k >= 0 && rest >= 0
    ensures centered * centered <= k * spread
  {
    SamuelsonIdentity(k, v, s1, t1);
    MulOrder(k + 1, 0, rest);
  }

  lemma SamuelsonIdentity(k: int, v: int, s: int, t: int)
    ensures k * ((k + 1) * (t + v * v) - (s + v) * (s + v)) - (k * v - s) * (k * v - s) == (k + 1) * (k * t - s * s)
  {
    assert (s + v) * (s + v) == s * s + 2 * (s * v) + v * v;
    assert (k * v - s) * (k * v - s) == (k * v) * (k * v) - 2 * (k * v) * s + s * s;
    assert (k + 1) * (t + v * v) == k * t + k * (v * v) + t + v * v;
    var p := v * v;
    assert (k * v) * (k * v) == k * k * p;
    assert (k * v) * s == k * (s * v);
  }

  // ----- size of the terms ---------------------------------------------------

  lemma SquareRange(v: int)
    requires -32768 <= v <= 32767
    ensures 0 <= v * v <= 0x4000_0000
  {
    if v >= 0 {
      MulOrder(32768, v, v);
    } else {
      MulOrder(32768, -v, -v);
      assert (-v) * (-v) == v * v;
    }
  }

  lemma LengthSquare(length: int)
    requires 1 <= length <= MAX_VECTOR
    ensures 1 <= length * length <= 9437184
  {
    ProductBound(length, length, 3072, 3072);
    MulOrder(length, 1, length);
  }

  lemma EpsilonRange(length: nat)
    requires 1 <= length <= MAX_VECTOR
    ensures 10995116 <= EpsilonTerm(length) < 0x1_0000_0000_0000
  {
    LengthSquare(length);
    RneBounds(length * length * 0x100_0000_0000, 100000, 10995116, 0xffff_ffff_ffff);
  }

  lemma SquaresRange(x: seq<int>)
    requires IsInt16Vector(x)
    ensures 0 <= Sum(Squares(x), |x|) <= |x| * 0x4000_0000
  {
    forall i | 0 <= i < |x|
      ensures 0 <= Squares(x)[i] <= 0x4000_0000
    {
      SquareRange(x[i]);
    }
    SumBounds(Squares(x), |x|, 0, 0x4000_0000);
  }

  lemma SpreadRange(n: int, s: int, t: int)
    requires 1 <= n <= MAX_VECTOR && 0 <= t <= n * 0x4000_0000
    ensures n * t - s * s <= 9437184 * 0x4000_0000
  {
    SquareNonNegative(s);
    LengthSquare(n);
    ProductBound(n, t, n, n * 0x4000_0000);
    assert n * (n * 0x4000_0000) == n * n * 0x4000_0000;
  }

  /** Every intermediate of the reference fits the register the design gives it. */
  lemma TermRanges(x: seq<int>)
    requires IsInt16Vector(x)
    ensures -100663296 <= Sum(x, |x|) <= 100663296
    ensures 0 <= Sum(Squares(x), |x|) < 0x400_0000_0000
    ensures 0 <= Spread(x, |x|) < 0x40_0000_0000_0000
    ensures 0 < Radicand(x) < 0x1_0000_0000_0000_0000_0000
  {
    SumBounds(x, |x|, -32768, 32767);
    SquaresRange(x);
    SpreadNonNegative(x, |x|);
    SpreadRange(|x|, Sum(x, |x|), Sum(Squares(x), |x|));
    EpsilonRange(|x|);
  }

  /** For every legal row: the denominator is the exact positive floor root and nothing is raised. */
  lemma DenominatorPositive(x: seq<int>)
    requires IsInt16Vector(x)
    ensures Radicand(x) >= 0
    ensures var d := Isqrt(Radicand(x));
            0 < d < 0x100_0000_0000 && IsFloorSqrt(Radicand(x), d)
  {
    TermRanges(x);
    EpsilonRange(|x|);
    var d := Isqrt(Radicand(x));
    SquareOrder(0x100_0000_0000, d);
    SquareOrder(d + 1, 1);
  }

  /** layernorm_int raises exactly on malformed planes; on legal ones every value is an int16. */
  lemma LayerNormDefined(x: seq<int>, gain: seq<int>, bias: seq<int>)
    ensures LayerNormInt(x, gain, bias).Ok? <==>
              IsInt16Vector(x) && IsInt16Vector(gain) && IsInt16Vector(bias) && |x| == |gain| == |bias|
    ensures LayerNormInt(x, gain, bias).Ok? ==> IsInt16Vector(LayerNormInt(x, gain, bias).value)
  {
    if IsInt16Vector(x) {
      DenominatorPositive(x);
    }
  }

  /**
   The normalized value is bounded by sqrt(L - 1) in units of the denominator:
   4096^2 (L x - S)^2 <= (L - 1) (D + 1)^2.
   */
  lemma NormalizedBound(x: seq<int>, i: nat)
    requires IsInt16Vector(x) && i < |x|
    ensures Radicand(x) >= 0
    ensures var d := Isqrt(Radicand(x));
            0x100_0000 * (Centered(x, i) * Centered(x, i)) <= (|x| - 1) * ((d + 1) * (d + 1))
  {
    DenominatorPositive(x);
    CenteredBound(x, i);
    EpsilonRange(|x|);
    var d := Isqrt(Radicand(x));
    ScaledBound(|x| - 1, Centered(x, i), Spread(x, |x|), EpsilonTerm(|x|), d + 1);
  }

  lemma ScaledBound(k: int, c: int, spread: int, epsilon: int, d: int)
    requires k >= 0 && epsilon >= 0 && c * c <= k * spread && spread * 0x100_0000 + epsilon < d * d
    ensures 0x100_0000 * (c * c) <= k * (d * d)
  {
    MulOrder(d * d, spread * 0x100_0000, k);
    assert k * (spread * 0x100_0000) == 0x100_0000 * (k * spread);
  }

  // ----- translation ----------------------------------------------------------

  function Translated(x: seq<int>, c: int): (r: seq<int>)
    ensures |r| == |x| && forall i :: 0 <= i < |x| ==> r[i] == x[i] + c
  {
    seq(|x|, i requires 0 <= i < |x| => x[i] + c)
  }

  lemma {:induction false} ShiftedSums(x: seq<int>, c: int, n: nat)
    requires n <= |x|
    ensures Sum(Translated(x, c), n) == Sum(x, n) + n * c
    ensures Sum(Squares(Translated(x, c)), n) == Sum(Squares(x), n) + 2 * c * Sum(x, n) + n * (c * c)
  {
    if n > 0 {
      ShiftedSums(x, c, n - 1);
      assert Squares(Translated(x, c))[n - 1] == (x[n - 1] + c) * (x[n - 1] + c);
      ShiftStep(n, Sum(x, n - 1), Sum(Squares(x), n - 1), x[n - 1], c);
    }
  }

  lemma ShiftStep(n: int, s: int, t: int, v: int, c: int)
    ensures (s + (n - 1) * c) + (v + c) == (s + v) + n * c
    ensures (t + 2 * c * s + (n - 1) * (c * c)) + (v + c) * (v + c) == (t + v * v) + 2 * c * (s + v) + n * (c * c)
  {
    var cc, cv := c * c, c * v;
    assert (v + c) * (v + c) == v * v + 2 * cv + cc;
    assert 2 * c * (s + v) == 2 * c * s + 2 * cv;
    assert n * c == (n - 1) * c + c;
    assert n * cc == (n - 1) * cc + cc;
  }

  lemma ShiftedSpread(x: seq<int>, c: int)
    ensures Spread(Translated(x, c), |x|) == Spread(x, |x|)
  {
    var n, s, t := |x|, Sum(x, |x|), Sum(Squares(x), |x|);
    ShiftedSums(x, c, n);
    ShiftIdentity(n, s, t, c);
  }

  lemma ShiftIdentity(n: int, s: int, t: int, c: int)
    ensures n * (t + 2 * c * s + n * (c * c)) - (s + n * c) * (s + n * c) == n * t - s * s
  {
    assert (s + n * c) * (s + n * c) == s * s + 2 * (n * c) * s + (n * c) * (n * c);
    assert (n * c) * (n * c) == n * (n * (c * c));
    assert (n * c) * s == n * (c * s);
    assert n * (t + 2 * c * s + n * (c * c)) == n * t + n * (2 * c * s) + n * (n * (c * c));
    assert n * (2 * c * s) == 2 * (n * (c * s));
  }

  /** Adding one constant to every input, as long as it stays an int16, leaves the output identical. */
  lemma TranslationInvariant(x: seq<int>, gain: seq<int>, bias: seq<int>, c: int)
    requires IsInt16Vector(x) && IsInt16Vector(Translated(x, c))
    ensures LayerNormInt(Translated(x, c), gain, bias) == LayerNormInt(x, gain, bias)
  {
    var y, n := Translated(x, c), |x|;
    ShiftedSpread(x, c);
    ShiftedSums(x, c, n);
    assert Radicand(y) == Radicand(x);
    forall i | 0 <= i < n
      ensures n * y[i] - Sum(y, n) == n * x[i] - Sum(x, n)
    {
      assert n * (x[i] + c) == n * x[i] + n * c;
    }
    if IsInt16Vector(gain) && IsInt16Vector(bias) && |gain| == |bias| == n {
      DenominatorPositive(x);
      var d := Isqrt(Radicand(x));
      assert LayerNormRow(y, gain, bias, d) == LayerNormRow(x, gain, bias, d);
    }
  }
}
