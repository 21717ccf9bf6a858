/**
 What each of the seven operators must deliver, in terms of nearest-even quotients, floor roots, table
 entries and saturation only. No law mentions a function that computes an operator. The reference obeys
 the laws, and they leave no freedom: two outputs that obey them are equal.
 */
module SfpuLaws {
  import opened Outcomes
  import opened Rounding
  import opened SquareRoot
  import opened Sums
  import opened SfpuReference
  import opened SoftmaxProperties
  import opened LayerNormProperties
  import opened SfpuPackets

  // ----- the laws --------------------------------------------------------------------

  /** The table up to 2048, the identity beyond; a negative input gives what its opposite gives, less that opposite. */
  predicate IsGelu(t: Tables, x: int, y: int) {
    var onPositive := if x < 0 then y - x else y;
    onPositive == if Abs(x) <= 2048 then t.gelu[Abs(x)] else Abs(x)
  }

  ghost predicate IsScaled(x: int, factor: int, shift: nat, q: int) {
    IsNearestEven(x * factor, Pow2(shift), q)
  }

  ghost predicate IsAffine(x: int, factor: int, bias: int, shift: nat, y: int) {
    exists q :: IsScaled(x, factor, shift, q) && IsSat16(q + bias, y)
  }

  ghost predicate IsCode(x: int, factor: int, shift: nat, y: int) {
    exists q :: IsScaled(x, factor, shift, q) && IsSaturated(q, -128, 127, y)
  }

  ghost predicate IsAffineGelu(t: Tables, x: int, factor: int, bias: int, shift: nat, y: int) {
    exists a :: IsAffine(x, factor, bias, shift, a) && IsGelu(t, a, y)
  }

  /** epsilon is 10^-5 of L^2 * 2^40, rounded. */
  ghost predicate IsEpsilon(length: nat, epsilon: int) {
    IsNearestEven(length * length * 0x100_0000_0000, 100000, epsilon)
  }

  /** d is the floor root of the variance numerator times 2^24 plus the epsilon term. */
  ghost predicate IsDeviation(x: seq<int>, d: int) {
    exists epsilon ::
      && IsEpsilon(|x|, epsilon)
      && IsFloorSqrt((|x| * Sum(Squares(x), |x|) - Sum(x, |x|) * Sum(x, |x|)) * 0x100_0000 + epsilon, d)
  }

  ghost predicate IsNormalized(x: seq<int>, i: nat, gain: int, d: int, q: int)
    requires i < |x|
  {
    IsNearestEven((|x| * x[i] - Sum(x, |x|)) * gain * 256, d, q)
  }

  /** Centered, times the gain, over the deviation, rounded once; then the bias, then saturation. */
  ghost predicate IsLayerNormValue(x: seq<int>, i: nat, gain: int, bias: int, d: int, y: int)
    requires i < |x|
  {
    exists q :: IsNormalized(x, i, gain, d, q) && IsSat16(q + bias, y)
  }

  ghost predicate IsLayerNorm(x: seq<int>, gain: seq<int>, bias: seq<int>, y: seq<int>) {
    && |x| == |gain| == |bias| == |y|
    && exists d :: d > 0 && IsDeviation(x, d)
                   && forall i :: 0 <= i < |x| ==> IsLayerNormValue(x, i, gain[i], bias[i], d, y[i])
  }

  /** Linear interpolation between table entries 16 apart, rounded; nothing from 4096 on. */
  ghost predicate IsExpWeight(t: Tables, difference: nat, w: int) {
    if difference >= 4096 then w == 0
    else
      var i := difference / 16;
      IsNearestEven(16 * t.exp[i] + (t.exp[i + 1] - t.exp[i]) * (difference - 16 * i), 16, w)
  }

  ghost predicate AreWeights(t: Tables, x: seq<int>, mask: seq<bool>, maximum: int, w: seq<int>) {
    && |x| == |mask| == |w| && IsMaximum(x, mask, maximum)
    && forall i :: 0 <= i < |x| ==> if mask[i] then IsExpWeight(t, maximum - x[i], w[i]) else w[i] == 0
  }

  /** p is the exact share of 32768, rounded down, or one more. */
  predicate IsShare(weight: int, total: int, p: int, bump: int) {
    && 0 <= bump <= 1
    && (p - bump) * total <= weight * 32768 < (p - bump) * total + total
  }

  /** Shares that add up to 32768; the entries one above their floor are the first nonzero ones. */
  ghost predicate AreShares(w: seq<int>, bumps: seq<int>, p: seq<int>) {
    && |w| == |bumps| == |p|
    && Sum(p, |p|) == 32768
    && AllShares(w, Sum(w, |w|), bumps, p)
    && FirstNonzero(w, bumps)
  }

  ghost predicate AllShares(w: seq<int>, total: int, bumps: seq<int>, p: seq<int>)
    requires |w| == |bumps| == |p|
  {
    forall i :: 0 <= i < |w| ==> IsShare(w[i], total, p[i], bumps[i])
  }

  ghost predicate FirstNonzero(w: seq<int>, bumps: seq<int>)
    requires |w| == |bumps|
  {
    && (forall i, j :: 0 <= j <= i < |w| && bumps[i] == 1 && w[j] != 0 ==> bumps[j] == 1)
    && (forall i :: 0 <= i < |w| && w[i] == 0 ==> bumps[i] == 0)
  }

  ghost predicate IsSoftmax(t: Tables, x: seq<int>, mask: seq<bool>, p: seq<int>) {
    && |x| == |mask| == |p|
    && if forall i :: 0 <= i < |x| ==> !mask[i] then forall i :: 0 <= i < |p| ==> p[i] == 0
       else exists maximum, w, bumps :: AreWeights(t, x, mask, maximum, w) && AreShares(w, bumps, p)
  }

  /** The law of the descriptor's operator. */
  ghost predicate Obeys(t: Tables, d: Descriptor, planes: seq<Plane>, y: seq<int>)
    requires d.Valid() && IsPlanes(d, planes) && InDomain(d, planes)
  {
    && |y| == d.length
    && match d.op
       case 1 => forall i :: 0 <= i < d.length ==> IsGelu(t, planes[0].v[i], y[i])
       case 2 => IsLayerNorm(planes[0].v, planes[1].v, planes[2].v, y)
       case 3 => IsSoftmax(t, planes[0].v, planes[1].m, y)
       case 4 => forall i :: 0 <= i < d.length ==>
                   IsAffine(planes[0].v[i], planes[1].v[i], planes[2].v[i], d.shift, y[i])
       case 5 => forall i :: 0 <= i < d.length ==> IsCode(planes[0].v[i], d.multiplier, d.shift, y[i])
       case 6 => forall i :: 0 <= i < d.length ==>
                   IsAffineGelu(t, planes[0].v[i], planes[1].v[i], planes[2].v[i], d.shift, y[i])
       case _ => forall i :: 0 <= i < d.length ==> IsSat16(planes[0].v[i] + planes[1].v[i], y[i])
  }

  // ----- the reference obeys them --------------------------------------------------------

  lemma AffineObeys(x: int, factor: int, bias: int, shift: nat)
    ensures IsAffine(x, factor, bias, shift, AffineValue(x, factor, bias, shift))
  {
    RneNearest(x * factor, Pow2(shift));
    assert IsScaled(x, factor, shift, Rne(x * factor, Pow2(shift)));
  }

  lemma CodeObeys(x: int, factor: int, shift: nat)
    ensures IsCode(x, factor, shift, RequantizeValue(x, factor, shift))
  {
    RneNearest(x * factor, Pow2(shift));
    assert IsScaled(x, factor, shift, Rne(x * factor, Pow2(shift)));
  }

  lemma AffineGeluObeys(t: Tables, x: int, factor: int, bias: int, shift: nat)
    ensures IsAffineGelu(t, x, factor, bias, shift, GeluValue(t, AffineValue(x, factor, bias, shift)))
  {
    AffineObeys(x, factor, bias, shift);
    assert IsGelu(t, AffineValue(x, factor, bias, shift), GeluValue(t, AffineValue(x, factor, bias, shift)));
  }

  lemma LayerNormValueObeys(x: seq<int>, i: nat, gain: int, bias: int, d: int)
    requires i < |x| && d > 0
    ensures IsLayerNormValue(x, i, gain, bias, d, LayerNormValue(|x| * x[i] - Sum(x, |x|), gain, bias, d))
  {
    var n := (|x| * x[i] - Sum(x, |x|)) * gain * 256;
    RneNearest(n, d);
    assert IsNormalized(x, i, gain, d, Rne(n, d));
  }

  lemma DeviationObeys(x: seq<int>)
    requires IsInt16Vector(x)
    ensures Radicand(x) >= 0 && Isqrt(Radicand(x)) > 0 && IsDeviation(x, Isqrt(Radicand(x)))
  {
    DenominatorPositive(x);
    RneNearest(|x| * |x| * 0x100_0000_0000, 100000);
    assert IsEpsilon(|x|, EpsilonTerm(|x|));
  }

  lemma LayerNormObeys(x: seq<int>, gain: seq<int>, bias: seq<int>)
    requires LayerNormInt(x, gain, bias).Ok?
    ensures IsLayerNorm(x, gain, bias, LayerNormInt(x, gain, bias).value)
  {
    DeviationObeys(x);
    var d, y := Isqrt(Radicand(x)), LayerNormInt(x, gain, bias).value;
    forall i | 0 <= i < |x|
      ensures IsLayerNormValue(x, i, gain[i], bias[i], d, y[i])
    {
      RowElement(x, gain, bias, i);
      LayerNormValueObeys(x, i, gain[i], bias[i], d);
    }
  }

  lemma InterpolationForms(a: int, b: int, f: int)
    ensures a * (16 - f) + b * f == 16 * a + (b - a) * f
  {
  }

  lemma WeightObeys(t: Tables, difference: nat)
    ensures IsExpWeight(t, difference, ExpWeight(t, difference))
  {
    if difference < 4096 {
      var i, f := difference / 16, difference % 16;
      var a, b := t.exp[i], t.exp[i + 1];
      InterpolationForms(a, b, f);
      RneNearest(a * (16 - f) + b * f, 16);
      assert difference - 16 * i == f;
    }
  }

  lemma WeightsObey(t: Tables, x: seq<int>, mask: seq<bool>, maximum: int)
    requires |x| == |mask| && IsMaximum(x, mask, maximum)
    ensures AreWeights(t, x, mask, maximum, Weights(t, x, mask, maximum))
  {
    forall i | 0 <= i < |x| && mask[i]
      ensures IsExpWeight(t, maximum - x[i], Weights(t, x, mask, maximum)[i])
    {
      WeightObeys(t, maximum - x[i]);
    }
  }

  function Bumps(w: seq<int>, mass: int): (b: seq<int>)
    ensures |b| == |w| && forall i :: 0 <= i < |w| ==> b[i] == Correction(w, mass, i)
  {
    seq(|w|, i requires 0 <= i < |w| => Correction(w, mass, i))
  }

  lemma {:induction false} NonzerosOrder(w: seq<int>, j: nat, i: nat)
    requires j <= i <= |w|
    ensures Nonzeros(w, j) <= Nonzeros(w, i)
    decreases i - j
  {
    if j < i {
      NonzerosOrder(w, j + 1, i);
    }
  }

  lemma ShareObeys(weight: int, total: int, bump: int)
    requires weight >= 0 && total > 0 && 0 <= bump <= 1
    ensures IsShare(weight, total, weight * PROB_SCALE / total + bump, bump)
  {
    FloorShare(weight, total);
  }

  lemma BumpsObey(w: seq<int>, mass: int)
    ensures FirstNonzero(w, Bumps(w, mass))
  {
    forall i, j | 0 <= j <= i < |w| && Bumps(w, mass)[i] == 1 && w[j] != 0
      ensures Bumps(w, mass)[j] == 1
    {
      NonzerosOrder(w, j, i);
    }
  }

  lemma FloorsObey(w: seq<int>, total: int, mass: int)
    requires NonNegative(w) && total > 0
    ensures AllShares(w, total, Bumps(w, mass), Corrected(w, Floors(w, total), mass))
  {
    forall i | 0 <= i < |w|
      ensures IsShare(w[i], total, Corrected(w, Floors(w, total), mass)[i], Bumps(w, mass)[i])
    {
      ShareObeys(w[i], total, Bumps(w, mass)[i]);
    }
  }

  lemma CorrectedObeys(w: seq<int>, q: seq<int>, total: int, mass: int)
    requires NonNegative(w) && total == Sum(w, |w|) > 0 && q == Floors(w, total)
    requires mass == PROB_SCALE - Sum(q, |w|) && 0 <= mass <= Nonzeros(w, |w|)
    ensures AreShares(w, Bumps(w, mass), Corrected(w, q, mass))
  {
    CorrectedSum(w, q, mass, |w|);
    BumpsObey(w, mass);
    FloorsObey(w, total, mass);
  }

  lemma SharesObey(w: seq<int>)
    requires NonNegative(w) && Sum(w, |w|) > 0
    ensures Normalized(w).Ok? && exists bumps :: AreShares(w, bumps, Normalized(w).value)
  {
    var q := Floors(w, Sum(w, |w|));
    var mass := PROB_SCALE - Sum(q, |w|);
    LeftoverFits(w);
    NormalizedIs(w, q, mass);
    CorrectedObeys(w, q, Sum(w, |w|), mass);
  }

  lemma SoftmaxObeys(t: Tables, x: seq<int>, mask: seq<bool>)
    requires |x| == |mask|
    ensures LutSoftmax(t, x, mask).Ok? && IsSoftmax(t, x, mask, LutSoftmax(t, x, mask).value)
  {
    var maximum := MaxValid(x, mask, |x|);
    if maximum.Some? {
      var m := maximum.value;
      assert IsMaximum(x, mask, m);
      var w := Weights(t, x, mask, m);
      WeightsPositive(t, x, mask, m);
      WeightsObey(t, x, mask, m);
      SharesObey(w);
      LutOfMaximum(t, x, mask, m);
    }
  }

  /** For every request in its domain, what the reference evaluates obeys the law of the operator. */
  lemma ReferenceObeys(t: Tables, d: Descriptor, planes: seq<Plane>)
    requires d.Valid() && IsPlanes(d, planes) && InDomain(d, planes)
    ensures Evaluate(t, d, planes).Ok? && Obeys(t, d, planes, Evaluate(t, d, planes).value)
  {
    EvaluatesTheDomain(t, d, planes);
    OutputsFit(t, d, planes);
    var y := Evaluate(t, d, planes).value;
    if d.op == 2 {
      LayerNormObeys(planes[0].v, planes[1].v, planes[2].v);
    } else if d.op == 3 {
      SoftmaxObeys(t, planes[0].v, planes[1].m);
    } else if d.op == 4 || d.op == 6 {
      forall i | 0 <= i < d.length
        ensures d.op == 4 ==> IsAffine(planes[0].v[i], planes[1].v[i], planes[2].v[i], d.shift, y[i])
        ensures d.op == 6 ==> IsAffineGelu(t, planes[0].v[i], planes[1].v[i], planes[2].v[i], d.shift, y[i])
      {
        AffineObeys(planes[0].v[i], planes[1].v[i], planes[2].v[i], d.shift);
        AffineGeluObeys(t, planes[0].v[i], planes[1].v[i], planes[2].v[i], d.shift);
      }
    } else if d.op == 5 {
      forall i | 0 <= i < d.length
        ensures IsCode(planes[0].v[i], d.multiplier, d.shift, y[i])
      {
        CodeObeys(planes[0].v[i], d.multiplier, d.shift);
      }
    }
  }

  // ----- they leave no freedom ----------------------------------------------------------

  lemma AffineDetermined(x: int, factor: int, bias: int, shift: nat, y: int, z: int)
    requires IsAffine(x, factor, bias, shift, y) && IsAffine(x, factor, bias, shift, z)
    ensures y == z
  {
    var p :| IsScaled(x, factor, shift, p) && IsSat16(p + bias, y);
    var q :| IsScaled(x, factor, shift, q) && IsSat16(q + bias, z);
    NearestEvenUnique(x * factor, Pow2(shift), p, q);
  }

  lemma CodeDetermined(x: int, factor: int, shift: nat, y: int, z: int)
    requires IsCode(x, factor, shift, y) && IsCode(x, factor, shift, z)
    ensures y == z
  {
    var p :| IsScaled(x, factor, shift, p) && IsSaturated(p, -128, 127, y);
    var q :| IsScaled(x, factor, shift, q) && IsSaturated(q, -128, 127, z);
    NearestEvenUnique(x * factor, Pow2(shift), p, q);
  }

  lemma AffineGeluDetermined(t: Tables, x: int, factor: int, bias: int, shift: nat, y: int, z: int)
    requires IsAffineGelu(t, x, factor, bias, shift, y) && IsAffineGelu(t, x, factor, bias, shift, z)
    ensures y == z
  {
    var a :| IsAffine(x, factor, bias, shift, a) && IsGelu(t, a, y);
    var b :| IsAffine(x, factor, bias, shift, b) && IsGelu(t, b, z);
    AffineDetermined(x, factor, bias, shift, a, b);
  }

  lemma DeviationDetermined(x: seq<int>, d: int, e: int)
    requires IsDeviation(x, d) && IsDeviation(x, e)
    ensures d == e
  {
    var numerator := (|x| * Sum(Squares(x), |x|) - Sum(x, |x|) * Sum(x, |x|)) * 0x100_0000;
    var p :| IsEpsilon(|x|, p) && IsFloorSqrt(numerator + p, d);
    var q :| IsEpsilon(|x|, q) && IsFloorSqrt(numerator + q, e);
    NearestEvenUnique(|x| * |x| * 0x100_0000_0000, 100000, p, q);
    FloorSqrtUnique(numerator + p, d, e);
  }

  lemma LayerNormValueDetermined(x: seq<int>, i: nat, gain: int, bias: int, d: int, y: int, z: int)
    requires i < |x| && d > 0
    requires IsLayerNormValue(x, i, gain, bias, d, y) && IsLayerNormValue(x, i, gain, bias, d, z)
    ensures y == z
  {
    var p :| IsNormalized(x, i, gain, d, p) && IsSat16(p + bias, y);
    var q :| IsNormalized(x, i, gain, d, q) && IsSat16(q + bias, z);
    NearestEvenUnique((|x| * x[i] - Sum(x, |x|)) * gain * 256, d, p, q);
  }

  lemma LayerNormDetermined(x: seq<int>, gain: seq<int>, bias: seq<int>, y: seq<int>, z: seq<int>)
    requires IsLayerNorm(x, gain, bias, y) && IsLayerNorm(x, gain, bias, z)
    ensures y == z
  {
    var d :| d > 0 && IsDeviation(x, d)
             && forall i :: 0 <= i < |x| ==> IsLayerNormValue(x, i, gain[i], bias[i], d, y[i]);
    var e :| e > 0 && IsDeviation(x, e)
             && forall i :: 0 <= i < |x| ==> IsLayerNormValue(x, i, gain[i], bias[i], e, z[i]);
    DeviationDetermined(x, d, e);
    forall i | 0 <= i < |x|
      ensures y[i] == z[i]
    {
      LayerNormValueDetermined(x, i, gain[i], bias[i], d, y[i], z[i]);
    }
  }

  lemma WeightDetermined(t: Tables, difference: nat, w: int, u: int)
    requires IsExpWeight(t, difference, w) && IsExpWeight(t, difference, u)
    ensures w == u
  {
    if difference < 4096 {
      var i := difference / 16;
      NearestEvenUnique(16 * t.exp[i] + (t.exp[i + 1] - t.exp[i]) * (difference - 16 * i), 16, w, u);
    }
  }

  lemma WeightsDetermined(t: Tables, x: seq<int>, mask: seq<bool>, m: int, n: int, w: seq<int>, u: seq<int>)
    requires AreWeights(t, x, mask, m, w) && AreWeights(t, x, mask, n, u)
    ensures w == u
  {
    MaximumUnique(x, mask, m);
    MaximumUnique(x, mask, n);
    forall i | 0 <= i < |x|
      ensures w[i] == u[i]
    {
      EntryDetermined(t, x, mask, m, w, u, i);
    }
  }

  lemma EntryDetermined(t: Tables, x: seq<int>, mask: seq<bool>, m: int, w: seq<int>, u: seq<int>, i: nat)
    requires AreWeights(t, x, mask, m, w) && AreWeights(t, x, mask, m, u) && i < |x|
    ensures w[i] == u[i]
  {
    if mask[i] {
      WeightDetermined(t, m - x[i], w[i], u[i]);
    }
  }

  /** The floor below a share is determined, so two shares differ by their bumps. */
  lemma ShareFloor(weight: int, total: int, p: int, a: int, q: int, b: int)
    requires total > 0 && IsShare(weight, total, p, a) && IsShare(weight, total, q, b)
    ensures p - a == q - b
  {
    MulGap(p - a, q - b, total);
    MulGap(q - b, p - a, total);
  }

  lemma {:induction false} SumOrder(p: seq<int>, q: seq<int>, n: nat, i: nat)
    requires n <= |p| == |q| && forall j :: 0 <= j < n ==> p[j] <= q[j]
    ensures Sum(p, n) <= Sum(q, n)
    ensures i < n && p[i] < q[i] ==> Sum(p, n) < Sum(q, n)
  {
    if n > 0 {
      SumOrder(p, q, n - 1, i);
    }
  }

  /** Two corrections reach equally far: the one that bumps an entry the other leaves bumps all the other's. */
  lemma BumpsNested(w: seq<int>, a: seq<int>, b: seq<int>, p: seq<int>, q: seq<int>, i: nat)
    requires AreShares(w, a, p) && AreShares(w, b, q) && i < |w| && a[i] == 1 && b[i] == 0
    ensures forall j :: 0 <= j < |w| ==> b[j] <= a[j]
  {
    assert w[i] != 0;
    forall j | 0 <= j < |w|
      ensures b[j] <= a[j]
    {
      assert 0 <= a[j] && 0 <= b[j] <= 1 by {
        assert IsShare(w[j], Sum(w, |w|), p[j], a[j]) && IsShare(w[j], Sum(w, |w|), q[j], b[j]);
      }
    }
  }

  lemma SharesDetermined(w: seq<int>, a: seq<int>, b: seq<int>, p: seq<int>, q: seq<int>)
    requires Sum(w, |w|) > 0 && AreShares(w, a, p) && AreShares(w, b, q)
    ensures p == q
  {
    SharesBelow(w, a, b, p, q);
    SharesBelow(w, b, a, q, p);
    forall i | 0 <= i < |w|
      ensures p[i] == q[i]
    {
      ShareFloor(w[i], Sum(w, |w|), p[i], a[i], q[i], b[i]);
    }
  }

  lemma SharesBelow(w: seq<int>, a: seq<int>, b: seq<int>, p: seq<int>, q: seq<int>)
    requires Sum(w, |w|) > 0 && AreShares(w, a, p) && AreShares(w, b, q)
    ensures forall i :: 0 <= i < |w| ==> a[i] <= b[i]
  {
    forall i | 0 <= i < |w|
      ensures a[i] <= b[i]
    {
      assert IsShare(w[i], Sum(w, |w|), p[i], a[i]) && IsShare(w[i], Sum(w, |w|), q[i], b[i]);
      if a[i] == 1 && b[i] == 0 {
        BumpsNested(w, a, b, p, q, i);
        forall j | 0 <= j < |w|
          ensures q[j] - b[j] == p[j] - a[j]
        {
          ShareFloor(w[j], Sum(w, |w|), q[j], b[j], p[j], a[j]);
        }
        SumOrder(q, p, |w|, i);
      }
    }
  }

  lemma SoftmaxDetermined(t: Tables, x: seq<int>, mask: seq<bool>, p: seq<int>, q: seq<int>)
    requires IsSoftmax(t, x, mask, p) && IsSoftmax(t, x, mask, q)
    ensures p == q
  {
    if exists i :: 0 <= i < |x| && mask[i] {
      var m, w, a :| AreWeights(t, x, mask, m, w) && AreShares(w, a, p);
      var n, u, b :| AreWeights(t, x, mask, n, u) && AreShares(u, b, q);
      WeightsDetermined(t, x, mask, m, n, w, u);
      WeightsObey(t, x, mask, m);
      WeightsDetermined(t, x, mask, m, m, w, Weights(t, x, mask, m));
      WeightsPositive(t, x, mask, m);
      SharesDetermined(w, a, b, p, q);
    }
  }

  /** Any two outputs that obey the law of a request are the same words. */
  lemma LawDetermines(t: Tables, d: Descriptor, planes: seq<Plane>, y: seq<int>, z: seq<int>)
    requires d.Valid() && IsPlanes(d, planes) && InDomain(d, planes)
    requires Obeys(t, d, planes, y) && Obeys(t, d, planes, z)
    ensures y == z
  {
    if d.op == 2 {
      LayerNormDetermined(planes[0].v, planes[1].v, planes[2].v, y, z);
    } else if d.op == 3 {
      SoftmaxDetermined(t, planes[0].v, planes[1].m, y, z);
    } else {
      forall i | 0 <= i < d.length
        ensures y[i] == z[i]
      {
        if d.op == 4 {
          AffineDetermined(planes[0].v[i], planes[1].v[i], planes[2].v[i], d.shift, y[i], z[i]);
        } else if d.op == 5 {
          CodeDetermined(planes[0].v[i], d.multiplier, d.shift, y[i], z[i]);
        } else if d.op == 6 {
          AffineGeluDetermined(t, planes[0].v[i], planes[1].v[i], planes[2].v[i], d.shift, y[i], z[i]);
        }
      }
    }
  }

  // ----- consequences ------------------------------------------------------------------

  lemma RowElement(x: seq<int>, gain: seq<int>, bias: seq<int>, i: nat)
    requires LayerNormInt(x, gain, bias).Ok? && i < |x|
    ensures |x| == |gain| == |bias| == |LayerNormInt(x, gain, bias).value|
    ensures Radicand(x) >= 0 && Isqrt(Radicand(x)) > 0
    ensures LayerNormInt(x, gain, bias).value[i]
         == LayerNormValue(|x| * x[i] - Sum(x, |x|), gain[i], bias[i], Isqrt(Radicand(x)))
  {
  }

  lemma QuotientElement(centered: int, gain: int, bias: int, d: int, q: int)
    requires d > 0 && IsNearestEven(centered * gain * 256, d, q)
    ensures IsSat16(q + bias, LayerNormValue(centered, gain, bias, d))
  {
    RneNearest(centered * gain * 256, d);
    NearestEvenUnique(centered * gain * 256, d, q, Rne(centered * gain * 256, d));
  }

  /**
   LayerNorm element by element: for every floor root and every nearest-even quotient the element is
   that quotient plus the bias, saturated.
   */
  lemma LayerNormElement(x: seq<int>, gain: seq<int>, bias: seq<int>, i: nat, d: int, q: int)
    requires IsInt16Vector(x) && IsInt16Vector(gain) && IsInt16Vector(bias) && |x| == |gain| == |bias| && i < |x|
    requires Radicand(x) >= 0 && IsFloorSqrt(Radicand(x), d)
    requires IsNearestEven((|x| * x[i] - Sum(x, |x|)) * gain[i] * 256, d, q)
    ensures LayerNormInt(x, gain, bias).Ok? && IsSat16(q + bias[i], LayerNormInt(x, gain, bias).value[i])
  {
    LayerNormDefined(x, gain, bias);
    RowElement(x, gain, bias, i);
    FloorSqrtUnique(Radicand(x), d, Isqrt(Radicand(x)));
    QuotientElement(|x| * x[i] - Sum(x, |x|), gain[i], bias[i], d, q);
  }

  lemma NothingOver(centered: int, gain: int, d: int)
    requires centered == 0 && d > 0
    ensures IsNearestEven(centered * gain * 256, d, 0)
  {
  }

  lemma CentralElement(x: seq<int>, gain: seq<int>, bias: seq<int>, i: nat)
    requires IsInt16Vector(x) && IsInt16Vector(gain) && IsInt16Vector(bias) && |x| == |gain| == |bias| && i < |x|
    requires |x| * x[i] - Sum(x, |x|) == 0
    ensures LayerNormInt(x, gain, bias).Ok? && LayerNormInt(x, gain, bias).value[i] == bias[i]
  {
    DenominatorPositive(x);
    NothingOver(|x| * x[i] - Sum(x, |x|), gain[i], Isqrt(Radicand(x)));
    LayerNormElement(x, gain, bias, i, Isqrt(Radicand(x)), 0);
  }

  /** A row of equal elements, such as a row of one, has no spread: the bias comes out, whatever the gain. */
  lemma LayerNormOfConstant(x: seq<int>, gain: seq<int>, bias: seq<int>, c: int)
    requires IsInt16Vector(x) && IsInt16Vector(gain) && IsInt16Vector(bias) && |x| == |gain| == |bias|
    requires forall i :: 0 <= i < |x| ==> x[i] == c
    ensures LayerNormInt(x, gain, bias) == Ok(bias)
  {
    LayerNormDefined(x, gain, bias);
    SumBounds(x, |x|, c, c);
    forall i | 0 <= i < |x|
      ensures LayerNormInt(x, gain, bias).value[i] == bias[i]
    {
      CentralElement(x, gain, bias, i);
    }
    assert LayerNormInt(x, gain, bias).value == bias;
  }

  /** GELU minus its mirror image is the identity. */
  lemma GeluMirror(t: Tables, x: int)
    ensures GeluValue(t, x) - GeluValue(t, -x) == x
  {
  }
}
