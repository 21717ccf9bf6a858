/**
 What softmax_int guarantees: exact mass, zeros that stay zero, distance to the exact share, and
 independence from centering and saturating the scores beforehand.
 */
module SoftmaxProperties {
  import opened Outcomes
  import opened Rounding
  import opened Sums
  import opened SfpuReference

  // ----- table weights ------------------------------------------------------

  lemma WeightRange(t: Tables, difference: nat)
    ensures 0 <= ExpWeight(t, difference) <= 0x100_0000
    ensures difference == 0 ==> ExpWeight(t, difference) == 0x100_0000
  {
    if difference < 4096 {
      var index, fraction := difference / 16, difference % 16;
      InterpolationRange(t.exp[index], t.exp[index + 1], fraction);
    }
  }

  lemma InterpolationRange(a: int, b: int, fraction: int)
    requires 0 <= a <= 0x100_0000 && 0 <= b <= 0x100_0000 && 0 <= fraction < 16
    ensures 0 <= a * (16 - fraction) + b * fraction <= 16 * 0x100_0000
    ensures 0 <= Rne(a * (16 - fraction) + b * fraction, 16) <= 0x100_0000
    ensures fraction == 0 ==> Rne(a * (16 - fraction) + b * fraction, 16) == a
  {
    var n := a * (16 - fraction) + b * fraction;
    MulOrder(0x100_0000, a, 16 - fraction);
    MulOrder(0x100_0000, b, fraction);
    RneBounds(n, 16, 0, 0x100_0000);
    if fraction == 0 {
      RneBounds(n, 16, a, a);
    }
  }

  ghost predicate NonNegative(w: seq<int>) {
    forall i :: 0 <= i < |w| ==> w[i] >= 0
  }

  lemma {:induction false} SumGrows(w: seq<int>, n: nat, i: nat)
    requires NonNegative(w) && i < n <= |w|
    ensures Sum(w, n) >= w[i]
    ensures Sum(w, n) >= 0
  {
    if i < n - 1 {
      SumGrows(w, n - 1, i);
    } else {
      SumNonNegative(w, n - 1);
    }
  }

  lemma {:induction false} SumNonNegative(w: seq<int>, n: nat)
    requires NonNegative(w) && n <= |w|
    ensures Sum(w, n) >= 0
  {
    if n > 0 {
      SumNonNegative(w, n - 1);
    }
  }

  // ----- floors and the mass they leave -------------------------------------

  lemma FloorShare(weight: int, total: int)
    requires weight >= 0 && total > 0
    ensures var q := weight * PROB_SCALE / total;
            && 0 <= q && q * total <= weight * PROB_SCALE < q * total + total
            && (weight == 0 ==> q == 0)
  {
    DivMod(weight * PROB_SCALE, total);
    if weight * PROB_SCALE / total < 0 {
      MulOrder(-1, weight * PROB_SCALE / total, total);
    }
    if weight == 0 {
      assert 0 / total == 0;
    }
  }

  /** Scaled by the total, the floors of the first n shares miss the exact ones by less than one unit each. */
  lemma {:induction false} FloorsMass(w: seq<int>, total: int, n: nat)
    requires NonNegative(w) && total > 0 && n <= |w|
    ensures var floors := Sum(Floors(w, total), n) * total;
            var exact := Sum(w, n) * PROB_SCALE;
            && floors <= exact
            && exact <= floors + Nonzeros(w, n) * total
            && (Nonzeros(w, n) > 0 ==> exact < floors + Nonzeros(w, n) * total)
  {
    if n > 0 {
      FloorsMass(w, total, n - 1);
      FloorShare(w[n - 1], total);
      var q := Floors(w, total);
      MulSum(Sum(q, n - 1), q[n - 1], total);
      MulSum(Nonzeros(w, n - 1), 1, total);
    }
  }

  lemma MulSum(a: int, b: int, d: int)
    ensures (a + b) * d == a * d + b * d
  {
  }

  /** The mass the floors leave over fits the nonzero weights with at least one to spare. */
  lemma LeftoverFits(w: seq<int>)
    requires NonNegative(w) && Sum(w, |w|) > 0
    ensures var mass := PROB_SCALE - Sum(Floors(w, Sum(w, |w|)), |w|);
            0 <= mass < Nonzeros(w, |w|)
  {
    var total := Sum(w, |w|);
    var q := Sum(Floors(w, total), |w|);
    FloorsMass(w, total, |w|);
    NonzeroExists(w, |w|);
    var mass := PROB_SCALE - q;
    assert mass * total == PROB_SCALE * total - q * total;
    if mass < 0 {
      MulOrder(-1, mass, total);
    }
    MulOrder(mass, Nonzeros(w, |w|), total);
  }

  lemma {:induction false} NonzeroExists(w: seq<int>, n: nat)
    requires NonNegative(w) && n <= |w| && Sum(w, n) > 0
    ensures Nonzeros(w, n) > 0
  {
    if w[n - 1] == 0 {
      NonzeroExists(w, n - 1);
    }
  }

  lemma {:induction false} CorrectedSum(w: seq<int>, q: seq<int>, mass: int, n: nat)
    requires |w| == |q| && n <= |w| && mass >= 0
    ensures Sum(Corrected(w, q, mass), n) == Sum(q, n) + Min(Nonzeros(w, n), mass)
  {
    if n > 0 {
      CorrectedSum(w, q, mass, n - 1);
    }
  }

  // ----- the main results ---------------------------------------------------

  /** What a normalized vector looks like next to the weights it came from. */
  ghost predicate IsSplitOfMass(w: seq<int>, p: seq<int>) {
    && Sum(w, |w|) > 0
    && |p| == |w|
    && Sum(p, |p|) == PROB_SCALE
    && (forall i :: 0 <= i < |w| && w[i] == 0 ==> p[i] == 0)
    && (forall i :: 0 <= i < |w| ==> Floors(w, Sum(w, |w|))[i] <= p[i] <= Floors(w, Sum(w, |w|))[i] + 1)
  }

  lemma NormalizedSplits(w: seq<int>)
    requires NonNegative(w) && Sum(w, |w|) > 0
    ensures Normalized(w).Ok? && IsSplitOfMass(w, Normalized(w).value)
  {
    var q := Floors(w, Sum(w, |w|));
    LeftoverFits(w);
    NormalizedIs(w, q, PROB_SCALE - Sum(q, |w|));
    CorrectedSplits(w, q, PROB_SCALE - Sum(q, |w|));
  }

  lemma NormalizedIs(w: seq<int>, q: seq<int>, mass: int)
    requires Sum(w, |w|) > 0 && q == Floors(w, Sum(w, |w|))
    requires mass == PROB_SCALE - Sum(q, |w|) && 0 <= mass <= Nonzeros(w, |w|)
    ensures Normalized(w) == Ok(Corrected(w, q, mass))
  {
  }

  lemma CorrectedSplits(w: seq<int>, q: seq<int>, mass: int)
    requires NonNegative(w) && Sum(w, |w|) > 0 && q == Floors(w, Sum(w, |w|))
    requires mass == PROB_SCALE - Sum(q, |w|) && 0 <= mass < Nonzeros(w, |w|)
    ensures IsSplitOfMass(w, Corrected(w, q, mass))
  {
    CorrectedSum(w, q, mass, |w|);
    ZeroFloors(w, Sum(w, |w|));
  }

  lemma ZeroFloors(w: seq<int>, total: int)
    requires NonNegative(w) && total > 0
    ensures forall i :: 0 <= i < |w| && w[i] == 0 ==> Floors(w, total)[i] == 0
    ensures NonNegative(Floors(w, total))
  {
    forall i | 0 <= i < |w|
      ensures Floors(w, total)[i] >= 0 && (w[i] == 0 ==> Floors(w, total)[i] == 0)
    {
      FloorShare(w[i], total);
    }
  }

  /** The weights of a row with at least one valid entry. */
  ghost predicate AreRowWeights(t: Tables, x: seq<int>, mask: seq<bool>, w: seq<int>)
    requires |x| == |mask|
  {
    exists m :: IsMaximum(x, mask, m) && w == Weights(t, x, mask, m)
  }

  ghost predicate IsMaximum(x: seq<int>, mask: seq<bool>, m: int)
    requires |x| == |mask|
  {
    && (exists i :: 0 <= i < |x| && mask[i] && x[i] == m)
    && (forall i :: 0 <= i < |x| && mask[i] ==> x[i] <= m)
  }

  lemma WeightsPositive(t: Tables, x: seq<int>, mask: seq<bool>, m: int)
    requires |x| == |mask| && IsMaximum(x, mask, m)
    ensures var w := Weights(t, x, mask, m);
            && (forall i :: 0 <= i < |w| ==> 0 <= w[i] <= 0x100_0000)
            && (forall i :: 0 <= i < |w| && !mask[i] ==> w[i] == 0)
            && Sum(w, |w|) >= 0x100_0000
  {
    var w := Weights(t, x, mask, m);
    forall i | 0 <= i < |w|
      ensures 0 <= w[i] <= 0x100_0000
    {
      if mask[i] {
        WeightRange(t, m - x[i]);
      }
    }
    var top :| 0 <= top < |x| && mask[top] && x[top] == m;
    WeightRange(t, 0);
    SumGrows(w, |w|, top);
  }

  /**
   Conservation of mass, for scores of any size: with one valid entry the outputs sum to exactly
   32768, masked and underflowed entries stay 0, and every output is its exact share rounded down
   or that plus one.  The correction loop therefore always ends with nothing left over.
   */
  lemma SoftmaxMass(t: Tables, x: seq<int>, mask: seq<bool>)
    requires |x| == |mask| && exists i :: 0 <= i < |mask| && mask[i]
    ensures LutSoftmax(t, x, mask).Ok?
    ensures exists w :: AreRowWeights(t, x, mask, w) && IsSplitOfMass(w, LutSoftmax(t, x, mask).value)
    ensures forall i :: 0 <= i < |x| && !mask[i] ==> LutSoftmax(t, x, mask).value[i] == 0
    ensures Sum(LutSoftmax(t, x, mask).value, |x|) == PROB_SCALE
    ensures forall i :: 0 <= i < |x| ==> 0 <= LutSoftmax(t, x, mask).value[i] <= PROB_SCALE
  {
    var m := MaxValid(x, mask, |x|).value;
    assert IsMaximum(x, mask, m);
    RowSplits(t, x, mask, m);
    LutOfMaximum(t, x, mask, m);
  }

  lemma LutOfMaximum(t: Tables, x: seq<int>, mask: seq<bool>, m: int)
    requires |x| == |mask| && IsMaximum(x, mask, m)
    ensures LutSoftmax(t, x, mask) == Normalized(Weights(t, x, mask, m))
  {
    MaximumUnique(x, mask, m);
  }

  lemma RowSplits(t: Tables, x: seq<int>, mask: seq<bool>, m: int)
    requires |x| == |mask| && IsMaximum(x, mask, m)
    ensures var w := Weights(t, x, mask, m);
            && AreRowWeights(t, x, mask, w) && Normalized(w).Ok? && IsSplitOfMass(w, Normalized(w).value)
            && forall i :: 0 <= i < |x| ==> 0 <= Normalized(w).value[i] <= (if mask[i] then PROB_SCALE else 0)
  {
    var w := Weights(t, x, mask, m);
    WeightsPositive(t, x, mask, m);
    NormalizedSplits(w);
    EntriesBounded(w, Normalized(w).value);
  }

  lemma EntriesBounded(w: seq<int>, p: seq<int>)
    requires NonNegative(w) && IsSplitOfMass(w, p)
    ensures forall i :: 0 <= i < |p| ==> 0 <= p[i] <= PROB_SCALE
  {
    EntriesNonNegative(w, p);
    forall i | 0 <= i < |p|
      ensures 0 <= p[i] <= PROB_SCALE
    {
      SumGrows(p, |p|, i);
    }
  }

  lemma EntriesNonNegative(w: seq<int>, p: seq<int>)
    requires NonNegative(w) && IsSplitOfMass(w, p)
    ensures NonNegative(p)
  {
    ZeroFloors(w, Sum(w, |w|));
  }

  /** An output is less than one unit away from its exact share. */
  ghost predicate IsStrictlyClose(w: seq<int>, p: seq<int>, i: nat)
    requires |w| == |p| && i < |w|
  {
    -Sum(w, |w|) < p[i] * Sum(w, |w|) - w[i] * PROB_SCALE < Sum(w, |w|)
  }

  /**
   The strict bound the source comment claims holds for an entry exactly when that entry's share does
   not divide evenly or is not among the corrected ones; otherwise the entry is exactly one unit high.
   */
  lemma StrictlyCloseWhen(w: seq<int>, i: nat)
    requires NonNegative(w) && Sum(w, |w|) > 0 && i < |w|
    ensures Normalized(w).Ok? && |Normalized(w).value| == |w|
    ensures var total := Sum(w, |w|);
            var mass := PROB_SCALE - Sum(Floors(w, total), |w|);
            var corrected := w[i] != 0 && Nonzeros(w, i) < mass;
            && (IsStrictlyClose(w, Normalized(w).value, i) <==> !(corrected && w[i] * PROB_SCALE % total == 0))
            && (!IsStrictlyClose(w, Normalized(w).value, i) ==>
                 Normalized(w).value[i] * total - w[i] * PROB_SCALE == total)
  {
    var total := Sum(w, |w|);
    LeftoverFits(w);
    FloorShare(w[i], total);
    DivMod(w[i] * PROB_SCALE, total);
    MulSum(w[i] * PROB_SCALE / total, 1, total);
  }

  /** A real row that breaks the strict bound: its first share is exactly 16384 and comes out 16385. */
  lemma StrictBoundFails(t: Tables)
    requires t.exp[1] == 15760736 && t.exp[56] == 506628 && t.exp[148] == 1612
    ensures LutSoftmax(t, [0, -8, -896, -2368], [true, true, true, true]) == Ok([16385, 15888, 494, 1])
    ensures var w := Weights(t, [0, -8, -896, -2368], [true, true, true, true], 0);
            w[0] * PROB_SCALE == 16384 * Sum(w, 4)
  {
    var x, mask := [0, -8, -896, -2368], [true, true, true, true];
    assert ExpWeight(t, 0) == 16777216 by {
      WeightRange(t, 0);
    }
    assert ExpWeight(t, 8) == 16268976 && ExpWeight(t, 896) == 506628 && ExpWeight(t, 2368) == 1612;
    assert MaxValid(x, mask, 4) == Some(0);
    var w := Weights(t, x, mask, 0);
    assert w == [16777216, 16268976, 506628, 1612];
    FourWeights(w);
  }

  lemma FourWeights(w: seq<int>)
    requires w == [16777216, 16268976, 506628, 1612]
    ensures Sum(w, 4) == 33554432 && Normalized(w) == Ok([16385, 15888, 494, 1])
  {
    SumOfFour(w);
    var q := Floors(w, 33554432);
    assert q == [16384, 15887, 494, 1];
    SumOfFour(q);
    assert Nonzeros(w, 0) == 0 && Nonzeros(w, 1) == 1 && Nonzeros(w, 2) == 2 && Nonzeros(w, 3) == 3;
    assert Nonzeros(w, 4) == 4;
    assert Corrected(w, q, 2) == [16385, 15888, 494, 1];
  }

  lemma SumOfFour(x: seq<int>)
    requires |x| == 4
    ensures Sum(x, 4) == x[0] + x[1] + x[2] + x[3]
  {
    assert Sum(x, 1) == x[0];
    assert Sum(x, 2) == x[0] + x[1];
    assert Sum(x, 3) == x[0] + x[1] + x[2];
  }

  // ----- centering ----------------------------------------------------------

  function AllValid(n: nat): (mask: seq<bool>)
    ensures |mask| == n && forall i :: 0 <= i < n ==> mask[i]
  {
    seq(n, i => true)
  }

  function MaxOf(x: seq<int>): (m: int)
    requires |x| > 0
    ensures IsMaximum(x, AllValid(|x|), m)
  {
    MaxValid(x, AllValid(|x|), |x|).value
  }

  /** The clipped scores: the exact maximum is subtracted before saturation to int16. */
  function CenteredScores(raw: seq<int>): (c: seq<int>)
    requires |raw| > 0
    ensures |c| == |raw|
  {
    seq(|raw|, i requires 0 <= i < |raw| => Clip(raw[i] - MaxOf(raw), -32768, 0))
  }

  /**
   Centering and saturating attention scores changes nothing: softmax_int of the clipped scores is
   the same table softmax evaluated on the unbounded rounded scores.
   */
  lemma CenteringChangesNothing(t: Tables, raw: seq<int>)
    requires 1 <= |raw| <= MAX_SOFTMAX
    ensures Softmax(t, CenteredScores(raw), AllValid(|raw|)) == LutSoftmax(t, raw, AllValid(|raw|))
    ensures Softmax(t, CenteredScores(raw), AllValid(|raw|)).Ok?
  {
    CenteredMaximum(raw);
    CenteredWeights(t, raw);
    assert AllValid(|raw|)[0];
    SoftmaxDefined(t, raw, AllValid(|raw|));
  }

  lemma CenteredWeights(t: Tables, raw: seq<int>)
    requires |raw| > 0 && InRange(CenteredScores(raw), -32768, 0)
    ensures Weights(t, CenteredScores(raw), AllValid(|raw|), 0) == Weights(t, raw, AllValid(|raw|), MaxOf(raw))
  {
    forall i | 0 <= i < |raw|
      ensures Weight(t, 0, CenteredScores(raw)[i], true) == Weight(t, MaxOf(raw), raw[i], true)
    {
      CenteredWeight(t, MaxOf(raw), raw[i]);
    }
  }

  lemma SoftmaxDefined(t: Tables, x: seq<int>, mask: seq<bool>)
    requires |x| == |mask| && exists i :: 0 <= i < |mask| && mask[i]
    ensures LutSoftmax(t, x, mask).Ok?
  {
    SoftmaxMass(t, x, mask);
  }

  /** A saturated score is already past the cutoff, so its weight was zero. */
  lemma CenteredWeight(t: Tables, m: int, raw: int)
    requires raw <= m
    ensures Weight(t, 0, Clip(raw - m, -32768, 0), true) == Weight(t, m, raw, true)
  {
  }

  lemma CenteredMaximum(raw: seq<int>)
    requires |raw| > 0
    ensures var c := CenteredScores(raw);
            MaxValid(c, AllValid(|raw|), |raw|) == Some(0) && InRange(c, -32768, 0)
  {
    var c, mask := CenteredScores(raw), AllValid(|raw|);
    assert IsMaximum(raw, mask, MaxOf(raw));
    var top :| 0 <= top < |raw| && mask[top] && raw[top] == MaxOf(raw);
    forall i | 0 <= i < |raw| ensures -32768 <= c[i] <= 0 {
      CenteredEntry(raw, i);
    }
    CenteredEntry(raw, top);
    assert IsMaximum(c, mask, 0);
    MaximumUnique(c, mask, 0);
  }

  lemma CenteredEntry(raw: seq<int>, i: nat)
    requires i < |raw|
    ensures CenteredScores(raw)[i] == Clip(raw[i] - MaxOf(raw), -32768, 0)
    ensures -32768 <= CenteredScores(raw)[i] <= 0
    ensures raw[i] == MaxOf(raw) ==> CenteredScores(raw)[i] == 0
  {
    assert AllValid(|raw|)[i];
  }

  lemma MaximumUnique(x: seq<int>, mask: seq<bool>, m: int)
    requires |x| == |mask| && IsMaximum(x, mask, m)
    ensures MaxValid(x, mask, |x|) == Some(m)
  {
  }

  // ----- the loop ------------------------------------------------------------

  /** The correction loop hands out the leftover mass entry by entry, in index order. */
  method CorrectMass(weights: seq<int>, floors: seq<int>, mass: int) returns (quantized: seq<int>, remainder: int)
    requires |weights| == |floors| && mass >= 0
    ensures quantized == Corrected(weights, floors, mass)
    ensures remainder == mass - Min(Nonzeros(weights, |weights|), mass)
  {
    quantized, remainder := floors, mass;
    for index := 0 to |weights|
      invariant |quantized| == |weights|
      invariant remainder == mass - Min(Nonzeros(weights, index), mass)
      invariant forall j :: 0 <= j < index ==> quantized[j] == floors[j] + Correction(weights, mass, j)
      invariant forall j :: index <= j < |weights| ==> quantized[j] == floors[j]
    {
      if weights[index] != 0 && remainder != 0 {
        quantized := quantized[index := quantized[index] + 1];
        remainder := remainder - 1;
      }
    }
  }

  /** Floors, leftover mass, correction, and the final assertion, which cannot fire. */
  method Normalize(weights: seq<int>) returns (r: Result<seq<int>>)
    requires NonNegative(weights) && Sum(weights, |weights|) > 0
    ensures r == Normalized(weights)
    ensures r.Ok? && Sum(r.value, |weights|) == PROB_SCALE
  {
    var floors := Floors(weights, Sum(weights, |weights|));
    LeftoverFits(weights);
    var quantized, remainder := CorrectMass(weights, floors, PROB_SCALE - Sum(floors, |floors|));
    CorrectedSum(weights, floors, PROB_SCALE - Sum(floors, |floors|), |weights|);
    if remainder != 0 {
      return Err(AssertionError);
    }
    return Ok(quantized);
  }

  /** The reference softmax: it never raises on a legal row, and its mass is exact. */
  method SoftmaxInt(t: Tables, values: seq<int>, valid: seq<bool>) returns (r: Result<seq<int>>)
    ensures r == Softmax(t, values, valid)
    ensures r.Ok? <==> IsVector(values, MAX_SOFTMAX, -32768, 32767) && |valid| == |values|
    ensures r.Ok? && (exists i :: 0 <= i < |valid| && valid[i]) ==> Sum(r.value, |values|) == PROB_SCALE
  {
    if !IsVector(values, MAX_SOFTMAX, -32768, 32767) || |valid| != |values| {
      return Err(ValueError);
    }
    var best := MaxValid(values, valid, |values|);
    if best.None? {
      return Ok(seq(|values|, i => 0));
    }
    assert IsMaximum(values, valid, best.value);
    var weights := Weights(t, values, valid, best.value);
    WeightsPositive(t, values, valid, best.value);
    r := Normalize(weights);
  }
}
