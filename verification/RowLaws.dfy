/**
 What the row operations of the three models deliver, in terms of peaks, nearest-even quotients, dot
 products, saturation and the opaque scale arithmetic. Each operation succeeds with a result exactly when
 the result obeys its law.
 */
module RowLaws {
  import opened Outcomes
  import opened Rounding
  import opened SquareRoot
  import opened Sums
  import opened SfpuReference
  import opened SoftmaxProperties
  import opened LayerNormProperties
  import opened Int8Bridge
  import opened Batches
  import opened ForwardPass
  import opened LayerStages
  import opened RowOperations
  import opened AdaptiveSmoothing
  import opened CausalCache
  import opened PassLaws
  import opened SfpuLaws

  // ----- sums and shifts -----------------------------------------------------------------

  function Terms(a: Row, b: Row): (t: seq<int>)
    requires |a| == |b|
    ensures |t| == |a| && forall i :: 0 <= i < |a| ==> t[i] == a[i] * b[i]
  {
    seq(|a|, i requires 0 <= i < |a| => a[i] * b[i])
  }

  predicate IsDot(a: Row, b: Row, s: int) {
    |a| == |b| && s == Sum(Terms(a, b), |a|)
  }

  /** Every entry of the result is the dot product of the codes with one column. */
  predicate AreDots(codes: Row, columns: seq<Row>, sums: Row) {
    |sums| == |columns| && forall j :: 0 <= j < |columns| ==> IsDot(codes, columns[j], sums[j])
  }

  lemma {:induction false} InnerIsSum(a: Row, b: Row, n: nat)
    requires n <= |a| == |b|
    ensures Inner(a, b, n) == Sum(Terms(a, b), n)
  {
    if n > 0 {
      InnerIsSum(a, b, n - 1);
    }
  }

  lemma ProductsAre(codes: Row, columns: seq<Row>, sums: Row)
    ensures Products(codes, columns) == Some(sums) <==> AreDots(codes, columns, sums)
  {
    if forall j :: 0 <= j < |columns| ==> |columns[j]| == |codes| {
      forall j | 0 <= j < |columns|
        ensures Inner(codes, columns[j], |codes|) == Sum(Terms(codes, columns[j]), |codes|)
      {
        InnerIsSum(codes, columns[j], |codes|);
      }
      if AreDots(codes, columns, sums) {
        assert Products(codes, columns).value == sums;
      }
    }
  }

  /** One common shift; the products fit the int64 the shift works on. */
  ghost predicate AreScaled(raw: Row, factors: Row, shift: nat, out: Row) {
    && shift <= 31 && |raw| == |factors| == |out|
    && forall i :: 0 <= i < |raw| ==>
         raw[i] * factors[i] != -0x8000_0000_0000_0000 && IsScaled(raw[i], factors[i], shift, out[i])
  }

  lemma ScaledIs(x: int, factor: int, shift: nat, q: int)
    ensures RneShiftValue(x * factor, shift) == q <==> IsScaled(x, factor, shift, q)
  {
    RneShiftIsRne(x * factor, shift);
    RneNearest(x * factor, Pow2(shift));
    if IsScaled(x, factor, shift, q) {
      NearestEvenUnique(x * factor, Pow2(shift), q, Rne(x * factor, Pow2(shift)));
    }
  }

  lemma ShiftedIs(raw: Row, factors: Row, shift: nat, out: Row)
    ensures Shifted(raw, factors, shift) == Some(out) <==> AreScaled(raw, factors, shift, out)
  {
    if |raw| == |factors| {
      var products := Multiplied(raw, factors).value;
      assert INT64_MIN !in products <==> forall i :: 0 <= i < |raw| ==> products[i] != INT64_MIN;
      if |out| == |raw| {
        forall i | 0 <= i < |raw|
          ensures RneShiftValue(products[i], shift) == out[i] <==> IsScaled(raw[i], factors[i], shift, out[i])
        {
          ScaledIs(raw[i], factors[i], shift, out[i]);
        }
        if AreScaled(raw, factors, shift, out) {
          assert RneShift(products, shift).value == out;
        }
      }
    }
  }

  // ----- affine --------------------------------------------------------------------------

  ghost predicate AreSums(a: Row, b: Row, out: Row) {
    |a| == |b| == |out| && forall i :: 0 <= i < |a| ==> IsSat16(a[i] + b[i], out[i])
  }

  lemma NarrowedSums(a: Row, b: Row, out: Row)
    ensures AreSums(a, b, out) <==> AddRows(a, b).Some? && Narrow(AddRows(a, b).value) == out
  {
    if AreSums(a, b, out) {
      assert Narrow(AddRows(a, b).value) == out;
    }
  }

  /** The metadata of the scales, then scaling, bias and saturation. */
  ghost predicate IsAffineRow<F(!new)>(m: Model<F>, raw: Row, scales: seq<F>, bias: Row, out: Row) {
    m.metadata(scales).Some? &&
    var (factors, shift) := m.metadata(scales).value;
    exists rounded :: AreScaled(raw, factors, shift, rounded) && AreSums(rounded, bias, out)
  }

  lemma AffineIs<F(!new)>(m: Model<F>, raw: Row, scales: seq<F>, bias: Row, out: Row)
    ensures Affine(m, raw, scales, bias) == Some(out) <==> IsAffineRow(m, raw, scales, bias, out)
  {
    if m.metadata(scales).Some? {
      var (factors, shift) := m.metadata(scales).value;
      var shifted := Shifted(raw, factors, shift);
      if shifted.Some? {
        ShiftedIs(raw, factors, shift, shifted.value);
        NarrowedSums(shifted.value, bias, out);
      }
      if IsAffineRow(m, raw, scales, bias, out) {
        var rounded :| AreScaled(raw, factors, shift, rounded) && AreSums(rounded, bias, out);
        ShiftedIs(raw, factors, shift, rounded);
        NarrowedSums(rounded, bias, out);
      }
    }
  }

  // ----- dynamic columns -------------------------------------------------------------------

  ghost predicate IsPeak(x: Row, peak: nat) {
    && (forall i :: 0 <= i < |x| ==> Abs(x[i]) <= peak)
    && (peak == 0 || exists i :: 0 <= i < |x| && Abs(x[i]) == peak)
  }

  /** 127 * 2^24 over the peak, rounded; zero for a column of zeros. */
  ghost predicate IsFactor(peak: nat, factor: int) {
    if peak == 0 then factor == 0 else IsNearestEven(127 * 0x100_0000, peak, factor)
  }

  ghost predicate IsColumn<F(!new)>(m: Model<F>, raw: Row, unit: Unit, c: Column<F>) {
    && |c.codes| == |raw|
    && exists peak, factor ::
         && IsPeak(raw, peak) && IsFactor(peak, factor) && c.unit == m.unit(factor, unit)
         && forall i :: 0 <= i < |raw| ==> IsCode(raw[i], factor, 24, c.codes[i])
  }

  lemma PeakIs(x: Row, peak: nat)
    ensures IsPeak(x, peak) <==> peak == MaxAbs(x)
  {
  }

  lemma FactorIs(peak: nat, factor: int)
    ensures IsFactor(peak, factor) <==> factor == Multiplier(peak)
  {
    if peak > 0 {
      RneNearest(127 * 0x100_0000, peak);
      if IsFactor(peak, factor) {
        NearestEvenUnique(127 * 0x100_0000, peak, factor, Multiplier(peak));
      }
    }
  }

  lemma CodeIs(raw: int, factor: int, code: int)
    ensures IsCode(raw, factor, 24, code) <==> code == ColumnCode(raw, factor)
  {
    var q := RneShiftValue(raw * factor, 24);
    ScaledIs(raw, factor, 24, q);
    assert IsSaturated(q, -128, 127, ColumnCode(raw, factor));
    if IsCode(raw, factor, 24, code) {
      CodeDetermined(raw, factor, 24, code, ColumnCode(raw, factor));
    }
  }

  lemma ColumnIs<F(!new)>(m: Model<F>, raw: Row, unit: Unit, c: Column<F>)
    ensures IsColumn(m, raw, unit, c) <==> c == QuantizeColumn(m, raw, unit)
  {
    var factor := Multiplier(MaxAbs(raw));
    PeakIs(raw, MaxAbs(raw));
    FactorIs(MaxAbs(raw), factor);
    if |c.codes| == |raw| {
      forall i | 0 <= i < |raw|
        ensures IsCode(raw[i], factor, 24, c.codes[i]) <==> c.codes[i] == ColumnCodes(raw)[i]
      {
        CodeIs(raw[i], factor, c.codes[i]);
      }
      if IsColumn(m, raw, unit, c) {
        var peak, other :| IsPeak(raw, peak) && IsFactor(peak, other) && c.unit == m.unit(other, unit)
                           && forall i :: 0 <= i < |raw| ==> IsCode(raw[i], other, 24, c.codes[i]);
        PeakIs(raw, peak);
        FactorIs(peak, other);
        assert c.codes == ColumnCodes(raw);
      }
    }
  }

  // ----- linear maps -------------------------------------------------------------------------

  /** Codes of the row, their dot products with every column, then the affine step. */
  ghost predicate IsLinear<F(!new)>(m: Model<F>, id: nat, row: Row, out: Row) {
    exists c, sums ::
      && IsColumn(m, row, Activation, c) && AreDots(c.codes, m.weights(id), sums)
      && IsAffineRow(m, sums, m.channelScales(id, c.unit, 0, 0), m.bias(id, 0), out)
  }

  lemma LinearIs<F(!new)>(m: Model<F>, id: nat, row: Row, out: Row)
    ensures Linear(m, id, row, 0) == Some(out) <==> IsLinear(m, id, row, out)
  {
    var q := QuantizeColumn(m, row, Activation);
    ColumnIs(m, row, Activation, q);
    var products := Products(q.codes, m.weights(id));
    if products.Some? {
      ProductsAre(q.codes, m.weights(id), products.value);
      AffineIs(m, products.value, m.channelScales(id, q.unit, 0, 0), m.bias(id, 0), out);
    }
    if IsLinear(m, id, row, out) {
      var c, sums :|
        && IsColumn(m, row, Activation, c) && AreDots(c.codes, m.weights(id), sums)
        && IsAffineRow(m, sums, m.channelScales(id, c.unit, 0, 0), m.bias(id, 0), out);
      ColumnIs(m, row, Activation, c);
      ProductsAre(c.codes, m.weights(id), sums);
    }
  }

  /** Without a residual the branch itself, else its saturated sum with the residual at the same exponent. */
  ghost predicate IsJoined<F(!new)>(m: Model<F>, branch: Row, residual: Option<Hidden>, exponent: int, out: Row) {
    if residual.None? then out == branch
    else exists previous ::
           && IsAffineRow(m, residual.value.x, m.alignScales(|residual.value.x|, residual.value.e - exponent),
                          Zeros(|residual.value.x|), previous)
           && AreSums(previous, branch, out)
  }

  /** The exponent is chosen from the exact sums before anything is narrowed. */
  ghost predicate IsProjectedFrom<F(!new)>(m: Model<F>, id: nat, input: Hidden, residual: Option<Hidden>, c: Column<F>,
                                     sums: Row, branch: Row, out: Hidden)
  {
    && IsColumn(m, input.x, Activation, c) && AreDots(c.codes, m.weights(id), sums)
    && m.rangeExponent(id, sums, c.unit, input.e, residual) == Some(out.e)
    && IsAffineRow(m, sums, m.channelScales(id, c.unit, input.e, out.e), m.bias(id, out.e), branch)
    && IsJoined(m, branch, residual, out.e, out.x)
  }

  ghost predicate IsProjected<F(!new)>(m: Model<F>, id: nat, input: Hidden, residual: Option<Hidden>, out: Hidden) {
    exists c, sums, branch :: IsProjectedFrom(m, id, input, residual, c, sums, branch, out)
  }

  /** Aligned to the exponent and added, or a failure of the alignment. */
  function JoinedRow<F>(m: Model<F>, branch: Row, prior: Hidden, exponent: int): Option<Row> {
    var previous :- Affine(m, prior.x, m.alignScales(|prior.x|, prior.e - exponent), Zeros(|prior.x|));
    var sum :- AddRows(previous, branch);
    Some(Narrow(sum))
  }

  lemma JoinedIs<F(!new)>(m: Model<F>, branch: Row, prior: Hidden, exponent: int, out: Row)
    ensures IsJoined(m, branch, Some(prior), exponent, out) <==> JoinedRow(m, branch, prior, exponent) == Some(out)
  {
    var scales, zeros := m.alignScales(|prior.x|, prior.e - exponent), Zeros(|prior.x|);
    var previous := Affine(m, prior.x, scales, zeros);
    if previous.Some? {
      AffineIs(m, prior.x, scales, zeros, previous.value);
      NarrowedSums(previous.value, branch, out);
    }
    if IsJoined(m, branch, Some(prior), exponent, out) {
      var p :| IsAffineRow(m, prior.x, scales, zeros, p) && AreSums(p, branch, out);
      AffineIs(m, prior.x, scales, zeros, p);
    }
  }

  /** The steps of a projection one after the other. */
  lemma ProjectedUnfolds<F(!new)>(m: Model<F>, id: nat, input: Hidden, residual: Option<Hidden>, out: Hidden)
    returns (sums: Row, branch: Row)
    requires ProjectScaled(m, id, input, residual) == Some(out)
    ensures var q := QuantizeColumn(m, input.x, Activation);
            && Products(q.codes, m.weights(id)) == Some(sums)
            && m.rangeExponent(id, sums, q.unit, input.e, residual) == Some(out.e)
            && Affine(m, sums, m.channelScales(id, q.unit, input.e, out.e), m.bias(id, out.e)) == Some(branch)
    ensures residual.None? ==> out.x == branch
    ensures residual.Some? ==> JoinedRow(m, branch, residual.value, out.e) == Some(out.x)
  {
    var c := QuantizeColumn(m, input.x, Activation);
    sums := Products(c.codes, m.weights(id)).value;
    branch := Affine(m, sums, m.channelScales(id, c.unit, input.e, out.e), m.bias(id, out.e)).value;
  }

  lemma ProjectedObeys<F(!new)>(m: Model<F>, id: nat, input: Hidden, residual: Option<Hidden>, out: Hidden)
    requires ProjectScaled(m, id, input, residual) == Some(out)
    ensures IsProjected(m, id, input, residual, out)
  {
    var sums, branch := ProjectedUnfolds(m, id, input, residual, out);
    var c := QuantizeColumn(m, input.x, Activation);
    ColumnIs(m, input.x, Activation, c);
    ProductsAre(c.codes, m.weights(id), sums);
    AffineIs(m, sums, m.channelScales(id, c.unit, input.e, out.e), m.bias(id, out.e), branch);
    if residual.Some? {
      JoinedIs(m, branch, residual.value, out.e, out.x);
    }
    assert IsProjectedFrom(m, id, input, residual, c, sums, branch, out);
  }

  /** What the computed steps amount to. */
  lemma ProjectedFrom<F(!new)>(m: Model<F>, id: nat, input: Hidden, residual: Option<Hidden>, sums: Row, branch: Row,
                               out: Hidden)
    requires var q := QuantizeColumn(m, input.x, Activation);
             && Products(q.codes, m.weights(id)) == Some(sums)
             && m.rangeExponent(id, sums, q.unit, input.e, residual) == Some(out.e)
             && Affine(m, sums, m.channelScales(id, q.unit, input.e, out.e), m.bias(id, out.e)) == Some(branch)
    requires residual.None? ==> out.x == branch
    requires residual.Some? ==> JoinedRow(m, branch, residual.value, out.e) == Some(out.x)
    ensures ProjectScaled(m, id, input, residual) == Some(out)
  {
  }

  lemma ProjectedSucceeds<F(!new)>(m: Model<F>, id: nat, input: Hidden, residual: Option<Hidden>, out: Hidden)
    requires IsProjected(m, id, input, residual, out)
    ensures ProjectScaled(m, id, input, residual) == Some(out)
  {
    var c, sums, branch :| IsProjectedFrom(m, id, input, residual, c, sums, branch, out);
    ColumnIs(m, input.x, Activation, c);
    ProductsAre(c.codes, m.weights(id), sums);
    AffineIs(m, sums, m.channelScales(id, c.unit, input.e, out.e), m.bias(id, out.e), branch);
    if residual.Some? {
      JoinedIs(m, branch, residual.value, out.e, out.x);
    }
    ProjectedFrom(m, id, input, residual, sums, branch, out);
  }

  // ----- norms -------------------------------------------------------------------------------

  /** The normalized values before bias and saturation. */
  ghost predicate IsCore(x: Row, gain: Row, core: Row) {
    && |x| == |gain| == |core|
    && exists d :: d > 0 && IsDeviation(x, d) && forall i :: 0 <= i < |x| ==> IsNormalized(x, i, gain[i], d, core[i])
  }

  /** Doubled factors: the narrowed values times the factor, then the bias. */
  predicate IsRescaled(first: Row, factor: int, bias: Row, out: Row) {
    |first| == |bias| == |out| && forall i :: 0 <= i < |first| ==> IsSat16(first[i] * factor + bias[i], out[i])
  }

  ghost predicate IsNarrowed(x: Row, out: Row) {
    |x| == |out| && forall i :: 0 <= i < |x| ==> IsSat16(x[i], out[i])
  }

  /** The frozen operator on int16 planes; with a factor, the operator without bias comes first. */
  ghost predicate IsQuantizedNorm(x: Row, meta: NormMeta, out: Row) {
    && IsInt16Vector(x) && IsInt16Vector(meta.gain)
    && if meta.factor == 1 then IsInt16Vector(meta.bias) && IsLayerNorm(x, meta.gain, meta.bias, out)
       else exists first :: IsLayerNorm(x, meta.gain, Zeros(|meta.bias|), first)
                            && IsRescaled(first, meta.factor, meta.bias, out)
  }

  /** The scaled models add the bias before the only saturation, or narrow, rescale and add. */
  ghost predicate IsScaledNorm(x: Row, meta: NormMeta, out: Row) {
    exists core :: IsCore(x, meta.gain, core) &&
      if meta.factor == 1 then AreSums(core, meta.bias, out)
      else exists first :: IsNarrowed(core, first) && IsRescaled(first, meta.factor, meta.bias, out)
  }

  ghost predicate IsNormRow<F(!new)>(m: Model<F>, id: nat, h: Hidden, out: Row) {
    && m.normMeta(id, h.x, h.e).Some?
    && var meta := m.normMeta(id, h.x, h.e).value;
       if m.kind.Quantized? then IsQuantizedNorm(h.x, meta, out) else IsScaledNorm(h.x, meta, out)
  }

  lemma DeviationIs(x: Row, d: int)
    ensures IsDeviation(x, d) <==> Radicand(x) >= 0 && d == Isqrt(Radicand(x))
  {
    RneNearest(|x| * |x| * 0x100_0000_0000, 100000);
    assert IsEpsilon(|x|, EpsilonTerm(|x|));
    if IsDeviation(x, d) {
      var e :| IsEpsilon(|x|, e)
               && IsFloorSqrt((|x| * Sum(Squares(x), |x|) - Sum(x, |x|) * Sum(x, |x|)) * 0x100_0000 + e, d);
      NearestEvenUnique(|x| * |x| * 0x100_0000_0000, 100000, e, EpsilonTerm(|x|));
      RootOfNatural(Radicand(x), d);
      FloorSqrtUnique(Radicand(x), d, Isqrt(Radicand(x)));
    }
  }

  lemma RootOfNatural(n: int, root: int)
    requires IsFloorSqrt(n, root)
    ensures n >= 0
  {
    SquareNonNegative(root);
  }

  lemma NormalizedElementIs(x: Row, i: nat, gain: int, d: int, q: int)
    requires i < |x| && d > 0
    ensures IsNormalized(x, i, gain, d, q) <==> q == Rne((|x| * x[i] - Sum(x, |x|)) * gain * 256, d)
  {
    var n := (|x| * x[i] - Sum(x, |x|)) * gain * 256;
    RneNearest(n, d);
    if IsNormalized(x, i, gain, d, q) {
      NearestEvenUnique(n, d, q, Rne(n, d));
    }
  }

  lemma CoreIs(x: Row, gain: Row, core: Row)
    ensures NormCore(x, gain) == Some(core) <==> IsCore(x, gain, core)
  {
    if |x| == |gain| == |core| && Radicand(x) >= 0 && Isqrt(Radicand(x)) > 0 {
      var d := Isqrt(Radicand(x));
      DeviationIs(x, d);
      var values := NormCore(x, gain).value;
      forall i | 0 <= i < |x|
        ensures IsNormalized(x, i, gain[i], d, core[i]) <==> core[i] == values[i]
      {
        NormalizedElementIs(x, i, gain[i], d, core[i]);
      }
      if IsCore(x, gain, core) {
        var e :| e > 0 && IsDeviation(x, e) && forall i :: 0 <= i < |x| ==> IsNormalized(x, i, gain[i], e, core[i]);
        DeviationIs(x, e);
        assert core == values;
      }
    } else if IsCore(x, gain, core) {
      var e :| e > 0 && IsDeviation(x, e);
      DeviationIs(x, e);
    }
  }

  lemma RescaledIs(first: Row, factor: int, bias: Row, out: Row)
    ensures IsRescaled(first, factor, bias, out)
       <==> AddRows(Scale(first, factor), bias).Some? && Narrow(AddRows(Scale(first, factor), bias).value) == out
  {
    NarrowedSums(Scale(first, factor), bias, out);
  }

  lemma NarrowedIs(x: Row, out: Row)
    ensures IsNarrowed(x, out) <==> Narrow(x) == out
  {
    if IsNarrowed(x, out) {
      assert Narrow(x) == out;
    }
  }

  lemma LayerNormIs(x: Row, gain: Row, bias: Row, out: Row)
    ensures LayerNormInt(x, gain, bias) == Ok(out)
       <==> IsInt16Vector(x) && IsInt16Vector(gain) && IsInt16Vector(bias) && IsLayerNorm(x, gain, bias, out)
  {
    LayerNormDefined(x, gain, bias);
    if LayerNormInt(x, gain, bias).Ok? {
      LayerNormObeys(x, gain, bias);
      if IsLayerNorm(x, gain, bias, out) {
        LayerNormDetermined(x, gain, bias, out, LayerNormInt(x, gain, bias).value);
      }
    }
  }

  lemma QuantizedNormIs<F(!new)>(m: Model<F>, id: nat, h: Hidden, out: Row)
    requires m.kind.Quantized? && m.normMeta(id, h.x, h.e).Some?
    ensures NormRow(m, id, h) == Some(out) <==> IsQuantizedNorm(h.x, m.normMeta(id, h.x, h.e).value, out)
  {
    var meta := m.normMeta(id, h.x, h.e).value;
    if meta.factor == 1 {
      LayerNormIs(h.x, meta.gain, meta.bias, out);
    } else {
      var zeros := Zeros(|meta.bias|);
      var core := LayerNormInt(h.x, meta.gain, zeros);
      if core.Ok? {
        LayerNormIs(h.x, meta.gain, zeros, core.value);
        RescaledIs(core.value, meta.factor, meta.bias, out);
      }
      if IsQuantizedNorm(h.x, meta, out) {
        var first :| IsLayerNorm(h.x, meta.gain, zeros, first) && IsRescaled(first, meta.factor, meta.bias, out);
        LayerNormIs(h.x, meta.gain, zeros, first);
      }
    }
  }

  lemma ScaledNormIs<F(!new)>(m: Model<F>, id: nat, h: Hidden, out: Row)
    requires !m.kind.Quantized? && m.normMeta(id, h.x, h.e).Some?
    ensures NormRow(m, id, h) == Some(out) <==> IsScaledNorm(h.x, m.normMeta(id, h.x, h.e).value, out)
  {
    var meta := m.normMeta(id, h.x, h.e).value;
    var core := NormCore(h.x, meta.gain);
    if core.Some? {
      CoreIs(h.x, meta.gain, core.value);
      NarrowedSums(core.value, meta.bias, out);
      NarrowedIs(core.value, Narrow(core.value));
      RescaledIs(Narrow(core.value), meta.factor, meta.bias, out);
    }
    if IsScaledNorm(h.x, meta, out) {
      var c :| IsCore(h.x, meta.gain, c) &&
        if meta.factor == 1 then AreSums(c, meta.bias, out)
        else exists first :: IsNarrowed(c, first) && IsRescaled(first, meta.factor, meta.bias, out);
      CoreIs(h.x, meta.gain, c);
      if meta.factor != 1 {
        var first :| IsNarrowed(c, first) && IsRescaled(first, meta.factor, meta.bias, out);
        NarrowedIs(c, first);
      }
    }
  }

  lemma NormRowIs<F(!new)>(m: Model<F>, id: nat, h: Hidden, out: Row)
    ensures NormRow(m, id, h) == Some(out) <==> IsNormRow(m, id, h, out)
  {
    if m.normMeta(id, h.x, h.e).Some? {
      if m.kind.Quantized? {
        QuantizedNormIs(m, id, h, out);
      } else {
        ScaledNormIs(m, id, h, out);
      }
    }
  }

  // ----- attention of one query ------------------------------------------------------------

  ghost predicate IsMaximumOf(x: Row, maximum: int) {
    (exists i :: 0 <= i < |x| && x[i] == maximum) && forall i :: 0 <= i < |x| ==> x[i] <= maximum
  }

  /** The exact maximum is subtracted before the saturation, which only negative tails reach. */
  ghost predicate AreCentered(raw: Row, scores: Row) {
    |raw| == |scores| &&
    exists maximum :: IsMaximumOf(raw, maximum) && -0x8000_0000 <= -maximum < 0x8000_0000
                      && forall i :: 0 <= i < |raw| ==> IsSaturated(raw[i] - maximum, -32768, 0, scores[i])
  }

  ghost predicate AreScores<F(!new)>(m: Model<F>, sums: Row, scales: seq<F>, scores: Row) {
    if m.kind.Quantized? then IsAffineRow(m, sums, scales, Zeros(|sums|), scores)
    else
      m.metadata(scales).Some? &&
      var (factors, shift) := m.metadata(scales).value;
      exists raw :: AreScaled(sums, factors, shift, raw) && AreCentered(raw, scores)
  }

  lemma MaximumIs(raw: Row, maximum: int)
    requires |raw| > 0
    ensures IsMaximumOf(raw, maximum) <==> maximum == MaxOf(raw)
  {
    var mask := AllValid(|raw|);
    assert IsMaximum(raw, mask, MaxOf(raw));
    if IsMaximumOf(raw, maximum) {
      assert IsMaximum(raw, mask, maximum);
      MaximumUnique(raw, mask, maximum);
    }
  }

  lemma CenteredIs(raw: Row, scores: Row)
    ensures AreCentered(raw, scores)
       <==> |raw| > 0 && -0x8000_0000 <= -MaxOf(raw) < 0x8000_0000 && scores == CenteredScores(raw)
  {
    if |raw| > 0 && |scores| == |raw| {
      MaximumIs(raw, MaxOf(raw));
      forall i | 0 <= i < |raw|
        ensures IsSaturated(raw[i] - MaxOf(raw), -32768, 0, scores[i]) <==> scores[i] == CenteredScores(raw)[i]
      {
        CenteredEntry(raw, i);
      }
      if AreCentered(raw, scores) {
        var maximum :| IsMaximumOf(raw, maximum) && -0x8000_0000 <= -maximum < 0x8000_0000
                       && forall i :: 0 <= i < |raw| ==> IsSaturated(raw[i] - maximum, -32768, 0, scores[i]);
        MaximumIs(raw, maximum);
        assert scores == CenteredScores(raw);
      }
    }
  }

  lemma ScoresAre<F(!new)>(m: Model<F>, sums: Row, scales: seq<F>, scores: Row)
    ensures Scores(m, sums, scales) == Some(scores) <==> AreScores(m, sums, scales, scores)
  {
    if m.kind.Quantized? {
      AffineIs(m, sums, scales, Zeros(|sums|), scores);
    } else if m.metadata(scales).Some? {
      var (factors, shift) := m.metadata(scales).value;
      var raw := Shifted(sums, factors, shift);
      if raw.Some? {
        ShiftedIs(sums, factors, shift, raw.value);
        CenteredIs(raw.value, scores);
      }
      if AreScores(m, sums, scales, scores) {
        var r :| AreScaled(sums, factors, shift, r) && AreCentered(r, scores);
        ShiftedIs(sums, factors, shift, r);
        CenteredIs(r, scores);
      }
    }
  }

  /** Every score is valid; the probabilities obey the law of softmax. */
  ghost predicate AreProbabilities(t: Tables, scores: Row, p: Row) {
    IsVector(scores, 1024, -32768, 32767) && IsSoftmax(t, scores, AllValid(|scores|), p)
  }

  lemma ProbabilitiesAre(t: Tables, scores: Row, p: Row)
    ensures Softmax(t, scores, AllValid(|scores|)) == Ok(p) <==> AreProbabilities(t, scores, p)
  {
    var mask := AllValid(|scores|);
    SoftmaxObeys(t, scores, mask);
    if IsSoftmax(t, scores, mask, p) {
      SoftmaxDetermined(t, scores, mask, p, LutSoftmax(t, scores, mask).value);
    }
  }

  /** Column c of the values, quantized on its own: the values of exactly the positions in the prefix. */
  ghost predicate AreFeatures<F(!new)>(m: Model<F>, values: seq<Row>, features: seq<Column<F>>) {
    && |features| == 64 && (forall r :: 0 <= r < |values| ==> |values[r]| == 64)
    && forall c :: 0 <= c < 64 ==> IsColumn(m, FeatureColumn(values, c), Activation, features[c])
  }

  function FeatureColumn(values: seq<Row>, c: nat): (column: Row)
    requires forall r :: 0 <= r < |values| ==> c < |values[r]|
    ensures |column| == |values| && forall r :: 0 <= r < |values| ==> column[r] == values[r][c]
  {
    seq(|values|, r requires 0 <= r < |values| => values[r][c])
  }

  lemma FeaturesAre<F(!new)>(m: Model<F>, values: seq<Row>, features: seq<Column<F>>)
    ensures AreFeatures(m, values, features)
       <==> Transposed(values, HEAD_WIDTH).Some?
            && features == DynamicColumns(m, Transposed(values, HEAD_WIDTH).value, Activation)
  {
    if forall r :: 0 <= r < |values| ==> |values[r]| == 64 {
      var columns := Transposed(values, HEAD_WIDTH).value;
      var quantized := DynamicColumns(m, columns, Activation);
      if |features| == 64 {
        forall c | 0 <= c < 64
          ensures IsColumn(m, FeatureColumn(values, c), Activation, features[c]) <==> features[c] == quantized[c]
        {
          assert columns[c] == FeatureColumn(values, c);
          ColumnIs(m, columns[c], Activation, features[c]);
        }
        if AreFeatures(m, values, features) {
          assert features == quantized;
        }
      }
    }
  }

  /** The intermediate values of one cell. */
  datatype CellParts<F> = CellParts(query: Column<F>, sums: Row, scores: Row, probabilities: Row, weights: Column<F>,
                                    features: seq<Column<F>>, mixed: Row)

  /**
   Query codes times key codes give the scores, softmax the probabilities; their codes times the feature
   codes give the context.
   */
  ghost predicate IsCellOf<F(!new)>(m: Model<F>, query: Row, keys: seq<Column<F>>, values: seq<Row>, c: CellParts<F>,
                                    out: Row)
  {
    && IsColumn(m, query, Activation, c.query) && AreDots(c.query.codes, Codes(keys), c.sums)
    && AreScores(m, c.sums, m.scoreScales(c.query.unit, Units(keys)), c.scores)
    && AreProbabilities(m.tables, c.scores, c.probabilities)
    && IsColumn(m, c.probabilities, Probability, c.weights)
    && AreFeatures(m, values, c.features) && AreDots(c.weights.codes, Codes(c.features), c.mixed)
    && IsAffineRow(m, c.mixed, m.contextScales(c.weights.unit, Units(c.features)), Zeros(64), out)
  }

  ghost predicate IsContextCell<F(!new)>(m: Model<F>, query: Row, keys: seq<Column<F>>, values: seq<Row>, out: Row) {
    exists c :: IsCellOf(m, query, keys, values, c, out)
  }

  /** The steps of a cell, one after the other. */
  lemma CellUnfolds<F(!new)>(m: Model<F>, query: Row, keys: seq<Column<F>>, values: seq<Row>, out: Row)
    returns (c: CellParts<F>)
    requires ContextCell(m, query, keys, values) == Some(out)
    ensures c.query == QuantizeColumn(m, query, Activation) && Products(c.query.codes, Codes(keys)) == Some(c.sums)
    ensures Scores(m, c.sums, m.scoreScales(c.query.unit, Units(keys))) == Some(c.scores)
    ensures Softmax(m.tables, c.scores, AllValid(|c.scores|)) == Ok(c.probabilities)
    ensures c.weights == QuantizeColumn(m, c.probabilities, Probability)
    ensures Transposed(values, HEAD_WIDTH).Some?
    ensures c.features == DynamicColumns(m, Transposed(values, HEAD_WIDTH).value, Activation)
    ensures Products(c.weights.codes, Codes(c.features)) == Some(c.mixed)
    ensures Affine(m, c.mixed, m.contextScales(c.weights.unit, Units(c.features)), Zeros(HEAD_WIDTH)) == Some(out)
  {
    var q := QuantizeColumn(m, query, Activation);
    var sums := Products(q.codes, Codes(keys)).value;
    var scores := Scores(m, sums, m.scoreScales(q.unit, Units(keys))).value;
    var probabilities := Softmax(m.tables, scores, AllValid(|scores|)).value;
    var p := QuantizeColumn(m, probabilities, Probability);
    var features := DynamicColumns(m, Transposed(values, HEAD_WIDTH).value, Activation);
    c := CellParts(q, sums, scores, probabilities, p, features, Products(p.codes, Codes(features)).value);
  }

  lemma CellFolds<F(!new)>(m: Model<F>, query: Row, keys: seq<Column<F>>, values: seq<Row>, c: CellParts<F>, out: Row)
    requires c.query == QuantizeColumn(m, query, Activation) && Products(c.query.codes, Codes(keys)) == Some(c.sums)
    requires Scores(m, c.sums, m.scoreScales(c.query.unit, Units(keys))) == Some(c.scores)
    requires Softmax(m.tables, c.scores, AllValid(|c.scores|)) == Ok(c.probabilities)
    requires c.weights == QuantizeColumn(m, c.probabilities, Probability)
    requires Transposed(values, HEAD_WIDTH).Some?
    requires c.features == DynamicColumns(m, Transposed(values, HEAD_WIDTH).value, Activation)
    requires Products(c.weights.codes, Codes(c.features)) == Some(c.mixed)
    requires Affine(m, c.mixed, m.contextScales(c.weights.unit, Units(c.features)), Zeros(HEAD_WIDTH)) == Some(out)
    ensures ContextCell(m, query, keys, values) == Some(out)
  {
  }

  lemma CellObeys<F(!new)>(m: Model<F>, query: Row, keys: seq<Column<F>>, values: seq<Row>, out: Row)
    requires ContextCell(m, query, keys, values) == Some(out)
    ensures IsContextCell(m, query, keys, values, out)
  {
    var c := CellUnfolds(m, query, keys, values, out);
    CellStepsAre(m, query, keys, values, c, out);
    assert IsCellOf(m, query, keys, values, c, out);
  }

  /** Step by step the computed value is the one that obeys its law. */
  lemma CellStepsAre<F(!new)>(m: Model<F>, query: Row, keys: seq<Column<F>>, values: seq<Row>, c: CellParts<F>,
                              out: Row)
    ensures IsColumn(m, query, Activation, c.query) <==> c.query == QuantizeColumn(m, query, Activation)
    ensures AreDots(c.query.codes, Codes(keys), c.sums) <==> Products(c.query.codes, Codes(keys)) == Some(c.sums)
    ensures AreScores(m, c.sums, m.scoreScales(c.query.unit, Units(keys)), c.scores)
       <==> Scores(m, c.sums, m.scoreScales(c.query.unit, Units(keys))) == Some(c.scores)
    ensures AreProbabilities(m.tables, c.scores, c.probabilities)
       <==> Softmax(m.tables, c.scores, AllValid(|c.scores|)) == Ok(c.probabilities)
    ensures IsColumn(m, c.probabilities, Probability, c.weights)
       <==> c.weights == QuantizeColumn(m, c.probabilities, Probability)
    ensures AreFeatures(m, values, c.features)
       <==> Transposed(values, HEAD_WIDTH).Some?
            && c.features == DynamicColumns(m, Transposed(values, HEAD_WIDTH).value, Activation)
    ensures AreDots(c.weights.codes, Codes(c.features), c.mixed)
       <==> Products(c.weights.codes, Codes(c.features)) == Some(c.mixed)
    ensures IsAffineRow(m, c.mixed, m.contextScales(c.weights.unit, Units(c.features)), Zeros(64), out)
       <==> Affine(m, c.mixed, m.contextScales(c.weights.unit, Units(c.features)), Zeros(HEAD_WIDTH)) == Some(out)
  {
    ColumnIs(m, query, Activation, c.query);
    ProductsAre(c.query.codes, Codes(keys), c.sums);
    ScoresAre(m, c.sums, m.scoreScales(c.query.unit, Units(keys)), c.scores);
    ProbabilitiesAre(m.tables, c.scores, c.probabilities);
    ColumnIs(m, c.probabilities, Probability, c.weights);
    FeaturesAre(m, values, c.features);
    ProductsAre(c.weights.codes, Codes(c.features), c.mixed);
    AffineIs(m, c.mixed, m.contextScales(c.weights.unit, Units(c.features)), Zeros(64), out);
  }

  lemma ContextCellIs<F(!new)>(m: Model<F>, query: Row, keys: seq<Column<F>>, values: seq<Row>, out: Row)
    ensures ContextCell(m, query, keys, values) == Some(out) <==> IsContextCell(m, query, keys, values, out)
  {
    if ContextCell(m, query, keys, values) == Some(out) {
      CellObeys(m, query, keys, values, out);
    }
    if IsContextCell(m, query, keys, values, out) {
      var c :| IsCellOf(m, query, keys, values, c, out);
      CellStepsAre(m, query, keys, values, c, out);
      CellFolds(m, query, keys, values, c, out);
    }
  }

  // ----- smoothing and the residual ---------------------------------------------------------

  predicate FitsInt16(row: Row) {
    forall i :: 0 <= i < |row| ==> -32768 <= row[i] <= 32767
  }

  /**
   A row is smoothed at exponent zero, except that a row of the adaptive model whose scaled values leave
   int16 gets its own exponent and rescaled factors.
   */
  ghost predicate IsSmoothed<F(!new)>(m: Model<F>, id: nat, row: Row, out: Hidden) {
    if !m.kind.Adaptive? then out.e == 0 && IsAffineRow(m, row, m.smoothScales(id), Zeros(|row|), out.x)
    else
      m.metadata(m.smoothScales(id)).Some? &&
      var (factors, shift) := m.metadata(m.smoothScales(id)).value;
      exists prospective ::
        && AreScaled(row, factors, shift, prospective)
        && (if FitsInt16(prospective) then out.e == 0 else m.smoothExponent(id, row) == Some(out.e))
        && IsAffineRow(m, row, m.rescale(m.smoothScales(id), out.e), Zeros(|row|), out.x)
  }

  lemma SlowRowIs<F(!new)>(m: Model<F>, id: nat, row: Row, prospective: Row, out: Hidden)
    ensures SmoothSlowRow(m, id, row, prospective) == Some(out)
       <==> (if FitsInt16(prospective) then out.e == 0 else m.smoothExponent(id, row) == Some(out.e))
            && IsAffineRow(m, row, m.rescale(m.smoothScales(id), out.e), Zeros(|row|), out.x)
  {
    AffineIs(m, row, m.rescale(m.smoothScales(id), out.e), Zeros(|row|), out.x);
    assert Overflows(prospective) <==> !FitsInt16(prospective);
  }

  lemma SmoothedIs<F(!new)>(m: Model<F>, id: nat, row: Row, out: Hidden)
    ensures SmoothAloneRow(m, id, row) == Some(out) <==> IsSmoothed(m, id, row, out)
  {
    if !m.kind.Adaptive? {
      AffineIs(m, row, m.smoothScales(id), Zeros(|row|), out.x);
    } else if m.metadata(m.smoothScales(id)).Some? {
      var (factors, shift) := m.metadata(m.smoothScales(id)).value;
      var shifted := Shifted(row, factors, shift);
      if shifted.Some? {
        ShiftedIs(row, factors, shift, shifted.value);
        SlowRowIs(m, id, row, shifted.value, out);
      }
      if IsSmoothed(m, id, row, out) {
        var p :|
          && AreScaled(row, factors, shift, p)
          && (if FitsInt16(p) then out.e == 0 else m.smoothExponent(id, row) == Some(out.e))
          && IsAffineRow(m, row, m.rescale(m.smoothScales(id), out.e), Zeros(|row|), out.x);
        ShiftedIs(row, factors, shift, p);
        SlowRowIs(m, id, row, p, out);
      }
    }
  }

  /** One row, added to its residual. */
  ghost predicate IsAddedRow<F(!new)>(m: Model<F>, id: nat, row: Row, h: Hidden, out: Hidden) {
    if m.kind.Quantized? then
      out.e == 0 && exists branch :: IsLinear(m, id, row, branch) && AreSums(h.x, branch, out.x)
    else exists smoothed :: IsSmoothed(m, id, row, smoothed) && IsProjected(m, id, smoothed, Some(h), out)
  }

  lemma SumRowIs<F(!new)>(m: Model<F>, id: nat, row: Row, h: Hidden, out: Hidden)
    ensures SumRow(m, id, row, h) == Some(out)
       <==> out.e == 0 && exists branch :: IsLinear(m, id, row, branch) && AreSums(h.x, branch, out.x)
  {
    var branch := Linear(m, id, row, 0);
    if branch.Some? {
      LinearIs(m, id, row, branch.value);
      NarrowedSums(h.x, branch.value, out.x);
    }
    if exists b :: IsLinear(m, id, row, b) && AreSums(h.x, b, out.x) {
      var b :| IsLinear(m, id, row, b) && AreSums(h.x, b, out.x);
      LinearIs(m, id, row, b);
    }
  }

  lemma ProjectedIs<F(!new)>(m: Model<F>, id: nat, input: Hidden, residual: Option<Hidden>, out: Hidden)
    ensures ProjectScaled(m, id, input, residual) == Some(out) <==> IsProjected(m, id, input, residual, out)
  {
    if ProjectScaled(m, id, input, residual) == Some(out) {
      ProjectedObeys(m, id, input, residual, out);
    }
    if IsProjected(m, id, input, residual, out) {
      ProjectedSucceeds(m, id, input, residual, out);
    }
  }

  /** What AddResidual does with a single row. */
  function AddedAlone<F>(m: Model<F>, id: nat, row: Row, h: Hidden): Option<Hidden> {
    if m.kind.Quantized? then SumRow(m, id, row, h)
    else
      var smoothed :- SmoothAloneRow(m, id, row);
      ProjectScaled(m, id, smoothed, Some(h))
  }

  lemma AddedAloneIs<F(!new)>(m: Model<F>, id: nat, row: Row, h: Hidden, out: Hidden)
    ensures AddedAlone(m, id, row, h) == Some(out) <==> IsAddedRow(m, id, row, h, out)
  {
    if m.kind.Quantized? {
      SumRowIs(m, id, row, h, out);
    } else {
      var smoothed := SmoothAloneRow(m, id, row);
      if smoothed.Some? {
        SmoothedIs(m, id, row, smoothed.value);
        ProjectedIs(m, id, smoothed.value, Some(h), out);
      }
      if IsAddedRow(m, id, row, h, out) {
        var s :| IsSmoothed(m, id, row, s) && IsProjected(m, id, s, Some(h), out);
        SmoothedIs(m, id, row, s);
      }
    }
  }

  lemma SingleOfMap<A, B>(f: A -> Option<B>, x: A)
    ensures MapAll(f, [x]) == if f(x).None? then None else Some([f(x).value])
  {
    var none: seq<A> := [];
    assert [x][..|[x]| - 1] == none && MapAll(f, none) == Some([]);
    if f(x).Some? {
      assert [] + [f(x).value] == [f(x).value];
    }
  }

  /** Projection back into the residual stream, on a single row: the law the pass refers to. */
  lemma AddedRowIs<F(!new)>(m: Model<F>, id: nat, row: Row, h: Hidden, out: Hidden)
    requires DividingByOneIsExact(m)
    ensures OpsOf(m).addResidual(id, [row], [h]) == Some([out]) <==> IsAddedRow(m, id, row, h, out)
  {
    AddedAloneIs(m, id, row, h, out);
    if m.kind.Quantized? {
      assert Zip([row], [h]) == [(row, h)];
      SingleOfMap(SumOf(m, id), (row, h));
    } else {
      SmoothIsRowwise(m, id, [row]);
      SingleOfMap(SmoothAlone(m, id), row);
      var smoothed := SmoothAloneRow(m, id, row);
      if smoothed.Some? {
        assert Zip([smoothed.value], [h]) == [(smoothed.value, h)];
        SingleOfMap(ResidualOf(m, id), (smoothed.value, h));
      }
    }
    assert [out][0] == out;
  }

  // ----- the remaining operations --------------------------------------------------------------

  lemma EmbedRowIs<F(!new)>(m: Model<F>, token: int, position: nat, out: Hidden)
    ensures OpsOf(m).embed(token, position) == Some(out)
       <==> 0 <= token < |m.embedding| && position < |m.position| && out.e == 0
            && AreSums(m.embedding[token], m.position[position], out.x)
  {
    if 0 <= token < |m.embedding| && position < |m.position| {
      NarrowedSums(m.embedding[token], m.position[position], out.x);
    }
  }

  lemma GeluRowIs<F(!new)>(m: Model<F>, row: Row, out: Row)
    ensures OpsOf(m).gelu(row) == Some(out)
       <==> IsInt16Vector(row) && |out| == |row| && forall i :: 0 <= i < |row| ==> IsGelu(m.tables, row[i], out[i])
  {
    if IsInt16Vector(row) && |out| == |row| && forall i :: 0 <= i < |row| ==> IsGelu(m.tables, row[i], out[i]) {
      assert GeluInt(m.tables, row).value == out;
    }
  }

  lemma HeadRowIs<F(!new)>(m: Model<F>, h: Hidden, out: Hidden)
    ensures OpsOf(m).head(h) == Some(out)
       <==> if m.kind.Quantized? then out.e == 0 && IsLinear(m, 48, h.x, out.x) else IsProjected(m, 48, h, None, out)
  {
    if m.kind.Quantized? {
      LinearIs(m, 48, h.x, out.x);
    } else {
      ProjectedIs(m, 48, h, None, out);
    }
  }

  /** The other operations of the pass, each by its law. */
  lemma OperationsObey<F(!new)>(m: Model<F>, id: nat, h: Hidden, row: Row, query: Row, keys: seq<Column<F>>,
                                values: seq<Row>, out: Row)
    ensures OpsOf(m).norm(id, h) == Some(out) <==> IsNormRow(m, id, h, out)
    ensures OpsOf(m).linear(id, row) == Some(out) <==> IsLinear(m, id, row, out)
    ensures OpsOf(m).cell(query, keys, values) == Some(out) <==> IsContextCell(m, query, keys, values, out)
    ensures IsColumn(m, row, Activation, OpsOf(m).key(row))
  {
    NormRowIs(m, id, h, out);
    LinearIs(m, id, row, out);
    ContextCellIs(m, query, keys, values, out);
    ColumnIs(m, row, Activation, QuantizeColumn(m, row, Activation));
  }

  lemma ModelCellsAreWide<F(!new)>(m: Model<F>)
    ensures CellsAreWide(OpsOf(m))
  {
    forall query, keys, values | OpsOf(m).cell(query, keys, values).Some?
      ensures |OpsOf(m).cell(query, keys, values).value| == 64
    {
      var out := OpsOf(m).cell(query, keys, values).value;
      var c := CellUnfolds(m, query, keys, values, out);
      AffineIs(m, c.mixed, m.contextScales(c.weights.unit, Units(c.features)), Zeros(64), out);
    }
  }

  /**
   forward of the three models: it succeeds with exactly the logits and caches that obey the laws of the
   pass, which refer to the operations characterized above.
   */
  lemma ForwardIsPass<F(!new)>(m: Model<F>, tokens: seq<int>, cache: seq<LayerCache>, allLogits: bool,
                               logits: seq<Hidden>, grown: seq<LayerCache>)
    requires DividingByOneIsExact(m)
    ensures Forward(StagesOf(OpsOf(m)), tokens, cache, allLogits) == Some((logits, grown))
       <==> IsPass(OpsOf(m), tokens, cache, allLogits, logits, grown)
  {
    ModelIsRowwise(m);
    ModelCellsAreWide(m);
    if Forward(StagesOf(OpsOf(m)), tokens, cache, allLogits) == Some((logits, grown)) {
      PassObeys(OpsOf(m), tokens, cache, allLogits, logits, grown);
    }
    if IsPass(OpsOf(m), tokens, cache, allLogits, logits, grown) {
      PassSucceeds(OpsOf(m), tokens, cache, allLogits, logits, grown);
    }
  }

  /** The first index of the largest logit. */
  predicate IsGreedy(x: Row, token: int) {
    && 0 <= token < |x|
    && (forall j :: 0 <= j < |x| ==> x[j] <= x[token])
    && (forall j :: 0 <= j < token ==> x[j] < x[token])
  }

  lemma GreedyIs(x: Row, token: int)
    ensures IsGreedy(x, token) <==> |x| > 0 && token == ArgMax(x, |x|)
  {
  }

  lemma NextIs(logits: seq<Hidden>, token: int)
    requires |logits| <= 1
    ensures NextToken(logits) == Some(token) <==> |logits| == 1 && IsGreedy(logits[0].x, token)
  {
    if |logits| == 1 {
      GreedyIs(logits[0].x, token);
    }
  }

  lemma PickOfLast(s: Stages, cache: seq<LayerCache>, tokens: seq<int>, token: int)
    ensures PickFrom(s, cache)(tokens) == Some(token)
       <==> var forward := Forward(s, tokens, cache, false);
            forward.Some? && |forward.value.0| == 1 && IsGreedy(forward.value.0[0].x, token)
  {
    var forward := Forward(s, tokens, cache, false);
    assert LastLogits(s)(tokens, cache) == forward;
    assert PickFrom(s, cache)(tokens) == Pick(forward);
    if forward.Some? {
      NextIs(forward.value.0, token);
    }
  }

  /** A lawful pass ends in a row whose greedy token this is. */
  ghost predicate IsLawfulPick<F(!new)>(m: Model<F>, cache: seq<LayerCache>, tokens: seq<int>, token: int) {
    exists out, grown :: IsPass(OpsOf(m), tokens, cache, false, [out], grown) && IsGreedy(out.x, token)
  }

  /** The token that recomputation picks is the greedy one of the last row of a lawful pass. */
  lemma PickIs<F(!new)>(m: Model<F>, cache: seq<LayerCache>, tokens: seq<int>, token: int)
    requires DividingByOneIsExact(m)
    ensures PickFrom(StagesOf(OpsOf(m)), cache)(tokens) == Some(token) <==> IsLawfulPick(m, cache, tokens, token)
  {
    PickOfLast(StagesOf(OpsOf(m)), cache, tokens, token);
    forall out, grown
      ensures IsPass(OpsOf(m), tokens, cache, false, [out], grown)
         <==> Forward(StagesOf(OpsOf(m)), tokens, cache, false) == Some(([out], grown))
    {
      ForwardIsPass(m, tokens, cache, false, [out], grown);
    }
    PickedOut(Forward(StagesOf(OpsOf(m)), tokens, cache, false), token);
  }

  lemma PickedOut(forward: Option<(seq<Hidden>, seq<LayerCache>)>, token: int)
    ensures forward.Some? && |forward.value.0| == 1 && IsGreedy(forward.value.0[0].x, token)
       <==> exists out: Hidden, grown :: forward == Some(([out], grown)) && IsGreedy(out.x, token)
  {
    if forward.Some? && |forward.value.0| == 1 {
      var (logits, grown) := forward.value;
      assert logits == [logits[0]];
      assert forward == Some(([logits[0]], grown));
    }
  }
}
