/**
 Requantizing the value cache in firmware: the original per-feature loops with an intermediate int8
 matrix, and the interchanged loops that scan contiguous vectors and quantize straight into tiles.
 Both leave the units and the four weight tiles of one specification.
 */
module ValueLoops {
  import opened Rounding
  import opened FixedWidth
  import opened SfpuReference
  import opened Int8Bridge
  import opened SfpuLaws
  import RowLaws

  const FEATURES := 64

  // ----- scalar kernels ------------------------------------------------------------

  /** pa_m5_dynamic_multiplier: the remainder is compared with its complement, never doubled. */
  method DynamicMultiplier(maximum: int) returns (multiplier: int)
    requires 0 <= maximum < 0x1_0000_0000
    ensures multiplier == Multiplier(maximum)
  {
    if maximum == 0 {
      return 0;
    }
    var quotient := CODE_PEAK / maximum;
    DivMod(CODE_PEAK, maximum);
    var remainder := CODE_PEAK - quotient * maximum;
    return quotient + if remainder > maximum - remainder || (remainder == maximum - remainder && quotient % 2 == 1)
                      then 1 else 0;
  }

  /** The shift of pa_scalar_quantize24: quotient, remainder and bump are 32-bit words of a 64-bit product. */
  function RoundShift24(product: int): int {
    var quotient, remainder := AsU32(product / 0x100_0000), AsU32(product) % 0x100_0000;
    AsU32(quotient + if remainder > 0x80_0000 || (remainder == 0x80_0000 && quotient % 2 == 1) then 1 else 0)
  }

  function Saturated(negative: bool, magnitude: int): int {
    if negative then (if magnitude >= 128 then -128 else -magnitude)
    else if magnitude > 127 then 127 else magnitude
  }

  /** pa_scalar_quantize24: the shifted product, saturated on the side of the value's sign. */
  function Quantize24(value: int, multiplier: int): int {
    Saturated(value < 0, RoundShift24(U64(Abs(value) * multiplier)))
  }

  predicate IsInt32(value: int) {
    -0x8000_0000 <= value < 0x8000_0000
  }

  predicate IsU32(word: int) {
    0 <= word < 0x1_0000_0000
  }

  /** The magnitude of the product, rounded before any cast. */
  function RoundedMagnitude(value: int, multiplier: nat): int {
    RneNat(Abs(value) * multiplier, 0x100_0000)
  }

  /** Either the rounded magnitude fits its uint32, or what is left of it saturates like the whole. */
  predicate SurvivesTruncation(value: int, multiplier: nat) {
    var rounded := RoundedMagnitude(value, multiplier);
    rounded < 0x1_0000_0000 || AsU32(rounded) >= if value < 0 then 128 else 127
  }

  lemma LowPart(high: int, low: int)
    requires 0 <= low < 0x100_0000
    ensures (0x100_0000 * high + low) % 0x100_0000 == low
  {
  }

  lemma LowBitsOfWord(product: nat)
    ensures AsU32(product) % 0x100_0000 == product % 0x100_0000
  {
    var high, word := product / 0x1_0000_0000, AsU32(product);
    var middle, low := word / 0x100_0000, word % 0x100_0000;
    assert product == 0x1_0000_0000 * high + word && word == 0x100_0000 * middle + low;
    LowPart(256 * high + middle, low);
  }

  /** Truncating the quotient before the bump equals truncating the rounded quotient. */
  lemma TruncatedBump(quotient: nat)
    ensures AsU32(quotient) % 2 == quotient % 2
    ensures AsU32(AsU32(quotient) + 0) == AsU32(quotient)
    ensures AsU32(AsU32(quotient) + 1) == AsU32(quotient + 1)
  {
    var high := quotient / 0x1_0000_0000;
    assert quotient == 2 * (0x8000_0000 * high) + AsU32(quotient);
  }

  lemma ReferenceCode(value: int, multiplier: nat)
    ensures ColumnCode(value, multiplier) == Saturated(value < 0, RoundedMagnitude(value, multiplier))
  {
    Pow2Values();
    MulOrder(Abs(value), 0, multiplier);
    var product := Abs(value) * multiplier;
    assert value * multiplier == if value < 0 then -product else product by {
      if value < 0 {
        assert (-value) * multiplier == -(value * multiplier);
      }
    }
    RneShiftIsRne(value * multiplier, 24);
  }

  /** The word the firmware saturates is the rounded product, modulo 2^32. */
  lemma RoundedWord(product: nat)
    ensures RoundShift24(product) == AsU32(RneNat(product, 0x100_0000))
  {
    LowBitsOfWord(product);
    TruncatedBump(product / 0x100_0000);
  }

  lemma ProductFits(magnitude: nat, multiplier: nat)
    requires magnitude <= 0x8000_0000 && multiplier < 0x1_0000_0000
    ensures 0 <= magnitude * multiplier < 0x8000_0000_0000_0000
  {
    MulOrder(0x8000_0000, magnitude, multiplier);
  }

  lemma SaturationMatches(negative: bool, rounded: nat)
    ensures Saturated(negative, AsU32(rounded)) == Saturated(negative, rounded)
       <==> rounded < 0x1_0000_0000 || AsU32(rounded) >= if negative then 128 else 127
  {
  }

  lemma AlreadyWord(product: nat)
    requires product < 0x1_0000_0000_0000_0000
    ensures U64(product) == product
  {
  }

  lemma FirmwareCode(value: int, multiplier: nat)
    requires Abs(value) * multiplier < 0x1_0000_0000_0000_0000
    ensures Quantize24(value, multiplier) == Saturated(value < 0, AsU32(RoundedMagnitude(value, multiplier)))
  {
    RoundedWord(Abs(value) * multiplier);
    AlreadyWord(Abs(value) * multiplier);
  }

  /**
   For every int32 value and every uint32 multiplier: the firmware code is the reference code if and
   only if the truncation of the shifted product to uint32 cannot be seen.
   */
  lemma Quantize24Exact(value: int, multiplier: int)
    requires IsInt32(value) && IsU32(multiplier)
    ensures Quantize24(value, multiplier) == ColumnCode(value, multiplier) <==> SurvivesTruncation(value, multiplier)
  {
    ProductFits(Abs(value), multiplier);
    FirmwareCode(value, multiplier);
    ReferenceCode(value, multiplier);
    SaturationMatches(value < 0, RoundedMagnitude(value, multiplier));
  }

  /** The truncation is seen: 2^25 * 2^31 shifted by 24 is 2^32, whose low word is zero. */
  lemma Quantize24Truncates()
    ensures Quantize24(0x200_0000, 0x8000_0000) == 0 && ColumnCode(0x200_0000, 0x8000_0000) == 127
  {
    FirmwareCode(0x200_0000, 0x8000_0000);
    ReferenceCode(0x200_0000, 0x8000_0000);
  }

  /** On int16 values and Q15 probabilities no multiplier below 2^31 comes near the truncation. */
  lemma Quantize24Matches(value: int, multiplier: int)
    requires -32768 <= value <= 32768 && 0 <= multiplier < 0x8000_0000
    ensures Quantize24(value, multiplier) == ColumnCode(value, multiplier)
  {
    MulOrder(32768, Abs(value), multiplier);
    SmallProductSurvives(Abs(value) * multiplier);
    Quantize24Exact(value, multiplier);
  }

  lemma SmallProductSurvives(product: nat)
    requires product < 0x80_0000_0000_0000
    ensures RneNat(product, 0x100_0000) < 0x1_0000_0000
  {
    DivMod(product, 0x100_0000);
  }

  // ----- specification ---------------------------------------------------------------

  /** Feature f of the first n positions. */
  function Feature(values: seq<int>, base: nat, f: nat, n: nat): (column: seq<int>)
    requires f < FEATURES && base + n * FEATURES <= |values|
    ensures |column| == n
  {
    seq(n, p requires 0 <= p < n => values[base + p * FEATURES + f])
  }

  function FeatureMultiplier(values: seq<int>, base: nat, f: nat, n: nat): int
    requires f < FEATURES && base + n * FEATURES <= |values|
  {
    Multiplier(MaxAbs(Feature(values, base, f, n)))
  }

  /** The code of one value: its feature's multiplier covers the first n positions only. */
  function Code(values: seq<int>, base: nat, n: nat, f: nat, p: nat): int
    requires f < FEATURES && p < n && base + n * FEATURES <= |values|
  {
    Quantize24(values[base + p * FEATURES + f], FeatureMultiplier(values, base, f, n))
  }

  /** Positions in the int8 matrix and in a tile. */
  function Slot(p: int, f: int): int {
    p * 64 + f
  }

  function TileLane(p: int, c: int): int {
    p * 16 + c
  }

  /** The contents a tile has when it is handed to the product: sixteen features of every position. */
  ghost predicate IsValueTile(contents: seq<int>, values: seq<int>, base: nat, n: nat, tile: nat)
    requires tile < 4 && base + n * FEATURES <= |values|
  {
    |contents| == n * 16 &&
    forall p, c {:trigger TileLane(p, c)} :: 0 <= p < n && 0 <= c < 16 ==>
      contents[TileLane(p, c)] == Code(values, base, n, tile * 16 + c, p)
  }

  ghost predicate AreValueTiles(tiles: seq<seq<int>>, values: seq<int>, base: nat, n: nat)
    requires base + n * FEATURES <= |values|
  {
    |tiles| == 4 && forall t :: 0 <= t < 4 ==> IsValueTile(tiles[t], values, base, n, t)
  }

  /** The first `features` units belong to the maxima of their features. */
  ghost predicate HasUnits(units: seq<real>, unit: nat -> real, values: seq<int>, base: nat, n: nat, features: nat)
    requires features <= FEATURES <= |units| && base + n * FEATURES <= |values|
  {
    forall f :: 0 <= f < features ==> units[f] == unit(MaxAbs(Feature(values, base, f, n)))
  }

  ghost predicate AreUnits(units: seq<real>, unit: nat -> real, values: seq<int>, base: nat, n: nat)
    requires base + n * FEATURES <= |values|
  {
    |units| == FEATURES && HasUnits(units, unit, values, base, n, FEATURES)
  }

  /** The specification leaves no freedom, so two loops that meet it agree on everything they hand over. */
  lemma SpecificationDetermines(unit: nat -> real, values: seq<int>, base: nat, n: nat,
                                   units: seq<real>, units': seq<real>, tiles: seq<seq<int>>, tiles': seq<seq<int>>)
    requires base + n * FEATURES <= |values|
    requires AreUnits(units, unit, values, base, n) && AreUnits(units', unit, values, base, n)
    requires AreValueTiles(tiles, values, base, n) && AreValueTiles(tiles', values, base, n)
    ensures units == units' && tiles == tiles'
  {
    forall t | 0 <= t < 4
      ensures tiles[t] == tiles'[t]
    {
      forall i | 0 <= i < n * 16
        ensures tiles[t][i] == tiles'[t][i]
      {
        assert i == TileLane(i / 16, i % 16) && i / 16 < n;
      }
    }
  }

  /** The tiles are the reference codes: column c of tile t is the dynamic column of feature 16 t + c. */
  lemma TilesAreDynamicColumns(values: seq<int>, base: nat, n: nat, contents: seq<int>, tile: nat, p: nat, c: nat)
    requires tile < 4 && p < n && c < 16 && base + n * FEATURES <= |values|
    requires IsValueTile(contents, values, base, n, tile)
    requires InRange(values, -32768, 32767)
    ensures contents[TileLane(p, c)] == ColumnCodes(Feature(values, base, tile * 16 + c, n))[p]
  {
    var column := Feature(values, base, tile * 16 + c, n);
    assert column[p] == values[base + p * FEATURES + tile * 16 + c];
    MaxAbsInt16(values, base, tile * 16 + c, n);
    MultiplierFits(MaxAbs(column));
    Quantize24Matches(column[p], Multiplier(MaxAbs(column)));
  }

  /** Index of feature 16 t + c of position q in the cached values. */
  function At(base: nat, tile: nat, q: nat, c: nat): nat {
    base + 64 * q + 16 * tile + c
  }

  /** The largest magnitude of the feature over the first n positions, and over no others. */
  ghost predicate IsFeaturePeak(values: seq<int>, base: nat, n: nat, tile: nat, c: nat, peak: nat)
    requires tile < 4 && c < 16 && base + n * 64 <= |values|
  {
    && (forall q :: 0 <= q < n ==> Abs(values[At(base, tile, q, c)]) <= peak)
    && (peak == 0 || exists q :: 0 <= q < n && Abs(values[At(base, tile, q, c)]) == peak)
  }

  lemma FeaturePeakIs(values: seq<int>, base: nat, n: nat, tile: nat, c: nat, peak: nat)
    requires tile < 4 && c < 16 && base + n * 64 <= |values| && IsFeaturePeak(values, base, n, tile, c, peak)
    ensures peak == MaxAbs(Feature(values, base, tile * 16 + c, n))
  {
    var column := Feature(values, base, tile * 16 + c, n);
    assert forall q :: 0 <= q < n ==> column[q] == values[At(base, tile, q, c)];
    RowLaws.PeakIs(column, peak);
  }

  /** The dynamic code of one value, by the peak of its feature. */
  lemma FeatureCode(values: seq<int>, base: nat, n: nat, tile: nat, p: nat, c: nat, peak: nat, factor: int, code: int)
    requires tile < 4 && p < n && c < 16 && base + n * 64 <= |values|
    requires IsFeaturePeak(values, base, n, tile, c, peak) && RowLaws.IsFactor(peak, factor)
    requires code == ColumnCodes(Feature(values, base, tile * 16 + c, n))[p]
    ensures IsCode(values[At(base, tile, p, c)], factor, 24, code)
  {
    FeaturePeakIs(values, base, n, tile, c, peak);
    RowLaws.FactorIs(peak, factor);
    assert Feature(values, base, tile * 16 + c, n)[p] == values[At(base, tile, p, c)];
    RowLaws.CodeIs(values[At(base, tile, p, c)], factor, code);
  }

  /**
   Entry 16 p + c of a tile: the value of that position and feature over the peak of its feature, in
   steps of 1/127, rounded to even and saturated.
   */
  lemma TileCode(values: seq<int>, base: nat, n: nat, contents: seq<int>, tile: nat, p: nat, c: nat, peak: nat,
                 factor: int)
    requires tile < 4 && p < n && c < 16 && base + n * 64 <= |values| && InRange(values, -32768, 32767)
    requires IsValueTile(contents, values, base, n, tile)
    requires IsFeaturePeak(values, base, n, tile, c, peak) && RowLaws.IsFactor(peak, factor)
    ensures p * 16 + c < |contents| && IsCode(values[At(base, tile, p, c)], factor, 24, contents[p * 16 + c])
  {
    TilesAreDynamicColumns(values, base, n, contents, tile, p, c);
    FeatureCode(values, base, n, tile, p, c, peak, factor, contents[TileLane(p, c)]);
  }

  /** The unit of a feature comes from the same peak. */
  lemma UnitEntry(unit: nat -> real, values: seq<int>, base: nat, n: nat, units: seq<real>, tile: nat, c: nat,
                  peak: nat)
    requires tile < 4 && c < 16 && base + n * 64 <= |values| && AreUnits(units, unit, values, base, n)
    requires IsFeaturePeak(values, base, n, tile, c, peak)
    ensures |units| == 64 && units[tile * 16 + c] == unit(peak)
  {
    FeaturePeakIs(values, base, n, tile, c, peak);
  }

  lemma MultiplierFits(maximum: int)
    requires 0 <= maximum <= 32768
    ensures 0 <= Multiplier(maximum) < 0x8000_0000
  {
    if maximum > 0 {
      MultiplierNearPeak(maximum);
    }
  }

  lemma MaxAbsInt16(values: seq<int>, base: nat, f: nat, n: nat)
    requires f < FEATURES && base + n * FEATURES <= |values| && InRange(values, -32768, 32767)
    ensures MaxAbs(Feature(values, base, f, n)) <= 32768
  {
  }

  lemma MaxAbsStep(values: seq<int>, base: nat, f: nat, p: nat)
    requires f < FEATURES && base + (p + 1) * FEATURES <= |values|
    ensures MaxAbs(Feature(values, base, f, p + 1))
         == Max(MaxAbs(Feature(values, base, f, p)), Abs(values[base + p * FEATURES + f]))
  {
    var longer := Feature(values, base, f, p + 1);
    assert longer[..p] == Feature(values, base, f, p);
  }

  // ----- the original loops --------------------------------------------------------------

  method ScanFeature(values: array<int>, base: nat, f: nat, length: nat) returns (maximum: int)
    requires f < FEATURES && base + length * FEATURES <= values.Length
    ensures maximum == MaxAbs(Feature(values[..], base, f, length))
  {
    maximum := 0;
    for position := 0 to length
      invariant maximum == MaxAbs(Feature(values[..], base, f, position))
    {
      MaxAbsStep(values[..], base, f, position);
      var magnitude := Abs(values[base + position * FEATURES + f]);
      if magnitude > maximum {
        maximum := magnitude;
      }
    }
  }

  /** Feature f of the matrix holds its codes in the first `positions` rows; nothing else changed. */
  ghost predicate HoldsFeature(before: seq<int>, after: seq<int>, values: seq<int>, base: nat, f: nat, n: nat,
                               positions: nat, multiplier: int)
    requires f < FEATURES && base + n * FEATURES <= |values| && n * FEATURES <= |before| == |after|
  {
    forall p, g {:trigger Slot(p, g)} :: 0 <= p < n && 0 <= g < FEATURES ==>
      after[Slot(p, g)] == if g == f && p < positions then Quantize24(values[base + p * FEATURES + f], multiplier)
                           else before[Slot(p, g)]
  }

  lemma FeatureExtends(before: seq<int>, after: seq<int>, values: seq<int>, base: nat, f: nat, n: nat,
                       position: nat, multiplier: int, code: int)
    requires f < FEATURES && base + n * FEATURES <= |values| && n * FEATURES <= |before| == |after| && position < n
    requires HoldsFeature(before, after, values, base, f, n, position, multiplier)
    requires code == Quantize24(values[base + position * FEATURES + f], multiplier)
    ensures HoldsFeature(before, after[Slot(position, f) := code], values, base, f, n, position + 1, multiplier)
  {
    var next := after[Slot(position, f) := code];
    forall p, g | 0 <= p < n && 0 <= g < FEATURES
      ensures next[Slot(p, g)]
           == if g == f && p < position + 1 then Quantize24(values[base + p * FEATURES + f], multiplier)
              else before[Slot(p, g)]
    {
      assert Slot(p, g) == Slot(position, f) ==> p == position && g == f;
    }
  }

  method QuantizeFeature(values: array<int>, base: nat, f: nat, length: nat, multiplier: int, valuesI8: array<int>)
    requires f < FEATURES && base + length * FEATURES <= values.Length && length * FEATURES <= valuesI8.Length
    requires values != valuesI8
    modifies valuesI8
    ensures HoldsFeature(old(valuesI8[..]), valuesI8[..], values[..], base, f, length, length, multiplier)
  {
    ghost var v, before := values[..], valuesI8[..];
    for position := 0 to length
      invariant values[..] == v
      invariant HoldsFeature(before, valuesI8[..], v, base, f, length, position, multiplier)
    {
      ghost var after := valuesI8[..];
      var code := Quantize24(values[base + position * FEATURES + f], multiplier);
      FeatureExtends(before, after, v, base, f, length, position, multiplier, code);
      valuesI8[Slot(position, f)] := code;
      assert valuesI8[..] == after[Slot(position, f) := code];
    }
  }

  ghost predicate IsCodeMatrix(matrix: seq<int>, values: seq<int>, base: nat, n: nat, features: nat)
    requires features <= FEATURES && base + n * FEATURES <= |values| && n * FEATURES <= |matrix|
  {
    forall p, g {:trigger Slot(p, g)} :: 0 <= p < n && 0 <= g < features ==>
      matrix[Slot(p, g)] == Code(values, base, n, g, p)
  }

  lemma CodesExtend(before: seq<int>, after: seq<int>, values: seq<int>, base: nat, n: nat, f: nat)
    requires f < FEATURES && base + n * FEATURES <= |values| && n * FEATURES <= |before| == |after|
    requires IsCodeMatrix(before, values, base, n, f)
    requires HoldsFeature(before, after, values, base, f, n, n, FeatureMultiplier(values, base, f, n))
    ensures IsCodeMatrix(after, values, base, n, f + 1)
  {
  }

  lemma UnitsStep(units: seq<real>, unit: nat -> real, values: seq<int>, base: nat, n: nat, f: nat)
    requires f < FEATURES <= |units| && base + n * FEATURES <= |values| && HasUnits(units, unit, values, base, n, f)
    ensures HasUnits(units[f := unit(MaxAbs(Feature(values, base, f, n)))], unit, values, base, n, f + 1)
  {
  }

  /** One more feature of the int8 matrix: its maximum, its multiplier, then its codes. */
  method QuantizeNext(values: array<int>, base: nat, f: nat, length: nat, valuesI8: array<int>) returns (maximum: int)
    requires f < FEATURES && base + length * FEATURES <= values.Length && length * FEATURES <= valuesI8.Length
    requires values != valuesI8 && InRange(values[..], -32768, 32767)
    requires IsCodeMatrix(valuesI8[..], values[..], base, length, f)
    modifies valuesI8
    ensures maximum == MaxAbs(Feature(values[..], base, f, length))
    ensures IsCodeMatrix(valuesI8[..], values[..], base, length, f + 1)
  {
    ghost var v, before := values[..], valuesI8[..];
    maximum := ScanFeature(values, base, f, length);
    MaxAbsInt16(v, base, f, length);
    var multiplier := DynamicMultiplier(maximum);
    QuantizeFeature(values, base, f, length, multiplier, valuesI8);
    CodesExtend(before, valuesI8[..], v, base, length, f);
  }

  method QuantizeAll(unit: nat -> real, values: array<int>, base: nat, length: nat, valueUnits: array<real>,
                     valuesI8: array<int>)
    requires base + length * FEATURES <= values.Length && valueUnits.Length == FEATURES
    requires length * FEATURES <= valuesI8.Length && values != valuesI8
    requires InRange(values[..], -32768, 32767)
    modifies valueUnits, valuesI8
    ensures AreUnits(valueUnits[..], unit, values[..], base, length)
    ensures IsCodeMatrix(valuesI8[..], values[..], base, length, FEATURES)
  {
    ghost var v := values[..];
    for feature := 0 to FEATURES
      invariant values[..] == v
      invariant HasUnits(valueUnits[..], unit, v, base, length, feature)
      invariant IsCodeMatrix(valuesI8[..], v, base, length, feature)
    {
      ghost var units := valueUnits[..];
      var maximum := QuantizeNext(values, base, feature, length, valuesI8);
      ghost var matrix := valuesI8[..];
      valueUnits[feature] := unit(maximum);
      assert valuesI8[..] == matrix && valueUnits[..] == units[feature := unit(maximum)];
      UnitsStep(units, unit, v, base, length, feature);
    }
  }

  method CopyTile(valuesI8: array<int>, tile: nat, length: nat, weightTile: array<int>)
    requires tile < 4 && length * FEATURES <= valuesI8.Length && length * 16 <= weightTile.Length
    requires valuesI8 != weightTile
    modifies weightTile
    ensures forall p, c {:trigger TileLane(p, c)} :: 0 <= p < length && 0 <= c < 16 ==>
              weightTile[TileLane(p, c)] == valuesI8[Slot(p, tile * 16 + c)]
  {
    for position := 0 to length
      invariant forall p, c {:trigger TileLane(p, c)} :: 0 <= p < position && 0 <= c < 16 ==>
                  weightTile[TileLane(p, c)] == valuesI8[Slot(p, tile * 16 + c)]
    {
      for column := 0 to 16
        invariant forall p, c {:trigger TileLane(p, c)} ::
                    0 <= p < length && 0 <= c < 16 && Reached(p, c, position, column) ==>
                    weightTile[TileLane(p, c)] == valuesI8[Slot(p, tile * 16 + c)]
      {
        weightTile[TileLane(position, column)] := valuesI8[Slot(position, tile * 16 + column)];
      }
    }
  }

  /** The original: feature by feature into an int8 matrix, then tile by tile out of it. */
  method OriginalLoops(unit: nat -> real, values: array<int>, base: nat, length: nat,
                          valueUnits: array<real>, valuesI8: array<int>, weightTile: array<int>)
    returns (tiles: seq<seq<int>>)
    requires base + length * FEATURES <= values.Length && valueUnits.Length == FEATURES
    requires length * FEATURES <= valuesI8.Length && length * 16 <= weightTile.Length
    requires InRange(values[..], -32768, 32767)
    requires values != valuesI8 && values != weightTile && valuesI8 != weightTile
    modifies valueUnits, valuesI8, weightTile
    ensures AreUnits(valueUnits[..], unit, old(values[..]), base, length)
    ensures AreValueTiles(tiles, old(values[..]), base, length)
  {
    QuantizeAll(unit, values, base, length, valueUnits, valuesI8);
    ghost var v, units, matrix := values[..], valueUnits[..], valuesI8[..];
    tiles := [];
    for tile := 0 to 4
      invariant values[..] == v && valueUnits[..] == units && valuesI8[..] == matrix && |tiles| == tile
      invariant forall t :: 0 <= t < tile ==> IsValueTile(tiles[t], v, base, length, t)
    {
      CopyTile(valuesI8, tile, length, weightTile);
      assert IsValueTile(weightTile[..length * 16], v, base, length, tile);
      tiles := tiles + [weightTile[..length * 16]];
    }
  }

  // ----- the interchanged loops --------------------------------------------------------------

  /** Entry f is the largest magnitude of feature f over the first n positions. */
  ghost predicate AreMaxima(maxima: seq<int>, values: seq<int>, base: nat, n: nat)
    requires base + n * FEATURES <= |values|
  {
    |maxima| == FEATURES && forall f :: 0 <= f < FEATURES ==> maxima[f] == MaxAbs(Feature(values, base, f, n))
  }

  lemma MaximaStep(before: seq<int>, after: seq<int>, values: seq<int>, base: nat, position: nat)
    requires base + (position + 1) * FEATURES <= |values| && |after| == FEATURES
    requires AreMaxima(before, values, base, position)
    requires forall f :: 0 <= f < FEATURES ==> after[f] == Max(before[f], Abs(values[base + position * FEATURES + f]))
    ensures AreMaxima(after, values, base, position + 1)
  {
    forall f | 0 <= f < FEATURES
      ensures after[f] == MaxAbs(Feature(values, base, f, position + 1))
    {
      MaxAbsStep(values, base, f, position);
    }
  }

  /** One contiguous vector raises the running maximum of every feature. */
  method ScanVector(values: array<int>, base: nat, position: nat, maxima: array<int>)
    requires base + (position + 1) * FEATURES <= values.Length && maxima.Length == FEATURES && maxima != values
    requires AreMaxima(maxima[..], values[..], base, position)
    modifies maxima
    ensures AreMaxima(maxima[..], values[..], base, position + 1)
  {
    ghost var v, before := values[..], maxima[..];
    for feature := 0 to FEATURES
      invariant values[..] == v
      invariant forall f :: 0 <= f < feature ==> maxima[f] == Max(before[f], Abs(v[base + position * FEATURES + f]))
      invariant forall f :: feature <= f < FEATURES ==> maxima[f] == before[f]
    {
      var magnitude := Abs(values[base + position * FEATURES + feature]);
      if magnitude > maxima[feature] {
        maxima[feature] := magnitude;
      }
    }
    MaximaStep(before, maxima[..], v, base, position);
  }

  /** Running maxima by position: each contiguous vector is read once for all features. */
  method ScanPositions(values: array<int>, base: nat, length: nat, maxima: array<int>)
    requires base + length * FEATURES <= values.Length && maxima.Length == FEATURES && maxima != values
    modifies maxima
    ensures AreMaxima(maxima[..], values[..], base, length)
  {
    ghost var v := values[..];
    for feature := 0 to FEATURES
      invariant forall f :: 0 <= f < feature ==> maxima[f] == 0
    {
      maxima[feature] := 0;
    }
    for position := 0 to length
      invariant values[..] == v
      invariant AreMaxima(maxima[..], v, base, position)
    {
      ScanVector(values, base, position, maxima);
    }
  }

  /** The maxima become multipliers in place, one after the other; the units are taken from each maximum first. */
  method Overwrite(unit: nat -> real, valueMultipliers: array<int>, valueUnits: array<real>)
    requires valueMultipliers.Length == FEATURES && valueUnits.Length == FEATURES
    requires forall f :: 0 <= f < FEATURES ==> 0 <= valueMultipliers[f] <= 32768
    modifies valueMultipliers, valueUnits
    ensures forall f :: 0 <= f < FEATURES ==> valueMultipliers[f] == Multiplier(old(valueMultipliers[f]))
    ensures forall f :: 0 <= f < FEATURES ==> valueUnits[f] == unit(old(valueMultipliers[f]))
  {
    for feature := 0 to FEATURES
      invariant forall f :: 0 <= f < feature ==> valueMultipliers[f] == Multiplier(old(valueMultipliers[f]))
      invariant forall f :: feature <= f < FEATURES ==> valueMultipliers[f] == old(valueMultipliers[f])
      invariant forall f :: 0 <= f < feature ==> valueUnits[f] == unit(old(valueMultipliers[f]))
    {
      var maximum := valueMultipliers[feature];
      var multiplier := DynamicMultiplier(maximum);
      valueUnits[feature] := unit(maximum);
      valueMultipliers[feature] := multiplier;
    }
  }

  /** Lane (p, c) has been written once the double loop has reached (position, column). */
  predicate Reached(p: int, c: int, position: int, column: int) {
    p < position || (p == position && c < column)
  }

  ghost predicate TileReached(contents: seq<int>, values: seq<int>, base: nat, n: nat, tile: nat,
                              position: nat, column: nat)
    requires tile < 4 && base + n * FEATURES <= |values| && n * 16 <= |contents|
  {
    forall p, c {:trigger TileLane(p, c)} :: 0 <= p < n && 0 <= c < 16 && Reached(p, c, position, column) ==>
      contents[TileLane(p, c)] == Code(values, base, n, tile * 16 + c, p)
  }

  lemma TileExtends(contents: seq<int>, values: seq<int>, base: nat, n: nat, tile: nat, position: nat, column: nat)
    requires tile < 4 && base + n * FEATURES <= |values| && n * 16 <= |contents| && position < n && column < 16
    requires TileReached(contents, values, base, n, tile, position, column)
    ensures TileReached(contents[TileLane(position, column) := Code(values, base, n, tile * 16 + column, position)],
                        values, base, n, tile, position, column + 1)
  {
  }

  method QuantizeTile(values: array<int>, base: nat, length: nat, tile: nat, multipliers: array<int>,
                      weightTile: array<int>)
    requires tile < 4 && base + length * FEATURES <= values.Length && multipliers.Length == FEATURES
    requires length * 16 <= weightTile.Length && weightTile != values && weightTile != multipliers
    requires forall f :: 0 <= f < FEATURES ==> multipliers[f] == FeatureMultiplier(values[..], base, f, length)
    modifies weightTile
    ensures IsValueTile(weightTile[..length * 16], values[..], base, length, tile)
  {
    ghost var v, m := values[..], multipliers[..];
    for position := 0 to length
      invariant values[..] == v && multipliers[..] == m
      invariant TileReached(weightTile[..], v, base, length, tile, position, 0)
    {
      for column := 0 to 16
        invariant values[..] == v && multipliers[..] == m
        invariant TileReached(weightTile[..], v, base, length, tile, position, column)
      {
        var f := tile * 16 + column;
        ghost var before := weightTile[..];
        assert m[f] == FeatureMultiplier(v, base, f, length);
        TileExtends(before, v, base, length, tile, position, column);
        weightTile[TileLane(position, column)] := Quantize24(values[base + position * FEATURES + f], multipliers[f]);
        assert weightTile[..] == before[TileLane(position, column) := Code(v, base, length, f, position)];
      }
    }
  }

  /** The interchanged form: no int8 matrix, the same units and the same four tiles. */
  method InterchangedLoops(unit: nat -> real, values: array<int>, base: nat, length: nat,
                              valueUnits: array<real>, weightTile: array<int>)
    returns (tiles: seq<seq<int>>)
    requires base + length * FEATURES <= values.Length && valueUnits.Length == FEATURES
    requires length * 16 <= weightTile.Length && values != weightTile
    requires InRange(values[..], -32768, 32767)
    modifies valueUnits, weightTile
    ensures AreUnits(valueUnits[..], unit, old(values[..]), base, length)
    ensures AreValueTiles(tiles, old(values[..]), base, length)
  {
    ghost var v := values[..];
    var valueMultipliers := new int[FEATURES];
    ScanPositions(values, base, length, valueMultipliers);
    forall f | 0 <= f < FEATURES
      ensures MaxAbs(Feature(v, base, f, length)) <= 32768
    {
      MaxAbsInt16(v, base, f, length);
    }
    Overwrite(unit, valueMultipliers, valueUnits);
    assert AreUnits(valueUnits[..], unit, v, base, length);
    tiles := QuantizeTiles(values, base, length, valueMultipliers, weightTile);
  }

  method QuantizeTiles(values: array<int>, base: nat, length: nat, multipliers: array<int>, weightTile: array<int>)
    returns (tiles: seq<seq<int>>)
    requires base + length * FEATURES <= values.Length && multipliers.Length == FEATURES
    requires length * 16 <= weightTile.Length && weightTile != values && weightTile != multipliers
    requires forall f :: 0 <= f < FEATURES ==> multipliers[f] == FeatureMultiplier(values[..], base, f, length)
    modifies weightTile
    ensures AreValueTiles(tiles, values[..], base, length)
  {
    ghost var v := values[..];
    tiles := [];
    for tile := 0 to 4
      invariant values[..] == v && |tiles| == tile
      invariant forall f :: 0 <= f < FEATURES ==> multipliers[f] == FeatureMultiplier(v, base, f, length)
      invariant forall t :: 0 <= t < tile ==> IsValueTile(tiles[t], v, base, length, t)
    {
      QuantizeTile(values, base, length, tile, multipliers, weightTile);
      tiles := tiles + [weightTile[..length * 16]];
    }
  }
}
