/**
 The dynamic int8 bridge: one multiplier per vector, taken from its largest magnitude.  Three
 implementations compute it; they agree, and the codes never reach the clip.
 */
module Int8Bridge {
  import opened Outcomes
  import opened Rounding
  import opened FixedWidth
  import opened SfpuReference

  const CODE_PEAK := 2130706432 // 127 << 24

  function MaxAbs(x: seq<int>): (m: nat)
    ensures forall i :: 0 <= i < |x| ==> Abs(x[i]) <= m
    ensures |x| > 0 ==> exists i :: 0 <= i < |x| && Abs(x[i]) == m
    ensures |x| == 0 ==> m == 0
  {
    if |x| == 0 then 0
    else
      var front, last := x[..|x| - 1], Abs(x[|x| - 1]);
      var rest := MaxAbs(front);
      assert forall i :: 0 <= i < |front| ==> x[i] == front[i];
      Max(rest, last)
  }

  /** Vectors the bridge is for: activations, and probabilities up to the endpoint 32768. */
  predicate IsBridgeVector(values: seq<int>) {
    IsVector(values, MAX_VECTOR, -32768, 32768)
  }

  function Multiplier(maximum: nat): int {
    if maximum == 0 then 0 else Rne(CODE_PEAK, maximum)
  }

  /** dynamic_int8_parameters of the operator reference. */
  function DynamicInt8Parameters(values: seq<int>): Result<(int, int)> {
    if !IsBridgeVector(values) then Err(ValueError) else Ok((Multiplier(MaxAbs(values)), 24))
  }

  /** The codes of one column of dynamic_columns. */
  function ColumnCodes(raw: seq<int>): (codes: seq<int>)
    ensures |codes| == |raw|
  {
    seq(|raw|, i requires 0 <= i < |raw| => ColumnCode(raw[i], Multiplier(MaxAbs(raw))))
  }

  function ColumnCode(raw: int, multiplier: int): int {
    Clip(RneShiftValue(raw * multiplier, 24), -128, 127)
  }

  /** runtime_requant_parameters: the packet words read as int32, one division, one bump. */
  method RuntimeRequantParameters(source: seq<int>) returns (r: Result<(int, int)>)
    ensures |source| == 0 ==> r == Err(ValueError)
    ensures |source| > 0 ==> r == Ok((Multiplier(MaxAbs(SignedWords(source))), 24))
  {
    var values := SignedWords(source);
    if |values| == 0 {
      return Err(ValueError);
    }
    var maximum := MaxAbs(values);
    if maximum == 0 {
      return Ok((0, 24));
    }
    var quotient, remainder := CODE_PEAK / maximum, CODE_PEAK % maximum;
    quotient := quotient + if 2 * remainder > maximum || (2 * remainder == maximum && quotient % 2 == 1) then 1 else 0;
    return Ok((quotient, 24));
  }

  function SignedWords(words: seq<int>): (s: seq<int>)
    ensures |s| == |words|
  {
    seq(|words|, i requires 0 <= i < |words| => AsI32(words[i]))
  }

  function UnsignedWords(values: seq<int>): (s: seq<int>)
    ensures |s| == |values|
  {
    seq(|values|, i requires 0 <= i < |values| => AsU32(values[i]))
  }

  lemma WordsRoundTrip(values: seq<int>)
    requires InRange(values, -0x8000_0000, 0x7fff_ffff)
    ensures SignedWords(UnsignedWords(values)) == values
  {
  }

  // ----- the multiplier -------------------------------------------------------

  /** The multiplier brings the largest magnitude to 127 code steps, within half a magnitude. */
  lemma MultiplierNearPeak(maximum: int)
    requires 1 <= maximum <= 32768
    ensures 2 * Abs(maximum * Multiplier(maximum) - CODE_PEAK) <= maximum
    ensures 65024 <= Multiplier(maximum) <= CODE_PEAK < 0x8000_0000
  {
    RneNearest(CODE_PEAK, maximum);
    var m := Multiplier(maximum);
    assert m * maximum == maximum * m;
    RneAbs(CODE_PEAK, maximum);
    MulOrder(65023, m, maximum);
  }

  lemma ProductWithin(raw: int, maximum: int, multiplier: int)
    requires Abs(raw) <= maximum && multiplier >= 0
    ensures Abs(raw * multiplier) <= maximum * multiplier
    ensures raw == maximum ==> raw * multiplier == maximum * multiplier
    ensures raw == -maximum ==> raw * multiplier == -(maximum * multiplier)
  {
    MulOrder(maximum, raw, multiplier);
    MulOrder(maximum, -raw, multiplier);
    assert (-raw) * multiplier == -(raw * multiplier);
  }

  /**
   For every magnitude M in 1..32768 and every value within it: the code before clipping is already
   in [-127, 127], the value M itself maps to 127, and the code is within half a step of the product.
   */
  lemma CodeNeverClips(raw: int, maximum: int)
    requires 1 <= maximum <= 32768 && Abs(raw) <= maximum
    ensures var m := Multiplier(maximum);
            var q := RneShiftValue(raw * m, 24);
            && -127 <= q <= 127
            && ColumnCode(raw, m) == q
            && Abs(q * 0x100_0000 - raw * m) <= 0x80_0000
            && (raw == maximum ==> q == 127)
            && (raw == -maximum ==> q == -127)
            && Abs(raw * m) < 0x8000_0000_0000_0000
  {
    var m := Multiplier(maximum);
    MultiplierNearPeak(maximum);
    ProductWithin(raw, maximum, m);
    CodeOfProduct(raw * m);
  }

  lemma CodeOfProduct(n: int)
    requires Abs(n) <= CODE_PEAK + 16384
    ensures var q := RneShiftValue(n, 24);
            && -127 <= q <= 127
            && Abs(q * 0x100_0000 - n) <= 0x80_0000
            && (n >= CODE_PEAK - 16384 ==> q == 127)
            && (n <= -CODE_PEAK + 16384 ==> q == -127)
  {
    Pow2Values();
    RneShiftIsRne(n, 24);
    RneNearest(n, 0x100_0000);
  }

  /** The vector form: every code of a bridge vector is in range and the peak is reached. */
  lemma CodesNeverClip(values: seq<int>)
    requires IsBridgeVector(values)
    ensures var codes := ColumnCodes(values);
            && (forall i :: 0 <= i < |codes| ==> -127 <= codes[i] <= 127)
            && (MaxAbs(values) > 0 ==> exists i :: 0 <= i < |codes| && Abs(codes[i]) == 127)
            && (MaxAbs(values) == 0 ==> forall i :: 0 <= i < |codes| ==> codes[i] == 0)
  {
    var codes, maximum := ColumnCodes(values), MaxAbs(values);
    forall i | 0 <= i < |codes|
      ensures -127 <= codes[i] <= 127
      ensures maximum == 0 ==> codes[i] == 0
      ensures maximum > 0 && Abs(values[i]) == maximum ==> Abs(codes[i]) == 127
    {
      if maximum > 0 {
        CodeNeverClips(values[i], maximum);
      } else {
        Pow2Values();
        assert values[i] == 0;
      }
    }
  }

  /**
   All three implementations agree: the reference parameters, the runtime reduction over the packet
   words, and the column codes, which are REQUANT8 with those parameters.
   */
  lemma BridgesAgree(values: seq<int>)
    requires IsBridgeVector(values)
    ensures DynamicInt8Parameters(values) == Ok((Multiplier(MaxAbs(SignedWords(UnsignedWords(values)))), 24))
    ensures RequantizeInt8(values, Multiplier(MaxAbs(values)), 24) == Ok(ColumnCodes(values))
  {
    WordsRoundTrip(values);
    var m := Multiplier(MaxAbs(values));
    if MaxAbs(values) > 0 {
      MultiplierNearPeak(MaxAbs(values));
    }
    forall i | 0 <= i < |values|
      ensures RequantizeValue(values[i], m, 24) == ColumnCode(values[i], m)
    {
      RneShiftIsRne(values[i] * m, 24);
    }
    assert RequantizeInt8(values, m, 24).value == ColumnCodes(values);
  }
}
