/**
 zynq/m4_cpu_sfpu.c: the same operators in fixed-width C, over packet words, in place in an output
 array.  Every method is proved against the reference planes read from its input words.
 */
module NativeSfpu {
  import opened Outcomes
  import opened Rounding
  import opened FixedWidth
  import opened SquareRoot
  import opened Sums
  import opened SfpuReference
  import opened SoftmaxProperties
  import opened LayerNormProperties
  import opened Int8Bridge
  import opened SfpuPackets
  import SfpuLaws

  // ----- scalar kernels --------------------------------------------------------

  function Gelu(t: Tables, x: int): int
    requires -32768 <= x <= 32767
  {
    var magnitude := I32(if x < 0 then -x else x);
    var positive := if magnitude <= 2048 then t.gelu[magnitude] else magnitude;
    if x < 0 then I32(positive - magnitude) else positive
  }

  /** exponential(): the interpolation fits 64 bits and its rounding is the reference one. */
  method Exponential(t: Tables, difference: int) returns (weight: int)
    requires 0 <= difference <= 65535
    ensures weight == ExpWeight(t, difference)
    ensures 0 <= weight <= 0x100_0000
  {
    WeightRange(t, difference);
    if difference >= 4096 {
      return 0;
    }
    var index, fraction := difference / 16, difference % 16;
    weight := InterpolateTable(t.exp[index], t.exp[index + 1], fraction);
  }

  method InterpolateTable(a: int, b: int, fraction: int) returns (weight: int)
    requires 0 <= a <= 0x100_0000 && 0 <= b <= 0x100_0000 && 0 <= fraction < 16
    ensures weight == Rne(a * (16 - fraction) + b * fraction, 16)
  {
    InterpolationRange(a, b, fraction);
    ProductBound(a, 16 - fraction, 0x100_0000, 16);
    ProductBound(b, fraction, 0x100_0000, 16);
    U64Small(a * (16 - fraction));
    U64Small(b * fraction);
    var sum := U64(a * (16 - fraction)) + U64(b * fraction);
    U64Small(sum);
    URoundExact(sum, 16);
    weight := URound(U64(sum), 16);
  }

  lemma ShiftRange(shift: int)
    requires 0 <= shift <= 31
    ensures 1 <= Pow2(shift) <= 0x8000_0000
  {
    Pow2Monotone(shift, 31);
    Pow2Values();
  }

  /** The 64-bit product, rounded: no signed overflow for any int32 word and 31-bit multiplier. */
  method ScaledWord(raw: Int32, multiplier: int, shift: int) returns (value: int)
    requires 0 <= multiplier < 0x8000_0000 && 0 <= shift <= 31
    ensures value == Rne(raw * multiplier, Pow2(shift))
    ensures -0x4000_0000_0000_0000 <= value <= 0x4000_0000_0000_0000
  {
    ProductWithin(raw, 0x8000_0000, multiplier);
    MulOrder(0x8000_0000, multiplier, 0x8000_0000);
    ShiftRange(shift);
    var product := I64(raw * multiplier);
    SRoundIsRne(product, Pow2(shift));
    RneAbs(product, Pow2(shift));
    value := SRound(product, Pow2(shift));
  }

  // ----- LayerNorm ----------------------------------------------------------------

  function PlaneAt(words: seq<int>, k: nat, n: nat): (v: seq<int>)
    requires (k + 1) * n <= |words|
    ensures |v| == n
  {
    LowHalves(words[k * n..(k + 1) * n])
  }

  method TotalAndSquares(input: array<Int32>, length: int, ghost x: seq<int>) returns (total: int, squares: int)
    requires 1 <= length <= MAX_VECTOR && length <= input.Length
    requires x == LowHalves(input[..length])
    ensures total == Sum(x, length) && squares == Sum(Squares(x), length)
  {
    total, squares := 0, 0;
    for i := 0 to length
      invariant total == Sum(x, i) && squares == Sum(Squares(x), i)
    {
      SumBounds(x, i, -32768, 32767);
      PrefixSquares(x, i);
      var value := Low16(input[i]);
      assert value == x[i];
      SquareRange(value);
      total := I64(total + value);
      U64Small(value * value);
      U64Small(squares + value * value);
      squares := U64(squares + U64(value * value));
    }
  }

  lemma PrefixSquares(x: seq<int>, n: nat)
    requires n <= |x| <= MAX_VECTOR && InRange(x, -32768, 32767)
    ensures 0 <= Sum(Squares(x), n) <= n * 0x4000_0000
  {
    forall i | 0 <= i < n
      ensures 0 <= Squares(x)[i] <= 0x4000_0000
    {
      SquareRange(x[i]);
    }
    SumBounds(Squares(x), n, 0, 0x4000_0000);
  }

  /** The unsigned subtraction does not wrap, because the variance numerator is never negative. */
  method Denominator(length: int, total: int, squares: int, seed: int, ghost x: seq<int>) returns (denominator: int)
    requires IsInt16Vector(x) && length == |x| && total == Sum(x, length) && squares == Sum(Squares(x), length)
    requires 0 <= seed < 0x7fff_ffff_ffff_ffff
    ensures Radicand(x) >= 0 && denominator == Isqrt(Radicand(x))
    ensures 0 < denominator < 0x100_0000_0000
  {
    TermRanges(x);
    DenominatorPositive(x);
    SpreadWords(length, total, squares);
    EpsilonWords(length);
    EpsilonRange(length);
    var variance := U64(U64(length * squares) - U64(total * total));
    var epsilon := URound(U64(U64(length * length) * 0x100_0000_0000), 100000);
    assert variance == Spread(x, length);
    denominator := LnDenominator(variance, epsilon, seed);
  }

  lemma EpsilonWords(length: nat)
    requires 1 <= length <= MAX_VECTOR
    ensures IsU64(U64(U64(length * length) * 0x100_0000_0000))
    ensures URound(U64(U64(length * length) * 0x100_0000_0000), 100000) == EpsilonTerm(length)
  {
    LengthSquare(length);
    U64Small(length * length);
    U64Small(length * length * 0x100_0000_0000);
    URoundExact(length * length * 0x100_0000_0000, 100000);
  }

  lemma SpreadWords(n: int, s: int, t: int)
    requires 1 <= n <= MAX_VECTOR && -100663296 <= s <= 100663296 && 0 <= t < 0x400_0000_0000
    requires n * t - s * s >= 0
    ensures U64(U64(n * t) - U64(s * s)) == n * t - s * s
    ensures -0x8000_0000_0000_0000 <= s * s < 0x8000_0000_0000_0000
  {
    ProductBound(n, t, 3072, 0x400_0000_0000);
    SquareNonNegative(s);
    U64Small(n * t);
    U64Small(s * s);
  }

  method NormalizedWord(length: int, total: int, denominator: int, x: int, gain: int, bias: int) returns (value: int)
    requires 1 <= length <= MAX_VECTOR && -100663296 <= total <= 100663296 && 0 < denominator < 0x100_0000_0000
    requires -32768 <= x <= 32767 && -32768 <= gain <= 32767 && -32768 <= bias <= 32767
    ensures value == LayerNormValue(length * x - total, gain, bias, denominator)
    ensures -32768 <= value <= 32767
  {
    ScaledCenter(length, total, x);
    var centered := I64(I64(length * x) - total);
    GainProduct(centered, gain);
    var numerator := I64(I64(centered * gain) * 256);
    SRoundIsRne(numerator, denominator);
    RneAbs(numerator, denominator);
    value := Sat16(I64(SRound(numerator, denominator) + bias));
  }

  lemma ScaledCenter(length: int, total: int, x: int)
    requires 1 <= length <= MAX_VECTOR && -100663296 <= total <= 100663296 && -32768 <= x <= 32767
    ensures -100663296 <= length * x <= 100663296
  {
    ProductWithin(x, 32768, length);
    MulOrder(MAX_VECTOR, length, 32768);
  }

  lemma GainProduct(centered: int, gain: int)
    requires -201326592 <= centered <= 201326592 && -32768 <= gain <= 32767
    ensures -0x600_0000_0000 <= centered * gain <= 0x600_0000_0000
  {
    if gain >= 0 {
      ProductWithin(centered, 201326592, gain);
    } else {
      ProductWithin(centered, 201326592, -gain);
      assert centered * -gain == -(centered * gain);
    }
  }

  /** The second pass: each word is read, normalized and stored. */
  method NormalizeWords(length: int, total: int, denominator: int, input: array<Int32>, output: array<Int32>,
                        ghost x: seq<int>, ghost g: seq<int>, ghost b: seq<int>)
    requires 1 <= length <= MAX_VECTOR && input != output
    requires 3 * length <= input.Length && length <= output.Length && |x| == |g| == |b| == length
    requires total == Sum(x, length) && -100663296 <= total <= 100663296 && 0 < denominator < 0x100_0000_0000
    requires forall i :: 0 <= i < length ==> Low16(input[i]) == x[i]
    requires forall i :: 0 <= i < length ==> Low16(input[length + i]) == g[i]
    requires forall i :: 0 <= i < length ==> Low16(input[2 * length + i]) == b[i]
    modifies output
    ensures output[..length] == LayerNormRow(x, g, b, denominator)
    ensures output[length..] == old(output[length..])
  {
    ghost var row := LayerNormRow(x, g, b, denominator);
    for i := 0 to length
      invariant output[length..] == old(output[length..])
      invariant forall j :: 0 <= j < i ==> output[j] == row[j]
    {
      var value := NormalizedWord(length, total, denominator, Low16(input[i]), Low16(input[length + i]),
                                  Low16(input[2 * length + i]));
      output[i] := value;
    }
  }

  lemma PlaneEntries(w: seq<Int32>, n: nat)
    requires 3 * n <= |w|
    ensures forall i :: 0 <= i < n ==> PlaneAt(w, 0, n)[i] == Low16(w[i])
    ensures forall i :: 0 <= i < n ==> PlaneAt(w, 1, n)[i] == Low16(w[n + i])
    ensures forall i :: 0 <= i < n ==> PlaneAt(w, 2, n)[i] == Low16(w[2 * n + i])
    ensures PlaneAt(w, 0, n) == LowHalves(w[..n])
  {
  }

  method LayerNorm(length: int, input: array<Int32>, output: array<Int32>, seed: int) returns (status: int)
    requires 1 <= length <= MAX_VECTOR && input != output
    requires 3 * length <= input.Length && length <= output.Length && 0 <= seed < 0x7fff_ffff_ffff_ffff
    modifies output
    ensures status == 0
    ensures var w := input[..];
            LayerNormInt(PlaneAt(w, 0, length), PlaneAt(w, 1, length), PlaneAt(w, 2, length)) == Ok(output[..length])
    ensures output[length..] == old(output[length..])
  {
    ghost var w := input[..];
    ghost var x, g, b := PlaneAt(w, 0, length), PlaneAt(w, 1, length), PlaneAt(w, 2, length);
    PlaneEntries(w, length);
    assert w[..length] == input[..length];
    var total, squares := TotalAndSquares(input, length, x);
    TermRanges(x);
    var denominator := Denominator(length, total, squares, seed, x);
    if denominator == 0 {
      return -3;
    }
    NormalizeWords(length, total, denominator, input, output, x, g, b);
    assert input[..] == w;
    return 0;
  }

  // ----- softmax --------------------------------------------------------------------

  /** The first words of the packet carry the scores x and their validity bits m. */
  ghost predicate CarriesScores(input: array<Int32>, x: seq<int>, m: seq<bool>)
    reads input
  {
    && 1 <= |x| == |m| <= MAX_SOFTMAX && |x| <= input.Length
    && (forall i :: 0 <= i < |x| ==> Low16(input[i]) == x[i] && Bit16(input[i]) == m[i])
    && InRange(x, -32768, 32767)
  }

  /** The scan for the maximum starts at the smallest score and counts the valid entries. */
  method ScanMaximum(length: int, input: array<Int32>, ghost x: seq<int>, ghost m: seq<bool>)
    returns (maximum: int, count: int)
    requires CarriesScores(input, x, m) && length == |x|
    ensures count == 0 ==> forall i :: 0 <= i < length ==> !m[i]
    ensures count != 0 ==> IsMaximum(x, m, maximum)
  {
    maximum, count := -32768, 0;
    ghost var top := 0;
    for i := 0 to length
      invariant 0 <= count <= i
      invariant count == 0 ==> maximum == -32768 && forall j :: 0 <= j < i ==> !m[j]
      invariant count != 0 ==> 0 <= top < i && m[top] && x[top] == maximum
      invariant forall j :: 0 <= j < i && m[j] ==> x[j] <= maximum
    {
      var raw := Low16(input[i]);
      assert raw == x[i] && Bit16(input[i]) == m[i];
      if Bit16(input[i]) {
        if raw > maximum || count == 0 {
          top := i;
        }
        if raw > maximum {
          maximum := raw;
        }
        count := count + 1;
      }
    }
  }

  /** One conditional weight: masked words weigh nothing. */
  method WeightOfWord(t: Tables, maximum: int, word: Int32) returns (weight: int)
    requires -32768 <= maximum <= 32767 && -32768 <= Low16(word) <= 32767
    requires Bit16(word) ==> Low16(word) <= maximum
    ensures weight == Weight(t, maximum, Low16(word), Bit16(word))
    ensures 0 <= weight <= 0x100_0000
  {
    weight := 0;
    if Bit16(word) {
      weight := Exponential(t, I32(maximum - Low16(word)));
    }
  }

  method FillWeights(t: Tables, length: int, maximum: int, input: array<Int32>, weights: array<int>,
                     ghost x: seq<int>, ghost m: seq<bool>)
    returns (total: int)
    requires CarriesScores(input, x, m) && length == |x| <= weights.Length && IsMaximum(x, m, maximum)
    modifies weights
    ensures weights[..length] == Weights(t, x, m, maximum)
    ensures total == Sum(Weights(t, x, m, maximum), length)
  {
    ghost var w := Weights(t, x, m, maximum);
    total := 0;
    for i := 0 to length
      invariant CarriesScores(input, x, m)
      invariant forall j :: 0 <= j < i ==> weights[j] == w[j]
      invariant total == Sum(w, i) && 0 <= total <= i * 0x100_0000
    {
      assert Low16(input[i]) == x[i] && Bit16(input[i]) == m[i];
      var weight := WeightOfWord(t, maximum, input[i]);
      assert weight == w[i];
      weights[i] := weight;
      U64Small(total + weight);
      total := U64(total + weight);
    }
  }

  /** Floors of the shares, and the mass they leave, in one pass over the weights. */
  method FillFloors(length: int, total: int, weights: array<int>, output: array<Int32>, ghost w: seq<int>)
    returns (remainder: int)
    requires 1 <= length <= MAX_SOFTMAX && length <= weights.Length && length <= output.Length
    requires weights[..length] == w && total == Sum(w, length) > 0
    requires forall i :: 0 <= i < length ==> 0 <= w[i] <= 0x100_0000
    modifies output
    ensures output[..length] == Floors(w, total)
    ensures remainder == PROB_SCALE - Sum(Floors(w, total), length)
    ensures output[length..] == old(output[length..])
  {
    ghost var q := Floors(w, total);
    remainder := 32768;
    for i := 0 to length
      invariant forall j :: 0 <= j < i ==> output[j] == q[j]
      invariant remainder == PROB_SCALE - Sum(q, i)
      invariant output[length..] == old(output[length..])
    {
      assert weights[i] == w[i];
      SumGrows(w, length, i);
      FloorAtMostScale(w[i], total);
      output[i] := U64(weights[i] * 32768) / total;
      remainder := remainder - output[i];
    }
  }

  lemma FloorAtMostScale(weight: int, total: int)
    requires 0 <= weight <= total && weight <= 0x100_0000 && total > 0
    ensures 0 <= weight * PROB_SCALE / total <= PROB_SCALE
    ensures U64(weight * 32768) == weight * PROB_SCALE
  {
    FloorShare(weight, total);
    MulGap(PROB_SCALE, weight * PROB_SCALE / total, total);
  }

  method HandOutRemainder(length: int, mass: int, weights: array<int>, output: array<Int32>,
                          ghost w: seq<int>, ghost q: seq<int>)
    returns (remainder: int)
    requires 1 <= length <= MAX_SOFTMAX && length <= weights.Length && length <= output.Length
    requires weights[..length] == w && output[..length] == q && 0 <= mass
    requires InRange(q, 0, PROB_SCALE)
    modifies output
    ensures output[..length] == Corrected(w, q, mass)
    ensures remainder == mass - Min(Nonzeros(w, length), mass)
    ensures output[length..] == old(output[length..])
  {
    remainder := mass;
    var i := 0;
    while i < length && remainder != 0
      invariant 0 <= i <= length
      invariant remainder == mass - Min(Nonzeros(w, i), mass)
      invariant forall j :: 0 <= j < i ==> output[j] == q[j] + Correction(w, mass, j)
      invariant forall j :: i <= j < length ==> output[j] == q[j]
      invariant output[length..] == old(output[length..])
    {
      assert weights[i] == w[i];
      if weights[i] != 0 {
        output[i] := output[i] + 1;
        remainder := remainder - 1;
      }
      i := i + 1;
    }
    forall j | i <= j < length
      ensures Correction(w, mass, j) == 0
    {
      NonzerosGrow(w, i, j);
    }
    NonzerosGrow(w, i, length);
    assert output[..length] == Corrected(w, q, mass);
  }

  lemma {:induction false} NonzerosGrow(w: seq<int>, i: nat, j: nat)
    requires i <= j <= |w|
    ensures Nonzeros(w, i) <= Nonzeros(w, j)
    decreases j - i
  {
    if i < j {
      NonzerosGrow(w, i + 1, j);
    }
  }

  /** A row without valid entries: every output is zero. */
  method ClearRow(length: int, output: array<Int32>)
    requires 1 <= length <= output.Length
    modifies output
    ensures output[..length] == seq(length, i => 0)
    ensures output[length..] == old(output[length..])
  {
    for i := 0 to length
      invariant forall j :: 0 <= j < i ==> output[j] == 0
      invariant output[length..] == old(output[length..])
    {
      output[i] := 0;
    }
  }

  /** Floors and correction together are the reference normalization of the weights. */
  method NormalizeWeights(length: int, total: int, weights: array<int>, output: array<Int32>, ghost w: seq<int>)
    returns (remainder: int)
    requires 1 <= length <= MAX_SOFTMAX && length <= weights.Length && length <= output.Length
    requires weights[..length] == w && total == Sum(w, length) > 0
    requires forall i :: 0 <= i < length ==> 0 <= w[i] <= 0x100_0000
    modifies output
    ensures remainder == 0 && Normalized(w) == Ok(output[..length])
    ensures output[length..] == old(output[length..])
  {
    ghost var q := Floors(w, total);
    LeftoverFits(w);
    FloorsInRange(w, total);
    var mass := FillFloors(length, total, weights, output, w);
    assert output[..length] == q;
    remainder := HandOutRemainder(length, mass, weights, output, w, q);
  }

  method ScoredRow(t: Tables, length: int, maximum: int, input: array<Int32>, output: array<Int32>,
                   ghost x: seq<int>, ghost m: seq<bool>)
    returns (remainder: int)
    requires CarriesScores(input, x, m) && length == |x| <= output.Length && input != output
    requires IsMaximum(x, m, maximum)
    modifies output
    ensures remainder == 0 && LutSoftmax(t, x, m) == Ok(output[..length])
    ensures output[length..] == old(output[length..])
  {
    ghost var w := Weights(t, x, m, maximum);
    WeightsPositive(t, x, m, maximum);
    LutOfMaximum(t, x, m, maximum);
    var weights := new int[1024];
    var total := FillWeights(t, length, maximum, input, weights, x, m);
    remainder := NormalizeWeights(length, total, weights, output, w);
  }

  method SoftmaxRow(t: Tables, length: int, input: array<Int32>, output: array<Int32>,
                    ghost x: seq<int>, ghost m: seq<bool>)
    returns (status: int)
    requires CarriesScores(input, x, m) && length == |x| <= output.Length && input != output
    modifies output
    ensures status == 0 && Softmax(t, x, m) == Ok(output[..length])
    ensures output[length..] == old(output[length..])
  {
    var maximum, count := ScanMaximum(length, input, x, m);
    if count == 0 {
      ClearRow(length, output);
    } else {
      var remainder := ScoredRow(t, length, maximum, input, output, x, m);
      if remainder != 0 {
        return -4;
      }
    }
    return 0;
  }

  lemma FloorsInRange(w: seq<int>, total: int)
    requires total == Sum(w, |w|) > 0 && forall i :: 0 <= i < |w| ==> 0 <= w[i] <= 0x100_0000
    ensures InRange(Floors(w, total), 0, PROB_SCALE)
  {
    forall i | 0 <= i < |w|
      ensures 0 <= Floors(w, total)[i] <= PROB_SCALE
    {
      SumGrows(w, |w|, i);
      FloorAtMostScale(w[i], total);
    }
  }

  // ----- elementwise operations --------------------------------------------------------

  /** The word an elementwise operation writes at index i, in terms of the reference operators. */
  function ElementValue(t: Tables, op: int, length: int, shift: int, multiplier: int, w: seq<int>, i: nat): int
    requires op in {GELU, ADD, REQUANT8, AFFINE, AFFINE_GELU} && 0 <= shift <= 31
    requires i < length && WordsPerElement(op) * length <= |w|
  {
    if op == GELU then GeluValue(t, Low16(w[i]))
    else if op == ADD then Sat16(Low16(w[i]) + Low16(w[length + i]))
    else if op == REQUANT8 then RequantizeValue(w[i], multiplier, shift)
    else
      var affine := AffineValue(w[i], w[length + i], w[2 * length + i], shift);
      if op == AFFINE then affine else GeluValue(t, affine)
  }

  function WordsPerElement(op: int): int {
    if op in {LAYERNORM, AFFINE, AFFINE_GELU} then 3 else if op == ADD then 2 else 1
  }

  method Element(t: Tables, op: int, length: int, shift: int, multiplier: int, input: array<Int32>, i: int)
    returns (value: Int32)
    requires op in {GELU, ADD, REQUANT8, AFFINE, AFFINE_GELU} && 1 <= length
    requires ValidParameters(op, shift, multiplier)
    requires 0 <= i < length && WordsPerElement(op) * length <= input.Length
    requires op in {AFFINE, AFFINE_GELU} ==> input[length + i] >= 0
    ensures value == ElementValue(t, op, length, shift, multiplier, input[..], i)
  {
    if op == GELU {
      value := Gelu(t, Low16(input[i]));
    } else if op == ADD {
      value := Sat16(I32(Low16(input[i]) + Low16(input[length + i])));
    } else if op == REQUANT8 {
      var scaled := ScaledWord(input[i], multiplier, shift);
      value := if scaled < -128 then -128 else if scaled > 127 then 127 else scaled;
    } else {
      var scaled := ScaledWord(input[i], input[length + i], shift);
      value := Sat16(I64(scaled + input[2 * length + i]));
      if op == AFFINE_GELU {
        value := Gelu(t, value);
      }
    }
  }

  ghost predicate HasNegativeMultiplier(op: int, length: int, w: seq<int>)
    requires 1 <= length && WordsPerElement(op) * length <= |w|
  {
    op in {AFFINE, AFFINE_GELU} && exists i :: length <= i < 2 * length && w[i] < 0
  }

  method Elementwise(t: Tables, op: int, length: int, shift: int, multiplier: int,
                     input: array<Int32>, output: array<Int32>)
    returns (status: int)
    requires op in {GELU, ADD, REQUANT8, AFFINE, AFFINE_GELU} && 1 <= length && input != output
    requires ValidParameters(op, shift, multiplier)
    requires WordsPerElement(op) * length <= input.Length && length <= output.Length
    modifies output
    ensures status == if HasNegativeMultiplier(op, length, input[..]) then -2 else 0
    ensures status == 0 ==> forall i :: 0 <= i < length ==>
              output[i] == ElementValue(t, op, length, shift, multiplier, input[..], i)
    ensures output[length..] == old(output[length..])
  {
    ghost var w := input[..];
    for i := 0 to length
      invariant input[..] == w && output[length..] == old(output[length..])
      invariant op in {AFFINE, AFFINE_GELU} ==> forall j :: length <= j < length + i ==> w[j] >= 0
      invariant forall j :: 0 <= j < i ==> output[j] == ElementValue(t, op, length, shift, multiplier, w, j)
    {
      if (op == AFFINE || op == AFFINE_GELU) && input[length + i] < 0 {
        assert w[length + i] < 0;
        return -2;
      }
      var value := Element(t, op, length, shift, multiplier, input, i);
      output[i] := value;
    }
    return 0;
  }

  /** The elementwise results, gathered, are the reference result of the planes in the packet. */
  lemma ElementsEvaluate(t: Tables, d: Descriptor, w: seq<int>, out: seq<int>)
    requires d.Valid() && d.op in {GELU, ADD, REQUANT8, AFFINE, AFFINE_GELU} && |w| == d.Planes() * d.length
    requires InRange(w, -0x8000_0000, 0x7fff_ffff) && |out| == d.length
    requires forall i :: 0 <= i < d.length ==> out[i] == ElementValue(t, d.op, d.length, d.shift, d.multiplier, w, i)
    requires !HasNegativeMultiplier(d.op, d.length, w)
    ensures Evaluate(t, d, UnpackPlanes(d, w)) == Ok(out)
  {
    var n := d.length;
    if d.op == ADD {
      assert AddInt(LowHalves(w[..n]), LowHalves(w[n..])).value == out;
    } else if d.op == AFFINE || d.op == AFFINE_GELU {
      AffineElements(t, d, w, out);
    } else if d.op == GELU {
      assert GeluInt(t, LowHalves(w)).value == out;
    } else {
      assert RequantizeInt8(w, d.multiplier, d.shift).value == out;
    }
  }

  lemma AffineElements(t: Tables, d: Descriptor, w: seq<int>, out: seq<int>)
    requires d.Valid() && d.op in {AFFINE, AFFINE_GELU} && |w| == 3 * d.length
    requires InRange(w, -0x8000_0000, 0x7fff_ffff) && |out| == d.length
    requires forall i :: 0 <= i < d.length ==> out[i] == ElementValue(t, d.op, d.length, d.shift, d.multiplier, w, i)
    requires !HasNegativeMultiplier(d.op, d.length, w)
    ensures Evaluate(t, d, UnpackPlanes(d, w)) == Ok(out)
  {
    var n := d.length;
    var x, scales, bias := w[..n], w[n..2 * n], w[2 * n..];
    forall i | 0 <= i < n
      ensures 0 <= scales[i] <= 0x7fff_ffff
    {
      assert scales[i] == w[n + i];
    }
    var affine := AffineInt(x, scales, bias, d.shift).value;
    if d.op == AFFINE {
      assert affine == out;
    } else {
      assert GeluInt(t, affine).value == out;
    }
  }

  /** A negative multiplier is the one malformed packet: the reference rejects it too. */
  lemma NegativeMultiplierRejected(t: Tables, d: Descriptor, w: seq<int>)
    requires d.Valid() && |w| == d.Planes() * d.length && InRange(w, -0x8000_0000, 0x7fff_ffff)
    requires HasNegativeMultiplier(d.op, d.length, w)
    ensures Evaluate(t, d, UnpackPlanes(d, w)).Err?
  {
    var n := d.length;
    var i :| n <= i < 2 * n && w[i] < 0;
    assert w[n..2 * n][i - n] < 0;
  }

  // ----- the kernel --------------------------------------------------------------------

  /**
   pa_m4_sfpu.  For every descriptor and every packet of int32 words, well formed or not: the
   status says whether the descriptor is valid and the planes the packet carries are in the domain of
   the operator, and on status 0 the output words are exactly the reference result and obey its law.
   */
  method PaM4Sfpu(op: int, length: int, shift: int, multiplier: int, input: array?<Int32>, output: array?<Int32>,
                  tables: Option<Tables>, seed: int)
    returns (status: int)
    requires 0 <= multiplier < 0x1_0000_0000 && 0 <= seed < 0x7fff_ffff_ffff_ffff
    requires input != null && output != null && Descriptor(op, length, shift, multiplier, 0).Valid() ==>
               && input != output && length <= output.Length
               && input.Length == Descriptor(op, length, shift, multiplier, 0).Planes() * length
    modifies output
    ensures var d := Descriptor(op, length, shift, multiplier, 0);
            if input == null || output == null || tables.None? || !d.Valid() then
              && status == (if input != null && output != null && tables.Some? && 1 <= op <= 7 &&
                               1 <= length <= (if op == SOFTMAX then 1024 else 3072) then -2 else -1)
              && (output != null ==> output[..] == old(output[..]))
            else
              var reference := Evaluate(tables.value, d, UnpackPlanes(d, input[..]));
              && status == (if reference.Ok? then 0 else -2)
              && (status == 0 ==> reference == Ok(output[..length]))
              && (status == 0 <==> InDomain(d, UnpackPlanes(d, input[..])))
              && (status == 0 ==> SfpuLaws.Obeys(tables.value, d, UnpackPlanes(d, input[..]), output[..length]))
              && output[length..] == old(output[length..])
  {
    if input == null || output == null || tables.None? || op < 1 || op > 7 || length < 1 ||
       length > (if op == 3 then 1024 else 3072) {
      return -1;
    }
    if op == 4 || op == 6 {
      if shift < 0 || shift > 31 || multiplier != 0 {
        return -2;
      }
    } else if op == 5 {
      if shift < 0 || shift > 31 || multiplier >= 0x8000_0000 {
        return -2;
      }
    } else if shift != 0 || multiplier != 0 {
      return -2;
    }
    status := Compute(op, length, shift, multiplier, input, output, tables.value, seed);
    CarriedPlanesObey(tables.value, Descriptor(op, length, shift, multiplier, 0), input[..], status, output[..length]);
  }

  /** The reference accepts exactly the planes in the domain, and what it returns obeys the law. */
  lemma CarriedPlanesObey(t: Tables, d: Descriptor, w: seq<int>, status: int, out: seq<int>)
    requires d.Valid() && |w| == d.Planes() * d.length
    requires var reference := Evaluate(t, d, UnpackPlanes(d, w));
             status == (if reference.Ok? then 0 else -2) && (status == 0 ==> reference == Ok(out))
    ensures status == 0 <==> InDomain(d, UnpackPlanes(d, w))
    ensures status == 0 ==> SfpuLaws.Obeys(t, d, UnpackPlanes(d, w), out)
  {
    var planes := UnpackPlanes(d, w);
    EvaluatesTheDomain(t, d, planes);
    if status == 0 {
      SfpuLaws.ReferenceObeys(t, d, planes);
    }
  }

  /** The three branches behind the checks. */
  method Compute(op: int, length: int, shift: int, multiplier: int, input: array<Int32>, output: array<Int32>,
                 t: Tables, seed: int)
    returns (status: int)
    requires Descriptor(op, length, shift, multiplier, 0).Valid() && 0 <= seed < 0x7fff_ffff_ffff_ffff
    requires input != output && length <= output.Length
    requires input.Length == Descriptor(op, length, shift, multiplier, 0).Planes() * length
    modifies output
    ensures var d := Descriptor(op, length, shift, multiplier, 0);
            var reference := Evaluate(t, d, UnpackPlanes(d, input[..]));
            && status == (if reference.Ok? then 0 else -2)
            && (status == 0 ==> reference == Ok(output[..length]))
            && output[length..] == old(output[length..])
  {
    ghost var d := Descriptor(op, length, shift, multiplier, 0);
    ghost var w := input[..];
    if op == 2 {
      status := LayerNorm(length, input, output, seed);
      assert w[0..length] == w[..length] && w[2 * length..3 * length] == w[2 * length..];
    } else if op == 3 {
      status := SoftmaxRow(t, length, input, output, LowHalves(w), ValidBits(w));
    } else {
      status := Elementwise(t, op, length, shift, multiplier, input, output);
      if status == 0 {
        ElementsEvaluate(t, d, w, output[..length]);
      } else {
        NegativeMultiplierRejected(t, d, w);
      }
    }
  }

  /**
   The packet wrapper of ref/m4_cpu_sfpu.py: for every valid descriptor and every planes in the domain
   of its operator, the kernel run on the packet built from them returns 0 and writes exactly the
   reference words.
   */
  method RunPacket(t: Tables, d: Descriptor, planes: seq<Plane>, seed: int) returns (status: int, words: seq<int>)
    requires d.Valid() && IsPlanes(d, planes) && InDomain(d, planes) && 0 <= seed < 0x7fff_ffff_ffff_ffff
    ensures status == 0 && EvaluateAndPack(t, d, planes).Ok?
    ensures UnsignedWords(words) == EvaluateAndPack(t, d, planes).value.1
    ensures Evaluate(t, d, planes) == Ok(words)
    ensures SfpuLaws.Obeys(t, d, planes, words)
  {
    SfpuLaws.ReferenceObeys(t, d, planes);
    AcceptsExactlyTheDomain(t, d, planes);
    PacketRoundTrip(t, d, planes);
    var packet := SignedWords(EvaluateAndPack(t, d, planes).value.0);
    var input := new Int32[|packet|](i requires 0 <= i < |packet| => packet[i]);
    var output := new Int32[d.length];
    assert input[..] == packet;
    status := PaM4Sfpu(d.op, d.length, d.shift, d.multiplier, input, output, Some(t), seed);
    var untagged := Descriptor(d.op, d.length, d.shift, d.multiplier, 0);
    assert UnpackPlanes(untagged, packet) == UnpackPlanes(d, packet);
    assert Evaluate(t, untagged, planes) == Evaluate(t, d, planes);
    words := output[..];
    assert output[..d.length] == words;
  }
}
