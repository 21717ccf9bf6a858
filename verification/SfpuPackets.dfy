/** The descriptor, and the packet that joins the reference operators to their implementations. */
module SfpuPackets {
  import opened Outcomes
  import opened FixedWidth
  import opened SfpuReference
  import opened SoftmaxProperties
  import opened LayerNormProperties
  import opened Int8Bridge

  const GELU := 1
  const LAYERNORM := 2
  const SOFTMAX := 3
  const AFFINE := 4
  const REQUANT8 := 5
  const AFFINE_GELU := 6
  const ADD := 7

  datatype Descriptor = Descriptor(op: int, length: int, shift: int, multiplier: int, tag: int) {
    predicate Valid() {
      && 1 <= op <= 7
      && 1 <= length <= (if op == SOFTMAX then 1024 else 3072)
      && ValidParameters(op, shift, multiplier)
      && 0 <= tag <= 0xffff_ffff
    }

    function Planes(): nat {
      if op in {LAYERNORM, AFFINE, AFFINE_GELU} then 3 else if op == ADD then 2 else 1
    }
  }

  predicate ValidParameters(op: int, shift: int, multiplier: int) {
    if op == AFFINE || op == AFFINE_GELU then 0 <= shift <= 31 && multiplier == 0
    else if op == REQUANT8 then 0 <= shift <= 31 && 0 <= multiplier < 0x8000_0000
    else shift == 0 && multiplier == 0
  }

  datatype Plane = Ints(v: seq<int>) | Bools(m: seq<bool>) {
    function Length(): nat {
      if Ints? then |v| else |m|
    }
  }

  predicate IsPlanes(d: Descriptor, planes: seq<Plane>) {
    && |planes| == (if d.op == SOFTMAX then 2 else d.Planes())
    && forall k :: 0 <= k < |planes| ==> planes[k].Length() == d.length
  }

  predicate AllInts(planes: seq<Plane>) {
    forall k :: 0 <= k < |planes| ==> planes[k].Ints?
  }

  /** The reference result for planes of the right number and length. */
  function Evaluate(t: Tables, d: Descriptor, planes: seq<Plane>): Result<seq<int>>
    requires d.Valid() && IsPlanes(d, planes)
  {
    if d.op == SOFTMAX then
      if !planes[0].Ints? then Err(TypeError)
      else if !planes[1].Bools? then Err(ValueError)
      else Softmax(t, planes[0].v, planes[1].m)
    else if !AllInts(planes) then Err(TypeError)
    else if d.op == GELU then GeluInt(t, planes[0].v)
    else if d.op == LAYERNORM then LayerNormInt(planes[0].v, planes[1].v, planes[2].v)
    else if d.op == AFFINE then AffineInt(planes[0].v, planes[1].v, planes[2].v, d.shift)
    else if d.op == AFFINE_GELU then
      var affine :- AffineInt(planes[0].v, planes[1].v, planes[2].v, d.shift);
      GeluInt(t, affine)
    else if d.op == REQUANT8 then RequantizeInt8(planes[0].v, d.multiplier, d.shift)
    else AddInt(planes[0].v, planes[1].v)
  }

  predicate Int16Planes(planes: seq<Plane>) {
    AllInts(planes) && forall k :: 0 <= k < |planes| ==> InRange(planes[k].v, -32768, 32767)
  }

  predicate Int32Planes(planes: seq<Plane>) {
    AllInts(planes) && forall k :: 0 <= k < |planes| ==> InRange(planes[k].v, -0x8000_0000, 0x7fff_ffff)
  }

  /** The kind and range of the planes each operator is meant for. */
  predicate InDomain(d: Descriptor, planes: seq<Plane>)
    requires d.Valid() && IsPlanes(d, planes)
  {
    if d.op == SOFTMAX then planes[0].Ints? && planes[1].Bools? && InRange(planes[0].v, -32768, 32767)
    else if d.op == REQUANT8 then Int32Planes(planes)
    else if d.op == AFFINE || d.op == AFFINE_GELU then
      Int32Planes(planes) && InRange(planes[1].v, 0, 0x7fff_ffff)
    else Int16Planes(planes)
  }

  /** The reference raises on no valid descriptor with planes in range, and on every other request. */
  lemma AcceptsExactlyTheDomain(t: Tables, d: Descriptor, planes: seq<Plane>)
    ensures EvaluateAndPack(t, d, planes).Ok? <==> d.Valid() && IsPlanes(d, planes) && InDomain(d, planes)
  {
    if d.Valid() && IsPlanes(d, planes) {
      EvaluatesTheDomain(t, d, planes);
    }
  }

  lemma EvaluatesTheDomain(t: Tables, d: Descriptor, planes: seq<Plane>)
    requires d.Valid() && IsPlanes(d, planes)
    ensures Evaluate(t, d, planes).Ok? <==> InDomain(d, planes)
  {
    if d.op == SOFTMAX {
      if planes[0].Ints? && planes[1].Bools? {
        assert planes[0].Length() == planes[1].Length();
        if exists i :: 0 <= i < |planes[1].m| && planes[1].m[i] {
          SoftmaxDefined(t, planes[0].v, planes[1].m);
        }
      }
    } else if AllInts(planes) {
      assert forall k :: 0 <= k < |planes| ==> |planes[k].v| == planes[k].Length();
      if d.op == LAYERNORM {
        LayerNormDefined(planes[0].v, planes[1].v, planes[2].v);
      } else if d.op == AFFINE_GELU {
        AffineIsInt16(planes[0].v, planes[1].v, planes[2].v, d.shift);
      }
    }
  }

  lemma AffineIsInt16(x: seq<int>, scales: seq<int>, biases: seq<int>, shift: int)
    ensures AffineInt(x, scales, biases, shift).Ok? ==> IsInt16Vector(AffineInt(x, scales, biases, shift).value)
  {
  }

  function ScoreWord(raw: int, keep: bool): int {
    AsU32(raw) % 0x1_0000 + if keep then 0x1_0000 else 0
  }

  function ScoreWords(x: seq<int>, mask: seq<bool>): (w: seq<int>)
    requires |x| == |mask|
    ensures |w| == |x|
  {
    seq(|x|, i requires 0 <= i < |x| => ScoreWord(x[i], mask[i]))
  }

  function PackedPlanes(d: Descriptor, planes: seq<Plane>): seq<int>
    requires d.Valid() && IsPlanes(d, planes)
    requires if d.op == SOFTMAX then planes[0].Ints? && planes[1].Bools? else AllInts(planes)
  {
    if d.op == SOFTMAX then ScoreWords(planes[0].v, planes[1].m)
    else if |planes| == 3 then UnsignedWords(planes[0].v + planes[1].v + planes[2].v)
    else if |planes| == 2 then UnsignedWords(planes[0].v + planes[1].v)
    else UnsignedWords(planes[0].v)
  }

  /** Word i of a score packet carries the low half of the score and the validity in bit 16. */
  lemma ScoreLayout(d: Descriptor, planes: seq<Plane>, i: nat)
    requires d.Valid() && IsPlanes(d, planes) && InDomain(d, planes) && d.op == 3 && i < d.length
    ensures |PackedPlanes(d, planes)| == d.length
    ensures PackedPlanes(d, planes)[i] == planes[0].v[i] % 0x1_0000 + if planes[1].m[i] then 0x1_0000 else 0
  {
    assert planes[0].Length() == d.length && planes[1].Length() == d.length;
    LowOfWord(planes[0].v[i]);
  }

  /** In every other packet element i of plane k is word k n + i, modulo 2^32. */
  lemma PlaneLayout(d: Descriptor, planes: seq<Plane>, k: nat, i: nat)
    requires d.Valid() && IsPlanes(d, planes) && InDomain(d, planes) && d.op != 3 && i < d.length && k < |planes|
    ensures k * d.length + i < |PackedPlanes(d, planes)|
    ensures PackedPlanes(d, planes)[k * d.length + i] == planes[k].v[i] % 0x1_0000_0000
  {
    assert forall j :: 0 <= j < |planes| ==> planes[j].Length() == d.length;
    if |planes| == 3 {
      PlanesInRow(planes[0].v, planes[1].v, planes[2].v, k, i);
    } else if |planes| == 2 {
      TwoPlanesInRow(planes[0].v, planes[1].v, k, i);
    }
  }

  lemma TwoPlanesInRow(a: seq<int>, b: seq<int>, k: nat, i: nat)
    requires |a| == |b| && i < |a| && k < 2
    ensures k * |a| + i < |a + b| && (a + b)[k * |a| + i] == if k == 0 then a[i] else b[i]
  {
    assert k * |a| == if k == 0 then 0 else |a|;
  }

  lemma PlanesInRow(a: seq<int>, b: seq<int>, c: seq<int>, k: nat, i: nat)
    requires |a| == |b| == |c| && i < |a| && k < 3
    ensures k * |a| + i < |a + b + c|
    ensures (a + b + c)[k * |a| + i] == if k == 0 then a[i] else if k == 1 then b[i] else c[i]
  {
    assert k * |a| == if k == 0 then 0 else if k == 1 then |a| else 2 * |a|;
  }

  lemma LowOfWord(x: int)
    requires -32768 <= x <= 32767
    ensures AsU32(x) % 0x1_0000 == x % 0x1_0000
  {
  }

  /** The input words and the exact output words of one packet. */
  function EvaluateAndPack(t: Tables, d: Descriptor, planes: seq<Plane>): Result<(seq<int>, seq<int>)> {
    if !d.Valid() || !IsPlanes(d, planes) then Err(ValueError)
    else
      var result :- Evaluate(t, d, planes);
      Ok((PackedPlanes(d, planes), UnsignedWords(result)))
  }

  // ----- reading a packet back ------------------------------------------------

  function LowHalves(words: seq<int>): (v: seq<int>)
    ensures |v| == |words|
  {
    seq(|words|, i requires 0 <= i < |words| => Low16(words[i]))
  }

  function ValidBits(words: seq<int>): (m: seq<bool>)
    ensures |m| == |words|
  {
    seq(|words|, i requires 0 <= i < |words| => Bit16(words[i]))
  }

  /** The planes an implementation sees in the signed words of a packet. */
  function UnpackPlanes(d: Descriptor, words: seq<int>): (planes: seq<Plane>)
    requires d.Valid() && |words| == d.Planes() * d.length
    ensures IsPlanes(d, planes)
  {
    var n := d.length;
    if d.op == SOFTMAX then [Ints(LowHalves(words)), Bools(ValidBits(words))]
    else if d.op == GELU then [Ints(LowHalves(words))]
    else if d.op == REQUANT8 then [Ints(words)]
    else if d.op == ADD then [Ints(LowHalves(words[..n])), Ints(LowHalves(words[n..]))]
    else if d.op == LAYERNORM then
      [Ints(LowHalves(words[..n])), Ints(LowHalves(words[n..2 * n])), Ints(LowHalves(words[2 * n..]))]
    else [Ints(words[..n]), Ints(words[n..2 * n]), Ints(words[2 * n..])]
  }

  lemma Low16OfWord(x: int)
    requires -32768 <= x <= 32767
    ensures Low16(AsI32(AsU32(x))) == x
  {
    assert AsI32(AsU32(x)) == x;
  }

  lemma ScoreOfWord(x: int, keep: bool)
    requires -32768 <= x <= 32767
    ensures Low16(AsI32(ScoreWord(x, keep))) == x
    ensures Bit16(AsI32(ScoreWord(x, keep))) == keep
  {
    var low := if x < 0 then x + 0x1_0000 else x;
    assert AsU32(x) == if x < 0 then x + 0x1_0000_0000 else x;
    assert AsU32(x) % 0x1_0000 == low;
    var word := ScoreWord(x, keep);
    assert AsI32(word) == word;
  }

  lemma LowHalvesOfWords(v: seq<int>)
    requires InRange(v, -32768, 32767)
    ensures LowHalves(SignedWords(UnsignedWords(v))) == v
  {
    forall i | 0 <= i < |v|
      ensures Low16(AsI32(AsU32(v[i]))) == v[i]
    {
      Low16OfWord(v[i]);
    }
  }

  lemma ScoreWordsRoundTrip(x: seq<int>, mask: seq<bool>)
    requires |x| == |mask| && InRange(x, -32768, 32767)
    ensures LowHalves(SignedWords(ScoreWords(x, mask))) == x
    ensures ValidBits(SignedWords(ScoreWords(x, mask))) == mask
  {
    forall i | 0 <= i < |x|
      ensures Low16(AsI32(ScoreWord(x[i], mask[i]))) == x[i] && Bit16(AsI32(ScoreWord(x[i], mask[i]))) == mask[i]
    {
      ScoreOfWord(x[i], mask[i]);
    }
  }

  lemma RoundTripOfConcat(a: seq<int>, b: seq<int>)
    ensures SignedWords(UnsignedWords(a + b)) == SignedWords(UnsignedWords(a)) + SignedWords(UnsignedWords(b))
  {
  }

  /** A packet that was built can be read back: its words carry exactly the planes it was built from. */
  lemma PacketRoundTrip(t: Tables, d: Descriptor, planes: seq<Plane>)
    requires EvaluateAndPack(t, d, planes).Ok?
    ensures var (inputs, outputs) := EvaluateAndPack(t, d, planes).value;
            && |inputs| == d.Planes() * d.length
            && UnpackPlanes(d, SignedWords(inputs)) == planes
  {
    var n := d.length;
    var words := SignedWords(PackedPlanes(d, planes));
    if d.op == SOFTMAX {
      ScoreWordsRoundTrip(planes[0].v, planes[1].m);
    } else if d.op == GELU {
      LowHalvesOfWords(planes[0].v);
    } else if d.op == REQUANT8 {
      WordsRoundTrip(planes[0].v);
    } else if d.op == ADD {
      AddRoundTrip(planes[0].v, planes[1].v);
    } else if d.op == LAYERNORM {
      LayerNormRoundTrip(planes[0].v, planes[1].v, planes[2].v);
    } else {
      AffineRoundTrip(planes[0].v, planes[1].v, planes[2].v);
    }
  }

  lemma AddRoundTrip(a: seq<int>, b: seq<int>)
    requires |a| == |b| && InRange(a, -32768, 32767) && InRange(b, -32768, 32767)
    ensures var words := SignedWords(UnsignedWords(a + b));
            LowHalves(words[..|a|]) == a && LowHalves(words[|a|..]) == b
  {
    RoundTripOfConcat(a, b);
    var words := SignedWords(UnsignedWords(a + b));
    assert words[..|a|] == SignedWords(UnsignedWords(a)) && words[|a|..] == SignedWords(UnsignedWords(b));
    LowHalvesOfWords(a);
    LowHalvesOfWords(b);
  }

  lemma SplitInThree(a: seq<int>, b: seq<int>, c: seq<int>)
    requires |a| == |b| == |c|
    ensures var words, n := SignedWords(UnsignedWords(a + b + c)), |a|;
            && words[..n] == SignedWords(UnsignedWords(a))
            && words[n..2 * n] == SignedWords(UnsignedWords(b))
            && words[2 * n..] == SignedWords(UnsignedWords(c))
  {
    RoundTripOfConcat(a + b, c);
    RoundTripOfConcat(a, b);
  }

  lemma LayerNormRoundTrip(a: seq<int>, b: seq<int>, c: seq<int>)
    requires |a| == |b| == |c|
    requires InRange(a, -32768, 32767) && InRange(b, -32768, 32767) && InRange(c, -32768, 32767)
    ensures var words, n := SignedWords(UnsignedWords(a + b + c)), |a|;
            LowHalves(words[..n]) == a && LowHalves(words[n..2 * n]) == b && LowHalves(words[2 * n..]) == c
  {
    SplitInThree(a, b, c);
    LowHalvesOfWords(a);
    LowHalvesOfWords(b);
    LowHalvesOfWords(c);
  }

  lemma AffineRoundTrip(a: seq<int>, b: seq<int>, c: seq<int>)
    requires |a| == |b| == |c|
    requires InRange(a, -0x8000_0000, 0x7fff_ffff) && InRange(b, -0x8000_0000, 0x7fff_ffff)
    requires InRange(c, -0x8000_0000, 0x7fff_ffff)
    ensures var words, n := SignedWords(UnsignedWords(a + b + c)), |a|;
            words[..n] == a && words[n..2 * n] == b && words[2 * n..] == c
  {
    SplitInThree(a, b, c);
    WordsRoundTrip(a);
    WordsRoundTrip(b);
    WordsRoundTrip(c);
  }

  lemma GeluIsInt16(t: Tables, raw: int)
    requires -32768 <= raw <= 32767
    ensures -32768 <= GeluValue(t, raw) <= 32767
    ensures raw >= 0 ==> 0 <= GeluValue(t, raw) <= raw
    ensures raw < 0 ==> raw <= GeluValue(t, raw) <= 0
  {
  }

  /** Every reference output is a 32-bit word and there is one per element. */
  lemma OutputsFit(t: Tables, d: Descriptor, planes: seq<Plane>)
    requires d.Valid() && IsPlanes(d, planes) && Evaluate(t, d, planes).Ok?
    ensures |Evaluate(t, d, planes).value| == d.length
    ensures InRange(Evaluate(t, d, planes).value, -32768, 32768)
  {
    if d.op == SOFTMAX {
      var x, mask := planes[0].v, planes[1].m;
      if exists i :: 0 <= i < |mask| && mask[i] {
        SoftmaxMass(t, x, mask);
      }
    } else if d.op == LAYERNORM {
      LayerNormDefined(planes[0].v, planes[1].v, planes[2].v);
    } else if d.op == GELU {
      forall i | 0 <= i < d.length
        ensures -32768 <= GeluValue(t, planes[0].v[i]) <= 32767
      {
        GeluIsInt16(t, planes[0].v[i]);
      }
    } else if d.op == AFFINE_GELU {
      var affine := AffineInt(planes[0].v, planes[1].v, planes[2].v, d.shift).value;
      forall i | 0 <= i < d.length
        ensures -32768 <= GeluValue(t, affine[i]) <= 32767
      {
        GeluIsInt16(t, affine[i]);
      }
    }
  }
}
