/**
 The fixed-width arithmetic of zynq/m4_cpu_sfpu.c.  Unsigned results are written U64(...) where the
 C expression may wrap; signed results are written I64(...) or I32(...), whose preconditions are the
 proof that the C expression cannot overflow.
 */
module FixedWidth {
  import opened Rounding

  type Int32 = x: int | -0x8000_0000 <= x < 0x8000_0000
  type Int8 = x: int | -128 <= x < 128

  predicate IsU64(x: int) {
    0 <= x < 0x1_0000_0000_0000_0000
  }

  function U64(x: int): int {
    x % 0x1_0000_0000_0000_0000
  }

  function I64(x: int): int
    requires -0x8000_0000_0000_0000 <= x < 0x8000_0000_0000_0000
  {
    x
  }

  function I32(x: int): Int32
    requires -0x8000_0000 <= x < 0x8000_0000
  {
    x
  }

  /** (int16_t)word: the low half of a 32-bit word, sign extended. */
  function Low16(word: int): int {
    var low := word % 0x1_0000;
    if low < 0x8000 then low else low - 0x1_0000
  }

  /** (((uint32_t)word) >> 16) & 1 */
  function Bit16(word: int): bool {
    ((word % 0x1_0000_0000) / 0x1_0000) % 2 == 1
  }

  function AsU32(x: int): int {
    x % 0x1_0000_0000
  }

  function AsI32(x: int): int {
    if x % 0x1_0000_0000 < 0x8000_0000 then x % 0x1_0000_0000 else x % 0x1_0000_0000 - 0x1_0000_0000
  }

  // ----- uround and sround --------------------------------------------------

  function URound(value: int, denominator: int): int
    requires IsU64(value) && 0 < denominator < 0x1_0000_0000_0000_0000
  {
    var q, r := value / denominator, value % denominator;
    U64(q + (if U64(2 * r) > denominator || (U64(2 * r) == denominator && q % 2 == 1) then 1 else 0))
  }

  lemma QuotientBounds(m: int, d: int)
    requires m >= 0 && d > 0
    ensures 0 <= m / d <= m
    ensures d >= 2 ==> 2 * (m / d) <= m
    ensures d == 1 ==> m / d == m && m % d == 0
  {
    DivMod(m, d);
    MulOrder(d, 2, m / d);
    MulOrder(d, 1, m / d);
    if d == 1 {
      assert m / 1 == m;
    }
  }

  /**
   uround is exact on precisely the inputs whose doubled remainder does not wrap.  Every denominator
   the kernel passes is far below 2^63, so it is exact there.
   */
  lemma URoundExact(value: int, denominator: int)
    requires IsU64(value) && 0 < denominator < 0x1_0000_0000_0000_0000
    ensures URound(value, denominator) == RneNat(value, denominator) <==> value % denominator < 0x8000_0000_0000_0000
    ensures denominator <= 0x8000_0000_0000_0000 ==> URound(value, denominator) == RneNat(value, denominator)
    ensures value % denominator >= 0x8000_0000_0000_0000 ==>
              URound(value, denominator) == RneNat(value, denominator) - 1
  {
    DivMod(value, denominator);
    QuotientBounds(value, denominator);
  }

  /** The smallest failing family member: the doubled remainder 2^63 wraps to zero. */
  lemma URoundWraps()
    ensures URound(0x8000_0000_0000_0000, 0x8000_0000_0000_0000 + 1) == 0
    ensures RneNat(0x8000_0000_0000_0000, 0x8000_0000_0000_0000 + 1) == 1
  {
  }

  lemma RneNatAtMost(m: int, d: int)
    requires m >= 0 && d > 0
    ensures 0 <= RneNat(m, d) <= m
  {
    QuotientBounds(m, d);
    DivMod(m, d);
  }

  function SRound(value: int, denominator: int): int
    requires -0x8000_0000_0000_0000 < value < 0x8000_0000_0000_0000 && 0 < denominator <= 0x8000_0000_0000_0000
  {
    var magnitude := if value < 0 then I64(-value) else value;
    URoundExact(magnitude, denominator);
    RneNatAtMost(magnitude, denominator);
    var rounded := I64(URound(magnitude, denominator));
    if value < 0 then I64(-rounded) else rounded
  }

  lemma SRoundIsRne(value: int, denominator: int)
    requires -0x8000_0000_0000_0000 < value < 0x8000_0000_0000_0000 && 0 < denominator <= 0x8000_0000_0000_0000
    ensures SRound(value, denominator) == Rne(value, denominator)
  {
    URoundExact(Abs(value), denominator);
  }

  /** Base-256 digits determine each other. */
  lemma DigitsDetermine(a0: int, a1: int, a2: int, a3: int, b0: int, b1: int, b2: int, b3: int)
    requires 0 <= a0 < 256 && 0 <= a1 < 256 && 0 <= a2 < 256 && 0 <= a3 < 256
    requires 0 <= b0 < 256 && 0 <= b1 < 256 && 0 <= b2 < 256 && 0 <= b3 < 256
    requires a0 + 0x100 * a1 + 0x1_0000 * a2 + 0x100_0000 * a3 == b0 + 0x100 * b1 + 0x1_0000 * b2 + 0x100_0000 * b3
    ensures a0 == b0 && a1 == b1 && a2 == b2 && a3 == b3
  {
    DigitDetermines(a0, a1 + 0x100 * a2 + 0x1_0000 * a3, b0, b1 + 0x100 * b2 + 0x1_0000 * b3);
    DigitDetermines(a1, a2 + 0x100 * a3, b1, b2 + 0x100 * b3);
    DigitDetermines(a2, a3, b2, b3);
  }

  lemma DigitDetermines(low: int, high: int, low': int, high': int)
    requires 0 <= low < 256 && 0 <= low' < 256 && low + 0x100 * high == low' + 0x100 * high'
    ensures low == low' && high == high'
  {
  }
}

/** The integer square root of the LayerNorm denominator, and its specification. */
module SquareRoot {
  import opened FixedWidth
  import opened Rounding

  ghost predicate IsFloorSqrt(n: int, root: int) {
    0 <= root && root * root <= n < (root + 1) * (root + 1)
  }

  lemma FloorSqrtUnique(n: int, p: int, q: int)
    requires IsFloorSqrt(n, p) && IsFloorSqrt(n, q)
    ensures p == q
  {
    SquareOrder(p + 1, q);
    SquareOrder(q + 1, p);
  }

  lemma SquareOrder(a: int, b: int)
    requires 0 <= a && 0 <= b
    ensures a <= b ==> a * a <= b * b
  {
    if a <= b {
      assert b * b == a * a + (b - a) * (b + a);
      assert (b - a) * (b + a) >= 0;
    }
  }

  /** math.isqrt */
  function Isqrt(n: nat): (root: int)
    ensures IsFloorSqrt(n, root)
  {
    if n == 0 then 0 else
    var below := Isqrt(n - 1);
    if (below + 1) * (below + 1) <= n then
      assert (below + 2) * (below + 2) == (below + 1) * (below + 1) + 2 * below + 3;
      below + 1
    else
      below
  }

  function Sign(x: int): int {
    if x < 0 then -1 else if x > 0 then 1 else 0
  }

  /** The high and low words of root^2, from three 64-bit products. */
  function SquareWords(root: int): (int, int)
    requires IsU64(root)
  {
    var a, b := root % 0x1_0000_0000, root / 0x1_0000_0000;
    WordsOfSquare(U64(a * a), U64(2 * a * b), b * b)
  }

  function WordsOfSquare(low: int, cross: int, top: int): (int, int) {
    var sum := U64(low + U64(cross * 0x1_0000_0000));
    (U64(top + cross / 0x1_0000_0000 + (if sum < low then 1 else 0)), sum)
  }

  /** The three partial products, with their carries, add up to the square; nothing wraps. */
  lemma WordsOfSquareExact(aa: int, cross: int, bb: int)
    requires 0 <= aa < 0x1_0000_0000_0000_0000
    requires 0 <= cross < 0x1_0000_0000_0000_0000
    requires 0 <= bb < 0x4000_0000_0000_0000
    ensures var (high, sum) := WordsOfSquare(aa, cross, bb);
            && IsU64(high) && IsU64(sum)
            && high * 0x1_0000_0000_0000_0000 + sum == bb * 0x1_0000_0000_0000_0000 + cross * 0x1_0000_0000 + aa
  {
    var c1, c0 := cross / 0x1_0000_0000, cross % 0x1_0000_0000;
    assert cross * 0x1_0000_0000 == c1 * 0x1_0000_0000_0000_0000 + c0 * 0x1_0000_0000;
    assert U64(cross * 0x1_0000_0000) == c0 * 0x1_0000_0000;
  }

  lemma SquareWordsNoWrap(root: int)
    requires 0 <= root < 0x8000_0000_0000_0000
    ensures var a, b := root % 0x1_0000_0000, root / 0x1_0000_0000;
            && 0 <= a * a < 0x1_0000_0000_0000_0000
            && 0 <= 2 * (a * b) < 0x1_0000_0000_0000_0000
            && 0 <= b * b < 0x4000_0000_0000_0000
            && SquareWords(root) == WordsOfSquare(a * a, 2 * (a * b), b * b)
  {
    var a, b := root % 0x1_0000_0000, root / 0x1_0000_0000;
    ProductBound(a, a, 0xffff_ffff, 0xffff_ffff);
    ProductBound(b, b, 0x7fff_ffff, 0x7fff_ffff);
    ProductBound(a, b, 0xffff_ffff, 0x7fff_ffff);
    Doubled(a, b);
    U64Small(a * a);
    U64Small(2 * (a * b));
  }

  lemma U64Small(x: int)
    requires IsU64(x)
    ensures U64(x) == x
  {
  }

  lemma SquareWordsExact(root: int)
    requires 0 <= root < 0x8000_0000_0000_0000
    ensures var (high, sum) := SquareWords(root);
            IsU64(high) && IsU64(sum) && high * 0x1_0000_0000_0000_0000 + sum == root * root
  {
    var a, b := root % 0x1_0000_0000, root / 0x1_0000_0000;
    SquareWordsNoWrap(root);
    WordsOfSquareExact(a * a, 2 * (a * b), b * b);
    SquareOfSplit(a, b);
    assert root == b * 0x1_0000_0000 + a;
  }

  lemma Doubled(a: int, b: int)
    ensures 2 * a * b == 2 * (a * b)
  {
  }

  /** The two 64-bit halves are compared as the one 128-bit square they stand for. */
  method SquareCompare(root: int, hi: int, lo: int) returns (order: int)
    requires 0 <= root < 0x8000_0000_0000_0000 && IsU64(hi) && IsU64(lo)
    ensures order == Sign(root * root - (hi * 0x1_0000_0000_0000_0000 + lo))
  {
    SquareWordsExact(root);
    var (high, sum) := SquareWords(root);
    if high != hi {
      return if high < hi then -1 else 1;
    }
    return if sum < lo then -1 else if sum > lo then 1 else 0;
  }

  lemma SquareOfSplit(a: int, b: int)
    ensures (b * 0x1_0000_0000 + a) * (b * 0x1_0000_0000 + a)
         == b * b * 0x1_0000_0000_0000_0000 + 2 * (a * b) * 0x1_0000_0000 + a * a
  {
    SquareOfSum(b * 0x1_0000_0000, a);
  }

  lemma SquareOfSum(x: int, y: int)
    ensures (x + y) * (x + y) == x * x + 2 * (x * y) + y * y
  {
  }

  lemma ProductBound(x: int, y: int, a: int, b: int)
    requires 0 <= x <= a && 0 <= y <= b
    ensures 0 <= x * y <= a * b
  {
    assert x * y <= a * y;
    assert a * y <= a * b;
  }

  /** The radicand variance * 2^24 + epsilon as two 64-bit words, carry included. */
  method RadicandWords(variance: int, epsilon: int) returns (hi: int, sum: int)
    requires IsU64(variance) && IsU64(epsilon)
    ensures IsU64(hi) && IsU64(sum) && hi < 0x200_0000
    ensures hi * 0x1_0000_0000_0000_0000 + sum == variance * 0x100_0000 + epsilon
  {
    var lo := U64(variance * 0x100_0000);
    hi := variance / 0x100_0000_0000;
    sum := U64(lo + epsilon);
    hi := U64(hi + if sum < lo then 1 else 0);
    RadicandCarry(variance, epsilon);
  }

  /**
   The two correcting loops.  The seed is any number below 2^63 - 1; the loops end at the exact
   floor of the square root whichever one it is.
   */
  method SearchRoot(hi: int, lo: int, seed: int) returns (root: int)
    requires IsU64(hi) && IsU64(lo) && hi < 0x200_0000 && 0 <= seed < 0x7fff_ffff_ffff_ffff
    ensures IsFloorSqrt(hi * 0x1_0000_0000_0000_0000 + lo, root)
  {
    ghost var radicand := hi * 0x1_0000_0000_0000_0000 + lo;
    root := seed;
    var order := SquareCompare(root, hi, lo);
    while order > 0
      invariant 0 <= root <= seed
      invariant order > 0 <==> root * root > radicand
      decreases root
    {
      root := root - 1;
      order := SquareCompare(root, hi, lo);
    }
    RootBelow(radicand, root);
    order := SquareCompare(root + 1, hi, lo);
    while order <= 0
      invariant 0 <= root < 0x2000_0000_0000_0000
      invariant root * root <= radicand
      invariant order <= 0 <==> (root + 1) * (root + 1) <= radicand
      decreases radicand - root
    {
      root := root + 1;
      RootBelow(radicand, root);
      order := SquareCompare(root + 1, hi, lo);
    }
  }

  /**
   The denominator search.  The C code seeds it with a floating-point square root; the result is
   math.isqrt of the same radicand for every seed.
   */
  method LnDenominator(variance: int, epsilon: int, seed: int) returns (root: int)
    requires IsU64(variance) && IsU64(epsilon) && 0 <= seed < 0x7fff_ffff_ffff_ffff
    ensures IsFloorSqrt(variance * 0x100_0000 + epsilon, root)
    ensures root == Isqrt(variance * 0x100_0000 + epsilon)
  {
    var hi, sum := RadicandWords(variance, epsilon);
    root := SearchRoot(hi, sum, seed);
    FloorSqrtUnique(variance * 0x100_0000 + epsilon, root, Isqrt(variance * 0x100_0000 + epsilon));
  }

  lemma RadicandCarry(variance: int, epsilon: int)
    requires IsU64(variance) && IsU64(epsilon)
    ensures var lo := U64(variance * 0x100_0000);
            var sum := U64(lo + epsilon);
            var hi := variance / 0x100_0000_0000 + if sum < lo then 1 else 0;
            && 0 <= hi < 0x200_0000 && U64(hi) == hi && IsU64(sum)
            && hi * 0x1_0000_0000_0000_0000 + sum == variance * 0x100_0000 + epsilon
  {
    var h, l := variance / 0x100_0000_0000, variance % 0x100_0000_0000;
    assert variance * 0x100_0000 == h * 0x1_0000_0000_0000_0000 + l * 0x100_0000;
    LowWord(h, l * 0x100_0000);
  }

  lemma LowWord(h: int, l: int)
    requires IsU64(l)
    ensures U64(h * 0x1_0000_0000_0000_0000 + l) == l
  {
  }

  lemma RootBelow(radicand: int, root: int)
    requires 0 <= root && root * root <= radicand < 0x200_0000_0000_0000_0000_0000
    ensures root < 0x2000_0000_0000_0000 && root <= radicand
  {
    SquareOrder(0x2000_0000_0000_0000, root);
    SquareOrder(1, root);
    if root > 0 {
      MulOrder(root, 1, root);
    }
  }
}
