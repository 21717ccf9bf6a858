/**
 The GEMM stream: A with rows padded to whole words, then B with rows of sixteen bytes.  Three
 packers write it; the stream determines both matrices, and the output packing inverts.
 */
module GemmPackets {
  import opened Outcomes
  import opened Rounding
  import opened FixedWidth
  import opened Matrices

  const WIDE_RESULT := 0x100

  datatype GemmDescriptor = GemmDescriptor(m: int, n: int, k: int, flags: int) {
    predicate Valid() {
      && 1 <= m <= 16 && 1 <= n <= 16
      && ((flags == 0 && 1 <= k <= 768) || (flags == WIDE_RESULT && 1 <= k <= 3072))
    }

    function InputWords(): int {
      m * ((k + 3) / 4) + k * 4
    }
  }

  // ----- the stream -----------------------------------------------------------------

  function Stride(k: nat): nat {
    (k + 3) / 4 * 4
  }

  /** Rows extended with zeros. */
  function Padded(a: Matrix, rows: nat, columns: nat, width: nat): (p: Matrix)
    requires IsMatrix(a, rows, columns) && columns <= width
    ensures IsMatrix(p, rows, width)
    ensures forall r, c :: 0 <= r < rows && 0 <= c < width ==> p[r][c] == if c < columns then a[r][c] else 0
  {
    seq(rows, r requires 0 <= r < rows =>
      seq(width, c requires 0 <= c < width => if c < columns then a[r][c] else 0))
  }

  /** The bytes of one input packet; the tile is already sixteen columns wide. */
  function PacketBytes(a: Matrix, tile: Matrix, m: nat, k: nat): (bytes: seq<int>)
    requires IsMatrix(a, m, k) && IsMatrix(tile, k, 16)
    ensures |bytes| == m * Stride(k) + k * 16
  {
    Flat(Padded(a, m, k, Stride(k)), m, Stride(k)) + Flat(tile, k, 16)
  }

  function Byte(v: int): int {
    v % 0x100
  }

  /** Four little-endian byte lanes. */
  function Word(b0: int, b1: int, b2: int, b3: int): int {
    Byte(b0) + 0x100 * Byte(b1) + 0x1_0000 * Byte(b2) + 0x100_0000 * Byte(b3)
  }

  function WordAt(bytes: seq<int>, i: nat): int
    requires 4 * i + 3 < |bytes|
  {
    Word(bytes[4 * i], bytes[4 * i + 1], bytes[4 * i + 2], bytes[4 * i + 3])
  }

  function WordsOf(bytes: seq<int>): (words: seq<int>)
    ensures |words| == |bytes| / 4
  {
    seq(|bytes| / 4, i requires 0 <= i < |bytes| / 4 => WordAt(bytes, i))
  }

  ghost predicate IsBytes(s: seq<int>) {
    forall i :: 0 <= i < |s| ==> -128 <= s[i] < 128
  }

  lemma WordDetermines(a0: int, a1: int, a2: int, a3: int, b0: int, b1: int, b2: int, b3: int)
    requires Word(a0, a1, a2, a3) == Word(b0, b1, b2, b3)
    ensures Byte(a0) == Byte(b0) && Byte(a1) == Byte(b1) && Byte(a2) == Byte(b2) && Byte(a3) == Byte(b3)
  {
    DigitsDetermine(Byte(a0), Byte(a1), Byte(a2), Byte(a3), Byte(b0), Byte(b1), Byte(b2), Byte(b3));
  }

  lemma ByteDetermines(a: int, b: int)
    requires -128 <= a < 128 && -128 <= b < 128 && Byte(a) == Byte(b)
    ensures a == b
  {
  }

  lemma WordsInjective(s: seq<int>, t: seq<int>)
    requires IsBytes(s) && IsBytes(t) && |s| == |t| && |s| % 4 == 0
    requires WordsOf(s) == WordsOf(t)
    ensures s == t
  {
    forall i | 0 <= i < |s|
      ensures s[i] == t[i]
    {
      var w := i / 4;
      assert WordsOf(s)[w] == WordAt(s, w) && WordsOf(t)[w] == WordAt(t, w);
      WordDetermines(s[4 * w], s[4 * w + 1], s[4 * w + 2], s[4 * w + 3],
                     t[4 * w], t[4 * w + 1], t[4 * w + 2], t[4 * w + 3]);
      ByteDetermines(s[i], t[i]);
    }
  }

  lemma PacketWordCount(m: nat, k: nat)
    ensures m * Stride(k) + k * 16 == 4 * (m * ((k + 3) / 4) + k * 4)
  {
    assert m * ((k + 3) / 4 * 4) == 4 * (m * ((k + 3) / 4));
  }

  lemma FlatIsBytes(a: Matrix, rows: nat, columns: nat)
    requires IsInt8Matrix(a, rows, columns)
    ensures IsBytes(Flat(a, rows, columns))
  {
    forall i | 0 <= i < rows * columns
      ensures -128 <= Flat(a, rows, columns)[i] < 128
    {
      CellOfIndex(columns, rows, i);
    }
  }

  lemma PacketIsBytes(a: Matrix, tile: Matrix, m: nat, k: nat)
    requires IsInt8Matrix(a, m, k) && IsInt8Matrix(tile, k, 16)
    ensures IsBytes(PacketBytes(a, tile, m, k))
  {
    FlatIsBytes(Padded(a, m, k, Stride(k)), m, Stride(k));
    FlatIsBytes(tile, k, 16);
  }

  /** The word stream of given dimensions determines A and B uniquely. */
  lemma StreamDetermines(a: Matrix, b: Matrix, a': Matrix, b': Matrix, m: nat, k: nat, n: nat)
    requires IsInt8Matrix(a, m, k) && IsInt8Matrix(b, k, n) && n <= 16
    requires IsInt8Matrix(a', m, k) && IsInt8Matrix(b', k, n)
    requires WordsOf(PacketBytes(a, Padded(b, k, n, 16), m, k)) == WordsOf(PacketBytes(a', Padded(b', k, n, 16), m, k))
    ensures a == a' && b == b'
  {
    TileStreamDetermines(a, Padded(b, k, n, 16), a', Padded(b', k, n, 16), m, k);
    PaddedDetermines(b, b', k, n, 16);
  }

  lemma TileStreamDetermines(a: Matrix, tile: Matrix, a': Matrix, tile': Matrix, m: nat, k: nat)
    requires IsInt8Matrix(a, m, k) && IsInt8Matrix(tile, k, 16)
    requires IsInt8Matrix(a', m, k) && IsInt8Matrix(tile', k, 16)
    requires WordsOf(PacketBytes(a, tile, m, k)) == WordsOf(PacketBytes(a', tile', m, k))
    ensures a == a' && tile == tile'
  {
    PacketIsBytes(a, tile, m, k);
    PacketIsBytes(a', tile', m, k);
    PacketWordCount(m, k);
    ExactQuarter(m * Stride(k) + k * 16, m * ((k + 3) / 4) + k * 4);
    WordsInjective(PacketBytes(a, tile, m, k), PacketBytes(a', tile', m, k));
    BytesDetermine(a, tile, a', tile', m, k, Stride(k));
  }

  lemma BytesDetermine(a: Matrix, tile: Matrix, a': Matrix, tile': Matrix, m: nat, k: nat, stride: nat)
    requires IsMatrix(a, m, k) && IsMatrix(tile, k, 16) && IsMatrix(a', m, k) && IsMatrix(tile', k, 16) && k <= stride
    requires Flat(Padded(a, m, k, stride), m, stride) + Flat(tile, k, 16)
          == Flat(Padded(a', m, k, stride), m, stride) + Flat(tile', k, 16)
    ensures a == a' && tile == tile'
  {
    var p, p' := Padded(a, m, k, stride), Padded(a', m, k, stride);
    PartsEqual(Flat(p, m, stride), Flat(tile, k, 16), Flat(p', m, stride), Flat(tile', k, 16));
    FlatInjective(p, p', m, stride);
    FlatInjective(tile, tile', k, 16);
    PaddedDetermines(a, a', m, k, stride);
  }

  lemma PartsEqual(x: seq<int>, y: seq<int>, x': seq<int>, y': seq<int>)
    requires x + y == x' + y' && |x| == |x'|
    ensures x == x' && y == y'
  {
    assert (x + y)[..|x|] == x && (x + y)[|x|..] == y && (x' + y')[..|x|] == x' && (x' + y')[|x|..] == y';
  }

  lemma PaddedDetermines(a: Matrix, b: Matrix, rows: nat, columns: nat, width: nat)
    requires IsMatrix(a, rows, columns) && IsMatrix(b, rows, columns) && columns <= width
    requires Padded(a, rows, columns, width) == Padded(b, rows, columns, width)
    ensures a == b
  {
    forall r | 0 <= r < rows
      ensures a[r] == b[r]
    {
      forall c | 0 <= c < columns
        ensures a[r][c] == b[r][c]
      {
        assert Padded(a, rows, columns, width)[r][c] == a[r][c];
        assert Padded(b, rows, columns, width)[r][c] == b[r][c];
      }
    }
  }

  /** Row by row A comes first, each row padded with zeros to whole words. */
  lemma StreamRow(a: Matrix, tile: Matrix, m: nat, k: nat, r: nat, c: nat)
    requires IsMatrix(a, m, k) && IsMatrix(tile, k, 16) && r < m && c < (k + 3) / 4 * 4
    ensures 0 <= r * ((k + 3) / 4 * 4) + c < |PacketBytes(a, tile, m, k)|
    ensures PacketBytes(a, tile, m, k)[r * ((k + 3) / 4 * 4) + c] == if c < k then a[r][c] else 0
  {
    FlatEntry(a, m, k, Stride(k), r, c);
  }

  /** Row by row the tile comes behind it, and nothing else. */
  lemma StreamTile(a: Matrix, tile: Matrix, m: nat, k: nat, j: nat, c: nat)
    requires IsMatrix(a, m, k) && IsMatrix(tile, k, 16) && j < k && c < 16
    ensures |PacketBytes(a, tile, m, k)| == m * ((k + 3) / 4 * 4) + k * 16
    ensures 0 <= m * ((k + 3) / 4 * 4) + j * 16 + c < |PacketBytes(a, tile, m, k)|
    ensures PacketBytes(a, tile, m, k)[m * ((k + 3) / 4 * 4) + j * 16 + c] == tile[j][c]
  {
    assert Cell(16, j, c) == j * 16 + c;
    assert Flat(tile, k, 16)[j * 16 + c] == tile[j][c];
  }

  /** Lane l of word i is byte 4 i + l, least significant first. */
  lemma WordLanes(bytes: seq<int>, i: nat)
    requires 4 * i + 3 < |bytes|
    ensures i < |WordsOf(bytes)|
    ensures WordsOf(bytes)[i] % 0x100 == bytes[4 * i] % 0x100
    ensures WordsOf(bytes)[i] / 0x100 % 0x100 == bytes[4 * i + 1] % 0x100
    ensures WordsOf(bytes)[i] / 0x1_0000 % 0x100 == bytes[4 * i + 2] % 0x100
    ensures WordsOf(bytes)[i] / 0x100_0000 == bytes[4 * i + 3] % 0x100
  {
    var a, b, c, d := Byte(bytes[4 * i]), Byte(bytes[4 * i + 1]), Byte(bytes[4 * i + 2]), Byte(bytes[4 * i + 3]);
    var high := b + 0x100 * c + 0x1_0000 * d;
    assert WordsOf(bytes)[i] == a + 0x100 * high;
    assert (a + 0x100 * high) / 0x1_0000 == high / 0x100 == c + 0x100 * d;
    assert (a + 0x100 * high) / 0x100_0000 == high / 0x1_0000 == d;
  }

  // ----- pack_gemm_into ----------------------------------------------------------------

  /** Fills the byte view of a transfer buffer in place; returns the number of words written. */
  method PackGemmInto(target: array<int>, a: Matrix, tile: Matrix, m: nat, k: nat) returns (r: Result<int>)
    requires IsInt8Matrix(a, m, k) && IsInt8Matrix(tile, k, 16)
    modifies target
    ensures r.Ok? <==> 1 <= m <= 16 && 1 <= k <= 3072 && |PacketBytes(a, tile, m, k)| <= target.Length
    ensures r.Ok? ==> 4 * r.value == |PacketBytes(a, tile, m, k)| <= target.Length
    ensures r.Ok? ==> target[..4 * r.value] == PacketBytes(a, tile, m, k)
    ensures r.Ok? ==> target[4 * r.value..] == old(target[4 * r.value..])
    ensures r.Err? ==> r.error == ValueError && target[..] == old(target[..])
  {
    if !(1 <= m <= 16) || !(1 <= k <= 3072) {
      return Err(ValueError);
    }
    var first := m * Stride(k);
    var words := (first + 16 * k) / 4;
    PacketWordCount(m, k);
    MulOrder(m, 0, Stride(k));
    ExactQuarter(first + k * 16, m * ((k + 3) / 4) + k * 4);
    if target.Length < 4 * words {
      return Err(ValueError);
    }
    ghost var start := target[..];
    FillRows(target, first, a, m, k);
    FillTile(target, first, tile, k);
    WholePacket(start, target[..], Flat(Padded(a, m, k, Stride(k)), m, Stride(k)), Flat(tile, k, 16));
    return Ok(words);
  }

  lemma ExactQuarter(x: int, q: int)
    requires x == 4 * q
    ensures x % 4 == 0 && 4 * (x / 4) == x
  {
  }

  lemma WholePacket(s: seq<int>, t: seq<int>, x: seq<int>, y: seq<int>)
    requires |s| == |t| && |x| + |y| <= |t|
    requires t[..|x|] == x && t[|x|..|x| + |y|] == y && t[|x| + |y|..] == s[|x| + |y|..]
    ensures t[..|x + y|] == x + y && t[|x + y|..] == s[|x + y|..]
  {
    assert t[..|x| + |y|] == t[..|x|] + t[|x|..|x| + |y|];
  }

  /** byte_target[:m*stride] viewed as rows: filled with zeros, then overwritten in the first k columns. */
  method FillRows(target: array<int>, first: nat, a: Matrix, m: nat, k: nat)
    requires IsMatrix(a, m, k) && 1 <= k && first == m * Stride(k) && first <= target.Length
    modifies target
    ensures target[..first] == Flat(Padded(a, m, k, Stride(k)), m, Stride(k))
    ensures target[first..] == old(target[first..])
  {
    var stride := Stride(k);
    forall i | 0 <= i < first
      ensures 0 <= i % stride < stride && 0 <= i / stride < m
    {
      CellOfIndex(stride, m, i);
    }
    forall i | 0 <= i < first {
      target[i] := 0;
    }
    forall i | 0 <= i < first && i % stride < k {
      target[i] := a[i / stride][i % stride];
    }
  }

  method FillTile(target: array<int>, first: nat, tile: Matrix, k: nat)
    requires IsMatrix(tile, k, 16) && first + k * 16 <= target.Length
    modifies target
    ensures target[first..first + k * 16] == Flat(tile, k, 16)
    ensures target[..first] == old(target[..first]) && target[first + k * 16..] == old(target[first + k * 16..])
  {
    forall i | first <= i < first + k * 16 {
      target[i] := tile[(i - first) / 16][(i - first) % 16];
    }
  }

  // ----- pack_input_words ---------------------------------------------------------------

  /** _pack_i8_word: lanes or-ed in at increasing byte offsets. */
  method PackInt8Word(lanes: seq<int>) returns (word: int)
    requires |lanes| == 4
    ensures word == Word(lanes[0], lanes[1], lanes[2], lanes[3])
  {
    word := 0;
    var scale := 1;
    for lane := 0 to 4
      invariant scale == if lane == 0 then 1 else if lane == 1 then 0x100 else if lane == 2 then 0x1_0000
                         else if lane == 3 then 0x100_0000 else 0x1_0000_0000
      invariant word == (if lane > 0 then Byte(lanes[0]) else 0) + (if lane > 1 then 0x100 * Byte(lanes[1]) else 0)
                        + (if lane > 2 then 0x1_0000 * Byte(lanes[2]) else 0)
                        + (if lane > 3 then 0x100_0000 * Byte(lanes[3]) else 0)
    {
      word := word + Byte(lanes[lane]) * scale;
      scale := scale * 0x100;
    }
  }

  /** The four lanes of one row from column base on, zero beyond the last column. */
  function Lanes(row: seq<int>, base: nat): (l: seq<int>)
    ensures |l| == 4
  {
    seq(4, i requires 0 <= i < 4 => if base + i < |row| then row[base + i] else 0)
  }

  /** Words of a matrix whose rows are padded to a whole number of words. */
  function RowWords(a: Matrix, rows: nat, columns: nat, wordsPerRow: nat): (w: seq<int>)
    requires IsMatrix(a, rows, columns) && columns <= 4 * wordsPerRow
    ensures |w| == rows * wordsPerRow
  {
    Flat(WordMatrix(a, rows, columns, wordsPerRow), rows, wordsPerRow)
  }

  function WordMatrix(a: Matrix, rows: nat, columns: nat, wordsPerRow: nat): (w: Matrix)
    requires IsMatrix(a, rows, columns)
    ensures IsMatrix(w, rows, wordsPerRow)
  {
    seq(rows, r requires 0 <= r < rows => seq(wordsPerRow, c requires 0 <= c < wordsPerRow => LaneWord(a[r], 4 * c)))
  }

  function LaneWord(row: seq<int>, base: nat): int {
    Word(Lanes(row, base)[0], Lanes(row, base)[1], Lanes(row, base)[2], Lanes(row, base)[3])
  }

  /** One nested packing loop: rows outside, words of four lanes inside, each appended. */
  method AppendRows(words: seq<int>, a: Matrix, rows: nat, columns: nat, wordsPerRow: nat) returns (r: seq<int>)
    requires IsMatrix(a, rows, columns) && columns <= 4 * wordsPerRow
    ensures r == words + RowWords(a, rows, columns, wordsPerRow)
  {
    r := words;
    ghost var all := RowWords(a, rows, columns, wordsPerRow);
    for row := 0 to rows
      invariant 0 <= row * wordsPerRow <= |all|
      invariant r == words + all[..row * wordsPerRow]
    {
      MulOrder(rows, row + 1, wordsPerRow);
      assert (row + 1) * wordsPerRow == row * wordsPerRow + wordsPerRow;
      for c := 0 to wordsPerRow
        invariant r == words + all[..row * wordsPerRow + c]
      {
        assert all[Cell(wordsPerRow, row, c)] == LaneWord(a[row], 4 * c);
        var word := PackInt8Word(Lanes(a[row], 4 * c));
        r := r + [word];
      }
    }
  }

  lemma RowWordsAreFlatWords(a: Matrix, rows: nat, columns: nat, wordsPerRow: nat)
    requires IsMatrix(a, rows, columns) && columns <= 4 * wordsPerRow
    ensures WordsOf(Flat(Padded(a, rows, columns, 4 * wordsPerRow), rows, 4 * wordsPerRow))
         == RowWords(a, rows, columns, wordsPerRow)
  {
    var width := 4 * wordsPerRow;
    var p := Padded(a, rows, columns, width);
    assert rows * width == 4 * (rows * wordsPerRow);
    forall i | 0 <= i < rows * wordsPerRow
      ensures WordAt(Flat(p, rows, width), i) == RowWords(a, rows, columns, wordsPerRow)[i]
    {
      CellOfIndex(wordsPerRow, rows, i);
      WordOfRow(a, rows, columns, wordsPerRow, i, i / wordsPerRow, i % wordsPerRow);
    }
  }

  lemma WordOfRow(a: Matrix, rows: nat, columns: nat, wordsPerRow: nat, i: nat, r: nat, c: nat)
    requires IsMatrix(a, rows, columns) && columns <= 4 * wordsPerRow && r < rows && c < wordsPerRow
    requires i == r * wordsPerRow + c
    ensures var f := Flat(Padded(a, rows, columns, 4 * wordsPerRow), rows, 4 * wordsPerRow);
            4 * i + 3 < |f| && WordAt(f, i) == LaneWord(a[r], 4 * c)
  {
    var width := 4 * wordsPerRow;
    FourTimes(r, wordsPerRow, c);
    LanesOfFlat(a, rows, columns, width, r, 4 * c);
    WordOfLanes(Flat(Padded(a, rows, columns, width), rows, width), i, Lanes(a[r], 4 * c));
  }

  lemma FourTimes(r: nat, w: nat, c: nat)
    ensures Cell(4 * w, r, 4 * c) == 4 * (r * w + c)
  {
    assert r * (4 * w) == 4 * (r * w);
  }

  lemma WordOfLanes(f: seq<int>, i: nat, lanes: seq<int>)
    requires 4 * i + 3 < |f| && |lanes| == 4 && forall l :: 0 <= l < 4 ==> f[4 * i + l] == lanes[l]
    ensures WordAt(f, i) == Word(lanes[0], lanes[1], lanes[2], lanes[3])
  {
  }

  lemma LanesOfFlat(a: Matrix, rows: nat, columns: nat, width: nat, r: nat, base: nat)
    requires IsMatrix(a, rows, columns) && columns <= width && r < rows && base + 3 < width
    ensures var f, i := Flat(Padded(a, rows, columns, width), rows, width), Cell(width, r, base);
            0 <= i && i + 3 < |f| && forall l :: 0 <= l < 4 ==> f[i + l] == Lanes(a[r], base)[l]
  {
    FlatEntry(a, rows, columns, width, r, base);
    FlatEntry(a, rows, columns, width, r, base + 1);
    FlatEntry(a, rows, columns, width, r, base + 2);
    FlatEntry(a, rows, columns, width, r, base + 3);
  }

  lemma FlatEntry(a: Matrix, rows: nat, columns: nat, width: nat, r: nat, c: nat)
    requires IsMatrix(a, rows, columns) && columns <= width && r < rows && c < width
    ensures 0 <= r * width && r * width + c < rows * width
    ensures Flat(Padded(a, rows, columns, width), rows, width)[r * width + c] == if c < columns then a[r][c] else 0
  {
    CellRange(width, rows, r, c);
    MulOrder(r, 0, width);
    var f, i := Flat(Padded(a, rows, columns, width), rows, width), Cell(width, r, c);
    assert f[i] == Padded(a, rows, columns, width)[r][c];
  }

  lemma WordsOfConcat(s: seq<int>, t: seq<int>)
    requires |s| % 4 == 0
    ensures WordsOf(s + t) == WordsOf(s) + WordsOf(t)
  {
    var n := |s| / 4;
    forall i | 0 <= i < |s + t| / 4
      ensures WordsOf(s + t)[i] == (WordsOf(s) + WordsOf(t))[i]
    {
      if i >= n {
        assert WordAt(s + t, i) == WordAt(t, i - n);
      }
    }
  }

  /** pack_input_words: exactly the words of the packet with B padded to sixteen columns. */
  method PackInputWords(d: GemmDescriptor, a: Matrix, b: Matrix) returns (r: Result<seq<int>>)
    ensures r.Ok? <==> d.Valid() && d.flags == 0 && IsInt8Matrix(a, d.m, d.k) && IsInt8Matrix(b, d.k, d.n)
    ensures r.Ok? ==> r.value == WordsOf(PacketBytes(a, Padded(b, d.k, d.n, 16), d.m, d.k))
    ensures r.Ok? ==> |r.value| == d.InputWords()
  {
    if !d.Valid() || d.flags != 0 || !IsInt8Matrix(a, d.m, d.k) || !IsInt8Matrix(b, d.k, d.n) {
      return Err(ValueError);
    }
    var words := AppendRows([], a, d.m, d.k, (d.k + 3) / 4);
    words := AppendRows(words, b, d.k, d.n, 4);
    PacketSplits(a, b, d.m, d.k, d.n);
    assert [] + RowWords(a, d.m, d.k, (d.k + 3) / 4) == RowWords(a, d.m, d.k, (d.k + 3) / 4);
    PacketWordCount(d.m, d.k);
    if |words| != d.InputWords() {
      return Err(AssertionError);
    }
    return Ok(words);
  }

  lemma PacketSplits(a: Matrix, b: Matrix, m: nat, k: nat, n: nat)
    requires IsMatrix(a, m, k) && IsMatrix(b, k, n) && n <= 16
    ensures WordsOf(PacketBytes(a, Padded(b, k, n, 16), m, k))
         == RowWords(a, m, k, (k + 3) / 4) + RowWords(b, k, n, 4)
  {
    RowWordsAreFlatWords(a, m, k, (k + 3) / 4);
    RowWordsAreFlatWords(b, k, n, 4);
    assert m * Stride(k) == 4 * (m * ((k + 3) / 4));
    WordsOfConcat(Flat(Padded(a, m, k, Stride(k)), m, Stride(k)), Flat(Padded(b, k, n, 16), k, 16));
  }

  // ----- pack_input_v3 ---------------------------------------------------------------------

  function Rows(p: array2<int>): (s: Matrix)
    reads p
    ensures IsMatrix(s, p.Length0, p.Length1)
  {
    seq(p.Length0, r requires 0 <= r < p.Length0 reads p =>
          seq(p.Length1, c requires 0 <= c < p.Length1 reads p => p[r, c]))
  }

  /** A zero array with a matrix copied into its left columns. */
  method ZeroPadded(a: Matrix, rows: nat, columns: nat, width: nat) returns (padded: array2<int>)
    requires IsMatrix(a, rows, columns) && columns <= width
    ensures fresh(padded) && padded.Length0 == rows && padded.Length1 == width
    ensures Rows(padded) == Padded(a, rows, columns, width)
  {
    padded := new int[rows, width]((r, c) => 0);
    forall r, c | 0 <= r < rows && 0 <= c < columns {
      padded[r, c] := a[r][c];
    }
    forall r | 0 <= r < rows
      ensures Rows(padded)[r] == Padded(a, rows, columns, width)[r]
    {
    }
  }

  /** pack_input_v3 fills two padded arrays and views their bytes as words; it writes the same stream. */
  method PackInputV3(d: GemmDescriptor, a: Matrix, b: Matrix) returns (r: Result<seq<int>>)
    ensures r.Ok? <==> d.Valid() && IsInt8Matrix(a, d.m, d.k) && IsInt8Matrix(b, d.k, d.n)
    ensures r.Ok? ==> r.value == WordsOf(PacketBytes(a, Padded(b, d.k, d.n, 16), d.m, d.k))
    ensures r.Ok? ==> |r.value| == d.InputWords()
  {
    if !d.Valid() || !IsInt8Matrix(a, d.m, d.k) || !IsInt8Matrix(b, d.k, d.n) {
      return Err(ValueError);
    }
    var paddedA := ZeroPadded(a, d.m, d.k, Stride(d.k));
    var paddedB := ZeroPadded(b, d.k, d.n, 16);
    PacketWordCount(d.m, d.k);
    return Ok(WordsOf(Flat(Rows(paddedA), d.m, Stride(d.k)) + Flat(Rows(paddedB), d.k, 16)));
  }

  /** On a zero-padded tile the driver's in-place packer leaves the words the two reference packers build. */
  lemma PackersAgree(target: seq<int>, a: Matrix, b: Matrix, m: nat, k: nat, n: nat)
    requires IsMatrix(a, m, k) && IsMatrix(b, k, n) && n <= 16
    requires target == PacketBytes(a, Padded(b, k, n, 16), m, k)
    ensures |WordsOf(target)| == m * ((k + 3) / 4) + k * 4
    ensures WordsOf(target) == RowWords(a, m, k, (k + 3) / 4) + RowWords(b, k, n, 4)
  {
    PacketWordCount(m, k);
    PacketSplits(a, b, m, k, n);
  }

  // ----- output packets -----------------------------------------------------------------------

  function OutputLane(result: Matrix, n: nat, row: nat, column: nat): int
    requires row < |result| && |result[row]| == n
  {
    if column < n then result[row][column] else 0
  }

  function OutputWord(lo: int, hi: int): int {
    lo % 0x1_0000 + 0x1_0000 * (hi % 0x1_0000)
  }

  function HighHalf(word: int): int {
    Low16(word / 0x1_0000)
  }

  predicate IsInt16Matrix(a: Matrix, rows: nat, columns: nat) {
    IsMatrix(a, rows, columns) && forall r, c :: 0 <= r < rows && 0 <= c < columns ==> -32768 <= a[r][c] <= 32767
  }

  ghost predicate IsOutputWord(words: seq<int>, result: Matrix, n: nat, row: nat, p: nat)
    requires row < |result| && |result[row]| == n
  {
    && row * 8 + p < |words|
    && words[row * 8 + p] == OutputWord(OutputLane(result, n, row, 2 * p), OutputLane(result, n, row, 2 * p + 1))
  }

  /** Two 16-bit lanes a word, eight words a row. */
  ghost predicate IsOutputPacket(words: seq<int>, result: Matrix, m: nat, n: nat)
    requires IsMatrix(result, m, n)
  {
    && |words| == m * 8
    && forall row, p :: 0 <= row < m && 0 <= p < 8 ==> IsOutputWord(words, result, n, row, p)
  }

  /** pack_output_words: rows outside, pairs of lanes inside, each word appended. */
  method PackOutputWords(d: GemmDescriptor, result: Matrix) returns (r: Result<seq<int>>)
    ensures r.Ok? <==> d.Valid() && d.flags == 0 && IsInt16Matrix(result, d.m, d.n)
    ensures r.Ok? ==> IsOutputPacket(r.value, result, d.m, d.n)
  {
    if !d.Valid() || d.flags != 0 || !IsInt16Matrix(result, d.m, d.n) {
      return Err(ValueError);
    }
    var words, n := [], d.n;
    for row := 0 to d.m
      invariant |words| == row * 8
      invariant forall r, p :: 0 <= r < row && 0 <= p < 8 ==>
                  words[r * 8 + p] == OutputWord(OutputLane(result, n, r, 2 * p), OutputLane(result, n, r, 2 * p + 1))
    {
      for p := 0 to 8
        invariant |words| == row * 8 + p
        invariant forall r, q :: 0 <= r <= row && 0 <= q < 8 && (r < row || q < p) ==>
                    words[r * 8 + q] == OutputWord(OutputLane(result, n, r, 2 * q), OutputLane(result, n, r, 2 * q + 1))
      {
        words := words + [OutputWord(OutputLane(result, n, row, 2 * p), OutputLane(result, n, row, 2 * p + 1))];
      }
    }
    return Ok(words);
  }

  lemma HalvesOfWord(lo: int, hi: int)
    requires -32768 <= lo <= 32767 && -32768 <= hi <= 32767
    ensures Low16(OutputWord(lo, hi)) == lo && HighHalf(OutputWord(lo, hi)) == hi
  {
    var l, h := lo % 0x1_0000, hi % 0x1_0000;
    var word := l + 0x1_0000 * h;
    assert word % 0x1_0000 == l && word / 0x1_0000 == h;
  }

  /** unpack_output_words: decodes lane by lane with a running index and keeps the active columns. */
  method UnpackOutputWords(d: GemmDescriptor, words: seq<int>) returns (r: Result<Matrix>)
    ensures r.Ok? <==> d.Valid() && d.flags == 0 && |words| == d.m * 8
    ensures r.Ok? ==> IsMatrix(r.value, d.m, d.n)
    ensures r.Ok? ==> forall i, j :: 0 <= i < d.m && 0 <= j < d.n ==> r.value[i][j] == Unpacked(words, i, j)
  {
    if !d.Valid() || d.flags != 0 || |words| != d.m * 8 {
      return Err(ValueError);
    }
    var m, n := d.m, d.n;
    var padded := new int[m, 16]((i, j) => 0);
    var wordIndex := 0;
    for row := 0 to m
      invariant wordIndex == row * 8
      invariant forall i, j :: 0 <= i < row && 0 <= j < 16 ==> padded[i, j] == Unpacked(words, i, j)
    {
      for p := 0 to 8
        invariant wordIndex == row * 8 + p
        invariant forall i, j :: 0 <= i <= row && 0 <= j < 16 && (i < row || j < 2 * p) ==>
                    padded[i, j] == Unpacked(words, i, j)
      {
        padded[row, 2 * p] := Low16(words[wordIndex]);
        padded[row, 2 * p + 1] := HighHalf(words[wordIndex]);
        wordIndex := wordIndex + 1;
      }
    }
    return Ok(seq(m, i requires 0 <= i < m reads padded => seq(n, j requires 0 <= j < n reads padded => padded[i, j])));
  }

  function Unpacked(words: seq<int>, row: nat, column: nat): int
    requires row * 8 + column / 2 < |words|
  {
    if column % 2 == 0 then Low16(words[row * 8 + column / 2]) else HighHalf(words[row * 8 + column / 2])
  }

  lemma LaneUnpacks(words: seq<int>, result: Matrix, m: nat, n: nat, row: nat, c: nat, p: nat)
    requires IsInt16Matrix(result, m, n) && IsOutputPacket(words, result, m, n) && n <= 16
    requires row < m && c < n && (c == 2 * p || c == 2 * p + 1)
    ensures row * 8 + p < |words|
    ensures result[row][c] == if c == 2 * p then Low16(words[row * 8 + p]) else HighHalf(words[row * 8 + p])
  {
    var lo, hi := OutputLane(result, n, row, 2 * p), OutputLane(result, n, row, 2 * p + 1);
    assert IsOutputWord(words, result, n, row, p);
    HalvesOfWord(lo, hi);
  }

  /** Unpacking undoes packing: whatever it reads from the packet of a matrix is that matrix. */
  lemma OutputRoundTrip(words: seq<int>, result: Matrix, unpacked: Matrix, m: nat, n: nat)
    requires IsInt16Matrix(result, m, n) && IsOutputPacket(words, result, m, n) && n <= 16
    requires IsMatrix(unpacked, m, n)
    requires forall i, j :: 0 <= i < m && 0 <= j < n ==> unpacked[i][j] == Unpacked(words, i, j)
    ensures unpacked == result
  {
    forall i | 0 <= i < m
      ensures unpacked[i] == result[i]
    {
      forall c | 0 <= c < n
        ensures Unpacked(words, i, c) == result[i][c]
      {
        LaneUnpacks(words, result, m, n, i, c, c / 2);
      }
    }
  }
}
