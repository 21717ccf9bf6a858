/** Integer matrices, products, and the row-major layouts they are stored in. */
module Matrices {
  import opened Sums
  import opened Rounding

  type Matrix = seq<seq<int>>

  predicate IsMatrix(a: Matrix, rows: nat, columns: nat) {
    |a| == rows && forall r :: 0 <= r < rows ==> |a[r]| == columns
  }

  /** Every entry is a signed byte. */
  predicate IsInt8Matrix(a: Matrix, rows: nat, columns: nat) {
    && IsMatrix(a, rows, columns)
    && forall r, c :: 0 <= r < rows && 0 <= c < columns ==> -128 <= a[r][c] < 128
  }

  /** The first k products of row `row` of a and column `column` of b. */
  function Dot(a: Matrix, b: Matrix, row: nat, column: nat, k: nat): int
    requires row < |a| && k <= |a[row]| && k <= |b|
    requires forall j :: 0 <= j < k ==> column < |b[j]|
  {
    if k == 0 then 0 else Dot(a, b, row, column, k - 1) + a[row][k - 1] * b[k - 1][column]
  }

  /** The products of one row and one column, in order. */
  function DotTerms(a: Matrix, b: Matrix, row: nat, column: nat, k: nat): (p: seq<int>)
    requires row < |a| && k <= |a[row]| && k <= |b|
    requires forall j :: 0 <= j < k ==> column < |b[j]|
    ensures |p| == k && forall j :: 0 <= j < k ==> p[j] == a[row][j] * b[j][column]
  {
    seq(k, j requires 0 <= j < k => a[row][j] * b[j][column])
  }

  lemma {:induction false} DotIsSum(a: Matrix, b: Matrix, row: nat, column: nat, k: nat)
    requires row < |a| && k <= |a[row]| && k <= |b|
    requires forall j :: 0 <= j < k ==> column < |b[j]|
    ensures Dot(a, b, row, column, k) == Sum(DotTerms(a, b, row, column, k), k)
  {
    if k > 0 {
      DotIsSum(a, b, row, column, k - 1);
      SumOfEqual(DotTerms(a, b, row, column, k), DotTerms(a, b, row, column, k - 1), k - 1);
    }
  }

  /** A * B. */
  ghost predicate IsProduct(c: Matrix, a: Matrix, b: Matrix, m: nat, k: nat, n: nat)
    requires IsMatrix(a, m, k) && IsMatrix(b, k, n)
  {
    && IsMatrix(c, m, n)
    && forall r, g :: 0 <= r < m && 0 <= g < n ==> c[r][g] == Dot(a, b, r, g, k)
  }

  // ----- row-major positions -----------------------------------------------------

  function Cell(width: nat, row: int, column: int): int {
    row * width + column
  }

  lemma CellRange(width: nat, rows: nat, row: int, column: int)
    requires 0 <= row < rows && 0 <= column < width
    ensures 0 <= Cell(width, row, column) < rows * width
  {
    MulOrder(rows, row + 1, width);
    MulOrder(row, 0, width);
    assert (row + 1) * width == row * width + width;
  }

  lemma CellInverse(width: nat, row: int, column: int)
    requires 0 <= row && 0 <= column < width
    ensures Cell(width, row, column) / width == row && Cell(width, row, column) % width == column
  {
    var i := Cell(width, row, column);
    DivMod(i, width);
    MulGap(row, i / width, width);
    MulGap(i / width, row, width);
  }

  lemma CellOfIndex(width: nat, rows: nat, i: int)
    requires 0 <= i < rows * width
    ensures width > 0 && 0 <= i / width < rows && 0 <= i % width < width
    ensures Cell(width, i / width, i % width) == i
  {
    assert rows * 0 == 0;
    DivMod(i, width);
    MulGap(i / width, 0, width);
    MulOrder(i / width, rows, width);
  }

  /** Row-major memory of a matrix. */
  function Flat(a: Matrix, rows: nat, columns: nat): (f: seq<int>)
    requires IsMatrix(a, rows, columns)
    ensures |f| == rows * columns
    ensures forall r, c {:trigger Cell(columns, r, c)} :: 0 <= r < rows && 0 <= c < columns ==>
              0 <= Cell(columns, r, c) < |f| && f[Cell(columns, r, c)] == a[r][c]
  {
    FlatIndices(rows, columns);
    seq(rows * columns, i requires 0 <= i < rows * columns => FlatAt(a, rows, columns, i))
  }

  function FlatAt(a: Matrix, rows: nat, columns: nat, i: nat): int
    requires IsMatrix(a, rows, columns) && i < rows * columns
  {
    CellOfIndex(columns, rows, i);
    a[i / columns][i % columns]
  }

  lemma FlatIndices(rows: nat, columns: nat)
    ensures forall r, c {:trigger Cell(columns, r, c)} :: 0 <= r < rows && 0 <= c < columns ==>
              && 0 <= Cell(columns, r, c) < rows * columns
              && Cell(columns, r, c) / columns == r && Cell(columns, r, c) % columns == c
  {
    forall r, c | 0 <= r < rows && 0 <= c < columns
      ensures 0 <= Cell(columns, r, c) < rows * columns
      ensures Cell(columns, r, c) / columns == r && Cell(columns, r, c) % columns == c
    {
      CellRange(columns, rows, r, c);
      CellInverse(columns, r, c);
    }
  }

  lemma FlatInjective(a: Matrix, b: Matrix, rows: nat, columns: nat)
    requires IsMatrix(a, rows, columns) && IsMatrix(b, rows, columns)
    requires Flat(a, rows, columns) == Flat(b, rows, columns)
    ensures a == b
  {
    forall r | 0 <= r < rows
      ensures a[r] == b[r]
    {
      forall c | 0 <= c < columns
        ensures a[r][c] == b[r][c]
      {
        assert Flat(a, rows, columns)[Cell(columns, r, c)] == a[r][c];
        assert Flat(b, rows, columns)[Cell(columns, r, c)] == b[r][c];
      }
    }
  }

  // ----- size of a product ---------------------------------------------------------

  lemma ByteProduct(x: int, y: int)
    requires -128 <= x < 128 && -128 <= y < 128
    ensures -16384 <= x * y <= 16384
  {
    var u: int, v: int := Abs(x), Abs(y);
    ProductUpTo(u, v);
    assert x * y == u * v || x * y == -(u * v) || u * v == 0;
  }

  lemma ProductUpTo(u: int, v: int)
    requires 0 <= u <= 128 && 0 <= v <= 128
    ensures 0 <= u * v <= 16384
  {
    MulOrder(128, u, v);
  }

  /** Every partial sum of a dot product of at most 3072 signed bytes fits 27 bits. */
  lemma {:induction false} DotBound(a: Matrix, b: Matrix, row: nat, column: nat, k: nat)
    requires row < |a| && k <= |a[row]| && k <= |b| && k <= 3072
    requires forall j :: 0 <= j < k ==> column < |b[j]|
    requires forall j :: 0 <= j < k ==> -128 <= a[row][j] < 128 && -128 <= b[j][column] < 128
    ensures -16384 * k <= Dot(a, b, row, column, k) <= 16384 * k
    ensures Abs(Dot(a, b, row, column, k)) < 0x400_0000
  {
    if k > 0 {
      DotBound(a, b, row, column, k - 1);
      ByteProduct(a[row][k - 1], b[k - 1][column]);
    }
  }

  lemma {:induction false} DotOfEqual(a: Matrix, b: Matrix, d: Matrix, row: nat, column: nat, other: nat, k: nat)
    requires row < |a| && k <= |a[row]| && k <= |b| && k <= |d|
    requires forall j :: 0 <= j < k ==> column < |b[j]| && other < |d[j]| && b[j][column] == d[j][other]
    ensures Dot(a, b, row, column, k) == Dot(a, d, row, other, k)
  {
    if k > 0 {
      DotOfEqual(a, b, d, row, column, other, k - 1);
    }
  }
}

/** The compact weight layout: column tiles of 16, the last one padded with zeros. */
module WeightTiles {
  import opened Outcomes
  import opened Rounding
  import opened Matrices

  function TileCount(n: nat): nat {
    (n + 15) / 16
  }

  function TileEntry(b: Matrix, n: nat, t: nat, j: nat, c: nat): int
    requires j < |b| && |b[j]| == n
  {
    if t * 16 + c < n then b[j][t * 16 + c] else 0
  }

  predicate AreTiles(tiles: seq<Matrix>, k: nat) {
    forall t :: 0 <= t < |tiles| ==> IsInt8Matrix(tiles[t], k, 16)
  }

  /** tiles[t] holds columns 16 t .. 16 t + 15 of b, zero beyond the last column. */
  ghost predicate IsTiling(tiles: seq<Matrix>, b: Matrix, k: nat, n: nat)
    requires IsMatrix(b, k, n)
  {
    && |tiles| == TileCount(n)
    && (forall t :: 0 <= t < |tiles| ==> IsMatrix(tiles[t], k, 16))
    && forall t, j, c :: 0 <= t < |tiles| && 0 <= j < k && 0 <= c < 16 ==>
         tiles[t][j][c] == TileEntry(b, n, t, j, c)
  }

  function TilesOf(tiles: array3<int>): (s: seq<Matrix>)
    reads tiles
  {
    seq(tiles.Length0, t requires 0 <= t < tiles.Length0 reads tiles =>
      seq(tiles.Length1, j requires 0 <= j < tiles.Length1 reads tiles =>
        seq(tiles.Length2, c requires 0 <= c < tiles.Length2 reads tiles => tiles[t, j, c])))
  }

  /** tile_weights: the array starts as zeros and is filled tile by tile. */
  method TileWeights(weights: Matrix, k: nat, n: nat) returns (r: Result<array3<int>>)
    requires IsMatrix(weights, k, n)
    ensures r.Ok? <==> 1 <= k <= 3072 && 1 <= n && IsInt8Matrix(weights, k, n)
    ensures r.Ok? ==> fresh(r.value) && IsTiling(TilesOf(r.value), weights, k, n)
  {
    if !(1 <= k <= 3072) || n < 1 || !IsInt8Matrix(weights, k, n) {
      return Err(ValueError);
    }
    var result := new int[TileCount(n), k, 16]((t, j, c) => 0);
    for tile := 0 to TileCount(n)
      invariant forall t, j, c :: 0 <= t < tile && 0 <= j < k && 0 <= c < 16 ==>
                  result[t, j, c] == TileEntry(weights, n, t, j, c)
      invariant forall t, j, c :: tile <= t < TileCount(n) && 0 <= j < k && 0 <= c < 16 ==> result[t, j, c] == 0
    {
      var count := Min(16, n - tile * 16);
      forall j, c | 0 <= j < k && 0 <= c < count {
        result[tile, j, c] := weights[j][tile * 16 + c];
      }
    }
    return Ok(result);
  }

  /** A column of the tiling is the same column of the matrix, so products do not change. */
  lemma TilingKeepsProducts(a: Matrix, b: Matrix, tiles: seq<Matrix>, m: nat, k: nat, n: nat, row: nat, t: nat, c: nat)
    requires IsMatrix(a, m, k) && IsMatrix(b, k, n) && IsTiling(tiles, b, k, n)
    requires row < m && t < |tiles| && c < 16 && t * 16 + c < n
    ensures Dot(a, tiles[t], row, c, k) == Dot(a, b, row, t * 16 + c, k)
  {
    DotOfEqual(a, tiles[t], b, row, c, t * 16 + c, k);
  }

  lemma {:induction false} PaddingIsZero(a: Matrix, b: Matrix, tiles: seq<Matrix>, m: nat, k: nat, n: nat, row: nat,
                                         t: nat, c: nat, j: nat)
    requires IsMatrix(a, m, k) && IsMatrix(b, k, n) && IsTiling(tiles, b, k, n)
    requires row < m && t < |tiles| && c < 16 && t * 16 + c >= n && j <= k
    ensures Dot(a, tiles[t], row, c, j) == 0
  {
    if j > 0 {
      PaddingIsZero(a, b, tiles, m, k, n, row, t, c, j - 1);
      assert tiles[t][j - 1][c] == 0;
    }
  }
}

/** zynq/m4_cpu_gemm.c: sixteen int32 lanes per tile and row, portable form. */
module NativeGemm {
  import opened Outcomes
  import opened Rounding
  import opened FixedWidth
  import opened Matrices
  import opened WeightTiles

  /** Contiguous memory of the tiles. */
  ghost predicate HoldsTiles(b: seq<int>, tiles: seq<Matrix>, k: nat) {
    forall t, j, c {:trigger Cell(16, Cell(k, t, j), c)} :: 0 <= t < |tiles| && 0 <= j < k && 0 <= c < 16 ==>
      && 0 <= Cell(16, Cell(k, t, j), c) < |b|
      && IsInt8Matrix(tiles[t], k, 16)
      && b[Cell(16, Cell(k, t, j), c)] == tiles[t][j][c]
  }

  /** The tiles behind each other in memory, each one row by row. */
  function TileMemory(tiles: seq<Matrix>, k: nat): (b: seq<Int8>)
    requires AreTiles(tiles, k)
    ensures |b| == |tiles| * k * 16
  {
    MulOrder(|tiles|, 0, k);
    seq(|tiles| * k * 16, i requires 0 <= i < |tiles| * k * 16 => TileByte(tiles, k, i))
  }

  function TileByte(tiles: seq<Matrix>, k: nat, i: nat): Int8
    requires AreTiles(tiles, k) && i < |tiles| * k * 16
  {
    CellOfIndex(k, |tiles|, i / 16);
    tiles[i / 16 / k][i / 16 % k][i % 16]
  }

  /** That memory holds every tile where the kernel looks for it. */
  lemma TileMemoryHolds(tiles: seq<Matrix>, k: nat)
    requires AreTiles(tiles, k)
    ensures HoldsTiles(TileMemory(tiles, k), tiles, k)
  {
    forall t, j, c {:trigger Cell(16, Cell(k, t, j), c)} | 0 <= t < |tiles| && 0 <= j < k && 0 <= c < 16
      ensures 0 <= Cell(16, Cell(k, t, j), c) < |tiles| * k * 16
      ensures TileMemory(tiles, k)[Cell(16, Cell(k, t, j), c)] == tiles[t][j][c]
    {
      CellRange(k, |tiles|, t, j);
      CellInverse(k, t, j);
      CellInverse(16, Cell(k, t, j), c);
    }
  }

  ghost predicate HoldsMatrix(a: seq<int>, matrix: Matrix, m: nat, k: nat)
    requires IsMatrix(matrix, m, k)
  {
    forall r, j {:trigger Cell(k, r, j)} :: 0 <= r < m && 0 <= j < k ==>
      0 <= Cell(k, r, j) < |a| && a[Cell(k, r, j)] == matrix[r][j]
  }

  /** One lane step: the product and the new partial sum both fit int32. */
  lemma LaneStep(left: Matrix, tile: Matrix, m: nat, k: nat, row: nat, j: nat, c: nat)
    requires IsInt8Matrix(left, m, k) && IsInt8Matrix(tile, k, 16) && row < m && j < k <= 3072 && c < 16
    ensures Dot(left, tile, row, c, j + 1) == Dot(left, tile, row, c, j) + left[row][j] * tile[j][c]
    ensures -0x400_0000 < Dot(left, tile, row, c, j + 1) < 0x400_0000
    ensures -16384 <= left[row][j] * tile[j][c] <= 16384
  {
    ByteProduct(left[row][j], tile[j][c]);
    DotBound(left, tile, row, c, j + 1);
  }

  /** All sixteen lanes take the products of one element of the row. */
  method AccumulateLanes(b: array<Int8>, sum: array<Int32>, value: int, t: nat, row: nat, j: nat, m: nat, k: nat,
                         ghost left: Matrix, ghost tiles: seq<Matrix>)
    requires j < k <= 3072 && row < m && t < |tiles| && sum.Length == 16
    requires IsInt8Matrix(left, m, k) && IsInt8Matrix(tiles[t], k, 16) && HoldsTiles(b[..], tiles, k)
    requires value == left[row][j] && forall c :: 0 <= c < 16 ==> sum[c] == Dot(left, tiles[t], row, c, j)
    modifies sum
    ensures forall c :: 0 <= c < 16 ==> sum[c] == Dot(left, tiles[t], row, c, j + 1)
  {
    ghost var bytes := b[..];
    for c := 0 to 16
      invariant forall d :: 0 <= d < c ==> sum[d] == Dot(left, tiles[t], row, d, j + 1)
      invariant forall d :: c <= d < 16 ==> sum[d] == Dot(left, tiles[t], row, d, j)
      invariant b[..] == bytes
    {
      var position := Cell(16, Cell(k, t, j), c);
      assert 0 <= position < b.Length && bytes[position] == tiles[t][j][c];
      LaneStep(left, tiles[t], m, k, row, j, c);
      var product := I32(value * b[position]);
      sum[c] := I32(sum[c] + product);
    }
  }

  method AccumulateRow(a: array<Int8>, b: array<Int8>, sum: array<Int32>, t: nat, row: nat, m: nat, k: nat,
                       ghost left: Matrix, ghost tiles: seq<Matrix>)
    requires 1 <= k <= 3072 && row < m && t < |tiles| && sum.Length == 16
    requires IsInt8Matrix(left, m, k) && HoldsMatrix(a[..], left, m, k)
    requires IsInt8Matrix(tiles[t], k, 16) && HoldsTiles(b[..], tiles, k)
    modifies sum
    ensures forall c :: 0 <= c < 16 ==> sum[c] == Dot(left, tiles[t], row, c, k)
  {
    ghost var aBytes, bBytes := a[..], b[..];
    forall c | 0 <= c < 16 {
      sum[c] := 0;
    }
    for j := 0 to k
      invariant forall c :: 0 <= c < 16 ==> sum[c] == Dot(left, tiles[t], row, c, j)
      invariant a[..] == aBytes && b[..] == bBytes
    {
      var position := Cell(k, row, j);
      assert 0 <= position < a.Length && aBytes[position] == left[row][j];
      AccumulateLanes(b, sum, a[position], t, row, j, m, k, left, tiles);
    }
  }

  method StoreRow(c: array<Int32>, sum: array<Int32>, row: nat, t: nat, width: nat, m: nat, n: nat)
    requires row < m && t * 16 + width <= n && width <= 16 && sum.Length == 16 && m * n <= c.Length && c != sum
    modifies c
    ensures forall r, g {:trigger Cell(n, r, g)} :: 0 <= r < m && 0 <= g < n ==>
              0 <= Cell(n, r, g) < c.Length &&
              c[Cell(n, r, g)] == if r == row && t * 16 <= g < t * 16 + width then sum[g - t * 16]
                                  else old(c[Cell(n, r, g)])
    ensures c[m * n..] == old(c[m * n..])
  {
    FlatIndices(m, n);
    for column := 0 to width
      invariant forall r, g {:trigger Cell(n, r, g)} :: 0 <= r < m && 0 <= g < n ==>
                  c[Cell(n, r, g)] == if r == row && t * 16 <= g < t * 16 + column then sum[g - t * 16]
                                      else old(c[Cell(n, r, g)])
      invariant c[m * n..] == old(c[m * n..])
    {
      c[Cell(n, row, t * 16 + column)] := sum[column];
    }
  }

  /**
   pa_m4_gemm.  For every m <= 16, k <= 3072 and n <= 50257 it returns 0 and leaves exactly A * B in
   row-major c, the ragged last tile included; outside those bounds it returns -1 and writes nothing.
   No lane overflows on the way.
   */
  method PaM4Gemm(a: array?<Int8>, b: array?<Int8>, c: array?<Int32>, m: int, k: int, n: int,
                  ghost left: Matrix, ghost right: Matrix, ghost tiles: seq<Matrix>)
    returns (status: int)
    requires a != null && b != null && c != null && 1 <= m <= 16 && 1 <= k <= 3072 && 1 <= n <= 50257 ==>
               && IsInt8Matrix(left, m, k) && IsInt8Matrix(right, k, n) && HoldsMatrix(a[..], left, m, k)
               && IsTiling(tiles, right, k, n) && HoldsTiles(b[..], tiles, k) && m * n <= c.Length
    modifies c
    ensures status == if a != null && b != null && c != null && 1 <= m <= 16 && 1 <= k <= 3072 && 1 <= n <= 50257
                      then 0 else -1
    ensures status == 0 ==> forall r, g {:trigger Cell(n, r, g)} :: 0 <= r < m && 0 <= g < n ==>
              0 <= Cell(n, r, g) < c.Length && c[Cell(n, r, g)] == Dot(left, right, r, g, k)
    ensures status == 0 ==> c[m * n..] == old(c[m * n..])
    ensures status != 0 && c != null ==> c[..] == old(c[..])
  {
    if a == null || b == null || c == null || m < 1 || m > 16 || k < 1 || k > 3072 || n < 1 || n > 50257 {
      return -1;
    }
    assert AreTiles(tiles, k);
    var count := (n + 15) / 16;
    for t := 0 to count
      invariant forall r, g {:trigger Cell(n, r, g)} :: 0 <= r < m && 0 <= g < n && g < t * 16 ==>
                  0 <= Cell(n, r, g) < c.Length && c[Cell(n, r, g)] == Dot(left, right, r, g, k)
      invariant c[m * n..] == old(c[m * n..])
    {
      var width := if n - t * 16 < 16 then n - t * 16 else 16;
      for row := 0 to m
        invariant forall r, g {:trigger Cell(n, r, g)} :: 0 <= r < m && 0 <= g < n && g < t * 16 ==>
                    0 <= Cell(n, r, g) < c.Length && c[Cell(n, r, g)] == Dot(left, right, r, g, k)
        invariant forall r, g {:trigger Cell(n, r, g)} :: 0 <= r < row && t * 16 <= g < t * 16 + width ==>
                    0 <= Cell(n, r, g) < c.Length && c[Cell(n, r, g)] == Dot(left, right, r, g, k)
        invariant c[m * n..] == old(c[m * n..])
      {
        var sum := new Int32[16];
        AccumulateRow(a, b, sum, t, row, m, k, left, tiles);
        forall g | t * 16 <= g < t * 16 + width
          ensures sum[g - t * 16] == Dot(left, right, row, g, k)
        {
          TilingKeepsProducts(left, right, tiles, m, k, n, row, t, g - t * 16);
        }
        StoreRow(c, sum, row, t, width, m, n);
      }
    }
    return 0;
  }

  /** The kernel on the tiles of a weight matrix: tile_weights, contiguous memory, one call. */
  method RunTiled(left: Matrix, weights: Matrix, m: nat, k: nat, n: nat) returns (r: Result<Matrix>)
    requires IsInt8Matrix(left, m, k) && IsMatrix(weights, k, n)
    ensures r.Ok? <==> 1 <= m <= 16 && 1 <= k <= 3072 && 1 <= n <= 50257 && IsInt8Matrix(weights, k, n)
    ensures r.Ok? ==> IsProduct(r.value, left, weights, m, k, n)
  {
    var packed :- TileWeights(weights, k, n);
    if !(1 <= m <= 16) || !(1 <= n <= 50257) {
      return Err(ValueError);
    }
    var tiles := TilesOf(packed);
    TilesAreInt8(tiles, weights, k, n);
    TileMemoryHolds(tiles, k);
    var aBytes, bBytes: seq<Int8> := Bytes(left, m, k), TileMemory(tiles, k);
    var a := new Int8[|aBytes|](i requires 0 <= i < |aBytes| => aBytes[i]);
    var b := new Int8[|bBytes|](i requires 0 <= i < |bBytes| => bBytes[i]);
    assert a[..] == aBytes && b[..] == bBytes;
    MulOrder(m, 0, n);
    var c := new Int32[m * n];
    var status := PaM4Gemm(a, b, c, m, k, n, left, weights, tiles);
    r := Ok(RowsOf(c[..], m, n));
  }

  lemma TilesAreInt8(tiles: seq<Matrix>, b: Matrix, k: nat, n: nat)
    requires IsInt8Matrix(b, k, n) && IsTiling(tiles, b, k, n)
    ensures AreTiles(tiles, k)
  {
  }

  function Bytes(a: Matrix, m: nat, k: nat): (f: seq<Int8>)
    requires IsInt8Matrix(a, m, k)
    ensures HoldsMatrix(f, a, m, k)
  {
    var f := Flat(a, m, k);
    seq(|f|, i requires 0 <= i < |f| => ByteAt(a, m, k, i))
  }

  function ByteAt(a: Matrix, m: nat, k: nat, i: nat): (v: Int8)
    requires IsInt8Matrix(a, m, k) && i < m * k
    ensures v == Flat(a, m, k)[i]
  {
    CellOfIndex(k, m, i);
    a[i / k][i % k]
  }

  /** The row-major buffer read as an [M, N] array. */
  function RowsOf(c: seq<int>, m: nat, n: nat): (r: Matrix)
    requires |c| == m * n
    ensures IsMatrix(r, m, n)
    ensures forall row, g {:trigger Cell(n, row, g)} :: 0 <= row < m && 0 <= g < n ==>
              0 <= Cell(n, row, g) < |c| && r[row][g] == c[Cell(n, row, g)]
  {
    FlatIndices(m, n);
    seq(m, row requires 0 <= row < m => seq(n, g requires 0 <= g < n => c[Cell(n, row, g)]))
  }
}
