/**
 The restricted SRAM output envelope over bilinear interpolation of characterized tables, with exact
 real arithmetic.
 */
module SramEnvelope {
  import opened Outcomes

  datatype GridData = GridData(xs: seq<real>, ys: seq<real>, rows: seq<seq<real>>)

  predicate IsAxis(axis: seq<real>) {
    |axis| >= 2 && forall i :: 0 <= i < |axis| - 1 ==> axis[i] < axis[i + 1]
  }

  predicate IsTable(t: GridData) {
    && IsAxis(t.xs) && IsAxis(t.ys) && |t.rows| == |t.xs|
    && forall r :: 0 <= r < |t.rows| ==> |t.rows[r]| == |t.ys|
  }

  type Table = t: GridData | IsTable(t) witness GridData([0.0, 1.0], [0.0, 1.0], [[0.0, 0.0], [0.0, 0.0]])

  lemma {:induction false} AxisOrder(axis: seq<real>, i: nat, j: nat)
    requires IsAxis(axis) && i <= j < |axis|
    ensures axis[i] <= axis[j] && (i < j ==> axis[i] < axis[j])
    decreases j - i
  {
    if i < j {
      AxisOrder(axis, i + 1, j);
    }
  }

  /** table(): the flat list of values is cut into rows; axes must increase strictly. */
  function MakeTable(xs: seq<real>, ys: seq<real>, values: seq<real>): (r: Result<Table>)
    ensures r.Ok? <==> IsAxis(xs) && IsAxis(ys) && |values| == |xs| * |ys|
  {
    if !IsAxis(xs) || !IsAxis(ys) || |values| != |xs| * |ys| then Err(ValueError)
    else Ok(GridData(xs, ys, Cut(values, |xs|, |ys|)))
  }

  function Cut(values: seq<real>, rows: nat, width: nat): (r: seq<seq<real>>)
    requires |values| == rows * width
    ensures |r| == rows && forall i :: 0 <= i < rows ==> |r[i]| == width
  {
    if rows == 0 then []
    else
      assert |values| == (rows - 1) * width + width;
      [values[..width]] + Cut(values[width..], rows - 1, width)
  }

  function RowMajor(i: nat, width: nat, j: nat): nat {
    i * width + j
  }

  lemma RowMajorBound(i: nat, rows: nat, width: nat, j: nat)
    requires i < rows && j < width
    ensures RowMajor(i, width, j) < rows * width
  {
    assert (rows - 1 - i) * width >= 0;
  }

  /** The cut is row-major: nothing is dropped, repeated or transposed. */
  lemma {:induction false} CutIsRowMajor(values: seq<real>, rows: nat, width: nat, i: nat, j: nat)
    requires |values| == rows * width && i < rows && j < width
    ensures RowMajor(i, width, j) < |values| && Cut(values, rows, width)[i][j] == values[RowMajor(i, width, j)]
  {
    RowMajorBound(i, rows, width, j);
    assert |values| == (rows - 1) * width + width;
    if i > 0 {
      CutIsRowMajor(values[width..], rows - 1, width, i - 1, j);
      RowStep(i, width, j);
    }
  }

  /** A table that is accepted keeps its axes and holds every value of the list in its place. */
  lemma TableIsRowMajor(xs: seq<real>, ys: seq<real>, values: seq<real>, i: nat, j: nat)
    requires MakeTable(xs, ys, values).Ok? && i < |xs| && j < |ys|
    ensures var t := MakeTable(xs, ys, values).value;
            && t.xs == xs && t.ys == ys
            && RowMajor(i, |ys|, j) < |values| && t.rows[i][j] == values[RowMajor(i, |ys|, j)]
  {
    CutIsRowMajor(values, |xs|, |ys|, i, j);
  }

  lemma RowStep(i: nat, width: nat, j: nat)
    requires i > 0
    ensures RowMajor(i, width, j) == width + RowMajor(i - 1, width, j)
  {
  }

  // ----- interpolation -----------------------------------------------------------------

  /** The first interval from i on that contains the value. */
  function FirstInterval(axis: seq<real>, value: real, i: nat): (j: nat)
    requires IsAxis(axis) && i < |axis| - 1 && axis[i] <= value <= axis[|axis| - 1]
    ensures i <= j < |axis| - 1 && axis[j] <= value <= axis[j + 1]
    ensures j > i ==> axis[j] < value
    decreases |axis| - i
  {
    if value <= axis[i + 1] then i else FirstInterval(axis, value, i + 1)
  }

  /** Interval and fraction; points outside the characterized domain are refused. */
  function Interval(axis: seq<real>, value: real): (r: Result<(nat, real)>)
    requires IsAxis(axis)
    ensures r.Ok? <==> axis[0] <= value <= axis[|axis| - 1]
    ensures r.Ok? ==> r.value.0 < |axis| - 1
  {
    if !(axis[0] <= value <= axis[|axis| - 1]) then Err(ValueError)
    else
      var i := FirstInterval(axis, value, 0);
      Ok((i, (value - axis[i]) / (axis[i + 1] - axis[i])))
  }

  function Blend(a: real, b: real, v00: real, v10: real, v01: real, v11: real): real {
    (1.0 - a) * (1.0 - b) * v00 + a * (1.0 - b) * v10 + (1.0 - a) * b * v01 + a * b * v11
  }

  function Interpolate(t: Table, x: real, y: real): Result<real> {
    var u :- Interval(t.xs, x);
    var v :- Interval(t.ys, y);
    var (i, a) := u;
    var (j, b) := v;
    Ok(Blend(a, b, t.rows[i][j], t.rows[i + 1][j], t.rows[i][j + 1], t.rows[i + 1][j + 1]))
  }

  lemma FractionRange(lo: real, hi: real, value: real)
    requires lo < hi && lo <= value <= hi
    ensures 0.0 <= (value - lo) / (hi - lo) <= 1.0
    ensures value == lo ==> (value - lo) / (hi - lo) == 0.0
    ensures value == hi ==> (value - lo) / (hi - lo) == 1.0
  {
    var q := (value - lo) / (hi - lo);
    assert q * (hi - lo) == value - lo;
  }

  /** A bilinear blend never exceeds a bound on the corners that carry weight. */
  lemma BlendBound(a: real, b: real, v00: real, v10: real, v01: real, v11: real, bound: real)
    requires 0.0 <= a <= 1.0 && 0.0 <= b <= 1.0 && v00 <= bound && v10 <= bound
    requires b > 0.0 ==> v01 <= bound && v11 <= bound
    ensures Blend(a, b, v00, v10, v01, v11) <= bound
  {
    var low := (1.0 - a) * v00 + a * v10;
    LinearBound(a, v00, v10, bound);
    BlendSplits(a, b, v00, v10, v01, v11);
    if b > 0.0 {
      LinearBound(a, v01, v11, bound);
      LinearBound(b, low, (1.0 - a) * v01 + a * v11, bound);
    }
  }

  lemma BlendSplits(a: real, b: real, v00: real, v10: real, v01: real, v11: real)
    ensures Blend(a, b, v00, v10, v01, v11)
         == (1.0 - b) * ((1.0 - a) * v00 + a * v10) + b * ((1.0 - a) * v01 + a * v11)
  {
    assert (1.0 - a) * (1.0 - b) * v00 == (1.0 - b) * ((1.0 - a) * v00);
    assert a * (1.0 - b) * v10 == (1.0 - b) * (a * v10);
    assert (1.0 - a) * b * v01 == b * ((1.0 - a) * v01);
    assert a * b * v11 == b * (a * v11);
  }

  lemma LinearBound(a: real, v: real, w: real, bound: real)
    requires 0.0 <= a <= 1.0 && v <= bound && w <= bound
    ensures (1.0 - a) * v + a * w <= bound
  {
    WholeIsSum(1.0 - a, a, bound);
    WeightedBound(1.0 - a, a, v, w, bound);
  }

  lemma WeightedBound(p: real, a: real, v: real, w: real, bound: real)
    requires 0.0 <= p && 0.0 <= a && v <= bound && w <= bound && p * bound + a * bound == bound
    ensures p * v + a * w <= bound
  {
    Scaled(p, v, bound);
    Scaled(a, w, bound);
    SumBound(p * v, a * w, p * bound, a * bound, bound);
  }

  lemma SumBound(s: real, t: real, x: real, y: real, bound: real)
    requires s <= x && t <= y && x + y == bound
    ensures s + t <= bound
  {
  }

  lemma WholeIsSum(p: real, a: real, bound: real)
    requires p + a == 1.0
    ensures p * bound + a * bound == bound
  {
    assert p == 1.0 - a;
  }

  lemma Scaled(a: real, v: real, w: real)
    requires a >= 0.0 && v <= w
    ensures a * v <= a * w
  {
  }

  /** At a grid point interpolation returns the tabulated value. */
  lemma NodeExact(t: Table, i: nat, j: nat)
    requires i < |t.xs| && j < |t.ys|
    ensures Interpolate(t, t.xs[i], t.ys[j]) == Ok(t.rows[i][j])
  {
    NodeInterval(t.xs, i);
    NodeInterval(t.ys, j);
    var (p, a) := Interval(t.xs, t.xs[i]).value;
    var (q, b) := Interval(t.ys, t.ys[j]).value;
    BlendCorner(a, b, t.rows[p][q], t.rows[p + 1][q], t.rows[p][q + 1], t.rows[p + 1][q + 1]);
  }

  lemma NodeInterval(axis: seq<real>, i: nat)
    requires IsAxis(axis) && i < |axis|
    ensures axis[0] <= axis[i] <= axis[|axis| - 1]
    ensures Interval(axis, axis[i]) == Ok(if i == 0 then (0, 0.0) else (i - 1, 1.0))
  {
    AxisOrder(axis, 0, i);
    AxisOrder(axis, i, |axis| - 1);
    var p := FirstInterval(axis, axis[i], 0);
    if p > i {
      AxisOrder(axis, i, p);
    } else if p + 1 < i {
      AxisOrder(axis, p + 1, i);
    } else if p == i && i > 0 {
      assert axis[p] < axis[i];
    }
    FractionRange(axis[p], axis[p + 1], axis[i]);
  }

  lemma BlendCorner(a: real, b: real, v00: real, v10: real, v01: real, v11: real)
    requires (a == 0.0 || a == 1.0) && (b == 0.0 || b == 1.0)
    ensures Blend(a, b, v00, v10, v01, v11)
         == if b == 0.0 then (if a == 0.0 then v00 else v10) else (if a == 0.0 then v01 else v11)
  {
  }

  // ----- what interpolation means ------------------------------------------------------

  /** The bilinear function p + q x + s y + r x y. */
  function Bilinear(p: real, q: real, s: real, r: real, x: real, y: real): real {
    p + q * x + s * y + r * (x * y)
  }

  predicate InCell(axis: seq<real>, i: nat, value: real) {
    i + 1 < |axis| && axis[i] <= value <= axis[i + 1]
  }

  /** Blending the ends of an interval with the fraction of a point gives the point back. */
  lemma FractionBlends(lo: real, hi: real, value: real, a: real)
    requires lo < hi && a == (value - lo) / (hi - lo)
    ensures (1.0 - a) * lo + a * hi == value
  {
    assert a * (hi - lo) == value - lo;
  }

  /** Blending is linear in each coordinate, so on a bilinear function it is exact. */
  lemma BlendExact(a: real, b: real, x0: real, x1: real, x: real, y0: real, y1: real, y: real,
                   p: real, q: real, s: real, r: real)
    requires x == (1.0 - a) * x0 + a * x1 && y == (1.0 - b) * y0 + b * y1
    ensures Blend(a, b, Bilinear(p, q, s, r, x0, y0), Bilinear(p, q, s, r, x1, y0),
                  Bilinear(p, q, s, r, x0, y1), Bilinear(p, q, s, r, x1, y1))
         == Bilinear(p, q, s, r, x, y)
  {
    AlongX(a, x0, x1, x, y0, p, q, s, r);
    AlongX(a, x0, x1, x, y1, p, q, s, r);
    AlongY(b, x, y0, y1, y, p, q, s, r);
    BlendSplits(a, b, Bilinear(p, q, s, r, x0, y0), Bilinear(p, q, s, r, x1, y0),
                Bilinear(p, q, s, r, x0, y1), Bilinear(p, q, s, r, x1, y1));
  }

  lemma AlongX(a: real, x0: real, x1: real, x: real, y: real, p: real, q: real, s: real, r: real)
    requires x == (1.0 - a) * x0 + a * x1
    ensures (1.0 - a) * Bilinear(p, q, s, r, x0, y) + a * Bilinear(p, q, s, r, x1, y) == Bilinear(p, q, s, r, x, y)
  {
    LineExact(a, x0, x1, p + s * y, q + r * y);
    Regrouped(x0, y, p, q, s, r);
    Regrouped(x1, y, p, q, s, r);
    Regrouped(x, y, p, q, s, r);
  }

  lemma AlongY(b: real, x: real, y0: real, y1: real, y: real, p: real, q: real, s: real, r: real)
    requires y == (1.0 - b) * y0 + b * y1
    ensures (1.0 - b) * Bilinear(p, q, s, r, x, y0) + b * Bilinear(p, q, s, r, x, y1) == Bilinear(p, q, s, r, x, y)
  {
    LineExact(b, y0, y1, p + q * x, s + r * x);
    Regrouped(y0, x, p, s, q, r);
    Regrouped(y1, x, p, s, q, r);
    Regrouped(y, x, p, s, q, r);
  }

  lemma Regrouped(x: real, y: real, p: real, q: real, s: real, r: real)
    ensures Bilinear(p, q, s, r, x, y) == (p + s * y) + (q + r * y) * x
    ensures Bilinear(p, s, q, r, y, x) == (p + s * y) + (q + r * y) * x
  {
    assert r * (x * y) == (r * y) * x;
    assert y * x == x * y;
  }

  lemma LineExact(a: real, x0: real, x1: real, c: real, d: real)
    ensures (1.0 - a) * (c + d * x0) + a * (c + d * x1) == c + d * ((1.0 - a) * x0 + a * x1)
  {
    WholeIsSum(1.0 - a, a, c);
    assert d * ((1.0 - a) * x0) == (1.0 - a) * (d * x0) && d * (a * x1) == a * (d * x1);
    assert d * ((1.0 - a) * x0 + a * x1) == d * ((1.0 - a) * x0) + d * (a * x1);
  }

  /** A point of interval i is found there, or as the end of the interval before. */
  lemma IntervalFound(axis: seq<real>, i: nat, value: real) returns (j: nat, a: real)
    requires IsAxis(axis) && InCell(axis, i, value)
    ensures Interval(axis, value) == Ok((j, a)) && j + 1 < |axis|
    ensures value == (1.0 - a) * axis[j] + a * axis[j + 1]
    ensures j == i || (j + 1 == i && a == 1.0)
  {
    AxisOrder(axis, 0, i);
    AxisOrder(axis, i + 1, |axis| - 1);
    j := FirstInterval(axis, value, 0);
    a := (value - axis[j]) / (axis[j + 1] - axis[j]);
    FractionBlends(axis[j], axis[j + 1], value, a);
    FractionRange(axis[j], axis[j + 1], value);
    if j > i {
      AxisOrder(axis, i + 1, j);
    } else if j < i {
      AxisOrder(axis, j + 1, i);
    }
  }

  /** Corners without weight do not matter. */
  lemma BlendIgnores(a: real, b: real, v00: real, v10: real, v01: real, v11: real,
                     w00: real, w10: real, w01: real, w11: real)
    requires (a == 1.0 || b == 1.0 || v00 == w00) && (b == 1.0 || v10 == w10) && (a == 1.0 || v01 == w01)
    requires v11 == w11
    ensures Blend(a, b, v00, v10, v01, v11) == Blend(a, b, w00, w10, w01, w11)
  {
  }

  /** Node (i, j) of the table has this value. */
  predicate IsNode(t: Table, i: nat, j: nat, w: real) {
    i < |t.xs| && j < |t.ys| && t.rows[i][j] == w
  }

  /** From the cell below or left of an edge, the far corners carry all the weight. */
  lemma EdgeBlend(t: Table, i: nat, j: nat, k: nat, l: nat, a: real, b: real, w: (nat, nat) -> real)
    requires i + 1 < |t.xs| && j + 1 < |t.ys| && k + 1 < |t.xs| && l + 1 < |t.ys|
    requires k == i || (k + 1 == i && a == 1.0)
    requires l == j || (l + 1 == j && b == 1.0)
    requires IsNode(t, i, j, w(i, j)) && IsNode(t, i + 1, j, w(i + 1, j))
    requires IsNode(t, i, j + 1, w(i, j + 1)) && IsNode(t, i + 1, j + 1, w(i + 1, j + 1))
    ensures Blend(a, b, t.rows[k][l], t.rows[k + 1][l], t.rows[k][l + 1], t.rows[k + 1][l + 1])
         == Blend(a, b, w(k, l), w(k + 1, l), w(k, l + 1), w(k + 1, l + 1))
  {
    BlendIgnores(a, b, t.rows[k][l], t.rows[k + 1][l], t.rows[k][l + 1], t.rows[k + 1][l + 1],
                 w(k, l), w(k + 1, l), w(k, l + 1), w(k + 1, l + 1));
  }

  lemma BlendAt(t: Table, x: real, y: real, k: nat, l: nat, a: real, b: real)
    requires k + 1 < |t.xs| && l + 1 < |t.ys|
    requires Interval(t.xs, x) == Ok((k, a)) && Interval(t.ys, y) == Ok((l, b))
    ensures Interpolate(t, x, y)
         == Ok(Blend(a, b, t.rows[k][l], t.rows[k + 1][l], t.rows[k][l + 1], t.rows[k + 1][l + 1]))
  {
  }

  /** Interpolation blends four node values with fractions that blend the nodes to the point. */
  lemma CellValue(t: Table, i: nat, j: nat, x: real, y: real, w: (nat, nat) -> real)
    returns (k: nat, l: nat, a: real, b: real)
    requires InCell(t.xs, i, x) && InCell(t.ys, j, y)
    requires IsNode(t, i, j, w(i, j)) && IsNode(t, i + 1, j, w(i + 1, j))
    requires IsNode(t, i, j + 1, w(i, j + 1)) && IsNode(t, i + 1, j + 1, w(i + 1, j + 1))
    ensures k + 1 < |t.xs| && l + 1 < |t.ys|
    ensures x == (1.0 - a) * t.xs[k] + a * t.xs[k + 1] && y == (1.0 - b) * t.ys[l] + b * t.ys[l + 1]
    ensures Interpolate(t, x, y) == Ok(Blend(a, b, w(k, l), w(k + 1, l), w(k, l + 1), w(k + 1, l + 1)))
  {
    k, a := IntervalFound(t.xs, i, x);
    l, b := IntervalFound(t.ys, j, y);
    BlendAt(t, x, y, k, l, a, b);
    EdgeBlend(t, i, j, k, l, a, b, w);
    var blended := Blend(a, b, t.rows[k][l], t.rows[k + 1][l], t.rows[k][l + 1], t.rows[k + 1][l + 1]);
    assert Interpolate(t, x, y) == Ok(blended);
    assert blended == Blend(a, b, w(k, l), w(k + 1, l), w(k, l + 1), w(k + 1, l + 1));
  }

  /** Blending four values of f, with fractions that blend their places to (x, y), gives f(x, y). */
  ghost predicate BlendsTo(f: (real, real) -> real, a: real, b: real, x0: real, x1: real, x: real,
                           y0: real, y1: real, y: real)
  {
    x == (1.0 - a) * x0 + a * x1 && y == (1.0 - b) * y0 + b * y1 ==>
      Blend(a, b, f(x0, y0), f(x1, y0), f(x0, y1), f(x1, y1)) == f(x, y)
  }

  ghost predicate IsBilinear(f: (real, real) -> real) {
    forall a, b, x0, x1, x, y0, y1, y :: BlendsTo(f, a, b, x0, x1, x, y0, y1, y)
  }

  function SampledFrom(t: Table, f: (real, real) -> real): (nat, nat) -> real {
    (i: nat, j: nat) => if i < |t.xs| && j < |t.ys| then f(t.xs[i], t.ys[j]) else 0.0
  }

  /** Node (i, j) of the table samples f. */
  predicate Samples(t: Table, f: (real, real) -> real, i: nat, j: nat) {
    i < |t.xs| && j < |t.ys| && t.rows[i][j] == f(t.xs[i], t.ys[j])
  }

  /**
   Interpolation is the bilinear function through the four corners, at every point of every cell. On an
   edge that two cells share, the functions of both give the value, so the pieces join.
   */
  lemma CellExact(t: Table, i: nat, j: nat, x: real, y: real, f: (real, real) -> real)
    requires InCell(t.xs, i, x) && InCell(t.ys, j, y) && IsBilinear(f)
    requires Samples(t, f, i, j) && Samples(t, f, i + 1, j) && Samples(t, f, i, j + 1) && Samples(t, f, i + 1, j + 1)
    ensures Interpolate(t, x, y) == Ok(f(x, y))
  {
    var w := SampledFrom(t, f);
    var k, l, a, b := CellValue(t, i, j, x, y, w);
    assert BlendsTo(f, a, b, t.xs[k], t.xs[k + 1], x, t.ys[l], t.ys[l + 1], y);
    assert w(k, l) == f(t.xs[k], t.ys[l]) && w(k + 1, l) == f(t.xs[k + 1], t.ys[l]);
    assert w(k, l + 1) == f(t.xs[k], t.ys[l + 1]) && w(k + 1, l + 1) == f(t.xs[k + 1], t.ys[l + 1]);
  }

  function BilinearOf(p: real, q: real, s: real, r: real): (real, real) -> real {
    (x: real, y: real) => Bilinear(p, q, s, r, x, y)
  }

  /** p + q x + s y + r x y is one, for every choice of the four numbers. */
  lemma BilinearIs(p: real, q: real, s: real, r: real)
    ensures IsBilinear(BilinearOf(p, q, s, r))
  {
    forall a, b, x0, x1, x, y0, y1, y
      ensures BlendsTo(BilinearOf(p, q, s, r), a, b, x0, x1, x, y0, y1, y)
    {
      if x == (1.0 - a) * x0 + a * x1 && y == (1.0 - b) * y0 + b * y1 {
        BlendExact(a, b, x0, x1, x, y0, y1, y, p, q, s, r);
      }
    }
  }

  /** Interpolation accepts exactly the characterized domain. */
  lemma DomainOnly(t: Table, x: real, y: real)
    ensures Interpolate(t, x, y).Ok? <==>
              t.xs[0] <= x <= t.xs[|t.xs| - 1] && t.ys[0] <= y <= t.ys[|t.ys| - 1]
    ensures Interpolate(t, x, y).Ok? ==> exists i, j :: InCell(t.xs, i, x) && InCell(t.ys, j, y)
  {
    if Interpolate(t, x, y).Ok? {
      assert InCell(t.xs, FirstInterval(t.xs, x, 0), x) && InCell(t.ys, FirstInterval(t.ys, y, 0), y);
    }
  }

  /** A table that samples one bilinear function, a plane for r = 0, interpolates to it everywhere. */
  lemma PlaneExact(t: Table, x: real, y: real, p: real, q: real, s: real, r: real)
    requires Interpolate(t, x, y).Ok?
    requires forall i, j :: 0 <= i < |t.xs| && 0 <= j < |t.ys| ==> Samples(t, BilinearOf(p, q, s, r), i, j)
    ensures Interpolate(t, x, y) == Ok(Bilinear(p, q, s, r, x, y))
  {
    DomainOnly(t, x, y);
    BilinearIs(p, q, s, r);
    var i, j :| InCell(t.xs, i, x) && InCell(t.ys, j, y);
    CellExact(t, i, j, x, y, BilinearOf(p, q, s, r));
  }

  // ----- the envelope -----------------------------------------------------------------------

  predicate SameGrids(tables: seq<Table>) {
    forall k :: 0 <= k < |tables| ==> tables[k].xs == tables[0].xs && tables[k].ys == tables[0].ys
  }

  /** w is the largest entry of column j over all tables and rows. */
  ghost predicate IsWorst(tables: seq<Table>, j: nat, w: real)
    requires SameGrids(tables) && |tables| > 0 && j < |tables[0].ys|
  {
    && (forall k, r :: 0 <= k < |tables| && 0 <= r < |tables[k].rows| ==> tables[k].rows[r][j] <= w)
    && (exists k, r :: 0 <= k < |tables| && 0 <= r < |tables[k].rows| && tables[k].rows[r][j] == w)
  }

  function ColumnMax(rows: seq<seq<real>>, j: nat, n: nat): (w: real)
    requires 0 < n <= |rows| && forall r :: 0 <= r < n ==> j < |rows[r]|
    ensures forall r :: 0 <= r < n ==> rows[r][j] <= w
    ensures exists r :: 0 <= r < n && rows[r][j] == w
  {
    if n == 1 then rows[0][j]
    else
      var below := ColumnMax(rows, j, n - 1);
      if rows[n - 1][j] > below then rows[n - 1][j] else below
  }

  function WorstAt(tables: seq<Table>, j: nat, n: nat): real
    requires 0 < n <= |tables| && SameGrids(tables) && j < |tables[0].ys|
  {
    var here := ColumnMax(tables[n - 1].rows, j, |tables[n - 1].rows|);
    if n == 1 then here
    else
      var below := WorstAt(tables, j, n - 1);
      if here > below then here else below
  }

  lemma {:induction false} WorstAtIsWorst(tables: seq<Table>, j: nat, n: nat)
    requires 0 < n <= |tables| && SameGrids(tables) && j < |tables[0].ys|
    ensures forall k, r :: 0 <= k < n && 0 <= r < |tables[k].rows| ==> tables[k].rows[r][j] <= WorstAt(tables, j, n)
    ensures exists k, r :: 0 <= k < n && 0 <= r < |tables[k].rows| && tables[k].rows[r][j] == WorstAt(tables, j, n)
  {
    var rows := tables[n - 1].rows;
    var here := ColumnMax(rows, j, |rows|);
    var r :| 0 <= r < |rows| && rows[r][j] == here;
    assert tables[n - 1].rows[r][j] == here;
    if n > 1 {
      WorstAtIsWorst(tables, j, n - 1);
    }
  }

  function Worst(tables: seq<Table>): (w: seq<real>)
    requires |tables| > 0 && SameGrids(tables)
    ensures |w| == |tables[0].ys|
  {
    seq(|tables[0].ys|, j requires 0 <= j < |tables[0].ys| => WorstAt(tables, j, |tables|))
  }

  lemma WorstIsWorst(tables: seq<Table>, j: nat)
    requires |tables| > 0 && SameGrids(tables) && j < |tables[0].ys|
    ensures IsWorst(tables, j, Worst(tables)[j])
  {
    WorstAtIsWorst(tables, j, |tables|);
  }

  function Largest(w: seq<real>, n: nat): (m: real)
    requires 0 < n <= |w|
    ensures forall j :: 0 <= j < n ==> w[j] <= m
    ensures exists j :: 0 <= j < n && w[j] == m
  {
    if n == 1 then w[0]
    else
      var below := Largest(w, n - 1);
      if w[n - 1] > below then w[n - 1] else below
  }

  datatype Envelope = Envelope(slewMin: real, slewMax: real, loadMin: real, loadMax: real, limit: real,
                               worst: real, headroom: real, loads: seq<real>, worstByLoad: seq<real>)

  function EnvelopeAt(xs: seq<real>, loads: seq<real>, worst: seq<real>, limit: real, end: nat): Envelope
    requires |xs| > 0 && end < |loads| == |worst|
  {
    var top := Largest(worst, end + 1);
    Envelope(xs[0], xs[|xs| - 1], loads[0], loads[end], limit, top, limit - top, loads, worst)
  }

  predicate IsSafePrefix(worst: seq<real>, limit: real, end: nat) {
    && end < |worst|
    && (forall j :: 0 <= j <= end ==> worst[j] <= limit)
    && (end + 1 < |worst| ==> worst[end + 1] > limit)
  }

  /** The loads 0..end are safe, the next one is not, and the envelope reports exactly those. */
  ghost predicate IsEnvelope(e: Envelope, tables: seq<Table>, limit: real, end: nat)
    requires |tables| > 0 && SameGrids(tables)
  {
    && end < |tables[0].ys|
    && IsSafePrefix(Worst(tables), limit, end)
    && e == EnvelopeAt(tables[0].xs, tables[0].ys, Worst(tables), limit, end)
  }

  /** The indices of the contiguous safe interval; the loop stops at the first unsafe load. */
  method SafeLoads(worst: seq<real>, limit: real) returns (safe: seq<nat>)
    requires |worst| > 0
    ensures safe == [] <==> worst[0] > limit
    ensures forall i :: 0 <= i < |safe| ==> safe[i] == i
    ensures safe != [] ==> IsSafePrefix(worst, limit, safe[|safe| - 1])
  {
    safe := [];
    var j := 0;
    while j < |worst|
      invariant 0 <= j <= |worst| && |safe| == j
      invariant forall i :: 0 <= i < j ==> safe[i] == i && worst[i] <= limit
    {
      if worst[j] > limit {
        break;
      }
      safe := safe + [j];
      j := j + 1;
    }
  }

  /** derive_envelope: the safe interval grows load by load and stops at the first unsafe one. */
  method DeriveEnvelope(tables: seq<Table>, limit: real) returns (r: Result<Envelope>)
    ensures r.Ok? <==> |tables| > 0 && limit > 0.0 && SameGrids(tables) && Worst(tables)[0] <= limit
    ensures r.Ok? ==> exists end :: IsEnvelope(r.value, tables, limit, end)
  {
    if tables == [] || limit <= 0.0 {
      return Err(ValueError);
    }
    var xs, loads := tables[0].xs, tables[0].ys;
    if !SameGrids(tables) {
      return Err(ValueError);
    }
    var worst := Worst(tables);
    var safe := SafeLoads(worst, limit);
    if safe == [] {
      return Err(ValueError);
    }
    var end := safe[|safe| - 1];
    var e := EnvelopeAt(xs, loads, worst, limit, end);
    assert IsEnvelope(e, tables, limit, end);
    return Ok(e);
  }

  /**
   Every point inside the envelope interpolates, in every table, to at most the reported worst value
   and hence to at most the limit; the last safe load and a single-column envelope are included.
   */
  lemma InsideMeetsLimit(e: Envelope, tables: seq<Table>, limit: real, end: nat, k: nat, x: real, y: real)
    requires |tables| > 0 && SameGrids(tables) && IsEnvelope(e, tables, limit, end) && k < |tables|
    requires e.slewMin <= x <= e.slewMax && e.loadMin <= y <= e.loadMax
    ensures Interpolate(tables[k], x, y).Ok?
    ensures Interpolate(tables[k], x, y).value <= e.worst <= limit
  {
    PointInside(tables, end, k, x, y);
    LargestOf(Worst(tables), end + 1, limit);
  }

  lemma PointInside(tables: seq<Table>, end: nat, k: nat, x: real, y: real)
    requires |tables| > 0 && SameGrids(tables) && k < |tables| && end < |tables[k].ys|
    requires tables[k].xs[0] <= x <= tables[k].xs[|tables[k].xs| - 1] && tables[k].ys[0] <= y <= tables[k].ys[end]
    ensures Interpolate(tables[k], x, y).Ok?
    ensures Interpolate(tables[k], x, y).value <= Largest(Worst(tables), end + 1)
  {
    var t := tables[k];
    AxisOrder(t.ys, end, |t.ys| - 1);
    IntervalFraction(t.xs, x);
    IntervalFraction(t.ys, y);
    LoadColumns(t.ys, y, end);
    var u, v := Interval(t.xs, x).value, Interval(t.ys, y).value;
    InterpolateIs(t, x, y, u.0, u.1, v.0, v.1);
    BlendInside(tables, end, k, u.0, u.1, v.0, v.1);
  }

  lemma InterpolateIs(t: Table, x: real, y: real, i: nat, a: real, j: nat, b: real)
    requires Interval(t.xs, x) == Ok((i, a)) && Interval(t.ys, y) == Ok((j, b))
    ensures Interpolate(t, x, y)
         == Ok(Blend(a, b, t.rows[i][j], t.rows[i + 1][j], t.rows[i][j + 1], t.rows[i + 1][j + 1]))
  {
  }

  lemma LargestOf(w: seq<real>, n: nat, limit: real)
    requires 0 < n <= |w| && forall j :: 0 <= j < n ==> w[j] <= limit
    ensures Largest(w, n) <= limit
  {
  }

  lemma BlendInside(tables: seq<Table>, end: nat, k: nat, i: nat, a: real, j: nat, b: real)
    requires |tables| > 0 && SameGrids(tables) && k < |tables| && end < |tables[0].ys|
    requires i + 1 < |tables[k].rows| && j + 1 < |tables[k].ys| && j <= end && 0.0 <= a <= 1.0 && 0.0 <= b <= 1.0
    requires b > 0.0 ==> j + 1 <= end
    ensures var rows := tables[k].rows;
            Blend(a, b, rows[i][j], rows[i + 1][j], rows[i][j + 1], rows[i + 1][j + 1])
            <= Largest(Worst(tables), end + 1)
  {
    var rows, bound := tables[k].rows, Largest(Worst(tables), end + 1);
    ColumnBound(tables, k, i, j, bound, end);
    ColumnBound(tables, k, i + 1, j, bound, end);
    if b > 0.0 {
      ColumnBound(tables, k, i, j + 1, bound, end);
      ColumnBound(tables, k, i + 1, j + 1, bound, end);
    }
    BlendBound(a, b, rows[i][j], rows[i + 1][j], rows[i][j + 1], rows[i + 1][j + 1], bound);
  }

  lemma IntervalFraction(axis: seq<real>, value: real)
    requires IsAxis(axis) && axis[0] <= value <= axis[|axis| - 1]
    ensures 0.0 <= Interval(axis, value).value.1 <= 1.0
  {
    var i := FirstInterval(axis, value, 0);
    FractionRange(axis[i], axis[i + 1], value);
  }

  /** A load within the envelope uses only safe columns, or meets the next column with weight zero. */
  lemma LoadColumns(axis: seq<real>, value: real, end: nat)
    requires IsAxis(axis) && end < |axis| && axis[0] <= value <= axis[end] && value <= axis[|axis| - 1]
    ensures var (j, b) := Interval(axis, value).value;
            j <= end && (b > 0.0 ==> j + 1 <= end)
  {
    var j := FirstInterval(axis, value, 0);
    if end < j {
      AxisOrder(axis, end, j);
    }
    FractionRange(axis[j], axis[j + 1], value);
  }

  lemma ColumnBound(tables: seq<Table>, k: nat, r: nat, j: nat, bound: real, end: nat)
    requires |tables| > 0 && SameGrids(tables) && k < |tables| && r < |tables[k].rows| && j <= end < |tables[0].ys|
    requires bound == Largest(Worst(tables), end + 1)
    ensures j < |tables[k].rows[r]| && tables[k].rows[r][j] <= bound
  {
    WorstIsWorst(tables, j);
  }

  /** The reported worst value is reached inside the envelope, so it cannot be lowered. */
  lemma WorstIsReached(e: Envelope, tables: seq<Table>, limit: real, end: nat)
    requires |tables| > 0 && SameGrids(tables) && IsEnvelope(e, tables, limit, end)
    ensures exists k, x, y :: 0 <= k < |tables| && e.slewMin <= x <= e.slewMax && e.loadMin <= y <= e.loadMax &&
                              Interpolate(tables[k], x, y) == Ok(e.worst)
  {
    var w := Worst(tables);
    var j :| 0 <= j < end + 1 && w[j] == Largest(w, end + 1);
    WorstIsWorst(tables, j);
    var k, r :| 0 <= k < |tables| && 0 <= r < |tables[k].rows| && tables[k].rows[r][j] == w[j];
    var t := tables[k];
    NodeExact(t, r, j);
    NodeInterval(t.xs, r);
    NodeInterval(t.ys, j);
    AxisOrder(t.ys, j, end);
  }

  function NextLoad(tables: seq<Table>, end: nat): real
    requires |tables| > 0 && end + 1 < |tables[0].ys|
  {
    tables[0].ys[end + 1]
  }

  predicate Breaks(t: Table, x: real, y: real, limit: real) {
    var r := Interpolate(t, x, y);
    r.Ok? && r.value > limit
  }

  /** Nor can the load range be extended: the next characterized load breaks the limit in some table. */
  lemma NextLoadFails(e: Envelope, tables: seq<Table>, limit: real, end: nat)
    requires |tables| > 0 && SameGrids(tables) && IsEnvelope(e, tables, limit, end) && end + 1 < |tables[0].ys|
    ensures exists k, x ::
              0 <= k < |tables| && e.slewMin <= x <= e.slewMax && Breaks(tables[k], x, NextLoad(tables, end), limit)
  {
    var w := Worst(tables);
    WorstIsWorst(tables, end + 1);
    var k, r :| 0 <= k < |tables| && 0 <= r < |tables[k].rows| && tables[k].rows[r][end + 1] == w[end + 1];
    NodeExact(tables[k], r, end + 1);
    NodeInterval(tables[k].xs, r);
    assert Breaks(tables[k], tables[k].xs[r], NextLoad(tables, end), limit);
  }
}
