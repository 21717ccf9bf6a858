/**
 The row operations of the quantized, scaled and adaptive models.  Integer arithmetic is written
 out; every floating-point computation is a field of Model over an arbitrary type F of scale values,
 so the results hold whatever those computations return.
 */
module RowOperations {
  import opened Outcomes
  import opened Rounding
  import opened SquareRoot
  import opened Sums
  import opened SfpuReference
  import opened SoftmaxProperties
  import opened Int8Bridge
  import opened Batches
  import opened ForwardPass
  import opened LayerStages

  datatype Kind = Quantized | Scaled | Adaptive

  datatype NormMeta = NormMeta(gain: Row, bias: Row, factor: int)

  datatype Unit = Activation | Probability

  datatype Model<!F> = Model(
    kind: Kind,
    tables: Tables,
    embedding: seq<Row>,
    position: seq<Row>,
    weights: nat -> seq<Row>,                             // columns of a linear map
    bias: (nat, int) -> Row,                              // rounded bias at an output exponent
    unit: (int, Unit) -> F,                               // dynamic scale of a multiplier
    metadata: seq<F> -> Option<(Row, nat)>,               // affine_metadata
    channelScales: (nat, F, int, int) -> seq<F>,          // linear, unit, input and output exponent
    rangeExponent: (nat, Row, F, int, Option<Hidden>) -> Option<int>,
    alignScales: (nat, int) -> seq<F>,
    scoreScales: (F, seq<F>) -> seq<F>,
    contextScales: (F, seq<F>) -> seq<F>,
    normMeta: (nat, Row, int) -> Option<NormMeta>,
    smoothScales: nat -> seq<F>,                          // reciprocal smoothing factors
    rescale: (seq<F>, int) -> seq<F>,                     // division by a power of two
    smoothExponent: (nat, Row) -> Option<int>)

  /** The one fact about the scale arithmetic that is used: dividing by 2^0 changes nothing. */
  ghost predicate DividingByOneIsExact<F(!new)>(m: Model<F>) {
    forall s :: m.rescale(s, 0) == s
  }

  // ----- row arithmetic -------------------------------------------------------------

  function Narrow(x: Row): (r: Row)
    ensures |r| == |x|
  {
    seq(|x|, i requires 0 <= i < |x| => Sat16(x[i]))
  }

  function AddRows(a: Row, b: Row): Option<Row> {
    if |a| != |b| then None else Some(seq(|a|, i requires 0 <= i < |a| => a[i] + b[i]))
  }

  function Zeros(n: nat): Row {
    seq(n, i => 0)
  }

  function Scale(x: Row, factor: int): Row {
    seq(|x|, i requires 0 <= i < |x| => x[i] * factor)
  }

  function Inner(a: Row, b: Row, n: nat): int
    requires n <= |a| && n <= |b|
  {
    if n == 0 then 0 else Inner(a, b, n - 1) + a[n - 1] * b[n - 1]
  }

  /** A row of codes times a matrix given by its columns. */
  function Products(codes: Row, columns: seq<Row>): Option<Row> {
    if exists j :: 0 <= j < |columns| && |columns[j]| != |codes| then None
    else Some(seq(|columns|, j requires 0 <= j < |columns| => Inner(codes, columns[j], |codes|)))
  }

  function Multiplied(raw: Row, multipliers: Row): Option<Row> {
    if |raw| != |multipliers| then None
    else Some(seq(|raw|, i requires 0 <= i < |raw| => raw[i] * multipliers[i]))
  }

  function Shifted(raw: Row, multipliers: Row, shift: nat): Option<Row> {
    var products :- Multiplied(raw, multipliers);
    var rounded := RneShift(products, shift);
    if rounded.Err? then None else Some(rounded.value)
  }

  /** affine: one common shift for the row, rounding, bias, saturation. */
  function Affine<F>(m: Model<F>, raw: Row, scales: seq<F>, bias: Row): Option<Row> {
    var (multipliers, shift) :- m.metadata(scales);
    var rounded :- Shifted(raw, multipliers, shift);
    var sum :- AddRows(rounded, bias);
    Some(Narrow(sum))
  }

  // ----- dynamic columns -----------------------------------------------------------------

  datatype Column<F> = Column(codes: Row, unit: F)

  function QuantizeColumn<F>(m: Model<F>, raw: Row, unit: Unit): Column<F> {
    Column(ColumnCodes(raw), m.unit(Multiplier(MaxAbs(raw)), unit))
  }

  /** dynamic_columns: each column is quantized on its own. */
  function DynamicColumns<F>(m: Model<F>, columns: seq<Row>, unit: Unit): (c: seq<Column<F>>)
    ensures |c| == |columns|
  {
    seq(|columns|, i requires 0 <= i < |columns| => QuantizeColumn(m, columns[i], unit))
  }

  function Codes<F>(c: seq<Column<F>>): seq<Row> {
    seq(|c|, i requires 0 <= i < |c| => c[i].codes)
  }

  function Units<F>(c: seq<Column<F>>): seq<F> {
    seq(|c|, i requires 0 <= i < |c| => c[i].unit)
  }

  // ----- linear maps ------------------------------------------------------------------------

  function Linear<F>(m: Model<F>, id: nat, row: Row, e: int): Option<Row> {
    var q := QuantizeColumn(m, row, Activation);
    var sums :- Products(q.codes, m.weights(id));
    Affine(m, sums, m.channelScales(id, q.unit, e, 0), m.bias(id, 0))
  }

  /** project with common output units: the exponent is chosen from the row before any narrowing. */
  function ProjectScaled<F>(m: Model<F>, id: nat, input: Hidden, residual: Option<Hidden>): Option<Hidden> {
    var q := QuantizeColumn(m, input.x, Activation);
    var sums :- Products(q.codes, m.weights(id));
    var exponent :- m.rangeExponent(id, sums, q.unit, input.e, residual);
    var branch :- Affine(m, sums, m.channelScales(id, q.unit, input.e, exponent), m.bias(id, exponent));
    if residual.None? then Some(Hidden(branch, exponent))
    else
      var prior := residual.value;
      var previous :- Affine(m, prior.x, m.alignScales(|prior.x|, prior.e - exponent), Zeros(|prior.x|));
      var sum :- AddRows(previous, branch);
      Some(Hidden(Narrow(sum), exponent))
  }

  // ----- norm ---------------------------------------------------------------------------------

  /** LayerNorm values before bias and saturation. */
  function NormCore(row: Row, gain: Row): Option<Row> {
    if |row| != |gain| || Radicand(row) < 0 || Isqrt(Radicand(row)) <= 0 then None
    else
      var denominator := Isqrt(Radicand(row));
      Some(seq(|row|, i requires 0 <= i < |row| =>
                 Rne((|row| * row[i] - Sum(row, |row|)) * gain[i] * 256, denominator)))
  }

  function NormRow<F>(m: Model<F>, id: nat, h: Hidden): Option<Row> {
    var meta :- m.normMeta(id, h.x, h.e);
    if m.kind.Quantized? then
      var core := LayerNormInt(h.x, meta.gain, if meta.factor == 1 then meta.bias else Zeros(|meta.bias|));
      if core.Err? then None
      else if meta.factor == 1 then Some(core.value)
      else
        var sum :- AddRows(Scale(core.value, meta.factor), meta.bias);
        Some(Narrow(sum))
    else
      var core :- NormCore(h.x, meta.gain);
      var first := if meta.factor == 1 then core else Scale(Narrow(core), meta.factor);
      var sum :- AddRows(first, meta.bias);
      Some(Narrow(sum))
  }

  // ----- attention ------------------------------------------------------------------------------

  function Transposed(rows: seq<Row>, width: nat): Option<seq<Row>> {
    if exists r :: 0 <= r < |rows| && |rows[r]| != width then None
    else Some(seq(width, c requires 0 <= c < width => seq(|rows|, r requires 0 <= r < |rows| => rows[r][c])))
  }

  /** Scores of one query against the keys of its causal prefix. */
  function Scores<F>(m: Model<F>, sums: Row, scales: seq<F>): Option<Row> {
    if m.kind.Quantized? then Affine(m, sums, scales, Zeros(|sums|))
    else
      var (multipliers, shift) :- m.metadata(scales);
      var raw :- Shifted(sums, multipliers, shift);
      if |raw| == 0 || !(-0x8000_0000 <= -MaxOf(raw) < 0x8000_0000) then None
      else Some(CenteredScores(raw))
  }

  /** One row of one head: the keys arrive quantized per token, the values are quantized per feature here. */
  function ContextCell<F>(m: Model<F>, query: Row, keys: seq<Column<F>>, values: seq<Row>): Option<Row> {
    var q := QuantizeColumn(m, query, Activation);
    var sums :- Products(q.codes, Codes(keys));
    var scores :- Scores(m, sums, m.scoreScales(q.unit, Units(keys)));
    var probabilities := Softmax(m.tables, scores, AllValid(|scores|));
    if probabilities.Err? then None
    else
      var p := QuantizeColumn(m, probabilities.value, Probability);
      var features :- Transposed(values, HEAD_WIDTH);
      var v := DynamicColumns(m, features, Activation);
      var value :- Products(p.codes, Codes(v));
      Affine(m, value, m.contextScales(p.unit, Units(v)), Zeros(HEAD_WIDTH))
  }

  // ----- smoothing ----------------------------------------------------------------------------

  predicate Overflows(row: Row) {
    exists i :: 0 <= i < |row| && !(-32768 <= row[i] <= 32767)
  }

  predicate AnyOverflow(rows: seq<Row>) {
    exists r :: 0 <= r < |rows| && Overflows(rows[r])
  }

  function SmoothAtZero<F>(m: Model<F>, id: nat): Row -> Option<Hidden> {
    (row: Row) => SmoothedRow(m, id, row, 0, m.smoothScales(id))
  }

  function SmoothedRow<F>(m: Model<F>, id: nat, row: Row, e: int, scales: seq<F>): Option<Hidden> {
    var smoothed :- Affine(m, row, scales, Zeros(|row|));
    Some(Hidden(smoothed, e))
  }

  function Prospective<F>(m: Model<F>, id: nat): Row -> Option<Row> {
    (row: Row) => ProspectiveRow(m, id, row)
  }

  function ProspectiveRow<F>(m: Model<F>, id: nat, row: Row): Option<Row> {
    var (multipliers, shift) :- m.metadata(m.smoothScales(id));
    Shifted(row, multipliers, shift)
  }

  /** The slow branch: overflowing rows get their own exponent, the others keep zero. */
  function SmoothSlow<F>(m: Model<F>, id: nat): ((Row, Row)) -> Option<Hidden> {
    (pair: (Row, Row)) => SmoothSlowRow(m, id, pair.0, pair.1)
  }

  function SmoothSlowRow<F>(m: Model<F>, id: nat, row: Row, prospective: Row): Option<Hidden> {
    var e :- if Overflows(prospective) then m.smoothExponent(id, row) else Some(0);
    SmoothedRow(m, id, row, e, m.rescale(m.smoothScales(id), e))
  }

  /** smooth on a whole batch; the adaptive model branches on whether any row overflows. */
  function Smooth<F>(m: Model<F>, id: nat, rows: seq<Row>): (r: Option<seq<Hidden>>)
    ensures r.Some? ==> |r.value| == |rows|
  {
    if !m.kind.Adaptive? then MapAll(SmoothAtZero(m, id), rows)
    else
      var prospective :- MapAll(Prospective(m, id), rows);
      if !AnyOverflow(prospective) then MapAll(SmoothAtZero(m, id), rows)
      else MapAll(SmoothSlow(m, id), Zip(rows, prospective))
  }

  // ----- the operations of the dataflow -------------------------------------------------------

  function GeluRow<F>(m: Model<F>, row: Row): Option<Row> {
    var g := GeluInt(m.tables, row);
    if g.Err? then None else Some(g.value)
  }

  /** A smoothed row projected and added to its residual. */
  function ResidualOf<F>(m: Model<F>, id: nat): ((Hidden, Hidden)) -> Option<Hidden> {
    (pair: (Hidden, Hidden)) => ProjectScaled(m, id, pair.0, Some(pair.1))
  }

  /** The quantized model adds the projected row to the residual directly. */
  function SumOf<F>(m: Model<F>, id: nat): ((Row, Hidden)) -> Option<Hidden> {
    (pair: (Row, Hidden)) => SumRow(m, id, pair.0, pair.1)
  }

  function SumRow<F>(m: Model<F>, id: nat, row: Row, residual: Hidden): Option<Hidden> {
    var branch :- Linear(m, id, row, 0);
    var sum :- AddRows(residual.x, branch);
    Some(Hidden(Narrow(sum), 0))
  }

  /** Projection back into the residual stream, in the form the kind of model uses. */
  function AddResidual<F>(m: Model<F>, id: nat, rows: seq<Row>, h: seq<Hidden>): (r: Option<seq<Hidden>>)
    ensures |rows| == |h| && r.Some? ==> |r.value| == |h|
  {
    if |rows| != |h| then None
    else if m.kind.Quantized? then MapAll(SumOf(m, id), Zip(rows, h))
    else
      var smoothed :- Smooth(m, id, rows);
      MapAll(ResidualOf(m, id), Zip(smoothed, h))
  }

  function EmbedRow<F>(m: Model<F>, token: int, position: nat): Option<Hidden> {
    if !(0 <= token < |m.embedding|) || position >= |m.position| then None
    else
      var sum :- AddRows(m.embedding[token], m.position[position]);
      Some(Hidden(Narrow(sum), 0))
  }

  function HeadRow<F>(m: Model<F>, h: Hidden): Option<Hidden> {
    if m.kind.Quantized? then
      var logits :- Linear(m, 48, h.x, 0);
      Some(Hidden(logits, 0))
    else ProjectScaled(m, 48, h, None)
  }

  /** The row operations of a model. */
  function OpsOf<F>(m: Model<F>): Ops<Column<F>> {
    Ops((token: int, position: nat) => EmbedRow(m, token, position),
        (id: nat, h: Hidden) => NormRow(m, id, h),
        (id: nat, row: Row) => Linear(m, id, row, 0),
        (row: Row) => GeluRow(m, row),
        (key: Row) => QuantizeColumn(m, key, Activation),
        (query: Row, keys: seq<Column<F>>, values: seq<Row>) => ContextCell(m, query, keys, values),
        (id: nat, rows: seq<Row>, h: seq<Hidden>) => AddResidual(m, id, rows, h),
        (h: Hidden) => HeadRow(m, h))
  }
}
