/**
 What one forward pass is, position by position and column by column. The laws name every column range,
 norm, projection and cache position in numbers, and none of the functions that compute a batch; the pass
 succeeds with a result exactly when the result obeys them.
 */
module PassLaws {
  import opened Outcomes
  import opened Batches
  import opened ForwardPass
  import opened LayerStages
  import opened CausalStages

  // ----- the laws ------------------------------------------------------------------------

  /** The rows of a batch, cut to the 64 columns from `first` on. */
  function CutRows(qkv: seq<Row>, first: nat): (r: seq<Row>)
    requires first + 64 <= 2304 && AllWide(qkv)
    ensures |r| == |qkv|
  {
    seq(|qkv|, i requires 0 <= i < |qkv| => qkv[i][first..first + 64])
  }

  /** Every head keeps its cached positions and appends its own 64 columns of every row of the batch. */
  ghost predicate IsGrown(cached: seq<seq<Row>>, qkv: seq<Row>, first: nat, grown: seq<seq<Row>>)
    requires first + 768 <= 2304 && AllWide(qkv)
  {
    |cached| == |grown| == 12 &&
    forall head :: 0 <= head < 12 ==> grown[head] == cached[head] + CutRows(qkv, first + 64 * head)
  }

  /** One head of one row: its query columns over the keys and values of the first `length` positions. */
  ghost predicate IsCell<C>(ops: Ops<C>, query: Row, k: seq<Row>, v: seq<Row>, length: nat, out: Row)
    requires length <= |k| && length <= |v|
  {
    ops.cell(query, seq(length, p requires 0 <= p < length => ops.key(k[p])), v[..length]) == Some(out)
  }

  /** Columns 64 h to 64 h + 63 of the context are the cell of head h. */
  ghost predicate IsContextRow<C>(ops: Ops<C>, qkv: Row, k: seq<seq<Row>>, v: seq<seq<Row>>, length: nat, out: Row)
    requires |qkv| == 2304 && |k| == |v| == 12
    requires forall head :: 0 <= head < 12 ==> length <= |k[head]| && length <= |v[head]|
  {
    |out| == 768 &&
    forall head :: 0 <= head < 12 ==>
      IsCell(ops, qkv[64 * head..64 * head + 64], k[head], v[head], length, out[64 * head..64 * head + 64])
  }

  /** Keys grow by columns 768 to 1535, values by columns 1536 to 2303; row i sees past + i + 1 positions. */
  ghost predicate IsAttention<C>(ops: Ops<C>, qkv: seq<Row>, past: nat, cache: LayerCache, rows: seq<Row>,
                                 grown: LayerCache)
  {
    && AllWide(qkv) && IsHeads(cache.k, past) && IsHeads(cache.v, past)
    && IsGrown(cache.k, qkv, 768, grown.k) && IsGrown(cache.v, qkv, 1536, grown.v)
    && |rows| == |qkv|
    && forall i :: 0 <= i < |qkv| ==> IsContextRow(ops, qkv[i], grown.k, grown.v, past + i + 1, rows[i])
  }

  ghost predicate IsQkv<C>(ops: Ops<C>, layer: nat, h: Hidden, out: Row) {
    exists n :: ops.norm(2 * layer, h) == Some(n) && ops.linear(4 * layer, n) == Some(out)
  }

  /** One row projected and added to its residual, alone. */
  ghost predicate IsAdded<C>(ops: Ops<C>, id: nat, row: Row, h: Hidden, out: Hidden) {
    ops.addResidual(id, [row], [h]) == Some([out])
  }

  ghost predicate IsMlp<C>(ops: Ops<C>, layer: nat, h: Hidden, out: Hidden) {
    exists n, up, g ::
      && ops.norm(2 * layer + 1, h) == Some(n) && ops.linear(4 * layer + 2, n) == Some(up) && ops.gelu(up) == Some(g)
      && IsAdded(ops, 4 * layer + 3, g, h, out)
  }

  /** The rows of one layer and what they were made of. */
  datatype Inside = Inside(qkv: seq<Row>, context: seq<Row>, residual: seq<Hidden>)

  ghost predicate IsLayerOf<C>(ops: Ops<C>, layer: nat, h: seq<Hidden>, past: nat, cache: LayerCache, inside: Inside,
                               out: seq<Hidden>, grown: LayerCache)
  {
    && |inside.qkv| == |inside.residual| == |out| == |h|
    && (forall i :: 0 <= i < |h| ==> IsQkv(ops, layer, h[i], inside.qkv[i]))
    && IsAttention(ops, inside.qkv, past, cache, inside.context, grown)
    && (forall i :: 0 <= i < |h| ==> IsAdded(ops, 4 * layer + 1, inside.context[i], h[i], inside.residual[i]))
    && (forall i :: 0 <= i < |h| ==> IsMlp(ops, layer, inside.residual[i], out[i]))
  }

  ghost predicate IsLayer<C>(ops: Ops<C>, layer: nat, h: seq<Hidden>, past: nat, cache: LayerCache, out: seq<Hidden>,
                             grown: LayerCache)
  {
    exists inside :: IsLayerOf(ops, layer, h, past, cache, inside, out, grown)
  }

  /** The states before and after every layer; each layer has a cache of its own. */
  ghost predicate AreLayers<C>(ops: Ops<C>, layer: nat, states: seq<seq<Hidden>>, past: nat, caches: seq<LayerCache>,
                               grown: seq<LayerCache>)
  {
    |states| == |caches| + 1 && |grown| == |caches| &&
    forall l :: 0 <= l < |caches| ==> IsStep(ops, layer, states, past, caches, grown, l)
  }

  ghost predicate IsStep<C>(ops: Ops<C>, layer: nat, states: seq<seq<Hidden>>, past: nat, caches: seq<LayerCache>,
                            grown: seq<LayerCache>, l: nat)
    requires |states| == |caches| + 1 && |grown| == |caches| && l < |caches|
  {
    IsLayer(ops, layer + l, states[l], past, caches[l], states[l + 1], grown[l])
  }

  ghost predicate AreEmbedded<C>(ops: Ops<C>, tokens: seq<int>, past: nat, x: seq<Hidden>) {
    |x| == |tokens| && forall i :: 0 <= i < |tokens| ==> ops.embed(tokens[i], past + i) == Some(x[i])
  }

  /** The final norm of a row, projected to the vocabulary. */
  ghost predicate IsLogits<C>(ops: Ops<C>, normed: Row, out: Hidden) {
    ops.head(Hidden(normed, 0)) == Some(out)
  }

  /**
   A pass over tokens behind `past` cached positions: embedding, twelve layers, final norm, and logits of
   all rows or of the last.
   */
  ghost predicate IsPassOf<C>(ops: Ops<C>, tokens: seq<int>, cache: seq<LayerCache>, allLogits: bool,
                              states: seq<seq<Hidden>>, normed: seq<Row>, logits: seq<Hidden>,
                              grown: seq<LayerCache>)
  {
    && 1 <= |tokens| && (forall i :: 0 <= i < |tokens| ==> 0 <= tokens[i] < 50257)
    && |cache| == 12 && Past(cache) + |tokens| <= 1024
    && |states| == 13 && AreEmbedded(ops, tokens, Past(cache), states[0])
    && AreLayers(ops, 0, states, Past(cache), cache, grown)
    && |normed| == |states[12]| && (forall i :: 0 <= i < |normed| ==> ops.norm(24, states[12][i]) == Some(normed[i]))
    && |normed| > 0
    && if allLogits then |logits| == |normed| && forall i :: 0 <= i < |normed| ==> IsLogits(ops, normed[i], logits[i])
       else |logits| == 1 && IsLogits(ops, normed[|normed| - 1], logits[0])
  }

  ghost predicate IsPass<C>(ops: Ops<C>, tokens: seq<int>, cache: seq<LayerCache>, allLogits: bool,
                            logits: seq<Hidden>, grown: seq<LayerCache>)
  {
    exists states, normed :: IsPassOf(ops, tokens, cache, allLogits, states, normed, logits, grown)
  }

  /** Contexts are as wide as a head. */
  ghost predicate CellsAreWide<C(!new)>(ops: Ops<C>) {
    forall query, keys, values :: ops.cell(query, keys, values).Some? ==> |ops.cell(query, keys, values).value| == 64
  }

  // ----- row-wise stages ---------------------------------------------------------------

  lemma MapAllIs<A, B>(f: A -> Option<B>, xs: seq<A>, ys: seq<B>)
    ensures MapAll(f, xs) == Some(ys) <==> |ys| == |xs| && forall i :: 0 <= i < |xs| ==> f(xs[i]) == Some(ys[i])
  {
    MapAllAt(f, xs);
    if |ys| == |xs| && forall i :: 0 <= i < |xs| ==> f(xs[i]) == Some(ys[i]) {
      var zs := MapAll(f, xs).value;
      assert forall i :: 0 <= i < |xs| ==> f(xs[i]) == Some(zs[i]);
      assert zs == ys;
    }
  }

  lemma QueriesAre<C>(ops: Ops<C>, layer: nat, h: seq<Hidden>, qkv: seq<Row>)
    ensures Queries(ops, layer, h) == Some(qkv)
       <==> |qkv| == |h| && forall i :: 0 <= i < |h| ==> IsQkv(ops, layer, h[i], qkv[i])
  {
    var norm, linear := NormOf(ops, 2 * layer), LinearOf(ops, LinearId(layer, QKV));
    MapAllAt(norm, h);
    if MapAll(norm, h).Some? {
      var n := MapAll(norm, h).value;
      MapAllIs(linear, n, qkv);
      forall i | 0 <= i < |h| && |qkv| == |h|
        ensures linear(n[i]) == Some(qkv[i]) <==> IsQkv(ops, layer, h[i], qkv[i])
      {
        assert norm(h[i]) == Some(n[i]) == ops.norm(2 * layer, h[i]);
      }
    }
  }

  lemma {:induction false} AddedAre<C(!new)>(ops: Ops<C>, id: nat, rows: seq<Row>, h: seq<Hidden>, out: seq<Hidden>)
    requires Rowwise(ops) && |rows| == |h| > 0
    ensures ops.addResidual(id, rows, h) == Some(out)
       <==> |out| == |h| && forall i :: 0 <= i < |h| ==> IsAdded(ops, id, rows[i], h[i], out[i])
  {
    assert AddsRowwise(ops, id, rows, [], h, []);
    if |h| == 1 {
      assert rows == [rows[0]] && h == [h[0]];
      if |out| == 1 {
        assert out == [out[0]];
      }
    } else {
      var n := |h| - 1;
      var a, b, x, y := rows[..n], [rows[n]], h[..n], [h[n]];
      assert rows == a + b && h == x + y;
      assert AddsRowwise(ops, id, a, b, x, y) && AddsRowwise(ops, id, b, [], y, []);
      if |out| == |h| {
        AddedAre(ops, id, a, x, out[..n]);
        assert out == out[..n] + [out[n]];
        AddedSplit(ops.addResidual(id, a, x), ops.addResidual(id, b, y), out, n);
        assert (forall i :: 0 <= i < |h| ==> IsAdded(ops, id, rows[i], h[i], out[i]))
          <==> (forall i :: 0 <= i < n ==> IsAdded(ops, id, a[i], x[i], out[..n][i]))
               && IsAdded(ops, id, rows[n], h[n], out[n]);
      }
    }
  }

  lemma AddedSplit(a: Option<seq<Hidden>>, b: Option<seq<Hidden>>, out: seq<Hidden>, n: nat)
    requires |out| == n + 1 && (a.Some? ==> |a.value| == n) && (b.Some? ==> |b.value| == 1)
    ensures Both(a, b) == Some(out) <==> a == Some(out[..n]) && b == Some([out[n]])
  {
    if a.Some? && b.Some? {
      assert out == out[..n] + [out[n]];
      assert (a.value + b.value)[..n] == a.value && (a.value + b.value)[n] == b.value[0];
    }
  }

  /** One stage after the other on a single row. */
  function ChainAt<A, B, D>(f: A -> Option<B>, g: B -> Option<D>, a: A): Option<D> {
    var b :- f(a);
    g(b)
  }

  function Chain<A, B, D>(f: A -> Option<B>, g: B -> Option<D>): A -> Option<D> {
    (a: A) => ChainAt(f, g, a)
  }

  lemma {:induction false} MapAllChains<A, B, D>(f: A -> Option<B>, g: B -> Option<D>, xs: seq<A>)
    ensures MapAll(Chain(f, g), xs) == if MapAll(f, xs).None? then None else MapAll(g, MapAll(f, xs).value)
  {
    if xs != [] {
      var front, last := xs[..|xs| - 1], xs[|xs| - 1];
      MapAllChains(f, g, front);
      assert Chain(f, g)(last) == ChainAt(f, g, last);
      if MapAll(f, xs).Some? {
        var ys := MapAll(f, xs).value;
        assert ys[..|ys| - 1] == MapAll(f, front).value && ys[|ys| - 1] == f(last).value;
      }
    }
  }

  /** Second norm, widening projection and GELU of one row. */
  function Widened<C>(ops: Ops<C>, layer: nat): Hidden -> Option<Row> {
    Chain(Chain(NormOf(ops, 2 * layer + 1), LinearOf(ops, LinearId(layer, UP))), ops.gelu)
  }

  lemma WidenedIs<C>(ops: Ops<C>, layer: nat, h: Hidden, out: Hidden)
    ensures IsMlp(ops, layer, h, out)
       <==> Widened(ops, layer)(h).Some? && IsAdded(ops, 4 * layer + 3, Widened(ops, layer)(h).value, h, out)
  {
    var norm, linear := NormOf(ops, 2 * layer + 1), LinearOf(ops, LinearId(layer, UP));
    assert norm(h) == ops.norm(2 * layer + 1, h);
    if norm(h).Some? {
      var n := norm(h).value;
      assert linear(n) == ops.linear(4 * layer + 2, n);
      assert Chain(norm, linear)(h) == linear(n);
    } else {
      assert Chain(norm, linear)(h) == None;
    }
  }

  lemma MlpUnfolds<C>(ops: Ops<C>, layer: nat, h: seq<Hidden>)
    ensures var wide := MapAll(Widened(ops, layer), h);
            Mlp(ops, layer, h) == if wide.None? then None else ops.addResidual(4 * layer + 3, wide.value, h)
  {
    var norm, linear := NormOf(ops, 2 * layer + 1), LinearOf(ops, LinearId(layer, UP));
    MapAllChains(norm, linear, h);
    MapAllChains(Chain(norm, linear), ops.gelu, h);
  }

  lemma MlpIs<C(!new)>(ops: Ops<C>, layer: nat, h: seq<Hidden>, out: seq<Hidden>)
    requires Rowwise(ops) && |h| > 0
    ensures Mlp(ops, layer, h) == Some(out)
       <==> |out| == |h| && forall i :: 0 <= i < |h| ==> IsMlp(ops, layer, h[i], out[i])
  {
    MlpUnfolds(ops, layer, h);
    MapAllAt(Widened(ops, layer), h);
    forall i | 0 <= i < |h| && |out| == |h|
      ensures IsMlp(ops, layer, h[i], out[i])
         <==> Widened(ops, layer)(h[i]).Some?
              && IsAdded(ops, 4 * layer + 3, Widened(ops, layer)(h[i]).value, h[i], out[i])
    {
      WidenedIs(ops, layer, h[i], out[i]);
    }
    var wide := MapAll(Widened(ops, layer), h);
    if wide.Some? {
      AddedAre(ops, 4 * layer + 3, wide.value, h, out);
    }
  }

  // ----- attention -----------------------------------------------------------------------

  lemma {:induction false} HeadRowsAt<C>(ops: Ops<C>, queries: seq<Row>, keys: seq<C>, values: seq<Row>, past: nat,
                                         n: nat)
    requires n <= |queries| && |keys| == |values| && past + n <= |keys|
    ensures var r := HeadRows(ops, queries, keys, values, past, n);
            && (r.Some? <==> forall i :: 0 <= i < n ==> CellAt(ops, queries, keys, values, past, i).Some?)
            && (r.Some? ==> forall i :: 0 <= i < n ==> CellAt(ops, queries, keys, values, past, i) == Some(r.value[i]))
  {
    if n > 0 {
      HeadRowsAt(ops, queries, keys, values, past, n - 1);
      assert CellAt(ops, queries, keys, values, past, n - 1)
          == ops.cell(queries[n - 1], keys[..past + n], values[..past + n]);
    }
  }

  function CellAt<C>(ops: Ops<C>, queries: seq<Row>, keys: seq<C>, values: seq<Row>, past: nat, i: nat): Option<Row>
    requires i < |queries| && |keys| == |values| && past + i < |keys|
  {
    ops.cell(queries[i], keys[..past + i + 1], values[..past + i + 1])
  }

  lemma {:induction false} HeadContextsAt<C>(ops: Ops<C>, q: seq<seq<Row>>, k: seq<seq<Row>>, v: seq<seq<Row>>,
                                             past: nat, n: nat, heads: nat)
    requires heads <= HEADS && IsHeads(q, n) && IsHeads(k, past + n) && IsHeads(v, past + n)
    ensures var r := HeadContexts(ops, q, k, v, past, n, heads);
            && (r.Some? <==> forall h :: 0 <= h < heads ==> HeadContext(ops, q, k, v, past, n, h).Some?)
            && (r.Some? ==> forall h :: 0 <= h < heads ==> HeadContext(ops, q, k, v, past, n, h) == Some(r.value[h]))
  {
    if heads > 0 {
      HeadContextsAt(ops, q, k, v, past, n, heads - 1);
    }
  }

  lemma {:induction false} ConcatenatedCuts(parts: seq<seq<Row>>, row: nat, heads: nat)
    requires heads <= |parts| && forall h :: 0 <= h < heads ==> row < |parts[h]| && |parts[h][row]| == 64
    ensures |Concatenated(parts, row, heads)| == 64 * heads
    ensures forall h :: 0 <= h < heads ==> Concatenated(parts, row, heads)[64 * h..64 * h + 64] == parts[h][row]
  {
    if heads > 0 {
      ConcatenatedCuts(parts, row, heads - 1);
      var before := Concatenated(parts, row, heads - 1);
      var whole := Concatenated(parts, row, heads);
      forall h | 0 <= h < heads
        ensures whole[64 * h..64 * h + 64] == parts[h][row]
      {
        if h < heads - 1 {
          assert whole[64 * h..64 * h + 64] == before[64 * h..64 * h + 64];
        }
      }
    }
  }

  lemma GrownIs(cached: seq<seq<Row>>, qkv: seq<Row>, part: nat)
    requires part < 3 && AllWide(qkv) && |cached| == HEADS
    ensures forall grown :: IsGrown(cached, qkv, 768 * part, grown) <==> grown == Grown(cached, qkv, part)
  {
    forall head | 0 <= head < HEADS
      ensures Parts(qkv, part)[head] == CutRows(qkv, 768 * part + 64 * head)
    {
    }
    forall grown
      ensures IsGrown(cached, qkv, 768 * part, grown) <==> grown == Grown(cached, qkv, part)
    {
      if IsGrown(cached, qkv, 768 * part, grown) {
        assert forall head :: 0 <= head < HEADS ==> grown[head] == Grown(cached, qkv, part)[head];
      }
    }
  }

  /** The cell the loops compute for a row and a head is the cell of the laws. */
  lemma CellIs<C>(ops: Ops<C>, qkv: seq<Row>, k: seq<seq<Row>>, v: seq<seq<Row>>, past: nat, head: nat, i: nat)
    requires AllWide(qkv) && IsHeads(k, past + |qkv|) && IsHeads(v, past + |qkv|) && head < HEADS && i < |qkv|
    ensures forall out :: CellAt(ops, Parts(qkv, 0)[head], KeysOf(ops, k[head]), v[head], past, i) == Some(out) <==>
              IsCell(ops, qkv[i][64 * head..64 * head + 64], k[head], v[head], past + i + 1, out)
  {
    var length := past + i + 1;
    assert KeysOf(ops, k[head])[..length] == seq(length, p requires 0 <= p < length => ops.key(k[head][p]));
    assert Parts(qkv, 0)[head][i] == qkv[i][64 * head..64 * head + 64];
  }

  lemma EqualByCuts(a: Row, b: Row)
    requires |a| == |b| == 768
    requires forall head :: 0 <= head < 12 ==> a[64 * head..64 * head + 64] == b[64 * head..64 * head + 64]
    ensures a == b
  {
    forall j | 0 <= j < 768
      ensures a[j] == b[j]
    {
      var head := j / 64;
      assert a[64 * head..64 * head + 64][j - 64 * head] == b[64 * head..64 * head + 64][j - 64 * head];
    }
  }

  /** The cell of row i and head h, or None. */
  function CellOf<C>(ops: Ops<C>, qkv: seq<Row>, k: seq<seq<Row>>, v: seq<seq<Row>>, past: nat, head: nat, i: nat)
    : Option<Row>
    requires AllWide(qkv) && IsHeads(k, past + |qkv|) && IsHeads(v, past + |qkv|) && head < HEADS && i < |qkv|
  {
    CellAt(ops, Parts(qkv, 0)[head], KeysOf(ops, k[head]), v[head], past, i)
  }

  lemma HeadContextIs<C>(ops: Ops<C>, qkv: seq<Row>, k: seq<seq<Row>>, v: seq<seq<Row>>, past: nat, h: nat)
    requires AllWide(qkv) && IsHeads(k, past + |qkv|) && IsHeads(v, past + |qkv|) && h < HEADS
    requires IsHeads(Parts(qkv, 0), |qkv|)
    ensures var r := HeadContext(ops, Parts(qkv, 0), k, v, past, |qkv|, h);
            && (r.Some? <==> forall i :: 0 <= i < |qkv| ==> CellOf(ops, qkv, k, v, past, h, i).Some?)
            && (r.Some? ==> forall i :: 0 <= i < |qkv| ==> CellOf(ops, qkv, k, v, past, h, i) == Some(r.value[i]))
  {
    var q, keys := Parts(qkv, 0)[h], KeysOf(ops, k[h]);
    HeadRowsAt(ops, q, keys, v[h], past, |qkv|);
    forall i | 0 <= i < |qkv|
      ensures CellOf(ops, qkv, k, v, past, h, i) == CellAt(ops, q, keys, v[h], past, i)
    {
    }
    if forall i :: 0 <= i < |qkv| ==> CellOf(ops, qkv, k, v, past, h, i).Some? {
      forall i | 0 <= i < |qkv|
        ensures CellAt(ops, q, keys, v[h], past, i).Some?
      {
        assert CellOf(ops, qkv, k, v, past, h, i).Some?;
      }
    }
  }

  /** All cells of all heads, or a failure of one of them. */
  lemma ContextsAre<C>(ops: Ops<C>, qkv: seq<Row>, k: seq<seq<Row>>, v: seq<seq<Row>>, past: nat)
    requires AllWide(qkv) && IsHeads(k, past + |qkv|) && IsHeads(v, past + |qkv|)
    ensures IsHeads(Parts(qkv, 0), |qkv|)
    ensures var r := HeadContexts(ops, Parts(qkv, 0), k, v, past, |qkv|, HEADS);
            && (r.Some? <==> forall h, i :: 0 <= h < HEADS && 0 <= i < |qkv| ==>
                               CellOf(ops, qkv, k, v, past, h, i).Some?)
            && (r.Some? ==> forall h, i :: 0 <= h < HEADS && 0 <= i < |qkv| ==>
                  CellOf(ops, qkv, k, v, past, h, i) == Some(r.value[h][i]))
  {
    PartsAreHeads(qkv, 0);
    HeadContextsAt(ops, Parts(qkv, 0), k, v, past, |qkv|, HEADS);
    var r := HeadContexts(ops, Parts(qkv, 0), k, v, past, |qkv|, HEADS);
    if r.None? {
      var h :| 0 <= h < HEADS && HeadContext(ops, Parts(qkv, 0), k, v, past, |qkv|, h).None?;
      HeadContextIs(ops, qkv, k, v, past, h);
      var i :| 0 <= i < |qkv| && CellOf(ops, qkv, k, v, past, h, i).None?;
    } else {
      forall h, i | 0 <= h < HEADS && 0 <= i < |qkv|
        ensures CellOf(ops, qkv, k, v, past, h, i) == Some(r.value[h][i])
      {
        HeadContextIs(ops, qkv, k, v, past, h);
      }
    }
  }

  lemma ContextRowIs<C>(ops: Ops<C>, qkv: seq<Row>, k: seq<seq<Row>>, v: seq<seq<Row>>, past: nat, i: nat, out: Row)
    requires AllWide(qkv) && IsHeads(k, past + |qkv|) && IsHeads(v, past + |qkv|) && i < |qkv|
    ensures IsContextRow(ops, qkv[i], k, v, past + i + 1, out)
       <==> |out| == 768 && forall h :: 0 <= h < HEADS ==>
              CellOf(ops, qkv, k, v, past, h, i) == Some(out[64 * h..64 * h + 64])
  {
    if |out| == 768 {
      forall h | 0 <= h < HEADS
        ensures CellOf(ops, qkv, k, v, past, h, i) == Some(out[64 * h..64 * h + 64])
           <==> IsCell(ops, qkv[i][64 * h..64 * h + 64], k[h], v[h], past + i + 1, out[64 * h..64 * h + 64])
      {
        CellIs(ops, qkv, k, v, past, h, i);
      }
    }
  }

  /** With all cells of a row at hand, its context is their concatenation. */
  lemma RowOfCells<C>(ops: Ops<C>, qkv: seq<Row>, k: seq<seq<Row>>, v: seq<seq<Row>>, past: nat, i: nat, out: Row,
                      parts: seq<seq<Row>>)
    requires AllWide(qkv) && IsHeads(k, past + |qkv|) && IsHeads(v, past + |qkv|) && i < |qkv|
    requires |parts| == HEADS && forall h :: 0 <= h < HEADS ==>
               |parts[h]| == |qkv| && |parts[h][i]| == 64 && CellOf(ops, qkv, k, v, past, h, i) == Some(parts[h][i])
    ensures IsContextRow(ops, qkv[i], k, v, past + i + 1, out) <==> out == Concatenated(parts, i, HEADS)
  {
    ConcatenatedCuts(parts, i, HEADS);
    ContextRowIs(ops, qkv, k, v, past, i, out);
    var whole := Concatenated(parts, i, HEADS);
    if IsContextRow(ops, qkv[i], k, v, past + i + 1, out) {
      forall h | 0 <= h < HEADS
        ensures out[64 * h..64 * h + 64] == whole[64 * h..64 * h + 64]
      {
        assert CellOf(ops, qkv, k, v, past, h, i) == Some(out[64 * h..64 * h + 64]);
      }
      EqualByCuts(out, whole);
    }
  }

  lemma AttendedIs<C(!new)>(ops: Ops<C>, qkv: seq<Row>, k: seq<seq<Row>>, v: seq<seq<Row>>, past: nat, rows: seq<Row>)
    requires CellsAreWide(ops) && AllWide(qkv) && IsHeads(k, past + |qkv|) && IsHeads(v, past + |qkv|)
    ensures Attended(ops, qkv, k, v, past) == Some(rows)
       <==> |rows| == |qkv| && forall i :: 0 <= i < |qkv| ==> IsContextRow(ops, qkv[i], k, v, past + i + 1, rows[i])
  {
    ContextsAre(ops, qkv, k, v, past);
    var parts := HeadContexts(ops, Parts(qkv, 0), k, v, past, |qkv|, HEADS);
    if parts.None? {
      var h, i :| 0 <= h < HEADS && 0 <= i < |qkv| && CellOf(ops, qkv, k, v, past, h, i).None?;
      if |rows| == |qkv| {
        ContextRowIs(ops, qkv, k, v, past, i, rows[i]);
      }
    } else if |rows| == |qkv| {
      forall i | 0 <= i < |qkv|
        ensures IsContextRow(ops, qkv[i], k, v, past + i + 1, rows[i])
           <==> rows[i] == ContextRows(parts.value, |qkv|)[i]
      {
        assert forall h :: 0 <= h < HEADS ==> CellOf(ops, qkv, k, v, past, h, i) == Some(parts.value[h][i]);
        RowOfCells(ops, qkv, k, v, past, i, rows[i], parts.value);
      }
      assert rows == ContextRows(parts.value, |qkv|)
        <==> forall i :: 0 <= i < |qkv| ==> rows[i] == ContextRows(parts.value, |qkv|)[i];
    }
  }

  /** Attention succeeds with a result exactly when the result obeys the law. */
  lemma AttentionIs<C(!new)>(ops: Ops<C>, qkv: seq<Row>, past: nat, cache: LayerCache, rows: seq<Row>,
                             grown: LayerCache)
    requires CellsAreWide(ops)
    ensures Attention(ops, qkv, past, cache) == Some((rows, grown))
       <==> IsAttention(ops, qkv, past, cache, rows, grown)
  {
    if AllWide(qkv) && IsHeads(cache.k, past) && IsHeads(cache.v, past) {
      var k, v := Grown(cache.k, qkv, 1), Grown(cache.v, qkv, 2);
      GrownIs(cache.k, qkv, 1);
      GrownIs(cache.v, qkv, 2);
      PartsAreHeads(qkv, 1);
      PartsAreHeads(qkv, 2);
      JoinedGrows(cache.k, Parts(qkv, 1), past, |qkv|);
      JoinedGrows(cache.v, Parts(qkv, 2), past, |qkv|);
      AttendedIs(ops, qkv, k, v, past, rows);
      assert IsGrown(cache.k, qkv, 768, grown.k) <==> grown.k == k;
      assert IsGrown(cache.v, qkv, 1536, grown.v) <==> grown.v == v;
    }
  }

  // ----- a layer, all layers, the pass -------------------------------------------------------

  lemma LayerUnfolds<C>(ops: Ops<C>, layer: nat, h: seq<Hidden>, past: nat, cache: LayerCache, out: seq<Hidden>,
                        grown: LayerCache)
    returns (inside: Inside)
    requires LayerForward(StagesOf(ops), layer, h, past, cache) == Some((out, grown))
    ensures Queries(ops, layer, h) == Some(inside.qkv)
    ensures Attention(ops, inside.qkv, past, cache) == Some((inside.context, grown))
    ensures ops.addResidual(4 * layer + 1, inside.context, h) == Some(inside.residual)
    ensures Mlp(ops, layer, inside.residual) == Some(out)
  {
    var qkv := Queries(ops, layer, h).value;
    var context := Attention(ops, qkv, past, cache).value.0;
    inside := Inside(qkv, context, ops.addResidual(4 * layer + 1, context, h).value);
  }

  lemma LayerObeys<C(!new)>(ops: Ops<C>, layer: nat, h: seq<Hidden>, past: nat, cache: LayerCache, out: seq<Hidden>,
                            grown: LayerCache)
    requires Rowwise(ops) && CellsAreWide(ops) && |h| > 0
    requires LayerForward(StagesOf(ops), layer, h, past, cache) == Some((out, grown))
    ensures IsLayer(ops, layer, h, past, cache, out, grown) && |out| == |h|
  {
    var inside := LayerUnfolds(ops, layer, h, past, cache, out, grown);
    QueriesAre(ops, layer, h, inside.qkv);
    AttentionIs(ops, inside.qkv, past, cache, inside.context, grown);
    AddedAre(ops, 4 * layer + 1, inside.context, h, inside.residual);
    MlpIs(ops, layer, inside.residual, out);
    assert IsLayerOf(ops, layer, h, past, cache, inside, out, grown);
  }

  lemma LayerSucceeds<C(!new)>(ops: Ops<C>, layer: nat, h: seq<Hidden>, past: nat, cache: LayerCache,
                               out: seq<Hidden>, grown: LayerCache)
    requires Rowwise(ops) && CellsAreWide(ops) && |h| > 0
    requires IsLayer(ops, layer, h, past, cache, out, grown)
    ensures LayerForward(StagesOf(ops), layer, h, past, cache) == Some((out, grown)) && |out| == |h|
  {
    var inside :| IsLayerOf(ops, layer, h, past, cache, inside, out, grown);
    QueriesAre(ops, layer, h, inside.qkv);
    AttentionIs(ops, inside.qkv, past, cache, inside.context, grown);
    AddedAre(ops, 4 * layer + 1, inside.context, h, inside.residual);
    MlpIs(ops, layer, inside.residual, out);
  }

  /** Layer l turns state l into state l + 1 and its cache into the grown one. */
  ghost predicate StepsTo(s: Stages, layer: nat, states: seq<seq<Hidden>>, past: nat, caches: seq<LayerCache>,
                          grown: seq<LayerCache>, l: nat)
    requires |states| == |caches| + 1 && |grown| == |caches| && l < |caches|
  {
    LayerForward(s, layer + l, states[l], past, caches[l]) == Some((states[l + 1], grown[l]))
  }

  ghost predicate AreSteps(s: Stages, layer: nat, states: seq<seq<Hidden>>, past: nat, caches: seq<LayerCache>,
                           grown: seq<LayerCache>)
  {
    |states| == |caches| + 1 && |grown| == |caches| &&
    forall l :: 0 <= l < |caches| ==> StepsTo(s, layer, states, past, caches, grown, l)
  }

  lemma {:induction false} LayersAreSteps(s: Stages, layer: nat, h: seq<Hidden>, past: nat, caches: seq<LayerCache>)
    returns (states: seq<seq<Hidden>>)
    requires Layers(s, layer, h, past, caches).Some?
    ensures var (out, grown) := Layers(s, layer, h, past, caches).value;
            AreSteps(s, layer, states, past, caches, grown) && states[0] == h && states[|caches|] == out
    decreases |caches|
  {
    if caches == [] {
      states := [h];
    } else {
      var first := LayerForward(s, layer, h, past, caches[0]).value;
      var next := layer + 1;
      var rest := LayersAreSteps(s, next, first.0, past, caches[1..]);
      var grown := Layers(s, layer, h, past, caches).value.1;
      assert grown[1..] == Layers(s, next, first.0, past, caches[1..]).value.1;
      states := [h] + rest;
      forall l | 0 <= l < |caches|
        ensures StepsTo(s, layer, states, past, caches, grown, l)
      {
        if l > 0 {
          assert StepsTo(s, next, rest, past, caches[1..], grown[1..], l - 1);
        }
      }
    }
  }

  lemma {:induction false} StepsAreLayers(s: Stages, layer: nat, states: seq<seq<Hidden>>, past: nat,
                                          caches: seq<LayerCache>, grown: seq<LayerCache>)
    requires AreSteps(s, layer, states, past, caches, grown)
    ensures Layers(s, layer, states[0], past, caches) == Some((states[|caches|], grown))
    decreases |caches|
  {
    if caches == [] {
      assert grown == [];
    } else {
      var next := layer + 1;
      assert StepsTo(s, layer, states, past, caches, grown, 0);
      forall l | 0 <= l < |caches| - 1
        ensures StepsTo(s, next, states[1..], past, caches[1..], grown[1..], l)
      {
        assert StepsTo(s, layer, states, past, caches, grown, l + 1);
      }
      StepsAreLayers(s, next, states[1..], past, caches[1..], grown[1..]);
      assert grown == [grown[0]] + grown[1..];
    }
  }

  lemma StepObeys<C(!new)>(ops: Ops<C>, states: seq<seq<Hidden>>, past: nat, caches: seq<LayerCache>,
                           grown: seq<LayerCache>, l: nat)
    requires Rowwise(ops) && CellsAreWide(ops)
    requires |states| == |caches| + 1 && |grown| == |caches| && l < |caches| && |states[l]| > 0
    ensures StepsTo(StagesOf(ops), 0, states, past, caches, grown, l)
       <==> IsStep(ops, 0, states, past, caches, grown, l)
    ensures IsStep(ops, 0, states, past, caches, grown, l) ==> |states[l + 1]| == |states[l]|
  {
    if StepsTo(StagesOf(ops), 0, states, past, caches, grown, l) {
      LayerObeys(ops, l, states[l], past, caches[l], states[l + 1], grown[l]);
    } else if IsStep(ops, 0, states, past, caches, grown, l) {
      LayerSucceeds(ops, l, states[l], past, caches[l], states[l + 1], grown[l]);
    }
  }

  /** Two descriptions of a step that agree on nonempty states, and keep their size, agree all the way. */
  lemma {:induction false} AgreeAlong(p: nat -> bool, q: nat -> bool, sizes: seq<nat>, n: nat)
    requires n < |sizes| && sizes[0] > 0
    requires forall l :: 0 <= l < n ==> AgreeAt(p, q, sizes, l)
    requires (forall l :: 0 <= l < n ==> p(l)) || (forall l :: 0 <= l < n ==> q(l))
    ensures sizes[n] == sizes[0]
    ensures forall l :: 0 <= l < n ==> p(l) && q(l)
  {
    if n > 0 {
      AgreeAlong(p, q, sizes, n - 1);
      assert AgreeAt(p, q, sizes, n - 1);
    }
  }

  predicate AgreeAt(p: nat -> bool, q: nat -> bool, sizes: seq<nat>, l: nat)
    requires l + 1 < |sizes|
  {
    sizes[l] > 0 ==> p(l) == q(l) && (q(l) ==> sizes[l + 1] == sizes[l])
  }

  function RowCounts(states: seq<seq<Hidden>>): (sizes: seq<nat>)
    ensures |sizes| == |states| && forall l :: 0 <= l < |states| ==> sizes[l] == |states[l]|
  {
    seq(|states|, l requires 0 <= l < |states| => |states[l]|)
  }

  /** Step by step, the layers return what obeys the laws; no layer drops or adds a row. */
  lemma StepsObey<C(!new)>(ops: Ops<C>, states: seq<seq<Hidden>>, past: nat, caches: seq<LayerCache>,
                           grown: seq<LayerCache>)
    requires Rowwise(ops) && CellsAreWide(ops)
    requires |states| == |caches| + 1 && |grown| == |caches| && |states[0]| > 0
    ensures AreSteps(StagesOf(ops), 0, states, past, caches, grown) <==> AreLayers(ops, 0, states, past, caches, grown)
    ensures AreLayers(ops, 0, states, past, caches, grown) ==> |states[|caches|]| == |states[0]|
  {
    ghost var p := (l: nat) => l < |caches| && StepsTo(StagesOf(ops), 0, states, past, caches, grown, l);
    ghost var q := (l: nat) => l < |caches| && IsStep(ops, 0, states, past, caches, grown, l);
    forall l | 0 <= l < |caches|
      ensures AgreeAt(p, q, RowCounts(states), l)
    {
      if |states[l]| > 0 {
        StepObeys(ops, states, past, caches, grown, l);
      }
    }
    if AreSteps(StagesOf(ops), 0, states, past, caches, grown) || AreLayers(ops, 0, states, past, caches, grown) {
      assert (forall l :: 0 <= l < |caches| ==> p(l)) || (forall l :: 0 <= l < |caches| ==> q(l));
      AgreeAlong(p, q, RowCounts(states), |caches|);
      forall l | 0 <= l < |caches|
        ensures StepsTo(StagesOf(ops), 0, states, past, caches, grown, l)
        ensures IsStep(ops, 0, states, past, caches, grown, l)
      {
        assert p(l) && q(l);
      }
    }
  }

  lemma {:induction false} EmbedAt(s: Stages, tokens: seq<int>, past: nat)
    ensures Embed(s, tokens, past).Some? <==> forall i :: 0 <= i < |tokens| ==> Embedded(s, tokens, past, i).Some?
    ensures Embed(s, tokens, past).Some? ==>
              forall i :: 0 <= i < |tokens| ==> Embedded(s, tokens, past, i) == Some(Embed(s, tokens, past).value[i])
  {
    if tokens != [] {
      var n := |tokens| - 1;
      EmbedAt(s, tokens[..n], past);
      assert Embedded(s, tokens, past, n) == s.embed(tokens[n], past + n);
      assert forall i :: 0 <= i < n ==> Embedded(s, tokens[..n], past, i) == Embedded(s, tokens, past, i);
    }
  }

  function Embedded(s: Stages, tokens: seq<int>, past: nat, i: nat): Option<Hidden>
    requires i < |tokens|
  {
    s.embed(tokens[i], past + i)
  }

  lemma EmbeddedIs<C>(ops: Ops<C>, tokens: seq<int>, past: nat, x: seq<Hidden>)
    ensures Embed(StagesOf(ops), tokens, past) == Some(x) <==> AreEmbedded(ops, tokens, past, x)
  {
    var s := StagesOf(ops);
    EmbedAt(s, tokens, past);
    assert forall i :: 0 <= i < |tokens| ==> Embedded(s, tokens, past, i) == ops.embed(tokens[i], past + i);
    if AreEmbedded(ops, tokens, past, x) {
      assert Embed(s, tokens, past).value == x;
    }
  }

  lemma NormedIs<C>(ops: Ops<C>, x: seq<Hidden>, normed: seq<Row>)
    ensures MapAll(StagesOf(ops).norm, x) == Some(normed)
       <==> |normed| == |x| && forall i :: 0 <= i < |normed| ==> ops.norm(24, x[i]) == Some(normed[i])
  {
    MapAllIs(StagesOf(ops).norm, x, normed);
    assert forall i :: 0 <= i < |x| ==> StagesOf(ops).norm(x[i]) == ops.norm(24, x[i]);
  }

  lemma LogitsAre<C>(ops: Ops<C>, normed: seq<Row>, allLogits: bool, logits: seq<Hidden>)
    requires |normed| > 0
    ensures MapAll(ops.head, if allLogits then Wrapped(normed) else LastRow(Wrapped(normed))) == Some(logits)
       <==> if allLogits then
              |logits| == |normed| && forall i :: 0 <= i < |normed| ==> IsLogits(ops, normed[i], logits[i])
            else |logits| == 1 && IsLogits(ops, normed[|normed| - 1], logits[0])
  {
    var rows := if allLogits then Wrapped(normed) else LastRow(Wrapped(normed));
    MapAllIs(ops.head, rows, logits);
  }

  /** Whatever a forward pass returns obeys the laws. */
  lemma PassObeys<C(!new)>(ops: Ops<C>, tokens: seq<int>, cache: seq<LayerCache>, allLogits: bool,
                           logits: seq<Hidden>, grown: seq<LayerCache>)
    requires Rowwise(ops) && CellsAreWide(ops)
    requires Forward(StagesOf(ops), tokens, cache, allLogits) == Some((logits, grown))
    ensures IsPass(ops, tokens, cache, allLogits, logits, grown)
  {
    var s := StagesOf(ops);
    var x := Embed(s, tokens, Past(cache)).value;
    EmbeddedIs(ops, tokens, Past(cache), x);
    var through := Layers(s, 0, x, Past(cache), cache).value;
    var states := LayersAreSteps(s, 0, x, Past(cache), cache);
    StepsObey(ops, states, Past(cache), cache, grown);
    var normed := MapAll(s.norm, through.0).value;
    NormedIs(ops, through.0, normed);
    LogitsAre(ops, normed, allLogits, logits);
    assert IsPassOf(ops, tokens, cache, allLogits, states, normed, logits, grown);
  }

  /** Whatever obeys the laws is what the forward pass returns, so it raises only where nothing obeys them. */
  lemma PassSucceeds<C(!new)>(ops: Ops<C>, tokens: seq<int>, cache: seq<LayerCache>, allLogits: bool,
                              logits: seq<Hidden>, grown: seq<LayerCache>)
    requires Rowwise(ops) && CellsAreWide(ops)
    requires IsPass(ops, tokens, cache, allLogits, logits, grown)
    ensures Forward(StagesOf(ops), tokens, cache, allLogits) == Some((logits, grown))
  {
    var states, normed :| IsPassOf(ops, tokens, cache, allLogits, states, normed, logits, grown);
    EmbeddedIs(ops, tokens, Past(cache), states[0]);
    StepsObey(ops, states, Past(cache), cache, grown);
    StepsAreLayers(StagesOf(ops), 0, states, Past(cache), cache, grown);
    NormedIs(ops, states[12], normed);
    LogitsAre(ops, normed, allLogits, logits);
  }
}
