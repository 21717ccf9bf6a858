/** Batches of rows, each of which may raise: None stands for a raised exception. */
module Batches {
  import opened Outcomes

  function MapAll<A, B>(f: A -> Option<B>, xs: seq<A>): (r: Option<seq<B>>)
    ensures r.Some? ==> |r.value| == |xs|
  {
    if xs == [] then Some([])
    else
      var rest :- MapAll(f, xs[..|xs| - 1]);
      var last :- f(xs[|xs| - 1]);
      Some(rest + [last])
  }

  /** Two results one after the other; a failure of either is a failure. */
  function Both<B>(a: Option<seq<B>>, b: Option<seq<B>>): Option<seq<B>> {
    if a.None? || b.None? then None else Some(a.value + b.value)
  }

  lemma {:induction false} MapAllSplits<A, B>(f: A -> Option<B>, xs: seq<A>, ys: seq<A>)
    ensures MapAll(f, xs + ys) == Both(MapAll(f, xs), MapAll(f, ys))
  {
    if ys == [] {
      assert xs + ys == xs;
      if MapAll(f, xs).Some? {
        assert MapAll(f, xs).value + [] == MapAll(f, xs).value;
      }
    } else {
      var front := ys[..|ys| - 1];
      assert (xs + ys)[..|xs + ys| - 1] == xs + front;
      MapAllSplits(f, xs, front);
      if MapAll(f, xs).Some? && MapAll(f, ys).Some? {
        var a, b := MapAll(f, xs).value, MapAll(f, front).value;
        var last := f(ys[|ys| - 1]).value;
        assert a + b + [last] == a + (b + [last]);
      }
    }
  }

  lemma {:induction false} MapAllPointwise<A, B, C>(f: A -> Option<C>, xs: seq<A>, g: B -> Option<C>, ys: seq<B>)
    requires |xs| == |ys| && forall i :: 0 <= i < |xs| ==> f(xs[i]) == g(ys[i])
    ensures MapAll(f, xs) == MapAll(g, ys)
  {
    if xs != [] {
      MapAllPointwise(f, xs[..|xs| - 1], g, ys[..|ys| - 1]);
    }
  }

  lemma {:induction false} MapAllAt<A, B>(f: A -> Option<B>, xs: seq<A>)
    ensures MapAll(f, xs).Some? <==> forall i :: 0 <= i < |xs| ==> f(xs[i]).Some?
    ensures MapAll(f, xs).Some? ==> forall i :: 0 <= i < |xs| ==> f(xs[i]) == Some(MapAll(f, xs).value[i])
  {
    if xs != [] {
      var front := xs[..|xs| - 1];
      MapAllAt(f, front);
      assert forall i :: 0 <= i < |front| ==> front[i] == xs[i];
    }
  }

  function Zip<A, B>(a: seq<A>, b: seq<B>): (z: seq<(A, B)>)
    requires |a| == |b|
    ensures |z| == |a|
  {
    seq(|a|, i requires 0 <= i < |a| => (a[i], b[i]))
  }

  lemma ZipSplits<A, B>(a: seq<A>, b: seq<B>, c: seq<A>, d: seq<B>)
    requires |a| == |b| && |c| == |d|
    ensures Zip(a + c, b + d) == Zip(a, b) + Zip(c, d)
  {
  }
}

/**
 The dataflow of the three forward passes: which rows and which cache each stage reads, and how the
 key/value cache grows.  The stages of a layer are fields of Stages, each a function of a whole batch.
 */
module ForwardPass {
  import opened Outcomes
  import opened Batches

  type Row = seq<int>

  const LAYERS := 12
  const HEADS := 12
  const HEAD_WIDTH := 64
  const CONTEXT := 1024
  const VOCABULARY := 50257

  /** A row of int16 payloads and its power-of-two storage exponent (zero in the quantized model). */
  datatype Hidden = Hidden(x: Row, e: int)

  /** Keys and values of one layer, by head and position. */
  datatype LayerCache = LayerCache(k: seq<seq<Row>>, v: seq<seq<Row>>)

  datatype Stages = Stages(
    embed: (int, nat) -> Option<Hidden>,                                             // token, position
    queries: (nat, seq<Hidden>) -> Option<seq<Row>>,                                 // norm and joint projection
    attention: (seq<Row>, nat, LayerCache) -> Option<(seq<Row>, LayerCache)>,        // batch, past, cache
    addResidual: (nat, seq<Row>, seq<Hidden>) -> Option<seq<Hidden>>,
    mlp: (nat, seq<Hidden>) -> Option<seq<Hidden>>,
    norm: Hidden -> Option<Row>,                                                     // final norm
    head: Hidden -> Option<Hidden>)                                                  // vocabulary projection

  const ATTENTION := 1

  function LinearId(layer: nat, which: nat): nat {
    4 * layer + which
  }

  function LayerForward(s: Stages, layer: nat, h: seq<Hidden>, past: nat, cache: LayerCache): Option<(seq<Hidden>,
                        LayerCache)> {
    var qkv :- s.queries(layer, h);
    var attended :- s.attention(qkv, past, cache);
    var residual :- s.addResidual(LinearId(layer, ATTENTION), attended.0, h);
    var output :- s.mlp(layer, residual);
    Some((output, attended.1))
  }

  /** The layers from `layer` on; caches lists theirs. */
  function Layers(s: Stages, layer: nat, h: seq<Hidden>, past: nat,
                  caches: seq<LayerCache>): (r: Option<(seq<Hidden>, seq<LayerCache>)>)
    ensures r.Some? ==> |r.value.1| == |caches|
    decreases |caches|
  {
    if caches == [] then Some((h, []))
    else
      var first :- LayerForward(s, layer, h, past, caches[0]);
      var rest :- Layers(s, layer + 1, first.0, past, caches[1..]);
      Some((rest.0, [first.1] + rest.1))
  }

  /** cache=None: no position has been cached in any layer. */
  function NoCache(): (cache: seq<LayerCache>)
    ensures |cache| == LAYERS
  {
    var none: seq<seq<Row>> := seq(HEADS, h => []);
    seq(LAYERS, l => LayerCache(none, none))
  }

  function Past(cache: seq<LayerCache>): nat
    requires |cache| == LAYERS
  {
    if |cache[0].k| == 0 then 0 else |cache[0].k[0]|
  }

  predicate TokensInRange(tokens: seq<int>) {
    forall i :: 0 <= i < |tokens| ==> 0 <= tokens[i] < VOCABULARY
  }

  /** Rows after the final norm carry no exponent. */
  function Wrapped(n: seq<Row>): (h: seq<Hidden>)
    ensures |h| == |n|
  {
    seq(|n|, i requires 0 <= i < |n| => Hidden(n[i], 0))
  }

  function Embed(s: Stages, tokens: seq<int>, past: nat): (r: Option<seq<Hidden>>)
    ensures r.Some? ==> |r.value| == |tokens|
  {
    if tokens == [] then Some([])
    else
      var n := |tokens| - 1;
      var before :- Embed(s, tokens[..n], past);
      var last :- s.embed(tokens[n], past + n);
      Some(before + [last])
  }

  /** Everything before the vocabulary projection: the normalized rows and the grown cache. */
  function Body(s: Stages, tokens: seq<int>, cache: seq<LayerCache>): (r: Option<(seq<Hidden>, seq<LayerCache>)>)
    ensures r.Some? ==> |r.value.1| == LAYERS
  {
    if |tokens| == 0 || !TokensInRange(tokens) || |cache| != LAYERS then None
    else if Past(cache) + |tokens| > CONTEXT then None
    else
      var x :- Embed(s, tokens, Past(cache));
      var through :- Layers(s, 0, x, Past(cache), cache);
      var n :- MapAll(s.norm, through.0);
      Some((Wrapped(n), through.1))
  }

  function LastRow(rows: seq<Hidden>): seq<Hidden> {
    if rows == [] then [] else [rows[|rows| - 1]]
  }

  /** forward: logits of every row or of the last one, and the cache for the next call. */
  function Forward(s: Stages, tokens: seq<int>, cache: seq<LayerCache>, allLogits: bool): (r: Option<(seq<Hidden>,
                   seq<LayerCache>)>)
    ensures r.Some? ==> |r.value.1| == LAYERS
  {
    var body :- Body(s, tokens, cache);
    var logits :- MapAll(s.head, if allLogits then body.0 else LastRow(body.0));
    Some((logits, body.1))
  }
}

/**
 The stages of a layer in terms of operations on single rows: attention over the causal prefix with keys
 quantized per token, and the row-wise norms and projections.
 */
module LayerStages {
  import opened Outcomes
  import opened Batches
  import opened ForwardPass

  datatype Ops<!C> = Ops(
    embed: (int, nat) -> Option<Hidden>,
    norm: (nat, Hidden) -> Option<Row>,
    linear: (nat, Row) -> Option<Row>,
    gelu: Row -> Option<Row>,
    key: Row -> C,                                        // one key, quantized on its own
    cell: (Row, seq<C>, seq<Row>) -> Option<Row>,         // query, keys and values of its prefix
    addResidual: (nat, seq<Row>, seq<Hidden>) -> Option<seq<Hidden>>,
    head: Hidden -> Option<Hidden>)

  function KeysOf<C>(ops: Ops<C>, k: seq<Row>): (c: seq<C>)
    ensures |c| == |k|
  {
    seq(|k|, i requires 0 <= i < |k| => ops.key(k[i]))
  }

  /** The first n rows of one head; row r sees the first past + r + 1 positions. */
  function HeadRows<C>(ops: Ops<C>, queries: seq<Row>, keys: seq<C>, values: seq<Row>, past: nat,
                       n: nat): (r: Option<seq<Row>>)
    requires n <= |queries| && |keys| == |values| && past + n <= |keys|
    ensures r.Some? ==> |r.value| == n
  {
    if n == 0 then Some([])
    else
      var before :- HeadRows(ops, queries, keys, values, past, n - 1);
      var cell :- ops.cell(queries[n - 1], keys[..past + n], values[..past + n]);
      Some(before + [cell])
  }

  /** The slices of the joint projection that belong to one head: part 0 queries, 1 keys, 2 values. */
  function HeadPart(qkv: seq<Row>, part: nat, head: nat): (r: seq<Row>)
    requires part < 3 && head < HEADS && forall i :: 0 <= i < |qkv| ==> |qkv[i]| == 2304
    ensures |r| == |qkv|
  {
    seq(|qkv|, i requires 0 <= i < |qkv| => qkv[i][part * 768 + head * 64..part * 768 + head * 64 + 64])
  }

  function Parts(qkv: seq<Row>, part: nat): (r: seq<seq<Row>>)
    requires part < 3 && forall i :: 0 <= i < |qkv| ==> |qkv[i]| == 2304
    ensures |r| == HEADS
  {
    seq(HEADS, head requires 0 <= head < HEADS => HeadPart(qkv, part, head))
  }

  predicate IsHeads(k: seq<seq<Row>>, past: nat) {
    && |k| == HEADS
    && (forall h :: 0 <= h < HEADS ==> |k[h]| == past)
    && (forall h, i :: 0 <= h < HEADS && 0 <= i < past ==> |k[h][i]| == HEAD_WIDTH)
  }

  function Joined(a: seq<seq<Row>>, b: seq<seq<Row>>): (r: seq<seq<Row>>)
    requires |a| == HEADS && |b| == HEADS
    ensures |r| == HEADS
  {
    seq(HEADS, h requires 0 <= h < HEADS => a[h] + b[h])
  }

  function HeadContext<C>(ops: Ops<C>, q: seq<seq<Row>>, k: seq<seq<Row>>, v: seq<seq<Row>>, past: nat, n: nat,
                          head: nat): (r: Option<seq<Row>>)
    requires head < HEADS && IsHeads(q, n) && IsHeads(k, past + n) && IsHeads(v, past + n)
    ensures r.Some? ==> |r.value| == n
  {
    HeadRows(ops, q[head], KeysOf(ops, k[head]), v[head], past, n)
  }

  /** Heads outside, rows inside: the context of the first `heads` heads, one list of rows a head. */
  function HeadContexts<C>(ops: Ops<C>, q: seq<seq<Row>>, k: seq<seq<Row>>, v: seq<seq<Row>>, past: nat, n: nat,
                           heads: nat): (r: Option<seq<seq<Row>>>)
    requires heads <= HEADS && IsHeads(q, n) && IsHeads(k, past + n) && IsHeads(v, past + n)
    ensures r.Some? ==> |r.value| == heads && forall h :: 0 <= h < heads ==> |r.value[h]| == n
  {
    if heads == 0 then Some([])
    else
      var before :- HeadContexts(ops, q, k, v, past, n, heads - 1);
      var next :- HeadContext(ops, q, k, v, past, n, heads - 1);
      Some(before + [next])
  }

  function Concatenated(parts: seq<seq<Row>>, row: nat, heads: nat): Row
    requires heads <= |parts| && forall h :: 0 <= h < heads ==> row < |parts[h]|
  {
    if heads == 0 then [] else Concatenated(parts, row, heads - 1) + parts[heads - 1][row]
  }

  function ContextRows(parts: seq<seq<Row>>, n: nat): (r: seq<Row>)
    requires |parts| == HEADS && forall h :: 0 <= h < HEADS ==> |parts[h]| == n
    ensures |r| == n
  {
    seq(n, i requires 0 <= i < n => Concatenated(parts, i, HEADS))
  }

  // ----- stages ------------------------------------------------------------------------------------

  const QKV := 0
  const UP := 2
  const DOWN := 3

  function NormOf<C>(ops: Ops<C>, id: nat): Hidden -> Option<Row> {
    (h: Hidden) => ops.norm(id, h)
  }

  function LinearOf<C>(ops: Ops<C>, id: nat): Row -> Option<Row> {
    (row: Row) => ops.linear(id, row)
  }

  function Queries<C>(ops: Ops<C>, layer: nat, h: seq<Hidden>): Option<seq<Row>> {
    var n1 :- MapAll(NormOf(ops, 2 * layer), h);
    MapAll(LinearOf(ops, LinearId(layer, QKV)), n1)
  }

  predicate AllWide(qkv: seq<Row>) {
    forall i :: 0 <= i < |qkv| ==> |qkv[i]| == 2304
  }

  /** The grown keys or values of a layer: the cached positions, then those of the batch. */
  function Grown(cached: seq<seq<Row>>, qkv: seq<Row>, part: nat): (r: seq<seq<Row>>)
    requires part < 3 && AllWide(qkv) && |cached| == HEADS
    ensures |r| == HEADS
  {
    Joined(cached, Parts(qkv, part))
  }

  /** Attention of a batch over the cached positions and its own. */
  function Attention<C>(ops: Ops<C>, qkv: seq<Row>, past: nat, cache: LayerCache): Option<(seq<Row>, LayerCache)> {
    if !AllWide(qkv) || !IsHeads(cache.k, past) || !IsHeads(cache.v, past) then None
    else
      var k, v := Grown(cache.k, qkv, 1), Grown(cache.v, qkv, 2);
      var rows :- Attended(ops, qkv, k, v, past);
      Some((rows, LayerCache(k, v)))
  }

  function Attended<C>(ops: Ops<C>, qkv: seq<Row>, k: seq<seq<Row>>, v: seq<seq<Row>>, past: nat): (r: Option<seq<Row>>)
    requires AllWide(qkv) && IsHeads(k, past + |qkv|) && IsHeads(v, past + |qkv|)
    ensures r.Some? ==> |r.value| == |qkv|
  {
    var parts :- HeadContexts(ops, Parts(qkv, 0), k, v, past, |qkv|, HEADS);
    Some(ContextRows(parts, |qkv|))
  }

  function Mlp<C>(ops: Ops<C>, layer: nat, residual: seq<Hidden>): Option<seq<Hidden>> {
    var n2 :- MapAll(NormOf(ops, 2 * layer + 1), residual);
    var up :- MapAll(LinearOf(ops, LinearId(layer, UP)), n2);
    var gelu :- MapAll(ops.gelu, up);
    ops.addResidual(LinearId(layer, DOWN), gelu, residual)
  }

  function StagesOf<C>(ops: Ops<C>): Stages {
    Stages(
      ops.embed,
      (layer: nat, h: seq<Hidden>) => Queries(ops, layer, h),
      (qkv: seq<Row>, past: nat, cache: LayerCache) => Attention(ops, qkv, past, cache),
      ops.addResidual,
      (layer: nat, residual: seq<Hidden>) => Mlp(ops, layer, residual),
      (h: Hidden) => ops.norm(24, h),
      ops.head)
  }
}
