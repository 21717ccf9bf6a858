/**
 Cached decoding equals recomputation, for any stages whose batches split: a batch a + b gives what a
 gives, followed by what b gives with the cache a left behind, exceptions included.
 */
module CausalCache {
  import opened Outcomes
  import opened Batches
  import opened ForwardPass

  /** A result of the first part continued by a result of the second, which may depend on the first's cache. */
  function Continued<T, C>(first: Option<(seq<T>, C)>, second: C -> Option<(seq<T>, C)>): Option<(seq<T>, C)> {
    var x :- first;
    var y :- second(x.1);
    Some((x.0 + y.0, y.1))
  }

  // ----- what is asked of the stages ---------------------------------------------------

  ghost predicate QueriesSplitAt(s: Stages, layer: nat, a: seq<Hidden>, b: seq<Hidden>) {
    s.queries(layer, a + b) == Both(s.queries(layer, a), s.queries(layer, b))
  }

  ghost predicate QueriesKeepLength(s: Stages, layer: nat, h: seq<Hidden>) {
    s.queries(layer, h).Some? ==> |s.queries(layer, h).value| == |h|
  }

  function AttentionFrom(s: Stages, qkv: seq<Row>, past: nat): LayerCache -> Option<(seq<Row>, LayerCache)> {
    (cache: LayerCache) => s.attention(qkv, past, cache)
  }

  ghost predicate AttentionSplitsAt(s: Stages, a: seq<Row>, b: seq<Row>, past: nat, cache: LayerCache) {
    s.attention(a + b, past, cache) == Continued(s.attention(a, past, cache), AttentionFrom(s, b, past + |a|))
  }

  ghost predicate AttentionKeepsLength(s: Stages, qkv: seq<Row>, past: nat, cache: LayerCache) {
    s.attention(qkv, past, cache).Some? ==>
      var r := s.attention(qkv, past, cache).value;
      |r.0| == |qkv| && |r.1.k| == HEADS && |r.1.k[0]| == past + |qkv|
  }

  ghost predicate ResidualSplitsAt(s: Stages, id: nat, a: seq<Row>, b: seq<Row>, ha: seq<Hidden>, hb: seq<Hidden>) {
    |a| == |ha| && |b| == |hb| ==>
      s.addResidual(id, a + b, ha + hb) == Both(s.addResidual(id, a, ha), s.addResidual(id, b, hb))
  }

  ghost predicate ResidualKeepsLength(s: Stages, id: nat, rows: seq<Row>, h: seq<Hidden>) {
    s.addResidual(id, rows, h).Some? ==> |s.addResidual(id, rows, h).value| == |h|
  }

  ghost predicate MlpSplitsAt(s: Stages, layer: nat, a: seq<Hidden>, b: seq<Hidden>) {
    s.mlp(layer, a + b) == Both(s.mlp(layer, a), s.mlp(layer, b))
  }

  ghost predicate MlpKeepsLength(s: Stages, layer: nat, h: seq<Hidden>) {
    s.mlp(layer, h).Some? ==> |s.mlp(layer, h).value| == |h|
  }

  /** Every stage splits and keeps its rows; attention may look back at the cache, never ahead. */
  ghost predicate Causal(s: Stages) {
    && (forall layer, a, b :: QueriesSplitAt(s, layer, a, b))
    && (forall layer, h :: QueriesKeepLength(s, layer, h))
    && (forall a, b, past, cache :: AttentionSplitsAt(s, a, b, past, cache))
    && (forall qkv, past, cache :: AttentionKeepsLength(s, qkv, past, cache))
    && (forall id, a, b, ha, hb :: ResidualSplitsAt(s, id, a, b, ha, hb))
    && (forall id, rows, h :: ResidualKeepsLength(s, id, rows, h))
    && (forall layer, a, b :: MlpSplitsAt(s, layer, a, b))
    && (forall layer, h :: MlpKeepsLength(s, layer, h))
  }

  // ----- one layer and all layers ----------------------------------------------------------

  function LayerFrom(s: Stages, layer: nat, h: seq<Hidden>, past: nat): LayerCache -> Option<(seq<Hidden>,
                     LayerCache)> {
    (cache: LayerCache) => LayerForward(s, layer, h, past, cache)
  }

  lemma LayerSplits(s: Stages, layer: nat, a: seq<Hidden>, b: seq<Hidden>, past: nat, cache: LayerCache)
    requires Causal(s)
    ensures LayerForward(s, layer, a + b, past, cache)
         == Continued(LayerForward(s, layer, a, past, cache), LayerFrom(s, layer, b, past + |a|))
  {
    assert QueriesSplitAt(s, layer, a, b) && QueriesKeepLength(s, layer, a) && QueriesKeepLength(s, layer, b);
    var qa, qb := s.queries(layer, a), s.queries(layer, b);
    if qa.Some? && qb.Some? {
      assert AttentionSplitsAt(s, qa.value, qb.value, past, cache) && AttentionKeepsLength(s, qa.value, past, cache);
      var first := s.attention(qa.value, past, cache);
      if first.Some? {
        var second := s.attention(qb.value, past + |a|, first.value.1);
        assert AttentionKeepsLength(s, qb.value, past + |a|, first.value.1);
        if second.Some? {
          var id := LinearId(layer, ATTENTION);
          assert ResidualSplitsAt(s, id, first.value.0, second.value.0, a, b);
          var ra, rb := s.addResidual(id, first.value.0, a), s.addResidual(id, second.value.0, b);
          if ra.Some? && rb.Some? {
            assert MlpSplitsAt(s, layer, ra.value, rb.value);
          }
        }
      }
    }
  }

  lemma LayerKeepsRows(s: Stages, layer: nat, h: seq<Hidden>, past: nat, cache: LayerCache)
    requires Causal(s) && LayerForward(s, layer, h, past, cache).Some?
    ensures var r := LayerForward(s, layer, h, past, cache).value;
            |r.0| == |h| && |r.1.k| == HEADS && |r.1.k[0]| == past + |h|
  {
    assert QueriesKeepLength(s, layer, h);
    var qkv := s.queries(layer, h).value;
    assert AttentionKeepsLength(s, qkv, past, cache);
    var rows := s.attention(qkv, past, cache).value.0;
    assert ResidualKeepsLength(s, LinearId(layer, ATTENTION), rows, h);
    assert MlpKeepsLength(s, layer, s.addResidual(LinearId(layer, ATTENTION), rows, h).value);
  }

  function LayersFrom(s: Stages, layer: nat, h: seq<Hidden>, past: nat): seq<LayerCache> -> Option<(seq<Hidden>,
                      seq<LayerCache>)> {
    (caches: seq<LayerCache>) => Layers(s, layer, h, past, caches)
  }

  /** Through all the layers, the rows of the prefix and the cache they leave are what the suffix needs. */
  lemma {:induction false} LayersSplit(s: Stages, layer: nat, a: seq<Hidden>, b: seq<Hidden>, past: nat,
                                       caches: seq<LayerCache>)
    requires Causal(s)
    ensures Layers(s, layer, a + b, past, caches)
         == Continued(Layers(s, layer, a, past, caches), LayersFrom(s, layer, b, past + |a|))
    decreases |caches|
  {
    if caches != [] {
      LayerSplits(s, layer, a, b, past, caches[0]);
      var first := LayerForward(s, layer, a, past, caches[0]);
      if first.Some? {
        LayerKeepsRows(s, layer, a, past, caches[0]);
        var rest := Layers(s, layer + 1, first.value.0, past, caches[1..]);
        var second := LayerForward(s, layer, b, past + |a|, first.value.1);
        if second.Some? {
          LayersSplit(s, layer + 1, first.value.0, second.value.0, past, caches[1..]);
        }
        if rest.Some? {
          var grown := [first.value.1] + rest.value.1;
          assert grown[0] == first.value.1 && grown[1..] == rest.value.1;
        }
      }
    }
  }

  lemma {:induction false} LayersKeepRows(s: Stages, layer: nat, h: seq<Hidden>, past: nat, caches: seq<LayerCache>)
    requires Causal(s) && Layers(s, layer, h, past, caches).Some?
    ensures |Layers(s, layer, h, past, caches).value.0| == |h|
    ensures caches != [] ==> var next := Layers(s, layer, h, past, caches).value.1;
                             |next[0].k| == HEADS && |next[0].k[0]| == past + |h|
    decreases |caches|
  {
    if caches != [] {
      LayerKeepsRows(s, layer, h, past, caches[0]);
      LayersKeepRows(s, layer + 1, LayerForward(s, layer, h, past, caches[0]).value.0, past, caches[1..]);
    }
  }

  // ----- the whole pass ----------------------------------------------------------------------

  lemma {:induction false} EmbedSplits(s: Stages, a: seq<int>, b: seq<int>, past: nat)
    ensures Embed(s, a + b, past) == Both(Embed(s, a, past), Embed(s, b, past + |a|))
  {
    if b == [] {
      assert a + b == a;
      if Embed(s, a, past).Some? {
        assert Embed(s, a, past).value + [] == Embed(s, a, past).value;
      }
    } else {
      var n := |b| - 1;
      assert (a + b)[..|a + b| - 1] == a + b[..n];
      EmbedSplits(s, a, b[..n], past);
      var x, y := Embed(s, a, past), Embed(s, b[..n], past + |a|);
      var last := s.embed(b[n], past + |a| + n);
      if x.Some? && y.Some? && last.Some? {
        assert x.value + y.value + [last.value] == x.value + (y.value + [last.value]);
      }
    }
  }

  function BodyFrom(s: Stages, tokens: seq<int>): seq<LayerCache> -> Option<(seq<Hidden>, seq<LayerCache>)> {
    (caches: seq<LayerCache>) => Body(s, tokens, caches)
  }

  /** What Body does with the embedded rows. */
  function Through(s: Stages, x: seq<Hidden>, past: nat, cache: seq<LayerCache>): Option<(seq<Hidden>,
                   seq<LayerCache>)> {
    var through :- Layers(s, 0, x, past, cache);
    var n :- MapAll(s.norm, through.0);
    Some((Wrapped(n), through.1))
  }

  function ThroughFrom(s: Stages, x: seq<Hidden>, past: nat): seq<LayerCache> -> Option<(seq<Hidden>,
                       seq<LayerCache>)> {
    (caches: seq<LayerCache>) => Through(s, x, past, caches)
  }

  lemma ThroughSplits(s: Stages, xa: seq<Hidden>, xb: seq<Hidden>, past: nat, cache: seq<LayerCache>)
    requires Causal(s)
    ensures Through(s, xa + xb, past, cache) == Continued(Through(s, xa, past, cache), ThroughFrom(s, xb, past + |xa|))
  {
    LayersSplit(s, 0, xa, xb, past, cache);
    var la := Layers(s, 0, xa, past, cache);
    if la.Some? {
      var lb := Layers(s, 0, xb, past + |xa|, la.value.1);
      if lb.Some? {
        NormsSplit(s, la.value.0, lb.value.0);
      }
    }
  }

  lemma BodySplits(s: Stages, a: seq<int>, b: seq<int>, cache: seq<LayerCache>)
    requires Causal(s) && |a| > 0 && |b| > 0
    ensures Body(s, a + b, cache) == Continued(Body(s, a, cache), BodyFrom(s, b))
  {
    TokensSplit(a, b);
    if |cache| == LAYERS && TokensInRange(a) && Past(cache) + |a| <= CONTEXT {
      var past := Past(cache);
      EmbedSplits(s, a, b, past);
      var xa, xb := Embed(s, a, past), Embed(s, b, past + |a|);
      if xa.Some? {
        var la := Layers(s, 0, xa.value, past, cache);
        if la.Some? {
          LayersKeepRows(s, 0, xa.value, past, cache);
        }
        if xb.Some? {
          ThroughSplits(s, xa.value, xb.value, past, cache);
        }
      }
    }
  }

  lemma NormsSplit(s: Stages, a: seq<Hidden>, b: seq<Hidden>)
    ensures MapAll(s.norm, a + b) == Both(MapAll(s.norm, a), MapAll(s.norm, b))
    ensures forall na: seq<Row>, nb: seq<Row> :: Wrapped(na + nb) == Wrapped(na) + Wrapped(nb)
  {
    MapAllSplits(s.norm, a, b);
    forall na: seq<Row>, nb: seq<Row>
      ensures Wrapped(na + nb) == Wrapped(na) + Wrapped(nb)
    {
    }
  }

  lemma TokensSplit(a: seq<int>, b: seq<int>)
    ensures TokensInRange(a + b) <==> TokensInRange(a) && TokensInRange(b)
  {
    assert forall i :: 0 <= i < |a| ==> (a + b)[i] == a[i];
    assert forall i :: 0 <= i < |b| ==> (a + b)[|a| + i] == b[i];
  }

  lemma BodyRows(s: Stages, tokens: seq<int>, cache: seq<LayerCache>)
    requires Causal(s) && Body(s, tokens, cache).Some?
    ensures |Body(s, tokens, cache).value.0| == |tokens| > 0
  {
    LayersKeepRows(s, 0, Embed(s, tokens, Past(cache)).value, Past(cache), cache);
  }

  /**
   The cache theorem.  For every nonempty split of a token sequence and every starting cache: once the
   prefix has been forwarded, forwarding the suffix with its cache succeeds exactly when one full
   forward does, leaves the same cache in all twelve layers, and gives the same logits; with all
   logits requested, the full result is the prefix rows followed by the suffix rows.
   */
  lemma CachedForwardEqualsFull(s: Stages, a: seq<int>, b: seq<int>, cache: seq<LayerCache>, allLogits: bool)
    requires Causal(s) && |a| > 0 && |b| > 0
    requires Forward(s, a, cache, allLogits).Some?
    ensures var first := Forward(s, a, cache, allLogits).value;
            var full, suffix := Forward(s, a + b, cache, allLogits), Forward(s, b, first.1, allLogits);
            && (full.Some? <==> suffix.Some?)
            && (full.Some? ==>
                 && full.value.1 == suffix.value.1
                 && full.value.0 == (if allLogits then first.0 else []) + suffix.value.0)
  {
    BodySplits(s, a, b, cache);
    BodyRows(s, a, cache);
    var first := Body(s, a, cache).value;
    if Body(s, b, first.1).Some? {
      BodyRows(s, b, first.1);
      var second := Body(s, b, first.1).value;
      HeadSplits(s, first.0, second.0);
    }
  }

  lemma HeadSplits(s: Stages, a: seq<Hidden>, b: seq<Hidden>)
    requires |a| > 0 && |b| > 0
    ensures MapAll(s.head, a + b) == Both(MapAll(s.head, a), MapAll(s.head, b))
    ensures LastRow(a + b) == LastRow(b)
    ensures forall r: seq<Hidden> :: [] + r == r
  {
    MapAllSplits(s.head, a, b);
  }

  /** Conversely, a full forward that yields every row needs the prefix to have succeeded too. */
  lemma FullForwardNeedsPrefix(s: Stages, a: seq<int>, b: seq<int>, cache: seq<LayerCache>)
    requires Causal(s) && |a| > 0 && |b| > 0
    requires Forward(s, a + b, cache, true).Some?
    ensures Forward(s, a, cache, true).Some?
  {
    BodySplits(s, a, b, cache);
    var first := Body(s, a, cache).value;
    MapAllSplits(s.head, first.0, Body(s, b, first.1).value.0);
  }

  // ----- generation ------------------------------------------------------------------------------

  /** np.argmax over the first n entries: the first index of the largest one. */
  function ArgMax(x: Row, n: nat): (i: nat)
    requires 0 < n <= |x|
    ensures i < n
    ensures forall j :: 0 <= j < n ==> x[j] <= x[i]
    ensures forall j :: 0 <= j < i ==> x[j] < x[i]
  {
    if n == 1 then 0
    else
      var best := ArgMax(x, n - 1);
      if x[n - 1] > x[best] then n - 1 else best
  }

  function NextToken(logits: seq<Hidden>): Option<int> {
    if |logits| == 0 || |logits[|logits| - 1].x| == 0 then None
    else Some(ArgMax(logits[|logits| - 1].x, |logits[|logits| - 1].x|))
  }

  function Pick(forward: Option<(seq<Hidden>, seq<LayerCache>)>): Option<int> {
    var f :- forward;
    NextToken(f.0)
  }

  /** Greedy generation without a cache: each token is picked after the prompt and all tokens before it. */
  function Recomputed(pick: seq<int> -> Option<int>, tokens: seq<int>, count: nat): (r: Option<seq<int>>)
    ensures r.Some? ==> |r.value| == count
  {
    if count == 0 then Some([])
    else
      var before :- Recomputed(pick, tokens, count - 1);
      var token :- pick(tokens + before);
      Some(before + [token])
  }

  lemma {:induction false} FailureStays(pick: seq<int> -> Option<int>, tokens: seq<int>, n: nat, count: nat)
    requires n <= count && Recomputed(pick, tokens, n).None?
    ensures Recomputed(pick, tokens, count).None?
  {
    if n < count {
      FailureStays(pick, tokens, n, count - 1);
    }
  }

  /** One step with the cache in place of a full forward: the same choice, or a failure of both. */
  lemma StepAgrees(s: Stages, start: seq<LayerCache>, before: seq<int>, token: int)
    requires Causal(s) && |before| > 0 && Forward(s, before, start, false).Some?
    ensures Forward(s, before + [token], start, false)
         == Forward(s, [token], Forward(s, before, start, false).value.1, false)
  {
    CachedForwardEqualsFull(s, before, [token], start, false);
    var suffix := Forward(s, [token], Forward(s, before, start, false).value.1, false);
    if suffix.Some? {
      assert [] + suffix.value.0 == suffix.value.0;
    }
  }

  /** One more token of the recomputation, or its failure from here on. */
  lemma RecomputedNext(pick: seq<int> -> Option<int>, tokens: seq<int>, generated: seq<int>, step: nat, count: nat)
    requires Recomputed(pick, tokens, step) == Some(generated) && step < count
    ensures var token := pick(tokens + generated);
            && (token.Some? ==> Recomputed(pick, tokens, step + 1) == Some(generated + [token.value]))
            && (token.None? ==> Recomputed(pick, tokens, count) == None)
  {
    if pick(tokens + generated).None? {
      FailureStays(pick, tokens, step + 1, count);
    }
  }

  type Pass = (seq<int>, seq<LayerCache>) -> Option<(seq<Hidden>, seq<LayerCache>)>

  /** forward with the logits of the last row only. */
  function LastLogits(s: Stages): Pass {
    (tokens: seq<int>, cache: seq<LayerCache>) => Forward(s, tokens, cache, false)
  }

  /** Forwarding one token with the cache of a prefix is as good as forwarding the longer prefix. */
  ghost predicate StepsAgree(pass: Pass, start: seq<LayerCache>) {
    && pass([], start).None?
    && forall before, token ::
         |before| > 0 && pass(before, start).Some? ==> SameStep(pass, start, before, token)
  }

  ghost predicate SameStep(pass: Pass, start: seq<LayerCache>, before: seq<int>, token: int)
    requires pass(before, start).Some?
  {
    pass(before + [token], start) == pass([token], pass(before, start).value.1)
  }

  lemma LastLogitsAgree(s: Stages, start: seq<LayerCache>)
    requires Causal(s)
    ensures StepsAgree(LastLogits(s), start)
  {
    forall before: seq<int>, token: int | |before| > 0 && LastLogits(s)(before, start).Some?
      ensures SameStep(LastLogits(s), start, before, token)
    {
      StepAgrees(s, start, before, token);
    }
  }

  function PickWith(pass: Pass, start: seq<LayerCache>): seq<int> -> Option<int> {
    (tokens: seq<int>) => Pick(pass(tokens, start))
  }

  /** The next token after a sequence, from one full forward of it. */
  function PickFrom(s: Stages, start: seq<LayerCache>): seq<int> -> Option<int> {
    PickWith(LastLogits(s), start)
  }

  /** The loop of generate over any forward pass whose steps agree. */
  method GenerateWith(pass: Pass, start: seq<LayerCache>, tokens: seq<int>, count: int) returns (r: Option<seq<int>>)
    requires StepsAgree(pass, start)
    ensures count < 1 || |tokens| + count > CONTEXT ==> r == None
    ensures 1 <= count <= CONTEXT - |tokens| ==> r == Recomputed(PickWith(pass, start), tokens, count)
  {
    if count < 1 || |tokens| + count > CONTEXT {
      return None;
    }
    ghost var pick := PickWith(pass, start);
    var generated: seq<int> := [];
    assert tokens + generated == tokens;
    var forward := pass(tokens, start);
    RecomputedNext(pick, tokens, generated, 0, count);
    if forward.None? {
      return None;
    }
    for step := 0 to count
      invariant |generated| == step && |tokens| > 0
      invariant Recomputed(pick, tokens, step) == Some(generated)
      invariant step < count ==> forward.Some? && forward == pass(tokens + generated, start)
    {
      var token := NextToken(forward.value.0);
      RecomputedNext(pick, tokens, generated, step, count);
      if token.None? {
        return None;
      }
      ghost var before := tokens + generated;
      generated := generated + [token.value];
      assert before + [token.value] == tokens + generated;
      if step + 1 < count {
        assert SameStep(pass, start, before, token.value);
        forward := pass([token.value], forward.value.1);
        RecomputedNext(pick, tokens, generated, step + 1, count);
        if forward.None? {
          return None;
        }
      }
    }
    return Some(generated);
  }

  /**
   generate: one full forward, then one forward per token with the cache.  For every prompt and count
   it yields exactly the tokens of full recomputation, and raises exactly when that does.
   */
  method Generate(s: Stages, start: seq<LayerCache>, tokens: seq<int>, count: int) returns (r: Option<seq<int>>)
    requires Causal(s)
    ensures count < 1 || |tokens| + count > CONTEXT ==> r == None
    ensures 1 <= count <= CONTEXT - |tokens| ==> r == Recomputed(PickFrom(s, start), tokens, count)
  {
    LastLogitsAgree(s, start);
    r := GenerateWith(LastLogits(s), start, tokens, count);
  }
}
