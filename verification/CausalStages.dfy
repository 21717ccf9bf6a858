/**
 The stages of LayerStages are causal: attention gives a row the same context whether later rows are in
 the batch or not, and every other stage acts on single rows.
 */
module CausalStages {
  import opened Batches
  import opened ForwardPass
  import opened LayerStages
  import opened CausalCache

  ghost predicate AddsRowwise<C>(ops: Ops<C>, id: nat, a: seq<Row>, b: seq<Row>, ha: seq<Hidden>, hb: seq<Hidden>) {
    && (|a| == |ha| && |b| == |hb| ==>
          ops.addResidual(id, a + b, ha + hb) == Both(ops.addResidual(id, a, ha), ops.addResidual(id, b, hb)))
    && (ops.addResidual(id, a, ha).Some? ==> |ops.addResidual(id, a, ha).value| == |ha|)
  }

  /** The one batch operation among the row operations, adding to the residual, couples no rows. */
  ghost predicate Rowwise<C(!new)>(ops: Ops<C>) {
    forall id, a, b, ha, hb :: AddsRowwise(ops, id, a, b, ha, hb)
  }

  // ----- row-wise stages ------------------------------------------------------------

  lemma QueriesSplit<C>(ops: Ops<C>, layer: nat, a: seq<Hidden>, b: seq<Hidden>)
    ensures Queries(ops, layer, a + b) == Both(Queries(ops, layer, a), Queries(ops, layer, b))
  {
    MapAllSplits(NormOf(ops, 2 * layer), a, b);
    var na, nb := MapAll(NormOf(ops, 2 * layer), a), MapAll(NormOf(ops, 2 * layer), b);
    if na.Some? && nb.Some? {
      MapAllSplits(LinearOf(ops, LinearId(layer, QKV)), na.value, nb.value);
    }
  }

  lemma WideSplits(a: seq<Row>, b: seq<Row>)
    ensures AllWide(a + b) <==> AllWide(a) && AllWide(b)
  {
    assert forall i :: 0 <= i < |a| ==> (a + b)[i] == a[i];
    assert forall i :: 0 <= i < |b| ==> (a + b)[|a| + i] == b[i];
  }

  lemma MlpSplits<C(!new)>(ops: Ops<C>, layer: nat, a: seq<Hidden>, b: seq<Hidden>)
    requires Rowwise(ops)
    ensures Mlp(ops, layer, a + b) == Both(Mlp(ops, layer, a), Mlp(ops, layer, b))
  {
    var norm, up := NormOf(ops, 2 * layer + 1), LinearOf(ops, LinearId(layer, UP));
    MapAllSplits(norm, a, b);
    if MapAll(norm, a).Some? && MapAll(norm, b).Some? {
      var na, nb := MapAll(norm, a).value, MapAll(norm, b).value;
      MapAllSplits(up, na, nb);
      if MapAll(up, na).Some? && MapAll(up, nb).Some? {
        var ua, ub := MapAll(up, na).value, MapAll(up, nb).value;
        MapAllSplits(ops.gelu, ua, ub);
        if MapAll(ops.gelu, ua).Some? && MapAll(ops.gelu, ub).Some? {
          assert AddsRowwise(ops, LinearId(layer, DOWN), MapAll(ops.gelu, ua).value, MapAll(ops.gelu, ub).value, a, b);
        }
      }
    }
  }

  lemma MlpKeepsRows<C(!new)>(ops: Ops<C>, layer: nat, h: seq<Hidden>)
    requires Rowwise(ops) && Mlp(ops, layer, h).Some?
    ensures |Mlp(ops, layer, h).value| == |h|
  {
    var n2 := MapAll(NormOf(ops, 2 * layer + 1), h).value;
    var up := MapAll(LinearOf(ops, LinearId(layer, UP)), n2).value;
    assert AddsRowwise(ops, LinearId(layer, DOWN), MapAll(ops.gelu, up).value, [], h, []);
  }

  // ----- attention ---------------------------------------------------------------------

  /** Later keys and values do not reach earlier rows. */
  lemma {:induction false} EarlierRows<C>(ops: Ops<C>, qa: seq<Row>, qb: seq<Row>, keys: seq<C>, values: seq<Row>,
                                          past: nat, n: nat)
    requires n <= |qa| && |keys| == |values| && past + |qa| <= |keys|
    ensures HeadRows(ops, qa + qb, keys, values, past, n)
         == HeadRows(ops, qa, keys[..past + |qa|], values[..past + |qa|], past, n)
  {
    if n > 0 {
      EarlierRows(ops, qa, qb, keys, values, past, n - 1);
      var end := past + |qa|;
      assert keys[..end][..past + n] == keys[..past + n] && values[..end][..past + n] == values[..past + n];
    }
  }

  /** Later rows of the batch are the rows of the suffix, whose prefix has grown. */
  lemma {:induction false} LaterRows<C>(ops: Ops<C>, qa: seq<Row>, qb: seq<Row>, keys: seq<C>, values: seq<Row>,
                                        past: nat, n: nat)
    requires n <= |qb| && |keys| == |values| && past + |qa| + n <= |keys|
    ensures HeadRows(ops, qa + qb, keys, values, past, |qa| + n)
         == Both(HeadRows(ops, qa + qb, keys, values, past, |qa|), HeadRows(ops, qb, keys, values, past + |qa|, n))
  {
    var first := HeadRows(ops, qa + qb, keys, values, past, |qa|);
    if n == 0 {
      if first.Some? {
        assert first.value + [] == first.value;
      }
    } else {
      LaterRows(ops, qa, qb, keys, values, past, n - 1);
      var second := HeadRows(ops, qb, keys, values, past + |qa|, n - 1);
      if first.Some? && second.Some? {
        var cell := ops.cell(qb[n - 1], keys[..past + |qa| + n], values[..past + |qa| + n]);
        if cell.Some? {
          assert first.value + second.value + [cell.value] == first.value + (second.value + [cell.value]);
        }
      }
    }
  }

  /** Keys are quantized per token, so the cached ones do not change when tokens are added. */
  lemma QuantizedKeysStay<C>(ops: Ops<C>, k: seq<Row>, n: nat)
    requires n <= |k|
    ensures KeysOf(ops, k)[..n] == KeysOf(ops, k[..n])
  {
  }

  /** One layer's keys and values before, after the first part, and after both. */
  ghost predicate Grows(whole: seq<seq<Row>>, part: seq<seq<Row>>, past: nat, n: nat) {
    IsHeads(part, past) && IsHeads(whole, past + n) && forall h :: 0 <= h < HEADS ==> whole[h][..past] == part[h]
  }

  lemma HeadContextSplits<C>(ops: Ops<C>, qa: seq<seq<Row>>, qb: seq<seq<Row>>, k: seq<seq<Row>>, v: seq<seq<Row>>,
                             ka: seq<seq<Row>>, va: seq<seq<Row>>, past: nat, na: nat, nb: nat, head: nat)
    requires head < HEADS && IsHeads(qa, na) && IsHeads(qb, nb) && IsHeads(Joined(qa, qb), na + nb)
    requires Grows(k, ka, past + na, nb) && Grows(v, va, past + na, nb)
    ensures HeadContext(ops, Joined(qa, qb), k, v, past, na + nb, head)
         == Both(HeadContext(ops, qa, ka, va, past, na, head), HeadContext(ops, qb, k, v, past + na, nb, head))
  {
    var keys := KeysOf(ops, k[head]);
    QuantizedKeysStay(ops, k[head], past + na);
    EarlierRows(ops, qa[head], qb[head], keys, v[head], past, na);
    LaterRows(ops, qa[head], qb[head], keys, v[head], past, nb);
  }

  ghost predicate IsHeadwise(whole: seq<seq<Row>>, a: seq<seq<Row>>, b: seq<seq<Row>>, heads: nat) {
    |whole| == |a| == |b| == heads && forall h :: 0 <= h < heads ==> whole[h] == a[h] + b[h]
  }

  lemma {:induction false} HeadContextsSplit<C>(ops: Ops<C>, qa: seq<seq<Row>>, qb: seq<seq<Row>>, k: seq<seq<Row>>,
                                                v: seq<seq<Row>>,
                              ka: seq<seq<Row>>, va: seq<seq<Row>>, past: nat, na: nat, nb: nat, heads: nat)
    requires heads <= HEADS && IsHeads(qa, na) && IsHeads(qb, nb) && IsHeads(Joined(qa, qb), na + nb)
    requires Grows(k, ka, past + na, nb) && Grows(v, va, past + na, nb)
    ensures var whole := HeadContexts(ops, Joined(qa, qb), k, v, past, na + nb, heads);
            var a := HeadContexts(ops, qa, ka, va, past, na, heads);
            var b := HeadContexts(ops, qb, k, v, past + na, nb, heads);
            && (whole.Some? <==> a.Some? && b.Some?)
            && (whole.Some? ==> IsHeadwise(whole.value, a.value, b.value, heads))
  {
    if heads > 0 {
      HeadContextsSplit(ops, qa, qb, k, v, ka, va, past, na, nb, heads - 1);
      HeadContextSplits(ops, qa, qb, k, v, ka, va, past, na, nb, heads - 1);
    }
  }

  lemma {:induction false} ConcatenatedSplits(whole: seq<seq<Row>>, a: seq<seq<Row>>, b: seq<seq<Row>>, na: nat,
                                              nb: nat, row: nat, heads: nat)
    requires heads <= HEADS && IsHeadwise(whole, a, b, HEADS) && row < na + nb
    requires forall h :: 0 <= h < HEADS ==> |a[h]| == na && |b[h]| == nb
    ensures Concatenated(whole, row, heads)
         == if row < na then Concatenated(a, row, heads) else Concatenated(b, row - na, heads)
  {
    if heads > 0 {
      ConcatenatedSplits(whole, a, b, na, nb, row, heads - 1);
    }
  }

  lemma ContextRowsSplit(whole: seq<seq<Row>>, a: seq<seq<Row>>, b: seq<seq<Row>>, na: nat, nb: nat)
    requires IsHeadwise(whole, a, b, HEADS)
    requires forall h :: 0 <= h < HEADS ==> |a[h]| == na && |b[h]| == nb
    ensures ContextRows(whole, na + nb) == ContextRows(a, na) + ContextRows(b, nb)
  {
    forall row | 0 <= row < na + nb
      ensures ContextRows(whole, na + nb)[row] == (ContextRows(a, na) + ContextRows(b, nb))[row]
    {
      ConcatenatedSplits(whole, a, b, na, nb, row, HEADS);
    }
  }

  lemma PartsSplit(a: seq<Row>, b: seq<Row>, part: nat)
    requires part < 3 && AllWide(a) && AllWide(b)
    ensures AllWide(a + b) && Parts(a + b, part) == Joined(Parts(a, part), Parts(b, part))
  {
    forall h | 0 <= h < HEADS
      ensures Parts(a + b, part)[h] == Parts(a, part)[h] + Parts(b, part)[h]
    {
    }
  }

  lemma PartsAreHeads(a: seq<Row>, part: nat)
    requires part < 3 && AllWide(a)
    ensures IsHeads(Parts(a, part), |a|)
  {
  }

  lemma JoinedAssociates(a: seq<seq<Row>>, b: seq<seq<Row>>, c: seq<seq<Row>>)
    requires |a| == |b| == |c| == HEADS
    ensures Joined(a, Joined(b, c)) == Joined(Joined(a, b), c)
  {
    forall h | 0 <= h < HEADS
      ensures Joined(a, Joined(b, c))[h] == Joined(Joined(a, b), c)[h]
    {
      assert a[h] + (b[h] + c[h]) == (a[h] + b[h]) + c[h];
    }
  }

  lemma JoinedGrows(part: seq<seq<Row>>, more: seq<seq<Row>>, past: nat, n: nat)
    requires IsHeads(part, past) && IsHeads(more, n)
    ensures Grows(Joined(part, more), part, past, n)
  {
    forall h | 0 <= h < HEADS
      ensures Joined(part, more)[h][..past] == part[h]
    {
    }
  }

  lemma AttendedSplits<C>(ops: Ops<C>, a: seq<Row>, b: seq<Row>, k: seq<seq<Row>>, v: seq<seq<Row>>,
                          ka: seq<seq<Row>>, va: seq<seq<Row>>, past: nat)
    requires AllWide(a) && AllWide(b) && AllWide(a + b)
    requires Grows(k, ka, past + |a|, |b|) && Grows(v, va, past + |a|, |b|)
    ensures Attended(ops, a + b, k, v, past)
         == Both(Attended(ops, a, ka, va, past), Attended(ops, b, k, v, past + |a|))
  {
    var na, nb := |a|, |b|;
    PartsSplit(a, b, 0);
    PartsAreHeads(a, 0);
    PartsAreHeads(b, 0);
    PartsAreHeads(a + b, 0);
    HeadContextsSplit(ops, Parts(a, 0), Parts(b, 0), k, v, ka, va, past, na, nb, HEADS);
    var whole := HeadContexts(ops, Parts(a + b, 0), k, v, past, na + nb, HEADS);
    if whole.Some? {
      ContextRowsSplit(whole.value, HeadContexts(ops, Parts(a, 0), ka, va, past, na, HEADS).value,
                       HeadContexts(ops, Parts(b, 0), k, v, past + na, nb, HEADS).value, na, nb);
    }
  }

  lemma GrownSplits(cached: seq<seq<Row>>, a: seq<Row>, b: seq<Row>, part: nat, past: nat)
    requires part < 3 && AllWide(a) && AllWide(b) && AllWide(a + b) && IsHeads(cached, past)
    ensures Grown(cached, a + b, part) == Grown(Grown(cached, a, part), b, part)
    ensures IsHeads(Grown(cached, a, part), past + |a|)
    ensures Grows(Grown(cached, a + b, part), Grown(cached, a, part), past + |a|, |b|)
  {
    PartsSplit(a, b, part);
    PartsAreHeads(a, part);
    PartsAreHeads(b, part);
    JoinedAssociates(cached, Parts(a, part), Parts(b, part));
    JoinedGrows(cached, Parts(a, part), past, |a|);
    JoinedGrows(Grown(cached, a, part), Parts(b, part), past + |a|, |b|);
  }

  /** Attention of a + b is attention of a, then attention of b over the cache that a has grown. */
  lemma AttentionSplits<C>(ops: Ops<C>, a: seq<Row>, b: seq<Row>, past: nat, cache: LayerCache)
    ensures AttentionSplitsAt(StagesOf(ops), a, b, past, cache)
  {
    WideSplits(a, b);
    if AllWide(a) && AllWide(b) && IsHeads(cache.k, past) && IsHeads(cache.v, past) {
      GrownSplits(cache.k, a, b, 1, past);
      GrownSplits(cache.v, a, b, 2, past);
      AttendedSplits(ops, a, b, Grown(cache.k, a + b, 1), Grown(cache.v, a + b, 2),
                     Grown(cache.k, a, 1), Grown(cache.v, a, 2), past);
    }
  }

  lemma AttentionGrowsCache<C>(ops: Ops<C>, qkv: seq<Row>, past: nat, cache: LayerCache)
    ensures AttentionKeepsLength(StagesOf(ops), qkv, past, cache)
  {
    if AllWide(qkv) && IsHeads(cache.k, past) && IsHeads(cache.v, past) {
      PartsAreHeads(qkv, 1);
      JoinedGrows(cache.k, Parts(qkv, 1), past, |qkv|);
    }
  }

  /** Every stage built from row-wise operations is causal. */
  lemma StagesAreCausal<C(!new)>(ops: Ops<C>)
    requires Rowwise(ops)
    ensures Causal(StagesOf(ops))
  {
    var s := StagesOf(ops);
    forall layer, a, b
      ensures QueriesSplitAt(s, layer, a, b)
    {
      QueriesSplit(ops, layer, a, b);
    }
    forall a, b, past, cache
      ensures AttentionSplitsAt(s, a, b, past, cache)
    {
      AttentionSplits(ops, a, b, past, cache);
    }
    forall qkv, past, cache
      ensures AttentionKeepsLength(s, qkv, past, cache)
    {
      AttentionGrowsCache(ops, qkv, past, cache);
    }
    forall layer, a, b
      ensures MlpSplitsAt(s, layer, a, b)
    {
      MlpSplits(ops, layer, a, b);
    }
    forall layer, h
      ensures MlpKeepsLength(s, layer, h)
    {
      if Mlp(ops, layer, h).Some? {
        MlpKeepsRows(ops, layer, h);
      }
    }
    forall id, a, b, ha, hb
      ensures ResidualSplitsAt(s, id, a, b, ha, hb)
    {
      assert AddsRowwise(ops, id, a, b, ha, hb);
    }
    forall id, rows, h
      ensures ResidualKeepsLength(s, id, rows, h)
    {
      assert AddsRowwise(ops, id, rows, [], h, []);
    }
  }
}
