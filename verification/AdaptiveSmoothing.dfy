/** The real row operations meet what the cache theorem asks, the adaptive batch branch included. */
module AdaptiveSmoothing {
  import opened Outcomes
  import opened Batches
  import opened ForwardPass
  import opened LayerStages
  import opened RowOperations
  import CausalCache
  import opened CausalStages

  // ----- smoothing is row-wise ---------------------------------------------------

  /** What smoothing does to one row on its own. */
  function SmoothAlone<F>(m: Model<F>, id: nat): Row -> Option<Hidden> {
    (row: Row) => SmoothAloneRow(m, id, row)
  }

  function SmoothAloneRow<F>(m: Model<F>, id: nat, row: Row): Option<Hidden> {
    if !m.kind.Adaptive? then SmoothedRow(m, id, row, 0, m.smoothScales(id))
    else
      var prospective :- ProspectiveRow(m, id, row);
      SmoothSlowRow(m, id, row, prospective)
  }

  /**
   The adaptive branch on whether any row of the batch overflows does not couple the rows: on either
   side of it each row is smoothed as if it were alone.
   */
  lemma SmoothIsRowwise<F(!new)>(m: Model<F>, id: nat, rows: seq<Row>)
    requires DividingByOneIsExact(m)
    ensures Smooth(m, id, rows) == MapAll(SmoothAlone(m, id), rows)
  {
    if !m.kind.Adaptive? {
      MapAllPointwise(SmoothAtZero(m, id), rows, SmoothAlone(m, id), rows);
    } else {
      MapAllAt(Prospective(m, id), rows);
      if MapAll(Prospective(m, id), rows).None? {
        MapAllAt(SmoothAlone(m, id), rows);
        var i :| 0 <= i < |rows| && Prospective(m, id)(rows[i]).None?;
        assert SmoothAlone(m, id)(rows[i]).None?;
      } else {
        var prospective := MapAll(Prospective(m, id), rows).value;
        forall i | 0 <= i < |rows|
          ensures SmoothAlone(m, id)(rows[i]) == SmoothSlowRow(m, id, rows[i], prospective[i])
          ensures !Overflows(prospective[i]) ==> SmoothAlone(m, id)(rows[i]) == SmoothAtZero(m, id)(rows[i])
        {
          assert Prospective(m, id)(rows[i]) == Some(prospective[i]);
        }
        if !AnyOverflow(prospective) {
          MapAllPointwise(SmoothAtZero(m, id), rows, SmoothAlone(m, id), rows);
        } else {
          MapAllPointwise(SmoothSlow(m, id), Zip(rows, prospective), SmoothAlone(m, id), rows);
        }
      }
    }
  }

  lemma SmoothSplits<F(!new)>(m: Model<F>, id: nat, a: seq<Row>, b: seq<Row>)
    requires DividingByOneIsExact(m)
    ensures Smooth(m, id, a + b) == Both(Smooth(m, id, a), Smooth(m, id, b))
  {
    SmoothIsRowwise(m, id, a);
    SmoothIsRowwise(m, id, b);
    SmoothIsRowwise(m, id, a + b);
    MapAllSplits(SmoothAlone(m, id), a, b);
  }

  lemma AddResidualSplits<F(!new)>(m: Model<F>, id: nat, a: seq<Row>, b: seq<Row>, ha: seq<Hidden>, hb: seq<Hidden>)
    requires DividingByOneIsExact(m) && |a| == |ha| && |b| == |hb|
    ensures AddResidual(m, id, a + b, ha + hb) == Both(AddResidual(m, id, a, ha), AddResidual(m, id, b, hb))
  {
    if m.kind.Quantized? {
      ZipSplits(a, ha, b, hb);
      MapAllSplits(SumOf(m, id), Zip(a, ha), Zip(b, hb));
    } else {
      SmoothSplits(m, id, a, b);
      if Smooth(m, id, a).Some? && Smooth(m, id, b).Some? {
        var sa, sb := Smooth(m, id, a).value, Smooth(m, id, b).value;
        ZipSplits(sa, ha, sb, hb);
        MapAllSplits(ResidualOf(m, id), Zip(sa, ha), Zip(sb, hb));
      }
    }
  }

  lemma ModelIsRowwise<F(!new)>(m: Model<F>)
    requires DividingByOneIsExact(m)
    ensures Rowwise(OpsOf(m))
  {
    forall id, a, b, ha, hb
      ensures AddsRowwise(OpsOf(m), id, a, b, ha, hb)
    {
      if |a| == |ha| && |b| == |hb| {
        AddResidualSplits(m, id, a, b, ha, hb);
      }
    }
  }

  /**
   The theorem for the quantized, scaled and adaptive models: every nonempty split of the tokens, every
   starting cache, logits of all rows or of the last.
   */
  lemma CachedDecodeEqualsRecomputation<F(!new)>(m: Model<F>, a: seq<int>, b: seq<int>, cache: seq<LayerCache>,
                                                 allLogits: bool)
    requires DividingByOneIsExact(m) && |a| > 0 && |b| > 0
    requires Forward(StagesOf(OpsOf(m)), a, cache, allLogits).Some?
    ensures var s := StagesOf(OpsOf(m));
            var first := Forward(s, a, cache, allLogits).value;
            var full, suffix := Forward(s, a + b, cache, allLogits), Forward(s, b, first.1, allLogits);
            && (full.Some? <==> suffix.Some?)
            && (full.Some? ==>
                 && full.value.1 == suffix.value.1
                 && full.value.0 == (if allLogits then first.0 else []) + suffix.value.0)
  {
    ModelIsRowwise(m);
    StagesAreCausal(OpsOf(m));
    CausalCache.CachedForwardEqualsFull(StagesOf(OpsOf(m)), a, b, cache, allLogits);
  }

  /** generate() of a model, started without a cache. */
  method GenerateTokens<F(!new)>(m: Model<F>, tokens: seq<int>, count: int) returns (r: Option<seq<int>>)
    requires DividingByOneIsExact(m)
    ensures count < 1 || |tokens| + count > CONTEXT ==> r == None
    ensures 1 <= count <= CONTEXT - |tokens| ==>
              r == CausalCache.Recomputed(CausalCache.PickFrom(StagesOf(OpsOf(m)), NoCache()), tokens, count)
  {
    ModelIsRowwise(m);
    StagesAreCausal(OpsOf(m));
    r := CausalCache.Generate(StagesOf(OpsOf(m)), NoCache(), tokens, count);
  }
}
