/**
 The bounded arena: where every model array and every memory region goes. BuildLayout is the loop that
 assigns them; LayoutOf is what it computes, and the lemmas say what the placement guarantees.
 */
module ArenaLayout {
  import opened Outcomes

  const PACK_SHA := "d2aafeffd3e4b8a134b8e48796a1b0cf8f296a3bd150b79f07e2de037fae8fd6"
  const CANDIDATE_SHA := "a8d80d03c1aacc8a40f0f84962acd4033f0a1afb1343fd9e1ab0e9c50d0c397d"
  const ARENA_BYTES := 0x1000_0000
  const HEADER_BYTES := 65536
  const PAGE_BYTES := 4096
  const ARRAY_TABLE := 128
  const REGION_TABLE := 8192

  datatype Dtype = I1 | I2 | F8 {
    function TypeCode(): nat {
      match this case I1 => 1 case I2 => 2 case F8 => 3
    }
  }

  datatype Spec = Spec(name: string, dtype: Dtype, shape: seq<nat>)

  datatype SourceArray = SourceArray(shape: seq<nat>, dtype: Dtype, payloadBytes: nat, file: string, sha256: string)

  datatype Manifest = Manifest(schema: int, candidate: string, layout: string, arrays: map<string, SourceArray>,
                               payloadBytes: nat)

  datatype Entry = Entry(id: nat, name: string, offset: nat, bytes: nat, dtype: Dtype, shape: seq<nat>,
                         sourceFile: string, sourceSha: string)

  datatype Region = Region(id: nat, name: string, offset: nat, bytes: nat, permissions: nat)

  /** The keys of a layout that do not depend on the model. */
  datatype Identity = Identity(schema: int, status: string, sourcePack: string, candidate: string, arenaBase: nat,
                               arenaBytes: nat, headerBytes: nat)

  const IDENTITY := Identity(1, "SERIALIZED_NOT_PHYSICALLY_QUALIFIED", PACK_SHA, CANDIDATE_SHA, 0x4000_0000,
                             ARENA_BYTES, HEADER_BYTES)

  datatype Layout = Layout(identity: Identity, modelBytes: nat, payloadBytes: nat, mapped: nat, unmapped: nat,
                           arrays: seq<Entry>, regions: seq<Region>)

  /** The source only aligns to cache lines and to pages. */
  function Align(value: nat, alignment: nat): (r: nat)
    requires alignment == 64 || alignment == PAGE_BYTES
    ensures value <= r < value + alignment
    ensures if alignment == 64 then r % 64 == 0 else r % 4096 == 0
  {
    if alignment == 64 then (value + 63) / 64 * 64 else (value + 4095) / 4096 * 4096
  }

  function Product(shape: seq<nat>): nat {
    if shape == [] then 1 else shape[0] * Product(shape[1..])
  }

  function Size(spec: Spec): nat {
    var count := Product(spec.shape);
    match spec.dtype case I1 => count case I2 => 2 * count case F8 => 8 * count
  }

  function Sizes(specs: seq<Spec>): (r: seq<nat>)
    ensures |r| == |specs|
  {
    seq(|specs|, i requires 0 <= i < |specs| => Size(specs[i]))
  }

  // ----- arrays ----------------------------------------------------------------------------

  function NextEnd(cursor: nat, size: nat): nat {
    Align(cursor, 64) + size
  }

  /** The cursor after the first i arrays, when it starts at the given place. */
  function Advance(sizes: seq<nat>, start: nat, i: nat): nat
    requires i <= |sizes|
  {
    if i == 0 then start else NextEnd(Advance(sizes, start, i - 1), sizes[i - 1])
  }

  function End(specs: seq<Spec>, i: nat): nat
    requires i <= |specs|
  {
    Advance(Sizes(specs), HEADER_BYTES, i)
  }

  function Offset(specs: seq<Spec>, i: nat): nat
    requires i < |specs|
  {
    Align(End(specs, i), 64)
  }

  function ModelEnd(specs: seq<Spec>): nat {
    Align(End(specs, |specs|), PAGE_BYTES)
  }

  function Payload(specs: seq<Spec>, i: nat): nat
    requires i <= |specs|
  {
    if i == 0 then 0 else Payload(specs, i - 1) + Size(specs[i - 1])
  }

  predicate Describes(source: SourceArray, spec: Spec) {
    source.shape == spec.shape && source.dtype == spec.dtype && source.payloadBytes == Size(spec)
  }

  /** The manifest is the complete accepted inventory of exactly these arrays. */
  predicate Matches(specs: seq<Spec>, m: Manifest) {
    && m.schema == 1 && m.candidate == CANDIDATE_SHA && m.layout == "N16_K_16_signed_int8"
    && m.arrays.Keys == Names(specs)
    && (forall i :: 0 <= i < |specs| ==> specs[i].name in m.arrays && Describes(m.arrays[specs[i].name], specs[i]))
    && m.payloadBytes == Payload(specs, |specs|)
  }

  function Names(specs: seq<Spec>): set<string> {
    set i | 0 <= i < |specs| :: specs[i].name
  }

  function EntryOf(specs: seq<Spec>, m: Manifest, i: nat): Entry
    requires i < |specs| && specs[i].name in m.arrays
  {
    var source := m.arrays[specs[i].name];
    Entry(i, specs[i].name, Offset(specs, i), Size(specs[i]), specs[i].dtype, specs[i].shape, source.file,
          source.sha256)
  }

  /** Arrays ascend without overlap between the header and the page-aligned end of the model. */
  lemma {:induction false} ArraysAscend(specs: seq<Spec>, i: nat, j: nat)
    requires i < j <= |specs|
    ensures HEADER_BYTES <= Offset(specs, i) && Offset(specs, i) % 64 == 0
    ensures Offset(specs, i) + Size(specs[i]) <= End(specs, j) <= ModelEnd(specs) && ModelEnd(specs) % PAGE_BYTES == 0
    ensures j < |specs| ==> Offset(specs, i) + Size(specs[i]) <= Offset(specs, j)
    decreases |specs| - i, j
  {
    CursorGrows(specs, 0, i);
    CursorGrows(specs, i + 1, j);
    CursorGrows(specs, j, |specs|);
  }

  lemma {:induction false} CursorGrows(specs: seq<Spec>, i: nat, j: nat)
    requires i <= j <= |specs|
    ensures End(specs, i) <= End(specs, j)
    decreases j
  {
    if i < j {
      CursorGrows(specs, i, j - 1);
    }
  }

  // ----- regions -----------------------------------------------------------------------------

  datatype Planned = Planned(name: string, bytes: nat, permissions: nat)

  const WRITABLE: seq<(string, nat)> := [("k", 18874368), ("v", 18874368), ("k8", 9437184), ("kunits", 1179648),
                                         ("work", 4194304), ("trace", 8388608)]

  const RESERVED := 60977152 // the writable regions and their seven guard pages

  function Span(plan: seq<Planned>): nat {
    if plan == [] then 0 else Span(plan[..|plan| - 1]) + plan[|plan| - 1].bytes
  }

  /** The regions in order, each starting where the one before it ends. */
  function Lay(plan: seq<Planned>): (r: seq<Region>)
    ensures |r| == |plan|
  {
    if plan == [] then []
    else
      var n := |plan| - 1;
      Lay(plan[..n]) + [Region(n, plan[n].name, Span(plan[..n]), plan[n].bytes, plan[n].permissions)]
  }

  function Guarded(writable: seq<(string, nat)>): (r: seq<Planned>)
    ensures |r| == 2 * |writable|
  {
    if writable == [] then []
    else
      var (name, bytes) := writable[|writable| - 1];
      Guarded(writable[..|writable| - 1]) + [Planned("guard_before_" + name, PAGE_BYTES, 0), Planned(name, bytes, 3)]
  }

  function Plan(modelEnd: nat): seq<Planned>
    requires modelEnd + RESERVED < ARENA_BYTES
  {
    [Planned("model", modelEnd, 1)] + Guarded(WRITABLE)
    + [Planned("guard_after_trace", PAGE_BYTES, 0), Planned("unused", ARENA_BYTES - modelEnd - RESERVED, 0)]
  }

  /** The fifteen regions by name, size and permissions: every writable one behind a guard page. */
  lemma PlanIs(modelEnd: nat)
    requires modelEnd + RESERVED < ARENA_BYTES
    ensures Plan(modelEnd) ==
            [Planned("model", modelEnd, 1),
             Planned("guard_before_k", 4096, 0), Planned("k", 12 * 12 * 1024 * 64 * 2, 3),
             Planned("guard_before_v", 4096, 0), Planned("v", 12 * 12 * 1024 * 64 * 2, 3),
             Planned("guard_before_k8", 4096, 0), Planned("k8", 12 * 12 * 1024 * 64, 3),
             Planned("guard_before_kunits", 4096, 0), Planned("kunits", 12 * 12 * 1024 * 8, 3),
             Planned("guard_before_work", 4096, 0), Planned("work", 4 * 1024 * 1024, 3),
             Planned("guard_before_trace", 4096, 0), Planned("trace", 8 * 1024 * 1024, 3),
             Planned("guard_after_trace", 4096, 0),
             Planned("unused", 268435456 - modelEnd - (60948480 + 7 * 4096), 0)]
  {
    GuardedAt(WRITABLE, 0);
    GuardedAt(WRITABLE, 1);
    GuardedAt(WRITABLE, 2);
    GuardedAt(WRITABLE, 3);
    GuardedAt(WRITABLE, 4);
    GuardedAt(WRITABLE, 5);
    assert "guard_before_" + "k" == "guard_before_k" && "guard_before_" + "v" == "guard_before_v";
    assert "guard_before_" + "k8" == "guard_before_k8" && "guard_before_" + "kunits" == "guard_before_kunits";
    assert "guard_before_" + "work" == "guard_before_work" && "guard_before_" + "trace" == "guard_before_trace";
  }

  function BytesIn(regions: seq<Region>, mapped: bool): nat {
    if regions == [] then 0
    else
      var last := regions[|regions| - 1];
      BytesIn(regions[..|regions| - 1], mapped) + if (last.permissions != 0) == mapped then last.bytes else 0
  }

  lemma LayAppends(plan: seq<Planned>, x: Planned)
    ensures Lay(plan + [x]) == Lay(plan) + [Region(|plan|, x.name, Span(plan), x.bytes, x.permissions)]
    ensures Span(plan + [x]) == Span(plan) + x.bytes
  {
    assert (plan + [x])[..|plan|] == plan;
  }

  lemma {:induction false} LayAt(plan: seq<Planned>, i: nat)
    requires i < |plan|
    ensures Lay(plan)[i] == Region(i, plan[i].name, Span(plan[..i]), plan[i].bytes, plan[i].permissions)
    ensures Span(plan[..i]) + plan[i].bytes == Span(plan[..i + 1]) <= Span(plan)
    decreases |plan|
  {
    var n := |plan| - 1;
    assert plan[..i + 1][..i] == plan[..i];
    if i < n {
      LayAt(plan[..n], i);
      assert plan[..n][..i] == plan[..i] && plan[..n][..i + 1] == plan[..i + 1];
    } else {
      assert plan[..i + 1] == plan;
    }
  }

  lemma {:induction false} EveryByteCounted(plan: seq<Planned>)
    ensures BytesIn(Lay(plan), true) + BytesIn(Lay(plan), false) == Span(plan)
  {
    if plan != [] {
      var n := |plan| - 1;
      assert Lay(plan)[..n] == Lay(plan[..n]);
      EveryByteCounted(plan[..n]);
    }
  }

  /** Every address below the end of the plan lies in exactly one region. */
  lemma {:induction false} RegionsTile(plan: seq<Planned>, address: nat)
    requires address < Span(plan)
    ensures exists i :: InRegion(Lay(plan), i, address)
    ensures forall i, j :: InRegion(Lay(plan), i, address) && InRegion(Lay(plan), j, address) ==> i == j
  {
    var n := |plan| - 1;
    assert Lay(plan)[..n] == Lay(plan[..n]);
    if address < Span(plan[..n]) {
      RegionsTile(plan[..n], address);
      var i :| InRegion(Lay(plan[..n]), i, address);
      assert InRegion(Lay(plan), i, address);
      assert forall k :: InRegion(Lay(plan), k, address) ==> InRegion(Lay(plan[..n]), k, address);
    } else {
      assert InRegion(Lay(plan), n, address);
      forall k: nat | InRegion(Lay(plan), k, address) ensures k == n {
        LayAt(plan, k);
        if k < n {
          assert plan[..n][..k + 1] == plan[..k + 1];
          LayAt(plan[..n], k);
        }
      }
    }
  }

  predicate InRegion(regions: seq<Region>, i: nat, address: nat) {
    i < |regions| && regions[i].offset <= address < regions[i].offset + regions[i].bytes
  }

  lemma {:induction false} GuardedAt(writable: seq<(string, nat)>, j: nat)
    requires j < |writable|
    ensures Guarded(writable)[2 * j] == Planned("guard_before_" + writable[j].0, PAGE_BYTES, 0)
    ensures Guarded(writable)[2 * j + 1] == Planned(writable[j].0, writable[j].1, 3)
  {
    if j < |writable| - 1 {
      GuardedAt(writable[..|writable| - 1], j);
    }
  }

  function Total(writable: seq<(string, nat)>): nat {
    if writable == [] then 0 else Total(writable[..|writable| - 1]) + PAGE_BYTES + writable[|writable| - 1].1
  }

  lemma {:induction false} GuardedSpan(writable: seq<(string, nat)>)
    ensures Span(Guarded(writable)) == Total(writable)
  {
    if writable != [] {
      var rest, last := Guarded(writable[..|writable| - 1]), writable[|writable| - 1];
      GuardedSpan(writable[..|writable| - 1]);
      LayAppends(rest, Planned("guard_before_" + last.0, PAGE_BYTES, 0));
      LayAppends(rest + [Planned("guard_before_" + last.0, PAGE_BYTES, 0)], Planned(last.0, last.1, 3));
      assert Guarded(writable)
          == rest + [Planned("guard_before_" + last.0, PAGE_BYTES, 0)] + [Planned(last.0, last.1, 3)];
    }
  }

  lemma {:induction false} SpanJoins(p: seq<Planned>, q: seq<Planned>)
    ensures Span(p + q) == Span(p) + Span(q)
  {
    if q == [] {
      assert p + q == p;
    } else {
      SpanJoins(p, q[..|q| - 1]);
      assert (p + q)[..|p + q| - 1] == p + q[..|q| - 1];
    }
  }

  lemma WritableTotal()
    ensures Total(WRITABLE) + PAGE_BYTES == RESERVED
  {
    var w := WRITABLE;
    assert w[..5][..4] == w[..4] && w[..4][..3] == w[..3] && w[..3][..2] == w[..2] && w[..2][..1] == w[..1];
    assert Total(w[..1]) == 4096 + 18874368 by { assert w[..1][..0] == w[..0]; }
    assert Total(w[..2]) == 2 * (4096 + 18874368);
    assert Total(w[..3]) == Total(w[..2]) + 4096 + 9437184;
    assert Total(w[..4]) == Total(w[..3]) + 4096 + 1179648;
    assert Total(w[..5]) == Total(w[..4]) + 4096 + 4194304;
  }

  /** The plan fills the arena exactly. */
  lemma PlanSpansArena(modelEnd: nat)
    requires modelEnd + RESERVED < ARENA_BYTES
    ensures Span(Plan(modelEnd)) == ARENA_BYTES
  {
    var head, tail := [Planned("model", modelEnd, 1)],
                      [Planned("guard_after_trace", PAGE_BYTES, 0),
                       Planned("unused", ARENA_BYTES - modelEnd - RESERVED, 0)];
    SpanJoins(head + Guarded(WRITABLE), tail);
    SpanJoins(head, Guarded(WRITABLE));
    GuardedSpan(WRITABLE);
    WritableTotal();
    assert head[..0] == tail[..1][..0] == tail[..0];
  }

  /** Unmapped regions of at least a page adjoin region i on both sides. */
  predicate IsGuarded(r: seq<Region>, i: nat) {
    && 0 < i < |r| - 1
    && r[i - 1].permissions == 0 && r[i - 1].bytes >= PAGE_BYTES && r[i - 1].offset + r[i - 1].bytes == r[i].offset
    && r[i + 1].permissions == 0 && r[i + 1].bytes >= PAGE_BYTES && r[i].offset + r[i].bytes == r[i + 1].offset
  }

  /** An unmapped page lies directly before and directly after every writable region. */
  lemma WritableIsGuarded(modelEnd: nat, i: nat)
    requires modelEnd + RESERVED < ARENA_BYTES
    requires i < |Plan(modelEnd)| && Lay(Plan(modelEnd))[i].permissions == 3
    ensures IsGuarded(Lay(Plan(modelEnd)), i)
  {
    var plan := Plan(modelEnd);
    LayAt(plan, i);
    GuardPages(modelEnd, i);
    LayAt(plan, i - 1);
    LayAt(plan, i + 1);
  }

  lemma GuardPages(modelEnd: nat, i: nat)
    requires modelEnd + RESERVED < ARENA_BYTES && i < |Plan(modelEnd)| && Plan(modelEnd)[i].permissions == 3
    ensures 0 < i <= 12
    ensures Plan(modelEnd)[i - 1].permissions == 0 && Plan(modelEnd)[i - 1].bytes == PAGE_BYTES
    ensures Plan(modelEnd)[i + 1].permissions == 0 && Plan(modelEnd)[i + 1].bytes == PAGE_BYTES
  {
    var j := (i - 1) / 2;
    assert 0 < i <= 12;
    GuardedAt(WRITABLE, j);
    PlanMiddle(modelEnd, i);
    assert i == 2 * j + 2;
    PlanMiddle(modelEnd, i - 1);
    if j < 5 {
      GuardedAt(WRITABLE, j + 1);
      PlanMiddle(modelEnd, i + 1);
    }
  }

  lemma PlanMiddle(modelEnd: nat, i: nat)
    requires modelEnd + RESERVED < ARENA_BYTES && 0 < i <= 12
    ensures Plan(modelEnd)[i] == Guarded(WRITABLE)[i - 1]
  {
  }

  // ----- build_layout --------------------------------------------------------------------------

  predicate Fits(specs: seq<Spec>) {
    |specs| == 248 && ModelEnd(specs) + RESERVED < ARENA_BYTES
  }

  function LayoutOf(specs: seq<Spec>, m: Manifest): Layout
    requires Matches(specs, m) && Fits(specs)
  {
    var regions := Lay(Plan(ModelEnd(specs)));
    Layout(IDENTITY, ModelEnd(specs), Payload(specs, |specs|), BytesIn(regions, true), BytesIn(regions, false),
           seq(|specs|, i requires 0 <= i < |specs| => EntryOf(specs, m, i)), regions)
  }

  /** The closure region() with the cursor and the list it updates. */
  class RegionTable {
    var cursor: nat
    var regions: seq<Region>

    constructor ()
      ensures cursor == 0 && regions == []
    {
      cursor, regions := 0, [];
    }

    method Add(name: string, size: int, permissions: nat) returns (ok: bool)
      modifies this
      ensures ok <==> size > 0 && size % PAGE_BYTES == 0 && old(cursor) + size <= ARENA_BYTES
      ensures ok ==> cursor == old(cursor) + size
      ensures ok ==> regions == old(regions) + [Region(|old(regions)|, name, old(cursor), size, permissions)]
      ensures !ok ==> unchanged(this)
    {
      if size <= 0 || size % PAGE_BYTES != 0 || cursor + size > ARENA_BYTES {
        return false;
      }
      regions := regions + [Region(|regions|, name, cursor, size, permissions)];
      cursor := cursor + size;
      return true;
    }
  }

  method PlaceArrays(specs: seq<Spec>, m: Manifest) returns (r: Result<(seq<Entry>, nat, nat)>)
    requires forall i :: 0 <= i < |specs| ==> specs[i].name in m.arrays
    ensures r.Ok? <==> forall i :: 0 <= i < |specs| ==> Describes(m.arrays[specs[i].name], specs[i])
    ensures r.Ok? ==> r.value.1 == End(specs, |specs|) && r.value.2 == Payload(specs, |specs|)
    ensures r.Ok? ==> |r.value.0| == |specs| && forall i :: 0 <= i < |specs| ==> r.value.0[i] == EntryOf(specs, m, i)
  {
    var entries: seq<Entry>, cursor, payload := [], HEADER_BYTES, 0;
    for i := 0 to |specs|
      invariant |entries| == i && cursor == End(specs, i) && payload == Payload(specs, i)
      invariant forall k :: 0 <= k < i ==> Describes(m.arrays[specs[k].name], specs[k])
      invariant forall k :: 0 <= k < i ==> entries[k] == EntryOf(specs, m, k)
    {
      var spec := specs[i];
      var source, size := m.arrays[spec.name], Size(spec);
      if source.shape != spec.shape || source.dtype != spec.dtype || source.payloadBytes != size {
        return Err(ValueError);
      }
      cursor := Align(cursor, 64);
      var entry := Entry(i, spec.name, cursor, size, spec.dtype, spec.shape, source.file, source.sha256);
      assert entry == EntryOf(specs, m, i);
      entries := entries + [entry];
      cursor, payload := cursor + size, payload + size;
    }
    return Ok((entries, cursor, payload));
  }

  lemma {:induction false} TotalGrows(writable: seq<(string, nat)>, i: nat)
    requires i < |writable|
    ensures Total(writable[..i]) + PAGE_BYTES + writable[i].1 == Total(writable[..i + 1]) <= Total(writable)
    ensures Guarded(writable[..i + 1])
         == Guarded(writable[..i])
          + [Planned("guard_before_" + writable[i].0, PAGE_BYTES, 0), Planned(writable[i].0, writable[i].1, 3)]
    decreases |writable|
  {
    assert writable[..i + 1][..i] == writable[..i];
    var n := |writable| - 1;
    if i < n {
      TotalGrows(writable[..n], i);
      assert writable[..n][..i + 1] == writable[..i + 1];
    } else {
      assert writable[..i + 1] == writable;
    }
  }

  lemma WritablePages(i: nat)
    requires i < |WRITABLE|
    ensures WRITABLE[i].1 > 0 && WRITABLE[i].1 % PAGE_BYTES == 0
  {
  }

  function GuardedPlan(modelEnd: nat, i: nat): seq<Planned>
    requires i <= |WRITABLE|
  {
    [Planned("model", modelEnd, 1)] + Guarded(WRITABLE[..i])
  }

  /** One guard page and the writable region behind it. */
  method AddGuarded(table: RegionTable, modelEnd: nat, i: nat) returns (ok: bool)
    requires i < |WRITABLE| && table.cursor == modelEnd + Total(WRITABLE[..i]) == Span(GuardedPlan(modelEnd, i))
    requires table.regions == Lay(GuardedPlan(modelEnd, i))
    modifies table
    ensures ok <==> modelEnd + Total(WRITABLE[..i + 1]) <= ARENA_BYTES
    ensures ok ==> table.cursor == modelEnd + Total(WRITABLE[..i + 1]) == Span(GuardedPlan(modelEnd, i + 1))
    ensures ok ==> table.regions == Lay(GuardedPlan(modelEnd, i + 1))
  {
    var (name, size) := WRITABLE[i];
    ghost var plan := GuardedPlan(modelEnd, i);
    ghost var guard, body := Planned("guard_before_" + name, PAGE_BYTES, 0), Planned(name, size, 3);
    TotalGrows(WRITABLE, i);
    WritablePages(i);
    LayAppends(plan, guard);
    LayAppends(plan + [guard], body);
    assert GuardedPlan(modelEnd, i + 1) == plan + [guard] + [body];
    ok := table.Add("guard_before_" + name, PAGE_BYTES, 0);
    if ok {
      ok := table.Add(name, size, 3);
    }
  }

  /** The region list of the plan, or refusal when it does not fit below the end of the arena. */
  method PlaceRegions(modelEnd: nat) returns (r: Result<seq<Region>>)
    requires modelEnd > 0 && modelEnd % PAGE_BYTES == 0
    ensures r.Ok? <==> modelEnd + RESERVED < ARENA_BYTES
    ensures r.Ok? ==> r.value == Lay(Plan(modelEnd))
  {
    WritableTotal();
    var table := new RegionTable();
    var ok := table.Add("model", modelEnd, 1);
    if !ok {
      return Err(ValueError);
    }
    LayAppends([], Planned("model", modelEnd, 1));
    assert GuardedPlan(modelEnd, 0) == [] + [Planned("model", modelEnd, 1)];
    for i := 0 to |WRITABLE|
      invariant table.cursor == modelEnd + Total(WRITABLE[..i]) == Span(GuardedPlan(modelEnd, i))
      invariant table.regions == Lay(GuardedPlan(modelEnd, i))
    {
      TotalGrows(WRITABLE, i);
      ok := AddGuarded(table, modelEnd, i);
      if !ok {
        return Err(ValueError);
      }
    }
    assert WRITABLE[..|WRITABLE|] == WRITABLE;
    r := CloseTable(table, modelEnd);
  }

  /** The last guard page, and the rest of the arena unused; at least one page must be left for it. */
  method CloseTable(table: RegionTable, modelEnd: nat) returns (r: Result<seq<Region>>)
    requires modelEnd % PAGE_BYTES == 0 && table.regions == Lay(GuardedPlan(modelEnd, |WRITABLE|))
    requires table.cursor == modelEnd + RESERVED - PAGE_BYTES == Span(GuardedPlan(modelEnd, |WRITABLE|))
    modifies table
    ensures r.Ok? <==> modelEnd + RESERVED < ARENA_BYTES
    ensures r.Ok? ==> r.value == Lay(Plan(modelEnd))
  {
    ghost var plan, guard := GuardedPlan(modelEnd, |WRITABLE|), Planned("guard_after_trace", PAGE_BYTES, 0);
    LayAppends(plan, guard);
    var ok := table.Add("guard_after_trace", PAGE_BYTES, 0);
    if !ok {
      return Err(ValueError);
    }
    var rest := ARENA_BYTES - table.cursor;
    ok := table.Add("unused", rest, 0);
    if !ok {
      return Err(ValueError);
    }
    LayAppends(plan + [guard], Planned("unused", rest, 0));
    assert WRITABLE[..|WRITABLE|] == WRITABLE;
    assert plan + [guard] + [Planned("unused", rest, 0)] == Plan(modelEnd);
    return Ok(table.regions);
  }

  /** Layouts exist exactly for the complete inventory when it fits; then the layout is LayoutOf. */
  method BuildLayout(specs: seq<Spec>, m: Manifest) returns (r: Result<Layout>)
    ensures r.Ok? <==> Matches(specs, m) && Fits(specs)
    ensures r.Ok? ==> r.value == LayoutOf(specs, m)
  {
    if m.schema != 1 || m.candidate != CANDIDATE_SHA || m.layout != "N16_K_16_signed_int8"
       || m.arrays.Keys != Names(specs) {
      return Err(ValueError);
    }
    assert forall i :: 0 <= i < |specs| ==> specs[i].name in Names(specs);
    var placed :- PlaceArrays(specs, m);
    var (entries, cursor, payload) := placed;
    if payload != m.payloadBytes {
      return Err(ValueError);
    }
    var modelEnd := Align(cursor, PAGE_BYTES);
    CursorGrows(specs, 0, |specs|);
    var regions :- PlaceRegions(modelEnd);
    if |entries| != 248 || ARRAY_TABLE + |entries| * 32 > REGION_TABLE {
      return Err(ValueError);
    }
    if REGION_TABLE + |regions| * 32 > HEADER_BYTES {
      return Err(ValueError);
    }
    var layout := Layout(IDENTITY, modelEnd, payload, BytesIn(regions, true), BytesIn(regions, false), entries,
                         regions);
    assert entries == LayoutOf(specs, m).arrays;
    return Ok(layout);
  }

  /**
   What every accepted layout guarantees: arrays lie aligned, in order and apart inside the read-only
   model region, every address of the arena is in exactly one region, all bytes are accounted for, and an
   unmapped page stands on either side of every writable region.
   */
  lemma LayoutSound(specs: seq<Spec>, m: Manifest)
    requires Matches(specs, m) && Fits(specs)
    ensures var l := LayoutOf(specs, m);
            && |l.arrays| == 248 && |l.regions| == 15 && l.regions[0] == Region(0, "model", 0, l.modelBytes, 1)
            && l.mapped + l.unmapped == ARENA_BYTES
    ensures forall i :: 0 <= i < 248 ==> ArrayInside(LayoutOf(specs, m), i)
    ensures forall i, j :: 0 <= i < j < 248 ==> ArraysApart(LayoutOf(specs, m), i, j)
    ensures forall address: nat :: address < ARENA_BYTES ==> OneRegion(LayoutOf(specs, m).regions, address)
    ensures forall i :: 0 <= i < 15 && LayoutOf(specs, m).regions[i].permissions == 3 ==>
                          IsGuarded(LayoutOf(specs, m).regions, i)
  {
    var l, plan := LayoutOf(specs, m), Plan(ModelEnd(specs));
    PlanSpansArena(ModelEnd(specs));
    EveryByteCounted(plan);
    LayAt(plan, 0);
    forall i | 0 <= i < 248 ensures ArrayInside(l, i) {
      ArraysAscend(specs, i, 248);
    }
    forall i, j | 0 <= i < j < 248 ensures ArraysApart(l, i, j) {
      ArraysAscend(specs, i, j);
    }
    forall address: nat | address < ARENA_BYTES ensures OneRegion(l.regions, address) {
      RegionsTile(plan, address);
    }
    forall i | 0 <= i < 15 && l.regions[i].permissions == 3 ensures IsGuarded(l.regions, i) {
      WritableIsGuarded(ModelEnd(specs), i);
    }
  }

  predicate ArrayInside(l: Layout, i: nat)
    requires i < |l.arrays|
  {
    && HEADER_BYTES <= l.arrays[i].offset
    && l.arrays[i].offset + l.arrays[i].bytes <= l.modelBytes
    && l.arrays[i].offset % 64 == 0
  }

  predicate ArraysApart(l: Layout, i: nat, j: nat)
    requires i < |l.arrays| && j < |l.arrays|
  {
    l.arrays[i].offset + l.arrays[i].bytes <= l.arrays[j].offset
  }

  ghost predicate OneRegion(regions: seq<Region>, address: nat) {
    && (exists i :: InRegion(regions, i, address))
    && (forall i, j :: InRegion(regions, i, address) && InRegion(regions, j, address) ==> i == j)
  }

  // ----- the accepted model --------------------------------------------------------------------

  function LinearSpecs(name: string, k: nat, n: nat): seq<Spec> {
    [Spec(name + ".tiles", I1, [(n + 15) / 16, k, 16]), Spec(name + ".scale", F8, [n]), Spec(name + ".bias", F8, [n]),
     Spec(name + ".smooth", F8, [k])]
  }

  function NormSpecs(name: string): seq<Spec> {
    [Spec(name + ".gain", F8, [768]), Spec(name + ".bias", F8, [768])]
  }

  function LayerSpecs(h: string): seq<Spec> {
    LinearSpecs(h + ".attn.c_attn", 768, 2304) + LinearSpecs(h + ".attn.c_proj", 768, 768)
    + LinearSpecs(h + ".mlp.c_fc", 768, 3072) + LinearSpecs(h + ".mlp.c_proj", 3072, 768)
    + NormSpecs(h + ".ln_1") + NormSpecs(h + ".ln_2")
  }

  function Decimal(n: nat): string {
    if n < 10 then ["0123456789"[n]] else Decimal(n / 10) + ["0123456789"[n % 10]]
  }

  function LayersSpecs(layers: nat): seq<Spec> {
    if layers == 0 then [] else LayersSpecs(layers - 1) + LayerSpecs("h." + Decimal(layers - 1))
  }

  /** array_specs; the accepted model has twelve layers. */
  function ArraySpecs(layers: nat): seq<Spec> {
    [Spec("embedding", I2, [50257, 768]), Spec("position", I2, [1024, 768])] + LayersSpecs(layers) + NormSpecs("ln_f")
    + LinearSpecs("lm_head", 768, 50257)
  }

  lemma {:induction false} AdvanceJoins(p: seq<nat>, q: seq<nat>, start: nat, i: nat)
    requires i <= |q|
    ensures Advance(p + q, start, |p| + i) == Advance(q, Advance(p, start, |p|), i)
  {
    if i == 0 {
      AdvancePrefix(p, q, start, |p|);
    } else {
      AdvanceJoins(p, q, start, i - 1);
      assert (p + q)[|p| + i - 1] == q[i - 1];
    }
  }

  lemma {:induction false} AdvancePrefix(p: seq<nat>, q: seq<nat>, start: nat, i: nat)
    requires i <= |p|
    ensures Advance(p + q, start, i) == Advance(p, start, i)
  {
    if i > 0 {
      AdvancePrefix(p, q, start, i - 1);
    }
  }

  /** Where a list of arrays ends, as a relation that composes over concatenation. */
  ghost predicate Takes(specs: seq<Spec>, count: nat, start: nat, end: nat) {
    |specs| == count && Advance(Sizes(specs), start, |specs|) == end
  }

  lemma TakesJoins(p: seq<Spec>, q: seq<Spec>, a: nat, b: nat, start: nat, middle: nat, end: nat)
    requires Takes(p, a, start, middle) && Takes(q, b, middle, end)
    ensures Takes(p + q, a + b, start, end)
  {
    assert Sizes(p + q) == Sizes(p) + Sizes(q);
    AdvanceJoins(Sizes(p), Sizes(q), start, |q|);
  }

  lemma VectorProduct(n: nat)
    ensures Product([n]) == n
  {
    assert Product([n]) == n * Product([n][1..]);
  }

  lemma MatrixProduct(a: nat, b: nat)
    ensures Product([a, b]) == a * b
  {
    VectorProduct(b);
    assert [a, b][1..] == [b];
  }

  lemma TileProduct(a: nat, k: nat)
    ensures Product([a, k, 16]) == a * (16 * k)
  {
    MatrixProduct(k, 16);
    assert [a, k, 16][1..] == [k, 16];
  }

  lemma LinearSizes(name: string, k: nat, n: nat, tiles: nat)
    requires tiles == (n + 15) / 16 * (16 * k)
    ensures Sizes(LinearSpecs(name, k, n)) == [tiles, 8 * n, 8 * n, 8 * k]
  {
    TileProduct((n + 15) / 16, k);
    VectorProduct(n);
    VectorProduct(k);
  }

  lemma NormSizes(name: string)
    ensures Sizes(NormSpecs(name)) == [6144, 6144]
  {
    VectorProduct(768);
  }

  lemma EmbeddingSizes(specs: seq<Spec>)
    requires specs == [Spec("embedding", I2, [50257, 768]), Spec("position", I2, [1024, 768])]
    ensures Sizes(specs) == [77194752, 1572864]
  {
    MatrixProduct(50257, 768);
    MatrixProduct(1024, 768);
  }

  lemma NextAligned(q: nat, size: nat)
    ensures NextEnd(64 * q, size) == 64 * q + size
    ensures NextEnd(64 * q + 8, size) == 64 * q + 64 + size
  {
  }

  lemma TwoSteps(sizes: seq<nat>, start: nat)
    requires |sizes| == 2
    ensures Advance(sizes, start, 2) == NextEnd(NextEnd(start, sizes[0]), sizes[1])
  {
    assert Advance(sizes, start, 1) == NextEnd(start, sizes[0]);
  }

  lemma FourSteps(sizes: seq<nat>, start: nat)
    requires |sizes| == 4
    ensures Advance(sizes, start, 4)
         == NextEnd(NextEnd(NextEnd(NextEnd(start, sizes[0]), sizes[1]), sizes[2]), sizes[3])
  {
    assert Advance(sizes, start, 1) == NextEnd(start, sizes[0]);
    assert Advance(sizes, start, 2) == NextEnd(NextEnd(start, sizes[0]), sizes[1]);
    assert Advance(sizes, start, 3) == NextEnd(NextEnd(NextEnd(start, sizes[0]), sizes[1]), sizes[2]);
  }

  lemma LinearAdvance(sizes: seq<nat>, q: nat, t: nat, c: nat, r: nat)
    requires sizes == [64 * t, 64 * c, 64 * c, r]
    ensures Advance(sizes, 64 * q, 4) == 64 * q + 64 * t + 128 * c + r
  {
    FourSteps(sizes, 64 * q);
    NextAligned(q, 64 * t);
    NextAligned(q + t, 64 * c);
    NextAligned(q + t + c, 64 * c);
    NextAligned(q + t + c + c, r);
  }

  lemma LinearTakes(name: string, k: nat, n: nat, q: nat, t: nat, c: nat)
    requires n == 8 * c && 64 * t == (n + 15) / 16 * (16 * k)
    ensures Takes(LinearSpecs(name, k, n), 4, 64 * q, 64 * q + 64 * t + 128 * c + 8 * k)
  {
    LinearSizes(name, k, n, 64 * t);
    LinearAdvance(Sizes(LinearSpecs(name, k, n)), q, t, c, 8 * k);
  }

  lemma NormTakes(name: string, q: nat)
    ensures Takes(NormSpecs(name), 2, 64 * q, 64 * q + 12288)
  {
    NormSizes(name);
    TwoSteps(Sizes(NormSpecs(name)), 64 * q);
    NextAligned(q, 6144);
    NextAligned(q + 96, 6144);
  }

  lemma FourLinears(h: string, q: nat)
    ensures Takes(LinearSpecs(h + ".attn.c_attn", 768, 2304) + LinearSpecs(h + ".attn.c_proj", 768, 768)
                  + LinearSpecs(h + ".mlp.c_fc", 768, 3072) + LinearSpecs(h + ".mlp.c_proj", 3072, 768),
                  16, 64 * q, 64 * q + 7231488)
  {
    var a, b, c, d := LinearSpecs(h + ".attn.c_attn", 768, 2304), LinearSpecs(h + ".attn.c_proj", 768, 768),
                      LinearSpecs(h + ".mlp.c_fc", 768, 3072), LinearSpecs(h + ".mlp.c_proj", 3072, 768);
    var start := 64 * q;
    LinearTakes(h + ".attn.c_attn", 768, 2304, q, 27648, 288);
    LinearTakes(h + ".attn.c_proj", 768, 768, q + 28320, 9216, 96);
    LinearTakes(h + ".mlp.c_fc", 768, 3072, q + 37824, 36864, 384);
    LinearTakes(h + ".mlp.c_proj", 3072, 768, q + 75552, 36864, 96);
    TakesJoins(a, b, 4, 4, start, start + 1812480, start + 2420736);
    TakesJoins(a + b, c, 8, 4, start, start + 2420736, start + 4835328);
    TakesJoins(a + b + c, d, 12, 4, start, start + 4835328, start + 7231488);
  }

  lemma LayerTakes(h: string, q: nat)
    ensures Takes(LayerSpecs(h), 20, 64 * q, 64 * q + 7256064)
  {
    var linears := LinearSpecs(h + ".attn.c_attn", 768, 2304) + LinearSpecs(h + ".attn.c_proj", 768, 768)
                   + LinearSpecs(h + ".mlp.c_fc", 768, 3072) + LinearSpecs(h + ".mlp.c_proj", 3072, 768);
    var start := 64 * q;
    FourLinears(h, q);
    NormTakes(h + ".ln_1", q + 112992);
    NormTakes(h + ".ln_2", q + 113184);
    TakesJoins(linears, NormSpecs(h + ".ln_1"), 16, 2, start, start + 7231488, start + 7243776);
    TakesJoins(linears + NormSpecs(h + ".ln_1"), NormSpecs(h + ".ln_2"), 18, 2, start, start + 7243776,
               start + 7256064);
  }

  lemma {:induction false} LayersTake(layers: nat, q: nat)
    ensures Takes(LayersSpecs(layers), 20 * layers, 64 * q, 64 * q + 7256064 * layers)
  {
    if layers > 0 {
      var rest, last := LayersSpecs(layers - 1), LayerSpecs("h." + Decimal(layers - 1));
      var middle := q + 113376 * (layers - 1);
      LayersTake(layers - 1, q);
      LayerTakes("h." + Decimal(layers - 1), middle);
      TakesJoins(rest, last, 20 * (layers - 1), 20, 64 * q, 64 * middle, 64 * q + 7256064 * layers);
    }
  }

  lemma EmbeddingTakes(specs: seq<Spec>)
    requires specs == [Spec("embedding", I2, [50257, 768]), Spec("position", I2, [1024, 768])]
    ensures Takes(specs, 2, HEADER_BYTES, 78833152)
  {
    EmbeddingSizes(specs);
    TwoSteps(Sizes(specs), HEADER_BYTES);
    NextAligned(1024, 77194752);
    NextAligned(1207192, 1572864);
  }

  lemma HeadTakes(q: nat)
    ensures Takes(LinearSpecs("lm_head", 768, 50257), 4, 64 * q, 64 * q + 39419264)
  {
    LinearSizes("lm_head", 768, 50257, 38608896);
    FourSteps(Sizes(LinearSpecs("lm_head", 768, 50257)), 64 * q);
    NextAligned(q, 38608896);
    NextAligned(q + 603264, 402056);
    NextAligned(q + 609546, 402056);
    NextAligned(q + 615829, 6144);
  }

  lemma FrontTakes(layers: nat)
    ensures Takes([Spec("embedding", I2, [50257, 768]), Spec("position", I2, [1024, 768])] + LayersSpecs(layers),
                  20 * layers + 2, HEADER_BYTES, 78833152 + 7256064 * layers)
  {
    var front := [Spec("embedding", I2, [50257, 768]), Spec("position", I2, [1024, 768])];
    EmbeddingTakes(front);
    LayersTake(layers, 1231768);
    TakesJoins(front, LayersSpecs(layers), 2, 20 * layers, HEADER_BYTES, 78833152, 78833152 + 7256064 * layers);
  }

  lemma ModelTakes(layers: nat)
    ensures Takes(ArraySpecs(layers), 20 * layers + 8, HEADER_BYTES, 118264704 + 7256064 * layers)
  {
    var front := [Spec("embedding", I2, [50257, 768]), Spec("position", I2, [1024, 768])] + LayersSpecs(layers);
    FrontTakes(layers);
    ModelJoins(front, NormSpecs("ln_f"), LinearSpecs("lm_head", 768, 50257), 20 * layers + 2,
               1231768 + 113376 * layers);
  }

  lemma ModelJoins(front: seq<Spec>, norm: seq<Spec>, head: seq<Spec>, count: nat, q: nat)
    requires Takes(front, count, HEADER_BYTES, 64 * q)
    requires norm == NormSpecs("ln_f") && head == LinearSpecs("lm_head", 768, 50257)
    ensures Takes(front + norm + head, count + 6, HEADER_BYTES, 64 * q + 39431552)
  {
    NormTakes("ln_f", q);
    HeadTakes(q + 192);
    TakesJoins(front, norm, count, 2, HEADER_BYTES, 64 * q, 64 * q + 12288);
    TakesJoins(front + norm, head, count + 2, 4, HEADER_BYTES, 64 * q + 12288, 64 * q + 39431552);
  }

  /**
   The accepted model fits: its twelve layers make 248 arrays and its region ends at byte 205340672.
   A different number of layers is refused for its array count alone.
   */
  lemma ModelFits(layers: nat)
    ensures Fits(ArraySpecs(layers)) <==> layers == 12
    ensures layers == 12 ==> ModelEnd(ArraySpecs(layers)) == 205340672
  {
    ModelTakes(layers);
    TakesFits(ArraySpecs(layers), layers);
  }

  lemma TakesFits(specs: seq<Spec>, layers: nat)
    requires Takes(specs, 20 * layers + 8, HEADER_BYTES, 118264704 + 7256064 * layers)
    ensures Fits(specs) <==> layers == 12
    ensures layers == 12 ==> ModelEnd(specs) == 205340672
  {
    assert layers == 12 ==> Align(205337472, PAGE_BYTES) == 205340672;
  }

  // ----- the inventory in numbers -----------------------------------------------------------

  /** The twenty arrays of a layer, in order. */
  lemma LayerInventory(h: string)
    ensures LayerSpecs(h) ==
            [Spec(h + ".attn.c_attn" + ".tiles", I1, [144, 768, 16]), Spec(h + ".attn.c_attn" + ".scale", F8, [2304]),
             Spec(h + ".attn.c_attn" + ".bias", F8, [2304]), Spec(h + ".attn.c_attn" + ".smooth", F8, [768]),
             Spec(h + ".attn.c_proj" + ".tiles", I1, [48, 768, 16]), Spec(h + ".attn.c_proj" + ".scale", F8, [768]),
             Spec(h + ".attn.c_proj" + ".bias", F8, [768]), Spec(h + ".attn.c_proj" + ".smooth", F8, [768]),
             Spec(h + ".mlp.c_fc" + ".tiles", I1, [192, 768, 16]), Spec(h + ".mlp.c_fc" + ".scale", F8, [3072]),
             Spec(h + ".mlp.c_fc" + ".bias", F8, [3072]), Spec(h + ".mlp.c_fc" + ".smooth", F8, [768]),
             Spec(h + ".mlp.c_proj" + ".tiles", I1, [48, 3072, 16]), Spec(h + ".mlp.c_proj" + ".scale", F8, [768]),
             Spec(h + ".mlp.c_proj" + ".bias", F8, [768]), Spec(h + ".mlp.c_proj" + ".smooth", F8, [3072]),
             Spec(h + ".ln_1" + ".gain", F8, [768]), Spec(h + ".ln_1" + ".bias", F8, [768]),
             Spec(h + ".ln_2" + ".gain", F8, [768]), Spec(h + ".ln_2" + ".bias", F8, [768])]
  {
  }

  lemma {:induction false} LayersInventory(layers: nat, l: nat)
    requires l < layers
    ensures |LayersSpecs(layers)| == 20 * layers
    ensures LayersSpecs(layers)[20 * l..20 * l + 20] == LayerSpecs("h." + Decimal(l))
  {
    if l < layers - 1 {
      LayersInventory(layers - 1, l);
      var front := LayersSpecs(layers - 1);
      assert LayersSpecs(layers)[20 * l..20 * l + 20] == front[20 * l..20 * l + 20];
    } else if l > 0 {
      LayersInventory(layers - 1, l - 1);
    }
  }

  /** Embeddings, the layers one behind the other, the final norm and the vocabulary projection. */
  lemma Inventory(layers: nat, l: nat)
    requires l < layers
    ensures var specs := ArraySpecs(layers);
            && |specs| == 20 * layers + 8
            && specs[..2] == [Spec("embedding", I2, [50257, 768]), Spec("position", I2, [1024, 768])]
            && specs[2 + 20 * l..22 + 20 * l] == LayerSpecs("h." + Decimal(l))
            && specs[2 + 20 * layers..] ==
               [Spec("ln_f" + ".gain", F8, [768]), Spec("ln_f" + ".bias", F8, [768]),
                Spec("lm_head" + ".tiles", I1, [3142, 768, 16]), Spec("lm_head" + ".scale", F8, [50257]),
                Spec("lm_head" + ".bias", F8, [50257]), Spec("lm_head" + ".smooth", F8, [768])]
  {
    LayersInventory(layers, l);
    var front := [Spec("embedding", I2, [50257, 768]), Spec("position", I2, [1024, 768])];
    var middle := LayersSpecs(layers);
    assert ArraySpecs(layers)[2 + 20 * l..22 + 20 * l] == middle[20 * l..20 * l + 20];
  }
}
