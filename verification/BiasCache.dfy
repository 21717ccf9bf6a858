/**
 The row projection of the prompt firmware with its call-local cache of rounded biases. Tentative
 outputs and cached biases share one scratch buffer; a tag remembers the residual exponent at which
 the cache was last filled. The specification RowOutcome never mentions the cache, so the contracts
 of ProjectRow, Project and ProjectEqualRows say that reuse is exact over every sequence of rows.
 */
module BiasCache {
  import opened Outcomes
  import opened Rounding

  const NO_TAG := 0xFFFF_FFFF // UINT32_MAX
  const WORKER_FAULT := -40

  type Half = x: int | 0 <= x < 0x1_0000
  type Int16 = x: int | -32768 <= x < 32768
  type Bounded = x: int | -0x2000_0000 <= x <= 0x2000_0000

  // Bias number i scaled by two to the 8 - candidate and rounded; None where the leaf gives up.
  type RoundBias = (nat, nat) -> Option<Bounded>

  datatype Projected = Written(values: seq<Half>, exponent: nat) | Failed(status: int)

  /**
   One row of the call. The float work is opaque: admitted are the checks before the leaf that do not
   look at the candidate, branch is the scaled sum or None where its checks fail, error the width of
   the range certificate, generic what the slow path computes and leftover what it leaves in scratch.
   */
  datatype PromptRow = PromptRow(residual: Option<seq<Int16>>, exponent: nat, admitted: bool, faults: bool,
                                 scaled: bool, branch: nat -> Option<Bounded>, error: nat -> nat,
                                 generic: Projected, leftover: nat -> Half) {
    predicate WellFormed(n: nat) {
      && (residual.Some? ==> |residual.value| == n)
      && (generic.Written? ==> |generic.values| == n)
      && (generic.Failed? ==> generic.status != 0)
    }

    function Candidate(): nat {
      if residual.Some? then exponent else 0
    }

    predicate Ranged() {
      scaled || residual.Some?
    }
  }

  // ----- memory ----------------------------------------------------------------------------

  function Pack16(v: Int16): Half {
    if v < 0 then v + 0x1_0000 else v
  }

  function LowerHalf(v: Bounded): Half {
    v % 0x1_0000
  }

  function UpperHalf(v: Bounded): Half {
    (v / 0x1_0000) % 0x1_0000
  }

  function Word32(low: Half, high: Half): int {
    if high >= 0x8000 then low + 0x1_0000 * high - 0x1_0000_0000 else low + 0x1_0000 * high
  }

  lemma WordRoundTrip(v: Bounded)
    ensures Word32(LowerHalf(v), UpperHalf(v)) == v
  {
  }

  /** Bias i lives in the upper half of the 8n bytes, tentative output i in the first quarter. */
  function CacheHalf(n: nat, i: nat): nat {
    2 * n + 2 * i
  }

  function CachedBias(s: seq<Half>, n: nat, i: nat): int
    requires |s| == 4 * n && i < n
  {
    Word32(s[CacheHalf(n, i)], s[CacheHalf(n, i) + 1])
  }

  /** The cache holds the fresh rounding of every bias in the range at this exponent. */
  ghost predicate Holds(s: seq<Half>, n: nat, round: RoundBias, exponent: nat, first: nat, end: nat)
    requires |s| == 4 * n && end <= n
  {
    forall i {:trigger CachedBias(s, n, i)} :: first <= i < end ==> round(i, exponent) == Some(CachedBias(s, n, i))
  }

  /** The halfwords a worker on [first, end) may write: its outputs and its cache entries. */
  predicate Owned(n: nat, first: nat, end: nat, j: nat) {
    first <= j < end || CacheHalf(n, first) <= j < CacheHalf(n, end)
  }

  /** Workers on disjoint ranges own disjoint halfwords, and no output overlaps a cached bias. */
  lemma OwnersDisjoint(n: nat, first: nat, split: nat, end: nat, j: nat)
    requires first <= split <= end <= n
    ensures !(Owned(n, first, split, j) && Owned(n, split, end, j))
    ensures j < n ==> forall i :: 0 <= i < n ==> j != CacheHalf(n, i) && j != CacheHalf(n, i) + 1
  {
  }

  // ----- what one row computes ---------------------------------------------------------------

  datatype Tentative = Tentative(value: Int16, lower: nat, upper: nat)

  function FinishElement(row: PromptRow, i: nat, branch: Bounded, bias: Bounded): Tentative
    requires row.residual.Some? ==> i < |row.residual.value|
  {
    var value := branch + bias;
    var magnitude, error := Abs(value), row.error(i);
    var add := if row.residual.Some? then row.residual.value[i] else 0;
    var clipped := Sat16(value);
    Tentative(if row.residual.Some? then Sat16(clipped + add) else clipped,
          if row.Ranged() then (if magnitude > error then magnitude - error else 0) + Abs(add) else 0,
          if row.Ranged() then magnitude + error + Abs(add) else 0)
  }

  /** FreshElement i with its bias rounded afresh. */
  function FreshElement(row: PromptRow, round: RoundBias, n: nat, i: nat): Option<Tentative>
    requires row.WellFormed(n) && i < n
  {
    var branch :- row.branch(i);
    var bias :- round(i, row.Candidate());
    Some(FinishElement(row, i, branch, bias))
  }

  predicate Succeeds(row: PromptRow, round: RoundBias, n: nat, first: nat, end: nat)
    requires row.WellFormed(n) && end <= n
  {
    forall i :: first <= i < end ==> FreshElement(row, round, n, i).Some?
  }

  function Extent(row: PromptRow, round: RoundBias, n: nat, first: nat, end: nat): (nat, nat)
    requires row.WellFormed(n) && first <= end <= n && Succeeds(row, round, n, first, end)
  {
    if first == end then (0, 0)
    else
      var before := Extent(row, round, n, first, end - 1);
      var tentative := FreshElement(row, round, n, end - 1).value;
      (Max(before.0, tentative.lower), Max(before.1, tentative.upper))
  }

  /** The extents the two workers report combine to the extent of the whole row. */
  lemma {:induction false} ExtentSplits(row: PromptRow, round: RoundBias, n: nat, first: nat, split: nat, end: nat)
    requires row.WellFormed(n) && first <= split <= end <= n && Succeeds(row, round, n, first, end)
    ensures var whole, a, b := Extent(row, round, n, first, end), Extent(row, round, n, first, split),
                               Extent(row, round, n, split, end);
            whole == (Max(a.0, b.0), Max(a.1, b.1))
    decreases end
  {
    if split < end {
      ExtentSplits(row, round, n, first, split, end - 1);
    }
  }

  datatype Outcome = Accepted(values: seq<Half>, exponent: nat) | Declined | Fault

  function Values(row: PromptRow, round: RoundBias, n: nat): (v: seq<Half>)
    requires row.WellFormed(n) && Succeeds(row, round, n, 0, n)
    ensures |v| == n
  {
    seq(n, i requires 0 <= i < n => Pack16(FreshElement(row, round, n, i).value.value))
  }

  predicate Certified(row: PromptRow, extent: (nat, nat)) {
    row.Ranged() ==> extent.1 <= 32700 && (row.Candidate() == 0 || extent.0 > 16350)
  }

  /** The row without any cache: accepted with its values, declined to the slow path, or a worker fault. */
  function RowOutcome(row: PromptRow, round: RoundBias, n: nat): Outcome
    requires row.WellFormed(n)
  {
    if !row.admitted || row.Candidate() > 30 then Declined
    else if row.faults then Fault
    else if !Succeeds(row, round, n, 0, n) then Declined
    else if !Certified(row, Extent(row, round, n, 0, n)) then Declined
    else Accepted(Values(row, round, n), row.Candidate())
  }

  // ----- what an accepted row is ---------------------------------------------------------

  /** s is the branch sum of element i plus its bias, rounded at the row's candidate exponent. */
  predicate IsRowSum(row: PromptRow, round: RoundBias, i: nat, s: int) {
    && row.branch(i).Some? && round(i, row.Candidate()).Some?
    && s == row.branch(i).value + round(i, row.Candidate()).value
  }

  /** The residual of element i; zero for a row without one. */
  function ResidualAt(row: PromptRow, i: nat): int
    requires row.residual.Some? ==> i < |row.residual.value|
  {
    if row.residual.Some? then row.residual.value[i] else 0
  }

  /** The halfword published for element i: the sum saturated, and once more after the residual is added. */
  ghost predicate IsPublished(row: PromptRow, i: nat, s: int, h: Half)
    requires row.residual.Some? ==> i < |row.residual.value|
  {
    exists first, second :: AreSaturated(s, ResidualAt(row, i), first, second) && h == second % 0x1_0000
  }

  predicate AreSaturated(s: int, residual: int, first: int, second: int) {
    IsSat16(s, first) && IsSat16(first + residual, second)
  }

  /** The certificate bounds the exact value of element i from above and from below. */
  predicate WithinRange(row: PromptRow, i: nat, s: int)
    requires row.residual.Some? ==> i < |row.residual.value|
  {
    Abs(s) + row.error(i) + Abs(ResidualAt(row, i)) <= 32700
  }

  predicate NeedsExponent(row: PromptRow, i: nat, s: int)
    requires row.residual.Some? ==> i < |row.residual.value|
  {
    Max(Abs(s) - row.error(i), 0) + Abs(ResidualAt(row, i)) > 16350
  }

  ghost predicate AreRowSums(row: PromptRow, round: RoundBias, n: nat, sums: seq<int>)
    requires row.WellFormed(n)
  {
    |sums| == n && forall i :: 0 <= i < n ==> IsRowSum(row, round, i, sums[i])
  }

  /**
   The row passes its checks, every sum exists, and the range certificate selects the candidate: no value
   is too large for it, and unless it is zero some value is too large for the exponent below.
   */
  ghost predicate IsAcceptedRow(row: PromptRow, round: RoundBias, n: nat, sums: seq<int>, values: seq<Half>,
                                exponent: nat)
    requires row.WellFormed(n)
  {
    && row.admitted && exponent == row.Candidate() <= 30 && !row.faults
    && AreRowSums(row, round, n, sums) && |values| == n
    && (forall i :: 0 <= i < n ==> IsPublished(row, i, sums[i], values[i]))
    && (row.Ranged() ==> forall i :: 0 <= i < n ==> WithinRange(row, i, sums[i]))
    && (row.Ranged() && exponent != 0 ==> exists i :: 0 <= i < n && NeedsExponent(row, i, sums[i]))
  }

  lemma ElementIs(row: PromptRow, round: RoundBias, n: nat, i: nat)
    requires row.WellFormed(n) && i < n
    ensures FreshElement(row, round, n, i).Some? <==> exists s :: IsRowSum(row, round, i, s)
    ensures forall s | IsRowSum(row, round, i, s) ::
              var element := FreshElement(row, round, n, i).value;
              && (forall h: Half :: IsPublished(row, i, s, h) <==> h == Pack16(element.value))
              && (row.Ranged() ==> (WithinRange(row, i, s) <==> element.upper <= 32700))
              && (row.Ranged() ==> (NeedsExponent(row, i, s) <==> element.lower > 16350))
  {
    if row.branch(i).Some? && round(i, row.Candidate()).Some? {
      var s := row.branch(i).value + round(i, row.Candidate()).value;
      assert IsRowSum(row, round, i, s);
      PublishedIs(row, i, s, row.branch(i).value, round(i, row.Candidate()).value);
    }
  }

  lemma PublishedIs(row: PromptRow, i: nat, s: int, branch: Bounded, bias: Bounded)
    requires row.residual.Some? ==> i < |row.residual.value|
    requires s == branch + bias
    ensures forall h: Half ::
              IsPublished(row, i, s, h) <==> h == Pack16(FinishElement(row, i, branch, bias).value)
  {
    var first := Sat16(s);
    var second := Sat16(first + ResidualAt(row, i));
    assert forall v, w :: AreSaturated(s, ResidualAt(row, i), v, w) <==> v == first && w == second;
    assert AreSaturated(s, ResidualAt(row, i), first, second);
    assert Pack16(second) == second % 0x1_0000;
    assert FinishElement(row, i, branch, bias).value == second;
  }

  /** The extents are the largest bounds of the elements. */
  lemma {:induction false} ExtentIs(row: PromptRow, round: RoundBias, n: nat, end: nat)
    requires row.WellFormed(n) && end <= n && Succeeds(row, round, n, 0, end)
    ensures var extent := Extent(row, round, n, 0, end);
            && (extent.1 <= 32700 <==>
                forall i :: 0 <= i < end ==> FreshElement(row, round, n, i).value.upper <= 32700)
            && (extent.0 > 16350 <==>
                exists i :: 0 <= i < end && FreshElement(row, round, n, i).value.lower > 16350)
  {
    if end > 0 {
      ExtentIs(row, round, n, end - 1);
    }
  }

  /** The sums of a row whose elements all succeed. */
  function RowSums(row: PromptRow, round: RoundBias, n: nat): (sums: seq<int>)
    requires row.WellFormed(n) && Succeeds(row, round, n, 0, n)
    ensures |sums| == n
  {
    seq(n, i requires 0 <= i < n =>
           assert FreshElement(row, round, n, i).Some?;
           row.branch(i).value + round(i, row.Candidate()).value)
  }

  lemma RowSumsAre(row: PromptRow, round: RoundBias, n: nat, sums: seq<int>)
    requires row.WellFormed(n)
    ensures AreRowSums(row, round, n, sums)
       <==> Succeeds(row, round, n, 0, n) && sums == RowSums(row, round, n)
  {
    if AreRowSums(row, round, n, sums) {
      forall i | 0 <= i < n
        ensures FreshElement(row, round, n, i).Some?
      {
        assert IsRowSum(row, round, i, sums[i]);
      }
      assert sums == RowSums(row, round, n);
    } else if Succeeds(row, round, n, 0, n) && sums == RowSums(row, round, n) {
      forall i | 0 <= i < n
        ensures IsRowSum(row, round, i, sums[i])
      {
        assert FreshElement(row, round, n, i).Some?;
      }
    }
  }

  /** A row is accepted with these values and this exponent exactly when it is by that description. */
  lemma AcceptedIs(row: PromptRow, round: RoundBias, n: nat, values: seq<Half>, exponent: nat)
    requires row.WellFormed(n)
    ensures RowOutcome(row, round, n) == Accepted(values, exponent)
       <==> exists sums :: IsAcceptedRow(row, round, n, sums, values, exponent)
  {
    if Succeeds(row, round, n, 0, n) {
      var sums := RowSums(row, round, n);
      RowSumsAre(row, round, n, sums);
      ExtentIs(row, round, n, n);
      forall i | 0 <= i < n
        ensures FreshElement(row, round, n, i).Some? && IsRowSum(row, round, i, sums[i])
        ensures |values| == n ==> (IsPublished(row, i, sums[i], values[i]) <==> values[i] == Values(row, round, n)[i])
        ensures row.Ranged() ==>
                  (WithinRange(row, i, sums[i]) <==> FreshElement(row, round, n, i).value.upper <= 32700)
        ensures row.Ranged() ==>
                  (NeedsExponent(row, i, sums[i]) <==> FreshElement(row, round, n, i).value.lower > 16350)
      {
        ElementIs(row, round, n, i);
      }
      if RowOutcome(row, round, n) == Accepted(values, exponent) {
        assert IsAcceptedRow(row, round, n, sums, values, exponent);
      }
      if IsAcceptedRow(row, round, n, sums, values, exponent) {
        assert values == Values(row, round, n);
      }
    }
    forall sums | IsAcceptedRow(row, round, n, sums, values, exponent)
      ensures Succeeds(row, round, n, 0, n) && sums == RowSums(row, round, n)
    {
      RowSumsAre(row, round, n, sums);
    }
  }

  ghost predicate CanBeAccepted(row: PromptRow, round: RoundBias, n: nat)
    requires row.WellFormed(n)
  {
    exists sums, values :: IsAcceptedRow(row, round, n, sums, values, row.Candidate())
  }

  lemma AcceptedSomehow(row: PromptRow, round: RoundBias, n: nat)
    requires row.WellFormed(n)
    ensures RowOutcome(row, round, n).Accepted? <==> CanBeAccepted(row, round, n)
    ensures RowOutcome(row, round, n) == Fault <==> row.admitted && row.Candidate() <= 30 && row.faults
  {
    var outcome := RowOutcome(row, round, n);
    if outcome.Accepted? {
      AcceptedIs(row, round, n, outcome.values, outcome.exponent);
    }
    forall sums, values | IsAcceptedRow(row, round, n, sums, values, row.Candidate())
      ensures outcome == Accepted(values, row.Candidate())
    {
      AcceptedIs(row, round, n, values, row.Candidate());
    }
  }

  /** The certificate excludes every saturation: what is published is the exact sum with the residual. */
  lemma PublishedExactly(row: PromptRow, round: RoundBias, n: nat, sums: seq<int>, values: seq<Half>, exponent: nat,
                         i: nat)
    requires row.WellFormed(n) && i < n
    requires IsAcceptedRow(row, round, n, sums, values, exponent) && row.Ranged()
    ensures -32700 <= sums[i] + ResidualAt(row, i) <= 32700
    ensures values[i] == (sums[i] + ResidualAt(row, i)) % 0x1_0000
  {
    assert WithinRange(row, i, sums[i]) && IsPublished(row, i, sums[i], values[i]);
    var first, second :| AreSaturated(sums[i], ResidualAt(row, i), first, second) && values[i] == second % 0x1_0000;
  }

  /** The scratch holds the outputs of the elements in the range. */
  ghost predicate Stored(s: seq<Half>, row: PromptRow, round: RoundBias, n: nat, first: nat, end: nat)
    requires |s| == 4 * n && row.WellFormed(n) && first <= end <= n && Succeeds(row, round, n, first, end)
  {
    forall i :: first <= i < end ==> s[i] == Pack16(FreshElement(row, round, n, i).value.value)
  }

  // ----- the leaf and its two workers -----------------------------------------------------------

  method WriteEntry(scratch: array<Half>, n: nat, i: nat, v: Bounded)
    requires scratch.Length == 4 * n && i < n
    modifies scratch
    ensures CachedBias(scratch[..], n, i) == v
    ensures forall j :: 0 <= j < 4 * n && !(CacheHalf(n, i) <= j < CacheHalf(n, i + 1)) ==>
              scratch[j] == old(scratch[j])
  {
    scratch[CacheHalf(n, i)] := LowerHalf(v);
    scratch[CacheHalf(n, i) + 1] := UpperHalf(v);
    WordRoundTrip(v);
  }

  /** One element of the leaf: take the cached bias or round and populate, then store the output. */
  method Step(row: PromptRow, round: RoundBias, cached: bool, reuse: bool, scratch: array<Half>, n: nat, i: nat)
    returns (status: int, tentative: Tentative)
    requires row.WellFormed(n) && scratch.Length == 4 * n && i < n
    requires cached && reuse ==> round(i, row.Candidate()) == Some(CachedBias(scratch[..], n, i))
    modifies scratch
    ensures status == 0 <==> FreshElement(row, round, n, i).Some?
    ensures status == 0 ==> FreshElement(row, round, n, i) == Some(tentative) && scratch[i] == Pack16(tentative.value)
    ensures status == 0 && cached ==> round(i, row.Candidate()) == Some(CachedBias(scratch[..], n, i))
    ensures forall j :: 0 <= j < 4 * n && !Owned(n, i, i + 1, j) ==> scratch[j] == old(scratch[j])
  {
    status, tentative := 1, Tentative(0, 0, 0);
    var branch := row.branch(i);
    if branch.None? {
      return;
    }
    var bias: Bounded := 0;
    if cached && reuse {
      bias := CachedBias(scratch[..], n, i);
    } else {
      var rounded := round(i, row.Candidate());
      if rounded.None? {
        return;
      }
      bias := rounded.value;
      if cached {
        WriteEntry(scratch, n, i, bias);
      }
    }
    status, tentative := 0, FinishElement(row, i, branch.value, bias);
    scratch[i] := Pack16(tentative.value);
  }

  /** Writes to the halfwords of elements [a, b) leave the cache entries of all others as they were. */
  lemma HoldsElsewhere(s: seq<Half>, t: seq<Half>, n: nat, round: RoundBias, e: nat, first: nat, end: nat, a: nat,
                       b: nat)
    requires |s| == |t| == 4 * n && first <= end <= n && a <= b <= n && (end <= a || b <= first)
    requires forall j :: 0 <= j < 4 * n && !Owned(n, a, b, j) ==> s[j] == t[j]
    requires Holds(s, n, round, e, first, end)
    ensures Holds(t, n, round, e, first, end)
  {
    forall i | first <= i < end ensures round(i, e) == Some(CachedBias(t, n, i)) {
      assert CachedBias(s, n, i) == CachedBias(t, n, i);
    }
  }

  /** One more element is rounded and stored; the earlier ones stay. */
  lemma StepExtends(s: seq<Half>, t: seq<Half>, row: PromptRow, round: RoundBias, n: nat, first: nat, i: nat)
    requires |s| == |t| == 4 * n && row.WellFormed(n) && first <= i < n
    requires Succeeds(row, round, n, first, i) && FreshElement(row, round, n, i).Some?
    requires forall j :: 0 <= j < 4 * n && !Owned(n, i, i + 1, j) ==> s[j] == t[j]
    requires t[i] == Pack16(FreshElement(row, round, n, i).value.value)
    requires Stored(s, row, round, n, first, i)
    ensures Succeeds(row, round, n, first, i + 1) && Stored(t, row, round, n, first, i + 1)
    ensures Extent(row, round, n, first, i + 1)
         == (Max(Extent(row, round, n, first, i).0, FreshElement(row, round, n, i).value.lower),
             Max(Extent(row, round, n, first, i).1, FreshElement(row, round, n, i).value.upper))
  {
    forall k | first <= k < i ensures t[k] == s[k] {
      assert !Owned(n, i, i + 1, k);
    }
  }

  lemma EntryExtends(s: seq<Half>, t: seq<Half>, n: nat, round: RoundBias, e: nat, first: nat, i: nat)
    requires |s| == |t| == 4 * n && first <= i < n
    requires forall j :: 0 <= j < 4 * n && !Owned(n, i, i + 1, j) ==> s[j] == t[j]
    requires Holds(s, n, round, e, first, i) && round(i, e) == Some(CachedBias(t, n, i))
    ensures Holds(t, n, round, e, first, i + 1)
  {
    HoldsElsewhere(s, t, n, round, e, first, i, i, i + 1);
  }

  /** The state of a worker on [first, end) that has come to element i. */
  ghost predicate LeafState(s: seq<Half>, row: PromptRow, round: RoundBias, cached: bool, reuse: bool, n: nat,
                            first: nat, i: nat, end: nat, lower: nat, upper: nat)
    requires |s| == 4 * n && row.WellFormed(n) && first <= i <= end <= n
  {
    && Succeeds(row, round, n, first, i) && (lower, upper) == Extent(row, round, n, first, i)
    && Stored(s, row, round, n, first, i)
    && (cached ==> Holds(s, n, round, row.Candidate(), first, i))
    && (cached && reuse ==> Holds(s, n, round, row.Candidate(), i, end))
  }

  lemma LeafAdvances(s: seq<Half>, t: seq<Half>, row: PromptRow, round: RoundBias, cached: bool, reuse: bool, n: nat,
                     first: nat, i: nat, end: nat, lower: nat, upper: nat, tentative: Tentative)
    requires |s| == |t| == 4 * n && row.WellFormed(n) && first <= i < end <= n
    requires LeafState(s, row, round, cached, reuse, n, first, i, end, lower, upper)
    requires FreshElement(row, round, n, i) == Some(tentative) && t[i] == Pack16(tentative.value)
    requires cached ==> round(i, row.Candidate()) == Some(CachedBias(t, n, i))
    requires forall j :: 0 <= j < 4 * n && !Owned(n, i, i + 1, j) ==> s[j] == t[j]
    ensures LeafState(t, row, round, cached, reuse, n, first, i + 1, end,
                      Max(lower, tentative.lower), Max(upper, tentative.upper))
  {
    StepExtends(s, t, row, round, n, first, i);
    if cached {
      EntryExtends(s, t, n, round, row.Candidate(), first, i);
      if reuse {
        HoldsElsewhere(s, t, n, round, row.Candidate(), i + 1, end, i, i + 1);
      }
    }
  }

  /** Steps on [a, b) by another worker leave this one's state as it was. */
  lemma LeafStateStays(s: seq<Half>, t: seq<Half>, row: PromptRow, round: RoundBias, cached: bool, reuse: bool, n: nat,
                       first: nat, i: nat, end: nat, lower: nat, upper: nat, a: nat, b: nat)
    requires |s| == |t| == 4 * n && row.WellFormed(n) && first <= i <= end <= n
    requires a <= b <= n && (end <= a || b <= first)
    requires LeafState(s, row, round, cached, reuse, n, first, i, end, lower, upper)
    requires forall j :: 0 <= j < 4 * n && !Owned(n, a, b, j) ==> s[j] == t[j]
    ensures LeafState(t, row, round, cached, reuse, n, first, i, end, lower, upper)
  {
    StoredElsewhere(s, t, row, round, n, first, i, a, b);
    if cached {
      HoldsElsewhere(s, t, n, round, row.Candidate(), first, i, a, b);
      if reuse {
        HoldsElsewhere(s, t, n, round, row.Candidate(), i, end, a, b);
      }
    }
  }

  /** One iteration of a worker on [first, end); a failed one gives up the row. */
  method AdvanceWorker(row: PromptRow, round: RoundBias, cached: bool, reuse: bool, scratch: array<Half>, n: nat,
                       first: nat, i: nat, end: nat, lower: nat, upper: nat)
    returns (status: int, newLower: nat, newUpper: nat)
    requires row.WellFormed(n) && scratch.Length == 4 * n && first <= i < end <= n
    requires LeafState(scratch[..], row, round, cached, reuse, n, first, i, end, lower, upper)
    modifies scratch
    ensures status == 0 <==> FreshElement(row, round, n, i).Some?
    ensures status == 0 ==> LeafState(scratch[..], row, round, cached, reuse, n, first, i + 1, end, newLower, newUpper)
    ensures forall j :: 0 <= j < 4 * n && !Owned(n, i, i + 1, j) ==> scratch[j] == old(scratch[j])
  {
    ghost var before := scratch[..];
    var tentative: Tentative;
    status, tentative := Step(row, round, cached, reuse, scratch, n, i);
    newLower, newUpper := Max(lower, tentative.lower), Max(upper, tentative.upper);
    if status == 0 {
      LeafAdvances(before, scratch[..], row, round, cached, reuse, n, first, i, end, lower, upper, tentative);
    }
  }

  /** One worker's share of the row. It stops at the first element it cannot certify. */
  method Leaf(row: PromptRow, round: RoundBias, cached: bool, reuse: bool, scratch: array<Half>, n: nat, first: nat,
              end: nat)
    returns (status: int, lower: nat, upper: nat)
    requires row.WellFormed(n) && scratch.Length == 4 * n && first <= end <= n
    requires cached && reuse ==> Holds(scratch[..], n, round, row.Candidate(), first, end)
    modifies scratch
    ensures status == 0 <==> Succeeds(row, round, n, first, end)
    ensures status == 0 ==> LeafState(scratch[..], row, round, cached, reuse, n, first, end, end, lower, upper)
    ensures forall j :: 0 <= j < 4 * n && !Owned(n, first, end, j) ==> scratch[j] == old(scratch[j])
  {
    status, lower, upper := 0, 0, 0;
    var i := first;
    while i < end
      invariant first <= i <= end && status == 0
      invariant LeafState(scratch[..], row, round, cached, reuse, n, first, i, end, lower, upper)
      invariant forall j :: 0 <= j < 4 * n && !Owned(n, first, i, j) ==> scratch[j] == old(scratch[j])
    {
      status, lower, upper := AdvanceWorker(row, round, cached, reuse, scratch, n, first, i, end, lower, upper);
      if status != 0 {
        return;
      }
      i := i + 1;
    }
  }

  /** Where the second worker starts; short rows are left to the first one. */
  function Split(n: nat, minimum: nat): (m: nat)
    ensures m <= n
  {
    if n < minimum then n else n / 2 - n / 2 % 16
  }

  lemma StoredElsewhere(s: seq<Half>, t: seq<Half>, row: PromptRow, round: RoundBias, n: nat, first: nat, end: nat,
                        a: nat, b: nat)
    requires |s| == |t| == 4 * n && row.WellFormed(n) && first <= end <= n && a <= b <= n && (end <= a || b <= first)
    requires Succeeds(row, round, n, first, end) && Stored(s, row, round, n, first, end)
    requires forall j :: 0 <= j < 4 * n && !Owned(n, a, b, j) ==> s[j] == t[j]
    ensures Stored(t, row, round, n, first, end)
  {
    forall i | first <= i < end ensures t[i] == s[i] {
      assert !Owned(n, a, b, i);
    }
  }

  lemma HalvesJoin(s: seq<Half>, row: PromptRow, round: RoundBias, n: nat, m: nat, cached: bool)
    requires |s| == 4 * n && row.WellFormed(n) && m <= n
    requires Succeeds(row, round, n, 0, m) && Succeeds(row, round, n, m, n)
    requires Stored(s, row, round, n, 0, m) && Stored(s, row, round, n, m, n)
    requires cached ==> Holds(s, n, round, row.Candidate(), 0, m) && Holds(s, n, round, row.Candidate(), m, n)
    ensures Succeeds(row, round, n, 0, n) && Stored(s, row, round, n, 0, n)
    ensures cached ==> Holds(s, n, round, row.Candidate(), 0, n)
  {
  }

  /**
   Both workers at once: at every moment either of them may take its next element, so every interleaving
   of whole iterations is covered. Their slices are disjoint, so the schedule does not matter.
   */
  method RunWorkers(row: PromptRow, round: RoundBias, cached: bool, reuse: bool, scratch: array<Half>, n: nat, m: nat)
    returns (ok: bool, lower: nat, upper: nat)
    requires row.WellFormed(n) && scratch.Length == 4 * n && m <= n
    requires cached && reuse ==> Holds(scratch[..], n, round, row.Candidate(), 0, n)
    modifies scratch
    ensures ok <==> Succeeds(row, round, n, 0, n)
    ensures ok ==> (lower, upper) == Extent(row, round, n, 0, n) && Stored(scratch[..], row, round, n, 0, n)
    ensures ok && cached ==> Holds(scratch[..], n, round, row.Candidate(), 0, n)
  {
    var i, status0, lower0, upper0: nat := 0, 0, 0, 0;
    var j, status1, lower1, upper1: nat := m, 0, 0, 0;
    while (status0 == 0 && i < m) || (status1 == 0 && j < n)
      invariant 0 <= i <= m <= j <= n
      invariant status0 == 0 ==> LeafState(scratch[..], row, round, cached, reuse, n, 0, i, m, lower0, upper0)
      invariant status1 == 0 ==> LeafState(scratch[..], row, round, cached, reuse, n, m, j, n, lower1, upper1)
      invariant status0 != 0 || status1 != 0 ==> !Succeeds(row, round, n, 0, n)
      decreases (if status0 == 0 then m - i + 1 else 0) + (if status1 == 0 then n - j + 1 else 0)
    {
      ghost var before := scratch[..];
      var turn: bool := *;
      if status0 == 0 && i < m && (turn || status1 != 0 || j == n) {
        status0, lower0, upper0 := AdvanceWorker(row, round, cached, reuse, scratch, n, 0, i, m, lower0, upper0);
        if status1 == 0 {
          LeafStateStays(before, scratch[..], row, round, cached, reuse, n, m, j, n, lower1, upper1, i, i + 1);
        }
        if status0 == 0 {
          i := i + 1;
        }
      } else {
        status1, lower1, upper1 := AdvanceWorker(row, round, cached, reuse, scratch, n, m, j, n, lower1, upper1);
        if status0 == 0 {
          LeafStateStays(before, scratch[..], row, round, cached, reuse, n, 0, i, m, lower0, upper0, j, j + 1);
        }
        if status1 == 0 {
          j := j + 1;
        }
      }
    }
    ok, lower, upper := status0 == 0 && status1 == 0, Max(lower0, lower1), Max(upper0, upper1);
    if ok {
      HalvesJoin(scratch[..], row, round, n, m, cached);
      ExtentSplits(row, round, n, 0, m, n);
    }
  }

  // ----- one row and the row loop --------------------------------------------------------------

  function Base(r: nat, n: nat): nat {
    r * n
  }

  /** Row r of the output buffer. */
  function Block(output: seq<Half>, r: nat, n: nat): seq<Half>
    requires Base(r, n) + n <= |output|
  {
    output[Base(r, n)..Base(r, n) + n]
  }

  function Status(outcome: Outcome): int {
    match outcome
    case Accepted(_, _) => 1
    case Declined => 0
    case Fault => WORKER_FAULT
  }

  /** Copies the accepted halfwords, two at a time while the destination is word aligned. */
  method CopyRow(scratch: array<Half>, n: nat, output: array<Half>, base: nat, aligned: bool)
    requires scratch != output && n <= scratch.Length && base + n <= output.Length
    modifies output
    ensures output[base..base + n] == scratch[..n]
    ensures forall j :: 0 <= j < output.Length && !(base <= j < base + n) ==> output[j] == old(output[j])
  {
    var i := 0;
    if aligned {
      while i + 1 < n
        invariant 0 <= i <= n
        invariant forall k :: 0 <= k < i ==> output[base + k] == scratch[k]
        invariant forall k :: 0 <= k < output.Length && !(base <= k < base + i) ==> output[k] == old(output[k])
      {
        output[base + i], output[base + (i + 1)] := scratch[i], scratch[i + 1];
        i := i + 2;
      }
    }
    while i < n
      invariant 0 <= i <= n
      invariant forall k :: 0 <= k < i ==> output[base + k] == scratch[k]
      invariant forall k :: 0 <= k < output.Length && !(base <= k < base + i) ==> output[k] == old(output[k])
    {
      output[base + i] := scratch[i];
      i := i + 1;
    }
  }

  /**
   startup_project_row. A reused cache must hold the rounding of every bias, but only where the
   candidate passes the first check: the initial tag also matches a residual exponent of NO_TAG, and
   such a row is declined before the leaf looks at the cache. Nothing is published unless the whole
   row is accepted, and then the cache holds every bias at this row's exponent.
   */
  method ProjectRow(row: PromptRow, round: RoundBias, cached: bool, reuse: bool, scratch: array<Half>, n: nat,
                    minimum: nat, output: array<Half>, r: nat, aligned: bool)
    returns (status: int, exponent: nat)
    requires row.WellFormed(n) && scratch.Length == 4 * n && scratch != output && Base(r, n) + n <= output.Length
    requires cached && reuse && row.Candidate() <= 30 ==> Holds(scratch[..], n, round, row.Candidate(), 0, n)
    modifies scratch, output
    ensures status == Status(RowOutcome(row, round, n))
    ensures status == 1 ==> RowOutcome(row, round, n) == Accepted(Block(output[..], r, n), exponent)
    ensures status == 1 ==>
              exists sums :: IsAcceptedRow(row, round, n, sums, Block(output[..], r, n), exponent)
    ensures status == 1 <==> CanBeAccepted(row, round, n)
    ensures status == -40 <==> row.admitted && row.Candidate() <= 30 && row.faults
    ensures status in {1, 0, -40}
    ensures status == 1 && cached ==> Holds(scratch[..], n, round, row.Candidate(), 0, n)
    ensures forall j :: 0 <= j < output.Length && !(Base(r, n) <= j < Base(r, n) + n && status == 1) ==>
              output[j] == old(output[j])
  {
    status, exponent := 0, 0;
    AcceptedSomehow(row, round, n);
    if !row.admitted || row.Candidate() > 30 {
      return;
    }
    if row.faults {
      var _, _, _ := Leaf(row, round, cached, reuse, scratch, n, 0, Split(n, minimum));
      return WORKER_FAULT, 0;
    }
    var ok, lower, upper := RunWorkers(row, round, cached, reuse, scratch, n, Split(n, minimum));
    if !ok || !Certified(row, (lower, upper)) {
      return;
    }
    CopyRow(scratch, n, output, Base(r, n), aligned);
    assert Block(output[..], r, n) == scratch[..n] == Values(row, round, n);
    AcceptedIs(row, round, n, Block(output[..], r, n), row.Candidate());
    return 1, row.Candidate();
  }

  /** What the call delivers for one row, cache or not. */
  function RowResult(row: PromptRow, round: RoundBias, n: nat): Projected
    requires row.WellFormed(n)
  {
    match RowOutcome(row, round, n)
    case Accepted(values, exponent) => Written(values, exponent)
    case Declined => row.generic
    case Fault => Failed(WORKER_FAULT)
  }

  /**
   A delivered row is an accepted row; only where none is acceptable and no worker faults, it is what the
   slow path computes.
   */
  lemma ResultIs(row: PromptRow, round: RoundBias, n: nat, values: seq<Half>, exponent: nat)
    requires row.WellFormed(n)
    ensures RowResult(row, round, n) == Written(values, exponent)
       <==> (exists sums :: IsAcceptedRow(row, round, n, sums, values, exponent))
            || (!CanBeAccepted(row, round, n) && !(row.admitted && row.Candidate() <= 30 && row.faults)
                && row.generic == Written(values, exponent))
  {
    AcceptedIs(row, round, n, values, exponent);
    AcceptedSomehow(row, round, n);
  }

  /** The first |exponents| rows are delivered; a nonzero status is the failure of the next one. */
  ghost predicate Delivered(rows: seq<PromptRow>, round: RoundBias, n: nat, output: seq<Half>, exponents: seq<nat>,
                            status: int)
    requires forall r :: 0 <= r < |rows| ==> rows[r].WellFormed(n)
  {
    && |exponents| <= |rows| && (status == 0 ==> |exponents| == |rows|)
    && (status != 0 ==> |exponents| < |rows| && RowResult(rows[|exponents|], round, n) == Failed(status))
    && forall r :: 0 <= r < |exponents| ==> RowDelivered(rows[r], round, n, output, r, exponents[r])
  }

  ghost predicate RowDelivered(row: PromptRow, round: RoundBias, n: nat, output: seq<Half>, r: nat, exponent: nat)
    requires row.WellFormed(n)
  {
    Base(r, n) + n <= |output| && RowResult(row, round, n) == Written(Block(output, r, n), exponent)
  }

  /** Delivery goes on exactly where the next row has a result. */
  lemma Progress(rows: seq<PromptRow>, round: RoundBias, n: nat, s: seq<Half>, e: seq<nat>, p: int, r: nat)
    requires forall r :: 0 <= r < |rows| ==> rows[r].WellFormed(n)
    requires Delivered(rows, round, n, s, e, p) && r <= |e| && r < |rows|
    ensures RowResult(rows[r], round, n).Written? <==> r < |e|
  {
    if r < |e| {
      assert RowDelivered(rows[r], round, n, s, r, e[r]);
    }
  }

  /** Delivery leaves no freedom: any two loops that meet it agree on status, exponents and outputs. */
  lemma DeliveryIsUnique(rows: seq<PromptRow>, round: RoundBias, n: nat, s: seq<Half>, t: seq<Half>,
                         e: seq<nat>, f: seq<nat>, p: int, q: int)
    requires forall r :: 0 <= r < |rows| ==> rows[r].WellFormed(n)
    requires Delivered(rows, round, n, s, e, p) && Delivered(rows, round, n, t, f, q)
    ensures p == q && e == f
    ensures forall r :: 0 <= r < |e| ==>
              Base(r, n) + n <= |s| && Base(r, n) + n <= |t| && Block(s, r, n) == Block(t, r, n)
  {
    var m := if |e| < |f| then |e| else |f|;
    if m < |rows| {
      Progress(rows, round, n, s, e, p, m);
      Progress(rows, round, n, t, f, q, m);
    }
    forall r | 0 <= r < |e|
      ensures r < |f| && e[r] == f[r]
      ensures Base(r, n) + n <= |s| && Base(r, n) + n <= |t| && Block(s, r, n) == Block(t, r, n)
    {
      assert RowDelivered(rows[r], round, n, s, r, e[r]) && RowDelivered(rows[r], round, n, t, r, f[r]);
    }
  }

  lemma RowsApart(q: nat, r: nat, n: nat)
    requires q < r
    ensures Base(q, n) + n <= Base(r, n)
  {
    assert (r - q - 1) * n >= 0;
  }

  lemma EarlierDelivered(rows: seq<PromptRow>, round: RoundBias, n: nat, s: seq<Half>, t: seq<Half>,
                         exponents: seq<nat>)
    requires |exponents| < |rows| && |s| == |t| && forall r :: 0 <= r < |rows| ==> rows[r].WellFormed(n)
    requires forall r :: 0 <= r < |exponents| ==> RowDelivered(rows[r], round, n, s, r, exponents[r])
    requires var base := Base(|exponents|, n);
             forall j :: 0 <= j < |s| && !(base <= j < base + n) ==> s[j] == t[j]
    ensures forall r :: 0 <= r < |exponents| ==> RowDelivered(rows[r], round, n, t, r, exponents[r])
  {
    forall r | 0 <= r < |exponents| ensures RowDelivered(rows[r], round, n, t, r, exponents[r]) {
      assert RowDelivered(rows[r], round, n, s, r, exponents[r]);
      RowsApart(r, |exponents|, n);
      assert Block(s, r, n) == Block(t, r, n);
    }
  }

  /** The generic path owns the whole scratch buffer; it leaves arbitrary halfwords there. */
  method GenericRow(row: PromptRow, scratch: array<Half>, n: nat, output: array<Half>, r: nat)
    returns (status: int, exponent: nat)
    requires row.WellFormed(n) && scratch.Length == 4 * n && scratch != output && Base(r, n) + n <= output.Length
    modifies scratch, output
    ensures status == 0 ==> row.generic == Written(Block(output[..], r, n), exponent)
    ensures status != 0 ==> row.generic == Failed(status)
    ensures forall j :: 0 <= j < output.Length && !(Base(r, n) <= j < Base(r, n) + n) ==> output[j] == old(output[j])
  {
    forall j | 0 <= j < scratch.Length {
      scratch[j] := row.leftover(j);
    }
    match row.generic
    case Failed(code) => return code, 0;
    case Written(values, e) =>
      var base := Base(r, n);
      forall j | base <= j < base + n {
        output[j] := values[j - base];
      }
      assert Block(output[..], r, n) == values;
      return 0, e;
  }

  /** One row of either loop: try the fast path, fall back to the generic one. */
  method DeliverRow(rows: seq<PromptRow>, round: RoundBias, cached: bool, reuse: bool, scratch: array<Half>, n: nat,
                    minimum: nat, output: array<Half>, aligned: bool, exponents: seq<nat>)
    returns (status: int, fast: bool, exponent: nat)
    requires forall r :: 0 <= r < |rows| ==> rows[r].WellFormed(n)
    requires |exponents| < |rows| && scratch.Length == 4 * n && scratch != output && Base(|rows|, n) <= output.Length
    requires forall r :: 0 <= r < |exponents| ==> RowDelivered(rows[r], round, n, output[..], r, exponents[r])
    requires var row := rows[|exponents|];
             cached && reuse && row.Candidate() <= 30 ==> Holds(scratch[..], n, round, row.Candidate(), 0, n)
    modifies scratch, output
    ensures status != 0 ==> Delivered(rows, round, n, output[..], exponents, status)
    ensures status == 0 ==> forall r :: 0 <= r < |exponents| + 1 ==>
                                          RowDelivered(rows[r], round, n, output[..], r, (exponents + [exponent])[r])
    ensures fast && cached ==> rows[|exponents|].Candidate() <= 30 &&
                               Holds(scratch[..], n, round, rows[|exponents|].Candidate(), 0, n)
  {
    var r := |exponents|;
    RowsApart(r, |rows|, n);
    ghost var before := output[..];
    status, exponent := ProjectRow(rows[r], round, cached, reuse, scratch, n, minimum, output, r, aligned);
    EarlierDelivered(rows, round, n, before, output[..], exponents);
    fast := status == 1;
    if status < 0 {
      return;
    }
    if fast {
      status := 0;
      assert RowDelivered(rows[r], round, n, output[..], r, exponent);
      return;
    }
    ghost var middle := output[..];
    status, exponent := GenericRow(rows[r], scratch, n, output, r);
    EarlierDelivered(rows, round, n, middle, output[..], exponents);
    assert status == 0 ==> RowDelivered(rows[r], round, n, output[..], r, exponent);
  }

  /** The rolling cache: reuse whenever the tag matches, rebuild after a change or a fallback. */
  method Project(rows: seq<PromptRow>, round: RoundBias, residual: bool, scratch: array<Half>, n: nat, minimum: nat,
                 output: array<Half>, aligned: bool)
    returns (status: int, exponents: seq<nat>)
    requires forall r :: 0 <= r < |rows| ==> rows[r].WellFormed(n) && rows[r].residual.Some? == residual
    requires scratch.Length == 4 * n && scratch != output && Base(|rows|, n) <= output.Length
    modifies scratch, output
    ensures Delivered(rows, round, n, output[..], exponents, status)
  {
    status, exponents := 0, [];
    var cached := |rows| >= 2 && residual;
    var tag: nat := NO_TAG;
    while |exponents| < |rows|
      invariant status == 0 && |exponents| <= |rows|
      invariant forall r :: 0 <= r < |exponents| ==> RowDelivered(rows[r], round, n, output[..], r, exponents[r])
      invariant cached && tag <= 30 ==> Holds(scratch[..], n, round, tag, 0, n)
    {
      var row := rows[|exponents|];
      var fast, exponent;
      status, fast, exponent := DeliverRow(rows, round, cached, cached && tag == row.exponent, scratch, n, minimum,
                                           output, aligned, exponents);
      if status != 0 {
        return;
      }
      exponents := exponents + [exponent];
      if fast {
        if cached {
          tag := row.exponent;
        }
      } else {
        tag := NO_TAG;
      }
    }
  }

  /** The earlier form: every row must share one residual exponent, and the first fallback ends reuse. */
  method ProjectEqualRows(rows: seq<PromptRow>, round: RoundBias, residual: bool, scratch: array<Half>, n: nat,
                          minimum: nat, output: array<Half>, aligned: bool)
    returns (status: int, exponents: seq<nat>)
    requires forall r :: 0 <= r < |rows| ==> rows[r].WellFormed(n) && rows[r].residual.Some? == residual
    requires scratch.Length == 4 * n && scratch != output && Base(|rows|, n) <= output.Length
    modifies scratch, output
    ensures Delivered(rows, round, n, output[..], exponents, status)
  {
    status, exponents := 0, [];
    var cached := |rows| >= 2 && residual && rows[0].exponent <= 30 &&
                  forall r :: 0 <= r < |rows| ==> rows[r].exponent == rows[0].exponent;
    while |exponents| < |rows|
      invariant status == 0 && |exponents| <= |rows|
      invariant forall r :: 0 <= r < |exponents| ==> RowDelivered(rows[r], round, n, output[..], r, exponents[r])
      invariant cached ==> residual && forall r :: 0 <= r < |rows| ==> rows[r].exponent == rows[0].exponent
      invariant cached && |exponents| > 0 ==> Holds(scratch[..], n, round, rows[0].exponent, 0, n)
    {
      var fast, exponent;
      status, fast, exponent := DeliverRow(rows, round, cached, |exponents| != 0, scratch, n, minimum, output,
                                           aligned, exponents);
      if status != 0 {
        return;
      }
      exponents := exponents + [exponent];
      if !fast {
        cached := false;
      }
    }
  }
}
