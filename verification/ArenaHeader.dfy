/**
 The 64 KiB binary header: written field by field into a zeroed buffer, read back by offset. IsHeader
 states what every byte of it is, so two layouts share a header only if all recorded fields agree.
 */
module ArenaHeader {
  import opened Outcomes
  import opened ArenaLayout
  import opened FixedWidth

  type Octet = x: int | 0 <= x < 256

  function HexDigit(c: char): Octet {
    if '0' <= c <= '9' then c as int - '0' as int else if 'a' <= c <= 'f' then c as int - 'a' as int + 10 else 0
  }

  function FromHex(s: string): (r: seq<Octet>)
    ensures |r| == |s| / 2
  {
    seq(|s| / 2, i requires 0 <= i < |s| / 2 => (16 * HexDigit(s[2 * i]) + HexDigit(s[2 * i + 1])) % 256)
  }

  // ----- little-endian words ---------------------------------------------------------------

  predicate IsWord(w: int) {
    0 <= w < 0x1_0000_0000
  }

  function WordOctets(w: nat): (r: seq<Octet>)
    ensures |r| == 4
  {
    [w % 256, w / 256 % 256, w / 65536 % 256, w / 16777216 % 256]
  }

  function ReadWord(h: seq<Octet>, at: nat): int
    requires at + 4 <= |h|
  {
    var a: int, b: int, c: int, d: int := h[at], h[at + 1], h[at + 2], h[at + 3];
    a + 256 * b + 65536 * c + 16777216 * d
  }

  lemma OctetsRead(w: nat, h: seq<Octet>, at: nat)
    requires at + 4 <= |h| && h[at..at + 4] == WordOctets(w) && IsWord(w)
    ensures ReadWord(h, at) == w
  {
    var q := w / 256;
    assert h[at..at + 4][0] == h[at] && h[at..at + 4][1] == h[at + 1];
    assert h[at..at + 4][2] == h[at + 2] && h[at..at + 4][3] == h[at + 3];
    assert w / 65536 == q / 256 && w / 16777216 == q / 256 / 256;
  }

  /** Octets are the base-256 digits of the word. */
  lemma ReadDetermines(g: seq<Octet>, h: seq<Octet>, at: nat)
    requires at + 4 <= |g| && at + 4 <= |h| && ReadWord(g, at) == ReadWord(h, at)
    ensures g[at] == h[at] && g[at + 1] == h[at + 1] && g[at + 2] == h[at + 2] && g[at + 3] == h[at + 3]
  {
    DigitsDetermine(g[at], g[at + 1], g[at + 2], g[at + 3], h[at], h[at + 1], h[at + 2], h[at + 3]);
  }

  function Field(row: nat, f: nat): nat {
    row + 4 * f
  }

  /** The words stand at consecutive fields from row on. */
  ghost predicate HoldsRow(h: seq<Octet>, row: nat, words: seq<nat>) {
    && Field(row, |words|) <= |h|
    && forall f :: 0 <= f < |words| ==> ReadWord(h, Field(row, f)) == words[f]
  }

  lemma RowStays(g: seq<Octet>, h: seq<Octet>, row: nat, words: seq<nat>)
    requires |g| == |h| && HoldsRow(g, row, words)
    requires forall j :: row <= j < Field(row, |words|) ==> g[j] == h[j]
    ensures HoldsRow(h, row, words)
  {
    forall f | 0 <= f < |words| ensures ReadWord(h, Field(row, f)) == words[f] {
      assert ReadWord(g, Field(row, f)) == words[f];
    }
  }

  lemma RowDetermines(g: seq<Octet>, h: seq<Octet>, row: nat, words: seq<nat>, j: nat)
    requires |g| == |h| && HoldsRow(g, row, words) && HoldsRow(h, row, words) && row <= j < Field(row, |words|)
    ensures g[j] == h[j]
  {
    var f := (j - row) / 4;
    assert ReadWord(g, Field(row, f)) == ReadWord(h, Field(row, f));
    ReadDetermines(g, h, Field(row, f));
  }

  // ----- the header ----------------------------------------------------------------------------

  function Preamble(l: Layout): (r: seq<nat>)
    ensures |r| == 16
  {
    [0x354d4150, 1, HEADER_BYTES, ARENA_BYTES, |l.arrays|, 32, ARRAY_TABLE, |l.regions|, 32, REGION_TABLE, l.modelBytes,
     1024, 12, 12, 768, 50257]
  }

  function Shape3(shape: seq<nat>): seq<nat> {
    shape + seq(if |shape| < 3 then 3 - |shape| else 0, _ => 0)
  }

  function ArrayWords(e: Entry): seq<nat> {
    [e.id, e.offset, e.bytes, e.dtype.TypeCode(), |e.shape|] + Shape3(e.shape)
  }

  function RegionWords(r: Region): (w: seq<nat>)
    ensures |w| == 8
  {
    [r.id, r.offset, r.bytes, r.permissions, 0, 0, 0, 0]
  }

  function ArrayAt(i: nat): nat {
    ARRAY_TABLE + 32 * i
  }

  function RegionAt(i: nat): nat {
    REGION_TABLE + 32 * i
  }

  /** What build_layout has checked: identifiers count up and both tables fit. */
  predicate Placed(l: Layout) {
    && (forall i :: 0 <= i < |l.arrays| ==> l.arrays[i].id == i)
    && (forall i :: 0 <= i < |l.regions| ==> l.regions[i].id == i)
    && ArrayAt(|l.arrays|) <= REGION_TABLE && RegionAt(|l.regions|) <= HEADER_BYTES
  }

  predicate AreWords(words: seq<nat>) {
    forall f :: 0 <= f < |words| ==> IsWord(words[f])
  }

  /** Every field fits its 32-bit slot and no shape has more than three dimensions. */
  predicate Expressible(l: Layout) {
    && IsWord(l.modelBytes)
    && (forall i :: 0 <= i < |l.arrays| ==> |l.arrays[i].shape| <= 3 && AreWords(ArrayWords(l.arrays[i])))
    && (forall i :: 0 <= i < |l.regions| ==> AreWords(RegionWords(l.regions[i])))
  }

  ghost predicate Zero(h: seq<Octet>, from: nat, to: nat) {
    to <= |h| && forall j :: from <= j < to ==> h[j] == 0
  }

  ghost predicate HoldsTables(h: seq<Octet>, l: Layout, arrays: nat, regions: nat)
    requires arrays <= |l.arrays| && regions <= |l.regions|
  {
    && (forall i :: 0 <= i < arrays ==> HoldsRow(h, ArrayAt(i), ArrayWords(l.arrays[i])))
    && (forall i :: 0 <= i < regions ==> HoldsRow(h, RegionAt(i), RegionWords(l.regions[i])))
  }

  ghost predicate Front(h: seq<Octet>, l: Layout) {
    |h| >= 128 && HoldsRow(h, 0, Preamble(l)) && h[64..96] == FromHex(PACK_SHA) && h[96..128] == FromHex(CANDIDATE_SHA)
  }

  /** Every byte of the header of this layout. */
  ghost predicate IsHeader(h: seq<Octet>, l: Layout) {
    && |h| == HEADER_BYTES && Front(h, l) && HoldsTables(h, l, |l.arrays|, |l.regions|)
    && Zero(h, ArrayAt(|l.arrays|), REGION_TABLE) && Zero(h, RegionAt(|l.regions|), HEADER_BYTES)
  }

  /** IsHeader leaves no byte open. */
  lemma HeaderIsUnique(g: seq<Octet>, h: seq<Octet>, l: Layout)
    requires Placed(l) && Expressible(l) && IsHeader(g, l) && IsHeader(h, l)
    ensures g == h
  {
    forall j | 0 <= j < HEADER_BYTES ensures g[j] == h[j] {
      if j < 64 {
        RowDetermines(g, h, 0, Preamble(l), j);
      } else if j < 128 {
        assert g[64..96] == h[64..96] && g[96..128] == h[96..128];
        assert j < 96 ==> g[j] == g[64..96][j - 64] && h[j] == h[64..96][j - 64];
        assert j >= 96 ==> g[j] == g[96..128][j - 96] && h[j] == h[96..128][j - 96];
      } else if j < ArrayAt(|l.arrays|) {
        var i := (j - ARRAY_TABLE) / 32;
        RowDetermines(g, h, ArrayAt(i), ArrayWords(l.arrays[i]), j);
      } else if REGION_TABLE <= j < RegionAt(|l.regions|) {
        var i := (j - REGION_TABLE) / 32;
        RowDetermines(g, h, RegionAt(i), RegionWords(l.regions[i]), j);
      }
    }
  }

  /** A reader of the header recovers the placement: equal headers record equal tables. */
  lemma HeaderRecords(h: seq<Octet>, l: Layout, k: Layout)
    requires Expressible(l) && Expressible(k) && IsHeader(h, l) && IsHeader(h, k)
    ensures l.modelBytes == k.modelBytes && |l.arrays| == |k.arrays| && |l.regions| == |k.regions|
    ensures forall i :: 0 <= i < |l.arrays| ==> SamePlace(l.arrays[i], k.arrays[i])
    ensures forall i :: 0 <= i < |l.regions| ==>
                          l.regions[i].(name := "") == k.regions[i].(name := "")
  {
    assert ReadWord(h, Field(0, 4)) == Preamble(l)[4] == Preamble(k)[4];
    assert ReadWord(h, Field(0, 7)) == Preamble(l)[7] == Preamble(k)[7];
    assert ReadWord(h, Field(0, 10)) == Preamble(l)[10] == Preamble(k)[10];
    forall i | 0 <= i < |l.arrays| ensures SamePlace(l.arrays[i], k.arrays[i]) {
      RowsAgree(h, ArrayAt(i), ArrayWords(l.arrays[i]), ArrayWords(k.arrays[i]));
      WordsPlace(l.arrays[i], k.arrays[i]);
    }
    forall i | 0 <= i < |l.regions| ensures l.regions[i].(name := "") == k.regions[i].(name := "") {
      RowsAgree(h, RegionAt(i), RegionWords(l.regions[i]), RegionWords(k.regions[i]));
      RegionsPlace(l.regions[i], k.regions[i]);
    }
  }

  predicate SamePlace(d: Entry, e: Entry) {
    d.id == e.id && d.offset == e.offset && d.bytes == e.bytes && d.dtype == e.dtype && d.shape == e.shape
  }

  lemma RowsAgree(h: seq<Octet>, row: nat, v: seq<nat>, w: seq<nat>)
    requires HoldsRow(h, row, v) && HoldsRow(h, row, w) && |v| == |w|
    ensures v == w
  {
    forall f | 0 <= f < |v| ensures v[f] == w[f] {
      assert ReadWord(h, Field(row, f)) == v[f];
    }
  }

  lemma WordsPlace(d: Entry, e: Entry)
    requires |d.shape| <= 3 && |e.shape| <= 3 && ArrayWords(d) == ArrayWords(e)
    ensures SamePlace(d, e)
  {
    var v, w := ArrayWords(d), ArrayWords(e);
    assert v[0] == w[0] && v[1] == w[1] && v[2] == w[2] && v[3] == w[3] && v[4] == w[4];
    forall f | 0 <= f < |d.shape| ensures d.shape[f] == e.shape[f] {
      assert v[5 + f] == d.shape[f] && w[5 + f] == e.shape[f];
    }
  }

  lemma RegionsPlace(r: Region, s: Region)
    requires RegionWords(r) == RegionWords(s)
    ensures r.(name := "") == s.(name := "")
  {
    var v, w := RegionWords(r), RegionWords(s);
    assert v[0] == w[0] && v[1] == w[1] && v[2] == w[2] && v[3] == w[3];
  }

  /** The words from byte `at` on, least significant byte first. */
  ghost predicate ShowsWords(h: seq<Octet>, at: nat, words: seq<nat>) {
    at + 4 * |words| <= |h| &&
    forall f :: 0 <= f < |words| ==> IsLittleEndian(h, at + 4 * f, words[f])
  }

  predicate IsLittleEndian(h: seq<Octet>, at: nat, word: nat) {
    at + 4 <= |h| &&
    var a: int, b: int, c: int, d: int := h[at], h[at + 1], h[at + 2], h[at + 3];
    a + 0x100 * b + 0x1_0000 * c + 0x100_0000 * d == word
  }

  lemma RowShows(h: seq<Octet>, row: nat, words: seq<nat>)
    requires HoldsRow(h, row, words)
    ensures ShowsWords(h, row, words)
  {
    forall f | 0 <= f < |words|
      ensures IsLittleEndian(h, row + 4 * f, words[f])
    {
      assert ReadWord(h, Field(row, f)) == words[f];
    }
  }

  /** The sixteen words in front: magic, version, sizes, table geometry and the dimensions of the model. */
  lemma FixedWords(h: seq<Octet>, l: Layout)
    requires IsHeader(h, l)
    ensures ShowsWords(h, 0, [0x354d_4150, 1, 65536, 268435456, |l.arrays|, 32, 128, |l.regions|, 32, 8192,
                              l.modelBytes, 1024, 12, 12, 768, 50257])
    ensures h[0] == 0x50 && h[1] == 0x41 && h[2] == 0x4d && h[3] == 0x35
  {
    RowShows(h, 0, Preamble(l));
    assert IsLittleEndian(h, 0, Preamble(l)[0]);
  }

  /** The row of an array: identifier, offset, size, type code, number of dimensions, dimensions, zeros. */
  lemma ArrayRow(h: seq<Octet>, l: Layout, i: nat)
    requires IsHeader(h, l) && i < |l.arrays| && |l.arrays[i].shape| <= 3
    ensures var e := l.arrays[i];
            var dims := e.shape + seq(3 - |e.shape|, _ => 0);
            ShowsWords(h, 128 + 32 * i, [e.id, e.offset, e.bytes, match e.dtype case I1 => 1 case I2 => 2 case F8 => 3,
                                         |e.shape|, dims[0], dims[1], dims[2]])
  {
    var e := l.arrays[i];
    var dims := e.shape + seq(3 - |e.shape|, _ => 0);
    assert HoldsRow(h, ArrayAt(i), ArrayWords(e));
    assert ArrayWords(e) == [e.id, e.offset, e.bytes, match e.dtype case I1 => 1 case I2 => 2 case F8 => 3, |e.shape|,
                             dims[0], dims[1], dims[2]];
    RowShows(h, ArrayAt(i), ArrayWords(e));
  }

  lemma RegionRow(h: seq<Octet>, l: Layout, i: nat)
    requires IsHeader(h, l) && i < |l.regions|
    ensures var r := l.regions[i];
            ShowsWords(h, 8192 + 32 * i, [r.id, r.offset, r.bytes, r.permissions, 0, 0, 0, 0])
  {
    assert HoldsRow(h, RegionAt(i), RegionWords(l.regions[i]));
    RowShows(h, RegionAt(i), RegionWords(l.regions[i]));
  }

  predicate IsHexChar(c: char) {
    '0' <= c <= '9' || 'a' <= c <= 'f'
  }

  /** The character that stands for a digit from 0 to 15. */
  predicate IsDigitChar(c: char, d: int) {
    c as int == if d < 10 then '0' as int + d else 'a' as int + d - 10
  }

  /** Each octet of a digest shows its two hexadecimal digits, the high one first. */
  lemma HexOctets(s: string, i: nat)
    requires 2 * i + 1 < |s| && IsHexChar(s[2 * i]) && IsHexChar(s[2 * i + 1])
    ensures IsDigitChar(s[2 * i], FromHex(s)[i] / 16) && IsDigitChar(s[2 * i + 1], FromHex(s)[i] % 16)
  {
    var high: int, low: int := HexDigit(s[2 * i]), HexDigit(s[2 * i + 1]);
    assert 0 <= high < 16 && 0 <= low < 16;
    assert FromHex(s)[i] == 16 * high + low;
  }

  // ----- make_header ---------------------------------------------------------------------------

  /**
   struct.pack_into with `count` unsigned 32-bit fields: it takes exactly that many arguments, packs one
   after the other, and raises at the first that is out of range.
   */
  method PackInto(header: array<Octet>, row: nat, count: nat, words: seq<nat>) returns (r: Result<()>)
    requires Field(row, count) <= header.Length
    modifies header
    ensures r.Ok? <==> |words| == count && AreWords(words)
    ensures r.Ok? ==> HoldsRow(header[..], row, words)
    ensures r.Err? ==> r.error == StructError
    ensures forall j :: 0 <= j < header.Length && !(row <= j < Field(row, count)) ==> header[j] == old(header[j])
  {
    if |words| != count {
      return Err(StructError);
    }
    for f := 0 to count
      invariant AreWords(words[..f]) && HoldsRow(header[..], row, words[..f])
      invariant forall j :: 0 <= j < header.Length && !(row <= j < Field(row, f)) ==> header[j] == old(header[j])
    {
      if words[f] > 0xffff_ffff {
        return Err(StructError);
      }
      PackField(header, row, words, f);
    }
    assert words[..|words|] == words;
    return Ok(());
  }

  method PackField(header: array<Octet>, row: nat, words: seq<nat>, f: nat)
    requires f < |words| && Field(row, |words|) <= header.Length && IsWord(words[f])
    requires HoldsRow(header[..], row, words[..f])
    modifies header
    ensures HoldsRow(header[..], row, words[..f + 1])
    ensures forall j :: 0 <= j < header.Length && !(Field(row, f) <= j < Field(row, f + 1)) ==>
              header[j] == old(header[j])
  {
    ghost var before := header[..];
    var at, octets := Field(row, f), WordOctets(words[f]);
    header[at], header[at + 1], header[at + 2], header[at + 3] := octets[0], octets[1], octets[2], octets[3];
    RowStays(before, header[..], row, words[..f]);
    assert header[..][at..at + 4] == octets;
    OctetsRead(words[f], header[..], at);
    assert words[..f + 1] == words[..f] + [words[f]];
  }

  method CopyInto(header: array<Octet>, at: nat, bytes: seq<Octet>)
    requires at + |bytes| <= header.Length
    modifies header
    ensures header[at..at + |bytes|] == bytes
    ensures forall j :: 0 <= j < header.Length && !(at <= j < at + |bytes|) ==> header[j] == old(header[j])
  {
    forall j | at <= j < at + |bytes| {
      header[j] := bytes[j - at];
    }
  }

  /** The fixed part: the preamble and the two hashes. Of the preamble only the model size can be out of range. */
  method PackFront(header: array<Octet>, l: Layout) returns (r: Result<()>)
    requires header.Length == HEADER_BYTES && Placed(l)
    modifies header
    ensures r.Ok? <==> IsWord(l.modelBytes)
    ensures r.Err? ==> r.error == StructError
    ensures r.Ok? ==> Front(header[..], l)
    ensures forall j :: 128 <= j < header.Length ==> header[j] == old(header[j])
  {
    PreambleWords(l);
    var _ :- PackInto(header, 0, 16, Preamble(l));
    ghost var packed := header[..];
    CopyInto(header, 64, FromHex(PACK_SHA));
    ghost var first := header[64..96];
    CopyInto(header, 96, FromHex(CANDIDATE_SHA));
    assert header[64..96] == first;
    RowStays(packed, header[..], 0, Preamble(l));
    return Ok(());
  }

  lemma PreambleWords(l: Layout)
    requires Placed(l)
    ensures AreWords(Preamble(l)) <==> IsWord(l.modelBytes)
  {
    assert Preamble(l)[10] == l.modelBytes;
  }

  /** An array entry packs into eight words exactly when its shape has at most three dimensions. */
  predicate Packs(words: seq<nat>) {
    |words| == 8 && AreWords(words)
  }

  lemma TablesStay(g: seq<Octet>, h: seq<Octet>, l: Layout, arrays: nat, regions: nat, from: nat)
    requires |g| == |h| && arrays <= |l.arrays| && regions <= |l.regions|
    requires forall i :: 0 <= i < arrays ==> Packs(ArrayWords(l.arrays[i]))
    requires Front(g, l) && HoldsTables(g, l, arrays, regions)
    requires 128 <= from && ArrayAt(arrays) <= from && (regions > 0 ==> RegionAt(regions) <= from)
    requires forall j :: 0 <= j < from && j < |g| ==> g[j] == h[j]
    ensures Front(h, l) && HoldsTables(h, l, arrays, regions)
  {
    RowStays(g, h, 0, Preamble(l));
    assert g[64..96] == h[64..96] && g[96..128] == h[96..128];
    forall i | 0 <= i < arrays ensures HoldsRow(h, ArrayAt(i), ArrayWords(l.arrays[i])) {
      RowStays(g, h, ArrayAt(i), ArrayWords(l.arrays[i]));
    }
    forall i | 0 <= i < regions ensures HoldsRow(h, RegionAt(i), RegionWords(l.regions[i])) {
      RowStays(g, h, RegionAt(i), RegionWords(l.regions[i]));
    }
  }

  method PackArrays(header: array<Octet>, l: Layout) returns (r: Result<()>)
    requires header.Length == HEADER_BYTES && Placed(l)
    requires Front(header[..], l) && Zero(header[..], ARRAY_TABLE, HEADER_BYTES)
    modifies header
    ensures r.Ok? <==> forall i :: 0 <= i < |l.arrays| ==> Packs(ArrayWords(l.arrays[i]))
    ensures r.Err? ==> r.error == StructError
    ensures r.Ok? ==> Front(header[..], l) && HoldsTables(header[..], l, |l.arrays|, 0)
    ensures r.Ok? ==> Zero(header[..], ArrayAt(|l.arrays|), HEADER_BYTES)
  {
    for i := 0 to |l.arrays|
      invariant forall k :: 0 <= k < i ==> Packs(ArrayWords(l.arrays[k]))
      invariant Front(header[..], l) && HoldsTables(header[..], l, i, 0)
      invariant Zero(header[..], ArrayAt(i), HEADER_BYTES)
    {
      ghost var before := header[..];
      var _ :- PackInto(header, ArrayAt(l.arrays[i].id), 8, ArrayWords(l.arrays[i]));
      TablesStay(before, header[..], l, i, 0, ArrayAt(i));
    }
    return Ok(());
  }

  method PackRegions(header: array<Octet>, l: Layout) returns (r: Result<()>)
    requires header.Length == HEADER_BYTES && Placed(l)
    requires forall i :: 0 <= i < |l.arrays| ==> Packs(ArrayWords(l.arrays[i]))
    requires Front(header[..], l) && HoldsTables(header[..], l, |l.arrays|, 0)
    requires Zero(header[..], ArrayAt(|l.arrays|), HEADER_BYTES)
    modifies header
    ensures r.Ok? <==> forall i :: 0 <= i < |l.regions| ==> AreWords(RegionWords(l.regions[i]))
    ensures r.Err? ==> r.error == StructError
    ensures r.Ok? ==> IsHeader(header[..], l)
  {
    for i := 0 to |l.regions|
      invariant forall k :: 0 <= k < i ==> AreWords(RegionWords(l.regions[k]))
      invariant Front(header[..], l) && HoldsTables(header[..], l, |l.arrays|, i)
      invariant Zero(header[..], ArrayAt(|l.arrays|), REGION_TABLE) && Zero(header[..], RegionAt(i), HEADER_BYTES)
    {
      ghost var before := header[..];
      var _ :- PackInto(header, RegionAt(l.regions[i].id), 8, RegionWords(l.regions[i]));
      TablesStay(before, header[..], l, |l.arrays|, i, RegionAt(i));
    }
    return Ok(());
  }

  lemma ShapePacks(e: Entry)
    ensures |ArrayWords(e)| == 8 <==> |e.shape| <= 3
  {
  }

  lemma EntriesPack(l: Layout)
    ensures (forall i :: 0 <= i < |l.arrays| ==> Packs(ArrayWords(l.arrays[i])))
       <==> (forall i :: 0 <= i < |l.arrays| ==> |l.arrays[i].shape| <= 3 && AreWords(ArrayWords(l.arrays[i])))
  {
    forall i | 0 <= i < |l.arrays|
      ensures Packs(ArrayWords(l.arrays[i])) <==> |l.arrays[i].shape| <= 3 && AreWords(ArrayWords(l.arrays[i]))
    {
      ShapePacks(l.arrays[i]);
    }
  }

  /** make_header: a field that does not fit its slot makes the packing of its row raise, and nothing else does. */
  method MakeHeader(l: Layout) returns (r: Result<seq<Octet>>)
    requires Placed(l)
    ensures r.Ok? <==> Expressible(l)
    ensures r.Ok? ==> IsHeader(r.value, l)
    ensures r.Err? ==> r.error == StructError
  {
    EntriesPack(l);
    var header := new Octet[HEADER_BYTES](_ => 0);
    var _ :- PackFront(header, l);
    var _ :- PackArrays(header, l);
    var _ :- PackRegions(header, l);
    return Ok(header[..]);
  }

  // ----- the layouts that build_layout returns ------------------------------------------------

  predicate SmallShapes(specs: seq<Spec>) {
    forall i :: 0 <= i < |specs| ==> |specs[i].shape| <= 3 && AreWords(specs[i].shape)
  }

  /** Offsets and sizes below the arena end always fit; only a shape can fail to be expressed. */
  lemma LayoutExpressible(specs: seq<Spec>, m: Manifest)
    requires Matches(specs, m) && Fits(specs)
    ensures Placed(LayoutOf(specs, m))
    ensures Expressible(LayoutOf(specs, m)) <==> SmallShapes(specs)
  {
    LayoutPlaced(specs, m);
    var l := LayoutOf(specs, m);
    if SmallShapes(specs) {
      forall i | 0 <= i < |l.arrays| ensures |l.arrays[i].shape| <= 3 && AreWords(ArrayWords(l.arrays[i])) {
        ArrayExpressible(specs, m, i);
      }
    }
    if Expressible(l) {
      forall i | 0 <= i < |specs| ensures |specs[i].shape| <= 3 && AreWords(specs[i].shape) {
        ArrayExpressible(specs, m, i);
        assert l.arrays[i] == EntryOf(specs, m, i);
      }
    }
  }

  lemma LayoutPlaced(specs: seq<Spec>, m: Manifest)
    requires Matches(specs, m) && Fits(specs)
    ensures Placed(LayoutOf(specs, m)) && IsWord(LayoutOf(specs, m).modelBytes)
    ensures forall i :: 0 <= i < |LayoutOf(specs, m).regions| ==> AreWords(RegionWords(LayoutOf(specs, m).regions[i]))
  {
    var regions := LayoutOf(specs, m).regions;
    assert |regions| == |Plan(ModelEnd(specs))| == 15;
    forall i | 0 <= i < |regions| ensures regions[i].id == i && AreWords(RegionWords(regions[i])) {
      RegionExpressible(ModelEnd(specs), i);
    }
  }

  lemma RegionExpressible(modelEnd: nat, i: nat)
    requires modelEnd + RESERVED < ARENA_BYTES && i < |Plan(modelEnd)|
    ensures Lay(Plan(modelEnd))[i].id == i && AreWords(RegionWords(Lay(Plan(modelEnd))[i]))
  {
    LayAt(Plan(modelEnd), i);
    PlanSpansArena(modelEnd);
    PlanPermissions(modelEnd, i);
  }

  lemma ArrayExpressible(specs: seq<Spec>, m: Manifest, i: nat)
    requires Matches(specs, m) && Fits(specs) && i < |specs|
    ensures AreWords(ArrayWords(EntryOf(specs, m, i))) <==> AreWords(specs[i].shape) && IsWord(|specs[i].shape|)
  {
    ArraysAscend(specs, i, |specs|);
    ShapeWords(EntryOf(specs, m, i));
  }

  lemma PlanPermissions(modelEnd: nat, i: nat)
    requires modelEnd + RESERVED < ARENA_BYTES && i < |Plan(modelEnd)|
    ensures Plan(modelEnd)[i].permissions <= 3
  {
    if 1 <= i <= 12 {
      GuardedAt(WRITABLE, (i - 1) / 2);
      assert Plan(modelEnd)[i] == Guarded(WRITABLE)[i - 1];
    }
  }

  lemma ShapeWords(e: Entry)
    requires IsWord(e.id) && IsWord(e.offset) && IsWord(e.bytes)
    ensures AreWords(ArrayWords(e)) <==> AreWords(e.shape) && IsWord(|e.shape|)
  {
    var w := ArrayWords(e);
    assert w[0] == e.id && w[1] == e.offset && w[2] == e.bytes && w[3] == e.dtype.TypeCode() && w[4] == |e.shape|;
    assert forall f :: 0 <= f < |e.shape| ==> w[5 + f] == e.shape[f];
    if AreWords(w) {
      forall f | 0 <= f < |e.shape| ensures IsWord(e.shape[f]) {
        assert IsWord(w[5 + f]);
      }
    }
  }

  lemma {:induction false} LayersSmall(layers: nat)
    ensures SmallShapes(LayersSpecs(layers))
  {
    if layers > 0 {
      LayersSmall(layers - 1);
      LayerSmall("h." + Decimal(layers - 1));
    }
  }

  lemma LayerSmall(h: string)
    ensures SmallShapes(LayerSpecs(h))
  {
    assert SmallShapes(LinearSpecs(h + ".attn.c_attn", 768, 2304));
    assert SmallShapes(LinearSpecs(h + ".attn.c_proj", 768, 768));
    assert SmallShapes(LinearSpecs(h + ".mlp.c_fc", 768, 3072));
    assert SmallShapes(LinearSpecs(h + ".mlp.c_proj", 3072, 768));
  }

  /** So the header of the accepted model can always be written. */
  lemma ModelShapesSmall(layers: nat)
    ensures SmallShapes(ArraySpecs(layers))
  {
    LayersSmall(layers);
    assert SmallShapes(LinearSpecs("lm_head", 768, 50257));
  }
}
