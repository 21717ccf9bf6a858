/**
 Writing the model image and checking it independently: the checker accepts an image exactly when it
 is the one the exporter writes. The hash is an arbitrary function.
 */
module ArenaImage {
  import opened Outcomes
  import opened ArenaLayout
  import opened ArenaHeader

  const CHUNK_BYTES := 1048576

  type Hash = seq<Octet> -> string

  datatype Pack = Pack(manifest: Manifest, arrays: map<string, seq<Octet>>)

  /** What the pack reader has checked: one array per manifest entry, of the size its descriptor says. */
  predicate Loaded(pack: Pack) {
    && pack.arrays.Keys == pack.manifest.arrays.Keys
    && forall name :: name in pack.arrays.Keys ==>
                        var source := pack.manifest.arrays[name];
                        |pack.arrays[name]| == Size(Spec(name, source.dtype, source.shape))
  }

  function Payloads(specs: seq<Spec>, pack: Pack): (r: seq<seq<Octet>>)
    requires Loaded(pack) && Matches(specs, pack.manifest)
    ensures |r| == |specs|
    ensures forall i :: 0 <= i < |specs| ==> |r[i]| == Size(specs[i])
  {
    seq(|specs|, i requires 0 <= i < |specs| => pack.arrays[specs[i].name])
  }

  /** The layout.json document: the layout, a digest for every array entry that records one, and the image hash. */
  datatype Document = Document(layout: Layout, payloadShas: seq<Option<string>>, modelSha: string)

  datatype Summary = Summary(arraysCompared: nat, payloadBytesCompared: nat, modelBytes: nat, mapped: nat,
                             unmapped: nat)

  // ----- the image -------------------------------------------------------------------------

  /** Where the padding before array i starts. */
  function GapStart(l: Layout, i: nat): nat
    requires i <= |l.arrays|
  {
    if i == 0 then HEADER_BYTES else l.arrays[i - 1].offset + l.arrays[i - 1].bytes
  }

  ghost predicate HoldsAt(image: seq<Octet>, at: nat, payload: seq<Octet>) {
    at + |payload| <= |image| && image[at..at + |payload|] == payload
  }

  /** Array i stands at its offset behind zero padding. */
  ghost predicate ArrayWritten(image: seq<Octet>, l: Layout, payloads: seq<seq<Octet>>, i: nat)
    requires i < |l.arrays| == |payloads|
  {
    Zero(image, GapStart(l, i), l.arrays[i].offset) && HoldsAt(image, l.arrays[i].offset, payloads[i])
  }

  /** Header, zero padding, payloads and zero tail: every byte of the image. */
  ghost predicate IsImage(image: seq<Octet>, l: Layout, payloads: seq<seq<Octet>>)
    requires |l.arrays| == |payloads|
  {
    && |image| == l.modelBytes && |image| >= HEADER_BYTES && IsHeader(image[..HEADER_BYTES], l)
    && (forall i :: 0 <= i < |payloads| ==> ArrayWritten(image, l, payloads, i))
    && Zero(image, GapStart(l, |l.arrays|), |image|)
  }

  predicate InPlace(l: Layout, payloads: seq<seq<Octet>>, i: nat)
    requires i < |l.arrays| == |payloads|
  {
    GapStart(l, i) <= l.arrays[i].offset && l.arrays[i].bytes == |payloads[i]|
  }

  /** The placement facts the image needs. */
  predicate Ascending(l: Layout, payloads: seq<seq<Octet>>) {
    && |l.arrays| == |payloads| && GapStart(l, |l.arrays|) <= l.modelBytes
    && forall i :: 0 <= i < |payloads| ==> InPlace(l, payloads, i)
  }

  lemma {:induction false} GapOrder(l: Layout, payloads: seq<seq<Octet>>, i: nat, j: nat)
    requires Ascending(l, payloads) && i <= j <= |payloads|
    ensures GapStart(l, i) <= GapStart(l, j)
    decreases j
  {
    if i < j {
      GapOrder(l, payloads, i, j - 1);
      assert InPlace(l, payloads, j - 1);
    }
  }

  lemma GapsGrow(l: Layout, payloads: seq<seq<Octet>>, i: nat, j: nat)
    requires Ascending(l, payloads) && i <= j <= |payloads|
    ensures HEADER_BYTES <= GapStart(l, i) <= GapStart(l, j) <= l.modelBytes
    ensures i < j ==> GapStart(l, i) <= l.arrays[i].offset
    ensures i < j ==> l.arrays[i].offset + |payloads[i]| == GapStart(l, i + 1) <= GapStart(l, j)
  {
    GapOrder(l, payloads, 0, i);
    GapOrder(l, payloads, i, j);
    GapOrder(l, payloads, j, |payloads|);
    if i < j {
      GapOrder(l, payloads, i + 1, j);
      assert InPlace(l, payloads, i);
    }
  }

  /** Two images of one layout with the same payloads are equal. */
  lemma ImageIsUnique(s: seq<Octet>, t: seq<Octet>, l: Layout, payloads: seq<seq<Octet>>)
    requires Ascending(l, payloads) && Placed(l) && Expressible(l) && IsImage(s, l, payloads) && IsImage(t, l, payloads)
    ensures s == t
  {
    HeaderIsUnique(s[..HEADER_BYTES], t[..HEADER_BYTES], l);
    forall j | 0 <= j < |s| ensures s[j] == t[j] {
      if j < HEADER_BYTES {
        assert s[j] == s[..HEADER_BYTES][j] && t[j] == t[..HEADER_BYTES][j];
      } else {
        ByteDetermined(s, t, l, payloads, j, |payloads|);
      }
    }
  }

  lemma {:induction false} ByteDetermined(s: seq<Octet>, t: seq<Octet>, l: Layout, payloads: seq<seq<Octet>>,
                                          j: nat, i: nat)
    requires Ascending(l, payloads) && IsImage(s, l, payloads) && IsImage(t, l, payloads)
    requires HEADER_BYTES <= j < |s| && i <= |payloads| && (i < |payloads| ==> j < GapStart(l, i))
    ensures s[j] == t[j]
    decreases i
  {
    if j < GapStart(l, i) && i > 0 {
      var k := i - 1;
      assert InPlace(l, payloads, k);
      assert ArrayWritten(s, l, payloads, k) && ArrayWritten(t, l, payloads, k);
      var at := l.arrays[k].offset;
      if j >= at {
        assert s[j] == s[at..at + |payloads[k]|][j - at] && t[j] == t[at..at + |payloads[k]|][j - at];
      } else if j < GapStart(l, k) {
        ByteDetermined(s, t, l, payloads, j, k);
      }
    }
  }

  // ----- export_model ------------------------------------------------------------------------

  /** Writes one array chunk by chunk and digests what it writes. */
  method WriteChunks(image: array<Octet>, at: nat, payload: seq<Octet>) returns (digested: seq<Octet>)
    requires at + |payload| <= image.Length
    modifies image
    ensures HoldsAt(image[..], at, payload) && digested == payload
    ensures forall j :: 0 <= j < image.Length && !(at <= j < at + |payload|) ==> image[j] == old(image[j])
  {
    digested := [];
    var start := 0;
    while start < |payload|
      invariant 0 <= start <= |payload| && digested == payload[..start]
      invariant image[at..at + start] == payload[..start]
      invariant forall j :: 0 <= j < image.Length && !(at <= j < at + start) ==> image[j] == old(image[j])
    {
      var end := if start + CHUNK_BYTES < |payload| then start + CHUNK_BYTES else |payload|;
      ghost var before := image[at..at + start];
      forall j | at + start <= j < at + end {
        image[j] := payload[j - at];
      }
      assert image[at..at + start] == before;
      assert image[at..at + end] == image[at..at + start] + payload[start..end];
      digested := digested + payload[start..end];
      start := end;
    }
  }

  /** Writing behind a place keeps everything in front of it. */
  lemma WrittenStays(s: seq<Octet>, t: seq<Octet>, l: Layout, payloads: seq<seq<Octet>>, i: nat, k: nat)
    requires Ascending(l, payloads) && i < k <= |payloads| && GapStart(l, k) <= |s| == |t| == l.modelBytes
    requires ArrayWritten(s, l, payloads, i) && forall j :: 0 <= j < GapStart(l, k) ==> s[j] == t[j]
    ensures ArrayWritten(t, l, payloads, i)
  {
    GapsGrow(l, payloads, i, k);
    var at := l.arrays[i].offset;
    assert s[at..at + |payloads[i]|] == t[at..at + |payloads[i]|];
  }

  lemma OneMoreWritten(s: seq<Octet>, t: seq<Octet>, l: Layout, payloads: seq<seq<Octet>>, i: nat)
    requires Ascending(l, payloads) && i < |payloads| && |s| == |t| == l.modelBytes
    requires forall k :: 0 <= k < i ==> ArrayWritten(s, l, payloads, k)
    requires Zero(s, GapStart(l, i), |s|) && HoldsAt(t, l.arrays[i].offset, payloads[i])
    requires forall j :: 0 <= j < |s| && !(l.arrays[i].offset <= j < l.arrays[i].offset + |payloads[i]|) ==>
               s[j] == t[j]
    ensures HEADER_BYTES <= |s| && s[..HEADER_BYTES] == t[..HEADER_BYTES]
    ensures forall k :: 0 <= k < i + 1 ==> ArrayWritten(t, l, payloads, k)
    ensures Zero(t, GapStart(l, i + 1), |t|)
  {
    GapsGrow(l, payloads, i, i + 1);
    forall k | 0 <= k < i ensures ArrayWritten(t, l, payloads, k) {
      WrittenStays(s, t, l, payloads, k, i);
    }
    assert ArrayWritten(t, l, payloads, i);
  }

  /** The zero-filled file with its header and arrays; the hash of every payload as it was written. */
  method WriteImage(l: Layout, payloads: seq<seq<Octet>>, header: seq<Octet>, sha: Hash)
    returns (image: seq<Octet>, shas: seq<Option<string>>)
    requires Ascending(l, payloads) && IsHeader(header, l)
    ensures IsImage(image, l, payloads)
    ensures |shas| == |payloads| && forall i :: 0 <= i < |shas| ==> shas[i] == Some(sha(payloads[i]))
  {
    GapsGrow(l, payloads, 0, 0);
    var file := new Octet[l.modelBytes](_ => 0);
    CopyInto(file, 0, header);
    shas := [];
    for i := 0 to |payloads|
      invariant |shas| == i && forall k :: 0 <= k < i ==> shas[k] == Some(sha(payloads[k]))
      invariant file[..HEADER_BYTES] == header
      invariant forall k :: 0 <= k < i ==> ArrayWritten(file[..], l, payloads, k)
      invariant Zero(file[..], GapStart(l, i), file.Length)
    {
      ghost var before := file[..];
      GapsGrow(l, payloads, i, i + 1);
      var digested := WriteChunks(file, l.arrays[i].offset, payloads[i]);
      shas := shas + [Some(sha(digested))];
      OneMoreWritten(before, file[..], l, payloads, i);
    }
    image := file[..];
    assert image[..HEADER_BYTES] == file[..HEADER_BYTES];
  }

  // ----- verify_export -----------------------------------------------------------------------

  ghost predicate ShasMatch(shas: seq<Option<string>>, payloads: seq<seq<Octet>>, sha: Hash) {
    |shas| == |payloads| && forall i :: 0 <= i < |shas| ==> shas[i] == Some(sha(payloads[i]))
  }

  /** When the checker accepts an image together with a document. */
  ghost predicate Accepts(specs: seq<Spec>, pack: Pack, document: Document, image: seq<Octet>, sha: Hash) {
    && Loaded(pack) && Matches(specs, pack.manifest) && Fits(specs) && SmallShapes(specs)
    && document.layout == LayoutOf(specs, pack.manifest)
    && sha(image) == document.modelSha
    && IsImage(image, document.layout, Payloads(specs, pack))
    && ShasMatch(document.payloadShas, Payloads(specs, pack), sha)
  }

  lemma LayoutAscends(specs: seq<Spec>, pack: Pack)
    requires Loaded(pack) && Matches(specs, pack.manifest) && Fits(specs)
    ensures Ascending(LayoutOf(specs, pack.manifest), Payloads(specs, pack))
  {
    var l, payloads := LayoutOf(specs, pack.manifest), Payloads(specs, pack);
    forall i | 0 <= i < |payloads| ensures InPlace(l, payloads, i) {
      PlacedBehind(specs, i);
      assert l.arrays[i] == EntryOf(specs, pack.manifest, i);
      assert i > 0 ==> l.arrays[i - 1] == EntryOf(specs, pack.manifest, i - 1);
    }
    PlacedBehind(specs, 247);
    assert l.arrays[247] == EntryOf(specs, pack.manifest, 247);
  }

  lemma PlacedBehind(specs: seq<Spec>, i: nat)
    requires i < |specs|
    ensures HEADER_BYTES <= Offset(specs, i)
    ensures Offset(specs, i) + Size(specs[i]) == End(specs, i + 1) <= ModelEnd(specs)
    ensures i > 0 ==> Offset(specs, i - 1) + Size(specs[i - 1]) <= Offset(specs, i)
  {
    ArraysAscend(specs, i, |specs|);
    CursorGrows(specs, i + 1, |specs|);
    if i > 0 {
      ArraysAscend(specs, i - 1, i);
    }
  }

  /** any(model[from:to]) with the slice semantics of the source: an inverted range is empty. */
  method AllZero(image: seq<Octet>, from: nat, to: nat) returns (zero: bool)
    requires to <= |image|
    ensures zero <==> Zero(image, from, to)
  {
    var j := from;
    while j < to
      invariant from <= j && forall k :: from <= k < j && k < to ==> image[k] == 0
    {
      if image[j] != 0 {
        return false;
      }
      j := j + 1;
    }
    return true;
  }

  lemma SliceOfSlice(s: seq<Octet>, at: nat, length: nat, start: nat, end: nat)
    requires at + length <= |s| && start <= end <= length
    ensures s[at..at + length][start..end] == s[at + start..at + end]
  {
    var a, b := s[at..at + length][start..end], s[at + start..at + end];
    assert forall k :: 0 <= k < |a| ==> a[k] == b[k];
  }

  /** Compares one array chunk by chunk and digests what the image holds. */
  method CompareChunks(image: seq<Octet>, at: nat, payload: seq<Octet>) returns (same: bool, digested: seq<Octet>)
    requires at + |payload| <= |image|
    ensures same <==> HoldsAt(image, at, payload)
    ensures same ==> digested == payload
  {
    digested := [];
    var start := 0;
    while start < |payload|
      invariant 0 <= start <= |payload| && digested == payload[..start] == image[at..at + start]
    {
      var end := if start + CHUNK_BYTES < |payload| then start + CHUNK_BYTES else |payload|;
      var actual := image[at + start..at + end];
      if actual != payload[start..end] {
        SliceOfSlice(image, at, |payload|, start, end);
        return false, [];
      }
      assert image[at..at + end] == image[at..at + start] + actual;
      assert payload[..end] == payload[..start] + payload[start..end];
      digested := digested + actual;
      start := end;
    }
    assert payload[..start] == payload;
    return true, digested;
  }

  /** The comparison loop over the arrays, with the padding in front of each and the zero tail. */
  method CompareArrays(l: Layout, payloads: seq<seq<Octet>>, shas: seq<Option<string>>, image: seq<Octet>, sha: Hash)
    returns (r: Result<nat>)
    requires Ascending(l, payloads) && |image| == l.modelBytes && |shas| == |payloads|
    ensures r.Ok? <==> && (forall i :: 0 <= i < |payloads| ==> ArrayWritten(image, l, payloads, i))
                       && Zero(image, GapStart(l, |payloads|), |image|) && ShasMatch(shas, payloads, sha)
    ensures r.Ok? ==> r.value == Lengths(payloads, |payloads|)
  {
    var cursor, compared := HEADER_BYTES, 0;
    for i := 0 to |payloads|
      invariant cursor == GapStart(l, i) && compared == Lengths(payloads, i)
      invariant forall k :: 0 <= k < i ==> ArrayWritten(image, l, payloads, k) && shas[k] == Some(sha(payloads[k]))
    {
      GapsGrow(l, payloads, i, i + 1);
      var zero := AllZero(image, cursor, l.arrays[i].offset);
      if !zero {
        assert !ArrayWritten(image, l, payloads, i);
        return Err(ValueError);
      }
      cursor := l.arrays[i].offset;
      var same, digested := CompareChunks(image, cursor, payloads[i]);
      if !same {
        assert !ArrayWritten(image, l, payloads, i);
        return Err(ValueError);
      }
      cursor, compared := cursor + |payloads[i]|, compared + |payloads[i]|;
      if shas[i].None? {
        return Err(KeyError);
      }
      if sha(digested) != shas[i].value {
        return Err(ValueError);
      }
    }
    var tail := AllZero(image, cursor, |image|);
    if !tail {
      return Err(ValueError);
    }
    return Ok(compared);
  }

  function Lengths(payloads: seq<seq<Octet>>, i: nat): nat
    requires i <= |payloads|
  {
    if i == 0 then 0 else Lengths(payloads, i - 1) + |payloads[i - 1]|
  }

  lemma {:induction false} LengthsArePayload(specs: seq<Spec>, pack: Pack, i: nat)
    requires Loaded(pack) && Matches(specs, pack.manifest) && i <= |specs|
    ensures Lengths(Payloads(specs, pack), i) == Payload(specs, i)
  {
    if i > 0 {
      LengthsArePayload(specs, pack, i - 1);
    }
  }

  /** verify_export: accepts exactly as Accepts says, and then every payload byte has been compared. */
  method VerifyExport(specs: seq<Spec>, loaded: Result<Pack>, document: Document, image: seq<Octet>, sha: Hash)
    returns (r: Result<Summary>)
    requires loaded.Ok? ==> Loaded(loaded.value)
    requires |document.payloadShas| == |document.layout.arrays|
    ensures r.Ok? <==> loaded.Ok? && Accepts(specs, loaded.value, document, image, sha)
    ensures r.Ok? ==> r.value == Summary(248, document.layout.payloadBytes, |image|, document.layout.mapped,
                                         document.layout.unmapped)
  {
    var pack :- loaded;
    var expected :- BuildLayout(specs, pack.manifest);
    if document.layout != expected || |image| != document.layout.modelBytes || sha(image) != document.modelSha {
      return Err(ValueError);
    }
    LayoutExpressible(specs, pack.manifest);
    var header :- MakeHeader(expected);
    LayoutAscends(specs, pack);
    var payloads := Payloads(specs, pack);
    GapsGrow(expected, payloads, 0, 0);
    if image[..HEADER_BYTES] != header {
      HeaderDiffers(image[..HEADER_BYTES], header, expected);
      return Err(ValueError);
    }
    var compared :- CompareArrays(expected, payloads, document.payloadShas, image, sha);
    LengthsArePayload(specs, pack, |specs|);
    return Ok(Summary(|document.layout.arrays|, compared, document.layout.modelBytes, document.layout.mapped,
                      document.layout.unmapped));
  }

  lemma HeaderDiffers(g: seq<Octet>, h: seq<Octet>, l: Layout)
    requires Placed(l) && Expressible(l) && IsHeader(h, l) && g != h
    ensures !IsHeader(g, l)
  {
    if IsHeader(g, l) {
      HeaderIsUnique(g, h, l);
      assert false;
    }
  }

  /** What export_model records. */
  function DocumentOf(l: Layout, shas: seq<Option<string>>, image: seq<Octet>, sha: Hash): Document {
    Document(l, shas, sha(image))
  }

  /**
   With the document the exporter wrote, the checker accepts an image exactly when every byte equals
   the exported one. Nothing is asked of the hash.
   */
  lemma AcceptsOnlyTheExport(specs: seq<Spec>, pack: Pack, shas: seq<Option<string>>, image: seq<Octet>,
                             other: seq<Octet>, sha: Hash)
    requires Loaded(pack) && Matches(specs, pack.manifest) && Fits(specs) && SmallShapes(specs)
    requires IsImage(image, LayoutOf(specs, pack.manifest), Payloads(specs, pack))
    requires ShasMatch(shas, Payloads(specs, pack), sha)
    ensures Accepts(specs, pack, DocumentOf(LayoutOf(specs, pack.manifest), shas, image, sha), other, sha)
       <==> other == image
  {
    var l, payloads := LayoutOf(specs, pack.manifest), Payloads(specs, pack);
    LayoutExpressible(specs, pack.manifest);
    LayoutAscends(specs, pack);
    if IsImage(other, l, payloads) {
      ImageIsUnique(other, image, l, payloads);
    }
  }

  /** export_model: refuses an existing directory, and whatever it writes passes its own check. */
  method ExportModel(specs: seq<Spec>, loaded: Result<Pack>, present: bool, sha: Hash)
    returns (r: Result<(Document, seq<Octet>, Summary)>)
    requires loaded.Ok? ==> Loaded(loaded.value)
    ensures r.Ok?
       <==> !present && loaded.Ok? && Matches(specs, loaded.value.manifest) && Fits(specs) && SmallShapes(specs)
    ensures r.Ok? ==> Accepts(specs, loaded.value, r.value.0, r.value.1, sha)
  {
    if present {
      return Err(ValueError);
    }
    var pack :- loaded;
    var layout :- BuildLayout(specs, pack.manifest);
    LayoutExpressible(specs, pack.manifest);
    var header :- MakeHeader(layout);
    LayoutAscends(specs, pack);
    var image, shas := WriteImage(layout, Payloads(specs, pack), header, sha);
    var document := DocumentOf(layout, shas, image, sha);
    AcceptsOnlyTheExport(specs, pack, shas, image, image, sha);
    var verified := VerifyExport(specs, loaded, document, image, sha);
    return Ok((document, image, verified.value));
  }
}
