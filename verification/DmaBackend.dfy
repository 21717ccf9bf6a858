/**
 The single-owner DMA backend.  The accelerator is any function of the request, and every register
 read may return anything; the properties below hold for all of them.
 */
module DmaBackend {
  import opened Outcomes
  import opened Rounding
  import opened FixedWidth
  import opened Matrices
  import opened WeightTiles
  import opened GemmPackets
  import opened DmaTraces
  import opened Int8Bridge
  import SfpuPackets
  import SfpuReference

  /** serial number, route, parameters and input words to delivered words */
  type Engine = (nat, nat, seq<int>, seq<int>) -> seq<int>

  /** The wide GEMM reply: sixteen int32 lanes a row, zero beyond the active width. */
  function GemmReply(a: Matrix, tile: Matrix, m: nat, width: nat, k: nat): (words: seq<int>)
    requires IsMatrix(a, m, k) && IsMatrix(tile, k, 16)
    ensures |words| == m * 16
  {
    seq(m * 16, i requires 0 <= i < m * 16 =>
      if i % 16 < width then AsU32(Dot(a, tile, i / 16, i % 16, k)) else 0)
  }

  ghost predicate RepliesProduct(engine: Engine, serial: nat, a: Matrix, tile: Matrix, m: nat, width: nat, k: nat) {
    1 <= m <= 16 && 1 <= width <= 16 && 1 <= k <= 3072 && IsInt8Matrix(a, m, k) && IsInt8Matrix(tile, k, 16) ==>
      engine(serial, 0, [m, width, k, WIDE_RESULT], WordsOf(PacketBytes(a, tile, m, k)))
      == GemmReply(a, tile, m, width, k)
  }

  /** The engine meets the GEMM packet contract. */
  ghost predicate MeetsGemm(engine: Engine) {
    forall serial, a, tile, m, width, k :: RepliesProduct(engine, serial, a, tile, m, width, k)
  }

  ghost predicate RepliesReference(engine: Engine, t: SfpuReference.Tables, serial: nat,
                                   d: SfpuPackets.Descriptor, planes: seq<SfpuPackets.Plane>) {
    var packet := SfpuPackets.EvaluateAndPack(t, d, planes);
    packet.Ok? ==> engine(serial, 1, [d.op, d.length, d.shift, d.multiplier], packet.value.0) == packet.value.1
  }

  /** words is the input packet the reference builds from the planes. */
  ghost predicate IsPacketOf(t: SfpuReference.Tables, d: SfpuPackets.Descriptor, planes: seq<SfpuPackets.Plane>,
                             words: seq<int>) {
    SfpuPackets.EvaluateAndPack(t, d, planes).Ok? && SfpuPackets.EvaluateAndPack(t, d, planes).value.0 == words
  }

  /** The engine meets the SFPU packet contract. */
  ghost predicate MeetsSfpu(engine: Engine, t: SfpuReference.Tables) {
    forall serial, d, planes :: RepliesReference(engine, t, serial, d, planes)
  }

  // ----- the contracts can be met --------------------------------------------------------

  /** These operands make up this GEMM request. */
  ghost predicate IsGemmRequest(a: Matrix, tile: Matrix, m: nat, width: nat, k: nat, parameters: seq<int>,
                                words: seq<int>) {
    && 1 <= m <= 16 && 1 <= width <= 16 && 1 <= k <= 3072 && IsInt8Matrix(a, m, k) && IsInt8Matrix(tile, k, 16)
    && parameters == [m, width, k, WIDE_RESULT] && words == WordsOf(PacketBytes(a, tile, m, k))
  }

  ghost predicate IsSfpuRequest(t: SfpuReference.Tables, d: SfpuPackets.Descriptor, planes: seq<SfpuPackets.Plane>,
                                parameters: seq<int>, words: seq<int>) {
    IsPacketOf(t, d, planes, words) && parameters == [d.op, d.length, d.shift, d.multiplier]
  }

  /** Reads the operands off the request and answers with the reference result. */
  ghost function ReferenceReply(t: SfpuReference.Tables, route: nat, parameters: seq<int>, words: seq<int>): seq<int> {
    if route == 0 && exists a, tile, m: nat, width: nat, k: nat ::
                       IsGemmRequest(a, tile, m, width, k, parameters, words) then
      var a, tile, m: nat, width: nat, k: nat :| IsGemmRequest(a, tile, m, width, k, parameters, words);
      GemmReply(a, tile, m, width, k)
    else if route == 1 && exists d, planes :: IsSfpuRequest(t, d, planes, parameters, words) then
      var d, planes :| IsSfpuRequest(t, d, planes, parameters, words);
      SfpuPackets.EvaluateAndPack(t, d, planes).value.1
    else []
  }

  ghost function ReferenceEngine(t: SfpuReference.Tables): Engine {
    (serial: nat, route: nat, parameters: seq<int>, words: seq<int>) => ReferenceReply(t, route, parameters, words)
  }

  /** Both packet contracts can be met by one engine: a request determines its operands. */
  lemma ContractsAreMeetable(t: SfpuReference.Tables)
    ensures MeetsGemm(ReferenceEngine(t)) && MeetsSfpu(ReferenceEngine(t), t)
  {
    var engine := ReferenceEngine(t);
    forall serial: nat, a, tile, m: nat, width: nat, k: nat
      ensures RepliesProduct(engine, serial, a, tile, m, width, k)
    {
      if 1 <= m <= 16 && 1 <= width <= 16 && 1 <= k <= 3072 && IsInt8Matrix(a, m, k) && IsInt8Matrix(tile, k, 16) {
        GemmRequestAnswered(t, a, tile, m, width, k, [m, width, k, WIDE_RESULT], WordsOf(PacketBytes(a, tile, m, k)));
      }
    }
    forall serial: nat, d, planes
      ensures RepliesReference(engine, t, serial, d, planes)
    {
      var packet := SfpuPackets.EvaluateAndPack(t, d, planes);
      if packet.Ok? {
        SfpuRequestAnswered(t, d, planes, [d.op, d.length, d.shift, d.multiplier], packet.value.0);
      }
    }
  }

  lemma GemmRequestAnswered(t: SfpuReference.Tables, a: Matrix, tile: Matrix, m: nat, width: nat, k: nat,
                            parameters: seq<int>, words: seq<int>)
    requires IsGemmRequest(a, tile, m, width, k, parameters, words)
    ensures ReferenceReply(t, 0, parameters, words) == GemmReply(a, tile, m, width, k)
  {
    forall b, other, m': nat, width': nat, k': nat | IsGemmRequest(b, other, m', width', k', parameters, words)
      ensures GemmReply(b, other, m', width', k') == GemmReply(a, tile, m, width, k)
    {
      assert parameters[0] == m == m' && parameters[1] == width == width' && parameters[2] == k == k';
      TileStreamDetermines(a, tile, b, other, m, k);
    }
  }

  lemma SfpuRequestAnswered(t: SfpuReference.Tables, d: SfpuPackets.Descriptor, planes: seq<SfpuPackets.Plane>,
                            parameters: seq<int>, words: seq<int>)
    requires IsSfpuRequest(t, d, planes, parameters, words)
    ensures ReferenceReply(t, 1, parameters, words) == SfpuPackets.EvaluateAndPack(t, d, planes).value.1
  {
    forall other, p | IsSfpuRequest(t, other, p, parameters, words)
      ensures SfpuPackets.EvaluateAndPack(t, other, p).value.1 == SfpuPackets.EvaluateAndPack(t, d, planes).value.1
    {
      SameRequest(t, d, planes, other, p, parameters, words);
    }
  }

  /** Two requests with the same parameters and words differ at most in the tag. */
  lemma SameRequest(t: SfpuReference.Tables, d: SfpuPackets.Descriptor, planes: seq<SfpuPackets.Plane>,
                    e: SfpuPackets.Descriptor, other: seq<SfpuPackets.Plane>, parameters: seq<int>, words: seq<int>)
    requires IsSfpuRequest(t, d, planes, parameters, words) && IsSfpuRequest(t, e, other, parameters, words)
    ensures planes == other && SfpuPackets.Evaluate(t, d, planes) == SfpuPackets.Evaluate(t, e, other)
  {
    assert parameters[0] == d.op == e.op && parameters[1] == d.length == e.length;
    assert parameters[2] == d.shift == e.shift && parameters[3] == d.multiplier == e.multiplier;
    SfpuPackets.PacketRoundTrip(t, d, planes);
    SfpuPackets.PacketRoundTrip(t, e, other);
    assert SfpuPackets.UnpackPlanes(d, SignedWords(words)) == SfpuPackets.UnpackPlanes(e, SignedWords(words));
  }

  /** Byte `lane` of a word, as the signed byte the byte view shows. */
  function WordByte(word: int, lane: nat): int {
    var v := AsU32(word);
    var b := (if lane == 0 then v else if lane == 1 then v / 0x100 else if lane == 2 then v / 0x100 / 0x100
              else v / 0x100 / 0x100 / 0x100) % 0x100;
    if b < 0x80 then b else b - 0x100
  }

  lemma WordBytesRoundTrip(word: int)
    ensures Word(WordByte(word, 0), WordByte(word, 1), WordByte(word, 2), WordByte(word, 3)) == AsU32(word)
  {
    var v := AsU32(word);
    var q1 := v / 0x100;
    var q2 := q1 / 0x100;
    var q3 := q2 / 0x100;
    assert v == 0x100 * q1 + v % 0x100 && q1 == 0x100 * q2 + q1 % 0x100 && q2 == 0x100 * q3 + q2 % 0x100;
    assert 0 <= q3 < 0x100;
    ByteOfSigned(v % 0x100);
    ByteOfSigned(q1 % 0x100);
    ByteOfSigned(q2 % 0x100);
    ByteOfSigned(q3 % 0x100);
  }

  lemma ByteOfSigned(b: int)
    requires 0 <= b < 0x100
    ensures Byte(if b < 0x80 then b else b - 0x100) == b
  {
  }

  /** The byte view of words assigned to the front of a buffer. */
  method WriteWords(target: array<int>, words: seq<int>)
    requires 4 * |words| <= target.Length
    modifies target
    ensures WordsOf(target[..4 * |words|]) == UnsignedWords(words)
    ensures target[4 * |words|..] == old(target[4 * |words|..])
  {
    forall i | 0 <= i < 4 * |words| {
      target[i] := WordByte(words[i / 4], i % 4);
    }
    ViewedWords(target[..4 * |words|], words);
  }

  lemma ViewedWords(bytes: seq<int>, words: seq<int>)
    requires |bytes| == 4 * |words|
    requires forall i :: 0 <= i < |bytes| ==> bytes[i] == WordByte(words[i / 4], i % 4)
    ensures WordsOf(bytes) == UnsignedWords(words)
  {
    forall i | 0 <= i < |words|
      ensures WordAt(bytes, i) == AsU32(words[i])
    {
      ViewedWord(bytes, words, i);
    }
  }

  lemma ViewedWord(bytes: seq<int>, words: seq<int>, i: nat)
    requires |bytes| == 4 * |words| && i < |words|
    requires forall j :: 0 <= j < |bytes| ==> bytes[j] == WordByte(words[j / 4], j % 4)
    ensures WordAt(bytes, i) == AsU32(words[i])
  {
    assert (4 * i) / 4 == i && (4 * i + 1) / 4 == i && (4 * i + 2) / 4 == i && (4 * i + 3) / 4 == i;
    WordBytesRoundTrip(words[i]);
  }

  datatype Counts = Counts(inputBytes: nat, outputBytes: nat, packets: seq<nat>, macs: nat)

  function Accounted(c: Counts, wanted: nat, ni: nat, no: nat): Counts
    requires wanted < |c.packets|
  {
    c.(inputBytes := c.inputBytes + 4 * ni, outputBytes := c.outputBytes + 4 * no,
       packets := c.packets[wanted := c.packets[wanted] + 1])
  }

  /** The reply to a request with these packet bytes, read as int32. */
  function EngineReply(engine: Engine, serial: nat, wanted: nat, parameters: seq<int>, packet: seq<int>): seq<int> {
    SignedWords(engine(serial, wanted, parameters, WordsOf(packet)))
  }

  /** What the device stores in the front of the receive buffer. */
  method ReceiveWords(rx: array<int>, words: seq<int>)
    requires |words| <= rx.Length
    modifies rx
    ensures rx[..|words|] == words
  {
    forall i | 0 <= i < |words| {
      rx[i] := words[i];
    }
  }

  /** After the history the first new event is the announced write of the transfer buffer. */
  ghost predicate WritesFirst(before: seq<Event>, after: seq<Event>) {
    |before| < |after| && before <= after && after[|before|].WriteTx?
  }

  /** The events of a route change, if one is needed. */
  ghost function RouteEvents(route: int, wanted: nat): seq<Event> {
    if route == wanted then [] else [NotBusy, Routed(wanted)]
  }

  /** The events of a request up to the end of its transfers. */
  ghost function Opening(wanted: nat, parameters: seq<int>, tag: int, ni: nat, no: nat): seq<Event> {
    [Start(wanted, parameters, tag), Accepted(wanted)]
    + [Submit(Recv, no), Submit(Send, ni), Idle(Send), Idle(Recv)]
  }

  /** The events of one successful request, from the descriptor to the completion registers. */
  ghost function Exchange(wanted: nat, parameters: seq<int>, tag: int, ni: nat, no: nat, count: int): seq<Event> {
    Opening(wanted, parameters, tag, ni, no) + [Transferred(4 * ni, 4 * no), Completed(wanted, false, tag, count)]
  }

  function PacketWords(m: nat, k: nat): nat {
    m * ((k + 3) / 4) + k * 4
  }

  /** The reply to the request for one tile, read as int32. */
  function TileWords(engine: Engine, serial: nat, a: Matrix, tile: Matrix, m: nat, width: nat, k: nat): seq<int>
    requires IsMatrix(a, m, k) && IsMatrix(tile, k, 16)
  {
    EngineReply(engine, serial, 0, [m, width, k, WIDE_RESULT], PacketBytes(a, tile, m, k))
  }

  /** The events of one successful tile: its packet in the buffer, then the exchange. */
  ghost function TileEvents(contents: seq<int>, route: int, m: nat, width: nat, k: nat, tag: int, count: int)
    : seq<Event>
  {
    [WriteTx(contents)] + RouteEvents(route, 0)
    + Exchange(0, [m, width, k, WIDE_RESULT], tag, PacketWords(m, k), m * 16, count)
  }

  /** Operands that one GEMM packet can carry. */
  predicate FitsPacket(m: nat, k: nat) {
    1 <= m <= 16 && 1 <= k <= 3072
  }

  /** Operands that gemm accepts. */
  predicate LegalGemm(m: nat, k: nat, tiles: seq<Matrix>, n: int) {
    FitsPacket(m, k) && 1 <= n <= 50257 && |tiles| == TileCount(n) && AreTiles(tiles, k)
  }

  predicate LegalSfpu(d: SfpuPackets.Descriptor, words: seq<int>) {
    d.Valid() && |words| == d.Planes() * d.length
  }

  lemma PacketFits(a: Matrix, tile: Matrix, m: nat, k: nat)
    requires FitsPacket(m, k) && IsInt8Matrix(a, m, k) && IsInt8Matrix(tile, k, 16)
    ensures |PacketBytes(a, tile, m, k)| == 4 * PacketWords(m, k) <= 98304
  {
    PacketWordCount(m, k);
    MulOrder(16, m, (k + 3) / 4);
  }

  /** A conforming engine's reply to the request for a tile, read back, is the product with the tile. */
  lemma TileReply(engine: Engine, serial: nat, a: Matrix, tile: Matrix, m: nat, k: nat, width: nat)
    requires FitsPacket(m, k) && 1 <= width <= 16 && IsInt8Matrix(a, m, k) && IsInt8Matrix(tile, k, 16)
    ensures MeetsGemm(engine) ==>
              var words := TileWords(engine, serial, a, tile, m, width, k);
              && |words| == m * 16
              && (forall row, c :: 0 <= row < m && 0 <= c < width ==>
                    Reshape(words, m)[row][c] == Dot(a, tile, row, c, k))
              && (forall row, c :: 0 <= row < m && width <= c < 16 ==> Reshape(words, m)[row][c] == 0)
  {
    if MeetsGemm(engine) {
      assert RepliesProduct(engine, serial, a, tile, m, width, k);
      ReplyRead(a, tile, m, width, k);
      PaddingRead(a, tile, m, width, k);
    }
  }

  /** The active columns of tile t. */
  function TileWidth(n: nat, t: nat): (width: nat)
    requires t < TileCount(n)
    ensures 1 <= width <= 16 && t * 16 + width <= n
  {
    Min(16, n - t * 16)
  }

  /** The tile holds the engine's reply to the request with this serial number. */
  ghost predicate IsReply(engine: Engine, serial: nat, a: Matrix, tile: Matrix, m: nat, width: nat, k: nat,
                          delivered: Matrix)
    requires IsMatrix(a, m, k) && IsMatrix(tile, k, 16)
  {
    var words := TileWords(engine, serial, a, tile, m, width, k);
    |words| == m * 16 && delivered == Reshape(words, m)
  }

  /** The replies to the first requests of a call, one a tile and in the order of the tiles. */
  ghost predicate AreReplies(engine: Engine, first: nat, a: Matrix, tiles: seq<Matrix>, m: nat, k: nat, n: nat,
                             replies: seq<Matrix>)
    requires IsMatrix(a, m, k) && AreTiles(tiles, k) && |tiles| == TileCount(n)
  {
    && |replies| <= |tiles|
    && forall t :: 0 <= t < |replies| ==> IsReply(engine, first + t, a, tiles[t], m, TileWidth(n, t), k, replies[t])
  }

  lemma RepliesGrow(engine: Engine, first: nat, a: Matrix, tiles: seq<Matrix>, m: nat, k: nat, n: nat,
                    replies: seq<Matrix>, next: Matrix)
    requires IsMatrix(a, m, k) && AreTiles(tiles, k) && |replies| < |tiles| == TileCount(n)
    requires AreReplies(engine, first, a, tiles, m, k, n, replies)
    requires IsReply(engine, first + |replies|, a, tiles[|replies|], m, TileWidth(n, |replies|), k, next)
    ensures AreReplies(engine, first, a, tiles, m, k, n, replies + [next])
  {
  }

  /** Below column `end`, column g of the result is column g % 16 of reply g / 16. */
  ghost predicate IsGathered(result: Matrix, replies: seq<Matrix>, m: nat, n: nat, end: nat)
    requires IsMatrix(result, m, n)
  {
    forall row, g :: 0 <= row < m && 0 <= g < n && g < end ==> IsGatheredAt(result[row][g], replies, m, row, g)
  }

  ghost predicate IsGatheredAt(value: int, replies: seq<Matrix>, m: nat, row: nat, g: nat)
    requires row < m
  {
    g / 16 < |replies| && IsMatrix(replies[g / 16], m, 16) && value == replies[g / 16][row][g % 16]
  }

  /** One more reply, written into its columns. */
  lemma GatheredGrows(before: Matrix, after: Matrix, replies: seq<Matrix>, next: Matrix, m: nat, n: nat)
    requires IsMatrix(before, m, n) && IsMatrix(after, m, n) && IsMatrix(next, m, 16) && |replies| < TileCount(n)
    requires IsGathered(before, replies, m, n, |replies| * 16)
    requires forall row, g :: 0 <= row < m && 0 <= g < |replies| * 16 ==> after[row][g] == before[row][g]
    requires forall row, g :: 0 <= row < m && |replies| * 16 <= g < |replies| * 16 + TileWidth(n, |replies|) ==>
               after[row][g] == next[row][g % 16]
    ensures IsGathered(after, replies + [next], m, n, |replies| * 16 + 16)
  {
    forall row, g | 0 <= row < m && 0 <= g < n && g < |replies| * 16 + 16
      ensures IsGatheredAt(after[row][g], replies + [next], m, row, g)
    {
      if g < |replies| * 16 {
        assert IsGatheredAt(before[row][g], replies, m, row, g);
      } else {
        assert g / 16 == |replies|;
      }
    }
  }

  /** The result is gathered from the replies to consecutive requests, one a tile. */
  ghost predicate AnswersGemm(engine: Engine, first: nat, a: Matrix, tiles: seq<Matrix>, m: nat, k: nat, n: nat,
                              result: Matrix)
    requires IsMatrix(a, m, k) && AreTiles(tiles, k) && |tiles| == TileCount(n) && IsMatrix(result, m, n)
  {
    exists replies :: |replies| == |tiles| && AreReplies(engine, first, a, tiles, m, k, n, replies)
                      && IsGathered(result, replies, m, n, n)
  }

  /** On a conforming engine the gathered replies are the product with the untiled matrix. */
  lemma RepliesAreProduct(engine: Engine, first: nat, a: Matrix, tiles: seq<Matrix>, m: nat, k: nat, n: nat,
                          result: Matrix, replies: seq<Matrix>)
    requires FitsPacket(m, k) && IsInt8Matrix(a, m, k) && AreTiles(tiles, k)
    requires |replies| == |tiles| == TileCount(n) && AreReplies(engine, first, a, tiles, m, k, n, replies)
    requires IsMatrix(result, m, n) && IsGathered(result, replies, m, n, n)
    ensures AnswersGemm(engine, first, a, tiles, m, k, n, result)
    ensures MeetsGemm(engine) ==>
              forall b :: IsMatrix(b, k, n) && IsTiling(tiles, b, k, n) ==> IsProduct(result, a, b, m, k, n)
  {
    if MeetsGemm(engine) {
      forall row, g | 0 <= row < m && 0 <= g < n
        ensures result[row][g] == TileDot(a, tiles, row, g, k)
      {
        var t := g / 16;
        assert IsGatheredAt(result[row][g], replies, m, row, g);
        assert IsReply(engine, first + t, a, tiles[t], m, TileWidth(n, t), k, replies[t]);
        TileReply(engine, first + t, a, tiles[t], m, k, TileWidth(n, t));
      }
      ColumnsAreProduct(a, tiles, result, m, k, n);
    }
  }

  lemma TileEventsJoin(before: seq<Event>, contents: seq<int>, route: int, m: nat, width: nat, k: nat, tag: int,
                       count: int)
    ensures before + [WriteTx(contents)] + RouteEvents(route, 0)
            + Exchange(0, [m, width, k, WIDE_RESULT], tag, PacketWords(m, k), m * 16, count)
         == before + TileEvents(contents, route, m, width, k, tag, count)
  {
  }

  class FpgaBackend {
    const engine: Engine
    const timeout: nat          // polls before a deadline passes
    const tx: array<int>        // 98304 bytes
    const rx: array<int>        // 3072 words
    var failed: bool
    var closed: bool
    var tag: int
    var route: int
    var serial: nat             // requests made so far
    var completed: seq<int>
    var counts: Counts
    ghost const start: seq<int> // the bytes of the fresh transfer buffer
    ghost var trace: seq<Event>

    /** The flags are read off a safe history. */
    ghost predicate Core()
      reads this
    {
      && tx.Length == 98304 && rx.Length == 3072 && tx != rx
      && |completed| == 2 && |counts.packets| == 2
      && Safe(trace)
      && failed == After(trace).failed && closed == After(trace).freed
    }

    /** What holds at every point, also while a transfer is in progress: the buffer is read off the history too. */
    ghost predicate Shape()
      reads this, tx
    {
      Core() && tx[..] == After(trace).Buffer(start)
    }

    /**
     What holds between calls.  Unless the backend is marked failed, no transfer can be active; a
     closed backend has released its buffers and is quiet whatever its flags say.
     */
    ghost predicate Valid()
      reads this, tx
    {
      Shape() && (closed || !failed ==> After(trace).Quiet())
    }

    constructor (engine: Engine, timeout: nat)
      ensures Valid() && fresh(tx) && fresh(rx) && !failed && !closed && trace == []
      ensures this.engine == engine
    {
      var buffer := new int[98304];
      this.engine, this.timeout := engine, timeout;
      tx, rx := buffer, new int[3072];
      failed, closed, tag, serial := false, false, 0, 0;
      route := *;
      completed := [0, 0];
      counts := Counts(0, 0, [0, 0], 0);
      start, trace := buffer[..], [];
    }

    // ----- the history -------------------------------------------------------------------

    /** Records what the driver itself does; what it reads is recorded where it is read. */
    ghost method Log(e: Event)
      requires Shape() && Allowed(trace, e) && (e.Start? || e.ClearEngine? || e == Retain)
      modifies this`trace
      ensures Shape() && trace == old(trace) + [e]
      ensures After(trace) == old(After(trace)).Next(e)
    {
      SafeStep(trace, e);
      StateStep(trace, e);
      trace := trace + [e];
    }

    /** The buffer has just been overwritten, which only a usable one may be. */
    ghost method LogWrite()
      requires Core() && After(trace).Usable()
      modifies this`trace
      ensures Shape() && trace == old(trace) + [WriteTx(tx[..])]
      ensures After(trace) == old(After(trace)).(written := Some(tx[..]))
    {
      SafeStep(trace, WriteTx(tx[..]));
      StateStep(trace, WriteTx(tx[..]));
      trace := trace + [WriteTx(tx[..])];
    }

    /** Sets or clears the failed flag. */
    method Mark(value: bool)
      requires Shape() && (value || Allowed(trace, Ready))
      modifies this`failed, this`trace
      ensures Shape() && failed == value && trace == old(trace) + [if value then Fail else Ready]
      ensures After(trace) == old(After(trace)).(failed := value)
    {
      ghost var e := if value then Fail else Ready;
      SafeStep(trace, e);
      StateStep(trace, e);
      failed := value;
      trace := trace + [e];
    }

    /** Frees both buffers. */
    method Release()
      requires Shape() && After(trace).Quiet() && !closed
      modifies this`closed, this`trace
      ensures Shape() && closed && After(trace).Quiet() && trace == old(trace) + [Free]
    {
      SafeStep(trace, Free);
      StateStep(trace, Free);
      trace := trace + [Free];
      closed := true;
    }

    // ----- reading the device ------------------------------------------------------------

    /** Records what the device showed, or that it did not. */
    ghost method Witness(shown: bool, e: Event)
      requires Shape() && Allowed(trace, e)
      requires e.Idle? || e == Reset || e.Running? || e == NotBusy || e.Routed? || e.Accepted? || e == Checked
            || e.Submit? || e.Transferred? || e.Completed?
      modifies this`trace
      ensures Shape()
      ensures shown ==> trace == old(trace) + [e] && After(trace) == old(After(trace)).Next(e)
      ensures !shown ==> trace == old(trace) + [Denied(e)] && After(trace) == old(After(trace))
    {
      ghost var seen := if shown then e else Denied(e);
      SafeStep(trace, seen);
      StateStep(trace, seen);
      trace := trace + [seen];
    }

    /** Polls a status bit until it is set, an error shows, or the deadline passes. */
    method Await(canError: bool) returns (r: Result<()>)
      ensures r.Err? && !canError ==> r.error == TimeoutError
    {
      var polls := timeout;
      var done: bool := *;
      while !done
        decreases polls
      {
        var error: bool := *;
        if canError && error {
          return Err(RuntimeError);
        }
        if polls == 0 {
          return Err(TimeoutError);
        }
        polls := polls - 1;
        done := *;
      }
      return Ok(());
    }

    /** Waits for a status bit; the event is recorded when the bit was seen, and its denial otherwise. */
    method Poll(canError: bool, ghost e: Event) returns (r: Result<()>)
      requires Shape() && (e.Idle? || e == Reset || e.Running?)
      modifies this`trace
      ensures Shape()
      ensures r.Ok? ==> trace == old(trace) + [e] && After(trace) == old(After(trace)).Next(e)
      ensures r.Err? ==> trace == old(trace) + [Denied(e)] && After(trace) == old(After(trace))
      ensures r.Err? && !canError ==> r.error == TimeoutError
    {
      r := Await(canError);
      Witness(r.Ok?, e);
    }

    /** Reads one status or error register; the event is recorded when it reads clear. */
    method ReadClear(ghost e: Event) returns (clear: bool)
      requires Shape() && (e == NotBusy || e.Routed? || e.Accepted? || e == Checked)
      modifies this`trace
      ensures Shape()
      ensures clear ==> trace == old(trace) + [e]
      ensures !clear ==> trace == old(trace) + [Denied(e)]
      ensures After(trace) == old(After(trace))
    {
      clear := *;
      Witness(clear, e);
    }

    /** Hands a buffer to a channel, which may refuse it. */
    method HandOver(c: Channel, words: nat) returns (accepted: bool)
      requires Shape() && !failed && !closed
      modifies this`trace
      ensures Shape()
      ensures accepted ==>
                trace == old(trace) + [Submit(c, words)] && After(trace) == old(After(trace)).Next(Submit(c, words))
      ensures !accepted ==> trace == old(trace) + [Denied(Submit(c, words))] && After(trace) == old(After(trace))
    {
      accepted := *;
      Witness(accepted, Submit(c, words));
    }

    /** The byte counts the two channels report; the receive channel counts what the engine delivered. */
    method ReadByteCounts(received: int, ghost ni: nat, ghost no: nat) returns (sent: int)
      requires Shape()
      modifies this`trace
      ensures Shape() && After(trace) == old(After(trace))
      ensures sent == 4 * ni && received == 4 * no ==> trace == old(trace) + [Transferred(4 * ni, 4 * no)]
      ensures !(sent == 4 * ni && received == 4 * no) ==> trace == old(trace) + [Denied(Transferred(4 * ni, 4 * no))]
    {
      sent := *;
      Witness(sent == 4 * ni && received == 4 * no, Transferred(4 * ni, 4 * no));
    }

    /** Error, tag and count registers of an engine; what a completed request shows is recorded. */
    method ReadCompletion(wanted: nat) returns (error: bool, seenTag: int, seenCount: int)
      requires Shape() && wanted < 2
      modifies this`trace
      ensures Shape() && After(trace) == old(After(trace))
      ensures var expected := Completed(wanted, false, tag, completed[wanted]);
              trace == old(trace) + [if Completed(wanted, error, seenTag, seenCount) == expected then expected
                                     else Denied(expected)]
    {
      error, seenTag, seenCount := *, *, *;
      ghost var expected := Completed(wanted, false, tag, completed[wanted]);
      Witness(Completed(wanted, error, seenTag, seenCount) == expected, expected);
    }

    // ----- execute -----------------------------------------------------------------------

    /** Both checks of a route change, one register after the other. */
    method ChangeRoute(wanted: nat) returns (r: Result<()>)
      requires Shape()
      modifies this`trace
      ensures Shape() && After(trace) == old(After(trace)) && old(trace) <= trace
      ensures r.Ok? ==> trace == old(trace) + [NotBusy, Routed(wanted)]
      ensures r.Err? ==> DeniedIn(old(trace), trace)
    {
      var idle := ReadClear(NotBusy);
      if !idle {
        DeniedLast(old(trace), old(trace), NotBusy);
        return Err(RuntimeError);
      }
      ghost var before := trace;
      var routed := ReadClear(Routed(wanted));
      if !routed {
        DeniedLast(old(trace), before, Routed(wanted));
        return Err(RuntimeError);
      }
      return Ok(());
    }

    method Select(wanted: nat) returns (r: Result<()>)
      requires Shape() && After(trace).Usable()
      modifies this`route, this`trace
      ensures Shape() && After(trace) == old(After(trace)) && old(trace) <= trace
      ensures r.Ok? ==> route == wanted && trace == old(trace) + RouteEvents(old(route), wanted)
      ensures r.Err? ==> route == old(route) && DeniedIn(old(trace), trace)
    {
      if wanted != route {
        r := ChangeRoute(wanted);
        if r.Err? {
          return;
        }
        route := wanted;
      }
      return Ok(());
    }

    method RequireReady() returns (r: Result<()>)
      ensures r.Ok? <==> !closed && !failed
      ensures r.Err? ==> r.error == RuntimeError
    {
      if closed || failed {
        return Err(RuntimeError);
      }
      return Ok(());
    }

    /** The next tag, the descriptor, the start bit, and the error register behind them. */
    method Begin(wanted: nat, parameters: seq<int>) returns (r: Result<()>)
      requires Shape() && After(trace).Usable()
      modifies this`tag, this`serial, this`trace
      ensures Shape() && After(trace) == old(After(trace)) && old(trace) <= trace
      ensures tag == (old(tag) + 1) % 0x1_0000_0000 && serial == old(serial) + 1
      ensures r.Ok? ==> trace == old(trace) + [Start(wanted, parameters, tag), Accepted(wanted)]
      ensures r.Err? ==> DeniedIn(old(trace), trace)
    {
      tag := (tag + 1) % 0x1_0000_0000;
      serial := serial + 1;
      Log(Start(wanted, parameters, tag));
      ghost var started := trace;
      var accepted := ReadClear(Accepted(wanted));
      if !accepted {
        DeniedLast(old(trace), started, Accepted(wanted));
        return Err(RuntimeError);
      }
      return Ok(());
    }

    /**
     One transfer each way: both channels are handed a buffer, then waited for in turn. Either handover
     may raise, the second one while the receive channel is already active.
     */
    method Transfer(ni: nat, no: nat) returns (r: Result<()>)
      requires Shape() && After(trace).Usable()
      modifies this`trace
      ensures Shape() && old(trace) <= trace && !failed && !closed
      ensures r.Ok? ==> After(trace) == old(After(trace)).(sent := old(After(trace)).sent + 1)
      ensures r.Ok? ==> trace == old(trace) + [Submit(Recv, no), Submit(Send, ni), Idle(Send), Idle(Recv)]
      ensures r.Err? ==> DeniedIn(old(trace), trace)
    {
      r := HandOverBoth(ni, no);
      if r.Err? {
        return;
      }
      ghost var submitted := trace;
      r := Poll(true, Idle(Send));
      if r.Err? {
        DeniedLast(old(trace), submitted, Idle(Send));
        return;
      }
      ghost var sent := trace;
      r := Poll(true, Idle(Recv));
      if r.Err? {
        DeniedLast(old(trace), sent, Idle(Recv));
      }
    }

    method HandOverBoth(ni: nat, no: nat) returns (r: Result<()>)
      requires Shape() && After(trace).Usable()
      modifies this`trace
      ensures Shape() && old(trace) <= trace && !failed && !closed
      ensures r.Ok? ==> After(trace) == old(After(trace)).Next(Submit(Recv, no)).Next(Submit(Send, ni))
      ensures r.Ok? ==> trace == old(trace) + [Submit(Recv, no), Submit(Send, ni)]
      ensures r.Err? ==> DeniedIn(old(trace), trace)
    {
      var accepted := HandOver(Recv, no);
      if !accepted {
        DeniedLast(old(trace), old(trace), Submit(Recv, no));
        return Err(RuntimeError);
      }
      ghost var first := trace;
      accepted := HandOver(Send, ni);
      if !accepted {
        DeniedLast(old(trace), first, Submit(Send, ni));
        return Err(RuntimeError);
      }
      return Ok(());
    }

    /** Route, descriptor and transfers of one request. */
    method Request(wanted: nat, parameters: seq<int>, ni: nat, no: nat) returns (r: Result<()>)
      requires Shape() && After(trace).Usable()
      modifies this`route, this`tag, this`serial, this`trace
      ensures Shape() && old(trace) <= trace && !failed && !closed
      ensures r.Ok? ==> After(trace) == old(After(trace)).(sent := old(After(trace)).sent + 1)
      ensures r.Ok? ==> tag == (old(tag) + 1) % 0x1_0000_0000 && route == wanted && serial == old(serial) + 1
      ensures r.Ok? ==> trace == old(trace) + RouteEvents(old(route), wanted) + Opening(wanted, parameters, tag, ni, no)
      ensures r.Err? ==> DeniedIn(old(trace), trace)
    {
      r := Select(wanted);
      if r.Err? {
        return;
      }
      ghost var selected := trace;
      r := Begin(wanted, parameters);
      if r.Err? {
        DeniedStays(old(trace), selected, trace, trace);
        return;
      }
      ghost var begun := trace;
      r := Transfer(ni, no);
      if r.Err? {
        DeniedStays(old(trace), begun, trace, trace);
      }
    }

    /** What the engine delivered lands in the receive buffer; both byte counts must be the expected ones. */
    method Receive(wanted: nat, parameters: seq<int>, ni: nat, no: nat) returns (ok: bool)
      requires Shape() && 4 * ni <= tx.Length && no <= rx.Length
      modifies this`trace, rx
      ensures Shape() && After(trace) == old(After(trace)) && old(trace) <= trace
      ensures ok ==> SignedWords(rx[..no]) == EngineReply(engine, serial, wanted, parameters, tx[..4 * ni])
      ensures ok ==> trace == old(trace) + [Transferred(4 * ni, 4 * no)]
      ensures !ok ==> DeniedIn(old(trace), trace)
    {
      var delivered := engine(serial, wanted, parameters, WordsOf(tx[..4 * ni]));
      var sent := ReadByteCounts(4 * |delivered|, ni, no);
      if sent != 4 * ni || |delivered| != no {
        DeniedLast(old(trace), old(trace), Transferred(4 * ni, 4 * no));
        return false;
      }
      ReceiveWords(rx, delivered);
      return true;
    }

    /** Counts the packet; error register, tag and completion count must agree. */
    method Complete(wanted: nat) returns (ok: bool)
      requires Shape() && wanted < 2
      modifies this`completed, this`trace
      ensures Shape() && After(trace) == old(After(trace)) && old(trace) <= trace
      ensures completed == old(completed)[wanted := (old(completed)[wanted] + 1) % 0x1_0000_0000]
      ensures ok ==> trace == old(trace) + [Completed(wanted, false, tag, completed[wanted])]
      ensures !ok ==> DeniedIn(old(trace), trace)
    {
      completed := completed[wanted := (completed[wanted] + 1) % 0x1_0000_0000];
      var error, seenTag, seenCount := ReadCompletion(wanted);
      ok := !error && seenTag == tag && seenCount == completed[wanted];
      DeniedLast(old(trace), old(trace), Completed(wanted, false, tag, completed[wanted]));
    }

    method Account(wanted: nat, ni: nat, no: nat)
      requires Shape() && wanted < 2
      modifies this`counts
      ensures Shape() && counts == Accounted(old(counts), wanted, ni, no)
    {
      counts := Accounted(counts, wanted, ni, no);
    }

    /** The reply lands in the receive buffer and the registers behind it agree. */
    method Finished(wanted: nat, parameters: seq<int>, ni: nat, no: nat) returns (ok: bool)
      requires Shape() && wanted < 2 && 4 * ni <= tx.Length && no <= rx.Length
      modifies this`completed, this`trace, rx
      ensures Shape() && After(trace) == old(After(trace)) && old(trace) <= trace
      ensures ok ==> SignedWords(rx[..no]) == EngineReply(engine, serial, wanted, parameters, tx[..4 * ni])
      ensures ok ==> completed == old(completed)[wanted := (old(completed)[wanted] + 1) % 0x1_0000_0000]
      ensures ok ==>
                trace == old(trace) + [Transferred(4 * ni, 4 * no), Completed(wanted, false, tag, completed[wanted])]
      ensures !ok ==> DeniedIn(old(trace), trace)
    {
      ok := Receive(wanted, parameters, ni, no);
      if !ok {
        return;
      }
      ghost var counted := trace;
      ok := Complete(wanted);
      if !ok {
        DeniedStays(old(trace), counted, trace, trace);
      }
    }

    /** Receives and completes one request, accounts for the packet and copies the reply. */
    method Collect(wanted: nat, parameters: seq<int>, ni: nat, no: nat) returns (r: Result<seq<int>>)
      requires Shape() && wanted < 2 && 4 * ni <= tx.Length && no <= rx.Length
      modifies this`completed, this`counts, this`trace, rx
      ensures Shape() && After(trace) == old(After(trace)) && old(trace) <= trace
      ensures r.Ok? ==>
                && |r.value| == no
                && r.value == EngineReply(engine, serial, wanted, parameters, tx[..4 * ni])
      ensures r.Ok? ==> completed == old(completed)[wanted := (old(completed)[wanted] + 1) % 0x1_0000_0000]
      ensures r.Ok? ==>
                trace == old(trace) + [Transferred(4 * ni, 4 * no), Completed(wanted, false, tag, completed[wanted])]
      ensures r.Err? ==> DeniedIn(old(trace), trace)
      ensures counts == if r.Err? then old(counts) else Accounted(old(counts), wanted, ni, no)
    {
      var ok := Finished(wanted, parameters, ni, no);
      if !ok {
        return Err(RuntimeError);
      }
      Account(wanted, ni, no);
      return Ok(SignedWords(rx[..no]));
    }

    /** The body of execute's try block. */
    method Attempt(wanted: nat, parameters: seq<int>, ni: nat, no: nat) returns (r: Result<seq<int>>)
      requires Shape() && After(trace).Usable() && wanted < 2 && 1 <= 4 * ni <= tx.Length && 1 <= no <= rx.Length
      modifies this`route, this`tag, this`serial, this`completed, this`counts, this`trace, rx
      ensures Shape() && old(trace) <= trace && !failed && !closed
      ensures r.Ok? ==> After(trace) == old(After(trace)).(sent := old(After(trace)).sent + 1)
      ensures r.Ok? ==>
                && |r.value| == no
                && r.value == EngineReply(engine, serial, wanted, parameters, tx[..4 * ni])
      ensures r.Ok? ==> tag == (old(tag) + 1) % 0x1_0000_0000 && route == wanted && serial == old(serial) + 1
      ensures r.Ok? ==> completed == old(completed)[wanted := (old(completed)[wanted] + 1) % 0x1_0000_0000]
      ensures r.Ok? ==>
                trace == old(trace) + RouteEvents(old(route), wanted)
                         + Exchange(wanted, parameters, tag, ni, no, completed[wanted])
      ensures r.Err? ==> DeniedIn(old(trace), trace)
      ensures counts == if r.Err? then old(counts) else Accounted(old(counts), wanted, ni, no)
    {
      var requested := Request(wanted, parameters, ni, no);
      if requested.Err? {
        return Err(requested.error);
      }
      ghost var transferred := trace;
      r := Collect(wanted, parameters, ni, no);
      if r.Err? {
        DeniedStays(old(trace), transferred, trace, trace);
      }
    }

    /**
     execute: a request on a ready backend either delivers exactly the engine's reply, and then its events
     are the whole exchange, or marks the backend failed.  Only a request outside the buffers is refused
     without marking it, and on a ready backend the device must have denied something for any other failure.
     */
    method Execute(wanted: nat, parameters: seq<int>, ni: nat, no: nat) returns (r: Result<seq<int>>)
      requires Valid() && wanted < 2
      modifies this`failed, this`route, this`tag, this`serial, this`completed, this`counts, this`trace, rx
      ensures Valid() && old(trace) <= trace
      ensures r.Ok? ==> !old(failed) && !old(closed) && !failed && !closed && 4 * ni <= tx.Length
      ensures r.Ok? ==>
                && |r.value| == no
                && r.value == EngineReply(engine, serial, wanted, parameters, tx[..4 * ni])
      ensures r.Ok? ==>
                trace == old(trace) + RouteEvents(old(route), wanted)
                         + Exchange(wanted, parameters, tag, ni, no, completed[wanted])
      ensures r.Ok? ==> After(trace) == old(After(trace)).(sent := old(After(trace)).sent + 1)
      ensures r.Ok? ==> tag == (old(tag) + 1) % 0x1_0000_0000 && route == wanted && serial == old(serial) + 1
      ensures r.Ok? ==> completed == old(completed)[wanted := (old(completed)[wanted] + 1) % 0x1_0000_0000]
      ensures r.Err? && !(old(failed) || old(closed)) && 1 <= ni && 4 * ni <= tx.Length && 1 <= no <= rx.Length ==>
                failed && DeniedIn(old(trace), trace)
      ensures !(old(failed) || old(closed)) && !(1 <= ni && 4 * ni <= tx.Length && 1 <= no <= rx.Length) ==>
                r == Err(ValueError) && trace == old(trace) && !failed
      ensures old(failed) || old(closed) ==> r == Err(RuntimeError) && failed == old(failed) && trace == old(trace)
      ensures counts == if r.Err? then old(counts) else Accounted(old(counts), wanted, ni, no)
    {
      var ready := RequireReady();
      if ready.Err? {
        return Err(ready.error);
      }
      if !(1 <= ni && 4 * ni <= tx.Length) || !(1 <= no <= rx.Length) {
        return Err(ValueError);
      }
      r := Attempt(wanted, parameters, ni, no);
      if r.Err? {
        ghost var denied := trace;
        Mark(true);
        DeniedStays(old(trace), old(trace), denied, trace);
      }
    }

    // ----- reset, recover, close ------------------------------------------------------

    method ResetDma() returns (r: Result<()>)
      requires Shape()
      modifies this`trace
      ensures Shape()
      ensures r.Ok? ==> trace == old(trace) + [Reset] && After(trace).Quiet()
      ensures r.Err? ==> trace == old(trace) + [Denied(Reset)] && r.error == TimeoutError
      ensures r.Err? ==> After(trace) == old(After(trace))
    {
      r := Poll(false, Reset);
    }

    method CheckCapabilities() returns (r: Result<()>)
      requires Shape() && After(trace).Quiet()
      modifies this`trace
      ensures Shape() && After(trace).Quiet()
      ensures r.Ok? ==> trace == old(trace) + [Checked]
      ensures r.Err? ==> trace == old(trace) + [Denied(Checked)]
    {
      var matching := ReadClear(Checked);
      return if matching then Ok(()) else Err(RuntimeError);
    }

    ghost method ClearEngines()
      requires Shape() && After(trace).Quiet()
      modifies this`trace
      ensures Shape() && After(trace).Quiet()
      ensures trace == old(trace) + [ClearEngine(0), ClearEngine(1)]
    {
      Log(ClearEngine(0));
      Log(ClearEngine(1));
    }

    /** Restarts one channel and polls until it runs. */
    method StartChannel(c: Channel) returns (r: Result<()>)
      requires Shape()
      modifies this`trace
      ensures Shape() && After(trace) == old(After(trace))
      ensures r.Ok? ==> trace == old(trace) + [Running(c)]
      ensures r.Err? ==> trace == old(trace) + [Denied(Running(c))]
    {
      r := Poll(false, Running(c));
    }

    /** Restarts the channels one after the other, each with a deadline. */
    method StartChannels() returns (r: Result<()>)
      requires Shape() && After(trace).Quiet()
      modifies this`trace
      ensures Shape() && After(trace).Quiet() && old(trace) <= trace
      ensures r.Ok? ==> trace == old(trace) + [Running(Send), Running(Recv)]
      ensures r.Err? ==> DeniedIn(old(trace), trace)
    {
      r := StartChannel(Send);
      if r.Err? {
        DeniedLast(old(trace), old(trace), Running(Send));
        return;
      }
      ghost var first := trace;
      r := StartChannel(Recv);
      if r.Err? {
        DeniedLast(old(trace), first, Running(Recv));
      }
    }

    /** Resets the DMA, clears both engines and restarts the channels. */
    method ResetAndRestart() returns (r: Result<()>)
      requires Shape()
      modifies this`trace
      ensures Shape() && old(trace) <= trace
      ensures r.Ok? ==> After(trace).Quiet() && trace == old(trace) + RECOVERY[..5]
      ensures r.Err? ==> DeniedIn(old(trace), trace)
    {
      r := ResetDma();
      if r.Err? {
        DeniedLast(old(trace), old(trace), Reset);
        return;
      }
      ClearEngines();
      ghost var cleared := trace;
      assert trace == old(trace) + [Reset] + [ClearEngine(0), ClearEngine(1)];
      r := StartChannels();
      if r.Err? {
        DeniedStays(old(trace), cleared, trace, trace);
      }
    }

    /** recover: marks the backend failed, and clears the flag at the end of the whole sequence. */
    method Recover() returns (r: Result<()>)
      requires Valid()
      modifies this`failed, this`route, this`completed, this`trace
      ensures Valid() && old(trace) <= trace
      ensures r.Ok? <==> !old(closed) && !failed
      ensures r.Ok? ==> trace == old(trace) + [Fail] + RECOVERY + [Ready]
      ensures old(closed) ==> trace == old(trace) && failed == old(failed)
      ensures r.Err? && !old(closed) ==> failed && DeniedIn(old(trace), trace)
      ensures old(closed) ==> r == Err(RuntimeError)
    {
      if closed {
        return Err(RuntimeError);
      }
      Mark(true);
      ghost var marked := trace;
      r := ResetAndRestart();
      if r.Err? {
        DeniedStays(old(trace), marked, trace, trace);
        return;
      }
      var first: int, second: int := *, *;
      completed := [first, second];
      route := *;
      ghost var restarted := trace;
      r := Finish(old(trace) + [Fail]);
      if r.Err? {
        DeniedStays(old(trace), restarted, trace, trace);
      }
    }

    /** The last capability check, and only behind it the flag. */
    method Finish(ghost before: seq<Event>) returns (r: Result<()>)
      requires Shape() && After(trace).Quiet() && failed && trace == before + RECOVERY[..5]
      modifies this`failed, this`trace
      ensures Shape() && After(trace).Quiet() && old(trace) <= trace
      ensures r.Ok? <==> !failed
      ensures r.Ok? ==> trace == before + RECOVERY + [Ready]
      ensures r.Err? ==> DeniedIn(old(trace), trace)
    {
      r := CheckCapabilities();
      if r.Err? {
        DeniedLast(old(trace), old(trace), Checked);
        return;
      }
      assert trace == before + RECOVERY;
      Mark(false);
    }

    /** close: frees both buffers after a successful reset, keeps both after a failed one. */
    method Close() returns (r: Result<()>)
      requires Valid()
      modifies this`failed, this`closed, this`trace
      ensures Valid() && old(trace) <= trace
      ensures old(closed) ==> r.Ok? && trace == old(trace) && failed == old(failed)
      ensures r.Ok? <==> closed
      ensures r.Ok? && !old(closed) ==> trace == old(trace) + [Reset, Free] && failed == old(failed)
      ensures r.Err? ==>
                failed && !closed && trace == old(trace) + [Denied(Reset), Fail, Retain] && !After(trace).freed
    {
      if closed {
        return Ok(());
      }
      r := ResetDma();
      if r.Err? {
        Mark(true);
        Log(Retain);
        return;
      }
      Release();
    }

    // ----- gemm --------------------------------------------------------------------------

    /** Packs one tile over the transfer buffer of a quiet engine. */
    method PackTile(a: Matrix, tile: Matrix, m: nat, k: nat) returns (r: Result<nat>)
      requires Shape() && After(trace).Usable()
      requires IsInt8Matrix(a, m, k) && IsInt8Matrix(tile, k, 16)
      modifies this`trace, tx
      ensures Shape() && After(trace).Usable()
      ensures r.Ok? ==> r.value == PacketWords(m, k) && 1 <= m <= 16 && 1 <= k <= 3072 && 4 * r.value <= tx.Length
      ensures r.Ok? ==> tx[..4 * r.value] == PacketBytes(a, tile, m, k) && trace == old(trace) + [WriteTx(tx[..])]
      ensures r.Ok? ==> After(trace).sent == old(After(trace)).sent
      ensures r.Ok? <==> 1 <= m <= 16 && 1 <= k <= 3072
      ensures r.Err? ==> r.error == ValueError && trace == old(trace)
    {
      if FitsPacket(m, k) {
        PacketFits(a, tile, m, k);
      }
      var packed := PackGemmInto(tx, a, tile, m, k);
      if packed.Err? {
        return Err(packed.error);
      }
      LogWrite();
      return Ok(packed.value);
    }

    /**
     Packs one tile over the transfer buffer of a quiet engine and requests its product. On success the
     events are the write of that packet and the whole exchange.
     */
    method RequestTile(a: Matrix, tile: Matrix, m: nat, k: nat, width: nat) returns (r: Result<seq<int>>)
      requires Valid() && !failed && !closed
      requires IsInt8Matrix(a, m, k) && IsInt8Matrix(tile, k, 16)
      modifies this`failed, this`route, this`tag, this`serial, this`completed, this`counts, this`trace, tx, rx
      ensures Valid() && old(trace) <= trace
      ensures trace == old(trace) || WritesFirst(old(trace), trace)
      ensures r.Ok? ==> !failed && !closed && |r.value| == m * 16 && 1 <= m <= 16 && 1 <= k <= 3072
      ensures r.Ok? ==> serial == old(serial) + 1 && r.value == TileWords(engine, serial, a, tile, m, width, k)
      ensures r.Ok? ==>
                && 4 * PacketWords(m, k) <= tx.Length && tx[..4 * PacketWords(m, k)] == PacketBytes(a, tile, m, k)
                && trace == old(trace) + TileEvents(tx[..], old(route), m, width, k, tag, completed[0])
      ensures r.Ok? ==> After(trace).sent == old(After(trace)).sent + 1
      ensures r.Err? && FitsPacket(m, k) ==> failed && DeniedIn(old(trace), trace)
      ensures !FitsPacket(m, k) ==> r == Err(ValueError) && trace == old(trace) && !failed
      ensures counts == if r.Err? then old(counts) else Accounted(old(counts), 0, PacketWords(m, k), m * 16)
    {
      var packed := PackTile(a, tile, m, k);
      if packed.Err? {
        return Err(packed.error);
      }
      ghost var written := trace;
      r := Execute(0, [m, width, k, WIDE_RESULT], packed.value, m * 16);
      if r.Err? {
        DeniedStays(old(trace), written, trace, trace);
      } else {
        TileEventsJoin(old(trace), tx[..], old(route), m, width, k, tag, completed[0]);
      }
    }

    /** One tile: request it, and refuse a reply whose padding lanes are not zero. */
    method GemmTile(a: Matrix, tile: Matrix, m: nat, k: nat, width: nat) returns (r: Result<Matrix>)
      requires Valid() && !failed && !closed
      requires 1 <= width <= 16 && IsInt8Matrix(a, m, k) && IsInt8Matrix(tile, k, 16)
      modifies this`failed, this`route, this`tag, this`serial, this`completed, this`counts, this`trace, tx, rx
      ensures Valid() && old(trace) <= trace
      ensures trace == old(trace) || WritesFirst(old(trace), trace)
      ensures r.Ok? ==> !failed && !closed && IsMatrix(r.value, m, 16) && 1 <= m <= 16 && 1 <= k <= 3072
      ensures r.Ok? ==> forall row, c :: 0 <= row < m && width <= c < 16 ==> r.value[row][c] == 0
      ensures r.Ok? ==>
                serial == old(serial) + 1 && IsReply(engine, serial, a, tile, m, width, k, r.value)
      ensures r.Ok? ==> After(trace).sent == old(After(trace)).sent + 1
      ensures r.Ok? ==> counts.macs == old(counts.macs) && counts.packets[0] == old(counts.packets[0]) + 1
      ensures r.Err? ==> counts.macs == old(counts.macs)
      ensures r.Err? && FitsPacket(m, k) ==> failed && (MeetsGemm(engine) ==> DeniedIn(old(trace), trace))
      ensures !FitsPacket(m, k) ==> r == Err(ValueError) && trace == old(trace) && !failed
    {
      var words := RequestTile(a, tile, m, k, width);
      if words.Err? {
        return Err(words.error);
      }
      var delivered := Reshape(words.value, m);
      TileReply(engine, serial, a, tile, m, k, width);
      if exists row, c :: 0 <= row < m && width <= c < 16 && delivered[row][c] != 0 {
        Mark(true);
        return Err(RuntimeError);
      }
      return Ok(delivered);
    }

    /** result[:, t*16:t*16+width] = the active columns of the tile. */
    static method PlaceTile(result: array2<int>, delivered: Matrix, t: nat, width: nat)
      requires IsMatrix(delivered, result.Length0, 16) && width <= 16 && t * 16 + width <= result.Length1
      modifies result
      ensures forall row, g ::
                0 <= row < result.Length0 && 0 <= g < result.Length1 && !(t * 16 <= g < t * 16 + width) ==>
                Rows(result)[row][g] == old(Rows(result))[row][g]
      ensures forall row, g :: 0 <= row < result.Length0 && t * 16 <= g < t * 16 + width ==>
                Rows(result)[row][g] == delivered[row][g % 16]
    {
      forall row, g | 0 <= row < result.Length0 && t * 16 <= g < t * 16 + width {
        result[row, g] := delivered[row][g - t * 16];
      }
    }

    /** One more tile, written into its columns of the result. */
    method NextTile(a: Matrix, m: nat, k: nat, tiles: seq<Matrix>, n: nat, t: nat, result: array2<int>,
                    ghost first: nat, ghost replies: seq<Matrix>)
      returns (r: Result<()>, ghost grown: seq<Matrix>)
      requires Valid() && !failed && !closed && IsInt8Matrix(a, m, k) && |tiles| == TileCount(n) && AreTiles(tiles, k)
      requires result.Length0 == m && result.Length1 == n && |replies| == t < |tiles| && serial + 1 == first + t
      requires AreReplies(engine, first, a, tiles, m, k, n, replies)
      requires IsGathered(Rows(result), replies, m, n, t * 16)
      modifies this`failed, this`route, this`tag, this`serial, this`completed, this`counts, this`trace, tx, rx, result
      ensures Valid() && old(trace) <= trace
      ensures trace == old(trace) || WritesFirst(old(trace), trace)
      ensures r.Ok? ==> !failed && !closed && FitsPacket(m, k) && serial == old(serial) + 1 && |grown| == t + 1
      ensures r.Ok? ==> AreReplies(engine, first, a, tiles, m, k, n, grown)
      ensures r.Ok? ==> IsGathered(Rows(result), grown, m, n, t * 16 + 16)
      ensures r.Ok? ==> After(trace).sent == old(After(trace)).sent + 1
      ensures r.Ok? ==> counts.macs == old(counts.macs) && counts.packets[0] == old(counts.packets[0]) + 1
      ensures r.Err? && FitsPacket(m, k) ==> failed && (MeetsGemm(engine) ==> DeniedIn(old(trace), trace))
      ensures !FitsPacket(m, k) ==> r == Err(ValueError) && trace == old(trace) && !failed
    {
      grown := replies;
      ghost var columns := Rows(result);
      var tile := GemmTile(a, tiles[t], m, k, TileWidth(n, t));
      if tile.Err? {
        return Err(tile.error), grown;
      }
      RepliesGrow(engine, first, a, tiles, m, k, n, replies, tile.value);
      assert Rows(result) == columns;
      PlaceTile(result, tile.value, t, TileWidth(n, t));
      GatheredGrows(columns, Rows(result), replies, tile.value, m, n);
      return Ok(()), replies + [tile.value];
    }

    /** The tiles one after the other. */
    method GemmTiles(a: Matrix, m: nat, k: nat, tiles: seq<Matrix>, n: nat, result: array2<int>)
      returns (r: Result<()>, ghost replies: seq<Matrix>)
      requires Valid() && !failed && !closed && IsInt8Matrix(a, m, k) && 1 <= n && |tiles| == TileCount(n)
      requires AreTiles(tiles, k)
      requires result.Length0 == m && result.Length1 == n
      modifies this`failed, this`route, this`tag, this`serial, this`completed, this`counts, this`trace, tx, rx, result
      ensures Valid() && old(trace) <= trace
      ensures trace == old(trace) || WritesFirst(old(trace), trace)
      ensures r.Ok? ==> !failed && !closed && FitsPacket(m, k)
      ensures r.Ok? ==> |replies| == |tiles| && AreReplies(engine, old(serial) + 1, a, tiles, m, k, n, replies)
      ensures r.Ok? ==> IsGathered(Rows(result), replies, m, n, n)
      ensures r.Ok? ==> counts.macs == old(counts.macs) && counts.packets[0] == old(counts.packets[0]) + |tiles|
      ensures r.Ok? ==> After(trace).sent == old(After(trace)).sent + |tiles|
      ensures r.Err? && FitsPacket(m, k) ==> failed && (MeetsGemm(engine) ==> DeniedIn(old(trace), trace))
      ensures !FitsPacket(m, k) ==> r == Err(ValueError) && trace == old(trace) && !failed
    {
      replies := [];
      for t := 0 to |tiles|
        invariant Valid() && !failed && !closed && old(trace) <= trace && (t > 0 ==> FitsPacket(m, k))
        invariant trace == old(trace) || (t > 0 && WritesFirst(old(trace), trace))
        invariant After(trace).sent == old(After(trace)).sent + t && serial == old(serial) + t
        invariant |replies| == t && AreReplies(engine, old(serial) + 1, a, tiles, m, k, n, replies)
        invariant IsGathered(Rows(result), replies, m, n, t * 16)
        invariant counts.macs == old(counts.macs) && counts.packets[0] == old(counts.packets[0]) + t
      {
        ghost var before := trace;
        r, replies := NextTile(a, m, k, tiles, n, t, result, old(serial) + 1, replies);
        if r.Err? {
          if FitsPacket(m, k) && MeetsGemm(engine) {
            DeniedStays(old(trace), before, trace, trace);
          }
          return;
        }
      }
      r := Ok(());
    }

    /** All tiles into a new matrix, and the work counted. */
    method MultiplyTiles(a: Matrix, m: nat, k: nat, tiles: seq<Matrix>, n: nat)
      returns (r: Result<Matrix>, ghost replies: seq<Matrix>)
      requires Valid() && !failed && !closed && IsInt8Matrix(a, m, k) && 1 <= n && |tiles| == TileCount(n)
      requires AreTiles(tiles, k)
      modifies this`failed, this`route, this`tag, this`serial, this`completed, this`counts, this`trace, tx, rx
      ensures Valid() && old(trace) <= trace
      ensures trace == old(trace) || WritesFirst(old(trace), trace)
      ensures r.Ok? ==> !failed && !closed && FitsPacket(m, k) && IsMatrix(r.value, m, n) && |replies| == |tiles|
      ensures r.Ok? ==> AreReplies(engine, old(serial) + 1, a, tiles, m, k, n, replies)
      ensures r.Ok? ==> IsGathered(r.value, replies, m, n, n)
      ensures r.Ok? ==> counts.macs == old(counts.macs) + Volume(m, k, n)
      ensures r.Ok? ==> counts.packets[0] == old(counts.packets[0]) + |tiles|
      ensures r.Ok? ==> After(trace).sent == old(After(trace)).sent + |tiles|
      ensures r.Err? && FitsPacket(m, k) ==> failed && (MeetsGemm(engine) ==> DeniedIn(old(trace), trace))
      ensures !FitsPacket(m, k) ==> r == Err(ValueError) && trace == old(trace) && !failed
    {
      var result := new int[m, n];
      var done;
      done, replies := GemmTiles(a, m, k, tiles, n, result);
      if done.Err? {
        return Err(done.error), replies;
      }
      counts := counts.(macs := counts.macs + Volume(m, k, n));
      return Ok(Rows(result)), replies;
    }

    /**
     gemm: on an engine that meets the packet contract a successful call returns exactly A * B, the
     ragged last tile included. On a ready backend illegal operands are refused and leave no trace, and
     legal ones only fail when the device has denied something; on any engine it never rewrites the
     transfer buffer of a transfer that may be in progress.
     */
    method Gemm(a: Matrix, m: nat, k: nat, tiles: seq<Matrix>, n: int) returns (r: Result<Matrix>)
      requires Valid() && IsInt8Matrix(a, m, k)
      modifies this`failed, this`route, this`tag, this`serial, this`completed, this`counts, this`trace, tx, rx
      ensures Valid() && old(trace) <= trace
      ensures trace == old(trace) || WritesFirst(old(trace), trace)
      ensures old(failed) ==> failed
      ensures old(failed) || old(closed) ==> r == Err(RuntimeError) && trace == old(trace) && tx[..] == old(tx[..])
      ensures r.Ok? ==> !failed && LegalGemm(m, k, tiles, n) && IsMatrix(r.value, m, n)
      ensures r.Err? && !old(failed) && !old(closed) && LegalGemm(m, k, tiles, n) ==>
                failed && (MeetsGemm(engine) ==> DeniedIn(old(trace), trace))
      ensures !old(failed) && !old(closed) && !LegalGemm(m, k, tiles, n) ==>
                r == Err(ValueError) && trace == old(trace) && tx[..] == old(tx[..]) && !failed
      ensures r.Ok? ==> AnswersGemm(engine, old(serial) + 1, a, tiles, m, k, n, r.value)
      ensures r.Ok? && MeetsGemm(engine) ==>
                forall b :: IsMatrix(b, k, n) && IsTiling(tiles, b, k, n) ==> IsProduct(r.value, a, b, m, k, n)
      ensures r.Ok? ==> counts.macs == old(counts.macs) + Volume(m, k, n)
      ensures r.Ok? ==> counts.packets[0] == old(counts.packets[0]) + TileCount(n)
      ensures r.Ok? ==> After(trace).sent == old(After(trace)).sent + TileCount(n)
    {
      var ready := RequireReady();
      if ready.Err? {
        return Err(ready.error);
      }
      if !(1 <= n <= 50257) || |tiles| != (n + 15) / 16 || !AreTiles(tiles, k) {
        return Err(ValueError);
      }
      ghost var replies;
      r, replies := MultiplyTiles(a, m, k, tiles, n);
      if r.Ok? {
        RepliesAreProduct(engine, old(serial) + 1, a, tiles, m, k, n, r.value, replies);
      }
    }

    // ----- sfpu --------------------------------------------------------------------------

    /** sfpu: on an engine that meets the packet contract it delivers the reference result of the packet. */
    method Sfpu(d: SfpuPackets.Descriptor, words: seq<int>) returns (r: Result<seq<int>>)
      requires Valid()
      modifies this`failed, this`route, this`tag, this`serial, this`completed, this`counts, this`trace, tx, rx
      ensures Valid() && old(trace) <= trace
      ensures trace == old(trace) || WritesFirst(old(trace), trace)
      ensures old(failed) ==> failed
      ensures old(failed) || old(closed) ==> r == Err(RuntimeError) && trace == old(trace) && tx[..] == old(tx[..])
      ensures r.Ok? ==> !failed && LegalSfpu(d, words) && |r.value| == d.length && 4 * |words| <= tx.Length
      ensures r.Err? && !old(failed) && !old(closed) && LegalSfpu(d, words) ==>
                failed && DeniedIn(old(trace), trace)
      ensures !old(failed) && !old(closed) && !LegalSfpu(d, words) ==>
                r == Err(ValueError) && trace == old(trace) && tx[..] == old(tx[..]) && !failed
      ensures r.Ok? ==>
                && WordsOf(tx[..4 * |words|]) == UnsignedWords(words)
                && r.value == EngineReply(engine, serial, 1, [d.op, d.length, d.shift, d.multiplier], tx[..4 * |words|])
                && trace == old(trace) + [WriteTx(tx[..])] + RouteEvents(old(route), 1)
                            + Exchange(1, [d.op, d.length, d.shift, d.multiplier], tag, |words|, d.length, completed[1])
      ensures r.Ok? ==> forall t, planes | MeetsSfpu(engine, t) && IsPacketOf(t, d, planes, UnsignedWords(words)) ::
                UnsignedWords(r.value) == SfpuPackets.EvaluateAndPack(t, d, planes).value.1
    {
      var ready := RequireReady();
      if ready.Err? {
        return Err(ready.error);
      }
      if !d.Valid() || |words| != d.Planes() * d.length {
        return Err(ValueError);
      }
      WriteWords(tx, words);
      LogWrite();
      ghost var written := trace;
      r := Execute(1, [d.op, d.length, d.shift, d.multiplier], |words|, d.length);
      if r.Ok? {
        forall t, planes | MeetsSfpu(engine, t) && IsPacketOf(t, d, planes, UnsignedWords(words))
          ensures UnsignedWords(r.value) == SfpuPackets.EvaluateAndPack(t, d, planes).value.1
        {
          assert RepliesReference(engine, t, serial, d, planes);
          WordsStay(t, d, planes);
        }
      } else {
        DeniedStays(old(trace), written, trace, trace);
      }
    }

    // ----- whole runs -----------------------------------------------------------------------

    /** One call, whatever becomes of it. */
    method Dispatch(call: Call)
      requires Valid()
      modifies this, tx, rx
      ensures Valid() && old(trace) <= trace
      ensures old(failed) && (call.CallGemm? || call.CallSfpu?) ==> failed && trace == old(trace)
      ensures old(closed) ==> closed && trace == old(trace) && failed == old(failed)
      ensures !old(failed) && failed && MeetsGemm(engine) ==> DeniedIn(old(trace), trace)
    {
      match call
      case CallGemm(a, m, k, tiles, n) =>
        if IsInt8Matrix(a, m, k) {
          var _ := Gemm(a, m, k, tiles, n);
        }
      case CallSfpu(d, words) =>
        var _ := Sfpu(d, words);
      case CallRecover =>
        var _ := Recover();
      case CallClose =>
        var r := Close();
        assert r.Err? ==> trace[|old(trace)|] == Denied(Reset);
    }

    /**
     Any sequence of calls, whatever the device does at any step. The history stays safe and the flags
     are read off it, so the buffers are only overwritten or freed when every submitted transfer has been
     settled. A failed backend comes back only through a complete recovery, without recover or close it
     does nothing at all, and a closed one never does anything again.
     */
    method Run(calls: seq<Call>)
      requires Valid()
      modifies this, tx, rx
      ensures Valid() && Safe(trace) && old(trace) <= trace
      ensures failed == After(trace).failed && closed == (Free in trace)
      ensures old(failed) && !failed ==> exists k :: |old(trace)| <= k < |trace| && RecoveredAt(trace, k)
      ensures old(failed) && (forall c :: c in calls ==> c.CallGemm? || c.CallSfpu?) ==> failed && trace == old(trace)
      ensures old(closed) ==> closed && trace == old(trace)
      ensures !old(failed) && failed && MeetsGemm(engine) ==> DeniedIn(old(trace), trace)
      ensures tx[..] == After(trace).Buffer(start)
      ensures tx[..] != old(tx[..]) ==> exists k :: |old(trace)| <= k < |trace| && RewrittenAt(trace, k)
      ensures forall i, j :: 0 <= j < i < |trace| && trace[j] == Free ==>
                !trace[i].WriteTx? && !trace[i].Start? && !trace[i].Submit? && trace[i] != Free
    {
      for i := 0 to |calls|
        invariant Valid() && old(trace) <= trace
        invariant old(failed) && (forall c :: c in calls ==> c.CallGemm? || c.CallSfpu?) ==>
                    failed && trace == old(trace)
        invariant old(closed) ==> closed && trace == old(trace)
        invariant !old(failed) && failed && MeetsGemm(engine) ==> DeniedIn(old(trace), trace)
      {
        assert calls[i] in calls;
        ghost var before, wasFailed := trace, failed;
        Dispatch(calls[i]);
        if !wasFailed && failed && MeetsGemm(engine) {
          DeniedStays(old(trace), before, trace, trace);
        } else if !old(failed) && wasFailed && MeetsGemm(engine) {
          DeniedStays(old(trace), old(trace), before, trace);
        }
      }
      FreedByEvent(trace);
      if old(failed) && !failed {
        ClearedByRecovery(old(trace), trace);
      }
      if tx[..] != old(tx[..]) {
        ChangeIsRewrite(old(trace), trace);
      }
      forall i, j | 0 <= j < i < |trace| && trace[j] == Free
        ensures !trace[i].WriteTx? && !trace[i].Start? && !trace[i].Submit? && trace[i] != Free
      {
        NothingAfterFree(trace, i, j);
      }
    }
  }

  datatype Call =
    | CallGemm(a: Matrix, m: nat, k: nat, tiles: seq<Matrix>, n: int)
    | CallSfpu(d: SfpuPackets.Descriptor, words: seq<int>)
    | CallRecover
    | CallClose

  function Volume(m: nat, k: nat, n: nat): nat {
    MulOrder(m, 0, k);
    MulOrder(m * k, 0, n);
    m * k * n
  }

  /** words.reshape(m, 16) */
  function Reshape(words: seq<int>, m: nat): (r: Matrix)
    requires |words| == m * 16
    ensures IsMatrix(r, m, 16)
  {
    seq(m, row requires 0 <= row < m => seq(16, c requires 0 <= c < 16 => words[row * 16 + c]))
  }

  /** Reading the reply back as int32 gives the products: none of them leaves the int32 range. */
  lemma ReplyRead(a: Matrix, tile: Matrix, m: nat, width: nat, k: nat)
    requires IsInt8Matrix(a, m, k) && IsInt8Matrix(tile, k, 16) && k <= 3072
    ensures forall row, c :: 0 <= row < m && 0 <= c < width && c < 16 ==>
              Reshape(SignedWords(GemmReply(a, tile, m, width, k)), m)[row][c] == Dot(a, tile, row, c, k)
  {
    forall row, c | 0 <= row < m && 0 <= c < width && c < 16
      ensures Reshape(SignedWords(GemmReply(a, tile, m, width, k)), m)[row][c] == Dot(a, tile, row, c, k)
    {
      ReplyCell(a, tile, m, width, k, row, c, row * 16 + c);
    }
  }

  lemma PaddingRead(a: Matrix, tile: Matrix, m: nat, width: nat, k: nat)
    requires IsInt8Matrix(a, m, k) && IsInt8Matrix(tile, k, 16)
    ensures forall row, c :: 0 <= row < m && width <= c < 16 ==>
              Reshape(SignedWords(GemmReply(a, tile, m, width, k)), m)[row][c] == 0
  {
    forall row, c | 0 <= row < m && width <= c < 16
      ensures Reshape(SignedWords(GemmReply(a, tile, m, width, k)), m)[row][c] == 0
    {
      PaddingCell(a, tile, m, width, k, row, c, row * 16 + c);
    }
  }

  lemma PaddingCell(a: Matrix, tile: Matrix, m: nat, width: nat, k: nat, row: nat, c: nat, i: nat)
    requires IsInt8Matrix(a, m, k) && IsInt8Matrix(tile, k, 16)
    requires row < m && width <= c < 16 && i == row * 16 + c
    ensures i < m * 16 && SignedWords(GemmReply(a, tile, m, width, k))[i] == 0
  {
    assert i / 16 == row && i % 16 == c;
  }

  lemma ReplyCell(a: Matrix, tile: Matrix, m: nat, width: nat, k: nat, row: nat, c: nat, i: nat)
    requires IsInt8Matrix(a, m, k) && IsInt8Matrix(tile, k, 16) && k <= 3072
    requires row < m && c < width && c < 16 && i == row * 16 + c
    ensures i < m * 16 && SignedWords(GemmReply(a, tile, m, width, k))[i] == Dot(a, tile, row, c, k)
  {
    assert i / 16 == row && i % 16 == c;
    DotBound(a, tile, row, c, k);
    assert GemmReply(a, tile, m, width, k)[i] == AsU32(Dot(a, tile, row, c, k));
    SmallSigned(Dot(a, tile, row, c, k));
  }

  lemma SmallSigned(v: int)
    requires -0x8000_0000 <= v < 0x8000_0000
    ensures AsI32(AsU32(v)) == v
  {
  }

  /** The product a column of the result comes from: column g % 16 of tile g / 16. */
  function TileDot(a: Matrix, tiles: seq<Matrix>, row: nat, g: nat, k: nat): int
    requires row < |a| && k == |a[row]| && g / 16 < |tiles| && IsInt8Matrix(tiles[g / 16], k, 16)
  {
    Dot(a, tiles[g / 16], row, g % 16, k)
  }

  /** Gathering the active columns of every tile gives the product with the untiled matrix. */
  lemma ColumnsAreProduct(a: Matrix, tiles: seq<Matrix>, result: Matrix, m: nat, k: nat, n: nat)
    requires IsMatrix(a, m, k) && IsMatrix(result, m, n) && |tiles| == TileCount(n)
    requires AreTiles(tiles, k)
    requires forall row, g :: 0 <= row < m && 0 <= g < n ==> result[row][g] == TileDot(a, tiles, row, g, k)
    ensures forall b :: IsMatrix(b, k, n) && IsTiling(tiles, b, k, n) ==> IsProduct(result, a, b, m, k, n)
  {
    forall b | IsMatrix(b, k, n) && IsTiling(tiles, b, k, n)
      ensures IsProduct(result, a, b, m, k, n)
    {
      forall row, g | 0 <= row < m && 0 <= g < n
        ensures result[row][g] == Dot(a, b, row, g, k)
      {
        TilingKeepsProducts(a, b, tiles, m, k, n, row, g / 16, g % 16);
      }
    }
  }

  /** Delivered reference words survive the signed view. */
  lemma WordsStay(t: SfpuReference.Tables, d: SfpuPackets.Descriptor, planes: seq<SfpuPackets.Plane>)
    requires SfpuPackets.EvaluateAndPack(t, d, planes).Ok?
    ensures var outputs := SfpuPackets.EvaluateAndPack(t, d, planes).value.1;
            UnsignedWords(SignedWords(outputs)) == outputs
  {
    SfpuPackets.OutputsFit(t, d, planes);
    WordsRoundTrip(SfpuPackets.Evaluate(t, d, planes).value);
  }
}
