# PocketAI: verified model of the exact integer inference core

PocketAI runs GPT-2 with int8 weights on a small accelerator. Its central claim is that several
independent programs compute the same integers: a Python reference on unbounded integers, a
fixed-width C kernel, packet builders and a DMA driver, cached token decoding, a binary model image
and its checker, and firmware variants derived from one another. This project models those programs
in Dafny and proves the claims for all inputs.

The project has no dependencies; `dafny verify dfyconfig.toml` checks everything.

## How it is organized

| file | content |
|---|---|
| Rounding, FixedWidth | round-half-even and its characterization; uint64 rounding with its wrap; 128-bit comparison of a square; the seeded square root search |
| SfpuReference, SfpuPackets | the seven operators on unbounded integers; descriptors and packets |
| SfpuLaws | what each operator must deliver, without the functions that compute it: the reference obeys, and the laws leave no freedom |
| Softmax, LayerNorm, Int8Bridge | laws of the reference: conservation of softmax mass, bounds of LayerNorm, the int8 bridge |
| NativeSfpu | the C kernel in its own loops over arrays, proved against the reference |
| Gemm, GemmPackets | tiling, 16-lane accumulation, three input packers, output packing |
| DmaTraces | histories of a DMA engine: what may follow what, the state a history leaves, and what a safe history means |
| DmaBackend | the driver object over a device that may fail at any step; its flags and its transfer buffer are read off its history |
| CachedDecode, ModelRows, CausalCache, CausalStages, AdaptiveSmoothing | the forward pass, its cache, and why cached decode equals recomputation |
| PassLaws, RowLaws | what a forward pass and every row operation is, in column ranges, cache positions, dot products and nearest-even quotients |
| ValueLoops | the original and the interchanged V-requantization loops |
| StackBound | the memoised call-graph bound |
| BiasCache | the tagged bias cache of the prompt projection |
| ArenaLayout, ArenaHeader, ArenaImage | placement, header, export and independent check of the model image |
| SramEnvelope | the restricted SRAM envelope over bilinear interpolation |

Code that only computes values is modelled by functions; loops, buffers and objects by methods, arrays
and classes. Where a loop or object is modelled, the same file defines the function or predicate it is
proved against, and lemmas say what that function guarantees. A function that is itself a model of source
code is not left to speak for itself: the files named Laws, and the lemmas ending in `Is`, say by an
equivalence what its result is, in terms that do not mention it.

## What was found

* The comment of `softmax_int` says each entry differs from its exact share by less than one unit.
  That is false when a share divides exactly and the entry is still corrected:
  `SoftmaxProperties.StrictBoundFails` gives a row over the real table, and
  `SoftmaxProperties.StrictlyCloseWhen` proves exactly when the bound holds.
* `uround` computes `2 * r` in 64 bits. `FixedWidth.URoundExact` shows when the wrap cannot change the
  result and `FixedWidth.URoundWraps` gives a call where it does; every call in the kernel is in the
  safe range.
* The rolling row cache starts with the tag `UINT32_MAX`, which a residual exponent may equal. Reuse is then
  requested on an unpopulated cache, and it is harmless only because the candidate check declines the
  row before the leaf reads it; `BiasCache.ProjectRow` states this precondition.
* `pa_scalar_quantize24` truncates the shifted product to 32 bits before it saturates. `ValueLoops.Quantize24Exact`
  shows for which int32 values and uint32 multipliers that cannot be seen, and `ValueLoops.Quantize24Truncates`
  gives a call that returns 0 instead of 127; on the domain the header names, with the multipliers the
  runtime computes, the truncation never acts.
* A layout that ends exactly at the arena size minus the reserved bytes is refused, because the unused
  region would be empty; `ArenaLayout.BuildLayout` states the strict inequality.

## Model

| member | source | states |
|---|---|---|
| Rounding.RneNearest | ref/sfpu_ref.py:24-32 | the result is a nearest integer to the quotient, and the even one on a tie |
| Rounding.NearestEvenUnique | ref/sfpu_ref.py:24-32 | only one integer has that property, so it specifies rne_div completely |
| Rounding.RneDiv | ref/sfpu_ref.py:24-32 | raises exactly for a nonpositive denominator and otherwise returns that integer |
| Rounding.RneShiftIsRne | ref/gpt2_quantized.py:16-27 | each element of rne_shift is rne_div of it by the power of two |
| FixedWidth.URoundExact | zynq/m4_cpu_sfpu.c:9-12 | uint64 rounding is exact if and only if the remainder is below 2^63, and one too small otherwise; denominators up to 2^63 are always safe |
| FixedWidth.URoundWraps | zynq/m4_cpu_sfpu.c:9-12 | a call whose doubled remainder wraps and rounds wrongly |
| FixedWidth.SRoundIsRne | zynq/m4_cpu_sfpu.c:14-18 | signed rounding equals the reference for every int64 above the smallest and every denominator up to 2^63 |
| SquareRoot.SquareWordsExact | zynq/m4_cpu_sfpu.c:27-31 | the two words computed from 32-bit halves, with the carry, are the exact 128-bit square |
| SquareRoot.SquareCompare | zynq/m4_cpu_sfpu.c:27-34 | the comparison has the sign of root^2 minus the two-word radicand |
| SquareRoot.RadicandCarry | zynq/m4_cpu_sfpu.c:36-40 | high and low word with the carry are variance * 2^24 + epsilon |
| SquareRoot.LnDenominator | zynq/m4_cpu_sfpu.c:36-48 | for every seed below 2^63 - 1 both searches end, at exactly the floor square root; the seed does not matter |
| SoftmaxProperties.SoftmaxMass | ref/sfpu_ref.py:130-151 | with a valid entry the outputs sum to exactly 32768, masked and zero-weight entries are 0, and each output is its floor or that plus one |
| SoftmaxProperties.LeftoverFits | ref/sfpu_ref.py:139-150 | the mass left by the floors is nonnegative and smaller than the number of nonzero weights, so the correction always ends with remainder 0 |
| SoftmaxProperties.CorrectMass | ref/sfpu_ref.py:145-148 | the correction loop hands one unit to each of the first nonzero weights and reports what it could not place |
| SoftmaxProperties.SoftmaxInt | ref/sfpu_ref.py:130-151 | raises exactly on malformed planes and otherwise conserves the mass |
| SoftmaxProperties.StrictlyCloseWhen | ref/sfpu_ref.py:142-144 | an entry is strictly closer than one unit if and only if it is not a corrected entry with an exactly divisible share |
| SoftmaxProperties.StrictBoundFails | ref/sfpu_ref.py:142-144 | a row of the real table whose first share is exactly 16384 and comes out 16385 |
| SoftmaxProperties.CenteringChangesNothing | ref/gpt2_scaled.py:123-137 | softmax_int of the centered, clipped scores equals the table softmax of the unbounded rounded scores |
| LayerNormProperties.SpreadNonNegative | ref/sfpu_ref.py:92-94 | the variance numerator L*T - S^2 is never negative |
| LayerNormProperties.TermRanges | ref/sfpu_ref.py:91-99 | sums, variance numerator and radicand stay within 42, 54 and 80 bits for every legal row |
| LayerNormProperties.DenominatorPositive | ref/sfpu_ref.py:99-101 | the denominator is the positive floor root below 2^40, so the assertion cannot fire |
| LayerNormProperties.LayerNormDefined | ref/sfpu_ref.py:85-107 | raises exactly on malformed planes and returns int16 values |
| LayerNormProperties.NormalizedBound | ref/sfpu_ref.py:95-106 | 4096^2 (L x - S)^2 <= (L - 1)(D + 1)^2 for every element |
| LayerNormProperties.TranslationInvariant | ref/sfpu_ref.py:85-107 | adding one constant to all inputs, within int16, leaves the output identical |
| Int8Bridge.MultiplierNearPeak | ref/sfpu_ref.py:182-192 | the multiplier times the peak is within half a peak of 127 * 2^24 |
| Int8Bridge.CodeNeverClips | ref/gpt2_quantized.py:39-46 | every code is in [-127, 127], a peak element maps to plus or minus 127, and the code is within half a unit of its exact value |
| Int8Bridge.CodesNeverClip | ref/gpt2_quantized.py:39-46 | so the clip of a whole column never acts |
| Int8Bridge.RuntimeRequantParameters | ref/m3_packets.py:86-99 | the row reduction over packet words returns the multiplier of the reference |
| Int8Bridge.BridgesAgree | ref/sfpu_ref.py:172-192 | the three implementations of the bridge produce the same codes |
| SfpuPackets.PacketRoundTrip | ref/sfpu_stream.py:52-77 | the planes are recovered from the packet that evaluate_and_pack builds |
| SfpuPackets.AcceptsExactlyTheDomain | ref/sfpu_stream.py:52-71 | the reference accepts exactly the valid descriptors with planes of the right kind, number, length and range |
| SfpuPackets.OutputsFit | ref/sfpu_stream.py:72-77 | every reference output is an int32, so the output words lose nothing |
| SfpuPackets.PlaneLayout | ref/sfpu_stream.py:74-75 | the input words are the planes one behind the other, modulo 2^32 |
| SfpuPackets.ScoreLayout | ref/sfpu_stream.py:72-73 | a score word carries the low half of the score and the validity in bit 16 |
| SfpuLaws.ReferenceObeys | ref/sfpu_ref.py:66-179 | for every request in the domain the reference result obeys the law of its operator: table lookup and mirror for GELU; nearest-even quotient over the floor root, then bias, then saturation for LayerNorm; interpolated weights and first-nonzero correction for softmax; scaling, bias and saturation for the rest |
| SfpuLaws.LawDetermines | ref/sfpu_ref.py:66-179 | two outputs that obey the law of a request are equal, for all seven operators |
| SfpuLaws.LayerNormElement | ref/sfpu_ref.py:95-106 | with any floor root of the radicand and any nearest-even quotient, the element is that quotient plus the bias, saturated |
| SfpuLaws.LayerNormOfConstant | ref/sfpu_ref.py:85-107 | a row of equal elements comes out as the bias, whatever the gain |
| NativeSfpu.LayerNorm | zynq/m4_cpu_sfpu.c:74-89 | the native LayerNorm writes the reference row, with every intermediate in range |
| NativeSfpu.SoftmaxRow | zynq/m4_cpu_sfpu.c:90-117 | the native softmax writes the reference row and never returns -4 |
| NativeSfpu.PaM4Sfpu | zynq/m4_cpu_sfpu.c:63-134 | for every descriptor and packet the status is exactly as the source orders its checks; it is 0 exactly when the planes in the packet are in the domain, and then the outputs are the reference result and obey the operator's law |
| NativeSfpu.RunPacket | ref/m4_cpu_sfpu.py:22-38 | for every valid descriptor and all planes in the domain the kernel returns 0 on the built packet and delivers the one output that obeys the operator's law |
| Matrices.DotBound | ref/gemm_v3_ref.py:26-36 | every dot product of int8 rows with K <= 3072 stays below 2^26 in magnitude |
| WeightTiles.TileWeights | ref/m4_model_pack.py:20-29 | the tiles hold every weight once in its place and zeros elsewhere; other shapes raise |
| WeightTiles.TilingKeepsProducts | ref/m4_model_pack.py:20-29 | the dot product with a tile column is the dot product with the untiled column |
| WeightTiles.PaddingIsZero | ref/m4_model_pack.py:25-28 | products with padding columns of the ragged last tile are zero |
| NativeGemm.LaneStep | zynq/m4_cpu_gemm.c:46-50 | one more product keeps a lane equal to its partial sum and below 2^26 |
| NativeGemm.PaM4Gemm | zynq/m4_cpu_gemm.c:20-57 | exactly A * B in row-major order for all legal sizes, -1 and nothing written otherwise |
| NativeGemm.TileMemoryHolds | zynq/m4_cpu_gemm.c:27-34 | the contiguous tiles stand where the kernel's index arithmetic looks for them |
| NativeGemm.RunTiled | zynq/m4_cpu_gemm.c:20-57 | the kernel on tile_weights(B) returns A * B for every legal shape, and other shapes raise |
| GemmPackets.PackGemmInto | zynq/m4_driver.py:17-33 | fills exactly the packet bytes in place, keeps the rest, and refuses bad sizes untouched |
| GemmPackets.PackInputWords | ref/gemm_ref.py:93-115 | the nested loops append exactly the words of the packet |
| GemmPackets.PackInputV3 | ref/gemm_v3_ref.py:39-53 | the padded arrays viewed as words are the same stream |
| GemmPackets.PackersAgree | ref/gemm_ref.py:93-115 | the in-place packer and the two list packers emit one stream of input_words words |
| GemmPackets.StreamDetermines | ref/gemm_ref.py:86-115 | for given dimensions that stream determines A and B uniquely |
| GemmPackets.StreamRow | zynq/m4_driver.py:24-31 | the stream starts with A row by row, each row zero-padded to whole words |
| GemmPackets.StreamTile | zynq/m4_driver.py:24-32 | behind it stand the rows of the tile, and nothing else |
| GemmPackets.WordLanes | ref/gemm_ref.py:93-115 | each word carries four bytes, least significant first |
| GemmPackets.PackOutputWords | ref/gemm_ref.py:118-138 | each word carries two int16 lanes, padding lanes are zero |
| GemmPackets.UnpackOutputWords | ref/gemm_ref.py:141-156 | reads lane by lane with a running index and keeps the active columns; an invalid descriptor or a wrong word count raises |
| GemmPackets.OutputRoundTrip | ref/gemm_ref.py:118-156 | unpacking the packet of a matrix returns that matrix |
| DmaTraces.SafeMeansSettled | zynq/m4_driver.py:94-128 | before the transfer buffer is overwritten, a request is started or the buffers are freed, every earlier transfer was seen idle or the DMA was reset |
| DmaTraces.ChangeIsRewrite | zynq/m4_driver.py:130-158 | the contents that a history leaves in the transfer buffer change only by a recorded write, made while no transfer is active, nothing has failed and the buffers are owned |
| DmaTraces.ClearedByRecovery | zynq/m4_driver.py:173-193 | a failed flag that is clear later was cleared in between, directly behind a whole recovery sequence |
| DmaTraces.FailureBlocks | zynq/m4_driver.py:94-194 | after a failure no request is started, nothing is submitted and the transfer buffer is not rewritten before a recovery sequence begun after it has completed |
| DmaBackend.FpgaBackend.Transfer | zynq/m4_driver.py:110-113 | either handover may raise, the second with the receive channel already active; on success exactly both handovers and both idle channels are recorded, in this order; otherwise the device denied one of them |
| DmaBackend.FpgaBackend.Attempt | zynq/m4_driver.py:100-125 | success records exactly the route change, descriptor, error read, both handovers, both idle channels, the expected byte counts, the tag and the completion count, returns the engine's reply to the bytes in the buffer and accounts for it; it raises only where the device denied one of these, with the counters unchanged |
| DmaBackend.FpgaBackend.Execute | zynq/m4_driver.py:94-128 | the same on a ready backend, where a request inside the buffers fails only after a denial and marks the backend failed, and one outside them is refused without a trace; a failed or closed backend raises and does nothing |
| DmaBackend.FpgaBackend.Recover | zynq/m4_driver.py:173-193 | succeeds exactly when the flag is clear afterwards, with the failure mark, the complete sequence and the clearing as its only events; on an open backend it fails only where the device denied a step; a closed backend is left alone |
| DmaBackend.FpgaBackend.Close | zynq/m4_driver.py:195-206 | frees both buffers after a reset; retains both and marks failure exactly when the reset was denied; closing twice does nothing |
| DmaBackend.FpgaBackend.RequestTile | zynq/m4_driver.py:141-142 | on success the events are the write of exactly this packet and the whole exchange, and the reply is the engine's reply to the packet; operands that fit a packet are refused only after a denial |
| DmaBackend.FpgaBackend.Gemm | zynq/m4_driver.py:130-149 | the result is gathered column by column from the engine's replies to one request a tile, which on an engine that meets the packet contract is A * B, ragged tile included; illegal operands raise ValueError and leave no trace; legal ones on a ready backend with a conforming engine fail only after the device denied a step |
| DmaBackend.FpgaBackend.Sfpu | zynq/m4_driver.py:151-160 | on success the events are the write of the packet words and the whole exchange, the result is the engine's reply, and on an engine that meets the packet contract the reference output; an invalid request leaves no trace, and a valid one on a ready backend fails only after a denial |
| DmaBackend.FpgaBackend.Run | zynq/m4_driver.py:130-206 | over any sequence of gemm, sfpu, recover and close calls and any device behaviour: the history is safe; both flags and the bytes of the transfer buffer are read off it, so the buffer changes only by writes to a usable buffer; failed is cleared only by a complete recovery and, with a conforming engine, set only after a denial; a failed backend does nothing without recover or close; a closed one does nothing at all |
| DmaBackend.ContractsAreMeetable | zynq/m4_driver.py:141-158 | both packet contracts assumed of an engine are met by one engine, because a request determines its operands |
| DmaBackend.ColumnsAreProduct | zynq/m4_driver.py:139-147 | the gathered active columns of all tiles are the product with the untiled matrix |
| Batches.MapAllSplits | ref/gpt2_quantized.py:103-120 | a stage applied row by row to a batch is the batch of its parts, failures included |
| CausalStages.EarlierRows | ref/gpt2_quantized.py:150-162 | attention rows of the prefix never look at rows behind them |
| CausalStages.LaterRows | ref/gpt2_quantized.py:146-162 | attention rows of the suffix see through the cache what a full pass sees |
| CausalStages.AttentionSplits | ref/gpt2_quantized.py:138-163 | attention over a split batch, cache growth included, is attention over the parts |
| CausalStages.StagesAreCausal | ref/gpt2_scaled.py:185-214 | every layer stage built from row-wise operations is causal |
| AdaptiveSmoothing.SmoothIsRowwise | ref/gpt2_adaptive.py:17-33 | smoothing of a batch, with its any-row overflow branch, equals smoothing each row alone |
| AdaptiveSmoothing.ModelIsRowwise | ref/gpt2_adaptive.py:17-40 | all operations of the three models are row-wise |
| CausalCache.CachedForwardEqualsFull | ref/gpt2_quantized.py:122-180 | for every nonempty split: same success, same twelve-layer cache, same logits |
| CausalCache.FullForwardNeedsPrefix | ref/gpt2_quantized.py:122-180 | a full forward with all logits succeeds only if its prefix does |
| CausalCache.GenerateWith | ref/gpt2_quantized.py:182-192 | the generation loop over any pass whose steps agree equals recomputation |
| CausalCache.Generate | ref/gpt2_quantized.py:182-192 | cached greedy generation equals generation by full recomputation, errors included |
| AdaptiveSmoothing.CachedDecodeEqualsRecomputation | ref/gpt2_scaled.py:172-228 | the cache theorem for the quantized, scaled and adaptive models |
| AdaptiveSmoothing.GenerateTokens | ref/gpt2_quantized.py:182-192 | the generation theorem for the three models, started without a cache |
| PassLaws.AttentionIs | ref/gpt2_quantized.py:138-163 | attention succeeds with a result exactly when every head's keys grow by columns 768 + 64 h and its values by columns 1536 + 64 h of each row, and columns 64 h of context row r are the cell of query columns 64 h over the first past + r + 1 positions |
| PassLaws.PassObeys | ref/gpt2_scaled.py:172-228 | whatever a forward pass returns obeys the laws of a pass: embedding at past + i, twelve layers with their norms, projections, attention, residuals and caches, final norm, logits of all rows or the last |
| PassLaws.PassSucceeds | ref/gpt2_scaled.py:172-228 | conversely the pass returns whatever obeys them, so it raises only where nothing does |
| RowLaws.AffineIs | ref/gpt2_quantized.py:98-101 | affine is one scaling with the common shift, rounded to even, plus bias, saturated; it fails exactly where the metadata, the lengths or int64 fail |
| RowLaws.ColumnIs | ref/gpt2_quantized.py:39-46 | a dynamic column has the nearest-even factor of its own peak and the saturated nearest-even codes |
| RowLaws.LinearIs | ref/gpt2_quantized.py:111-120 | a projection is the codes of the row, their dot products with every column, and the affine step |
| RowLaws.ProjectedIs | ref/gpt2_scaled.py:145-170 | a projection with common units: exponent chosen from the exact sums, branch at that exponent, residual aligned to it and added with one saturation |
| RowLaws.NormRowIs | ref/gpt2_scaled.py:94-118 | the norms of all models: bias before the only saturation, or narrow, rescale and add when the gain is decomposed |
| RowLaws.ContextCellIs | ref/gpt2_quantized.py:150-162 | one cell: query codes times key codes give the scores, softmax the probabilities, their codes times the per-feature codes of the prefix values the context |
| RowLaws.SmoothedIs | ref/gpt2_adaptive.py:17-33 | a row is smoothed at exponent zero unless its own scaled values leave int16, and then with its own exponent |
| RowLaws.AddedRowIs | ref/gpt2_scaled.py:210-214 | projection into the residual stream on a single row, for all three models |
| RowLaws.EmbedRowIs | ref/gpt2_quantized.py:131-131 | an embedded row is the saturated sum of token and position rows |
| RowLaws.HeadRowIs | ref/gpt2_scaled.py:225-225 | the vocabulary projection of a row |
| RowLaws.ForwardIsPass | ref/gpt2_scaled.py:172-228 | for the three models: forward succeeds with exactly the logits and caches that obey the laws of a pass |
| RowLaws.PickIs | ref/gpt2_quantized.py:187-188 | the token that recomputation picks is the first largest logit of the last row of a lawful pass |
| ValueLoops.Quantize24Exact | runtime/m5_scalar/quantize.h:22-32 | for every int32 value and uint32 multiplier the firmware code is the reference code if and only if the rounded product is below 2^32 or its low word saturates as well |
| ValueLoops.Quantize24Truncates | runtime/m5_scalar/quantize.h:25-31 | a value and a multiplier whose shifted product is truncated to 0 where the reference saturates at 127 |
| ValueLoops.Quantize24Matches | runtime/m5_scalar/quantize.h:19-32 | on [-32768, 32768] with any multiplier below 2^31 the firmware code is the reference code |
| ValueLoops.OriginalLoops | scripts/m5_scalar_sources.py:148-161 | per-feature loops through an int8 matrix give the specified units and four tiles |
| ValueLoops.InterchangedLoops | scripts/m5_scalar_sources.py:162-181 | the interchanged loops, with multipliers overwritten in place and no matrix, give the same units and tiles |
| ValueLoops.SpecificationDetermines | scripts/m5_scalar_sources.py:148-181 | the specification fixes every unit and every tile entry, so the two forms agree |
| ValueLoops.TilesAreDynamicColumns | ref/gpt2_quantized.py:160-161 | the tiles hold dynamic_columns of the causal V prefix |
| ValueLoops.TileCode | scripts/m5_scalar_sources.py:175-181 | entry 16 p + c of tile t is the code of value 64 p + 16 t + c by the factor of the largest magnitude of that feature over the cached positions |
| ValueLoops.UnitEntry | scripts/m5_scalar_sources.py:173-174 | and the unit of the feature belongs to the same magnitude |
| StackBound.GroundedHasNoDefect | scripts/check_m5_startup_stack.py:80-86 | a function with a finite bound reaches no cycle and no unresolved callee |
| StackBound.BoundIsUnique | scripts/check_m5_startup_stack.py:84-85 | value and path are unique, ties resolved in tuple order |
| StackBound.StackChecker.Bound | scripts/check_m5_startup_stack.py:79-86 | terminates on every finite graph, raises exactly when a cycle or unresolved callee is reachable, else returns the largest frame sum of any call chain and its chain |
| StackBound.StackChecker.Check | scripts/check_m5_startup_stack.py:87-90 | passes with both bounds only if no pair of chains from the two entry points exceeds 4096 bytes, and fails only on a defect or an excess |
| BiasCache.OwnersDisjoint | scripts/m5_startup_bias_reuse.py:36-40 | workers on disjoint ranges write disjoint halfwords and no output overlaps a cached bias |
| BiasCache.Step | scripts/m5_startup_bias_reuse.py:21-27 | a reused bias and a fresh one give the same element, and populating leaves the fresh rounding in the cache |
| BiasCache.Leaf | runtime/m5_startup/fused_project.c.inc:18-77 | a worker succeeds exactly when every element does, and then has stored its outputs, extents and cache entries |
| BiasCache.RunWorkers | runtime/m5_context/parallel.c:37-58 | under every interleaving of the two workers' iterations the row succeeds exactly when all its elements do, with the same outputs, extents and cache |
| BiasCache.ExtentSplits | runtime/m5_startup/fused_project.c.inc:112-114 | the two workers' extents combine to the extents of the row |
| BiasCache.ProjectRow | runtime/m5_startup/fused_project.c.inc:79-127 | status and published row equal the uncached row; 1 is returned exactly when the row is acceptable, -40 exactly on a worker fault; nothing is published unless the row is accepted, and then the cache holds every bias |
| BiasCache.AcceptedIs | runtime/m5_startup/fused_project.c.inc:47-118 | a row is accepted with these values exactly when its checks pass, every branch sum plus rounded bias exists, the certificate keeps all of them within 32700 and, at a nonzero candidate, one of them above 16350, and the values are those sums saturated, plus the residual, saturated again |
| BiasCache.PublishedExactly | runtime/m5_startup/fused_project.c.inc:53-72 | under the certificate no saturation acts: each published halfword is the exact sum with the residual |
| BiasCache.ResultIs | scripts/m5_startup_bias_reuse.py:51-61 | a delivered row is an accepted one, and the slow path's only where none is acceptable and no worker faults |
| BiasCache.Project | scripts/m5_startup_rolling_rows.py:20-37 | over any rows, exponents, acceptances and fallbacks the rolling cache delivers what the uncached rows would |
| BiasCache.ProjectEqualRows | scripts/m5_startup_bias_reuse.py:36-61 | so does the earlier form that needs equal exponents and stops at the first fallback |
| BiasCache.DeliveryIsUnique | scripts/m5_startup_bias_reuse.py:63-94 | delivery determines status, exponents and outputs, so cached and uncached loops agree |
| ArenaLayout.ArraysAscend | ref/m5_arena.py:61-73 | arrays are 64-byte aligned, ascending and apart, between the header and the page-aligned model end |
| ArenaLayout.RegionsTile | ref/m5_arena.py:75-97 | every address lies in exactly one region |
| ArenaLayout.WritableIsGuarded | ref/m5_arena.py:90-97 | an unmapped page lies directly before and after every writable region |
| ArenaLayout.EveryByteCounted | ref/m5_arena.py:102-104 | mapped plus unmapped bytes are the whole span |
| ArenaLayout.PlanSpansArena | ref/m5_arena.py:89-97 | the plan ends exactly at the end of the arena |
| ArenaLayout.RegionTable.Add | ref/m5_arena.py:79-87 | appends a region at the cursor, or refuses and changes nothing |
| ArenaLayout.BuildLayout | ref/m5_arena.py:54-105 | succeeds exactly for a matching complete manifest that fits, and returns that layout |
| ArenaLayout.LayoutSound | ref/m5_arena.py:54-105 | what every accepted layout guarantees, in one statement: arrays aligned, ordered, apart and inside the model region, every address in exactly one region, all bytes counted, and an unmapped page on both sides of every writable region |
| ArenaLayout.ModelFits | ref/m5_arena.py:31-51 | the real inventory fits with twelve layers, 248 arrays, ending at byte 205340672, and with no other layer count |
| ArenaLayout.PlanIs | ref/m5_arena.py:87-94 | the fifteen regions by name, size and permissions |
| ArenaLayout.Inventory | ref/m5_arena.py:31-51 | the arrays in order: embeddings, twenty arrays a layer, final norm, vocabulary projection |
| ArenaLayout.LayerInventory | ref/m5_arena.py:35-48 | names, types and shapes of the twenty arrays of a layer |
| ArenaHeader.MakeHeader | ref/m5_arena.py:108-124 | packs field by field and raises struct.error exactly when some row has a field out of range or too many of them; otherwise every byte of the header is as described |
| ArenaHeader.PackInto | ref/m5_arena.py:113-123 | raises exactly on a wrong field count or a field outside 32 bits; otherwise the fields read back, and no byte outside the row changes |
| ArenaHeader.HeaderIsUnique | ref/m5_arena.py:108-124 | no byte of the header is left open by its description |
| ArenaHeader.HeaderRecords | ref/m5_arena.py:115-123 | reading a header recovers every offset, size, type, shape and permission |
| ArenaHeader.FixedWords | ref/m5_arena.py:110-113 | the sixteen words in front by value, little endian, magic first |
| ArenaHeader.ArrayRow | ref/m5_arena.py:116-120 | the eight words of an array row by place and value |
| ArenaHeader.RegionRow | ref/m5_arena.py:121-123 | the eight words of a region row by place and value |
| ArenaHeader.LayoutExpressible | ref/m5_arena.py:115-123 | the header of a built layout can be written exactly when its shapes fit three 32-bit fields |
| ArenaHeader.ModelShapesSmall | ref/m5_arena.py:31-51 | which the real inventory meets |
| ArenaImage.WriteImage | ref/m5_arena.py:147-157 | truncation, header and chunked payload writes produce the canonical image |
| ArenaImage.ImageIsUnique | ref/m5_arena.py:147-157 | no byte of the image is left open |
| ArenaImage.CompareArrays | ref/m5_arena.py:184-201 | the comparison loop accepts exactly the written arrays, zero padding, zero tail and recorded digests, and counts the payload bytes |
| ArenaImage.VerifyExport | ref/m5_arena.py:165-208 | accepts exactly under the stated condition and reports all payload bytes as compared |
| ArenaImage.AcceptsOnlyTheExport | ref/m5_arena.py:139-202 | with the exported document the checker accepts an image if and only if every byte equals the exported one, for any hash function |
| ArenaImage.ExportModel | ref/m5_arena.py:139-162 | refuses an existing directory; whatever it writes passes its own check |
| SramEnvelope.CutIsRowMajor | scripts/m6_electrical_screen.py:50-50 | the value list is cut into rows without loss or transposition |
| SramEnvelope.TableIsRowMajor | scripts/m6_electrical_screen.py:46-50 | an accepted table keeps its axes and holds every value of the list in its place |
| SramEnvelope.NodeExact | scripts/m6_electrical_screen.py:53-63 | interpolation at a grid point returns the tabulated value |
| SramEnvelope.CellExact | scripts/m6_electrical_screen.py:53-63 | at every point of every cell, edges included, interpolation is the function through the four corners that is linear in each coordinate |
| SramEnvelope.BilinearIs | scripts/m6_electrical_screen.py:62-63 | p + q x + s y + r x y is such a function for all p, q, s, r |
| SramEnvelope.PlaneExact | scripts/m6_electrical_screen.py:53-63 | a table sampled from such a function interpolates to it everywhere in the domain |
| SramEnvelope.DomainOnly | scripts/m6_electrical_screen.py:55-58 | exactly the characterized domain is accepted |
| SramEnvelope.BlendBound | scripts/m6_electrical_screen.py:62-63 | a bilinear blend never exceeds a bound on the corners that carry weight |
| SramEnvelope.DeriveEnvelope | scripts/m6_sram_contract.py:19-39 | raises exactly on empty, differing or nowhere safe tables, else reports the contiguous safe loads and their worst value |
| SramEnvelope.InsideMeetsLimit | scripts/m6_sram_contract.py:19-39 | every point inside the envelope interpolates in every table to at most the reported worst value and the limit |
| SramEnvelope.WorstIsReached | scripts/m6_sram_contract.py:36-37 | the reported worst value occurs inside the envelope |
| SramEnvelope.NextLoadFails | scripts/m6_sram_contract.py:27-34 | the load range cannot be extended by one grid load |

## Left out

- Floating point: scale metadata, calibration, `epsilon_correction`, `storage_exponent` and the table generation are opaque functions or given constants with stated facts (lengths, `EXP_TABLE[0]`, value ranges); quality claims are not modelled.
- The floating seed of the square root search is a parameter; the theorem holds for every seed below 2^63 - 1, where the comparison cannot wrap.
- NEON intrinsics: only the portable lanes of `pa_m4_gemm` are modelled.
- The accelerator is an arbitrary function of route, parameters and packet words; register reads may return anything, and only the GEMM and SFPU packet contracts are assumed where a result is claimed.
- The driver's constructor failures, view caches, cycle counters and wall-clock deadlines; a deadline is a bounded number of polls.
- Asynchronous interrupts such as `KeyboardInterrupt` during `execute`, which the source does not turn into a failure mark either.
- SHA-256 is an arbitrary function; file hashes and the frozen-pack check enter as results of loading.
- The multiplier memo of `pa_scalar_dynamic`: the multiplier is computed each time.
- Files, directories, JSON text and memory mapping: a document is its parsed fields and an image its bytes.
- Statistics, maxima, captured traces and `numpy` dtype or shape checks that the types of the model make impossible.
- Parsing of disassembly and Liberty text: the stack bound starts from the graph, the envelope from the tables.
- The fixed-weight cache and `fixed_branch.h` of the derived projection: a branch value is an opaque function of the row and the index, so only the bias cache is claimed exact.
- BiasCache.RunWorkers: the two workers interleave by whole loop iterations; finer interleavings of single loads and stores are not modelled, and their write sets are disjoint.
- GEMM saturation to int16 (`gemm_int8_int16`) and `pack_output_v3`, which add only single clips and pads to what is proved.
- Audit, staging, packaging, benchmark and plotting scripts, RTL, and `scripts/m6_spi_host.py`.
