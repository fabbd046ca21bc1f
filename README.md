# SRLA in Dafny

A verified model of the core of SRLA, a lossless audio codec. The model covers:

- the bit stream that every coder writes into and reads from;
- the entropy codes of the residual coder (gamma, Rice and two-stage
  "recursive Rice" codes, partitioned by a power of two) and the static
  Huffman coder;
- the integer helpers of `srla_utility` (zig-zag map, log2, round-up,
  stereo decorrelation, two-stage pre-emphasis, Fletcher-16);
- integer LPC and LTP prediction and synthesis, including the `lpc`
  library's `LPC_Predict`, `LPC_Synthesize` and `LPC_QuantizeCoefficients`;
- the container framing of the encoder and decoder: the 29-byte header,
  11-byte block headers, raw and silent blocks, and the block loops;
- the WAV reader and writer;
- the bookkeeping of the benchmark script `evaluation/evaluate_codecs.py`.

Each C file is modelled in the form it takes in the source:

- **Stateful code becomes classes.** `struct BitStream` is the class
  `BitStreams.BitStream`, with its `memory` array and registers. The
  coder's partition-mean cache is `SrlaCoder.Coder`. The pre-emphasis
  filter, the encoder and decoder handles, the WAV parser and writer,
  and the benchmark's file system are classes too.
- **Loops become methods.** Every loop in the source is a `method` with a
  `while` loop. Each such method is proved against a specification
  function: `LpcResidual`, `Encoded`, `RawPayload`, `ParseFormat`,
  `Interleaved`, `BuildTree`, `CodeTable` and so on.
- **Properties are lemmas about those functions.** They cover round
  trips, bounds and error precedence.

The model is split into modules as follows:

- **Bit level.** `Bits`, `BitRegisters`, `BitStreams` and `SoftBits`.
- **Entropy coding.** `SrlaCodes`, `CodeIO`, `SrlaPartition`, `SrlaCoder`
  and `StaticHuffman`.
- **Integer helpers.** `SrlaUtility`, `Stereo`, `Fletcher16`, `Emphasis`
  and `FixedPoint`.
- **Prediction.** `SrlaLpcPredict`, `SrlaLpcSynthesize` and `Lpc`.
- **Container.** `SrlaFormat`, `SrlaEncoder`, `SrlaDecoder` and
  `SrlaRoundTrip`.
- **WAV.** `WavFormat`, `WavParser`, `WavWriter`, `WavApi` and
  `WavRoundTrip`.
- **Benchmark.** `EvaluateCodecs`.

Some inputs are parameters of the model rather than computed by it:

- **Floating-point decisions in the encoder.** These are the
  pre-emphasis coefficient before clamping, the optimal Rice parameters,
  the code-length estimate that selects raw blocks, and the compressed
  payload of a block. They appear as `Estimates`, `BlockCoder` and
  `BlockDecompressor` values.
- **External tools, clocks and the audio file reader in the benchmark.**
  They appear as `ToolRun` and `SourceFile`.
- **File I/O.** A file is its byte contents, plus a flag saying whether
  `fopen` succeeded.

Integers are unbounded. Wherever the source relies on 32-bit unsigned
wrap-around, the model writes it out as `% 0x1_0000_0000` or uses a `bv32`.

## Model

| member | source | states |
|---|---|---|
| BitStreams.BitStream.constructor | libs/bit_stream/include/bit_stream.h:28-36 | a fresh stream has no memory, zero registers and is in write mode |
| BitStreams.BitStream.ReaderOpen | libs/bit_stream/src/bit_stream.c:54-77 | read mode on the given memory, `bit_count` 0, empty buffer, cursor at byte 0, nothing consumed |
| BitStreams.BitStream.WriterOpen | libs/bit_stream/src/bit_stream.c:80-103 | write mode, `bit_count` 32, empty buffer, cursor at byte 0, nothing written |
| BitStreams.BitStream.PutBits | libs/bit_stream/src/bit_stream.c:175-214 | the written bit sequence grows by exactly the low `nbits` bits of `val`, MSB first; the cursor advances 4 bytes per completed word; no other byte of memory changes; the writer invariant is kept |
| BitStreams.BitStream.PutZeroRun | libs/bit_stream/src/bit_stream.c:217-235 | appends `runlength` zeros then a one; a run of 2^32-1 wraps its 32-bit width to 0 and writes nothing |
| BitStreams.BitStream.GetBits | libs/bit_stream/src/bit_stream.c:238-288 | consumes exactly `nbits` bits and returns their big-endian value; refills 4 bytes exactly when the buffer holds fewer bits than asked |
| BitStreams.BitStream.GetZeroRunLength | libs/bit_stream/src/bit_stream.c:291-331 | returns the number of zeros before the next one and consumes the zeros and the one |
| BitStreams.BitStream.ReaderFlush | libs/bit_stream/src/bit_stream.c:339-343 | the cursor moves to the first byte not wholly consumed, and the buffer is cleared |
| BitStreams.BitStream.WriterFlush | libs/bit_stream/src/bit_stream.c:344-370 | the pending bits are stored, padded with zeros to a byte boundary; the writer is reset to `bit_count` 32 with an empty buffer |
| BitStreams.BitStream.Flush | libs/bit_stream/src/bit_stream.c:334-371 | a reader's memory is untouched and its cursor goes to the next unconsumed byte; a writer's output is padded to whole bytes |
| BitStreams.BitStream.Seek | libs/bit_stream/src/bit_stream.c:127-161 | flushes, then sets the cursor to `offset` from the start, from the flushed cursor, or from the last byte (END); a writer's output is then the bytes before the cursor |
| BitStreams.BitStream.Tell | libs/bit_stream/src/bit_stream.c:164-172 | returns the byte cursor; for a writer, 8 times it is the number of bits stored; for a reader, the bits consumed plus those still buffered |
| BitStreams.BitStream.Close | libs/bit_stream/src/bit_stream.c:106-124 | a writer's memory ends with everything written, padded to bytes; afterwards a reader has `bit_count` 0 and a writer 32, and the memory pointer, cursor and bit buffer are cleared |
| BitRegisters.Nlz | libs/bit_stream/include/bit_stream.h:41-55 | the number of leading zero bits of a 32-bit word, 32 for 0; the bit after them is a one |
| BitRegisters.ZeroRunLengthTable | libs/bit_stream/src/bit_stream.c:18-35 | the table entry for byte b is 8 minus the bit length of b |
| BitRegisters.TableZeros | libs/bit_stream/src/bit_stream.c:18-35 | the entry for b counts exactly the leading zeros of b as 8 bits, followed by a one unless b is 0 |
| BitRegisters.StoreStep | libs/bit_stream/include/bit_stream.h:266-279 | storing a full word MSB-first then keeping the remaining low bits loses and reorders no bit |
| Bits.Low | libs/bit_stream/include/bit_stream.h:25 | the low-bits mask yields a value below 2^k |
| Bits.BitsToNatOfNatToBits | libs/bit_stream/src/bit_stream.c:175-288 | reading back n bits written from v gives v mod 2^n, so PutBits then GetBits of the same width is the identity |
| Bits.NatToBitsOfBitsToNat | libs/bit_stream/src/bit_stream.c:238-288 | the other direction: writing the value of a bit sequence with its length reproduces the sequence |
| Bits.FromBEOfBE | libs/srla_decoder/src/srla_decoder.c:72-129 | big-endian fields of k bytes read back as v mod 2^(8k) |
| Bits.FromLEOfLE | libs/wav/src/wav.c:875-944 | little-endian fields of k bytes read back as v mod 2^(8k) |
| Bits.LEIsReversedBE | libs/wav/src/wav.c:875-893 | the little-endian bytes of a value are its big-endian bytes reversed |
| Bits.ReverseReverse | libs/wav/src/wav.c:925-944 | reversing byte order twice is the identity |
| SoftBits.NlzSoftCounts | libs/srla_internal/src/srla_utility.c:63-75 | the table-based NLZ, with the source's four smearing steps, returns 32 for 0 and otherwise the number of zero bits above the leading one |
| SoftBits.HashOfSmear | libs/srla_internal/src/srla_utility.c:63-75 | the masking step `x & ~(x >> 16)` gives the same hash whether or not the smear is first completed with its upper half |
| SoftBits.RoundUp2PoweredSoftCorrect | libs/srla_internal/src/srla_utility.c:78-88 | for 1 ≤ v ≤ 2^31 the result is a power of two, at least v, and half of it is below v |
| SrlaUtility.ShiftRightArithmetic | libs/srla_internal/include/srla_utility.h:16 | the arithmetic shift is the floor of x / 2^r, for negative x too |
| SrlaUtility.Sign | libs/srla_internal/include/srla_utility.h:19 | 1, 0 or -1 according to the sign of v |
| SrlaUtility.RoundUp | libs/srla_internal/include/srla_utility.h:21 | the least multiple of n that is at least val |
| SrlaUtility.Max | libs/srla_internal/include/srla_utility.h:23 | the larger of the two arguments |
| SrlaUtility.Min | libs/srla_internal/include/srla_utility.h:25 | the smaller of the two arguments |
| SrlaUtility.InnerValue | libs/srla_internal/include/srla_utility.h:27 | clamps to [lo, hi] when lo ≤ hi, leaving values inside unchanged |
| SrlaUtility.IsPoweredOf2Correct | libs/srla_internal/include/srla_utility.h:29 | the `v & (v-1)` test holds exactly for 0 and the powers of two |
| SrlaUtility.SignedToUnsigned | libs/srla_internal/include/srla_utility.h:31 | s ≥ 0 maps to 2s and s < 0 maps to -2s-1 |
| SrlaUtility.SignedRoundTrip | libs/srla_internal/include/srla_utility.h:31-33 | UINT32_TO_SINT32 undoes SINT32_TO_UINT32 |
| SrlaUtility.UnsignedRoundTrip | libs/srla_internal/include/srla_utility.h:31-33 | SINT32_TO_UINT32 undoes UINT32_TO_SINT32, so the map is a bijection |
| SrlaUtility.ZigZagBound | libs/srla_internal/include/srla_utility.h:31 | a b-bit signed value maps below 2^b |
| SrlaUtility.UnsignedBound | libs/srla_internal/include/srla_utility.h:33 | a value below 2^b maps into the b-bit signed range |
| SrlaUtility.Log2Ceil | libs/srla_internal/include/srla_utility.h:54 | the ceiling of log2 x for x ≥ 1, and 32 for x = 0 (the wrapped x-1) |
| SrlaUtility.Log2Floor | libs/srla_internal/include/srla_utility.h:56 | the floor of log2 x for x ≥ 1; 0 gives 31-32 wrapped to 2^32-1 |
| SrlaUtility.RoundUp2Powered | libs/srla_internal/include/srla_utility.h:59-65 | for 1 ≤ x ≤ 2^31, the least power of two that is at least x |
| Stereo.MidSideRoundTrip | libs/srla_internal/src/srla_utility.c:91-118 | MS to LR undoes LR to MS for every pair of samples |
| Stereo.MidSideOnto | libs/srla_internal/src/srla_utility.c:91-118 | LR to MS undoes MS to LR, so the conversion is a bijection |
| Stereo.MidBetween | libs/srla_internal/src/srla_utility.c:91-103 | the mid channel lies between left and right |
| Stereo.LeftSideRoundTrip | libs/srla_internal/src/srla_utility.c:121-146 | LS to LR undoes LR to LS |
| Stereo.LeftSideOnto | libs/srla_internal/src/srla_utility.c:121-146 | LR to LS undoes LS to LR |
| Stereo.SwapSideInvolution | libs/srla_internal/src/srla_utility.c:149-174 | the RS conversion applied twice is the identity, so RS to LR undoes LR to RS |
| Stereo.LRtoMS | libs/srla_internal/src/srla_utility.c:91-103 | each of the first n sample pairs becomes its mid/side pair; later samples are untouched |
| Stereo.MStoLR | libs/srla_internal/src/srla_utility.c:106-118 | each of the first n pairs becomes its left/right pair; later samples are untouched |
| Stereo.LRtoLS | libs/srla_internal/src/srla_utility.c:121-132 | channel 1 becomes the side channel; channel 0 and later samples are untouched |
| Stereo.LStoLR | libs/srla_internal/src/srla_utility.c:135-146 | channel 1 is restored from left and side; channel 0 and later samples are untouched |
| Stereo.SwapSideConversion | libs/srla_internal/src/srla_utility.c:149-174 | channel 0 becomes the RS value (both LRtoRS and RStoLR); channel 1 and later samples are untouched |
| Fletcher16.CalculateFletcher16CheckSum | libs/srla_internal/src/srla_utility.c:36-60 | the blockwise loop with delayed MOD255 returns the Fletcher-16 sum of the whole buffer |
| Fletcher16.FletcherStateSums | libs/srla_internal/src/srla_utility.c:36-60 | the running pair is (sum of bytes mod 255, sum of running sums mod 255) |
| Fletcher16.Mod255 | libs/srla_internal/src/srla_utility.c:39 | the add-and-mask reduction equals x mod 255 for every 32-bit x |
| Fletcher16.Mod255Correct | libs/srla_internal/src/srla_utility.c:39 | the MOD255 expression, with its 32-bit wrap, equals x mod 255 |
| Fletcher16.Fletcher16Range | libs/srla_internal/src/srla_utility.c:58-59 | the checksum is 16 bits and each byte of it is below 255 |
| Fletcher16.Fletcher16Vectors | libs/srla_internal/src/srla_utility.c:36-60 | "abcde" gives 0xC8F0, "abcdef" 0x2057 and "abcdefgh" 0x0627, the RFC 1146 values |
| Emphasis.DeemphPreemph | libs/srla_internal/src/srla_utility.c:225-270 | de-emphasis with the same prev and coefficient undoes pre-emphasis |
| Emphasis.PreemphDeemph | libs/srla_internal/src/srla_utility.c:225-270 | pre-emphasis undoes de-emphasis |
| Emphasis.TwoStageRoundTrip | libs/srla_internal/src/srla_utility.c:225-270 | undoing the second stage then the first restores the signal after two passes |
| Emphasis.ClampCoefficient | libs/srla_internal/src/srla_utility.c:203-219 | the coefficient always lies in 0..7; it is 0 for a degenerate signal and the rounded value when that is below 8 |
| Emphasis.PreemphasisFilter.constructor | libs/srla_internal/include/srla_utility.h:87-90 | a filter starts with prev and coef 0 |
| Emphasis.PreemphasisFilter.Initialize | libs/srla_internal/src/srla_utility.c:177-182 | sets prev and coef to 0 |
| Emphasis.PreemphasisFilter.CalculateCoefficient | libs/srla_internal/src/srla_utility.c:185-222 | sets coef to the clamped value and leaves prev alone |
| Emphasis.PreemphasisFilter.Preemphasis | libs/srla_internal/src/srla_utility.c:225-241 | the first n samples become their pre-emphasis; prev becomes the last original sample |
| Emphasis.MultiStageDeemphasis | libs/srla_internal/src/srla_utility.c:244-270 | the buffer becomes the first-stage de-emphasis (filter 1) followed by the second (filter 0), each with its old prev and coef; filter 0 keeps the last sample after the first stage and filter 1 the last restored sample |
| Emphasis.DeemphasisPass | libs/srla_internal/src/srla_utility.c:255-269 | the fused loop equals the two stages one after the other |
| FixedPoint.UnrolledTaps | libs/srla_decoder/src/srla_lpc_synthesize.c:290-316 | the hand-unrolled sums for orders 1, 3 and 5 equal the generic tap sum |
| FixedPoint.RoundShiftBounds | libs/srla_encoder/src/srla_lpc_predict.c:242-263 | adding half then shifting right is rounding to nearest: 2q·2^r ≤ 2·sum + 2^r < 2(q+1)·2^r |
| SrlaCodes.GammaCode | libs/srla_coder/src/srla_coder.c:23 | the gamma code of u is SRLACODER_GAMMA_BITS(u) bits long, and is a single 1 exactly for u = 0 |
| SrlaCodes.GammaCodeDigits | libs/srla_coder/src/srla_coder.c:119-137 | for u ≥ 1: d-1 zeros, then u+1 in d bits |
| SrlaCodes.RiceCode | libs/srla_coder/src/srla_coder.c:164-170 | the code is 1+k+(u>>k) bits: u>>k zeros, then a one |
| SrlaCodes.RecursiveRiceCode | libs/srla_coder/src/srla_coder.c:174-207 | the two-stage code of u is as long as the per-sample length RecursiveRice_ComputeCodeLength adds up (RecursiveRiceLength) |
| SrlaCodes.FastSampleLengthCorrect | libs/srla_coder/src/srla_coder.c:384-402 | with k1 = k2+1, the branch-free per-sample length (computed without 32-bit wrap) equals the code's length |
| SrlaCodes.FastSampleLengthAsWrittenSmall | libs/srla_coder/src/srla_coder.c:384-402 | the 32-bit per-sample length is right for u < 2^31 and k1 ≤ 30 |
| SrlaCodes.FastSampleLengthCounterexample | libs/srla_coder/src/srla_coder.c:384-402 | for k1 = 1, k2 = 0, u = 0xC000_0000 the signed casts and the clamp to 0 leave a length of 2 while the code is 0xC000_0000 bits |
| CodeIO.GammaPutCode | libs/srla_coder/src/srla_coder.c:119-137 | appends exactly the gamma code of val |
| CodeIO.GammaGetCode | libs/srla_coder/src/srla_coder.c:140-161 | in front of the gamma code of u it returns u and consumes exactly that code |
| CodeIO.RicePutCode | libs/srla_coder/src/srla_coder.c:164-170 | appends exactly the Rice code of uval |
| CodeIO.RiceGetCode | libs/srla_coder/src/srla_coder.c:211-224 | in front of the Rice code of u it returns u and consumes exactly that code |
| CodeIO.RecursiveRicePutCode | libs/srla_coder/src/srla_coder.c:192-207 | appends exactly the recursive Rice code of uval |
| CodeIO.RecursiveRiceGetCode | libs/srla_coder/src/srla_coder.c:244-258 | with k1 = k2+1 it returns the value coded and consumes exactly its code |
| SrlaPartition.RecursiveRiceParameters | libs/srla_coder/src/srla_coder.c:326-331 | the source's pair: k1 = k2+1 with 2^k2 ≤ golomb < 2^k1, and k1 = 32 exactly when golomb ≥ 2^31 |
| SrlaPartition.CappedRecursiveRiceParameters | libs/srla_coder/src/srla_coder.c:326-331 | the pair the model codes with: k1 = k2+1 ≤ 31 and 2^k2 ≤ golomb; the source's pair below 2^31, and (31, 30) from there |
| SrlaPartition.SourceGolomb | libs/srla_coder/src/srla_coder.c:326-329 | the fast estimate MAX(1, 0.66794162356·(1 + mean)) truncated, which is at least 1 |
| SrlaPartition.SourceGolombWord | libs/srla_coder/src/srla_coder.c:326-329 | every mean of 32-bit values gives an estimate that is a 32-bit word |
| SrlaPartition.AsWrittenParameterOverflow | libs/srla_coder/src/srla_coder.c:326-331 | a one-sample partition holding -0x7FFF_FFFF gives an estimate of at least 2^31, the source's k1 = 32 and the capped (31, 30) |
| SrlaPartition.Parameter | libs/srla_coder/src/srla_coder.c:455-519 | every parameter is below 32 and fits its 5-bit field; recursive Rice ones are the capped k2, at most 30, for every 32-bit estimate |
| SrlaPartition.MaxPartitionOrder | libs/srla_coder/src/srla_coder.c:416-421 | the exponent of the largest power of two dividing n, capped at 10 |
| SrlaPartition.ValuationDivides | libs/srla_coder/src/srla_coder.c:416-421 | 2^k divides n exactly when k is at most n's 2-adic valuation |
| SrlaPartition.MergedMean | libs/srla_coder/src/srla_coder.c:440-445 | the mean of a merged partition is the average of its two halves' means |
| SrlaPartition.MergedPartMean | libs/srla_coder/src/srla_coder.c:440-445 | partition p at order o has the average of partitions 2p and 2p+1 at order o+1 as its mean |
| SrlaPartition.CodeTypeFor | libs/srla_coder/src/srla_coder.c:449-453 | Rice is chosen exactly when the overall mean is below 2 |
| SrlaPartition.OrderParameters | libs/srla_coder/src/srla_coder.c:455-519 | one parameter per partition, each from that partition's mean |
| SrlaPartition.FirstMinIndex | libs/srla_coder/src/srla_coder.c:510-517 | the first index holding the minimum (ties go to the smaller order) |
| SrlaPartition.BestOrder | libs/srla_coder/src/srla_coder.c:455-529 | the chosen order is within [0, max_porder], divides n, and is the first order of least total size |
| SrlaPartition.EncodedLength | libs/srla_coder/src/srla_coder.c:579-635 | the block is 1 + 10 + the minimum size the search found, in bits |
| SrlaPartition.ZigZagRoundTrip | libs/srla_coder/src/srla_coder.c:594-598 | un-zig-zagging the encoder's samples restores them |
| SrlaCoder.RiceCodesLength | libs/srla_coder/src/srla_coder.c:371-374 | the sum of per-sample Rice lengths is the length of the concatenated codes |
| SrlaCoder.RecursiveRiceComputeCodeLength | libs/srla_coder/src/srla_coder.c:377-405 | the loop's total is the length of the concatenated recursive Rice codes |
| SrlaCoder.EncodeRice | libs/srla_coder/src/srla_coder.c:533-576 | appends the Rice codes of a range of samples, in order |
| SrlaCoder.EncodeRecursiveRice | libs/srla_coder/src/srla_coder.c:533-576 | appends the recursive Rice codes of a range of 32-bit values, in order, 0xFFFF_FFFF (INT32_MIN) included |
| SrlaCoder.DecodeRice | libs/srla_coder/src/srla_coder.c:638-683 | in front of those codes it consumes them and writes the signed samples to the range only |
| SrlaCoder.DecodeRecursiveRice | libs/srla_coder/src/srla_coder.c:638-683 | the same for recursive Rice codes |
| SrlaCoder.ComputeMaxPartitionOrder | libs/srla_coder/src/srla_coder.c:416-421 | the loop computes MaxPartitionOrder |
| SrlaCoder.Coder.constructor | libs/srla_coder/src/srla_coder.c:56-105 | a coder whose mean cache is all unset and whose sample buffer has the requested size |
| SrlaCoder.Coder.SearchBestCodeAndPartition | libs/srla_coder/src/srla_coder.c:407-530 | returns the code type of the samples, the best order and its size; leaves the zig-zag samples and every partition mean in the cache |
| SrlaCoder.Coder.ComputeMeans | libs/srla_coder/src/srla_coder.c:427-445 | fills the cache with the finest means, then merges them up to order 0 |
| SrlaCoder.Coder.MergeMeans | libs/srla_coder/src/srla_coder.c:440-445 | one level of merging keeps every cached mean correct |
| SrlaCoder.Coder.SearchOrders | libs/srla_coder/src/srla_coder.c:455-519 | the search loop returns BestOrder and its size |
| SrlaCoder.Coder.EncodePartitionedRecursiveRice | libs/srla_coder/src/srla_coder.c:579-635 | appends exactly `Encoded` of the zig-zag samples, for every int32 sample on the recursive Rice path |
| SrlaCoder.Coder.Encode | libs/srla_coder/src/srla_coder.c:750-756 | appends exactly `Encoded` of the zig-zag samples, for every int32 sample on the recursive Rice path |
| SrlaCoder.Coder.ComputeCodeLength | libs/srla_coder/src/srla_coder.c:734-747 | returns the size of the best partitioning, which with the 11 field bits is the encoded length |
| SrlaCoder.EncodedParts | libs/srla_coder/src/srla_coder.c:579-635 | the encoded block is the 1-bit type, the 10-bit order, then each partition's parameter fields and codes |
| SrlaCoder.PartitionedFields | libs/srla_coder/src/srla_coder.c:686-731 | the layout the decoder reads field by field is the encoder's |
| SrlaCoder.DecodeParts | libs/srla_coder/src/srla_coder.c:700-730 | in front of the partition codes it restores the signed samples |
| SrlaCoder.DecodePartitionedRecursiveRice | libs/srla_coder/src/srla_coder.c:686-731 | in front of a partitioned code it restores the samples and consumes exactly the code |
| SrlaCoder.Decode | libs/srla_coder/src/srla_coder.c:759-765 | in front of `Encoded` of any zig-zag sample sequence it restores the signed samples and consumes exactly what Encode wrote |
| StaticHuffman.Normalized | libs/static_huffman/src/static_huffman.c:19-24 | every count becomes positive, and nonzero counts are kept |
| StaticHuffman.NormalizeSymbolCounts | libs/static_huffman/src/static_huffman.c:6-25 | writes the normalized counts, then zeros up to the work size |
| StaticHuffman.ScanSpec | libs/static_huffman/src/static_huffman.c:57-67 | the scan finds the least live weight, then the least among the rest, breaking ties by lowest index |
| StaticHuffman.BuildTree | libs/static_huffman/src/static_huffman.c:28-92 | the tree has n symbols and a root among its nodes, and internal nodes point only to earlier nodes |
| StaticHuffman.BuildHuffmanTree | libs/static_huffman/src/static_huffman.c:28-92 | the merging loop builds BuildTree |
| StaticHuffman.BuildTreeValid | libs/static_huffman/src/static_huffman.c:41-89 | the result is a valid tree with every symbol a leaf, and its root is node 2n-2 |
| StaticHuffman.FirstMergeIsLeast | libs/static_huffman/src/static_huffman.c:57-67 | the first internal node joins the two least-weight symbols, ties going to the lowest index |
| StaticHuffman.PrefixFree | libs/static_huffman/src/static_huffman.c:95-118 | no code word is a proper prefix of another |
| StaticHuffman.CodeTableCodeWords | libs/static_huffman/src/static_huffman.c:95-131 | each symbol's code is the path from the root to its leaf |
| StaticHuffman.ConvertTreeToCodesCore | libs/static_huffman/src/static_huffman.c:95-118 | the recursion assigns the codes of the subtree at `node` |
| StaticHuffman.ConvertTreeToCodes | libs/static_huffman/src/static_huffman.c:121-131 | returns the code table of the tree |
| StaticHuffman.CodeTableFits | libs/static_huffman/src/static_huffman.c:95-118 | every code is below 2^bitCount, so a word of at most 32 bits survives the `uint32_t` shifts |
| StaticHuffman.PutCode | libs/static_huffman/src/static_huffman.c:134-142 | appends the symbol's code word |
| StaticHuffman.GetCode | libs/static_huffman/src/static_huffman.c:145-165 | returns the symbol the do-while walk reaches, and consumes the bits it read |
| StaticHuffman.GetCodeChecked | libs/static_huffman/src/static_huffman.c:145-165 | when the walk from the root reaches symbol v after exactly the given bits, returns v and consumes exactly those bits |
| StaticHuffman.CheckedRoundTrip | libs/static_huffman/src/static_huffman.c:134-165 | for any n ≥ 1, the walk over v's code word (whatever follows) returns v after exactly its length |
| StaticHuffman.SingleSymbolGetCode | libs/static_huffman/src/static_huffman.c:145-165 | the one-symbol tree has an empty code word, yet the do-while decoder reads one bit |
| StaticHuffman.CodeRoundTrip | libs/static_huffman/src/static_huffman.c:134-165 | with at least two symbols, GetCode over v's code word returns v and reads exactly that word; PutCode appends the word only when it is at most 32 bits |
| StaticHuffman.ExampleTable1 | libs/static_huffman/src/static_huffman.c:28-131 | counts {4,3,2,1} give codes (0,1), (2,2), (7,3), (6,3) |
| StaticHuffman.ExampleTable2 | libs/static_huffman/src/static_huffman.c:28-131 | counts {5,3,2,1,1} give codes (0,1), (2,2), (6,3), (14,4), (15,4) |
| StaticHuffman.ExampleLength3 | libs/static_huffman/src/static_huffman.c:28-131 | counts {8,4,4,4,2,2} give a weighted code length of 60 |
| StaticHuffman.ExampleLength4 | libs/static_huffman/src/static_huffman.c:28-131 | counts {50,20,10,8,5,4,2,1} give a weighted code length of 220 |
| SrlaLpcPredict.LpcResidualFirst | libs/srla_encoder/src/srla_lpc_predict.c:236-249 | the first residual is the first sample |
| SrlaLpcPredict.LpcPredict | libs/srla_encoder/src/srla_lpc_predict.c:236-264 | for order ≤ n: writes LpcResidual of the data into residual[0..n) (first differences below `order`, rounded prediction error above), nothing else |
| SrlaLpcPredict.LtpPredict | libs/srla_encoder/src/srla_lpc_predict.c:267-292 | for odd orders, writes LtpResidual of the data: a copy up to period + order/2, the pitch-prediction error after |
| SrlaLpcSynthesize.LpcRoundTrip | libs/srla_decoder/src/srla_lpc_synthesize.c:238-266 | synthesis of the predictor's residual restores the data |
| SrlaLpcSynthesize.LpcResidualOfSynthesis | libs/srla_decoder/src/srla_lpc_synthesize.c:238-266 | prediction of a synthesized signal gives back the residual, so the two are inverse bijections |
| SrlaLpcSynthesize.LpcSynthesisOrderZero | libs/srla_decoder/src/srla_lpc_synthesize.c:250-253 | order 0 leaves the data unchanged |
| SrlaLpcSynthesize.LpcSynthesisNext | libs/srla_decoder/src/srla_lpc_synthesize.c:255-265 | sample m is computed from its residual and the samples already restored before it |
| SrlaLpcSynthesize.LpcRestoredCausal | libs/srla_decoder/src/srla_lpc_synthesize.c:259-265 | the first m restored samples depend only on the first m residuals |
| SrlaLpcSynthesize.LpcSynthesize | libs/srla_decoder/src/srla_lpc_synthesize.c:238-266 | for order ≤ n: the in-place loop leaves LpcSynthesis of the old contents, and nothing past n changes |
| SrlaLpcSynthesize.LtpSynthesisKeepsHead | libs/srla_decoder/src/srla_lpc_synthesize.c:284-292 | samples up to period + order/2 are never changed |
| SrlaLpcSynthesize.LtpRoundTrip | libs/srla_decoder/src/srla_lpc_synthesize.c:269-327 | when period > order/2, synthesis inverts LtpResidual |
| SrlaLpcSynthesize.LtpResidualOfSynthesis | libs/srla_decoder/src/srla_lpc_synthesize.c:269-327 | prediction of a synthesized signal gives back the residual |
| SrlaLpcSynthesize.LtpSynthesizeOrder1 | libs/srla_decoder/src/srla_lpc_synthesize.c:291-296 | the unrolled order-1 loop computes LtpSynthesis |
| SrlaLpcSynthesize.LtpSynthesizeOrder3 | libs/srla_decoder/src/srla_lpc_synthesize.c:297-305 | the unrolled order-3 loop computes LtpSynthesis |
| SrlaLpcSynthesize.LtpSynthesizeOrder5 | libs/srla_decoder/src/srla_lpc_synthesize.c:306-316 | the unrolled order-5 loop computes LtpSynthesis |
| SrlaLpcSynthesize.LtpSynthesizeAnyOrder | libs/srla_decoder/src/srla_lpc_synthesize.c:317-325 | the default loop computes LtpSynthesis |
| SrlaLpcSynthesize.LtpSynthesize | libs/srla_decoder/src/srla_lpc_synthesize.c:269-327 | the dispatch computes LtpSynthesis in place for every order, and does nothing when order or period is 0 |
| Lpc.RoundUp2Powered | libs/lpc/src/lpc.c:72-82 | for 1 ≤ v ≤ 2^31, the least power of two that is at least v; 0 and values above 2^31 wrap to 0 |
| Lpc.ResidualFirst | libs/lpc/src/lpc.c:1428-1430 | residual[0] is data[0] |
| Lpc.ResidualAt | libs/lpc/src/lpc.c:1428-1445 | sample i is predicted from the first min(i, order) coefficients only |
| Lpc.RoundTrip | libs/lpc/src/lpc.c:1416-1478 | LPC_Synthesize of LPC_Predict's output restores the data |
| Lpc.ResidualOfSynthesis | libs/lpc/src/lpc.c:1416-1478 | LPC_Predict of a synthesized signal gives back the residual |
| Lpc.SynthesisFirst | libs/lpc/src/lpc.c:1461-1468 | synthesis keeps the first sample |
| Lpc.SynthesisStep | libs/lpc/src/lpc.c:1461-1475 | sample m is its residual minus the rounded prediction from the samples already restored |
| Lpc.Predict | libs/lpc/src/lpc.c:1416-1447 | for order ≤ n: INVALID_ARGUMENT exactly for a null pointer or a zero shift, with residual untouched; otherwise residual[0..n) is Residual of the data |
| Lpc.Synthesize | libs/lpc/src/lpc.c:1450-1478 | for order ≤ n: INVALID_ARGUMENT exactly for a null pointer or a zero shift, with data untouched; otherwise data[0..n) becomes Synthesis of its old contents |
| Lpc.Clamp | libs/lpc/src/lpc.c:1400-1405 | the quantized value is clamped to [-qmax, qmax) and unchanged when already inside |
| Lpc.QuantizeShift | libs/lpc/src/lpc.c:1379-1391 | the shift is at most max_bits-1 and leaves room for the largest coefficient |
| Lpc.QuantizeCoefficients | libs/lpc/src/lpc.c:1349-1413 | INVALID_ARGUMENT exactly for null arrays or zero precision; small coefficients give zeros and shift nbits; otherwise the backward error-feedback quantization with shift ≤ max_bits-1; every result lies in [-2^(nbits-1), 2^(nbits-1)) |
| Lpc.MaxMagnitude | libs/lpc/src/lpc.c:1364-1370 | the loop returns the largest absolute coefficient |
| Lpc.QuantizeBackwards | libs/lpc/src/lpc.c:1393-1409 | the loop from the last coefficient to the first writes Quantized, and nothing past `order` |
| SrlaFormat.PresetMaxNumParameters | libs/srla_internal/src/srla_internal.c:12-27 | each preset's parameter count is 32 or 64 |
| SrlaFormat.HeaderBytes | libs/srla_encoder/src/srla_encoder.c:47-121 | the file header is 29 bytes |
| SrlaFormat.BlockBytes | libs/srla_encoder/src/srla_encoder.c:900-951 | a block is the 11-byte header plus its payload |
| SrlaFormat.ChecksummedBytes | libs/srla_encoder/src/srla_encoder.c:939-948 | the checksummed span is the type byte, the sample count and the payload |
| SrlaFormat.RawPayload | libs/srla_encoder/src/srla_encoder.c:474-511 | raw data is n·ch·(bps/8) bytes |
| SrlaFormat.RawSize | libs/srla_encoder/src/srla_encoder.c:468-472 | n·ch·width never exceeds the size the check computes, and equals it for whole-byte widths |
| SrlaEncoder.HeaderCheck | libs/srla_encoder/src/srla_encoder.c:52-87 | Ok exactly for a buffer of at least 29 bytes and an encodable header; otherwise INVALID_ARGUMENT, INSUFFICIENT_BUFFER, INVALID_FORMAT in that order |
| SrlaEncoder.EncodeHeader | libs/srla_encoder/src/srla_encoder.c:47-121 | on success, the first 29 bytes are the header; on error nothing is written |
| SrlaEncoder.ConvertParameterToHeader | libs/srla_encoder/src/srla_encoder.c:124-162 | INVALID_FORMAT exactly for zero channels, bps or rate, or an unknown preset; otherwise a header carrying each parameter |
| SrlaEncoder.Create | libs/srla_encoder/src/srla_encoder.c:165-346 | a handle exactly for accepted configurations, without parameters set |
| SrlaEncoder.Encoder.constructor | libs/srla_encoder/src/srla_encoder.c:228-346 | records the capacities; parameters are not set |
| SrlaEncoder.Encoder.SetEncodeParameter | libs/srla_encoder/src/srla_encoder.c:360-395 | INVALID_FORMAT for a bad parameter, INSUFFICIENT_BUFFER beyond capacity; only on success are header, preset and flag set |
| SrlaEncoder.Encoder.DecideBlockDataType | libs/srla_encoder/src/srla_encoder.c:398-452 | SILENT only if every sample is 0; COMPRESS only if some sample is not |
| SrlaEncoder.Encoder.EncodeRawData | libs/srla_encoder/src/srla_encoder.c:455-514 | INSUFFICIENT_BUFFER when the buffer is smaller than bps·n·ch/8; otherwise the interleaved big-endian zig-zag samples, and no other byte changes |
| SrlaEncoder.Encoder.EncodePayload | libs/srla_encoder/src/srla_encoder.c:914-932 | writes the payload of the chosen type; the silent payload is empty |
| SrlaEncoder.Encoder.WriteBlock | libs/srla_encoder/src/srla_encoder.c:899-951 | the block header, then the payload; output size is 11 + payload |
| SrlaEncoder.Encoder.EncodeBlock | libs/srla_encoder/src/srla_encoder.c:867-955 | the result is BlockResult: argument errors, PARAMETER_NOT_SET, INSUFFICIENT_BUFFER for too many samples, then the block written at the offset |
| SrlaEncoder.BlockWithin | libs/srla_encoder/src/srla_encoder.c:867-955 | a successful block is at least 11 bytes and never exceeds the buffer |
| SrlaEncoder.WholeResult | libs/srla_encoder/src/srla_encoder.c:958-1025 | a successful stream is at least the 29-byte header and fits the buffer |
| SrlaEncoder.AsWrittenRawAssertsRejectExactBuffer | libs/srla_encoder/src/srla_encoder.c:474-511 | a buffer of exactly n·ch·width bytes passes the size check but fails the strict pointer assertions |
| SrlaEncoder.RawWritesWithin | libs/srla_encoder/src/srla_encoder.c:474-511 | with a buffer of at least n·ch·width bytes, every sample's bytes end within it |
| SrlaEncoder.AsWrittenBlockOverrun | libs/srla_encoder/src/srla_encoder.c:900-951 | a 5-byte buffer makes the 32-bit payload capacity 2^32-6 |
| SrlaEncoder.BlockFitsBuffer | libs/srla_encoder/src/srla_encoder.c:867-955 | a successful block fits the buffer, and a nonempty buffer shorter than 11 bytes gives INSUFFICIENT_BUFFER |
| SrlaEncoder.Encoder.EncodeWhole | libs/srla_encoder/src/srla_encoder.c:958-1025 | the output is the header and then the blocks of min(block, remaining) samples covering the input; PARAMETER_NOT_SET before parameters are set |
| SrlaEncoder.Encoder.EncodeBlocks | libs/srla_encoder/src/srla_encoder.c:992-1024 | the block loop writes WholeBlocks after the header and returns its end offset |
| SrlaDecoder.DecodeHeader | libs/srla_decoder/src/srla_decoder.c:62-130 | INVALID_ARGUMENT for null, INSUFFICIENT_DATA below 29 bytes; success only after the signature |
| SrlaDecoder.SetHeaderCheck | libs/srla_decoder/src/srla_decoder.c:311-346 | a header is accepted only if CheckHeaderFormat accepts it |
| SrlaDecoder.BlockHeaderError | libs/srla_decoder/src/srla_decoder.c:622-695 | a block header passes only if it is complete (at least 6 bytes read, size+6 between 11 and the data), its size covers the 11-byte header, and its sample count fits the buffer; these are the corrected guards |
| SrlaDecoder.BlockOutcome | libs/srla_decoder/src/srla_decoder.c:640-706 | a decoded block is at least 11 bytes, has no more samples than the buffer, and gives one row per channel |
| SrlaDecoder.BlockResult | libs/srla_decoder/src/srla_decoder.c:606-710 | the same after the argument, header-set and channel checks; failures are never Ok |
| SrlaDecoder.Create | libs/srla_decoder/src/srla_decoder.c:177-298 | a handle exactly for a nonzero channel capacity, with no header set |
| SrlaDecoder.Decoder.constructor | libs/srla_decoder/src/srla_decoder.c:211-298 | records the capacities and the checksum switch; no header set |
| SrlaDecoder.Decoder.SetHeader | libs/srla_decoder/src/srla_decoder.c:311-346 | the result is SetHeaderCheck; only on success are header and flag set |
| SrlaDecoder.Decoder.DecodeRawData | libs/srla_decoder/src/srla_decoder.c:349-419 | on success the rows are overwritten with the raw samples; on failure the buffer is unchanged |
| SrlaDecoder.Decoder.DecodeSilentData | libs/srla_decoder/src/srla_decoder.c:571-603 | zero-fills n samples per channel and reports 0 payload bytes |
| SrlaDecoder.Decoder.CheckBlockHeader | libs/srla_decoder/src/srla_decoder.c:640-695 | returns BlockHeaderError, and on success the type byte and sample count |
| SrlaDecoder.Decoder.DecodeBlock | libs/srla_decoder/src/srla_decoder.c:606-710 | the result is BlockResult; on success the size and count are reported and the samples are written at the offset; on failure the buffer is unchanged |
| SrlaDecoder.WholeResult | libs/srla_decoder/src/srla_decoder.c:713-772 | success needs both arguments; failures are never Ok |
| SrlaDecoder.Decoder.DecodeWhole | libs/srla_decoder/src/srla_decoder.c:713-772 | the buffer receives every decoded block in order; the header is set only if it decodes and is accepted |
| SrlaDecoder.Decoder.DecodeBlocks | libs/srla_decoder/src/srla_decoder.c:741-768 | the loop applies each block in order while samples remain and data is left |
| SrlaDecoder.ShortBlockRefused | libs/srla_decoder/src/srla_decoder.c:622-695 | with the corrected guards, input shorter than 11 bytes is always refused |
| SrlaDecoder.AsWrittenBlockHeaderOverread | libs/srla_decoder/src/srla_decoder.c:622-695 | the 7 bytes FF FF 00 00 00 01 00 pass the size check as written though shorter than a header, with checksum length 0xFFFF_FFFF; the corrected guards give INVALID_FORMAT, and INSUFFICIENT_DATA for FF FF |
| SrlaRoundTrip.FieldRoundTrip | libs/srla_decoder/src/srla_decoder.c:72-129 | a big-endian field of k bytes reads back as written |
| SrlaRoundTrip.HeaderRoundTrip | libs/srla_decoder/src/srla_decoder.c:62-174 | DecodeHeader of EncodeHeader's bytes is the header with the version macros stamped in, and CheckHeaderFormat accepts it exactly when EncodeHeader would have |
| SrlaRoundTrip.BlockFields | libs/srla_decoder/src/srla_decoder.c:642-677 | the decoder reads the sync code, size payload+5, the Fletcher-16 of the checksummed span, the type and the count that EncodeBlock wrote |
| SrlaRoundTrip.CountFieldTruncated | libs/srla_encoder/src/srla_encoder.c:909-910 | the decoder reads back the written sample count modulo 2^16, so a block of 2^16 samples announces none |
| SrlaRoundTrip.BlockHeaderAccepted | libs/srla_decoder/src/srla_decoder.c:622-695 | a written block header passes every check when its count fits the buffer |
| SrlaRoundTrip.RawSampleRoundTrip | libs/srla_decoder/src/srla_decoder.c:375-416 | each raw sample reads back as the one written, for samples within bps bits |
| SrlaRoundTrip.RawRoundTrip | libs/srla_decoder/src/srla_decoder.c:349-419 | DecodeRawData of EncodeRawData's bytes gives back the block rows and the payload size |
| SrlaRoundTrip.BlockRoundTrip | libs/srla_decoder/src/srla_decoder.c:606-710 | decoding an encoded block restores its rows and reports its size, whatever follows it |
| SrlaRoundTrip.BlocksRoundTrip | libs/srla_decoder/src/srla_decoder.c:741-768 | decoding the encoder's blocks restores every sample from `progress` on and leaves the rest of the buffer alone |
| SrlaRoundTrip.WholeRoundTrip | libs/srla_decoder/src/srla_decoder.c:713-772 | DecodeWhole of EncodeWhole's output restores every input sample and leaves the rest of the buffer alone |
| WavFormat.ToInt32 | libs/wav/src/wav.c:389-414 | a 32-bit pattern read as int32_t is in range and congruent to it mod 2^32 |
| WavFormat.Convert16bitPCMto32bitPCM | libs/wav/src/wav.c:396-400 | sign-extends the low 16 bits |
| WavFormat.Convert24bitPCMto32bitPCM | libs/wav/src/wav.c:403-407 | sign-extends the low 24 bits |
| WavFormat.SampleRoundTrip | libs/wav/src/wav.c:205-249 | the reader's conversion of the writer's bytes gives p mod 2^bps in range, and exactly p for p within the depth (8-bit offset by 128 included) |
| WavFormat.ReorderedInvolution | libs/wav/src/wav.c:875-944 | reversing the byte order twice is the identity |
| WavFormat.ReorderBytes | libs/wav/src/wav.c:875-893 | the loop reverses the byte order of an nbytes value |
| WavFormat.HeaderBytes | libs/wav/src/wav.c:540-600 | the header is 44 bytes |
| WavFormat.FmtChunk | libs/wav/src/wav.c:556-593 | the fmt chunk with its tag and size is 24 bytes |
| WavFormat.ChunkScan | libs/wav/src/wav.c:166-190 | success only at a position just after a "data" tag inside the file |
| WavFormat.HeaderError | libs/wav/src/wav.c:116-146 | no error only with "RIFF", "WAVE", "fmt " in place and format tag 1 |
| WavFormat.ParseFormat | libs/wav/src/wav.c:104-202 | a parsed header gives linear PCM and a sample offset of at least 44 inside the file |
| WavFormat.SampleCount | libs/wav/src/wav.c:192-196 | the number of whole frames in the data size |
| WavFormat.DataChunk | libs/wav/src/wav.c:166-202 | a format is produced only as linear PCM with a sample offset between 44 and the file size |
| WavFormat.AsWrittenScanStalls | libs/wav/src/wav.c:172-190 | a chunk of size 0xFFFF_FFF8 sends the int32 scan back to the same chunk, while the corrected scan fails with IO |
| WavFormat.AsWrittenSampleCountByZero | libs/wav/src/wav.c:192-196 | with 4-bit samples the frame size is 0 and the division has no value; the model gives INVALID_FORMAT |
| WavFormat.InterleavedSlice | libs/wav/src/wav.c:700-760 | sample k of the written data is at bytes k·w..(k+1)·w, in frame-major order |
| WavParser.Parser.constructor | libs/wav/src/wav.c:417-422 | a parser at bit 0 of the file |
| WavParser.Parser.Fill | libs/wav/src/wav.c:443-471 | loads the next min(BUFFER_SIZE, remaining) bytes of the file |
| WavParser.Parser.NextByte | libs/wav/src/wav.c:443-471 | advances to the next byte, or reports that the file is exhausted |
| WavParser.Parser.GetBits | libs/wav/src/wav.c:433-481 | INVALID_PARAMETER above 64 bits; Ok exactly when the file holds the next n bits, IO otherwise; the value is those n bits MSB-first |
| WavParser.Parser.GetLittleEndianBytes | libs/wav/src/wav.c:925-944 | returns the next nbytes bytes as a little-endian value, IO when short |
| WavParser.Parser.GetString | libs/wav/src/wav.c:947-965 | returns the next len bytes, IO when short |
| WavParser.Parser.CheckSignatureString | libs/wav/src/wav.c:968-990 | Ok exactly when the next bytes are the signature; INVALID_FORMAT names a mismatching byte |
| WavParser.Parser.Seek | libs/wav/src/wav.c:484-496 | the target counts only the bytes loaded (SeekTarget); from an aligned position with a nonnegative target, the byte offset moves by `offset` |
| WavParser.AsWrittenSeekShortRead | libs/wav/src/wav.c:484-496 | the source's target is the intended one minus the unloaded part of the buffer; 100 bytes loaded, at byte 35, offset 2 gives a negative target instead of 38 |
| WavParser.AsWrittenRefillPastEnd | libs/wav/src/wav.c:433-481 | in a 100-byte file, the refill as written reads byte 100 as 0 |
| WavParser.Parser.ScanChunks | libs/wav/src/wav.c:166-190 | the chunk-skipping loop ends just after the "data" tag ChunkScan names |
| WavParser.Parser.GetWAVFormat | libs/wav/src/wav.c:104-202 | the result is ParseFormat of the file, and the parser is left at the first sample |
| WavParser.Parser.ReadRiffHeader | libs/wav/src/wav.c:116-146 | the signature and format checks, with their error, then the fmt size |
| WavParser.Parser.ReadFmtFields | libs/wav/src/wav.c:148-164 | reads channels, rate and depth, and skips byte rate and block align |
| WavParser.Parser.ReadDataChunk | libs/wav/src/wav.c:166-202 | finds the data chunk and computes the format |
| WavParser.Parser.GetWAVPcmData | libs/wav/src/wav.c:205-249 | INVALID_FORMAT for unsupported depths; IO exactly when the file is short; otherwise every cell is the converted sample at its interleaved slot |
| WavParser.Parser.ReadFrame | libs/wav/src/wav.c:236-245 | one frame: each channel's sample of frame s, other frames untouched |
| WavWriter.Writer.constructor | libs/wav/src/wav.c:810-817 | an empty writer with an empty bit buffer |
| WavWriter.Writer.StoreByte | libs/wav/src/wav.c:834-872 | appends one byte to the output |
| WavWriter.Writer.PutBits | libs/wav/src/wav.c:834-872 | the written bit sequence grows by the low n bits of val, MSB-first; whole bytes from an aligned state are val's big-endian bytes |
| WavWriter.Writer.Flush | libs/wav/src/wav.c:896-922 | the output is everything written, padded with zeros to a byte |
| WavWriter.Writer.PutLittleEndianBytes | libs/wav/src/wav.c:875-893 | appends the little-endian bytes of the value |
| WavWriter.Writer.PutWAVHeader | libs/wav/src/wav.c:523-603 | INVALID_FORMAT for non-PCM, nothing written; otherwise appends the 44 header bytes |
| WavWriter.Writer.PutWAVPcmData | libs/wav/src/wav.c:655-765 | INVALID_FORMAT for unsupported depths; otherwise appends every sample, frame by frame, in bps/8 little-endian bytes |
| WavWriter.Writer.Finalize | libs/wav/src/wav.c:820-831 | flushes what is pending and clears the buffer |
| WavApi.WavFile.constructor | libs/wav/src/wav.c:344-386 | a handle of the given format with every sample 0 |
| WavApi.Create | libs/wav/src/wav.c:344-386 | null exactly for non-PCM formats; otherwise silent samples of the right shape |
| WavApi.GetWAVFormatFromFile | libs/wav/src/wav.c:252-285 | OK exactly when the file opens and its header parses, with that format |
| WavApi.CreateFromFile | libs/wav/src/wav.c:288-341 | a handle exactly when the header parses, the depth is supported and every sample is in the file; each sample is the one at its slot |
| WavApi.WriteToFile | libs/wav/src/wav.c:768-807 | OK exactly for an open file, PCM and a supported depth; the file is then the header followed by the interleaved samples; it stays empty when not open or not PCM, and holds only the header for an unsupported depth |
| WavRoundTrip.HeaderPasses | libs/wav/src/wav.c:116-146 | a written header passes the signature and format checks |
| WavRoundTrip.HeaderRoundTrip | libs/wav/src/wav.c:104-202 | the parser reads back the format PutWAVHeader wrote, with the samples at byte 44 |
| WavRoundTrip.SampleReadBack | libs/wav/src/wav.c:205-249 | each written sample within the depth reads back as itself |
| WavRoundTrip.FileRoundTrip | libs/wav/src/wav.c:288-341 | a file WAV_WriteToFile produced parses to the same format with the same samples |
| EvaluateCodecs.LabelPrefix | evaluation/evaluate_codecs.py:58-184 | every family's label starts with its own two characters |
| EvaluateCodecs.Label | evaluation/evaluate_codecs.py:58-184 | TTA's label is "TTA"; every other label ends with the option string |
| EvaluateCodecs.LabelHead | evaluation/evaluate_codecs.py:58-184 | each label starts with its family's two characters |
| EvaluateCodecs.LabelsCollide | evaluation/evaluate_codecs.py:58-184 | two configurations share a label exactly when they are equal or both TTA, so TTA options overwrite each other's results |
| EvaluateCodecs.Labels | evaluation/evaluate_codecs.py:296-299 | every configuration's label is a key of the results |
| EvaluateCodecs.WithSuffix | evaluation/evaluate_codecs.py:93-94 | the result ends with the suffix, appended when the name has none |
| EvaluateCodecs.CompressedSibling | evaluation/evaluate_codecs.py:119-133 | "compressed.tmp" with a new suffix is "compressed" plus that suffix |
| EvaluateCodecs.TrialPaths | evaluation/evaluate_codecs.py:85-157 | the tool paths are temporary files; only TAK and HALAC write elsewhere, and only Monkey's Audio, TAK and HALAC rename the input |
| EvaluateCodecs.FileSystem.constructor | evaluation/evaluate_codecs.py:305-330 | a file system with the given files |
| EvaluateCodecs.FileSystem.Write | evaluation/evaluate_codecs.py:305-306 | puts or leaves the file a tool wrote |
| EvaluateCodecs.FileSystem.Replace | evaluation/evaluate_codecs.py:85-157 | os.replace: succeeds exactly when the source exists, and moves it |
| EvaluateCodecs.FileSystem.Remove | evaluation/evaluate_codecs.py:326-330 | deletes exactly that file |
| EvaluateCodecs.Encode | evaluation/evaluate_codecs.py:45-51 | returns (time, size) exactly when the output exists afterwards, with the post-encode renaming applied |
| EvaluateCodecs.Decode | evaluation/evaluate_codecs.py:53-56 | renames the input where the family needs it (failing if it is missing), then runs the tool |
| EvaluateCodecs.OriginalTime | evaluation/evaluate_codecs.py:13-16 | the duration is positive exactly when there are frames |
| EvaluateCodecs.TrialOutcomeOf | evaluation/evaluate_codecs.py:305-325 | recorded exactly when the encoded file exists, the decoded file equals the source, and rate, frame count and source size are positive; aborted on a missing file or a failed comparison; the ratios satisfy ratio·reference = 100·value |
| EvaluateCodecs.Restored | evaluation/evaluate_codecs.py:305-330 | the decode leaves the original files as they were, adding only the temporary files |
| EvaluateCodecs.Trial | evaluation/evaluate_codecs.py:305-330 | one trial gives TrialOutcomeOf; a recorded trial leaves the file system as it found it |
| EvaluateCodecs.Cleanup | evaluation/evaluate_codecs.py:326-330 | removes both temporary files and the renamed input, whichever exist |
| EvaluateCodecs.AsWrittenCleanupLeaks | evaluation/evaluate_codecs.py:326-330 | after a TAK trial the cleanup as written leaves "compressed.tak" holding the encoded data |
| EvaluateCodecs.SourceReady | evaluation/evaluate_codecs.py:283-291 | every listed file exists and none is a temporary name |
| EvaluateCodecs.ColumnAt | evaluation/evaluate_codecs.py:323-325 | entry j of a category's list is the ratios of its j-th file, in order |
| EvaluateCodecs.MeasureCategory | evaluation/evaluate_codecs.py:303-331 | runs every file of a category: success exactly when every trial records; gives the per-file and per-category tables |
| EvaluateCodecs.MeasureCodec | evaluation/evaluate_codecs.py:296-331 | runs every category for one configuration |
| EvaluateCodecs.Run | evaluation/evaluate_codecs.py:294-331 | success exactly when every trial records; each label holds its last configuration's tables |
| EvaluateCodecs.TablesHold | evaluation/evaluate_codecs.py:319-325 | each file's ratios appear in both tables, at its place in its category |
| EvaluateCodecs.Mean | evaluation/evaluate_codecs.py:351-359 | np.mean: none for an empty list, else the sum over the count |
| EvaluateCodecs.MeanRatios | evaluation/evaluate_codecs.py:351-359 | each quantity's mean is the mean of its projection |
| EvaluateCodecs.MeanOfConcat | evaluation/evaluate_codecs.py:351-359 | the mean of a concatenation weights each part by its length |
| EvaluateCodecs.PooledWeighted | evaluation/evaluate_codecs.py:351-359 | the pooled total counts every file once: its sum is the length-weighted sum of category sums |
| EvaluateCodecs.FileWeightedExample | evaluation/evaluate_codecs.py:351-359 | the total mean differs from the mean of category means (20 against 22.5) |
| EvaluateCodecs.TotalMean | evaluation/evaluate_codecs.py:351-359 | the total is the mean of the concatenated per-file lists |
| EvaluateCodecs.Summarize | evaluation/evaluate_codecs.py:361-394 | each category mean is its own list's mean, and the total is the pooled mean |
| EvaluateCodecs.Aggregate | evaluation/evaluate_codecs.py:351-394 | one summary per configuration, each of its own table |

## Left out

- Float arithmetic: `CalculateCoefficient`'s autocorrelation ratio, the optimal Rice parameter estimates, LPC coefficient computation and the code-length estimate are parameters. `LPC_QuantizeCoefficients` takes `frexp`'s exponent as a parameter and rounds over reals.
- SIMD variants of predict and synthesize (the `SRLA_USE_SSE41` and `SRLA_USE_AVX2` branches of srla_lpc_predict.c and srla_lpc_synthesize.c) are not modelled; only the generic loops are.
- `SRLAEncoder_EncodeCompressData` and `SRLADecoder_DecodeCompressData` are oracles: the predictor choice and multi-channel processing are not modelled. The compressed payload and its length are given by `BlockCoder.compress` and `BlockDecompressor`.
- SrlaRoundTrip.BlockRoundTrip: a compressed block restores its samples under the hypothesis `Restorable`, which states that the decompressor inverts the compressor; it is not proved from the payload layout.
- `CalculateWorkSize` and `Create` memory layout, alignment and work-buffer sizes are not modelled; only the configuration checks are.
- The preset table is abstracted to its parameter counts. `include/srla.h` sets the number of presets to 7 while `srla_internal.c` lists 14 rows; the model follows the count of 7 and the first seven rows.
- SrlaRoundTrip.BlocksRoundTrip and SrlaRoundTrip.WholeRoundTrip hold under the hypothesis `StreamRestorable`, that every compressed block of the stream is restorable.
- SrlaRoundTrip.BlockRoundTrip: holds for blocks of fewer than 2^16 samples. The encoder writes the per-channel sample count in 16 bits (srla_encoder.c line 910), while SRLAEncoder_SetEncodeParameter accepts any 32-bit block size, so a longer block does not survive the round trip (SrlaRoundTrip.CountFieldTruncated).
- SrlaRoundTrip.BlocksRoundTrip: holds when the block size is below 2^16 samples, for the same reason.
- SrlaRoundTrip.WholeRoundTrip: holds when the block size is below 2^16 samples, for the same reason.
- StaticHuffman.BuildTree: counts are unbounded naturals and merged weights are exact sums. The source adds them in `uint32_t` and compares them against the `UINT32_MAX` sentinel, so the two agree only while the normalized counts total below 2^32 − 1, the bound StaticHuffman.BuildTreeValid, StaticHuffman.CodeRoundTrip and StaticHuffman.CheckedRoundTrip assume; above it the source's sums wrap and it builds a different tree, which the model does not capture.
- StaticHuffman.BuildHuffmanTree: computes BuildTree, with the same gap for counts that total 2^32 − 1 or more.
- SrlaPartition.Parameter: the estimates are parameters, bounded by `EstimatesInRange` only to the source's types (a Rice parameter below 32, a `uint32_t` Golomb estimate of at least 1). The recursive Rice parameter is capped at k2 = 30, which departs from the source only for estimates of 2^31 or more, where the source's `1U << k1` with k1 = 32 is undefined (see "## Findings"); SrlaPartition.OrderParameters, SrlaPartition.BestOrder, SrlaPartition.EncodedLength, SrlaCoder.EncodedParts and the search and encode methods of SrlaCoder.Coder use the capped parameter.
- SrlaCoder.Coder.Encode: on the Rice path (block mean below 2) the samples must avoid INT32_MIN. Its zig-zag value 0xFFFF_FFFF under k = 0 makes `BitWriter_PutZeroRun`'s run plus one wrap to 0, which the model does not code; reaching it needs a block of more than 2^31 samples. The recursive Rice path takes every int32 sample.
- SrlaCoder.Coder.EncodePartitionedRecursiveRice: the same Rice-path limit as SrlaCoder.Coder.Encode.
- SrlaLpcPredict.LpcPredict: requires order ≤ n. SRLALPC_Predict does not check this; preset 0 codes with 32 parameters, so a final block of fewer than 32 samples reaches it (srla_encoder.c lines 782-783), and the source's first loop then writes `residual` past `num_samples`. That overrun is not modelled.
- SrlaLpcSynthesize.LpcSynthesize: requires order ≤ n. The decoder passes the stream's coefficient order without comparing it to the block length (srla_decoder.c lines 476 and 536), and the source's first loop then writes `data` past `num_samples`. That overrun is not modelled.
- StaticHuffman.ConvertTreeToCodesCore: code words are unbounded naturals built by doubling; the source shifts a `uint32_t code`, so a leaf deeper than 32 (34 Fibonacci counts give depth 33) loses the top bits of its code, which the model does not capture. StaticHuffman.CodeTableFits shows the two agree while every code word is at most 32 bits.
- StaticHuffman.ConvertTreeToCodes: the same 32-bit width as StaticHuffman.ConvertTreeToCodesCore.
- StaticHuffman.CodeRoundTrip: stated for the model's code word; for a word longer than 32 bits the source's `BitWriter_PutBits` in StaticHuffman_PutCode asserts, and StaticHuffman.PutCode requires at most 32 bits.
- WavFormat.SampleCount: the assertion that the data size is a whole number of frames (wav.c line 195) is not modelled; the count is the floor quotient.
- Null pointers are modelled where the source tests them (`array?`); `malloc`/`fopen` failures beyond the `isOpen` flag are not.
- Lpc.Predict: requires order ≤ n. LPC_Predict does not check this, and with a longer order its first loop (lpc.c lines 1431-1437) reads `data` and writes `residual` past `num_samples`; that overrun is not modelled.
- Lpc.Synthesize: requires order ≤ n. LPC_Synthesize does not check this, and with a longer order its first loop (lpc.c lines 1461-1467) reads and writes `data` past `num_samples`; that overrun is not modelled.
- Lpc.QuantizeCoefficients: the null `coef_rshift` out-pointer check is not modelled, because out-parameters cannot be null.
- BitStreams.BitStream.GetBits: a refill needs 4 readable bytes; the source asserts only that the cursor is before the tail.
- C signed-overflow wrap-around in predict, synthesize, the stereo conversions and the pre-emphasis and de-emphasis filters (`prev * coef` in `int32_t`, srla_utility.c lines 237, 258 and 260) is not modelled (samples are unbounded integers). The 32-bit wrap of checksum sums and of the coder's length sums is modelled only where stated.
- The static Huffman coder and the WAV library work on a little-endian host; byte order of the host is not modelled.
- WavApi.WriteToFile requires a frame to fit the writer's buffer, as WavWriter.Writer.PutWAVPcmData does.
- WavWriter.Writer.PutWAVPcmData: for supported depths it requires 0 < (bps/8)·channels ≤ BUFFER_SIZE. With 0 channels the source divides by zero, and with a frame larger than the buffer its loop writes nothing and never ends; neither behaviour is modelled.
- WavWriter.Writer.PutBits: n ≤ 64 and `nbytes` ≤ 8 are required, since the C code's 64-bit buffer cannot hold more.
- `include/wav.h` declares a different structure; the model follows `wav.c`.
- evaluate_codecs.py:
  - command strings, shell quoting and `timeit` are not modelled. Times are given by the tool runs.
  - `glob` and `sort` are not modelled; the files of each category are given in order.
  - `filecmp.cmp`'s shallow signature shortcut is not modelled: equality is by content.
  - floating point and `np.mean` rounding are reals.
  - the CSV files are not modelled, nor the repeated last row written at line 349.
  - `scipy.io.wavfile` is an oracle: frame count and rate are given.
  - `Path.with_suffix` is modelled for the names the script uses, not for every edge case.
  - The quoted `in_filename` passed to `post_encode` is not modelled: the hooks ignore it.
  - A clean start (no temporary files present before the run) is assumed.

## Findings

| source | as written | input that shows it | evidently intended | confidence | as-written member | corrected member |
|---|---|---|---|---|---|---|
| libs/srla_coder/src/srla_coder.c:326-331 | k2 = LOG2FLOOR of the fast Golomb estimate and k1 = k2 + 1, with no cap, and `1U << k1` at lines 194 and 380 | a one-sample partition holding -0x7FFF_FFFF: zig-zag value 0xFFFF_FFFD, estimate 0.66794162356 · 4294967294 ≥ 2^31, so k2 = 31 and k1 = 32, a shift by the whole 32-bit word | k1 at most 31, as the 32-bit code words need; k2 capped at 30 | not executed | SrlaPartition.AsWrittenParameterOverflow | SrlaPartition.CappedRecursiveRiceParameters |
| libs/srla_coder/src/srla_coder.c:384-402 | the fast path casts u and 2^k1 to `int32_t` before subtracting them | k1 = 1, k2 = 0, u = 0xC000_0000: the signed casts make u − 2^k1 negative, `SRLAUTILITY_MAX(0, ·)` clamps its quotient to 0, and only the k1 + 1 = 2 bits remain, where the code is 0xC000_0000 bits long | the length of the code | not executed | SrlaCodes.FastSampleLengthCounterexample | SrlaCodes.FastSampleLengthCorrect |
| libs/srla_decoder/src/srla_decoder.c:622-695 | the block size is checked against the data but not against the 11-byte header, and nothing is checked before the first fields are read | bytes FF FF 00 00 00 01 00: size 1 passes `size + 6 > data_size`, the buffer is shorter than the 11-byte header, and the checksum length size-2 wraps to 0xFFFF_FFFF | blocks shorter than their header are refused | not executed | SrlaDecoder.AsWrittenBlockHeaderOverread | SrlaDecoder.ShortBlockRefused |
| libs/srla_encoder/src/srla_encoder.c:474-511 | the raw writer asserts the write pointer stays strictly below `data_size` after every byte | a buffer of exactly n·ch·bps/8 bytes passes the size check and then fails the assertion on the last byte | the last byte may end at `data_size` | not executed | SrlaEncoder.AsWrittenRawAssertsRejectExactBuffer | SrlaEncoder.RawWritesWithin |
| libs/srla_encoder/src/srla_encoder.c:900-951 | the payload capacity is `data_size - 11` without checking that the buffer holds the header | data_size 5: the capacity wraps to 2^32-6 | INSUFFICIENT_BUFFER | not executed | SrlaEncoder.AsWrittenBlockOverrun | SrlaEncoder.BlockFitsBuffer |
| libs/wav/src/wav.c:433-481 | the refill ignores how many bytes `fread` loaded | a 100-byte file: byte 100 reads as 0 instead of an IO error | IO at the end of the file | not executed | WavParser.AsWrittenRefillPastEnd | WavParser.Parser.GetBits |
| libs/wav/src/wav.c:484-496 | seeking from the current byte subtracts as if the whole buffer were loaded | 100 bytes loaded, at byte 35, offset 2: the target is negative instead of 38 | the target counts only the bytes loaded | not executed | WavParser.AsWrittenSeekShortRead | WavParser.Parser.Seek |
| libs/wav/src/wav.c:172-190 | the next chunk position is computed in 32 signed bits | a chunk of size 0xFFFF_FFF8: the next position is the same chunk, forever | the scan ends with an IO error | not executed | WavFormat.AsWrittenScanStalls | WavFormat.ChunkScan |
| libs/wav/src/wav.c:192-196 | the sample count divides by bytes-per-sample times channels | 4-bit samples: the divisor is 0 | INVALID_FORMAT | not executed | WavFormat.AsWrittenSampleCountByZero | WavFormat.DataChunk |
| evaluation/evaluate_codecs.py:326-330 | only the two temporary names are deleted | TAK: the renamed input "compressed.tak" remains after every trial | every file a trial creates is removed | not executed | EvaluateCodecs.AsWrittenCleanupLeaks | EvaluateCodecs.Cleanup |
| libs/static_huffman/src/static_huffman.c:145-165 | the decoder reads a bit before testing for a leaf | one symbol: PutCode writes no bits, GetCode reads one | the walk stops at a leaf before reading, so every code word, the empty one included, reads back exactly | not executed | StaticHuffman.SingleSymbolGetCode | StaticHuffman.GetCodeChecked |
