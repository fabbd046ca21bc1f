// What the decoder makes of what the encoder writes: the header, each kind
// of block, and a whole stream.

module SrlaRoundTrip {
  import opened Bits
  import opened SrlaUtility
  import opened Fletcher16
  import opened SrlaFormat
  import SrlaEncoder
  import SrlaDecoder

  /* ---------------------------------------------------------------- */
  /* The header.                                                       */
  /* ---------------------------------------------------------------- */

  /** The header the decoder reads back: the encoder stores the library's
      own format and codec versions in place of the header's. */
  function Stamped(h: Header): (r: Header)
    ensures r.formatVersion == FORMAT_VERSION && r.codecVersion == CODEC_VERSION
    ensures r.(formatVersion := h.formatVersion, codecVersion := h.codecVersion) == h
  {
    h.(formatVersion := FORMAT_VERSION, codecVersion := CODEC_VERSION)
  }

  /** A field of k bytes holding v reads back as v. */
  lemma FieldRoundTrip(v: nat, k: nat)
    requires v < Pow2(8 * k)
    ensures FromBE(BE(v, k)) == v
  {
    hide BE, FromBE, Pow2;
    FromBEOfBE(v, k);
    DivModUnique(v, Pow2(8 * k), 0, v);
  }

  /** A single byte reads as itself. */
  lemma OneByte(b: byte)
    ensures FromBE([b]) == b
  {
    assert [b][..0] == [];
  }

  /** The field q that follows p at the start of d. */
  lemma Peel(d: seq<byte>, p: seq<byte>, q: seq<byte>)
    requires |p| + |q| <= |d| && d[..|p| + |q|] == p + q
    ensures d[..|p|] == p && d[|p|..|p| + |q|] == q
  {
    assert d[..|p|] == d[..|p| + |q|][..|p|];
    assert d[|p|..|p| + |q|] == d[..|p| + |q|][|p|..];
  }

  /** Where SRLAEncoder_EncodeHeader puts each field. */
  lemma HeaderLayout(h: Header, rest: seq<byte>)
    ensures var d := HeaderBytes(h) + rest;
            d[..4] == SIGNATURE && d[4..8] == BE(FORMAT_VERSION, 4) && d[8..12] == BE(CODEC_VERSION, 4) &&
            d[12..14] == BE(h.numChannels, 2) && d[14..18] == BE(h.numSamples, 4) &&
            d[18..22] == BE(h.samplingRate, 4) && d[22..24] == BE(h.bitsPerSample, 2) &&
            d[24..28] == BE(h.maxNumSamplesPerBlock, 4) && d[28..29] == BE(h.preset, 1)
  {
    var d := HeaderBytes(h) + rest;
    var a1 := SIGNATURE + BE(FORMAT_VERSION, 4);
    var a2 := a1 + BE(CODEC_VERSION, 4);
    var a3 := a2 + BE(h.numChannels, 2);
    var a4 := a3 + BE(h.numSamples, 4);
    var a5 := a4 + BE(h.samplingRate, 4);
    var a6 := a5 + BE(h.bitsPerSample, 2);
    var a7 := a6 + BE(h.maxNumSamplesPerBlock, 4);
    assert d[..29] == a7 + BE(h.preset, 1);
    Peel(d, a7, BE(h.preset, 1));
    Peel(d, a6, BE(h.maxNumSamplesPerBlock, 4));
    Peel(d, a5, BE(h.bitsPerSample, 2));
    Peel(d, a4, BE(h.samplingRate, 4));
    Peel(d, a3, BE(h.numSamples, 4));
    Peel(d, a2, BE(h.numChannels, 2));
    Peel(d, a1, BE(CODEC_VERSION, 4));
    Peel(d, SIGNATURE, BE(FORMAT_VERSION, 4));
  }

  /** The 29 bytes SRLAEncoder_EncodeHeader writes, followed by anything,
      decode to the header it was given (versions stamped), and the
      decoder's format check accepts exactly the headers the encoder
      writes. */
  lemma HeaderRoundTrip(h: Header, rest: seq<byte>)
    ensures SrlaDecoder.HeaderResult(HeaderBytes(h) + rest, true) == Success(Stamped(h))
    ensures SrlaDecoder.CheckHeaderFormat(Stamped(h)) == Ok <==> SrlaEncoder.Encodable(h)
  {
    hide BE, FromBE, HeaderBytes, SrlaDecoder.ParseHeader;
    var d := HeaderBytes(h) + rest;
    HeaderLayout(h, rest);
    Pow2Values();
    FieldRoundTrip(FORMAT_VERSION, 4);
    FieldRoundTrip(CODEC_VERSION, 4);
    FieldRoundTrip(h.numChannels, 2);
    FieldRoundTrip(h.numSamples, 4);
    FieldRoundTrip(h.samplingRate, 4);
    FieldRoundTrip(h.bitsPerSample, 2);
    FieldRoundTrip(h.maxNumSamplesPerBlock, 4);
    FieldRoundTrip(h.preset, 1);
    assert d[28..29] == [d[28]];
    OneByte(d[28]);
    SrlaDecoder.ParsedFields(d);
  }

  /* ---------------------------------------------------------------- */
  /* One block.                                                        */
  /* ---------------------------------------------------------------- */

  /** The fields of a block the encoder writes, read back by the decoder;
      the sample count must fit its 16 bits and the size its 32. */
  lemma BlockFields(t: byte, n: nat, payload: seq<byte>, rest: seq<byte>)
    requires n < 0x1_0000 && |payload| + 5 < 0x1_0000_0000
    ensures var d := BlockBytes(t, n, payload) + rest;
            |d| >= BLOCK_HEADER_SIZE && SrlaDecoder.SyncField(d) == BLOCK_SYNC_CODE &&
            SrlaDecoder.SizeField(d) == |payload| + 5 && d[8..|payload| + 11] == ChecksummedBytes(t, n, payload) &&
            SrlaDecoder.ChecksumField(d) == Fletcher16Of(ChecksummedBytes(t, n, payload)) &&
            d[8] == t && SrlaDecoder.CountField(d) == n && d[BLOCK_HEADER_SIZE..] == payload + rest
  {
    hide BlockBytes, ChecksummedBytes, BE, FromBE, Fletcher16Of, Pow2;
    BlockLayout(t, n, payload, rest);
    var sum := Fletcher16Of(ChecksummedBytes(t, n, payload));
    Pow2Values();
    Fletcher16Range(ChecksummedBytes(t, n, payload));
    FromBEOfBE(BLOCK_SYNC_CODE, 2);
    FromBEOfBE(|payload| + 5, 4);
    FromBEOfBE(sum, 2);
    FromBEOfBE(n, 2);
  }

  /** SRLAEncoder_EncodeBlock writes the per-channel sample count in 16
      bits although the block size it accepts is a 32-bit value: the
      decoder reads back the count modulo 2^16, so a block of 2^16 samples
      announces none. */
  lemma CountFieldTruncated(t: byte, n: nat, payload: seq<byte>, rest: seq<byte>)
    ensures SrlaDecoder.CountField(BlockBytes(t, n, payload) + rest) == n % 0x1_0000
    ensures n == 0x1_0000 ==> SrlaDecoder.CountField(BlockBytes(t, n, payload) + rest) == 0
  {
    hide BlockBytes, ChecksummedBytes, BE, FromBE, Fletcher16Of, Pow2;
    BlockLayout(t, n, payload, rest);
    Pow2Values();
    FromBEOfBE(n, 2);
  }

  /** Where each field of a written block sits. */
  lemma BlockLayout(t: byte, n: nat, payload: seq<byte>, rest: seq<byte>)
    ensures var d := BlockBytes(t, n, payload) + rest;
            |d| >= BLOCK_HEADER_SIZE && d[..2] == BE(BLOCK_SYNC_CODE, 2) && d[2..6] == BE(|payload| + 5, 4) &&
            d[6..8] == BE(Fletcher16Of(ChecksummedBytes(t, n, payload)), 2) &&
            d[8..|payload| + 11] == ChecksummedBytes(t, n, payload) && d[8] == t && d[9..11] == BE(n, 2) &&
            d[BLOCK_HEADER_SIZE..] == payload + rest
  {
    hide Fletcher16Of;
    var d := BlockBytes(t, n, payload) + rest;
    assert d[..2] == BE(BLOCK_SYNC_CODE, 2);
    assert d[2..6] == BE(|payload| + 5, 4);
    assert d[6..8] == BE(Fletcher16Of(ChecksummedBytes(t, n, payload)), 2);
    assert d[8..|payload| + 11] == ChecksummedBytes(t, n, payload);
    assert d[9..11] == BE(n, 2);
    assert d[BLOCK_HEADER_SIZE..] == payload + rest;
  }

  /** The block header the encoder writes passes every check of the
      decoder, with or without the checksum check, once the buffer has
      room for its samples. */
  lemma BlockHeaderAccepted(checksumCheck: bool, t: byte, n: nat, payload: seq<byte>, rest: seq<byte>, bufSamples: nat)
    requires n < 0x1_0000 && |payload| + 5 < 0x1_0000_0000 && n <= bufSamples
    ensures SrlaDecoder.BlockHeaderError(checksumCheck, BlockBytes(t, n, payload) + rest, bufSamples) == Ok
  {
    BlockFields(t, n, payload, rest);
  }

  /** The first n samples of each of the c channels. */
  function Rows(block: seq<seq<int>>, c: nat, n: nat): (r: seq<seq<int>>)
    requires SrlaEncoder.Shaped(block, c, n)
    ensures |r| == c && forall ch | 0 <= ch < c :: r[ch] == block[ch][..n]
  {
    seq(c, ch requires 0 <= ch < c => block[ch][..n])
  }

  /** The compressed payload of a block decodes back to it, followed by
      any bytes, and the decoder consumes the payload exactly. */
  ghost predicate Recovers(dc: SrlaDecoder.BlockDecompressor, payload: seq<byte>, rest: seq<byte>,
                           block: seq<seq<int>>, c: nat, n: nat)
    requires SrlaEncoder.Shaped(block, c, n)
  {
    dc.consumed(payload + rest, n) == |payload| &&
    SrlaDecoder.Decompressed(dc, payload + rest, c, n) == Rows(block, c, n)
  }

  /** The decompressor inverts the compressor on every block of c
      channels. */
  ghost predicate Inverts(o: SrlaEncoder.BlockCoder, dc: SrlaDecoder.BlockDecompressor, c: nat)
  {
    forall block, capacity, n, rest | SrlaEncoder.Shaped(block, c, n) && o.compress(block, capacity).Success? ::
      Recovers(dc, o.compress(block, capacity).value, rest, block, c, n)
  }

  /** What the encoder needs for a block to come back: a raw block has a
      bit depth of 8, 16 or 24 and samples in its range, a compressed one
      a decompressor that inverts the compressor. */
  ghost predicate Restorable(h: Header, o: SrlaEncoder.BlockCoder, dc: SrlaDecoder.BlockDecompressor,
                             block: seq<seq<int>>, n: nat)
    requires SrlaEncoder.Shaped(block, h.numChannels, n)
  {
    var t := SrlaEncoder.BlockTypeFor(o, block, h.numChannels, n);
    (t == RAW_DATA ==> RawWidth(h.bitsPerSample) > 0 && InRange(block, h.numChannels, n, h.bitsPerSample)) &&
    (t == COMPRESS_DATA ==> Inverts(o, dc, h.numChannels))
  }

  /** The w bytes of sample smpl of channel ch in a raw payload. */
  lemma RawSlice(block: seq<seq<int>>, c: nat, n: nat, w: nat, rest: seq<byte>, smpl: nat, ch: nat)
    requires SrlaEncoder.Shaped(block, c, n) && w > 0 && smpl < n && ch < c
    ensures var k := smpl * c + ch;
            var p := RawPayload(block, c, n, w) + rest;
            k * w + w <= |p| && p[k * w..k * w + w] == BE(SignedToUnsigned(block[ch][smpl]), w)
  {
    hide RawByte, BE, SignedToUnsigned;
    var k := smpl * c + ch;
    var p := RawPayload(block, c, n, w) + rest;
    SampleWithin(smpl, n, c, w, ch);
    forall j | 0 <= j < w
      ensures p[k * w..k * w + w][j] == BE(SignedToUnsigned(block[ch][smpl]), w)[j]
    {
      SrlaEncoder.RawByteAt(block, c, n, w, smpl, ch, j);
      assert p[k * w + j] == RawByte(block, c, n, w, k * w + j);
    }
  }

  /** Sample smpl of channel ch of a raw payload comes back. */
  lemma RawSampleRoundTrip(block: seq<seq<int>>, c: nat, n: nat, bps: nat, rest: seq<byte>, smpl: nat, ch: nat)
    requires SrlaEncoder.Shaped(block, c, n) && RawWidth(bps) > 0 && InRange(block, c, n, bps)
    requires smpl < n && ch < c
    ensures var w := RawWidth(bps);
            var p := RawPayload(block, c, n, w) + rest;
            (smpl * c + ch) * w + w <= |p| &&
            SrlaDecoder.RawSample(p, c, w, smpl, ch) == block[ch][smpl]
  {
    hide RawPayload, BE, FromBE;
    var w := RawWidth(bps);
    var x := block[ch][smpl];
    RawSlice(block, c, n, w, rest, smpl, ch);
    assert bps == 8 * w;
    ZigZagBound(x, bps);
    FieldRoundTrip(SignedToUnsigned(x), w);
    SignedRoundTrip(x);
  }

  /** The samples of a raw payload come back. */
  lemma RawRoundTrip(h: Header, block: seq<seq<int>>, n: nat, rest: seq<byte>)
    requires SrlaEncoder.Shaped(block, h.numChannels, n) && RawWidth(h.bitsPerSample) > 0
    requires InRange(block, h.numChannels, n, h.bitsPerSample)
    ensures var c := h.numChannels;
            var w := RawWidth(h.bitsPerSample);
            SrlaDecoder.RawOutcome(h, RawPayload(block, c, n, w) + rest, n) ==
              Success(SrlaDecoder.Decoded(Rows(block, c, n), n, n * c * w))
  {
    var c := h.numChannels;
    var w := RawWidth(h.bitsPerSample);
    var p := RawPayload(block, c, n, w) + rest;
    RawSize(h.bitsPerSample, n, c);
    var s := SrlaDecoder.RawSamples(p, c, n, w);
    forall ch | 0 <= ch < c
      ensures s[ch] == block[ch][..n]
    {
      forall smpl | 0 <= smpl < n
        ensures s[ch][smpl] == block[ch][smpl]
      {
        RawSampleRoundTrip(block, c, n, h.bitsPerSample, rest, smpl, ch);
      }
    }
    assert s == Rows(block, c, n);
  }

  /** A block SRLAEncoder_EncodeBlock writes, followed by anything, is
      decoded back to its samples, and the size the decoder reports is
      that of the block.  The decoder's header hd need only agree with the
      encoder's on the channel count and the bit depth. */
  lemma BlockRoundTrip(checksumCheck: bool, h: Header, hd: Header, o: SrlaEncoder.BlockCoder, dc: SrlaDecoder.BlockDecompressor,
                       block: seq<seq<int>>, n: nat, capacity: nat, rest: seq<byte>, bufSamples: nat)
    requires hd.numChannels == h.numChannels && hd.bitsPerSample == h.bitsPerSample
    requires SrlaEncoder.Shaped(block, h.numChannels, n) && n < 0x1_0000 && n <= bufSamples
    requires SrlaEncoder.EncodedBlock(h, o, block, n, capacity).Success?
    requires |SrlaEncoder.EncodedBlock(h, o, block, n, capacity).value| < 0x1_0000_0000
    requires Restorable(h, o, dc, block, n)
    ensures var e := SrlaEncoder.EncodedBlock(h, o, block, n, capacity).value;
            SrlaDecoder.BlockOutcome(checksumCheck, hd, dc, e + rest, bufSamples) ==
              Success(SrlaDecoder.Decoded(Rows(block, h.numChannels, n), n, |e|))
  {
    hide Fletcher16Of, BE, FromBE, RawPayload, SrlaDecoder.Decompressed, SrlaDecoder.RawOutcome;
    var c := h.numChannels;
    var t := SrlaEncoder.BlockTypeFor(o, block, c, n);
    var p := SrlaEncoder.Payload(h, o, t, block, n, capacity).value;
    var e := BlockBytes(t, n, p);
    BlockFields(t, n, p, rest);
    var d := e + rest;
    assert d[BLOCK_HEADER_SIZE..] == p + rest;
    var po := SrlaDecoder.PayloadOutcome(hd, dc, t, p + rest, n);
    if t == RAW_DATA {
      RawRoundTrip(hd, block, n, rest);
    } else if t == SILENT_DATA {
      forall ch | 0 <= ch < c
        ensures SrlaDecoder.Silence(c, n)[ch] == block[ch][..n]
      {
        assert forall smpl | 0 <= smpl < n :: block[ch][..n][smpl] == block[ch][smpl];
      }
      assert SrlaDecoder.Silence(c, n) == Rows(block, c, n);
    } else {
      assert Recovers(dc, p, rest, block, c, n);
    }
    assert po == Success(SrlaDecoder.Decoded(Rows(block, c, n), n, |p|));
  }

  /* ---------------------------------------------------------------- */
  /* A whole stream.                                                   */
  /* ---------------------------------------------------------------- */

  /** Everything the encoder needs for every block of the input to come
      back: a bit depth of 8, 16 or 24 with the samples in its range, and a
      decompressor that inverts the compressor. */
  ghost predicate StreamRestorable(h: Header, o: SrlaEncoder.BlockCoder, dc: SrlaDecoder.BlockDecompressor,
                                   input: seq<seq<int>>)
    requires SrlaEncoder.Shaped(input, h.numChannels, h.numSamples)
  {
    RawWidth(h.bitsPerSample) > 0 && InRange(input, h.numChannels, h.numSamples, h.bitsPerSample) &&
    Inverts(o, dc, h.numChannels)
  }

  /** A block of a restorable input is restorable. */
  lemma BlockRestorable(h: Header, o: SrlaEncoder.BlockCoder, dc: SrlaDecoder.BlockDecompressor,
                        input: seq<seq<int>>, progress: nat, n: nat)
    requires SrlaEncoder.Shaped(input, h.numChannels, h.numSamples) && StreamRestorable(h, o, dc, input)
    requires progress + n <= h.numSamples
    ensures Restorable(h, o, dc, BlockOf(input, h.numChannels, progress, n), n)
  {
    var c := h.numChannels;
    var block := BlockOf(input, c, progress, n);
    forall ch, smpl | 0 <= ch < c && 0 <= smpl < n
      ensures block[ch][smpl] == input[ch][progress + smpl]
    {
    }
  }

  /** A block SRLAEncoder_EncodeBlock writes once its checks pass: at
      least the block header, in a buffer with room for that header. */
  lemma EncodedBlockOf(h: Header, o: SrlaEncoder.BlockCoder, block: seq<seq<int>>, n: nat, dataSize: nat)
    requires n <= h.maxNumSamplesPerBlock ==> SrlaEncoder.Shaped(block, h.numChannels, n)
    requires SrlaEncoder.BlockResult(true, h, o, block, n, true, dataSize).Success?
    ensures BLOCK_HEADER_SIZE <= dataSize && SrlaEncoder.Shaped(block, h.numChannels, n)
    ensures var e := SrlaEncoder.EncodedBlock(h, o, block, n, dataSize - BLOCK_HEADER_SIZE);
            e == SrlaEncoder.BlockResult(true, h, o, block, n, true, dataSize) && BLOCK_HEADER_SIZE <= |e.value|
  {
  }

  /** Writing no block changes nothing. */
  lemma ApplyAllNone(g: seq<seq<int>>)
    ensures SrlaDecoder.ApplyAll(g, []) == g
  {
  }

  /** Writing the first block, then the rest, is writing them all. */
  lemma {:induction false} ApplyAllCons(g: seq<seq<int>>, p: SrlaDecoder.Placed, ps: seq<SrlaDecoder.Placed>)
    ensures SrlaDecoder.ApplyAll(g, [p] + ps) ==
            SrlaDecoder.ApplyAll(SrlaDecoder.Overwrite(g, p.at, p.block.samples), ps)
    decreases |ps|
  {
    if |ps| == 0 {
      assert [p] + ps == [p];
      assert [p][..0] == [];
    } else {
      var last := ps[|ps| - 1];
      assert ([p] + ps)[..|ps|] == [p] + ps[..|ps| - 1];
      ApplyAllCons(g, p, ps[..|ps| - 1]);
    }
  }

  /** The blocks the encoder writes from sample `progress` on, after any
      d0 bytes, are decoded one after the other from there by the decoder
      (whose header agrees with the encoder's on the channel count, the bit
      depth and the sample count): on every grid g with rows long enough,
      the cells of samples progress..numSamples of each channel come back
      as the input and every other cell keeps its value. */
  lemma {:induction false} BlocksRoundTrip(checksumCheck: bool, h: Header, hd: Header, o: SrlaEncoder.BlockCoder,
                                           dc: SrlaDecoder.BlockDecompressor, input: seq<seq<int>>, d0: seq<byte>,
                                           progress: nat, dataSize: nat, bufSamples: nat, g: seq<seq<int>>)
    requires SrlaEncoder.Fits(o) && 0 < h.maxNumSamplesPerBlock < 0x1_0000 && |d0| <= dataSize < 0x1_0000_0000
    requires SrlaEncoder.Shaped(input, h.numChannels, h.numSamples) && StreamRestorable(h, o, dc, input)
    requires hd.numChannels == h.numChannels && hd.bitsPerSample == h.bitsPerSample && hd.numSamples == h.numSamples
    requires progress <= h.numSamples <= bufSamples
    requires h.numChannels <= |g| && forall i | 0 <= i < |g| :: h.numSamples <= |g[i]|
    requires SrlaEncoder.WholeBlocks(h, o, input, progress, |d0|, dataSize).Success?
    ensures var e := SrlaEncoder.WholeBlocks(h, o, input, progress, |d0|, dataSize).value;
            var w := SrlaDecoder.WholeBlocks(checksumCheck, hd, dc, d0 + e, |d0|, progress, bufSamples);
            w.Success? &&
            var r := SrlaDecoder.ApplyAll(g, w.value);
            forall ch, j | 0 <= ch < h.numChannels && 0 <= j < |g[ch]| ::
              r[ch][j] == if progress <= j < h.numSamples then input[ch][j] else g[ch][j]
    decreases h.numSamples - progress
  {
    hide SrlaEncoder.WholeBlocks, SrlaDecoder.WholeBlocks, SrlaEncoder.BlockResult, SrlaDecoder.BlockOutcome,
         SrlaDecoder.ApplyAll, SrlaDecoder.Overwrite, SrlaEncoder.EncodedBlock, StreamRestorable, Restorable;
    var c := h.numChannels;
    var e := SrlaEncoder.WholeBlocks(h, o, input, progress, |d0|, dataSize).value;
    if progress == h.numSamples {
      SrlaEncoder.WholeEnd(h, o, input, progress, |d0|, dataSize);
      SrlaDecoder.WholeEnd(checksumCheck, hd, dc, d0 + e, |d0|, progress, bufSamples);
      ApplyAllNone(g);
    } else {
      var n := Min(h.maxNumSamplesPerBlock, h.numSamples - progress);
      var block := BlockOf(input, c, progress, n);
      var b := SrlaEncoder.BlockResult(true, h, o, block, n, true, dataSize - |d0|);
      SrlaEncoder.WholeStep(h, o, input, progress, |d0|, dataSize);
      EncodedBlockOf(h, o, block, n, dataSize - |d0|);
      var eRest := SrlaEncoder.WholeBlocks(h, o, input, progress + n, |d0| + |b.value|, dataSize).value;
      assert e == b.value + eRest;
      var d := d0 + e;
      assert d[|d0|..] == b.value + eRest;
      BlockRestorable(h, o, dc, input, progress, n);
      BlockRoundTrip(checksumCheck, h, hd, o, dc, block, n, dataSize - |d0| - BLOCK_HEADER_SIZE, eRest, bufSamples - progress);
      var decoded := SrlaDecoder.Decoded(Rows(block, c, n), n, |b.value|);
      SrlaDecoder.WholeStep(checksumCheck, hd, dc, d, |d0|, progress, bufSamples);
      var p := SrlaDecoder.Placed(progress, decoded);
      var g' := SrlaDecoder.Overwrite(g, progress, decoded.samples);
      assert (d0 + b.value) + eRest == d;
      BlocksRoundTrip(checksumCheck, h, hd, o, dc, input, d0 + b.value, progress + n, dataSize, bufSamples, g');
      var rest := SrlaDecoder.WholeBlocks(checksumCheck, hd, dc, d, |d0| + |b.value|, progress + n, bufSamples);
      ApplyAllCons(g, p, rest.value);
      OverwriteBlock(g, input, c, progress, n, h.numSamples, SrlaDecoder.ApplyAll(g', rest.value));
    }
  }

  /** The cells a block writes, then those of the blocks after it. */
  lemma OverwriteBlock(g: seq<seq<int>>, input: seq<seq<int>>, c: nat, progress: nat, n: nat, numSamples: nat,
                       r: seq<seq<int>>)
    requires SrlaEncoder.Shaped(input, c, numSamples) && progress + n <= numSamples
    requires c <= |g| && |r| == |g| && forall i | 0 <= i < |g| :: |r[i]| == |g[i]|
    requires var g' := SrlaDecoder.Overwrite(g, progress, Rows(BlockOf(input, c, progress, n), c, n));
             forall ch, j | 0 <= ch < c && 0 <= j < |g[ch]| ::
               r[ch][j] == if progress + n <= j < numSamples then input[ch][j] else g'[ch][j]
    ensures forall ch, j | 0 <= ch < c && 0 <= j < |g[ch]| ::
              r[ch][j] == if progress <= j < numSamples then input[ch][j] else g[ch][j]
  {
    var block := BlockOf(input, c, progress, n);
    var g' := SrlaDecoder.Overwrite(g, progress, Rows(block, c, n));
    forall ch, j | 0 <= ch < c && 0 <= j < |g[ch]|
      ensures r[ch][j] == if progress <= j < numSamples then input[ch][j] else g[ch][j]
    {
      if progress <= j < progress + n {
        assert g'[ch][j] == block[ch][j - progress];
      }
    }
  }

  /** SRLADecoder_DecodeWhole on what SRLAEncoder_EncodeWhole wrote: when
      the decoder has room for the channels, the parameters and the samples
      of the stream, decoding succeeds and every sample of every channel
      comes back, whatever the buffer held; cells past the stream's samples
      keep their values. */
  lemma WholeRoundTrip(checksumCheck: bool, maxNumChannels: nat, maxNumParameters: nat, h: Header,
                       o: SrlaEncoder.BlockCoder, dc: SrlaDecoder.BlockDecompressor, input: seq<seq<int>>,
                       numSamples: u32, dataSize: nat, bufCh: nat, bufSamples: nat, g: seq<seq<int>>)
    requires SrlaEncoder.Fits(o) && SrlaEncoder.Shaped(input, h.numChannels, numSamples)
    requires dataSize < 0x1_0000_0000 && h.maxNumSamplesPerBlock < 0x1_0000
    requires SrlaEncoder.WholeResult(true, h, o, input, numSamples, true, dataSize).Success?
    requires StreamRestorable(h.(numSamples := numSamples), o, dc, input)
    requires h.numChannels <= maxNumChannels && PresetMaxNumParameters(h.preset) <= maxNumParameters
    requires h.numChannels <= bufCh <= |g| && numSamples <= bufSamples && forall i | 0 <= i < |g| :: bufSamples <= |g[i]|
    ensures var d := SrlaEncoder.WholeResult(true, h, o, input, numSamples, true, dataSize).value;
            var w := SrlaDecoder.WholeResult(checksumCheck, maxNumChannels, maxNumParameters, dc, d, true, bufCh, bufSamples);
            w.Success? &&
            var r := SrlaDecoder.ApplyAll(g, w.value);
            forall ch, j | 0 <= ch < h.numChannels && 0 <= j < |g[ch]| ::
              r[ch][j] == if j < numSamples then input[ch][j] else g[ch][j]
  {
    var h' := h.(numSamples := numSamples);
    assert SrlaEncoder.HeaderCheck(h', true, dataSize) == Ok;
    var e := SrlaEncoder.WholeBlocks(h', o, input, 0, HEADER_SIZE, dataSize).value;
    var d := HeaderBytes(h') + e;
    HeaderRoundTrip(h', e);
    BlocksRoundTrip(checksumCheck, h', Stamped(h'), o, dc, input, HeaderBytes(h'), 0, dataSize, bufSamples, g);
  }
}
