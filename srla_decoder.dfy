/**
 * The framing half of srla_decoder.c: the file header and its checks, the
 * decoder handle, the raw and silent payloads, the block header with its
 * checksum, and the loop over the blocks of a file.
 *
 * The output buffer `int32_t **buffer` is a two-dimensional array, channel
 * by sample; a pointer `&buffer[ch][progress]` is the column offset `off`.
 * The compressed payload (SRLADecoder_DecodeCompressData: parameters,
 * residuals, synthesis, de-emphasis and channel reconstruction) is given to
 * the model as a `BlockDecompressor`.
 */
module SrlaDecoder {
  import opened Bits
  import opened SrlaUtility
  import opened Fletcher16
  import opened SrlaFormat

  /* ---------------------------------------------------------------- */
  /* Reading through a cursor.                                         */
  /* ---------------------------------------------------------------- */

  /** ByteArray_GetUint*BE: the k bytes at data[pos..], most significant
      first, as a number below 2^(8k). */
  method GetBE(data: array<byte>, pos: nat, k: nat) returns (v: nat)
    requires pos + k <= data.Length
    ensures v == FromBE(data[pos..pos + k]) && v < Pow2(8 * k)
  {
    v := 0;
    var i := 0;
    while i < k
      invariant i <= k
      invariant v == FromBE(data[pos..pos + i])
    {
      assert data[pos..pos + i + 1][..i] == data[pos..pos + i];
      v := 256 * v + data[pos + i];
      i := i + 1;
    }
  }

  /** GetBE on bytes i.. of the view d of the array from position at. */
  method GetField(data: array<byte>, at: nat, ghost d: seq<byte>, i: nat, k: nat) returns (v: nat)
    requires at + |d| <= data.Length && d == data[at..at + |d|] && i + k <= |d|
    ensures v == FromBE(d[i..i + k]) && v < Pow2(8 * k)
  {
    v := GetBE(data, at + i, k);
    assert data[at + i..at + i + k] == d[i..i + k];
  }

  /* ---------------------------------------------------------------- */
  /* The file header.                                                  */
  /* ---------------------------------------------------------------- */

  /** The fields after the signature, in the order SRLADecoder_DecodeHeader
      reads them. */
  function ParseHeader(s: seq<byte>): Header
    requires |s| >= HEADER_SIZE
  {
    Pow2Values();
    Header(FromBE(s[4..8]), FromBE(s[8..12]), FromBE(s[12..14]), FromBE(s[14..18]),
           FromBE(s[18..22]), FromBE(s[22..24]), FromBE(s[24..28]), s[28])
  }

  /** The outcome of SRLADecoder_DecodeHeader on the bytes d. */
  function HeaderResult(d: seq<byte>, hasData: bool): Outcome<Header>
  {
    if !hasData then Failure(InvalidArgument)
    else if |d| < HEADER_SIZE then Failure(InsufficientData)
    else if d[..4] != SIGNATURE then Failure(InvalidFormat)
    else Success(ParseHeader(d))
  }

  /** SRLADecoder_DecodeHeader: a missing buffer, then a short one, then a
      wrong signature; past the signature every field is read. */
  method DecodeHeader(data: array?<byte>, dataSize: nat) returns (r: Outcome<Header>)
    requires data != null ==> dataSize <= data.Length
    ensures r == HeaderResult(if data == null then [] else data[..dataSize], data != null)
    ensures data == null ==> r == Failure(InvalidArgument)
    ensures data != null && dataSize < HEADER_SIZE ==> r == Failure(InsufficientData)
    ensures r.Success? ==> data != null && data[..4] == SIGNATURE
  {
    hide FromBE, Pow2, ParseHeader;
    if data == null {
      return Failure(InvalidArgument);
    }
    if dataSize < HEADER_SIZE {
      return Failure(InsufficientData);
    }
    ghost var d := data[..dataSize];
    if data[0] != SIGNATURE[0] || data[1] != SIGNATURE[1] || data[2] != SIGNATURE[2] || data[3] != SIGNATURE[3] {
      assert d[..4] != SIGNATURE by {
        assert d[..4][0] == data[0] && d[..4][1] == data[1] && d[..4][2] == data[2] && d[..4][3] == data[3];
      }
      return Failure(InvalidFormat);
    }
    assert d[..4] == data[..4] == SIGNATURE;
    var formatVersion := GetU32(data, d, 4);
    var codecVersion := GetU32(data, d, 8);
    var numChannels := GetU16(data, d, 12);
    var numSamples := GetU32(data, d, 14);
    var samplingRate := GetU32(data, d, 18);
    var bitsPerSample := GetU16(data, d, 22);
    var maxNumSamplesPerBlock := GetU32(data, d, 24);
    var preset: u8 := data[28];
    r := Success(Header(formatVersion, codecVersion, numChannels, numSamples, samplingRate,
                        bitsPerSample, maxNumSamplesPerBlock, preset));
    ParsedFields(d);
  }

  /** ParseHeader reads each field at its offset. */
  lemma ParsedFields(d: seq<byte>)
    requires |d| >= HEADER_SIZE
    ensures var h := ParseHeader(d);
            h.formatVersion == FromBE(d[4..8]) && h.codecVersion == FromBE(d[8..12]) &&
            h.numChannels == FromBE(d[12..14]) && h.numSamples == FromBE(d[14..18]) &&
            h.samplingRate == FromBE(d[18..22]) && h.bitsPerSample == FromBE(d[22..24]) &&
            h.maxNumSamplesPerBlock == FromBE(d[24..28]) && h.preset == d[28]
  {
  }

  /** A 32-bit big-endian field of d, read from the array holding d. */
  method GetU32(data: array<byte>, ghost d: seq<byte>, pos: nat) returns (v: u32)
    requires |d| <= data.Length && d == data[..|d|] && pos + 4 <= |d|
    ensures v == FromBE(d[pos..pos + 4])
  {
    var x := GetBE(data, pos, 4);
    assert data[pos..pos + 4] == d[pos..pos + 4];
    Pow2Word();
    v := x;
  }

  /** A 16-bit big-endian field of d, read from the array holding d. */
  method GetU16(data: array<byte>, ghost d: seq<byte>, pos: nat) returns (v: u16)
    requires |d| <= data.Length && d == data[..|d|] && pos + 2 <= |d|
    ensures v == FromBE(d[pos..pos + 2])
  {
    var x := GetBE(data, pos, 2);
    assert data[pos..pos + 2] == d[pos..pos + 2];
    Pow2Values();
    v := x;
  }

  /** SRLADecoder_CheckHeaderFormat: both versions must be those of this
      library, every count nonzero and the preset known. */
  function CheckHeaderFormat(h: Header): (r: ApiResult)
    ensures r == Ok || r == InvalidFormat
  {
    if h.formatVersion != FORMAT_VERSION then InvalidFormat
    else if h.codecVersion != CODEC_VERSION then InvalidFormat
    else if h.numChannels == 0 then InvalidFormat
    else if h.numSamples == 0 then InvalidFormat
    else if h.samplingRate == 0 then InvalidFormat
    else if h.bitsPerSample == 0 then InvalidFormat
    else if h.maxNumSamplesPerBlock == 0 then InvalidFormat
    else if h.preset >= NUM_PARAMETER_PRESETS then InvalidFormat
    else Ok
  }

  /** The outcome of SRLADecoder_SetHeader on a decoder of the given
      capacities. */
  function SetHeaderCheck(maxNumChannels: nat, maxNumParameters: nat, h: Header): (r: ApiResult)
    ensures r == Ok ==> CheckHeaderFormat(h) == Ok
  {
    if CheckHeaderFormat(h) != Ok then InvalidFormat
    else if maxNumChannels < h.numChannels then InsufficientBuffer
    else if maxNumParameters < PresetMaxNumParameters(h.preset) then InsufficientBuffer
    else Ok
  }

  /* ---------------------------------------------------------------- */
  /* What a block decodes to.                                          */
  /* ---------------------------------------------------------------- */

  /** SRLADecoder_DecodeCompressData, as far as the framing sees it: sample
      `smpl` of channel `ch` of a block of n samples decoded from the
      payload bytes, and the number of bytes the decoding consumed. */
  datatype BlockDecompressor = BlockDecompressor(
    sample: (seq<byte>, nat, nat, nat) -> int,
    consumed: (seq<byte>, nat) -> nat)

  /** What a successful block decode reports: the samples it wrote into the
      buffer (one row per channel), the sample count of the block and the
      bytes it consumed, block header included. */
  datatype Decoded = Decoded(samples: seq<seq<int>>, numSamples: nat, size: nat)

  /** Sample smpl of channel ch of a raw payload: the zig-zag value in the
      w bytes of sample smpl * c + ch of the interleaved order. */
  function RawSample(p: seq<byte>, c: nat, w: nat, smpl: nat, ch: nat): int
    requires (smpl * c + ch) * w + w <= |p|
  {
    var k := smpl * c + ch;
    UnsignedToSigned(FromBE(p[k * w..k * w + w]))
  }

  /** The samples of a raw payload of c channels of n samples. */
  function RawSamples(p: seq<byte>, c: nat, n: nat, w: nat): (s: seq<seq<int>>)
    requires n * c * w <= |p|
    ensures |s| == c && forall ch | 0 <= ch < c :: |s[ch]| == n
  {
    seq(c, ch requires 0 <= ch < c =>
      seq(n, smpl requires 0 <= smpl < n =>
        SampleWithin(smpl, n, c, w, ch);
        RawSample(p, c, w, smpl, ch)))
  }

  /** c rows of n zeros. */
  function Silence(c: nat, n: nat): (s: seq<seq<int>>)
    ensures |s| == c && forall ch | 0 <= ch < c :: |s[ch]| == n
  {
    seq(c, _ => seq(n, _ => 0))
  }

  /** The samples the compressed decoder writes. */
  function Decompressed(dc: BlockDecompressor, p: seq<byte>, c: nat, n: nat): (s: seq<seq<int>>)
    ensures |s| == c && forall ch | 0 <= ch < c :: |s[ch]| == n
  {
    seq(c, ch requires 0 <= ch < c => seq(n, smpl requires 0 <= smpl < n => dc.sample(p, n, ch, smpl)))
  }

  /** SRLADecoder_DecodeRawData on the payload bytes p: a payload shorter
      than bitsPerSample * n * c / 8 bytes is refused; a bit depth other
      than 8, 16 and 24 reads and writes nothing. */
  function RawOutcome(h: Header, p: seq<byte>, n: nat): (r: Outcome<Decoded>)
    ensures r.Success? ==> r.value.size <= |p| && |r.value.samples| == h.numChannels
  {
    var c := h.numChannels;
    if |p| < (h.bitsPerSample * n * c) / 8 then Failure(InsufficientData)
    else
      var w := RawWidth(h.bitsPerSample);
      RawSize(h.bitsPerSample, n, c);
      if w == 0 then Success(Decoded(seq(c, _ => []), n, 0))
      else Success(Decoded(RawSamples(p, c, n, w), n, n * c * w))
  }

  /** The payload of a block of type t and n samples: the size is that of
      the payload alone. */
  function PayloadOutcome(h: Header, dc: BlockDecompressor, t: byte, p: seq<byte>, n: nat): (r: Outcome<Decoded>)
    ensures r.Success? ==> r.value.numSamples == n && |r.value.samples| == h.numChannels
    ensures r.Success? ==> forall ch | 0 <= ch < h.numChannels :: |r.value.samples[ch]| <= n
  {
    if t == RAW_DATA then RawOutcome(h, p, n)
    else if t == COMPRESS_DATA then Success(Decoded(Decompressed(dc, p, h.numChannels, n), n, dc.consumed(p, n)))
    else if t == SILENT_DATA then Success(Decoded(Silence(h.numChannels, n), n, 0))
    else Failure(InvalidFormat)
  }

  /** The fields of the 11-byte block header at the start of d. */
  function SyncField(d: seq<byte>): nat requires |d| >= 2 { FromBE(d[..2]) }
  function SizeField(d: seq<byte>): nat requires |d| >= 6 { FromBE(d[2..6]) }
  function ChecksumField(d: seq<byte>): nat requires |d| >= 8 { FromBE(d[6..8]) }
  function CountField(d: seq<byte>): nat requires |d| >= 11 { FromBE(d[9..11]) }

  /** The checks of the block header at the start of d once the handle
      checks have passed, in the order of SRLADecoder_DecodeBlock: sync
      code, size, checksum (when the decoder checks it), sample count
      against the buffer; Ok when all pass. Three checks are added before
      the source's reads (see AsWrittenBlockHeaderOverread): at least 2
      bytes before the sync code, at least 6 before the size, and a size of
      at least 5, the bytes from the checksum field to the sample count. */
  function BlockHeaderError(checksumCheck: bool, d: seq<byte>, bufSamples: nat): (r: ApiResult)
    ensures r == Ok ==> 6 <= |d| && 11 <= SizeField(d) + 6 <= |d| && CountField(d) <= bufSamples
  {
    if |d| < 2 then InsufficientData
    else if SyncField(d) != BLOCK_SYNC_CODE then InvalidFormat
    else if |d| < 6 then InsufficientData
    else if SizeField(d) < 5 then InvalidFormat
    else if SizeField(d) + 6 > |d| then InsufficientData
    else if checksumCheck && Fletcher16Of(d[8..SizeField(d) + 6]) != ChecksumField(d) then DetectDataCorruption
    else if CountField(d) > bufSamples then InsufficientBuffer
    else Ok
  }

  /** The block at the start of d once the handle checks have passed: the
      block header, then the payload of the type in byte 8, whose size is
      counted with the 11 header bytes. */
  function BlockOutcome(checksumCheck: bool, h: Header, dc: BlockDecompressor, d: seq<byte>, bufSamples: nat)
    : (r: Outcome<Decoded>)
    ensures r.Success? ==> BLOCK_HEADER_SIZE <= r.value.size && r.value.numSamples <= bufSamples
    ensures r.Success? ==> |r.value.samples| == h.numChannels &&
                           forall ch | 0 <= ch < h.numChannels :: |r.value.samples[ch]| <= r.value.numSamples
    ensures r.Failure? ==> r.error != Ok
  {
    var e := BlockHeaderError(checksumCheck, d, bufSamples);
    if e != Ok then Failure(e)
    else
      var p := PayloadOutcome(h, dc, d[8], d[BLOCK_HEADER_SIZE..], CountField(d));
      if p.Failure? then p
      else Success(p.value.(size := BLOCK_HEADER_SIZE + p.value.size))
  }

  /** The outcome of SRLADecoder_DecodeBlock: missing arguments, the header
      flag and the buffer's channel count, then the block. */
  function BlockResult(headerSet: bool, checksumCheck: bool, h: Header, dc: BlockDecompressor, d: seq<byte>,
                       hasArgs: bool, bufCh: nat, bufSamples: nat): (r: Outcome<Decoded>)
    ensures r.Success? ==> BLOCK_HEADER_SIZE <= r.value.size && r.value.numSamples <= bufSamples
    ensures r.Success? ==> |r.value.samples| == h.numChannels <= bufCh &&
                           forall ch | 0 <= ch < h.numChannels :: |r.value.samples[ch]| <= r.value.numSamples
    ensures r.Failure? ==> r.error != Ok
  {
    if !hasArgs then Failure(InvalidArgument)
    else if !headerSet then Failure(ParameterNotSet)
    else if bufCh < h.numChannels then Failure(InsufficientBuffer)
    else BlockOutcome(checksumCheck, h, dc, d, bufSamples)
  }

  /** The error of a failed outcome, Ok for a successful one. */
  function ErrorOf<T>(o: Outcome<T>): (r: ApiResult)
    ensures o.Success? ==> r == Ok
    ensures o.Failure? ==> r == o.error
  {
    if o.Success? then Ok else o.error
  }

  /* ---------------------------------------------------------------- */
  /* The output buffer.                                                */
  /* ---------------------------------------------------------------- */

  /** The contents of the buffer, channel by sample. */
  ghost function Grid(a: array2<int>): (g: seq<seq<int>>)
    reads a
    ensures |g| == a.Length0 && forall i | 0 <= i < a.Length0 :: |g[i]| == a.Length1
  {
    seq(a.Length0, i requires 0 <= i < a.Length0 reads a =>
      seq(a.Length1, j requires 0 <= j < a.Length1 reads a => a[i, j]))
  }

  /** The grid g with row ch of `samples` written from column off on. */
  function Overwrite(g: seq<seq<int>>, off: nat, samples: seq<seq<int>>): (r: seq<seq<int>>)
    ensures |r| == |g| && forall i | 0 <= i < |g| :: |r[i]| == |g[i]|
  {
    seq(|g|, i requires 0 <= i < |g| =>
      seq(|g[i]|, j requires 0 <= j < |g[i]| =>
        if i < |samples| && off <= j < off + |samples[i]| then samples[i][j - off] else g[i][j]))
  }

  /** A buffer equal cell by cell to a grid has that grid as its contents. */
  lemma GridIs(a: array2<int>, g: seq<seq<int>>)
    requires |g| == a.Length0 && forall i | 0 <= i < |g| :: |g[i]| == a.Length1
    requires forall i, j | 0 <= i < a.Length0 && 0 <= j < a.Length1 :: a[i, j] == g[i][j]
    ensures Grid(a) == g
  {
    var h := Grid(a);
    forall i | 0 <= i < |g|
      ensures h[i] == g[i]
    {
      assert forall j | 0 <= j < a.Length1 :: h[i][j] == a[i, j];
    }
  }

  /** The cells a loop over frames has written: all of the frames before
      smpl, and the channels before ch of frame smpl. */
  predicate Covered(i: nat, j: nat, c: nat, off: nat, smpl: nat, ch: nat)
  {
    i < c && off <= j && (j < off + smpl || (j == off + smpl && i < ch))
  }

  /** The buffer holds `samples` in the covered cells and g0 elsewhere. */
  ghost predicate Holds(a: array2<int>, g0: seq<seq<int>>, samples: seq<seq<int>>, c: nat, off: nat, smpl: nat, ch: nat)
    reads a
  {
    |g0| == a.Length0 && (forall i | 0 <= i < |g0| :: |g0[i]| == a.Length1) &&
    forall i, j | 0 <= i < a.Length0 && 0 <= j < a.Length1 ::
      a[i, j] == if Covered(i, j, c, off, smpl, ch) && i < |samples| && j - off < |samples[i]|
                 then samples[i][j - off] else g0[i][j]
  }

  /** Rows below c of `samples` that are each n long: covering every frame
      is the overwrite. */
  lemma HoldsAll(a: array2<int>, g0: seq<seq<int>>, samples: seq<seq<int>>, c: nat, off: nat, n: nat)
    requires |samples| == c && forall i | 0 <= i < c :: |samples[i]| == n
    requires Holds(a, g0, samples, c, off, n, 0)
    ensures Grid(a) == Overwrite(g0, off, samples)
  {
    GridIs(a, Overwrite(g0, off, samples));
  }

  /* ---------------------------------------------------------------- */
  /* The decoder handle.                                               */
  /* ---------------------------------------------------------------- */

  /** struct SRLADecoderConfig. */
  datatype DecoderConfig = DecoderConfig(maxNumChannels: u32, maxNumParameters: u32, checkChecksum: bool)

  class Decoder {
    var header: Header
    /** SRLADECODER_STATUS_FLAG_SET_HEADER. */
    var headerSet: bool
    /** SRLADECODER_STATUS_FLAG_CHECKSUM_CHECK. */
    const checksumCheck: bool
    const maxNumChannels: nat
    const maxNumParameters: nat

    /** A header is set only once SetHeader has accepted it. */
    ghost predicate Valid()
      reads this
    {
      headerSet ==> SetHeaderCheck(maxNumChannels, maxNumParameters, header) == Ok
    }

    /** The handle SRLADecoder_Create sets up: capacities and the checksum
        flag from the configuration, no header yet. */
    constructor (config: DecoderConfig)
      requires config.maxNumChannels > 0
      ensures Valid() && !headerSet
      ensures maxNumChannels == config.maxNumChannels && maxNumParameters == config.maxNumParameters
      ensures checksumCheck == config.checkChecksum
    {
      header := Header(0, 0, 0, 0, 0, 0, 0, 0);
      headerSet := false;
      checksumCheck := config.checkChecksum;
      maxNumChannels := config.maxNumChannels;
      maxNumParameters := config.maxNumParameters;
    }

    /** SRLADecoder_SetHeader: the header and the flag are set only when
        the header passes CheckHeaderFormat and fits the capacities. */
    method SetHeader(h: Header) returns (r: ApiResult)
      requires Valid()
      modifies this
      ensures Valid()
      ensures r == SetHeaderCheck(maxNumChannels, maxNumParameters, h)
      ensures r == Ok ==> headerSet && header == h
      ensures r != Ok ==> headerSet == old(headerSet) && header == old(header)
    {
      if CheckHeaderFormat(h) != Ok {
        return InvalidFormat;
      }
      if maxNumChannels < h.numChannels {
        return InsufficientBuffer;
      }
      if maxNumParameters < PresetMaxNumParameters(h.preset) {
        return InsufficientBuffer;
      }
      header := h;
      headerSet := true;
      r := Ok;
    }

    /** SRLADecoder_DecodeRawData: the channel-interleaved samples of the
        payload data[at..at + dataSize] go to columns off.. of the buffer;
        the size returned is what was read. */
    method DecodeRawData(data: array<byte>, at: nat, dataSize: nat, buffer: array2<int>, off: nat, n: nat)
      returns (r: ApiResult, decodeSize: nat)
      requires at + dataSize <= data.Length
      requires header.numChannels <= buffer.Length0 && off + n <= buffer.Length1
      modifies buffer
      ensures var o := RawOutcome(header, data[at..at + dataSize], n);
              r == ErrorOf(o) &&
              (o.Success? ==> decodeSize == o.value.size && Grid(buffer) == Overwrite(old(Grid(buffer)), off, o.value.samples)) &&
              (o.Failure? ==> Grid(buffer) == old(Grid(buffer)))
    {
      ghost var p := data[at..at + dataSize];
      var c := header.numChannels;
      var bps := header.bitsPerSample;
      if dataSize < (bps * n * c) / 8 {
        return InsufficientData, 0;
      }
      var w := RawWidth(bps);
      RawSize(bps, n, c);
      ghost var g0 := Grid(buffer);
      if w == 0 {
        GridIs(buffer, Overwrite(g0, off, seq(c, _ => [])));
        return Ok, 0;
      }
      ghost var samples := RawSamples(p, c, n, w);
      var ptr := at;
      var smpl := 0;
      while smpl < n
        invariant smpl <= n && ptr == at + smpl * c * w
        invariant Holds(buffer, g0, samples, c, off, smpl, 0)
      {
        ptr := GetFrame(data, at, p, c, n, w, smpl, buffer, off, g0, samples, ptr);
        smpl := smpl + 1;
      }
      HoldsAll(buffer, g0, samples, c, off, n);
      decodeSize := ptr - at;
      r := Ok;
    }

    /** SRLADecoder_DecodeSilentData: n zeros in every channel, no payload
        bytes read. */
    method DecodeSilentData(buffer: array2<int>, off: nat, n: nat) returns (r: ApiResult, decodeSize: nat)
      requires header.numChannels <= buffer.Length0 && off + n <= buffer.Length1
      modifies buffer
      ensures r == Ok && decodeSize == 0
      ensures Grid(buffer) == Overwrite(old(Grid(buffer)), off, Silence(header.numChannels, n))
    {
      PutRows(buffer, off, Silence(header.numChannels, n), header.numChannels, n);
      return Ok, 0;
    }

    /** SRLADecoder_DecodeCompressData, with the decoding itself taken from
        dc: the samples of every channel go to the buffer and the bytes the
        bit reader consumed are reported. */
    method DecodeCompressData(dc: BlockDecompressor, data: array<byte>, at: nat, dataSize: nat, buffer: array2<int>, off: nat, n: nat)
      returns (r: ApiResult, decodeSize: nat)
      requires at + dataSize <= data.Length
      requires header.numChannels <= buffer.Length0 && off + n <= buffer.Length1
      modifies buffer
      ensures r == Ok && decodeSize == dc.consumed(data[at..at + dataSize], n)
      ensures Grid(buffer) == Overwrite(old(Grid(buffer)), off, Decompressed(dc, data[at..at + dataSize], header.numChannels, n))
    {
      var p := data[at..at + dataSize];
      PutRows(buffer, off, Decompressed(dc, p, header.numChannels, n), header.numChannels, n);
      return Ok, dc.consumed(p, n);
    }

    /** The payload dispatch of SRLADecoder_DecodeBlock. */
    method DecodePayload(dc: BlockDecompressor, t: byte, data: array<byte>, at: nat, dataSize: nat, buffer: array2<int>, off: nat, n: nat)
      returns (r: ApiResult, decodeSize: nat)
      requires at + dataSize <= data.Length
      requires header.numChannels <= buffer.Length0 && off + n <= buffer.Length1
      modifies buffer
      ensures var o := PayloadOutcome(header, dc, t, data[at..at + dataSize], n);
              r == ErrorOf(o) &&
              (o.Success? ==> decodeSize == o.value.size && Grid(buffer) == Overwrite(old(Grid(buffer)), off, o.value.samples)) &&
              (o.Failure? ==> Grid(buffer) == old(Grid(buffer)))
    {
      if t == RAW_DATA {
        r, decodeSize := DecodeRawData(data, at, dataSize, buffer, off, n);
      } else if t == COMPRESS_DATA {
        r, decodeSize := DecodeCompressData(dc, data, at, dataSize, buffer, off, n);
      } else if t == SILENT_DATA {
        r, decodeSize := DecodeSilentData(buffer, off, n);
      } else {
        r, decodeSize := InvalidFormat, 0;
      }
    }

    /** The block header reads and checks of SRLADecoder_DecodeBlock on
        data[at..at + dataSize]: the error of the first check that fails,
        or Ok with the data type and sample count. */
    method CheckBlockHeader(data: array<byte>, at: nat, dataSize: nat, bufSamples: nat)
      returns (e: ApiResult, t: byte, n: nat)
      requires at + dataSize <= data.Length
      ensures var d := data[at..at + dataSize];
              e == BlockHeaderError(checksumCheck, d, bufSamples) &&
              (e == Ok ==> t == d[8] && n == CountField(d))
    {
      hide FromBE, Fletcher16Of, Pow2;
      ghost var d := data[at..at + dataSize];
      t, n := 0, 0;
      if dataSize < 2 {
        return InsufficientData, t, n;
      }
      var sync := GetField(data, at, d, 0, 2);
      if sync != BLOCK_SYNC_CODE {
        return InvalidFormat, t, n;
      }
      if dataSize < 6 {
        return InsufficientData, t, n;
      }
      var size := GetField(data, at, d, 2, 4);
      if size < 5 {
        return InvalidFormat, t, n;
      }
      if size + 6 > dataSize {
        return InsufficientData, t, n;
      }
      var checksum := GetField(data, at, d, 6, 2);
      if checksumCheck {
        assert data[at + 8..at + size + 6] == d[8..size + 6];
        var sum := CalculateFletcher16CheckSum(data[at + 8..at + size + 6]);
        if sum != checksum {
          return DetectDataCorruption, t, n;
        }
      }
      t := data[at + 8];
      n := GetField(data, at, d, 9, 2);
      if n > bufSamples {
        return InsufficientBuffer, t, n;
      }
      e := Ok;
    }

    /** SRLADecoder_DecodeBlock: the block at data[at..at + dataSize] is
        decoded into columns off.. of the buffer; on success the size read
        (block header included) and the block's sample count are returned,
        and on failure the buffer is left as it was. */
    method DecodeBlock(dc: BlockDecompressor, data: array?<byte>, at: nat, dataSize: nat,
                       buffer: array2?<int>, bufCh: nat, bufSamples: nat, off: nat)
      returns (r: ApiResult, decodeSize: nat, numDecodeSamples: nat)
      requires data != null ==> at + dataSize <= data.Length
      requires buffer != null ==> bufCh <= buffer.Length0 && off + bufSamples <= buffer.Length1
      modifies buffer
      ensures var b := BlockResult(headerSet, checksumCheck, header, dc, if data == null then [] else data[at..at + dataSize],
                                   data != null && buffer != null, bufCh, bufSamples);
              r == ErrorOf(b) &&
              (b.Success? ==> buffer != null && decodeSize == b.value.size && numDecodeSamples == b.value.numSamples &&
                              Grid(buffer) == Overwrite(old(Grid(buffer)), off, b.value.samples)) &&
              (b.Failure? && buffer != null ==> Grid(buffer) == old(Grid(buffer)))
    {
      hide Grid, Overwrite, PayloadOutcome, FromBE, Fletcher16Of, BlockHeaderError;
      if data == null || buffer == null {
        return InvalidArgument, 0, 0;
      }
      if !headerSet {
        return ParameterNotSet, 0, 0;
      }
      if bufCh < header.numChannels {
        return InsufficientBuffer, 0, 0;
      }
      ghost var d := data[at..at + dataSize];
      var e, t, n := CheckBlockHeader(data, at, dataSize, bufSamples);
      if e != Ok {
        return e, 0, 0;
      }
      var blockDataSize;
      assert data[at + BLOCK_HEADER_SIZE..at + dataSize] == d[BLOCK_HEADER_SIZE..];
      r, blockDataSize := DecodePayload(dc, t, data, at + BLOCK_HEADER_SIZE, dataSize - BLOCK_HEADER_SIZE, buffer, off, n);
      if r != Ok {
        return r, 0, 0;
      }
      decodeSize := BLOCK_HEADER_SIZE + blockDataSize;
      numDecodeSamples := n;
    }

    /** SRLADecoder_DecodeWhole: the header is decoded and set, then blocks
        are decoded one after the other, each at the next column, while
        samples remain and bytes remain; the first failure is returned. */
    method DecodeWhole(dc: BlockDecompressor, data: array?<byte>, dataSize: nat, buffer: array2?<int>, bufCh: nat, bufSamples: nat)
      returns (r: ApiResult)
      requires Valid()
      requires data != null ==> dataSize <= data.Length
      requires buffer != null ==> bufCh <= buffer.Length0 && bufSamples <= buffer.Length1
      modifies this, buffer
      ensures Valid()
      ensures var d := if data == null then [] else data[..dataSize];
              var w := WholeResult(checksumCheck, maxNumChannels, maxNumParameters, dc, d, data != null && buffer != null, bufCh, bufSamples);
              r == ErrorOf(w) && (w.Success? ==> buffer != null && Grid(buffer) == ApplyAll(old(Grid(buffer)), w.value))
      ensures var d := if data == null then [] else data[..dataSize];
              var hr := HeaderResult(d, true);
              if data != null && buffer != null && hr.Success? && SetHeaderCheck(maxNumChannels, maxNumParameters, hr.value) == Ok
              then headerSet && header == hr.value
              else headerSet == old(headerSet) && header == old(header)
    {
      if data == null || buffer == null {
        return InvalidArgument;
      }
      ghost var d := data[..dataSize];
      var hr := DecodeHeader(data, dataSize);
      if hr.Failure? {
        return hr.error;
      }
      r := SetHeader(hr.value);
      if r != Ok {
        return r;
      }
      if bufCh < header.numChannels || bufSamples < header.numSamples {
        return InsufficientBuffer;
      }
      r := DecodeBlocks(dc, data, dataSize, buffer, bufCh, bufSamples);
    }

    /** The block loop of SRLADecoder_DecodeWhole, after the header. */
    method DecodeBlocks(dc: BlockDecompressor, data: array<byte>, dataSize: nat, buffer: array2<int>, bufCh: nat, bufSamples: nat)
      returns (r: ApiResult)
      requires Valid() && headerSet && header.numChannels <= bufCh
      requires dataSize <= data.Length && bufCh <= buffer.Length0 && bufSamples <= buffer.Length1
      modifies buffer
      ensures var w := WholeBlocks(checksumCheck, header, dc, data[..dataSize], HEADER_SIZE, 0, bufSamples);
              r == ErrorOf(w) && (w.Success? ==> Grid(buffer) == ApplyAll(old(Grid(buffer)), w.value))
    {
      hide WholeBlocks, Grid, Overwrite, PayloadOutcome, BlockHeaderError, BlockOutcome, FromBE, Fletcher16Of, Then;
      ghost var d := data[..dataSize];
      ghost var g0 := Grid(buffer);
      ghost var whole := WholeBlocks(checksumCheck, header, dc, d, HEADER_SIZE, 0, bufSamples);
      ghost var done: seq<Placed> := [];
      var progress: nat := 0;
      var readOffset: nat := HEADER_SIZE;
      ThenNil(whole);
      while progress < header.numSamples && readOffset < dataSize
        invariant progress <= bufSamples
        invariant whole == Then(done, WholeBlocks(checksumCheck, header, dc, d, readOffset, progress, bufSamples))
        invariant Grid(buffer) == ApplyAll(g0, done)
        decreases dataSize - readOffset
      {
        ghost var b := BlockOutcome(checksumCheck, header, dc, d[readOffset..], bufSamples - progress);
        WholeStep(checksumCheck, header, dc, d, readOffset, progress, bufSamples);
        assert data[readOffset..readOffset + (dataSize - readOffset)] == d[readOffset..];
        var readSize, n;
        r, readSize, n := DecodeBlock(dc, data, readOffset, dataSize - readOffset, buffer, bufCh, bufSamples - progress, progress);
        if r != Ok {
          return r;
        }
        ghost var rest := WholeBlocks(checksumCheck, header, dc, d, readOffset + readSize, progress + n, bufSamples);
        ThenThen(done, [Placed(progress, b.value)], rest);
        ApplyAllSnoc(g0, done, Placed(progress, b.value));
        done := done + [Placed(progress, b.value)];
        readOffset := readOffset + readSize;
        progress := progress + n;
      }
      WholeEnd(checksumCheck, header, dc, d, readOffset, progress, bufSamples);
      ThenEmpty(done);
      r := Ok;
    }
  }

  /** SRLADecoder_Create: no handle for a configuration without channels. */
  method Create(config: DecoderConfig) returns (d: Decoder?)
    ensures d == null <==> config.maxNumChannels == 0
    ensures d != null ==> fresh(d) && d.Valid() && !d.headerSet && d.checksumCheck == config.checkChecksum &&
                          d.maxNumChannels == config.maxNumChannels && d.maxNumParameters == config.maxNumParameters
  {
    if config.maxNumChannels == 0 {
      return null;
    }
    d := new Decoder(config);
  }

  /** One frame of DecodeRawData: sample smpl of every channel. */
  method GetFrame(data: array<byte>, at: nat, ghost p: seq<byte>, c: nat, n: nat, w: nat, smpl: nat,
                  buffer: array2<int>, off: nat, ghost g0: seq<seq<int>>, ghost samples: seq<seq<int>>, ptr0: nat)
    returns (ptr: nat)
    requires 0 < w && smpl < n && n * c * w <= |p| && at + |p| <= data.Length && p == data[at..at + |p|]
    requires samples == RawSamples(p, c, n, w) && ptr0 == at + smpl * c * w
    requires c <= buffer.Length0 && off + n <= buffer.Length1
    requires Holds(buffer, g0, samples, c, off, smpl, 0)
    modifies buffer
    ensures ptr == at + (smpl + 1) * c * w
    ensures Holds(buffer, g0, samples, c, off, smpl + 1, 0)
  {
    hide Holds, RawSamples, FromBE, UnsignedToSigned;
    ptr := ptr0;
    var ch := 0;
    while ch < c
      invariant ch <= c && ptr == at + (smpl * c + ch) * w
      invariant Holds(buffer, g0, samples, c, off, smpl, ch)
    {
      ptr := GetSample(data, at, p, c, n, w, smpl, ch, buffer, off, g0, samples, ptr);
      ch := ch + 1;
    }
    FrameEnd(smpl, c, w);
    HoldsNextFrame(buffer, g0, samples, c, off, smpl);
  }

  /** One sample of a frame of DecodeRawData: channel ch, read big-endian
      at ptr and sign-extended. */
  method GetSample(data: array<byte>, at: nat, ghost p: seq<byte>, c: nat, n: nat, w: nat, smpl: nat, ch: nat,
                   buffer: array2<int>, off: nat, ghost g0: seq<seq<int>>, ghost samples: seq<seq<int>>, ptr: nat)
    returns (next: nat)
    requires 0 < w && smpl < n && ch < c && n * c * w <= |p| && at + |p| <= data.Length && p == data[at..at + |p|]
    requires samples == RawSamples(p, c, n, w) && ptr == at + (smpl * c + ch) * w
    requires c <= buffer.Length0 && off + n <= buffer.Length1
    requires Holds(buffer, g0, samples, c, off, smpl, ch)
    modifies buffer
    ensures next == at + (smpl * c + (ch + 1)) * w
    ensures Holds(buffer, g0, samples, c, off, smpl, ch + 1)
  {
    hide Holds, RawSamples, FromBE, UnsignedToSigned;
    ghost var k := (smpl * c + ch) * w;
    RawSampleAt(p, c, n, w, smpl, ch);
    var u := GetBE(data, ptr, w);
    InnerSlice(data[..], at, p, k, w);
    PutCell(buffer, g0, samples, c, off, smpl, ch, UnsignedToSigned(u));
    next := ptr + w;
    NextSlot(smpl * c + ch, w);
  }

  /** The bytes k .. k + w of the payload p that sits at `at`. */
  lemma InnerSlice(d: seq<byte>, at: nat, p: seq<byte>, k: nat, w: nat)
    requires at + |p| <= |d| && p == d[at..at + |p|] && k + w <= |p|
    ensures d[at + k..at + k + w] == p[k..k + w]
  {
    var x, y := d[at + k..at + k + w], p[k..k + w];
    forall i | 0 <= i < w
      ensures x[i] == y[i]
    {
      assert p[k + i] == d[at..at + |p|][k + i];
    }
  }

  /** The slot after slot x of width w. */
  lemma NextSlot(x: nat, w: nat)
    ensures (x + 1) * w == x * w + w
  {
  }

  lemma FrameEnd(smpl: nat, c: nat, w: nat)
    ensures (smpl * c + c) * w == (smpl + 1) * c * w
  {
  }

  /** Covering every channel of frame smpl is covering the frames before
      smpl + 1. */
  lemma HoldsNextFrame(a: array2<int>, g0: seq<seq<int>>, samples: seq<seq<int>>, c: nat, off: nat, smpl: nat)
    requires Holds(a, g0, samples, c, off, smpl, c)
    ensures Holds(a, g0, samples, c, off, smpl + 1, 0)
  {
    assert forall i, j :: Covered(i, j, c, off, smpl, c) == Covered(i, j, c, off, smpl + 1, 0);
  }

  /** Sample smpl of channel ch of the raw samples. */
  lemma RawSampleAt(p: seq<byte>, c: nat, n: nat, w: nat, smpl: nat, ch: nat)
    requires n * c * w <= |p| && smpl < n && ch < c
    ensures (smpl * c + ch) * w + w <= |p|
    ensures RawSamples(p, c, n, w)[ch][smpl] == UnsignedToSigned(FromBE(p[(smpl * c + ch) * w..(smpl * c + ch) * w + w]))
  {
    SampleWithin(smpl, n, c, w, ch);
  }

  /** buffer[ch][off + smpl] = v, the next cell of the frame loop. */
  method PutCell(buffer: array2<int>, ghost g0: seq<seq<int>>, ghost samples: seq<seq<int>>, c: nat, off: nat,
                 smpl: nat, ch: nat, v: int)
    requires ch < c <= buffer.Length0 && off + smpl < buffer.Length1
    requires ch < |samples| && smpl < |samples[ch]| && v == samples[ch][smpl]
    requires Holds(buffer, g0, samples, c, off, smpl, ch)
    modifies buffer
    ensures Holds(buffer, g0, samples, c, off, smpl, ch + 1)
  {
    buffer[ch, off + smpl] := v;
  }

  /** Row ch of `samples` to columns off.. of row ch, for every channel. */
  method PutRows(buffer: array2<int>, off: nat, samples: seq<seq<int>>, c: nat, n: nat)
    requires |samples| == c <= buffer.Length0 && off + n <= buffer.Length1
    requires forall i | 0 <= i < c :: |samples[i]| == n
    modifies buffer
    ensures Grid(buffer) == Overwrite(old(Grid(buffer)), off, samples)
  {
    ghost var g0 := Grid(buffer);
    var ch := 0;
    while ch < c
      invariant ch <= c
      invariant forall i, j | 0 <= i < buffer.Length0 && 0 <= j < buffer.Length1 ::
                  buffer[i, j] == if i < ch && off <= j < off + n then samples[i][j - off] else g0[i][j]
    {
      forall j | off <= j < off + n {
        buffer[ch, j] := samples[ch][j - off];
      }
      ch := ch + 1;
    }
    GridIs(buffer, Overwrite(g0, off, samples));
  }

  /* ---------------------------------------------------------------- */
  /* The blocks of a file.                                             */
  /* ---------------------------------------------------------------- */

  /** A decoded block and the column it was written at. */
  datatype Placed = Placed(at: nat, block: Decoded)

  /** The grid after the blocks ps are written in order. */
  function ApplyAll(g: seq<seq<int>>, ps: seq<Placed>): (r: seq<seq<int>>)
    ensures |r| == |g| && forall i | 0 <= i < |g| :: |r[i]| == |g[i]|
  {
    if |ps| == 0 then g
    else Overwrite(ApplyAll(g, ps[..|ps| - 1]), ps[|ps| - 1].at, ps[|ps| - 1].block.samples)
  }

  /** Blocks in front of an outcome. */
  function Then(a: seq<Placed>, r: Outcome<seq<Placed>>): (p: Outcome<seq<Placed>>)
    ensures p.Success? <==> r.Success?
    ensures p.Failure? ==> p.error == r.error
  {
    if r.Failure? then r else Success(a + r.value)
  }

  /** Blocks put in front in two steps. */
  lemma ThenThen(a: seq<Placed>, b: seq<Placed>, r: Outcome<seq<Placed>>)
    ensures Then(a, Then(b, r)) == Then(a + b, r)
  {
    if r.Success? {
      assert a + (b + r.value) == (a + b) + r.value;
    }
  }

  /** The blocks SRLADecoder_DecodeWhole decodes from byte offset `offset`
      of d and sample `progress` on: it stops once the header's sample
      count is reached or the bytes run out. */
  function WholeBlocks(checksumCheck: bool, h: Header, dc: BlockDecompressor, d: seq<byte>,
                       offset: nat, progress: nat, bufSamples: nat): (r: Outcome<seq<Placed>>)
    requires progress <= bufSamples
    ensures r.Failure? ==> r.error != Ok
    decreases |d| - offset
  {
    if progress >= h.numSamples || offset >= |d| then Success([])
    else
      var b := BlockOutcome(checksumCheck, h, dc, d[offset..], bufSamples - progress);
      if b.Failure? then Failure(b.error)
      else Then([Placed(progress, b.value)],
                WholeBlocks(checksumCheck, h, dc, d, offset + b.value.size, progress + b.value.numSamples, bufSamples))
  }

  /** The outcome of SRLADecoder_DecodeWhole on the bytes d: missing
      arguments, the header, the capacities of the decoder and of the
      buffer, then the blocks. */
  function WholeResult(checksumCheck: bool, maxNumChannels: nat, maxNumParameters: nat, dc: BlockDecompressor,
                       d: seq<byte>, hasArgs: bool, bufCh: nat, bufSamples: nat): (r: Outcome<seq<Placed>>)
    ensures r.Success? ==> hasArgs
    ensures r.Failure? ==> r.error != Ok
  {
    if !hasArgs then Failure(InvalidArgument)
    else
      var hr := HeaderResult(d, true);
      if hr.Failure? then Failure(hr.error)
      else if SetHeaderCheck(maxNumChannels, maxNumParameters, hr.value) != Ok then
        Failure(SetHeaderCheck(maxNumChannels, maxNumParameters, hr.value))
      else if bufCh < hr.value.numChannels || bufSamples < hr.value.numSamples then Failure(InsufficientBuffer)
      else WholeBlocks(checksumCheck, hr.value, dc, d, HEADER_SIZE, 0, bufSamples)
  }

  /** No blocks in front. */
  lemma ThenNil(r: Outcome<seq<Placed>>)
    ensures Then([], r) == r
  {
    if r.Success? {
      assert [] + r.value == r.value;
    }
  }

  /** Nothing behind. */
  lemma ThenEmpty(a: seq<Placed>)
    ensures Then(a, Success([])) == Success(a)
  {
    assert a + [] == a;
  }

  /** One more block written. */
  lemma ApplyAllSnoc(g: seq<seq<int>>, ps: seq<Placed>, p: Placed)
    ensures ApplyAll(g, ps + [p]) == Overwrite(ApplyAll(g, ps), p.at, p.block.samples)
  {
    assert (ps + [p])[..|ps|] == ps;
  }

  /** WholeBlocks while samples and bytes remain: the block at offset, then
      the rest. */
  lemma WholeStep(checksumCheck: bool, h: Header, dc: BlockDecompressor, d: seq<byte>,
                  offset: nat, progress: nat, bufSamples: nat)
    requires progress <= bufSamples && progress < h.numSamples && offset < |d|
    ensures var b := BlockOutcome(checksumCheck, h, dc, d[offset..], bufSamples - progress);
            WholeBlocks(checksumCheck, h, dc, d, offset, progress, bufSamples) ==
              if b.Failure? then Failure(b.error)
              else Then([Placed(progress, b.value)],
                        WholeBlocks(checksumCheck, h, dc, d, offset + b.value.size, progress + b.value.numSamples, bufSamples))
  {
    hide BlockOutcome, Then;
  }

  /** WholeBlocks once the samples or the bytes have run out. */
  lemma WholeEnd(checksumCheck: bool, h: Header, dc: BlockDecompressor, d: seq<byte>,
                 offset: nat, progress: nat, bufSamples: nat)
    requires progress <= bufSamples && (progress >= h.numSamples || offset >= |d|)
    ensures WholeBlocks(checksumCheck, h, dc, d, offset, progress, bufSamples) == Success([])
  {
  }

  /* ---------------------------------------------------------------- */
  /* The block header checks as written.                               */
  /* ---------------------------------------------------------------- */

  /** The only bound SRLADecoder_DecodeBlock puts on the block size field
      before it reads the 11 header bytes: size + 6 within data_size (the
      SRLA_ASSERT that the size is positive is absent from release builds). */
  function AsWrittenSizeCheckPasses(size: nat, dataSize: nat): (r: bool)
    ensures r ==> size <= dataSize
  {
    !(size + 6 > dataSize)
  }

  /** The length SRLADecoder_DecodeBlock passes to the checksum, size - 2
      in 32-bit unsigned arithmetic. */
  function AsWrittenChecksumLength(size: nat): (r: nat)
    requires size < 0x1_0000_0000
    ensures r < 0x1_0000_0000
    ensures 2 <= size ==> r + 2 == size
  {
    (size - 2) % 0x1_0000_0000
  }

  /** A 7-byte block with the sync code and a size field of 1 passes the
      source's size check although the header it then reads is 11 bytes
      long and the checksum is asked for 0xFFFFFFFF bytes; a 2-byte input
      with the sync code goes on to a 4-byte read of the size. The checks
      of BlockHeaderError refuse both. */
  lemma AsWrittenBlockHeaderOverread(checksumCheck: bool, bufSamples: nat)
    ensures var d: seq<byte> := [0xFF, 0xFF, 0, 0, 0, 1, 0];
            SyncField(d) == BLOCK_SYNC_CODE && SizeField(d) == 1 &&
            AsWrittenSizeCheckPasses(SizeField(d), |d|) && |d| < BLOCK_HEADER_SIZE &&
            AsWrittenChecksumLength(SizeField(d)) == 0xFFFF_FFFF &&
            BlockHeaderError(checksumCheck, d, bufSamples) == InvalidFormat
    ensures var d: seq<byte> := [0xFF, 0xFF];
            SyncField(d) == BLOCK_SYNC_CODE && |d| < 6 &&
            BlockHeaderError(checksumCheck, d, bufSamples) == InsufficientData
  {
    var d: seq<byte> := [0xFF, 0xFF, 0, 0, 0, 1, 0];
    assert d[..2] == [0xFF, 0xFF] && d[2..6] == [0, 0, 0, 1];
    var f: seq<byte> := [0, 0, 0, 1];
    assert f[..3] == [0, 0, 0] && f[..3][..2] == [0, 0] && f[..3][..2][..1] == [0];
    assert FromBE([0]) == 0 && FromBE([0, 0]) == 0 && FromBE([0, 0, 0]) == 0;
    var e: seq<byte> := [0xFF, 0xFF];
    assert e[..2] == [0xFF, 0xFF];
  }

  /** A block shorter than its 11-byte header is refused. */
  lemma ShortBlockRefused(checksumCheck: bool, h: Header, dc: BlockDecompressor, d: seq<byte>, bufSamples: nat)
    requires |d| < BLOCK_HEADER_SIZE
    ensures BlockOutcome(checksumCheck, h, dc, d, bufSamples).Failure?
  {
  }
}
