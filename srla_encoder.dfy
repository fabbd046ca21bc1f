/**
 * The framing half of srla_encoder.c: the file header, the encoder handle
 * and its parameters, the raw and silent payloads, the block header and
 * the loop over the blocks of a file.
 *
 * The choice of the block data type rests on a floating-point estimate of
 * the code length, and the compressed payload on the whole LPC pipeline;
 * both are given to the model as a `BlockCoder` of two functions.
 */
module SrlaEncoder {
  import opened Bits
  import opened SrlaUtility
  import opened Fletcher16
  import opened SrlaFormat

  /* ---------------------------------------------------------------- */
  /* Writing bytes through a cursor.                                   */
  /* ---------------------------------------------------------------- */

  /** ByteArray_Put*: the bytes go to data[pos..], and the new cursor is
      returned. */
  method PutBytes(data: array<byte>, pos: nat, bytes: seq<byte>) returns (next: nat)
    requires pos + |bytes| <= data.Length
    modifies data
    ensures next == pos + |bytes|
    ensures data[..pos] == old(data[..pos]) && data[pos..next] == bytes
    ensures data[next..] == old(data[next..])
  {
    forall i | 0 <= i < |bytes| {
      data[pos + i] := bytes[i];
    }
    next := pos + |bytes|;
  }

  /** PutBytes in a run of writes over the original contents d0: the
      bytes written so far, w, grow by `bytes`, and beyond them data still
      holds d0. */
  method PutField(data: array<byte>, pos: nat, bytes: seq<byte>, ghost w: seq<byte>, ghost d0: seq<byte>)
    returns (next: nat, ghost w': seq<byte>)
    requires pos + |bytes| <= data.Length && |d0| == data.Length
    requires data[..pos] == w && data[pos..] == d0[pos..]
    modifies data
    ensures next == pos + |bytes| && w' == w + bytes
    ensures data[..next] == w' && data[next..] == d0[next..]
  {
    ghost var before := data[..];
    next := PutBytes(data, pos, bytes);
    w' := w + bytes;
    assert data[..next] == data[..pos] + data[pos..next];
    assert data[next..] == before[next..] == before[pos..][next - pos..];
  }

  /* ---------------------------------------------------------------- */
  /* The file header.                                                  */
  /* ---------------------------------------------------------------- */

  /** A header the encoder writes: every count nonzero and a known preset. */
  predicate Encodable(h: Header)
  {
    h.numChannels > 0 && h.numSamples > 0 && h.samplingRate > 0 && h.bitsPerSample > 0 &&
    h.maxNumSamplesPerBlock > 0 && h.preset < NUM_PARAMETER_PRESETS
  }

  /** The result of SRLAEncoder_EncodeHeader: a missing buffer, then a
      short one, then the field checks in the order of the source. */
  function HeaderCheck(h: Header, hasData: bool, dataSize: nat): (r: ApiResult)
    ensures r == Ok <==> hasData && dataSize >= HEADER_SIZE && Encodable(h)
    ensures !hasData ==> r == InvalidArgument
    ensures hasData && dataSize < HEADER_SIZE ==> r == InsufficientBuffer
    ensures hasData && dataSize >= HEADER_SIZE && !Encodable(h) ==> r == InvalidFormat
  {
    if !hasData then InvalidArgument
    else if dataSize < HEADER_SIZE then InsufficientBuffer
    else if h.numChannels == 0 then InvalidFormat
    else if h.numSamples == 0 then InvalidFormat
    else if h.samplingRate == 0 then InvalidFormat
    else if h.bitsPerSample == 0 then InvalidFormat
    else if h.maxNumSamplesPerBlock == 0 then InvalidFormat
    else if h.preset >= NUM_PARAMETER_PRESETS then InvalidFormat
    else Ok
  }

  /** SRLAEncoder_EncodeHeader: on success the first 29 bytes of data are
      the header; on any error nothing is written. */
  method EncodeHeader(h: Header, data: array?<byte>, dataSize: nat) returns (r: ApiResult)
    requires data != null ==> dataSize <= data.Length
    modifies data
    ensures r == HeaderCheck(h, data != null, dataSize)
    ensures r == Ok ==> data != null && data[..HEADER_SIZE] == HeaderBytes(h)
    ensures r == Ok ==> data[HEADER_SIZE..] == old(data[HEADER_SIZE..])
    ensures r != Ok && data != null ==> data[..] == old(data[..])
  {
    if data == null {
      return InvalidArgument;
    }
    if dataSize < HEADER_SIZE {
      return InsufficientBuffer;
    }
    if h.numChannels == 0 || h.numSamples == 0 || h.samplingRate == 0 ||
       h.bitsPerSample == 0 || h.maxNumSamplesPerBlock == 0 || h.preset >= NUM_PARAMETER_PRESETS {
      return InvalidFormat;
    }
    var pos := WriteHeaderFields(data, h);
    r := Ok;
  }

  /** The writes of EncodeHeader, field by field through the cursor. */
  method WriteHeaderFields(data: array<byte>, h: Header) returns (pos: nat)
    requires HEADER_SIZE <= data.Length
    modifies data
    ensures pos == HEADER_SIZE && data[..HEADER_SIZE] == HeaderBytes(h)
    ensures data[HEADER_SIZE..] == old(data[HEADER_SIZE..])
  {
    hide BE;
    ghost var d0 := data[..];
    ghost var w: seq<byte> := [];
    pos := 0;
    pos, w := PutField(data, pos, SIGNATURE, w, d0);
    pos, w := PutField(data, pos, BE(FORMAT_VERSION, 4), w, d0);
    pos, w := PutField(data, pos, BE(CODEC_VERSION, 4), w, d0);
    pos, w := PutField(data, pos, BE(h.numChannels, 2), w, d0);
    pos, w := PutField(data, pos, BE(h.numSamples, 4), w, d0);
    pos, w := PutField(data, pos, BE(h.samplingRate, 4), w, d0);
    pos, w := PutField(data, pos, BE(h.bitsPerSample, 2), w, d0);
    pos, w := PutField(data, pos, BE(h.maxNumSamplesPerBlock, 4), w, d0);
    pos, w := PutField(data, pos, BE(h.preset, 1), w, d0);
  }

  /* ---------------------------------------------------------------- */
  /* Parameters and the encoder handle.                                */
  /* ---------------------------------------------------------------- */

  /** struct SRLAEncodeParameter, with the fields the encoder reads. */
  datatype EncodeParameter = EncodeParameter(
    numChannels: u16,
    bitsPerSample: u16,
    samplingRate: u32,
    numSamplesPerBlock: u32,
    preset: u8)

  /** SRLAEncoder_ConvertParameterToHeader: the checked fields are copied
      into an otherwise zero header (both version fields stay 0). */
  function ConvertParameterToHeader(p: EncodeParameter, numSamples: u32): (r: Outcome<Header>)
    ensures r.Success? <==> p.numChannels > 0 && p.bitsPerSample > 0 && p.samplingRate > 0 && p.preset < NUM_PARAMETER_PRESETS
    ensures r.Failure? ==> r.error == InvalidFormat
    ensures r.Success? ==> r.value.numSamples == numSamples && r.value.numChannels == p.numChannels &&
                           r.value.samplingRate == p.samplingRate && r.value.bitsPerSample == p.bitsPerSample &&
                           r.value.maxNumSamplesPerBlock == p.numSamplesPerBlock && r.value.preset == p.preset
  {
    if p.numChannels == 0 then Failure(InvalidFormat)
    else if p.bitsPerSample == 0 then Failure(InvalidFormat)
    else if p.samplingRate == 0 then Failure(InvalidFormat)
    else if p.preset >= NUM_PARAMETER_PRESETS then Failure(InvalidFormat)
    else Success(Header(0, 0, p.numChannels, numSamples, p.samplingRate, p.bitsPerSample, p.numSamplesPerBlock, p.preset))
  }

  /** struct SRLAEncoderConfig, with the fields the encoder reads. */
  datatype EncoderConfig = EncoderConfig(maxNumChannels: u32, maxNumSamplesPerBlock: u32, maxNumParameters: u32)

  /** The configurations SRLAEncoder_CalculateWorkSize and
      SRLAEncoder_Create accept: nonzero capacities, and no more parameters
      than samples in a block. */
  predicate ConfigAccepted(config: EncoderConfig)
  {
    config.maxNumSamplesPerBlock > 0 && config.maxNumChannels > 0 && config.maxNumParameters > 0 &&
    config.maxNumParameters <= config.maxNumSamplesPerBlock
  }

  /** Decides the data type of a block and produces a compressed payload:
      `rawByEstimate` is the outcome of the code-length estimate (at or
      above SRLA_ESTIMATED_CODELENGTH_THRESHOLD), `compress` the whole of
      SRLAEncoder_EncodeCompressData for a buffer of the given size. */
  datatype BlockCoder = BlockCoder(
    rawByEstimate: seq<seq<int>> -> bool,
    compress: (seq<seq<int>>, nat) -> Outcome<seq<byte>>)

  /** The compressed payload fits the buffer it was given. */
  ghost predicate Fits(o: BlockCoder)
  {
    forall block, capacity ::
      (o.compress(block, capacity).Success? ==> |o.compress(block, capacity).value| <= capacity) &&
      (o.compress(block, capacity).Failure? ==> o.compress(block, capacity).error != Ok)
  }

  /** The samples the encoder reads: c channels of at least n samples. */
  predicate Shaped(block: seq<seq<int>>, c: nat, n: nat)
  {
    c <= |block| && forall ch | 0 <= ch < c :: n <= |block[ch]|
  }

  /** SRLAEncoder_DecideBlockDataType: raw when the estimate says so, else
      silent when every sample is zero, else compressed. */
  function BlockTypeFor(o: BlockCoder, block: seq<seq<int>>, c: nat, n: nat): byte
    requires Shaped(block, c, n)
  {
    if o.rawByEstimate(block) then RAW_DATA
    else if AllZero(block, c, n) then SILENT_DATA
    else COMPRESS_DATA
  }

  /** The payload of a block of the given type, for a buffer of `capacity`
      bytes after the block header. */
  function Payload(h: Header, o: BlockCoder, t: byte, block: seq<seq<int>>, n: nat, capacity: nat): Outcome<seq<byte>>
    requires Shaped(block, h.numChannels, n)
  {
    if t == RAW_DATA then
      if capacity < (h.bitsPerSample * n * h.numChannels) / 8 then Failure(InsufficientBuffer)
      else Success(RawPayload(block, h.numChannels, n, RawWidth(h.bitsPerSample)))
    else if t == COMPRESS_DATA then o.compress(block, capacity)
    else if t == SILENT_DATA then Success([])
    else Failure(InvalidFormat)
  }

  /** The block written for n samples into `capacity` bytes after the
      block header. */
  function EncodedBlock(h: Header, o: BlockCoder, block: seq<seq<int>>, n: nat, capacity: nat): Outcome<seq<byte>>
    requires Shaped(block, h.numChannels, n)
  {
    var t := BlockTypeFor(o, block, h.numChannels, n);
    var p := Payload(h, o, t, block, n, capacity);
    if p.Failure? then Failure(p.error) else Success(BlockBytes(t, n, p.value))
  }

  /** The outcome of SRLAEncoder_EncodeBlock: the argument checks, the
      parameter flag and the block size, in the order of the source, then
      the block.  A buffer shorter than the block header is refused (see
      AsWrittenBlockCapacity for the source, which does not check it). */
  function BlockResult(parameterSet: bool, h: Header, o: BlockCoder, block: seq<seq<int>>, n: nat, hasData: bool, dataSize: nat): Outcome<seq<byte>>
    requires parameterSet && n <= h.maxNumSamplesPerBlock ==> Shaped(block, h.numChannels, n)
  {
    if n == 0 || !hasData || dataSize == 0 then Failure(InvalidArgument)
    else if !parameterSet then Failure(ParameterNotSet)
    else if n > h.maxNumSamplesPerBlock then Failure(InsufficientBuffer)
    else if dataSize < BLOCK_HEADER_SIZE then Failure(InsufficientBuffer)
    else EncodedBlock(h, o, block, n, dataSize - BLOCK_HEADER_SIZE)
  }

  /** A successful block never exceeds its buffer. */
  lemma BlockWithin(parameterSet: bool, h: Header, o: BlockCoder, block: seq<seq<int>>, n: nat, dataSize: nat)
    requires Fits(o) && (parameterSet && n <= h.maxNumSamplesPerBlock ==> Shaped(block, h.numChannels, n))
    ensures var b := BlockResult(parameterSet, h, o, block, n, true, dataSize);
            (b.Success? ==> BLOCK_HEADER_SIZE <= |b.value| <= dataSize) && (b.Failure? ==> b.error != Ok)
  {
    var b := BlockResult(parameterSet, h, o, block, n, true, dataSize);
    if b.Success? {
      var t := BlockTypeFor(o, block, h.numChannels, n);
      var capacity := dataSize - BLOCK_HEADER_SIZE;
      if t == RAW_DATA {
        RawSize(h.bitsPerSample, n, h.numChannels);
      }
    }
  }

  class Encoder {
    var header: Header
    /** set_parameter == 1. */
    var setParameter: bool
    /** parameter_preset, as an index into g_srla_parameter_preset. */
    var presetIndex: nat
    const maxNumChannels: nat
    const maxNumSamplesPerBlock: nat
    const maxNumParameters: nat

    /** The handle SRLAEncoder_Create sets up: capacities from the
        configuration, parameters not yet set. */
    constructor (config: EncoderConfig)
      requires ConfigAccepted(config)
      ensures !setParameter
      ensures maxNumChannels == config.maxNumChannels && maxNumSamplesPerBlock == config.maxNumSamplesPerBlock
      ensures maxNumParameters == config.maxNumParameters
    {
      header := Header(0, 0, 0, 0, 0, 0, 0, 0);
      setParameter := false;
      presetIndex := 0;
      maxNumChannels := config.maxNumChannels;
      maxNumSamplesPerBlock := config.maxNumSamplesPerBlock;
      maxNumParameters := config.maxNumParameters;
    }

    /** The outcome of SRLAEncoder_SetEncodeParameter. */
    function ParameterCheck(p: EncodeParameter): (r: ApiResult)
    {
      if ConvertParameterToHeader(p, 0).Failure? then InvalidFormat
      else if maxNumSamplesPerBlock < p.numSamplesPerBlock || maxNumChannels < p.numChannels then InsufficientBuffer
      else Ok
    }

    /** SRLAEncoder_SetEncodeParameter: only on success are the header, the
        preset and the flag set; the header has zero samples until
        EncodeWhole fills them in. */
    method SetEncodeParameter(p: EncodeParameter) returns (r: ApiResult)
      requires Valid()
      modifies this
      ensures Valid()
      ensures r == ParameterCheck(p)
      ensures r == Ok ==> setParameter && presetIndex == p.preset &&
                          Success(header) == ConvertParameterToHeader(p, 0)
      ensures r != Ok ==> header == old(header) && setParameter == old(setParameter) && presetIndex == old(presetIndex)
    {
      var tmp := ConvertParameterToHeader(p, 0);
      if tmp.Failure? {
        return InvalidFormat;
      }
      if maxNumSamplesPerBlock < p.numSamplesPerBlock || maxNumChannels < p.numChannels {
        return InsufficientBuffer;
      }
      header := tmp.value.(maxNumSamplesPerBlock := p.numSamplesPerBlock);
      presetIndex := p.preset;
      setParameter := true;
      r := Ok;
    }

    /** A header set by SetEncodeParameter stays within the capacities. */
    ghost predicate Valid()
      reads this
    {
      setParameter ==> header.numChannels <= maxNumChannels && header.maxNumSamplesPerBlock <= maxNumSamplesPerBlock &&
                       presetIndex == header.preset < NUM_PARAMETER_PRESETS && header.numChannels > 0 &&
                       header.bitsPerSample > 0 && header.samplingRate > 0
    }

    /** SRLAEncoder_DecideBlockDataType, with the code-length estimate
        taken from `o`: the silence test scans channel by channel. */
    method DecideBlockDataType(o: BlockCoder, block: seq<seq<int>>, n: nat) returns (t: byte)
      requires Shaped(block, header.numChannels, n)
      ensures t == BlockTypeFor(o, block, header.numChannels, n)
      ensures t == SILENT_DATA ==> AllZero(block, header.numChannels, n)
      ensures t == COMPRESS_DATA ==> exists ch, smpl | 0 <= ch < header.numChannels && 0 <= smpl < n :: block[ch][smpl] != 0
    {
      if o.rawByEstimate(block) {
        return RAW_DATA;
      }
      var ch := 0;
      while ch < header.numChannels
        invariant ch <= header.numChannels
        invariant forall c, smpl | 0 <= c < ch && 0 <= smpl < n :: block[c][smpl] == 0
      {
        var smpl := 0;
        while smpl < n
          invariant smpl <= n
          invariant forall s | 0 <= s < smpl :: block[ch][s] == 0
        {
          if block[ch][smpl] != 0 {
            return COMPRESS_DATA;
          }
          smpl := smpl + 1;
        }
        ch := ch + 1;
      }
      return SILENT_DATA;
    }

    /** SRLAEncoder_EncodeRawData: after the size check, the samples go to
        data[at..] interleaved, each as its zig-zag value in the byte width
        of the bit depth; a bit depth other than 8, 16 and 24 writes
        nothing.  Every write stays within dataSize (the source asserts a
        strict bound, see AsWrittenRawAsserts). */
    method EncodeRawData(block: seq<seq<int>>, n: nat, data: array<byte>, at: nat, dataSize: nat)
      returns (r: ApiResult, outputSize: nat)
      requires n > 0 && at + dataSize <= data.Length
      requires Shaped(block, header.numChannels, n)
      modifies data
      ensures r == (if dataSize < (header.bitsPerSample * n * header.numChannels) / 8 then InsufficientBuffer else Ok)
      ensures r == Ok ==> outputSize <= dataSize &&
                          data[at..at + outputSize] == RawPayload(block, header.numChannels, n, RawWidth(header.bitsPerSample))
      ensures r != Ok ==> outputSize == 0
      ensures data[..at] == old(data[..at]) && data[at + outputSize..] == old(data[at + outputSize..])
    {
      var c := header.numChannels;
      var bps := header.bitsPerSample;
      if dataSize < (bps * n * c) / 8 {
        return InsufficientBuffer, 0;
      }
      var w := RawWidth(bps);
      RawSize(bps, n, c);
      if w == 0 {
        return Ok, 0;
      }
      var ptr := PutRaw(block, c, n, w, data, at, dataSize);
      outputSize := ptr - at;
      r := Ok;
    }

    /** The payload dispatch of SRLAEncoder_EncodeBlock, writing to
        data[pos..pos + capacity]. */
    method EncodePayload(o: BlockCoder, t: byte, block: seq<seq<int>>, n: nat, data: array<byte>, pos: nat, capacity: nat)
      returns (r: ApiResult, size: nat, ghost payload: seq<byte>)
      requires Fits(o) && n > 0 && pos + capacity <= data.Length && Shaped(block, header.numChannels, n)
      modifies data
      ensures var p := Payload(header, o, t, block, n, capacity);
              r == ResultOf(p) && (p.Success? ==> r == Ok && payload == p.value && size == |payload| <= capacity) &&
              (p.Failure? ==> r != Ok && size == 0)
      ensures data[..pos] == old(data[..pos]) && data[pos + size..] == old(data[pos + size..])
      ensures data[pos..pos + size] == payload
    {
      if t == RAW_DATA {
        r, size := EncodeRawData(block, n, data, pos, capacity);
        payload := if r == Ok then RawPayload(block, header.numChannels, n, RawWidth(header.bitsPerSample)) else [];
      } else if t == COMPRESS_DATA {
        var out := o.compress(block, capacity);
        if out.Failure? {
          return out.error, 0, [];
        }
        var next := PutBytes(data, pos, out.value);
        r, size, payload := Ok, |out.value|, out.value;
      } else if t == SILENT_DATA {
        r, size, payload := Ok, 0, [];
      } else {
        r, size, payload := InvalidFormat, 0, [];
      }
    }

    /** SRLAEncoder_EncodeBlock: the block header with placeholder size and
        checksum, the payload of the chosen type, then the size and the
        checksum.  A failing payload leaves only the block header written. */
    method EncodeBlock(o: BlockCoder, block: seq<seq<int>>, n: nat, data: array?<byte>, at: nat, dataSize: nat)
      returns (r: ApiResult, outputSize: nat)
      requires Fits(o) && (data != null ==> at + dataSize <= data.Length)
      requires setParameter && n <= header.maxNumSamplesPerBlock ==> Shaped(block, header.numChannels, n)
      modifies data
      ensures var b := BlockResult(setParameter, header, o, block, n, data != null, dataSize);
              r == ResultOf(b) &&
              (b.Success? ==> data != null && outputSize == |b.value| <= dataSize && data[at..at + outputSize] == b.value)
      ensures data != null ==> data[..at] == old(data[..at])
      ensures data != null && BlockResult(setParameter, header, o, block, n, true, dataSize).Success? ==>
                data[at + outputSize..] == old(data[at + outputSize..])
      ensures data != null && BlockResult(setParameter, header, o, block, n, true, dataSize).Failure? && dataSize < BLOCK_HEADER_SIZE ==>
                data[..] == old(data[..])
      ensures data != null && BlockResult(setParameter, header, o, block, n, true, dataSize).Failure? && dataSize >= BLOCK_HEADER_SIZE ==>
                data[at + BLOCK_HEADER_SIZE..] == old(data[at + BLOCK_HEADER_SIZE..])
    {
      if n == 0 || data == null || dataSize == 0 {
        return InvalidArgument, 0;
      }
      if !setParameter {
        return ParameterNotSet, 0;
      }
      if n > header.maxNumSamplesPerBlock {
        return InsufficientBuffer, 0;
      }
      if dataSize < BLOCK_HEADER_SIZE {
        return InsufficientBuffer, 0;
      }
      r, outputSize := WriteBlock(o, block, n, data, at, dataSize);
    }

    /** EncodeBlock once its checks have passed. */
    method WriteBlock(o: BlockCoder, block: seq<seq<int>>, n: nat, data: array<byte>, at: nat, dataSize: nat)
      returns (r: ApiResult, outputSize: nat)
      requires Fits(o) && at + dataSize <= data.Length && 0 < n && BLOCK_HEADER_SIZE <= dataSize
      requires Shaped(block, header.numChannels, n)
      modifies data
      ensures var b := EncodedBlock(header, o, block, n, dataSize - BLOCK_HEADER_SIZE);
              r == ResultOf(b) && (b.Failure? ==> r != Ok) &&
              (b.Success? ==> outputSize == |b.value| <= dataSize && data[at..at + outputSize] == b.value &&
                              data[at + outputSize..] == old(data[at + outputSize..]))
      ensures data[..at] == old(data[..at])
      ensures r != Ok ==> data[at + BLOCK_HEADER_SIZE..] == old(data[at + BLOCK_HEADER_SIZE..])
    {
      hide BE, BlockBytes, Payload, RawPayload;
      var t := DecideBlockDataType(o, block, n);
      ghost var d0 := data[..];
      var pos := WriteBlockHeader(data, at, t, n);
      ghost var d1 := data[..];
      var size: nat;
      ghost var payload: seq<byte>;
      r, size, payload := EncodePayload(o, t, block, n, data, pos, dataSize - BLOCK_HEADER_SIZE);
      ghost var d2 := data[..];
      assert d2[..pos] == d1[..pos];
      if r != Ok {
        assert d2[pos..] == d1[pos..] == d0[pos..];
        return r, 0;
      }
      var e := pos + size;
      assert d2[at..at + 2] == d1[at..at + 2] == BE(BLOCK_SYNC_CODE, 2) by {
        assert d2[..pos][at..at + 2] == d1[..pos][at..at + 2];
      }
      assert d2[at + 8..e] == ChecksummedBytes(t, n, payload) by {
        assert d2[at + 8..pos] == d2[..pos][at + 8..pos] == d1[..pos][at + 8..pos] == d1[at + 8..pos];
        assert d2[at + 8..e] == d2[at + 8..pos] + d2[pos..e];
      }
      FinishBlock(data, at, size, t, n, payload);
      assert data[..at] == d2[..at] == d2[..pos][..at] == d1[..pos][..at] == d1[..at] == d0[..at];
      assert data[e..] == d2[e..] == d1[pos..][size..] == d0[pos..][size..] == d0[e..];
      outputSize := BLOCK_HEADER_SIZE + size;
    }

    /** SRLAEncoder_EncodeWhole: the header with the sample count filled
        in, then blocks of min(block size, remaining) samples in order, each
        into what is left of the buffer; the first failure is returned. */
    method EncodeWhole(o: BlockCoder, input: seq<seq<int>>, numSamples: u32, data: array?<byte>, dataSize: nat)
      returns (r: ApiResult, outputSize: nat)
      requires Fits(o) && (data != null ==> dataSize <= data.Length)
      requires setParameter ==> Shaped(input, header.numChannels, numSamples)
      modifies this, data
      ensures var res := WholeResult(old(setParameter), old(header), o, input, numSamples, data != null, dataSize);
              r == ResultOf(res) && (res.Failure? ==> r != Ok) &&
              (res.Success? ==> data != null && outputSize == |res.value| <= dataSize && data[..outputSize] == res.value &&
                                data[outputSize..] == old(data[outputSize..]))
      ensures data != null ==> data[dataSize..] == old(data[dataSize..])
      ensures setParameter == old(setParameter) && presetIndex == old(presetIndex)
      ensures header == if old(setParameter) && data != null then old(header).(numSamples := numSamples) else old(header)
    {
      hide HeaderBytes, BlockResult, BE, WholeBlocks, Fits, Shaped, EncodedBlock;
      if data == null {
        return InvalidArgument, 0;
      }
      if !setParameter {
        return ParameterNotSet, 0;
      }
      header := header.(numSamples := numSamples);
      r := EncodeHeader(header, data, dataSize);
      if r != Ok {
        return r, 0;
      }
      ghost var d1 := data[..];
      var blocks;
      r, blocks := EncodeBlocks(o, input, data, dataSize);
      if r != Ok {
        return r, 0;
      }
      outputSize := blocks;
      assert data[..blocks] == data[..HEADER_SIZE] + data[HEADER_SIZE..blocks];
      assert data[..HEADER_SIZE] == d1[..HEADER_SIZE];
    }

    /** The block loop of SRLAEncoder_EncodeWhole, after the header. */
    method EncodeBlocks(o: BlockCoder, input: seq<seq<int>>, data: array<byte>, dataSize: nat)
      returns (r: ApiResult, writeOffset: nat)
      requires Fits(o) && HEADER_SIZE <= dataSize <= data.Length && setParameter && Encodable(header)
      requires Shaped(input, header.numChannels, header.numSamples)
      modifies data
      ensures var res := WholeBlocks(header, o, input, 0, HEADER_SIZE, dataSize);
              r == ResultOf(res) && (res.Failure? ==> r != Ok) &&
              (res.Success? ==> writeOffset == HEADER_SIZE + |res.value| && data[HEADER_SIZE..writeOffset] == res.value &&
                                data[writeOffset..] == old(data[writeOffset..]))
      ensures data[..HEADER_SIZE] == old(data[..HEADER_SIZE]) && data[dataSize..] == old(data[dataSize..])
    {
      hide HeaderBytes, BlockResult, BE, WholeBlocks, Prepend;
      ghost var whole := WholeBlocks(header, o, input, 0, HEADER_SIZE, dataSize);
      var progress: nat := 0;
      writeOffset := HEADER_SIZE;
      PrependNone(whole);
      assert data[HEADER_SIZE..writeOffset] == [];
      while progress < header.numSamples
        invariant progress <= header.numSamples && HEADER_SIZE <= writeOffset <= dataSize
        invariant data[..HEADER_SIZE] == old(data[..HEADER_SIZE])
        invariant data[writeOffset..] == old(data[writeOffset..])
        invariant whole == Prepend(data[HEADER_SIZE..writeOffset], WholeBlocks(header, o, input, progress, writeOffset, dataSize))
        decreases header.numSamples - progress
      {
        r, writeOffset, progress := EncodeNextBlock(o, input, data, dataSize, progress, writeOffset, old(data[..]), whole);
        if r != Ok {
          return r, 0;
        }
      }
      WholeEnd(header, o, input, progress, writeOffset, dataSize);
      r := Ok;
    }

    /** One pass of the block loop of SRLAEncoder_EncodeWhole: the next
        block at writeOffset, the bytes before it and after the buffer
        untouched. */
    method EncodeNextBlock(o: BlockCoder, input: seq<seq<int>>, data: array<byte>, dataSize: nat, progress: nat, writeOffset: nat,
                           ghost d0: seq<byte>, ghost whole: Outcome<seq<byte>>)
      returns (r: ApiResult, writeOffset': nat, progress': nat)
      requires Fits(o) && HEADER_SIZE <= dataSize <= data.Length && setParameter && Encodable(header)
      requires Shaped(input, header.numChannels, header.numSamples)
      requires progress < header.numSamples && HEADER_SIZE <= writeOffset <= dataSize
      requires |d0| == data.Length && data[..HEADER_SIZE] == d0[..HEADER_SIZE] && data[writeOffset..] == d0[writeOffset..]
      requires whole == Prepend(data[HEADER_SIZE..writeOffset], WholeBlocks(header, o, input, progress, writeOffset, dataSize))
      modifies data
      ensures data[..HEADER_SIZE] == d0[..HEADER_SIZE] && data[dataSize..] == d0[dataSize..]
      ensures r != Ok ==> whole.Failure? && r == ResultOf(whole)
      ensures r == Ok ==> progress < progress' <= header.numSamples && writeOffset <= writeOffset' <= dataSize
      ensures r == Ok ==> data[writeOffset'..] == d0[writeOffset'..]
      ensures r == Ok ==> whole == Prepend(data[HEADER_SIZE..writeOffset'], WholeBlocks(header, o, input, progress', writeOffset', dataSize))
    {
      hide HeaderBytes, BlockResult, BE, WholeBlocks, Prepend, Fits, EncodedBlock;
      var h := header;
      var n := Min(h.maxNumSamplesPerBlock, h.numSamples - progress);
      var blk := BlockOf(input, h.numChannels, progress, n);
      ghost var before := data[..];
      var writeSize;
      r, writeSize := EncodeBlock(o, blk, n, data, writeOffset, dataSize - writeOffset);
      BlockWithin(true, h, o, blk, n, dataSize - writeOffset);
      WholeStep(h, o, input, progress, writeOffset, dataSize);
      if r != Ok {
        FailedBlockFrames(d0, before, data[..], writeOffset, dataSize);
        return r, 0, 0;
      }
      ghost var rest := WholeBlocks(h, o, input, progress + n, writeOffset + writeSize, dataSize);
      PrependPrepend(before[HEADER_SIZE..writeOffset], data[writeOffset..writeOffset + writeSize], rest);
      BlockFrames(d0, before, data[..], writeOffset, writeSize, dataSize);
      writeOffset' := writeOffset + writeSize;
      progress' := progress + n;
    }
  }

  /** SRLAEncoder_Create: no handle for a configuration it refuses. */
  method Create(config: EncoderConfig) returns (e: Encoder?)
    ensures e == null <==> !ConfigAccepted(config)
    ensures e != null ==> fresh(e) && !e.setParameter && e.Valid() && e.maxNumChannels == config.maxNumChannels &&
                          e.maxNumSamplesPerBlock == config.maxNumSamplesPerBlock
  {
    if !ConfigAccepted(config) {
      return null;
    }
    e := new Encoder(config);
  }

  /** The first m bytes of the raw payload are at d[at..]. */
  ghost predicate Written(d: seq<byte>, at: nat, block: seq<seq<int>>, c: nat, n: nat, w: nat, m: nat)
    requires Shaped(block, c, n)
  {
    m <= n * c * w && at + m <= |d| && forall i | 0 <= i < m :: d[at + i] == RawByte(block, c, n, w, i)
  }

  /** Writing the next bytes of the payload extends what is written. */
  lemma WrittenExtend(d: seq<byte>, d': seq<byte>, at: nat, block: seq<seq<int>>, c: nat, n: nat, w: nat, lo: nat, bytes: seq<byte>)
    requires Shaped(block, c, n) && Written(d, at, block, c, n, w, lo) && lo + |bytes| <= n * c * w
    requires at + lo + |bytes| <= |d'| && d'[..at + lo] == d[..at + lo] && d'[at + lo..at + lo + |bytes|] == bytes
    requires forall j | 0 <= j < |bytes| :: RawByte(block, c, n, w, lo + j) == bytes[j]
    ensures Written(d', at, block, c, n, w, lo + |bytes|)
  {
    forall i | 0 <= i < lo + |bytes|
      ensures d'[at + i] == RawByte(block, c, n, w, i)
    {
      if i < lo {
        assert d'[..at + lo][at + i] == d[..at + lo][at + i];
      } else {
        assert d'[at + lo..at + lo + |bytes|][i - lo] == bytes[i - lo];
      }
    }
  }

  /** Nothing written yet. */
  lemma WrittenNone(d: seq<byte>, at: nat, block: seq<seq<int>>, c: nat, n: nat, w: nat)
    requires Shaped(block, c, n) && at <= |d|
    ensures Written(d, at, block, c, n, w, 0)
  {
  }

  /** The whole payload written is the raw payload. */
  lemma WrittenPayload(d: seq<byte>, at: nat, block: seq<seq<int>>, c: nat, n: nat, w: nat)
    requires Shaped(block, c, n) && Written(d, at, block, c, n, w, n * c * w)
    ensures d[at..at + n * c * w] == RawPayload(block, c, n, w)
  {
  }

  /** The frames before `smpl` end within the payload. */
  lemma FramesWithin(smpl: nat, n: nat, c: nat, w: nat)
    requires smpl <= n
    ensures smpl * c * w <= n * c * w
  {
    MulLeft(smpl, n, c * w);
    assert smpl * c * w == smpl * (c * w);
    assert n * c * w == n * (c * w);
  }

  /** Byte j of sample ch of frame smpl sits at (smpl * c + ch) * w + j of
      the raw payload. */
  lemma RawByteAt(block: seq<seq<int>>, c: nat, n: nat, w: nat, smpl: nat, ch: nat, j: nat)
    requires Shaped(block, c, n) && smpl < n && ch < c && j < w
    ensures (smpl * c + ch) * w + j < n * c * w
    ensures RawByte(block, c, n, w, (smpl * c + ch) * w + j) == BE(SignedToUnsigned(block[ch][smpl]), w)[j]
  {
    var k := smpl * c + ch;
    MulLeft(smpl + 1, n, c);
    assert k < n * c;
    MulLeft(k + 1, n * c, w);
    MulDivMod(k, j, w);
    MulDivMod(smpl, ch, c);
  }

  /** The loop of EncodeRawData over the frames, for a width w > 0. */
  method PutRaw(block: seq<seq<int>>, c: nat, n: nat, w: nat, data: array<byte>, at: nat, dataSize: nat)
    returns (ptr: nat)
    requires Shaped(block, c, n) && 0 < w && n * c * w <= dataSize && at + dataSize <= data.Length
    modifies data
    ensures ptr == at + n * c * w && data[at..ptr] == RawPayload(block, c, n, w)
    ensures data[..at] == old(data[..at]) && data[ptr..] == old(data[ptr..])
  {
    hide RawByte, Written, RawPayload, Shaped;
    ptr := at;
    var smpl := 0;
    ghost var total := n * c * w;
    FrameCount(0, n, c, w, total);
    WrittenNone(data[..], at, block, c, n, w);
    while smpl < n
      invariant smpl <= n && ptr - at == FrameBytes(smpl, c, w) <= total
      invariant data[..at] == old(data[..at]) && data[ptr..] == old(data[ptr..])
      invariant Written(data[..], at, block, c, n, w, ptr - at)
    {
      FrameCount(smpl, n, c, w, total);
      FrameCount(smpl + 1, n, c, w, total);
      ptr := PutFrame(block, c, n, w, smpl, data, at, ptr, dataSize, old(data[..]));
      smpl := smpl + 1;
    }
    WrittenPayload(data[..], at, block, c, n, w);
  }

  /** A block written at wo over ws bytes keeps the header, the bytes
      after it and the bytes after the buffer, and extends the blocks
      before it. */
  lemma BlockFrames(d0: seq<byte>, before: seq<byte>, after: seq<byte>, wo: nat, ws: nat, ds: nat)
    requires |d0| == |before| == |after| && HEADER_SIZE <= wo && wo + ws <= ds <= |after|
    requires before[..HEADER_SIZE] == d0[..HEADER_SIZE] && before[wo..] == d0[wo..]
    requires after[..wo] == before[..wo] && after[wo + ws..] == before[wo + ws..]
    ensures after[..HEADER_SIZE] == d0[..HEADER_SIZE] && after[ds..] == d0[ds..] && after[wo + ws..] == d0[wo + ws..]
    ensures after[HEADER_SIZE..wo + ws] == before[HEADER_SIZE..wo] + after[wo..wo + ws]
  {
    TailKept(d0, before, after, wo, wo + ws);
    assert after[..HEADER_SIZE] == after[..wo][..HEADER_SIZE];
    assert after[ds..] == after[wo + ws..][ds - wo - ws..];
    assert d0[ds..] == d0[wo + ws..][ds - wo - ws..];
    assert after[HEADER_SIZE..wo + ws] == after[..wo][HEADER_SIZE..] + after[wo..wo + ws];
  }

  /** A block that failed at wo kept the header and the bytes after the
      buffer: it wrote at most its header, and only with room for it. */
  lemma FailedBlockFrames(d0: seq<byte>, before: seq<byte>, after: seq<byte>, wo: nat, ds: nat)
    requires |d0| == |before| == |after| && HEADER_SIZE <= wo <= ds <= |after|
    requires before[..HEADER_SIZE] == d0[..HEADER_SIZE] && before[wo..] == d0[wo..]
    requires after[..wo] == before[..wo]
    requires ds - wo < BLOCK_HEADER_SIZE ==> after == before
    requires ds - wo >= BLOCK_HEADER_SIZE ==> after[wo + BLOCK_HEADER_SIZE..] == before[wo + BLOCK_HEADER_SIZE..]
    ensures after[..HEADER_SIZE] == d0[..HEADER_SIZE] && after[ds..] == d0[ds..]
  {
    assert after[..HEADER_SIZE] == after[..wo][..HEADER_SIZE];
    if ds - wo >= BLOCK_HEADER_SIZE {
      TailKept(d0, before, after, wo, wo + BLOCK_HEADER_SIZE);
      assert after[ds..] == after[wo + BLOCK_HEADER_SIZE..][ds - wo - BLOCK_HEADER_SIZE..];
      assert d0[ds..] == d0[wo + BLOCK_HEADER_SIZE..][ds - wo - BLOCK_HEADER_SIZE..];
    } else {
      assert before[ds..] == before[wo..][ds - wo..];
      assert d0[ds..] == d0[wo..][ds - wo..];
    }
  }

  /** Two steps that each leave a tail alone leave the shorter tail alone. */
  lemma TailKept(d0: seq<byte>, d1: seq<byte>, d2: seq<byte>, p: nat, q: nat)
    requires |d0| == |d1| == |d2| && p <= q <= |d2| && d1[p..] == d0[p..] && d2[q..] == d1[q..]
    ensures d2[q..] == d0[q..]
  {
    assert d1[q..] == d1[p..][q - p..];
    assert d0[q..] == d0[p..][q - p..];
  }

  /** The bytes of the first smpl frames. */
  function FrameBytes(smpl: nat, c: nat, w: nat): nat
  {
    smpl * c * w
  }

  /** The frames before smpl end within the payload of n frames. */
  lemma FrameCount(smpl: nat, n: nat, c: nat, w: nat, total: nat)
    requires smpl <= n && total == n * c * w
    ensures FrameBytes(smpl, c, w) == smpl * c * w <= total
  {
    FramesWithin(smpl, n, c, w);
  }

  /** One frame of EncodeRawData: sample smpl of every channel. */
  method PutFrame(block: seq<seq<int>>, c: nat, n: nat, w: nat, smpl: nat, data: array<byte>, at: nat, ptr0: nat, dataSize: nat,
                  ghost d0: seq<byte>)
    returns (ptr: nat)
    requires Shaped(block, c, n) && 0 < w && smpl < n && ptr0 == at + smpl * c * w
    requires n * c * w <= dataSize && at + dataSize <= data.Length
    requires Written(data[..], at, block, c, n, w, smpl * c * w)
    requires |d0| == data.Length && data[..at] == d0[..at] && data[ptr0..] == d0[ptr0..]
    modifies data
    ensures ptr == at + (smpl + 1) * c * w
    ensures Written(data[..], at, block, c, n, w, ptr - at)
    ensures data[..at] == d0[..at] && data[ptr..] == d0[ptr..]
  {
    hide Written;
    FramesWithin(smpl, n, c, w);
    ptr := ptr0;
    var ch := 0;
    while ch < c
      invariant ch <= c && ptr == at + (smpl * c + ch) * w && ptr <= at + dataSize
      invariant Written(data[..], at, block, c, n, w, ptr - at)
      invariant data[..at] == old(data[..at]) && data[ptr..] == old(data[ptr..])
    {
      SampleWithin(smpl, n, c, w, ch);
      ptr := PutSample(block, c, n, w, smpl, ch, data, at, ptr);
      assert ptr - at <= dataSize;
      ch := ch + 1;
    }
    TailKept(d0, old(data[..]), data[..], ptr0, ptr);
  }

  /** Sample ch of frame smpl of EncodeRawData. */
  method PutSample(block: seq<seq<int>>, c: nat, n: nat, w: nat, smpl: nat, ch: nat, data: array<byte>, at: nat, ptr0: nat)
    returns (ptr: nat)
    requires Shaped(block, c, n) && 0 < w && smpl < n && ch < c && ptr0 == at + (smpl * c + ch) * w
    requires (smpl * c + ch + 1) * w <= n * c * w && at + n * c * w <= data.Length
    requires Written(data[..], at, block, c, n, w, ptr0 - at)
    modifies data
    ensures ptr == at + (smpl * c + ch + 1) * w
    ensures Written(data[..], at, block, c, n, w, ptr - at)
    ensures data[..at] == old(data[..at]) && data[ptr..] == old(data[ptr..])
  {
    hide RawByte, Written;
    var bytes := BE(SignedToUnsigned(block[ch][smpl]), w);
    ghost var lo := ptr0 - at;
    forall j | 0 <= j < w
      ensures RawByte(block, c, n, w, lo + j) == bytes[j]
    {
      RawByteAt(block, c, n, w, smpl, ch, j);
    }
    ghost var d := data[..];
    ptr := PutBytes(data, ptr0, bytes);
    WrittenExtend(d, data[..], at, block, c, n, w, lo, bytes);
    assert data[..at] == data[..ptr0][..at];
  }

  /** Bytes in front of an outcome. */
  function Prepend(a: seq<byte>, r: Outcome<seq<byte>>): (p: Outcome<seq<byte>>)
    ensures p.Success? <==> r.Success?
    ensures p.Success? ==> p.value == a + r.value
    ensures p.Failure? ==> p.error == r.error
  {
    if r.Failure? then r else Success(a + r.value)
  }

  /** Nothing in front changes nothing. */
  lemma PrependNone(r: Outcome<seq<byte>>)
    ensures Prepend([], r) == r
  {
    if r.Success? {
      assert [] + r.value == r.value;
    }
  }

  /** Bytes put in front in two steps. */
  lemma PrependPrepend(a: seq<byte>, b: seq<byte>, r: Outcome<seq<byte>>)
    ensures Prepend(a, Prepend(b, r)) == Prepend(a + b, r)
  {
    if r.Success? {
      assert a + (b + r.value) == (a + b) + r.value;
    }
  }

  /** The blocks EncodeWhole writes from sample `progress` on, at offset
      `at` of a buffer of dataSize bytes. */
  function WholeBlocks(h: Header, o: BlockCoder, input: seq<seq<int>>, progress: nat, at: nat, dataSize: nat)
    : (r: Outcome<seq<byte>>)
    requires Fits(o) && h.maxNumSamplesPerBlock > 0 && at <= dataSize
    requires Shaped(input, h.numChannels, h.numSamples)
    ensures r.Success? ==> at + |r.value| <= dataSize
    ensures r.Failure? ==> r.error != Ok
    decreases h.numSamples - progress
  {
    if progress >= h.numSamples then Success([])
    else
      var n := Min(h.maxNumSamplesPerBlock, h.numSamples - progress);
      var b := BlockResult(true, h, o, BlockOf(input, h.numChannels, progress, n), n, true, dataSize - at);
      BlockWithin(true, h, o, BlockOf(input, h.numChannels, progress, n), n, dataSize - at);
      if b.Failure? then b
      else Prepend(b.value, WholeBlocks(h, o, input, progress + n, at + |b.value|, dataSize))
  }

  /** One step of WholeBlocks: the next block, then the rest. */
  lemma WholeStep(h: Header, o: BlockCoder, input: seq<seq<int>>, progress: nat, at: nat, dataSize: nat)
    requires Fits(o) && h.maxNumSamplesPerBlock > 0 && at <= dataSize
    requires Shaped(input, h.numChannels, h.numSamples) && progress < h.numSamples
    ensures var n := Min(h.maxNumSamplesPerBlock, h.numSamples - progress);
            var b := BlockResult(true, h, o, BlockOf(input, h.numChannels, progress, n), n, true, dataSize - at);
            (b.Success? ==> at + |b.value| <= dataSize) &&
            WholeBlocks(h, o, input, progress, at, dataSize) ==
              if b.Failure? then b else Prepend(b.value, WholeBlocks(h, o, input, progress + n, at + |b.value|, dataSize))
  {
    hide BlockResult, BlockOf, Prepend;
    var n := Min(h.maxNumSamplesPerBlock, h.numSamples - progress);
    BlockWithin(true, h, o, BlockOf(input, h.numChannels, progress, n), n, dataSize - at);
  }

  /** No blocks remain once every sample is encoded. */
  lemma WholeEnd(h: Header, o: BlockCoder, input: seq<seq<int>>, progress: nat, at: nat, dataSize: nat)
    requires Fits(o) && h.maxNumSamplesPerBlock > 0 && at <= dataSize
    requires Shaped(input, h.numChannels, h.numSamples) && progress >= h.numSamples
    ensures WholeBlocks(h, o, input, progress, at, dataSize) == Success([])
  {
  }

  /** The outcome of SRLAEncoder_EncodeWhole. */
  function WholeResult(parameterSet: bool, h: Header, o: BlockCoder, input: seq<seq<int>>, numSamples: u32, hasData: bool, dataSize: nat)
    : (r: Outcome<seq<byte>>)
    requires Fits(o) && (parameterSet ==> Shaped(input, h.numChannels, numSamples))
    ensures r.Success? ==> HEADER_SIZE <= |r.value| <= dataSize
    ensures r.Failure? ==> r.error != Ok
  {
    if !hasData then Failure(InvalidArgument)
    else if !parameterSet then Failure(ParameterNotSet)
    else
      var h' := h.(numSamples := numSamples);
      var hc := HeaderCheck(h', true, dataSize);
      if hc != Ok then Failure(hc)
      else Prepend(HeaderBytes(h'), WholeBlocks(h', o, input, 0, HEADER_SIZE, dataSize))
  }

  /** The error of a failed outcome, Ok for a successful one. */
  function ResultOf<T>(o: Outcome<T>): (r: ApiResult)
    ensures r == Ok <==> o.Success? || o.error == Ok
  {
    if o.Success? then Ok else o.error
  }

  /** A slice inside a prefix is the prefix's slice. */
  lemma PrefixSlice(a: seq<byte>, w: seq<byte>, i: nat, j: nat)
    requires a <= w && i <= j <= |a|
    ensures w[i..j] == a[i..j]
  {
  }

  /** The first 11 bytes of a block: sync code, zero size and checksum
      to be filled in later, data type and sample count. */
  method WriteBlockHeader(data: array<byte>, at: nat, t: byte, n: nat) returns (pos: nat)
    requires at + BLOCK_HEADER_SIZE <= data.Length
    modifies data
    ensures pos == at + BLOCK_HEADER_SIZE
    ensures data[..at] == old(data[..at]) && data[pos..] == old(data[pos..])
    ensures data[at..at + 2] == BE(BLOCK_SYNC_CODE, 2) && data[at + 8..pos] == [t] + BE(n, 2)
  {
    hide BE;
    ghost var d0 := data[..];
    ghost var w := data[..at];
    pos := at;
    pos, w := PutField(data, pos, BE(BLOCK_SYNC_CODE, 2), w, d0);
    ghost var w1 := w;
    pos, w := PutField(data, pos, BE(0, 4), w, d0);
    pos, w := PutField(data, pos, BE(0, 2), w, d0);
    ghost var w3 := w;
    pos, w := PutField(data, pos, [t], w, d0);
    pos, w := PutField(data, pos, BE(n, 2), w, d0);
    assert w1 <= w3 <= w;
    PrefixSlice(w1, w, at, at + 2);
    assert w1[at..at + 2] == BE(BLOCK_SYNC_CODE, 2);
    assert w[at + 8..pos] == [t] + BE(n, 2);
    assert data[at..at + 2] == data[..pos][at..at + 2];
    assert data[at + 8..pos] == data[..pos][at + 8..pos];
  }

  /** The size field (ByteArray_WriteUint32BE at offset 2, modulo 2^32)
      and the checksum of the bytes after the checksum field (at offset
      6) complete the block. */
  method FinishBlock(data: array<byte>, at: nat, size: nat, ghost t: byte, ghost n: nat, ghost payload: seq<byte>)
    requires size == |payload| && at + BLOCK_HEADER_SIZE + size <= data.Length
    requires data[at..at + 2] == BE(BLOCK_SYNC_CODE, 2)
    requires data[at + 8..at + BLOCK_HEADER_SIZE + size] == ChecksummedBytes(t, n, payload)
    modifies data
    ensures data[at..at + BLOCK_HEADER_SIZE + size] == BlockBytes(t, n, payload)
    ensures data[..at] == old(data[..at]) && data[at + BLOCK_HEADER_SIZE + size..] == old(data[at + BLOCK_HEADER_SIZE + size..])
  {
    var e := at + BLOCK_HEADER_SIZE + size;
    ghost var d0 := data[..];
    var p := PutBytes(data, at + 2, BE(size + 5, 4));
    ghost var d1 := data[..];
    var checksum := CalculateFletcher16CheckSum(data[at + 8..e]);
    assert data[at + 8..e] == d0[at + 8..e];
    p := PutBytes(data, at + 6, BE(checksum, 2));
    Concat4(data[..], at, BE(BLOCK_SYNC_CODE, 2), BE(size + 5, 4), BE(checksum, 2), ChecksummedBytes(t, n, payload)) by {
      assert data[at..at + 2] == d1[at..at + 2] == d0[at..at + 2];
      assert data[at + 2..at + 6] == d1[at + 2..at + 6];
      assert data[at + 8..e] == d1[at + 8..e] == d0[at + 8..e];
    }
    assert data[..at] == d1[..at] == d0[..at];
    assert data[e..] == d1[e..] == d0[e..];
  }

  /** Four consecutive slices make up their concatenation. */
  lemma Concat4(s: seq<byte>, at: nat, a: seq<byte>, b: seq<byte>, c: seq<byte>, d: seq<byte>)
    requires at + |a| + |b| + |c| + |d| <= |s|
    requires s[at..at + |a|] == a && s[at + |a|..at + |a| + |b|] == b
    requires s[at + |a| + |b|..at + |a| + |b| + |c|] == c
    requires s[at + |a| + |b| + |c|..at + |a| + |b| + |c| + |d|] == d
    ensures s[at..at + |a| + |b| + |c| + |d|] == a + b + c + d
  {
    var e := at + |a| + |b| + |c| + |d|;
    assert s[at..e] == s[at..at + |a|] + s[at + |a|..at + |a| + |b|] + s[at + |a| + |b|..at + |a| + |b| + |c|]
                       + s[at + |a| + |b| + |c|..e];
  }

  /* ---------------------------------------------------------------- */
  /* The bounds of the source as written.                              */
  /* ---------------------------------------------------------------- */

  /** The cursor offset after the (k+1)-th sample write of EncodeRawData. */
  function RawWriteEnd(k: nat, w: nat): nat
  {
    (k + 1) * w
  }

  /** The assertion after every write of SRLAEncoder_EncodeRawData as
      written: the cursor offset strictly below data_size. */
  ghost predicate AsWrittenRawAsserts(n: nat, c: nat, w: nat, dataSize: nat)
  {
    forall k | 0 <= k < n * c :: RawWriteEnd(k, w) < dataSize
  }

  /** A buffer of exactly bitsPerSample * n * c / 8 bytes passes the size
      check of EncodeRawData, yet the assertion after its last write
      fails. */
  lemma AsWrittenRawAssertsRejectExactBuffer(bps: nat, n: nat, c: nat)
    requires RawWidth(bps) > 0 && n > 0 && c > 0
    ensures var dataSize := n * c * RawWidth(bps);
            !(dataSize < (bps * n * c) / 8) && !AsWrittenRawAsserts(n, c, RawWidth(bps), dataSize)
  {
    RawSize(bps, n, c);
    var w := RawWidth(bps);
    MulSign(n, c);
    assert RawWriteEnd(n * c - 1, w) == n * c * w;
  }

  /** With the bound the size check establishes, every write of
      EncodeRawData ends within data_size, as EncodeRawData proves for
      each write it makes. */
  lemma RawWritesWithin(n: nat, c: nat, w: nat, dataSize: nat)
    requires n * c * w <= dataSize
    ensures forall k | 0 <= k < n * c :: RawWriteEnd(k, w) <= dataSize
  {
    forall k | 0 <= k < n * c
      ensures RawWriteEnd(k, w) <= dataSize
    {
      MulLeft(k + 1, n * c, w);
    }
  }

  /** The capacity SRLAEncoder_EncodeBlock as written hands to the payload:
      data_size - 11 in 32-bit unsigned arithmetic, after writing the 11
      header bytes without a check of data_size. */
  function AsWrittenBlockCapacity(dataSize: u32): (cap: u32)
  {
    (dataSize - BLOCK_HEADER_SIZE) % 0x1_0000_0000
  }

  /** A 5-byte buffer passes the argument checks of EncodeBlock as written;
      it receives 11 header bytes and the payload is told it has almost
      4 GiB. */
  lemma AsWrittenBlockOverrun()
    ensures var dataSize: u32 := 5;
            dataSize != 0 && dataSize < BLOCK_HEADER_SIZE && AsWrittenBlockCapacity(dataSize) == 0x1_0000_0000 - 6
  {
  }

  /** With the check of the block header size, a block never exceeds its
      buffer and a buffer shorter than the block header is refused. */
  lemma BlockFitsBuffer(h: Header, o: BlockCoder, block: seq<seq<int>>, n: nat, dataSize: nat)
    requires Fits(o) && (n <= h.maxNumSamplesPerBlock ==> Shaped(block, h.numChannels, n))
    ensures var b := BlockResult(true, h, o, block, n, true, dataSize);
            (b.Success? ==> |b.value| <= dataSize) &&
            (0 < n <= h.maxNumSamplesPerBlock && 0 < dataSize < BLOCK_HEADER_SIZE ==> b == Failure(InsufficientBuffer))
  {
    BlockWithin(true, h, o, block, n, dataSize);
  }
}
