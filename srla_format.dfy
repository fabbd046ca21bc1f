/**
 * The SRLA container format that srla_encoder.c writes and srla_decoder.c
 * reads (include/srla.h, libs/srla_internal/include/srla_internal.h): the
 * 29-byte file header, the 11-byte block header and the raw-sample
 * payload, each as a byte string.  All multi-byte fields are big-endian;
 * ByteArray_Put/Get (byte_array.h) are taken to store and load them most
 * significant byte first with the cursor advanced past them.
 */
module SrlaFormat {
  import opened Bits
  import opened SrlaUtility
  import opened Fletcher16

  const FORMAT_VERSION: nat := 7
  const CODEC_VERSION: nat := 12
  const HEADER_SIZE: nat := 29
  const MAX_NUM_CHANNELS: nat := 8
  const NUM_PARAMETER_PRESETS: nat := 7
  const BLOCK_SYNC_CODE: nat := 0xFFFF

  /** Sync code, size, checksum, data type and sample count. */
  const BLOCK_HEADER_SIZE: nat := 11

  /** SRLABlockDataType. */
  const COMPRESS_DATA: byte := 0
  const SILENT_DATA: byte := 1
  const RAW_DATA: byte := 2

  type u8 = x: nat | x < 0x100
  type u16 = x: nat | x < 0x1_0000
  type u32 = x: nat | x < 0x1_0000_0000

  /** SRLAApiResult. */
  datatype ApiResult =
    | Ok
    | InvalidArgument
    | InvalidFormat
    | InsufficientBuffer
    | InsufficientData
    | ParameterNotSet
    | DetectDataCorruption
    | Ng

  /** A value, or the error that prevented it. */
  datatype Outcome<T> = Success(value: T) | Failure(error: ApiResult)

  /** struct SRLAHeader.  The encoder calls the last count field
      num_samples_per_block and the decoder max_num_samples_per_block; it
      is one field of the stream. */
  datatype Header = Header(
    formatVersion: u32,
    codecVersion: u32,
    numChannels: u16,
    numSamples: u32,
    samplingRate: u32,
    bitsPerSample: u16,
    maxNumSamplesPerBlock: u32,
    preset: u8)

  /** max_num_parameters of the first NUM_PARAMETER_PRESETS rows of
      g_srla_parameter_preset. */
  function PresetMaxNumParameters(preset: nat): (r: nat)
    requires preset < NUM_PARAMETER_PRESETS
    ensures r == 32 || r == 64
  {
    if preset == 6 then 64 else 32
  }

  /** The signature "1249". */
  const SIGNATURE: seq<byte> := [0x31, 0x32, 0x34, 0x39]

  /** The 29 header bytes.  The two version fields always carry the
      format and codec versions of this library, whatever the header
      holds. */
  function HeaderBytes(h: Header): (r: seq<byte>)
    ensures |r| == HEADER_SIZE
  {
    SIGNATURE + BE(FORMAT_VERSION, 4) + BE(CODEC_VERSION, 4) + BE(h.numChannels, 2)
    + BE(h.numSamples, 4) + BE(h.samplingRate, 4) + BE(h.bitsPerSample, 2)
    + BE(h.maxNumSamplesPerBlock, 4) + BE(h.preset, 1)
  }

  /** The bytes the checksum covers: data type, sample count, payload. */
  function ChecksummedBytes(blockType: byte, numSamples: nat, payload: seq<byte>): (r: seq<byte>)
    ensures |r| == 3 + |payload|
  {
    [blockType] + BE(numSamples, 2) + payload
  }

  /** A block: sync code, size (payload + 5, the bytes after the size
      field), Fletcher-16 checksum of the bytes after the checksum field,
      data type and per-channel sample count (both 16-bit, so the count is
      stored modulo 2^16), then the payload. */
  function BlockBytes(blockType: byte, numSamples: nat, payload: seq<byte>): (r: seq<byte>)
    ensures |r| == BLOCK_HEADER_SIZE + |payload|
  {
    BE(BLOCK_SYNC_CODE, 2) + BE(|payload| + 5, 4)
    + BE(Fletcher16Of(ChecksummedBytes(blockType, numSamples, payload)), 2)
    + ChecksummedBytes(blockType, numSamples, payload)
  }

  /** The raw payload interleaves the channels sample by sample; sample k
      of the interleaved order (sample k / c of channel k % c) takes
      `width` bytes, its zig-zag value big-endian. */
  function RawPayload(block: seq<seq<int>>, c: nat, n: nat, width: nat): (r: seq<byte>)
    requires c <= |block| && forall ch | 0 <= ch < c :: n <= |block[ch]|
    ensures |r| == n * c * width
  {
    seq(n * c * width, i requires 0 <= i < n * c * width =>
      RawByte(block, c, n, width, i))
  }

  /** Byte i of the raw payload. */
  function RawByte(block: seq<seq<int>>, c: nat, n: nat, width: nat, i: nat): byte
    requires c <= |block| && forall ch | 0 <= ch < c :: n <= |block[ch]|
    requires i < n * c * width
  {
    var (ch, smpl, j) := RawPos(n, c, width, i);
    BE(SignedToUnsigned(block[ch][smpl]), width)[j]
  }

  /** Byte i of the payload is byte j of the sample of channel ch, frame
      smpl: k = i / width is its place in the interleaved order. */
  function RawPos(n: nat, c: nat, width: nat, i: nat): (r: (nat, nat, nat))
    requires i < n * c * width
    ensures r.0 < c && r.1 < n && r.2 < width
    ensures r == ((i / width) % c, (i / width) / c, i % width)
  {
    RawIndex(n, c, width, i);
    ((i / width) % c, (i / width) / c, i % width)
  }

  /** Byte i of the payload belongs to sample k = i / width of the
      interleaved order, which lies inside the block. */
  lemma RawIndex(n: nat, c: nat, width: nat, i: nat)
    requires i < n * c * width
    ensures width > 0 && c > 0 && i / width < n * c && (i / width) / c < n
    ensures (i / width) % c < c && i % width < width
  {
    var k := i / width;
    assert k * width <= i;
    if k >= n * c {
      MulLeft(n * c, k, width);
    }
    assert (k / c) * c <= k;
    if k / c >= n {
      MulLeft(n, k / c, c);
    }
  }

  /** The byte width of a raw sample of each supported bit depth. */
  function RawWidth(bitsPerSample: nat): (w: nat)
  {
    if bitsPerSample == 8 then 1
    else if bitsPerSample == 16 then 2
    else if bitsPerSample == 24 then 3
    else 0
  }

  /** The samples of a block: n samples of every channel from `progress`. */
  function BlockOf(input: seq<seq<int>>, c: nat, progress: nat, n: nat): (b: seq<seq<int>>)
    requires c <= |input| && forall ch | 0 <= ch < c :: progress + n <= |input[ch]|
    ensures |b| == c && forall ch | 0 <= ch < c :: |b[ch]| == n
  {
    seq(c, ch requires 0 <= ch < c => input[ch][progress..progress + n])
  }

  /** Every sample of the block is zero. */
  predicate AllZero(block: seq<seq<int>>, c: nat, n: nat)
    requires c <= |block| && forall ch | 0 <= ch < c :: n <= |block[ch]|
  {
    forall ch, smpl | 0 <= ch < c && 0 <= smpl < n :: block[ch][smpl] == 0
  }

  /** Every sample fits the signed range of the bit depth. */
  predicate InRange(block: seq<seq<int>>, c: nat, n: nat, bitsPerSample: nat)
    requires c <= |block| && forall ch | 0 <= ch < c :: n <= |block[ch]|
  {
    bitsPerSample >= 1 &&
    forall ch, smpl | 0 <= ch < c && 0 <= smpl < n ::
      -(Pow2(bitsPerSample - 1) as int) <= block[ch][smpl] < Pow2(bitsPerSample - 1)
  }

  /** The raw payload has bitsPerSample * n * c / 8 bytes, or none for a
      bit depth other than 8, 16 and 24. */
  lemma RawSize(bps: nat, n: nat, c: nat)
    ensures n * c * RawWidth(bps) <= (bps * n * c) / 8
    ensures RawWidth(bps) > 0 ==> n * c * RawWidth(bps) == (bps * n * c) / 8
  {
    var w := RawWidth(bps);
    if w > 0 {
      assert bps == 8 * w;
      assert bps * n * c == 8 * (n * c * w);
    }
  }

  /** Samples up to ch of frame smpl end within the payload. */
  lemma SampleWithin(smpl: nat, n: nat, c: nat, w: nat, ch: nat)
    requires smpl < n && ch < c
    ensures (smpl * c + ch + 1) * w <= n * c * w
  {
    MulLeft(smpl + 1, n, c);
    MulLeft(smpl * c + ch + 1, n * c, w);
  }
}
