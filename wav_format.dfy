/**
 * The RIFF WAVE layout that libs/wav reads and writes: the library's error
 * codes and format record, the per-depth conversion between file samples
 * and 32-bit PCM, the byte reordering of little-endian fields, the 44-byte
 * header the writer emits, the header grammar the parser accepts, and the
 * channel-interleaved sample area.  The parser and writer classes
 * (WavParser, WavWriter) are proved against the functions here.
 */
module WavFormat {
  import opened Bits

  type u32 = x: int | 0 <= x < 0x1_0000_0000

  /** WAVError, the library's internal result code. */
  datatype WavError = Ok | Ng | Io | InvalidParameter | InvalidFormat

  /** WAVApiResult, what the library's entry points report. */
  datatype ApiResult = ApiOk | ApiNg | ApiUnsupportedFormat | ApiInvalidFormat | ApiIoError | ApiInvalidParameter

  /** A parsed value, or the error that stopped the parse. */
  datatype Outcome<T> = Success(value: T) | Failure(error: WavError)

  /** The fields of struct WAVFileFormat that wav.c reads and writes;
      `pcm` stands for data_format == WAV_DATA_FORMAT_PCM. */
  datatype WavFileFormat = WavFileFormat(
    pcm: bool, numChannels: u32, samplingRate: u32, bitsPerSample: u32, numSamples: u32)

  /** WAVBITBUFFER_BUFFER_SIZE: the parser's and writer's byte buffer. */
  const BUFFER_SIZE: nat := 128 * 1024

  const RIFF: seq<byte> := [0x52, 0x49, 0x46, 0x46]
  const WAVE: seq<byte> := [0x57, 0x41, 0x56, 0x45]
  const FMT: seq<byte> := [0x66, 0x6D, 0x74, 0x20]
  const DATA: seq<byte> := [0x64, 0x61, 0x74, 0x61]

  /** The sample depths the PCM reader and writer handle. */
  predicate SupportedDepth(bps: nat)
  {
    bps == 8 || bps == 16 || bps == 24 || bps == 32
  }

  predicate IsInt32(x: int)
  {
    -0x8000_0000 <= x < 0x8000_0000
  }

  /** (int32_t)u for a 32-bit pattern u. */
  function ToInt32(u: nat): (r: int)
    requires u < 0x1_0000_0000
    ensures IsInt32(r) && r % 0x1_0000_0000 == u
  {
    if u < 0x8000_0000 then u else u - 0x1_0000_0000
  }

  /* ---------------------------------------------------------------- */
  /* Sample conversions.                                               */
  /* ---------------------------------------------------------------- */

  /** WAV_Convert8bitPCMto32bitPCM: 8-bit samples are stored unsigned,
      silence at 128. */
  function Convert8bitPCMto32bitPCM(x: int): int
  {
    x - 128
  }

  /** WAV_Convert16bitPCMto32bitPCM: (x << 16) >> 16 on an int32_t, the
      shift up wrapping and the shift down arithmetic (a floor division).
      The result is the low 16 bits of x read as a signed number. */
  function Convert16bitPCMto32bitPCM(x: int): (r: int)
    ensures -0x8000 <= r < 0x8000 && r % 0x1_0000 == x % 0x1_0000
  {
    WrapShift(x, 0x1_0000, 0x1_0000);
    ToInt32((x * 0x1_0000) % 0x1_0000_0000) / 0x1_0000
  }

  /** WAV_Convert24bitPCMto32bitPCM: (x << 8) >> 8, the low 24 bits of x
      read as a signed number. */
  function Convert24bitPCMto32bitPCM(x: int): (r: int)
    ensures -0x80_0000 <= r < 0x80_0000 && r % 0x100_0000 == x % 0x100_0000
  {
    WrapShift(x, 0x100, 0x100_0000);
    ToInt32((x * 0x100) % 0x1_0000_0000) / 0x100
  }

  /** WAV_Convert32bitPCMto32bitPCM leaves the sample as it is. */
  function Convert32bitPCMto32bitPCM(x: int): int
  {
    x
  }

  /** Shifting x up by m = 2^32 / h wraps to its low bits mod h shifted up;
      read back as an int32_t and shifted down arithmetically, that is the
      low bits sign-extended. */
  lemma WrapShift(x: int, m: int, h: int)
    requires (m == 0x1_0000 && h == 0x1_0000) || (m == 0x100 && h == 0x100_0000)
    ensures (x * m) % 0x1_0000_0000 == (x % h) * m
    ensures var y := ToInt32((x * m) % 0x1_0000_0000) / m;
      -(h / 2) <= y < h / 2 && y % h == x % h
  {
    var q, l := x / h, x % h;
    assert x == q * h + l;
    assert x * m == q * 0x1_0000_0000 + l * m;
    DivModUnique(x * m, 0x1_0000_0000, q, l * m);
    var y := ToInt32(l * m) / m;
    if l < h / 2 {
      assert ToInt32(l * m) == l * m;
      DivModUnique(l * m, m, l, 0);
    } else {
      assert ToInt32(l * m) == (l - h) * m;
      DivModUnique((l - h) * m, m, l - h, 0);
      DivModUnique(l - h, h, -1, l);
    }
  }

  /** The sample the reader stores for the little-endian field it read:
      the field cast to int32_t, then converted by the depth's function. */
  function ReadSample(bps: nat, field: nat): (r: int)
    requires SupportedDepth(bps) && field < Pow2(bps)
  {
    Pow2Values();
    Pow2Monotone(bps, 32);
    var x := ToInt32(field);
    if bps == 8 then Convert8bitPCMto32bitPCM(x)
    else if bps == 16 then Convert16bitPCMto32bitPCM(x)
    else if bps == 24 then Convert24bitPCMto32bitPCM(x)
    else Convert32bitPCMto32bitPCM(x)
  }

  /** The sample the reader makes of the bps / 8 bytes at `at`, when the
      file holds them. */
  function SampleIn(d: seq<byte>, at: nat, bps: nat): int
    requires SupportedDepth(bps)
  {
    if at + bps / 8 <= |d| then
      assert 8 * (bps / 8) == bps;
      ReadSample(bps, Field(d, at, bps / 8))
    else 0
  }

  /** The bytes the writer emits for a 32-bit sample p at a depth:
      (p + 128) & 0xFF at 8 bits, p & 0xFFFF as a little-endian int16_t,
      the bytes (p >> 0), (p >> 8), (p >> 16) masked to 8 bits, and p as a
      little-endian int32_t.  An arithmetic shift of p is p / 2^k. */
  function SampleBytes(bps: nat, p: int): (r: seq<byte>)
    requires SupportedDepth(bps)
    ensures |r| == bps / 8
  {
    if bps == 8 then [(p + 128) % 0x100]
    else if bps == 16 then LE(p % 0x1_0000, 2)
    else if bps == 24 then [p % 0x100, (p / 0x100) % 0x100, (p / 0x1_0000) % 0x100]
    else LE(p % 0x1_0000_0000, 4)
  }

  /** Writing a 32-bit sample and reading it back keeps its low bps bits,
      sign-extended; so a sample that fits the depth comes back unchanged. */
  lemma SampleRoundTrip(bps: nat, p: int)
    requires SupportedDepth(bps) && IsInt32(p)
    ensures FromLE(SampleBytes(bps, p)) < Pow2(bps)
    ensures var r := ReadSample(bps, FromLE(SampleBytes(bps, p)));
      -(Pow2(bps - 1) as int) <= r < Pow2(bps - 1) && r % Pow2(bps) == p % Pow2(bps)
    ensures -(Pow2(bps - 1) as int) <= p < Pow2(bps - 1) ==>
      ReadSample(bps, FromLE(SampleBytes(bps, p))) == p
  {
    Pow2Values();
    Pow2Add(bps - 1, 1);
    var h := Pow2(bps);
    if bps == 8 {
      Trip8(p);
    } else if bps == 16 {
      Trip16(p);
    } else if bps == 24 {
      Trip24(p);
    } else {
      Trip32(p);
    }
    var r := ReadSample(bps, FromLE(SampleBytes(bps, p)));
    if -(h / 2) <= p < h / 2 {
      SameResidue(r, p, h);
    }
  }

  lemma Trip8(p: int)
    ensures FromLE(SampleBytes(8, p)) < 0x100 && Pow2(8) == 0x100
    ensures var r := ReadSample(8, FromLE(SampleBytes(8, p)));
      -0x80 <= r < 0x80 && r % 0x100 == p % 0x100
  {
    Pow2Values();
    var f := FromLE(SampleBytes(8, p));
    assert f == (p + 128) % 0x100 by {
      assert FromLE(SampleBytes(8, p)[1..]) == 0;
    }
    var q := (p + 128) / 256;
    assert p == q * 256 + (f as int - 128);
  }

  lemma Trip16(p: int)
    ensures FromLE(SampleBytes(16, p)) < 0x1_0000 && Pow2(16) == 0x1_0000
    ensures var r := ReadSample(16, FromLE(SampleBytes(16, p)));
      -0x8000 <= r < 0x8000 && r % 0x1_0000 == p % 0x1_0000
  {
    hide FromLE, LE, Pow2, Convert8bitPCMto32bitPCM, Convert16bitPCMto32bitPCM, Convert24bitPCMto32bitPCM, Convert32bitPCMto32bitPCM;
    Pow2Values();
    FromLEOfLE(p % 0x1_0000, 2);
  }

  lemma Trip24(p: int)
    ensures FromLE(SampleBytes(24, p)) < 0x100_0000 && Pow2(24) == 0x100_0000
    ensures var r := ReadSample(24, FromLE(SampleBytes(24, p)));
      -0x80_0000 <= r < 0x80_0000 && r % 0x100_0000 == p % 0x100_0000
  {
    hide FromLE, LE, Pow2, Convert8bitPCMto32bitPCM, Convert16bitPCMto32bitPCM, Convert24bitPCMto32bitPCM, Convert32bitPCMto32bitPCM;
    Bytes24(p);
    Pow2Values();
    FromLEOfLE(p % 0x100_0000, 3);
  }

  lemma Trip32(p: int)
    requires IsInt32(p)
    ensures FromLE(SampleBytes(32, p)) < 0x1_0000_0000 && Pow2(32) == 0x1_0000_0000
    ensures var r := ReadSample(32, FromLE(SampleBytes(32, p)));
      -0x8000_0000 <= r < 0x8000_0000 && r % 0x1_0000_0000 == p % 0x1_0000_0000
  {
    hide FromLE, LE, Pow2, Convert8bitPCMto32bitPCM, Convert16bitPCMto32bitPCM, Convert24bitPCMto32bitPCM;
    Pow2Values();
    FromLEOfLE(p % 0x1_0000_0000, 4);
  }

  /** Two numbers in [-h/2, h/2) with the same residue modulo h are equal. */
  lemma SameResidue(r: int, p: int, h: int)
    requires h > 0 && -(h / 2) <= r < h / 2 && -(h / 2) <= p < h / 2 && r % h == p % h
    ensures r == p
  {
    DivModUnique(p, h, if p < 0 then -1 else 0, if p < 0 then p + h else p);
    DivModUnique(r, h, if r < 0 then -1 else 0, if r < 0 then r + h else r);
  }

  /** The three bytes written for a 24-bit sample are the little-endian
      bytes of its low 24 bits. */
  lemma Bytes24(p: int)
    ensures SampleBytes(24, p) == LE(p % 0x100_0000, 3)
  {
    var q, v := p / 0x100_0000, p % 0x100_0000;
    DivDiv(v, 0x100, 0x100);
    DivModUnique(p, 0x100, q * 0x1_0000 + v / 0x100, v % 0x100);
    DivModUnique(p / 0x100, 0x100, q * 0x100 + v / 0x1_0000, (v / 0x100) % 0x100);
    DivModUnique(p, 0x1_0000, q * 0x100 + v / 0x1_0000, v % 0x1_0000);
    DivModUnique(p / 0x1_0000, 0x100, q, v / 0x1_0000);
    var l := LE(v, 3);
    assert l == [v % 0x100] + LE(v / 0x100, 2);
    assert LE(v / 0x100, 2) == [(v / 0x100) % 0x100] + LE(v / 0x100 / 0x100, 1);
    assert LE(v / 0x100 / 0x100, 1) == [(v / 0x100 / 0x100) % 0x100];
  }

  /* ---------------------------------------------------------------- */
  /* Little-endian fields.                                             */
  /* ---------------------------------------------------------------- */

  /** The n low bytes of v in the opposite order: the value whose
      little-endian bytes are v's big-endian ones. */
  function Reordered(v: nat, n: nat): nat
  {
    FromLE(BE(v, n))
  }

  lemma {:induction false} FromLEBound(s: seq<byte>)
    ensures FromLE(s) < Pow2(8 * |s|)
  {
    if |s| > 0 {
      FromLEBound(s[1..]);
      Pow2Values();
      Pow2Add(8, 8 * (|s| - 1));
      assert FromLE(s[1..]) + 1 <= Pow2(8 * (|s| - 1));
      MulLeft(FromLE(s[1..]) + 1, Pow2(8 * (|s| - 1)), 256);
    }
  }

  /** A little-endian number is the big-endian number of the reversed bytes. */
  lemma {:induction false} FromLEReversed(s: seq<byte>)
    ensures FromLE(s) == FromBE(Reverse(s))
  {
    if |s| > 0 {
      FromLEReversed(s[1..]);
      var t := Reverse(s);
      assert t == Reverse(s[1..]) + [s[0]];
      assert t[..|t| - 1] == Reverse(s[1..]);
    }
  }

  /** Reordering v puts its little-endian bytes where its big-endian ones
      were: writing Reordered(v, n) most significant byte first writes v
      little-endian. */
  lemma ReorderedBytes(v: nat, n: nat)
    ensures BE(Reordered(v, n), n) == LE(v, n)
  {
    var s := BE(v, n);
    FromLEReversed(s);
    BEOfFromBE(Reverse(s));
    LEIsReversedBE(v, n);
  }

  /** Reordering the big-endian value of n bytes gives their little-endian
      value: what reading most significant byte first and reordering
      returns. */
  lemma ReorderedFromBE(s: seq<byte>)
    ensures Reordered(FromBE(s), |s|) == FromLE(s)
  {
    BEOfFromBE(s);
  }

  /** Reordering twice gives back the n low bytes of v. */
  lemma ReorderedInvolution(v: nat, n: nat)
    ensures Reordered(Reordered(v, n), n) == v % Pow2(8 * n)
  {
    ReorderedBytes(v, n);
    FromLEOfLE(v, n);
  }

  /** Byte i of an n-byte big-endian v is (v >> 8 (n - 1 - i)) & 0xFF. */
  lemma {:induction false} BEByte(v: nat, n: nat, i: nat)
    requires i < n
    ensures BE(v, n)[i] == Low(Shr(v, 8 * (n - 1 - i)), 8)
  {
    Pow2Values();
    if i == n - 1 {
      Decompose(v, 8);
      ShrDiv(v, 8);
      ShlMul(v / 256, 8);
      DivModUnique(v, 256, v / 256, Low(v, 8));
    } else {
      BEByte(v / 256, n - 1, i);
      ShrDiv(v, 8);
      ShrShr(v, 8, 8 * (n - 2 - i), 8 * (n - 1 - i));
    }
  }

  lemma {:induction false} FromLESnoc(s: seq<byte>, b: byte)
    ensures FromLE(s + [b]) == FromLE(s) + Shl(b, 8 * |s|)
  {
    if |s| == 0 {
      assert FromLE([b][1..]) == 0;
    } else {
      assert (s + [b])[1..] == s[1..] + [b];
      FromLESnoc(s[1..], b);
      ShlShl(b, 8 * (|s| - 1), 8, 8 * |s|);
      ShlMul(Shl(b, 8 * (|s| - 1)), 8);
      Pow2Values();
    }
  }

  /** The byte-reversing loop of WAVWriter_PutLittleEndianBytes and
      WAVParser_GetLittleEndianBytes: byte i from the top of data goes to
      byte i from the bottom of out.  The fields are disjoint, so the
      source's `|=` is an addition. */
  method ReorderBytes(nbytes: nat, data: nat) returns (out: nat)
    ensures out == Reordered(data, nbytes)
  {
    assert BE(data, nbytes)[..0] == [] && FromLE([]) == 0;
    hide Low, Shr, Shl, FromLE, BE;
    out := 0;
    var i := 0;
    while i < nbytes
      invariant i <= nbytes
      invariant out == FromLE(BE(data, nbytes)[..i])
    {
      var b := Low(Shr(data, 8 * (nbytes - i - 1)), 8);
      BEByte(data, nbytes, i);
      Pow2Values();
      var s := BE(data, nbytes);
      assert s[..i + 1] == s[..i] + [b];
      FromLESnoc(s[..i], b);
      out := out + Shl(b, 8 * i);
      i := i + 1;
    }
    assert BE(data, nbytes)[..nbytes] == BE(data, nbytes);
  }

  /* ---------------------------------------------------------------- */
  /* The header.                                                        */
  /* ---------------------------------------------------------------- */

  /** The PCM area size the writer declares, computed in uint32_t. */
  function PcmDataSize(f: WavFileFormat): nat
  {
    (f.numSamples * (f.bitsPerSample / 8) * f.numChannels) % 0x1_0000_0000
  }

  /** The bytes per second a header declares, before its truncation to
      the field. */
  function ByteRate(f: WavFileFormat): nat
  {
    f.samplingRate * (f.bitsPerSample / 8) * f.numChannels
  }

  /** The bytes per frame a header declares, before its truncation to the
      field. */
  function BlockAlign(f: WavFileFormat): nat
  {
    (f.bitsPerSample / 8) * f.numChannels
  }

  /** The 44 bytes WAVWriter_PutWAVHeader emits: "RIFF", the size after
      this field, "WAVE", a 16-byte linear PCM "fmt " chunk, then the
      "data" chunk header.  Every field is little-endian and keeps the low
      bytes of its value. */
  function HeaderBytes(f: WavFileFormat): (r: seq<byte>)
    ensures |r| == 44
  {
    RIFF + LE(PcmDataSize(f) + 36, 4) + WAVE + FmtChunk(f) + DATA + LE(PcmDataSize(f), 4)
  }

  /** The "fmt " chunk: its size 16, format 1 (linear PCM), channels,
      rate, byte rate, block size and depth. */
  function FmtChunk(f: WavFileFormat): (r: seq<byte>)
    ensures |r| == 24
  {
    FMT + LE(16, 4) + LE(1, 2) + LE(f.numChannels, 2) + LE(f.samplingRate, 4)
      + LE(ByteRate(f), 4) + LE(BlockAlign(f), 2) + LE(f.bitsPerSample, 2)
  }

  /** The little-endian field of n bytes at i. */
  function Field(d: seq<byte>, i: nat, n: nat): (r: nat)
    requires i + n <= |d|
    ensures r < Pow2(8 * n)
  {
    FromLEBound(d[i..i + n]);
    FromLE(d[i..i + n])
  }

  /** The fmt chunk's extension the parser skips: the chunk size read as
      int32_t, less the 16 bytes it understands, when that is positive. */
  function FmtSkip(fmtSize: nat): nat
    requires fmtSize < 0x1_0000_0000
  {
    var s := ToInt32(fmtSize);
    if s > 16 then s - 16 else 0
  }

  /** The chunk scan of WAVParser_GetWAVFormat: from pos, skip whole chunks
      until one named "data"; the result is the position just after the
      name.  A chunk's size is unsigned here (see AsWrittenNextChunk). */
  function ChunkScan(d: seq<byte>, pos: nat): (r: Outcome<nat>)
    decreases |d| - pos
    ensures r.Success? ==> pos + 4 <= r.value <= |d| && d[r.value - 4 .. r.value] == DATA
    ensures r.Failure? ==> r.error == Io
  {
    if pos + 4 > |d| then Failure(Io)
    else if d[pos..pos + 4] == DATA then Success(pos + 4)
    else if pos + 8 > |d| then Failure(Io)
    else ChunkScan(d, pos + 8 + FromLE(d[pos + 4 .. pos + 8]))
  }

  /** The checks of WAVParser_GetWAVFormat up to the format tag: the
      RIFF, WAVE and "fmt " signatures, the two sizes and the tag, which
      must be 1 (linear PCM). */
  function HeaderError(d: seq<byte>): (r: Option<WavError>)
    ensures r.None? ==> |d| >= 22 && d[..4] == RIFF && d[8..12] == WAVE && d[12..16] == FMT && Field(d, 20, 2) == 1
  {
    if |d| < 4 || d[..4] != RIFF then Some(InvalidFormat)
    else if |d| < 8 then Some(Io)
    else if |d| < 12 || d[8..12] != WAVE then Some(InvalidFormat)
    else if |d| < 16 || d[12..16] != FMT then Some(InvalidFormat)
    else if |d| < 22 then Some(Io)
    else if Field(d, 20, 2) != 1 then Some(InvalidFormat)
    else None
  }

  /** What WAVParser_GetWAVFormat makes of a file: the format and the
      position of the first sample, or the error it reports.  A signature
      that is missing or cut short is InvalidFormat; any other read past
      the end of the file is Io. */
  function ParseFormat(d: seq<byte>): (r: Outcome<(WavFileFormat, nat)>)
    ensures r.Success? ==> 44 <= r.value.1 <= |d| && r.value.0.pcm
  {
    if HeaderError(d).Some? then Failure(HeaderError(d).value)
    else if |d| < 36 then Failure(Io)
    else
      Pow2Values();
      DataChunk(d, Field(d, 22, 2), Field(d, 24, 4), Field(d, 34, 2), 36 + FmtSkip(Field(d, 16, 4)))
  }

  /** The rest of the parse, from the first chunk after "fmt ": find
      "data", read its byte count and divide it by the frame size. */
  function DataChunk(d: seq<byte>, ch: u32, rate: u32, bps: u32, start: nat)
    : (r: Outcome<(WavFileFormat, nat)>)
    requires start >= 36
    ensures r.Success? ==> 44 <= r.value.1 <= |d| && r.value.0.pcm
  {
    match ChunkScan(d, start)
    case Failure(e) => Failure(e)
    case Success(at) =>
      if |d| < at + 4 then Failure(Io)
      else if (bps / 8) * ch == 0 then Failure(InvalidFormat)
      else
        var size := Field(d, at, 4);
        Pow2Word();
        assert size < 0x1_0000_0000;
        Success((WavFileFormat(true, ch, rate, bps, SampleCount(size, bps, ch)), at + 4))
  }

  /** num_samples: the data chunk's byte count over the frame size. */
  function SampleCount(size: nat, bps: u32, ch: u32): (n: u32)
    requires size < Pow2(32) && (bps / 8) * ch > 0
    ensures n * ((bps / 8) * ch) <= size < (n + 1) * ((bps / 8) * ch)
  {
    Pow2Word();
    var frame := (bps / 8) * ch;
    MulLeft(1, frame, size / frame);
    MulSucc(size / frame, frame);
    size / frame
  }

  /** The step of the chunk scan as wav.c:183-190 writes it: the chunk
      size goes through int32_t before the seek, so a size of 2^31 or more
      moves the scan backwards. */
  function AsWrittenNextChunk(pos: nat, size: nat): (r: int)
    requires size < 0x1_0000_0000
    ensures size < 0x8000_0000 ==> r == pos + 8 + size
    ensures size >= 0x8000_0000 ==> r < pos + 8 && r == pos + 8 + size - 0x1_0000_0000
  {
    pos + 8 + ToInt32(size)
  }

  /** A chunk that is not "data" and declares 0xFFFF_FFF8 bytes sends the
      as-written scan back to the chunk's own start, where it reads the same
      chunk again without end; ChunkScan steps past it and reports the read
      past the end of the file. */
  lemma AsWrittenScanStalls(d: seq<byte>, pos: nat)
    requires pos + 8 <= |d| < 0x1_0000_0000 && d[pos..pos + 4] != DATA
    requires d[pos + 4 .. pos + 8] == [0xF8, 0xFF, 0xFF, 0xFF]
    ensures Field(d, pos + 4, 4) == 0xFFFF_FFF8
    ensures AsWrittenNextChunk(pos, Field(d, pos + 4, 4)) == pos
    ensures ChunkScan(d, pos) == Failure(Io)
  {
    var s := d[pos + 4 .. pos + 8];
    assert FromLE(s[3..]) == 0xFF by {
      assert s[3..][1..] == [];
    }
    assert s[2..][1..] == s[3..];
    assert s[1..][1..] == s[2..];
    assert s[1..] == s[1..4];
    assert FromLE(s[1..]) == 0xFF_FFFF;
    assert FromLE(s) == 0xFFFF_FFF8;
  }

  /** num_samples as wav.c:192-196 computes it: the data size divided by
      (bps / 8) * channels with no check of the divisor; None stands for the
      division by zero. */
  function AsWrittenSampleCount(size: nat, bps: u32, ch: u32): (r: Option<nat>)
    ensures r.None? <==> (bps / 8) * ch == 0
    ensures r.Some? ==> r.value * ((bps / 8) * ch) <= size
  {
    var frame := (bps / 8) * ch;
    if frame == 0 then None
    else
      Some(size / frame)
  }

  /** A 4-bit stereo header makes the as-written count divide by zero;
      DataChunk rejects it as an invalid format. */
  lemma AsWrittenSampleCountByZero(d: seq<byte>, rate: u32, start: nat)
    requires start >= 36 && ChunkScan(d, start).Success? && ChunkScan(d, start).value + 4 <= |d|
    ensures AsWrittenSampleCount(Field(d, ChunkScan(d, start).value, 4), 4, 2).None?
    ensures DataChunk(d, 2, rate, 4, start) == Failure(InvalidFormat)
  {
  }

  /* ---------------------------------------------------------------- */
  /* The sample area.                                                   */
  /* ---------------------------------------------------------------- */

  /** c channels of n 32-bit samples each. */
  predicate Samples(data: seq<seq<int>>, c: nat, n: nat)
  {
    |data| == c && forall ch | 0 <= ch < c :: |data[ch]| == n && forall j | 0 <= j < n :: IsInt32(data[ch][j])
  }

  /** Sample k of the interleaved order is sample k / c of channel k % c. */
  lemma SampleIndex(c: nat, n: nat, k: nat)
    requires k < Slot(n, c)
    ensures c > 0 && k % c < c && k / c < n
  {
    if k / c >= n {
      MulLeft(n, k / c, c);
    }
  }

  /** Sample k of the interleaved order. */
  function SampleAt(data: seq<seq<int>>, c: nat, n: nat, k: nat): (p: int)
    requires Samples(data, c, n) && k < Slot(n, c)
    ensures IsInt32(p)
  {
    SampleIndex(c, n, k);
    data[k % c][k / c]
  }

  /** Where sample k of the interleaved area starts: k w, for samples of
      w bytes. */
  function Slot(k: nat, w: nat): nat
  {
    k * w
  }

  lemma SlotStep(k: nat, w: nat)
    ensures Slot(k + 1, w) == Slot(k, w) + w
  {
  }

  /** Sample k of the interleaved order, k = frame c + ch. */
  lemma FrameSample(D: seq<seq<int>>, c: nat, n: nat, frame: nat, ch: nat, k: nat)
    requires Samples(D, c, n) && frame < n && ch < c && k == Slot(frame, c) + ch
    ensures k < Slot(n, c) && SampleAt(D, c, n, k) == D[ch][frame]
  {
    MulDivMod(frame, ch, c);
    SlotStep(frame, c);
    SlotMonotone(frame + 1, n, c);
  }

  lemma SlotEmpty(n: nat, c: nat)
    requires n == 0 || c == 0
    ensures Slot(n, c) == 0
  {
  }

  lemma SlotMonotone(k: nat, m: nat, w: nat)
    requires k <= m
    ensures Slot(k, w) <= Slot(m, w)
  {
    MulLeft(k, m, w);
  }

  /** The first k samples of the interleaved area, frame by frame and
      channel by channel, each in its depth's bytes. */
  function Interleaved(data: seq<seq<int>>, c: nat, n: nat, bps: nat, k: nat): (r: seq<byte>)
    requires SupportedDepth(bps) && Samples(data, c, n) && k <= Slot(n, c)
    ensures |r| == Slot(k, bps / 8)
  {
    if k == 0 then []
    else
      SlotStep(k - 1, bps / 8);
      Interleaved(data, c, n, bps, k - 1) + SampleBytes(bps, SampleAt(data, c, n, k - 1))
  }

  /** Sample k's bytes sit at slot k of the interleaved area. */
  lemma {:induction false} InterleavedSlice(data: seq<seq<int>>, c: nat, n: nat, bps: nat, m: nat, k: nat)
    requires SupportedDepth(bps) && Samples(data, c, n) && k < m <= Slot(n, c)
    ensures Slot(k + 1, bps / 8) <= |Interleaved(data, c, n, bps, m)|
    ensures Interleaved(data, c, n, bps, m)[Slot(k, bps / 8) .. Slot(k + 1, bps / 8)]
      == SampleBytes(bps, SampleAt(data, c, n, k))
  {
    hide Interleaved, SampleBytes, Samples, SampleAt, Slot;
    var w := bps / 8;
    var a := Interleaved(data, c, n, bps, m - 1);
    var b := SampleBytes(bps, SampleAt(data, c, n, m - 1));
    InterleavedLast(data, c, n, bps, m);
    SlotStep(k, w);
    SlotStep(m - 1, w);
    if k < m - 1 {
      InterleavedSlice(data, c, n, bps, m - 1, k);
      SlotMonotone(k + 1, m - 1, w);
      SliceOfLeft(a, b, Slot(k, w), Slot(k + 1, w));
    } else {
      SliceOfRight(a, b);
    }
  }

  /** The area of m samples is that of m - 1 samples, then sample m - 1. */
  lemma InterleavedLast(data: seq<seq<int>>, c: nat, n: nat, bps: nat, m: nat)
    requires SupportedDepth(bps) && Samples(data, c, n) && 0 < m <= Slot(n, c)
    ensures Interleaved(data, c, n, bps, m) ==
      Interleaved(data, c, n, bps, m - 1) + SampleBytes(bps, SampleAt(data, c, n, m - 1))
  {
  }

  lemma MulSucc(k: nat, w: nat)
    ensures (k + 1) * w == k * w + w
  {
  }

  lemma SliceOfLeft<T>(a: seq<T>, b: seq<T>, i: nat, j: nat)
    requires i <= j <= |a|
    ensures (a + b)[i..j] == a[i..j]
  {
  }

  lemma SliceOfRight<T>(a: seq<T>, b: seq<T>)
    ensures (a + b)[|a|..|a| + |b|] == b
  {
  }
}
