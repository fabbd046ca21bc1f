/**
 * What the WAV writer emits, the WAV parser reads back: the 44-byte
 * header parses to the format it was written from, and every sample of
 * the interleaved area reads back as the sample written, for formats
 * whose fields fit their widths.
 */
module WavRoundTrip {
  import opened Bits
  import opened WavFormat

  /** A format the 44-byte header can carry: 16-bit channel count and
      depth, a whole number of bytes per frame, and a data size that fits
      32 bits. */
  predicate Representable(f: WavFileFormat)
  {
    f.pcm && f.numChannels < 0x1_0000 && f.bitsPerSample < 0x1_0000
    && 0 < (f.bitsPerSample / 8) * f.numChannels
    && f.numSamples * ((f.bitsPerSample / 8) * f.numChannels) < 0x1_0000_0000
  }

  /** Where each field sits in a written header. */
  lemma HeaderLayout(f: WavFileFormat, rest: seq<byte>)
    ensures var d := HeaderBytes(f) + rest;
      |d| >= 44 && d[..4] == RIFF && d[8..12] == WAVE && d[12..16] == FMT
      && d[16..20] == LE(16, 4) && d[20..22] == LE(1, 2) && d[22..24] == LE(f.numChannels, 2)
      && d[24..28] == LE(f.samplingRate, 4) && d[34..36] == LE(f.bitsPerSample, 2)
      && d[36..40] == DATA && d[40..44] == LE(PcmDataSize(f), 4)
  {
    hide LE, PcmDataSize, ByteRate, BlockAlign;
    var d := HeaderBytes(f) + rest;
    assert |d| >= 44;
  }

  /** A field written little-endian reads back as its value, when the
      value fits the field. */
  lemma FieldOf(d: seq<byte>, i: nat, n: nat, v: nat)
    requires i + n <= |d| && d[i..i + n] == LE(v, n) && v < Pow2(8 * n)
    ensures Field(d, i, n) == v
  {
    hide FromLE, LE, Pow2;
    FromLEOfLE(v, n);
    DivModUnique(v, Pow2(8 * n), 0, v);
  }

  /** The data size of a representable format is the exact product. */
  lemma ExactDataSize(f: WavFileFormat)
    requires Representable(f)
    ensures PcmDataSize(f) == f.numSamples * ((f.bitsPerSample / 8) * f.numChannels)
  {
    var w, c := f.bitsPerSample / 8, f.numChannels;
    assert f.numSamples * w * c == f.numSamples * (w * c);
  }

  /** The quotient the sample count takes is the number of frames. */
  lemma FrameCount(n: nat, m: nat, frame: nat)
    requires frame > 0 && m * frame <= n * frame < (m + 1) * frame
    ensures m == n
  {
    if m < n {
      MulLeft(m + 1, n, frame);
    } else if m > n {
      MulLeft(n + 1, m, frame);
    }
  }

  /** A written header passes the signature and format-tag checks. */
  lemma HeaderPasses(f: WavFileFormat, rest: seq<byte>)
    ensures HeaderError(HeaderBytes(f) + rest).None?
  {
    hide HeaderBytes, LE, PcmDataSize, ByteRate, BlockAlign;
    var d := HeaderBytes(f) + rest;
    HeaderLayout(f, rest);
    Pow2Values();
    FieldOf(d, 20, 2, 1);
  }

  /** WAVParser_GetWAVFormat reads back the format WAVWriter_PutWAVHeader
      wrote, and the samples start right after the 44 header bytes. */
  lemma HeaderRoundTrip(f: WavFileFormat, rest: seq<byte>)
    requires Representable(f)
    ensures ParseFormat(HeaderBytes(f) + rest) == Success((f, 44))
  {
    hide HeaderBytes, PcmDataSize, HeaderError, Field, LE, FromLE, ByteRate, BlockAlign;
    var d := HeaderBytes(f) + rest;
    HeaderPasses(f, rest);
    HeaderLayout(f, rest);
    ExactDataSize(f);
    Pow2Values();
    Pow2Word();
    FieldOf(d, 22, 2, f.numChannels);
    FieldOf(d, 24, 4, f.samplingRate);
    FieldOf(d, 34, 2, f.bitsPerSample);
    FieldOf(d, 16, 4, 16);
    FieldOf(d, 40, 4, PcmDataSize(f));
    assert FmtSkip(16) == 0;
    assert ChunkScan(d, 36) == Success(40);
    var frame := (f.bitsPerSample / 8) * f.numChannels;
    var n := SampleCount(PcmDataSize(f), f.bitsPerSample, f.numChannels);
    FrameCount(f.numSamples, n, frame);
  }

  /** Every sample of channel-major data lies in the range of the depth. */
  predicate FitsDepth(D: seq<seq<int>>, bps: nat)
    requires SupportedDepth(bps)
  {
    forall ch, s | 0 <= ch < |D| && 0 <= s < |D[ch]| :: -(Pow2(bps - 1) as int) <= D[ch][s] < Pow2(bps - 1)
  }

  /** The bytes after a prefix of h bytes. */
  lemma SliceAfter(h: seq<byte>, x: seq<byte>, i: nat, j: nat)
    requires i <= j <= |x|
    ensures (h + x)[|h| + i .. |h| + j] == x[i..j]
  {
  }

  /** Sample s of channel ch, written at its slot after the header, reads
      back as itself when it lies in the depth's range. */
  lemma SampleReadBack(f: WavFileFormat, D: seq<seq<int>>, s: nat, ch: nat)
    requires SupportedDepth(f.bitsPerSample) && Samples(D, f.numChannels, f.numSamples)
    requires ch < f.numChannels && s < f.numSamples && FitsDepth(D, f.bitsPerSample)
    ensures var c, n, bps := f.numChannels, f.numSamples, f.bitsPerSample;
      SampleIn(HeaderBytes(f) + Interleaved(D, c, n, bps, Slot(n, c)),
               44 + Slot(Slot(s, c) + ch, bps / 8), bps) == D[ch][s]
  {
    hide HeaderBytes, Interleaved, SampleIn, SampleBytes, ReadSample, FromLE, Slot, SampleAt, Pow2;
    var c, n := f.numChannels, f.numSamples;
    var bps: nat := f.bitsPerSample;
    var w := bps / 8;
    var k := Slot(s, c) + ch;
    var h := HeaderBytes(f);
    var area := Interleaved(D, c, n, bps, Slot(n, c));
    var p := D[ch][s];
    FrameSample(D, c, n, s, ch, k);
    InterleavedSlice(D, c, n, bps, Slot(n, c), k);
    SlotStep(k, w);
    SliceAfter(h, area, Slot(k, w), Slot(k + 1, w));
    SampleInAt(h + area, 44 + Slot(k, w), bps, SampleBytes(bps, p));
    assert -(Pow2(bps - 1) as int) <= p < Pow2(bps - 1);
    assert IsInt32(p);
    SampleRoundTrip(bps, p);
  }

  /** The sample at `at` is the one the bytes there name. */
  lemma SampleInAt(d: seq<byte>, at: nat, bps: nat, x: seq<byte>)
    requires SupportedDepth(bps) && at + bps / 8 <= |d| && d[at..at + bps / 8] == x
    ensures |x| == bps / 8 && FromLE(x) < Pow2(bps)
    ensures SampleIn(d, at, bps) == ReadSample(bps, FromLE(x))
  {
    assert 8 * (bps / 8) == bps;
    assert Field(d, at, bps / 8) == FromLE(x);
  }

  /** A file WAV_WriteToFile produced for a representable format and
      samples within its depth is one WAV_CreateFromFile accepts in full,
      with the same format and the same samples. */
  lemma FileRoundTrip(f: WavFileFormat, D: seq<seq<int>>)
    requires Representable(f) && SupportedDepth(f.bitsPerSample)
    requires Samples(D, f.numChannels, f.numSamples) && FitsDepth(D, f.bitsPerSample)
    ensures var c, n, bps := f.numChannels, f.numSamples, f.bitsPerSample;
      var file := HeaderBytes(f) + Interleaved(D, c, n, bps, Slot(n, c));
      ParseFormat(file) == Success((f, 44)) && 44 + Slot(Slot(n, c), bps / 8) <= |file| &&
      forall ch, s | 0 <= ch < c && 0 <= s < n :: SampleIn(file, 44 + Slot(Slot(s, c) + ch, bps / 8), bps) == D[ch][s]
  {
    hide HeaderBytes, Interleaved, SampleIn, ParseFormat, FitsDepth, Representable;
    var c, n, bps := f.numChannels, f.numSamples, f.bitsPerSample;
    var area := Interleaved(D, c, n, bps, Slot(n, c));
    HeaderRoundTrip(f, area);
    forall ch, s | 0 <= ch < c && 0 <= s < n
      ensures SampleIn(HeaderBytes(f) + area, 44 + Slot(Slot(s, c) + ch, bps / 8), bps) == D[ch][s]
    {
      SampleReadBack(f, D, s, ch);
    }
  }
}
