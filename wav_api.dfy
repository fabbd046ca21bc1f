/**
 * The entry points of libs/wav: the WAVFile handle (a format and a
 * channel-by-sample array of 32-bit samples), its creation, and reading
 * and writing whole files.  A file is its byte contents; whether fopen
 * succeeded is the `isOpen` parameter.
 */
module WavApi {
  import opened Bits
  import opened WavFormat
  import opened WavParser
  import opened WavWriter

  /** struct WAVFile: data[ch, s] is sample s of channel ch. */
  class WavFile {
    const format: WavFileFormat
    const data: array2<int>

    /** The allocation of WAV_Create: calloc'd channels, so every sample
        is 0. */
    constructor (format: WavFileFormat)
      ensures this.format == format && fresh(data)
      ensures data.Length0 == format.numChannels && data.Length1 == format.numSamples
      ensures forall ch, s | 0 <= ch < data.Length0 && 0 <= s < data.Length1 :: data[ch, s] == 0
    {
      this.format := format;
      data := new int[format.numChannels, format.numSamples]((_, _) => 0);
    }
  }

  /** WAV_Create: a handle of the given format with silent samples; only
      linear PCM is accepted. */
  method Create(format: WavFileFormat) returns (r: Option<WavFile>)
    ensures r.None? <==> !format.pcm
    ensures r.Some? ==> fresh(r.value) && fresh(r.value.data) && r.value.format == format
    ensures r.Some? ==> r.value.data.Length0 == format.numChannels && r.value.data.Length1 == format.numSamples
    ensures r.Some? ==> forall ch, s | 0 <= ch < format.numChannels && 0 <= s < format.numSamples ::
      r.value.data[ch, s] == 0
  {
    if !format.pcm {
      return None;
    }
    var w := new WavFile(format);
    return Some(w);
  }

  /** WAV_GetWAVFormatFromFile: only the header is read. */
  method GetWAVFormatFromFile(isOpen: bool, file: seq<byte>) returns (res: ApiResult, format: WavFileFormat)
    ensures res == ApiOk || res == ApiNg
    ensures res == ApiOk <==> isOpen && ParseFormat(file).Success?
    ensures res == ApiOk ==> format == ParseFormat(file).value.0
  {
    format := WavFileFormat(false, 0, 0, 0, 0);
    if !isOpen {
      return ApiNg, format;
    }
    var parser := new Parser(file);
    var err;
    err, format := parser.GetWAVFormat();
    if err != Ok {
      return ApiNg, format;
    }
    return ApiOk, format;
  }

  /** WAV_CreateFromFile: the header, then a handle of that format, then
      the samples, which must all be in the file. */
  method CreateFromFile(isOpen: bool, file: seq<byte>) returns (r: Option<WavFile>)
    ensures !isOpen || ParseFormat(file).Failure? ==> r.None?
    ensures isOpen && ParseFormat(file).Success? ==>
      var (f, at) := ParseFormat(file).value;
      (!SupportedDepth(f.bitsPerSample) ==> r.None?) &&
      (SupportedDepth(f.bitsPerSample) ==>
        (r.Some? <==> at + Slot(Slot(f.numSamples, f.numChannels), f.bitsPerSample / 8) <= |file|))
    ensures r.Some? ==> isOpen && ParseFormat(file).Success? && fresh(r.value) && fresh(r.value.data)
    ensures r.Some? ==>
      var (f, at) := ParseFormat(file).value;
      r.value.format == f && SupportedDepth(f.bitsPerSample) &&
      r.value.data.Length0 == f.numChannels && r.value.data.Length1 == f.numSamples &&
      forall ch, s | 0 <= ch < f.numChannels && 0 <= s < f.numSamples ::
        r.value.data[ch, s] == SampleIn(file, at + Slot(Slot(s, f.numChannels) + ch, f.bitsPerSample / 8), f.bitsPerSample)
  {
    hide ParseFormat, SampleIn, Slot, Field, DataChunk, ChunkScan;
    if !isOpen {
      return None;
    }
    var parser := new Parser(file);
    var err, format := parser.GetWAVFormat();
    if err != Ok {
      return None;
    }
    var handle := Create(format);
    if handle.None? {
      return None;
    }
    var wav := handle.value;
    if format.numSamples == 0 || format.numChannels == 0 {
      SlotEmpty(format.numSamples, format.numChannels);
      SlotEmpty(0, format.bitsPerSample / 8);
    } else {
      assert format.numSamples * format.numChannels > 0;
    }
    err := parser.GetWAVPcmData(format, wav.data);
    if err != Ok {
      return None;
    }
    return Some(wav);
  }

  /** WAV_WriteToFile: the header, then the samples; the file is what the
      writer has delivered once it is finalized.  A header refused (not
      linear PCM) leaves the file empty; a depth refused leaves just the
      header, which PutWAVPcmData flushed before it looked at the depth. */
  method WriteToFile(isOpen: bool, wav: WavFile) returns (res: ApiResult, file: seq<byte>)
    requires Pcm32(wav.data)
    requires wav.data.Length0 == wav.format.numChannels && wav.data.Length1 == wav.format.numSamples
    requires SupportedDepth(wav.format.bitsPerSample) ==>
      0 < (wav.format.bitsPerSample / 8) * wav.format.numChannels <= BUFFER_SIZE
    ensures res == ApiOk || res == ApiNg
    ensures res == ApiOk <==> isOpen && wav.format.pcm && SupportedDepth(wav.format.bitsPerSample)
    ensures !isOpen || !wav.format.pcm ==> file == []
    ensures isOpen && wav.format.pcm && !SupportedDepth(wav.format.bitsPerSample) ==> file == HeaderBytes(wav.format)
    ensures res == ApiOk ==>
      file == HeaderBytes(wav.format) +
        Interleaved(Channels(wav.data), wav.format.numChannels, wav.format.numSamples,
                    wav.format.bitsPerSample, Slot(wav.format.numSamples, wav.format.numChannels))
  {
    hide Interleaved, HeaderBytes, Channels, Slot, Emitted, SampleBytes, Samples, Pcm32;
    if !isOpen {
      return ApiNg, [];
    }
    var writer := new Writer();
    var err := writer.PutWAVHeader(wav.format);
    if err != Ok {
      return ApiNg, writer.out;
    }
    err := writer.PutWAVPcmData(wav.format, wav.data);
    if err != Ok {
      return ApiNg, writer.out;
    }
    writer.Finalize();
    return ApiOk, writer.out;
  }
}
