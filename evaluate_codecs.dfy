/**
 * The measurement loop of evaluation/evaluate_codecs.py: the codec
 * configurations and their labels, the encode and decode steps with their
 * renaming hooks, one trial (encode, decode, check the round trip, record
 * three percentages, delete the temporary files), the run over every
 * configuration, category and file, and the means the summary reports.
 *
 * The external tools are oracles: what a tool wrote and how long it took
 * are given (ToolRun).  The file system is a map from paths to contents.
 * Times and ratios are reals; Python's floating point is not modelled.
 */
module EvaluateCodecs {
  import opened Bits

  /* ---------------------------------------------------------------- */
  /* Configurations and labels.                                        */
  /* ---------------------------------------------------------------- */

  /** The codec families the script wraps, one subclass of Codec each. */
  datatype Family = FLAC | WavPack | TTA | MonkeysAudio | MPEG4ALS | TAK | HALAC | NARU | LINNE | SRLA

  /** One benchmarked configuration: a family and its option string. */
  datatype Codec = Codec(family: Family, option: string)

  const HALAC_VERSION_STRING: string := "V.0.3.8"

  /** The first two characters of a family's labels. */
  function Head(f: Family): (char, char)
  {
    match f
    case FLAC => ('F', 'L')
    case WavPack => ('W', 'a')
    case TTA => ('T', 'T')
    case MonkeysAudio => ('M', 'o')
    case MPEG4ALS => ('M', 'P')
    case TAK => ('T', 'A')
    case HALAC => ('H', 'A')
    case NARU => ('N', 'A')
    case LINNE => ('L', 'I')
    case SRLA => ('S', 'R')
  }

  /** What get_label puts in front of the option string. */
  function LabelPrefix(f: Family): (r: string)
    requires f != TTA
    ensures |r| >= 2 && (r[0], r[1]) == Head(f)
  {
    match f
    case FLAC => "FLAC "
    case WavPack => "WavPack "
    case MonkeysAudio => "Monkey's Audio "
    case MPEG4ALS => "MPEG4-ALS "
    case TAK => "TAK "
    case HALAC => "HALAC " + HALAC_VERSION_STRING + " "
    case NARU => "NARU "
    case LINNE => "LINNE "
    case SRLA => "SRLA "
  }

  /** get_label: the family and the option, except TTA, whose label is
      the constant "TTA". */
  function Label(c: Codec): (r: string)
    ensures c.family == TTA ==> r == "TTA"
    ensures c.family != TTA ==> |r| >= |c.option| + 2 && r[|r| - |c.option|..] == c.option
  {
    if c.family == TTA then "TTA" else LabelPrefix(c.family) + c.option
  }

  /** The first two characters of a label name its family. */
  lemma LabelHead(c: Codec)
    ensures |Label(c)| >= 2 && (Label(c)[0], Label(c)[1]) == Head(c.family)
  {
  }

  /** Two configurations share a label exactly when they are the same
      configuration or both are TTA: every TTA option collapses onto the
      label "TTA", and results are keyed by label. */
  lemma LabelsCollide(a: Codec, b: Codec)
    ensures Label(a) == Label(b) <==> a == b || (a.family == TTA && b.family == TTA)
  {
    if Label(a) == Label(b) && !(a.family == TTA && b.family == TTA) {
      LabelHead(a);
      LabelHead(b);
      assert a.family == b.family;
      var p := LabelPrefix(a.family);
      assert a.option == (p + a.option)[|p|..] == (p + b.option)[|p|..] == b.option;
    }
  }

  /** The set of labels of a configuration list. */
  function Labels(codecs: seq<Codec>): (r: set<string>)
    ensures forall k | 0 <= k < |codecs| :: Label(codecs[k]) in r
  {
    set k | 0 <= k < |codecs| :: Label(codecs[k])
  }

  /** No later configuration of the list has the label of configuration i:
      its results are the ones the tables keep. */
  predicate LastOfLabel(codecs: seq<Codec>, i: nat)
  {
    forall k | i < k < |codecs| :: Label(codecs[k]) != Label(codecs[i])
  }

  /* ---------------------------------------------------------------- */
  /* Paths and renaming.                                                */
  /* ---------------------------------------------------------------- */

  const COMPRESS_TMP_FILENAME: string := "compressed.tmp"
  const DECOMPRESS_TMP_FILENAME: string := "decompressd.wav"

  /** Where the suffix of the last path component starts, as pathlib's
      suffix has it: at the component's last '.', when that is neither its
      first nor its last character. */
  function SuffixStart(p: string): (r: Option<nat>)
    ensures r.Some? ==> 0 < r.value < |p| - 1 && p[r.value] == '.' && p[r.value - 1] != '/'
    ensures r.Some? ==> forall k | r.value < k < |p| :: p[k] != '.' && p[k] != '/'
  {
    if |p| == 0 || p[|p| - 1] == '/' || p[|p| - 1] == '.' then None
    else DotBefore(p, |p| - 1)
  }

  /** The last '.' before position i of the component that ends at i,
      when it does not start the component. */
  function DotBefore(p: string, i: nat): (r: Option<nat>)
    requires i < |p|
    ensures r.Some? ==> 0 < r.value < i && p[r.value] == '.' && p[r.value - 1] != '/'
    ensures r.Some? ==> forall k | r.value < k < i :: p[k] != '.' && p[k] != '/'
    decreases i
  {
    if i == 0 || p[i - 1] == '/' then None
    else if p[i - 1] == '.' then (if i == 1 || p[i - 2] == '/' then None else Some(i - 1))
    else DotBefore(p, i - 1)
  }

  /** Path(p).with_suffix(s): the suffix replaced, or s appended when there
      is none. */
  function WithSuffix(p: string, s: string): (r: string)
    ensures |r| >= |s| && r[|r| - |s|..] == s
    ensures SuffixStart(p).None? ==> r == p + s
  {
    match SuffixStart(p)
    case None => p + s
    case Some(k) => p[..k] + s
  }

  /** The sibling of the temporary compressed file with the given suffix. */
  lemma CompressedSibling(s: string)
    ensures WithSuffix(COMPRESS_TMP_FILENAME, s) == "compressed" + s
  {
    var p := COMPRESS_TMP_FILENAME;
    assert DotBefore(p, 11) == Some(10);
    assert DotBefore(p, 12) == Some(10);
    assert DotBefore(p, 13) == Some(10);
    assert p[..10] == "compressed";
  }

  /** The file an encoder writes when asked for outPath: TAK and HALAC
      insist on their own extension. */
  function EncodeTarget(c: Codec, outPath: string): string
  {
    match c.family
    case TAK => WithSuffix(outPath, ".tak")
    case HALAC => WithSuffix(outPath, ".halac")
    case _ => outPath
  }

  /** The decoders that will only read a file with their own extension,
      so the script renames their input first. */
  predicate RenamesInput(c: Codec)
  {
    c.family == MonkeysAudio || c.family == TAK || c.family == HALAC
  }

  /** Where the input of a decoder is moved before it runs. */
  function DecodeSource(c: Codec, inPath: string): string
  {
    match c.family
    case MonkeysAudio => WithSuffix(inPath, ".ape")
    case TAK => WithSuffix(inPath, ".tak")
    case HALAC => WithSuffix(inPath, ".halac")
    case _ => inPath
  }

  /** Every path a trial creates. */
  function TempFiles(): set<string>
  {
    {COMPRESS_TMP_FILENAME, DECOMPRESS_TMP_FILENAME, "compressed.tak", "compressed.halac", "compressed.ape"}
  }

  /** The encoder's output and the decoder's input lie among the
      temporary files, and the renamed ones differ from both fixed names. */
  lemma TrialPaths(c: Codec)
    ensures EncodeTarget(c, COMPRESS_TMP_FILENAME) in TempFiles()
    ensures DecodeSource(c, COMPRESS_TMP_FILENAME) in TempFiles()
    ensures DecodeSource(c, COMPRESS_TMP_FILENAME) != DECOMPRESS_TMP_FILENAME
    ensures RenamesInput(c) <==> DecodeSource(c, COMPRESS_TMP_FILENAME) != COMPRESS_TMP_FILENAME
    ensures c.family == TAK || c.family == HALAC <==> EncodeTarget(c, COMPRESS_TMP_FILENAME) != COMPRESS_TMP_FILENAME
  {
    CompressedSibling(".tak");
    CompressedSibling(".halac");
    CompressedSibling(".ape");
    assert "compressed" + ".tak" == "compressed.tak";
    assert "compressed" + ".halac" == "compressed.halac";
    assert "compressed" + ".ape" == "compressed.ape";
  }

  /* ---------------------------------------------------------------- */
  /* The file system and the two codec steps.                           */
  /* ---------------------------------------------------------------- */

  /** files with path p set to the bytes a tool wrote, if it wrote any. */
  function Put(files: map<string, seq<byte>>, p: string, written: Option<seq<byte>>): map<string, seq<byte>>
  {
    if written.Some? then files[p := written.value] else files
  }

  /** files after os.replace(src, dst). */
  function Moved(files: map<string, seq<byte>>, src: string, dst: string): map<string, seq<byte>>
    requires src in files
  {
    (files - {src})[dst := files[src]]
  }

  /** The files the script sees, by path. */
  class FileSystem {
    var files: map<string, seq<byte>>

    constructor (files: map<string, seq<byte>>)
      ensures this.files == files
    {
      this.files := files;
    }

    /** An external tool writing its output file, or failing to. */
    method Write(p: string, written: Option<seq<byte>>)
      modifies this
      ensures files == Put(old(files), p, written)
    {
      if written.Some? {
        files := files[p := written.value];
      }
    }

    /** os.replace; false where it raises FileNotFoundError. */
    method Replace(src: string, dst: string) returns (ok: bool)
      modifies this
      ensures ok <==> src in old(files)
      ensures ok ==> files == Moved(old(files), src, dst)
      ensures !ok ==> files == old(files)
    {
      if src !in files {
        return false;
      }
      files := Moved(files, src, dst);
      return true;
    }

    /** os.remove of a file that exists. */
    method Remove(p: string)
      requires p in files
      modifies this
      ensures files == old(files) - {p}
    {
      files := files - {p};
    }
  }

  /** Codec.encode: the encoder writes its target, TAK and HALAC move it
      to outPath (post_encode), and the result is the time and the size of
      outPath; None where os.replace or os.path.getsize would raise. */
  method Encode(fs: FileSystem, c: Codec, outPath: string, time: real, written: Option<seq<byte>>)
    returns (r: Option<(real, nat)>)
    modifies fs
    ensures var t := EncodeTarget(c, outPath);
      t !in old(fs.files) && outPath !in old(fs.files) ==>
        (r.Some? <==> written.Some?) &&
        (r.Some? ==> r.value == (time, |written.value|) && fs.files == old(fs.files)[outPath := written.value])
    ensures var t := EncodeTarget(c, outPath);
      written.None? && t in old(fs.files) ==> r == Some((time, |old(fs.files)[t]|))
  {
    var t := EncodeTarget(c, outPath);
    fs.Write(t, written);
    if c.family == TAK || c.family == HALAC {
      var ok := fs.Replace(t, outPath);
      if !ok {
        return None;
      }
    }
    if outPath !in fs.files {
      return None;
    }
    return Some((time, |fs.files[outPath]|));
  }

  /** Codec.decode: Monkey's Audio, TAK and HALAC first move the input to
      their extension (None where that os.replace raises), then the
      decoder writes outPath, or does not. */
  method Decode(fs: FileSystem, c: Codec, inPath: string, outPath: string, time: real, written: Option<seq<byte>>)
    returns (r: Option<real>)
    modifies fs
    ensures r.Some? <==> !RenamesInput(c) || inPath in old(fs.files)
    ensures r.Some? ==> r.value == time
    ensures r.Some? ==>
      fs.files == Put(if RenamesInput(c) then Moved(old(fs.files), inPath, DecodeSource(c, inPath)) else old(fs.files),
                      outPath, written)
  {
    if RenamesInput(c) {
      var ok := fs.Replace(inPath, DecodeSource(c, inPath));
      if !ok {
        return None;
      }
    }
    fs.Write(outPath, written);
    return Some(time);
  }

  /* ---------------------------------------------------------------- */
  /* One trial.                                                         */
  /* ---------------------------------------------------------------- */

  /** A source file of the corpus: its path and, as scipy reads them, its
      number of frames and its sampling rate. */
  datatype SourceFile = SourceFile(path: string, frames: nat, rate: nat)

  /** What the external tools did in one trial: the encoder's time and the
      file it wrote (None: none), the decoder's time and the file it wrote.
      The script looks at no exit status. */
  datatype ToolRun = ToolRun(encodeTime: real, encoded: Option<seq<byte>>, decodeTime: real, decoded: Option<seq<byte>>)

  /** The three percentages recorded per file. */
  datatype Ratios = Ratios(encode: real, decode: real, compress: real)

  /** Why a run stops: a file the script expects is missing, the decoded
      file is missing or differs (the assert), or a baseline is zero. */
  datatype Abort = MissingFile | VerificationFailed | ZeroDivision

  datatype TrialOutcome = Recorded(ratios: Ratios) | Aborted(reason: Abort)

  /** _get_wavfile_length_sec: frames over rate. */
  function OriginalTime(src: SourceFile): (t: real)
    requires src.rate > 0
    ensures src.frames > 0 <==> t > 0.0
  {
    (src.frames as real) / (src.rate as real)
  }

  /** What a trial yields for a source with contents `original`, from a
      clean start: the encode must leave a file, the decoded file must
      equal the source, the baselines must be positive; then each ratio
      is its measurement as a percentage of its baseline. */
  function TrialOutcomeOf(original: seq<byte>, src: SourceFile, run: ToolRun): (r: TrialOutcome)
    ensures r.Recorded? <==>
      run.encoded.Some? && run.decoded == Some(original) && src.rate > 0 && src.frames > 0 && |original| > 0
    ensures run.encoded.None? ==> r == Aborted(MissingFile)
    ensures run.encoded.Some? && run.decoded != Some(original) ==> r == Aborted(VerificationFailed)
    ensures r.Recorded? ==>
      var t := OriginalTime(src);
      r.ratios.encode * t == 100.0 * run.encodeTime && r.ratios.decode * t == 100.0 * run.decodeTime &&
      r.ratios.compress * (|original| as real) == 100.0 * (|run.encoded.value| as real)
  {
    if run.encoded.None? then Aborted(MissingFile)
    else if run.decoded != Some(original) then Aborted(VerificationFailed)
    else if src.rate == 0 then Aborted(ZeroDivision)
    else
      var t := OriginalTime(src);
      if t == 0.0 || |original| == 0 then Aborted(ZeroDivision)
      else Recorded(Ratios(run.encodeTime * 100.0 / t, run.decodeTime * 100.0 / t,
                           (|run.encoded.value| as real) * 100.0 / (|original| as real)))
  }

  /** Removing a path that is not there changes nothing. */
  lemma RemoveAbsent(files: map<string, seq<byte>>, p: string)
    requires p !in files
    ensures files - {p} == files
  {
  }

  /** The files once a trial's encode and decode are done, from a clean
      start: the compressed file (moved to the decoder's extension where
      the decoder wants one) and the decoded file, if any. */
  function Decoded(files: map<string, seq<byte>>, c: Codec, x: seq<byte>, decoded: Option<seq<byte>>)
    : map<string, seq<byte>>
  {
    var e := files[COMPRESS_TMP_FILENAME := x];
    Put(if RenamesInput(c) then Moved(e, COMPRESS_TMP_FILENAME, DecodeSource(c, COMPRESS_TMP_FILENAME)) else e,
        DECOMPRESS_TMP_FILENAME, decoded)
  }

  /** Deleting the two temporary names and the decoder's renamed input
      gives back the files a trial started from. */
  lemma Restored(files: map<string, seq<byte>>, c: Codec, x: seq<byte>, decoded: Option<seq<byte>>)
    requires files.Keys !! TempFiles()
    ensures forall p | p in files :: p in Decoded(files, c, x, decoded) && Decoded(files, c, x, decoded)[p] == files[p]
    ensures Decoded(files, c, x, decoded) - {COMPRESS_TMP_FILENAME} - {DECOMPRESS_TMP_FILENAME}
            - {DecodeSource(c, COMPRESS_TMP_FILENAME)} == files
  {
    TrialPaths(c);
    var d := Decoded(files, c, x, decoded);
    var r := d - {COMPRESS_TMP_FILENAME} - {DECOMPRESS_TMP_FILENAME} - {DecodeSource(c, COMPRESS_TMP_FILENAME)};
    assert r.Keys == files.Keys;
  }

  /** One pass of the innermost loop of the script: encode to the
      temporary file, decode it, compare with the source, compute the
      ratios, delete the temporary files.  A recorded trial leaves the
      files as it found them. */
  method Trial(fs: FileSystem, c: Codec, src: SourceFile, run: ToolRun) returns (r: TrialOutcome)
    requires src.path in fs.files && fs.files.Keys !! TempFiles()
    modifies fs
    ensures r == TrialOutcomeOf(old(fs.files)[src.path], src, run)
    ensures r.Recorded? ==> fs.files == old(fs.files)
  {
    ghost var files0 := fs.files;
    TrialPaths(c);
    var enc := Encode(fs, c, COMPRESS_TMP_FILENAME, run.encodeTime, run.encoded);
    if enc.None? {
      return Aborted(MissingFile);
    }
    var (encodeTime, size) := enc.value;
    var sibling := DecodeSource(c, COMPRESS_TMP_FILENAME);
    var dec := Decode(fs, c, COMPRESS_TMP_FILENAME, DECOMPRESS_TMP_FILENAME, run.decodeTime, run.decoded);
    var decodeTime := dec.value;
    Restored(files0, c, run.encoded.value, run.decoded);
    assert fs.files == Decoded(files0, c, run.encoded.value, run.decoded);
    // filecmp.cmp on the source and the decoded file
    var check := false;
    if DECOMPRESS_TMP_FILENAME in fs.files {
      if fs.files[src.path] == fs.files[DECOMPRESS_TMP_FILENAME] {
        check := true;
      }
    }
    if !check {
      return Aborted(VerificationFailed);
    }
    if src.rate == 0 {
      return Aborted(ZeroDivision);
    }
    var originalTime := (src.frames as real) / (src.rate as real);
    var originalSize := |fs.files[src.path]|;
    if originalTime == 0.0 || originalSize == 0 {
      return Aborted(ZeroDivision);
    }
    r := Recorded(Ratios(encodeTime * 100.0 / originalTime, decodeTime * 100.0 / originalTime,
                         (size as real) * 100.0 / (originalSize as real)));
    Cleanup(fs, sibling);
  }

  /** The deletions at the end of a trial: each temporary name that
      exists, including the one the decode hook moved the compressed
      file to. */
  method Cleanup(fs: FileSystem, sibling: string)
    modifies fs
    ensures fs.files == old(fs.files) - {COMPRESS_TMP_FILENAME} - {DECOMPRESS_TMP_FILENAME} - {sibling}
  {
    ghost var f0 := fs.files;
    if COMPRESS_TMP_FILENAME in fs.files {
      fs.Remove(COMPRESS_TMP_FILENAME);
    } else {
      RemoveAbsent(f0, COMPRESS_TMP_FILENAME);
    }
    ghost var f1 := fs.files;
    if DECOMPRESS_TMP_FILENAME in fs.files {
      fs.Remove(DECOMPRESS_TMP_FILENAME);
    } else {
      RemoveAbsent(f1, DECOMPRESS_TMP_FILENAME);
    }
    ghost var f2 := fs.files;
    if sibling in fs.files {
      fs.Remove(sibling);
    } else {
      RemoveAbsent(f2, sibling);
    }
  }

  /** The deletions at the end of a trial as the script writes them: only
      the two fixed temporary names. */
  function AsWrittenCleanup(files: map<string, seq<byte>>): (r: map<string, seq<byte>>)
    ensures r.Keys == files.Keys - {COMPRESS_TMP_FILENAME, DECOMPRESS_TMP_FILENAME}
  {
    files - {COMPRESS_TMP_FILENAME, DECOMPRESS_TMP_FILENAME}
  }

  /** After a TAK trial the compressed file lives at compressed.tak, where
      the decode hook moved it, and the as-written deletions leave it there;
      it is also where the next TAK encoder writes, so a next encoder that
      writes nothing has the stale file accepted as its output (Encode). */
  lemma AsWrittenCleanupLeaks(files: map<string, seq<byte>>, opt: string, x: seq<byte>, y: seq<byte>)
    requires files.Keys !! TempFiles()
    ensures DecodeSource(Codec(TAK, opt), COMPRESS_TMP_FILENAME) == "compressed.tak"
    ensures EncodeTarget(Codec(TAK, opt), COMPRESS_TMP_FILENAME) == "compressed.tak"
    ensures var after := files[COMPRESS_TMP_FILENAME := x];
      var decoded := Moved(after, COMPRESS_TMP_FILENAME, "compressed.tak")[DECOMPRESS_TMP_FILENAME := y];
      AsWrittenCleanup(decoded) == files["compressed.tak" := x]
  {
    CompressedSibling(".tak");
    var after := files[COMPRESS_TMP_FILENAME := x];
    var decoded := Moved(after, COMPRESS_TMP_FILENAME, "compressed.tak")[DECOMPRESS_TMP_FILENAME := y];
    assert AsWrittenCleanup(decoded) == files["compressed.tak" := x];
  }

  /* ---------------------------------------------------------------- */
  /* The measurement loop.                                              */
  /* ---------------------------------------------------------------- */

  /** A category of the corpus, its files in the order they are visited
      (sorted by path). */
  datatype Category = Category(name: string, files: seq<SourceFile>)

  /** A run: the configurations, the categories, and what the tools do in
      trial (configuration i, category c, file j). */
  datatype Bench = Bench(codecs: seq<Codec>, cats: seq<Category>, measure: (nat, nat, nat) -> ToolRun)

  /** The path of file j of category c. */
  function PathAt(b: Bench, c: nat, j: nat): string
    requires c < |b.cats| && j < |b.cats[c].files|
  {
    b.cats[c].files[j].path
  }

  /** Every source file exists and no temporary file does. */
  predicate Ready(b: Bench, files: map<string, seq<byte>>)
  {
    files.Keys !! TempFiles() &&
    forall c, j | 0 <= c < |b.cats| && 0 <= j < |b.cats[c].files| :: PathAt(b, c, j) in files
  }

  /** A ready corpus has file j of category c, and no temporary file. */
  lemma SourceReady(b: Bench, files: map<string, seq<byte>>, c: nat, j: nat)
    requires Ready(b, files) && c < |b.cats| && j < |b.cats[c].files|
    ensures PathAt(b, c, j) in files && files.Keys !! TempFiles()
  {
  }

  /** Trial (i, c, j) run on the files the run started from; a source
      file that is missing stops the run like any other missing file. */
  function TrialAt(b: Bench, files: map<string, seq<byte>>, i: nat, c: nat, j: nat): TrialOutcome
    requires c < |b.cats| && j < |b.cats[c].files|
  {
    if PathAt(b, c, j) in files then TrialOutcomeOf(files[PathAt(b, c, j)], b.cats[c].files[j], b.measure(i, c, j))
    else Aborted(MissingFile)
  }

  /** The ratios trial (i, c, j) records, when it records any. */
  function RatiosAt(b: Bench, files: map<string, seq<byte>>, i: nat, c: nat, j: nat): Ratios
    requires c < |b.cats| && j < |b.cats[c].files|
  {
    match TrialAt(b, files, i, c, j)
    case Recorded(r) => r
    case Aborted(_) => Ratios(0.0, 0.0, 0.0)
  }

  /** The first n trials of configuration i in category c are recorded. */
  predicate RecordedUpTo(b: Bench, files: map<string, seq<byte>>, i: nat, c: nat, n: nat)
    requires c < |b.cats| && n <= |b.cats[c].files|
  {
    forall j | 0 <= j < n :: TrialAt(b, files, i, c, j).Recorded?
  }

  /** Every trial of configuration i is recorded. */
  predicate CodecRecorded(b: Bench, files: map<string, seq<byte>>, i: nat)
  {
    forall c | 0 <= c < |b.cats| :: RecordedUpTo(b, files, i, c, |b.cats[c].files|)
  }

  /** Every trial of the run is recorded. */
  predicate AllRecorded(b: Bench, files: map<string, seq<byte>>)
  {
    forall i | 0 <= i < |b.codecs| :: CodecRecorded(b, files, i)
  }

  /** The list categ_results keeps for configuration i and category c
      after its first n files: their ratios in file order. */
  function Column(b: Bench, files: map<string, seq<byte>>, i: nat, c: nat, n: nat): (r: seq<Ratios>)
    requires c < |b.cats| && n <= |b.cats[c].files|
    ensures |r| == n
  {
    if n == 0 then [] else Column(b, files, i, c, n - 1) + [RatiosAt(b, files, i, c, n - 1)]
  }

  /** Element j of a column is the ratios of trial (i, c, j). */
  lemma {:induction false} ColumnAt(b: Bench, files: map<string, seq<byte>>, i: nat, c: nat, n: nat, j: nat)
    requires c < |b.cats| && j < n <= |b.cats[c].files|
    ensures Column(b, files, i, c, n)[j] == RatiosAt(b, files, i, c, j)
  {
    if j < n - 1 {
      ColumnAt(b, files, i, c, n - 1, j);
    }
  }

  /** categ_results[label] after the first c categories of configuration i. */
  function CategoryTable(b: Bench, files: map<string, seq<byte>>, i: nat, c: nat): map<string, seq<Ratios>>
    requires c <= |b.cats|
  {
    if c == 0 then map[]
    else CategoryTable(b, files, i, c - 1)[b.cats[c - 1].name := Column(b, files, i, c - 1, |b.cats[c - 1].files|)]
  }

  /** results[label] after the first j files of category c, the earlier
      categories all done. */
  function FileTable(b: Bench, files: map<string, seq<byte>>, i: nat, c: nat, j: nat): map<string, Ratios>
    requires c <= |b.cats| && (c < |b.cats| ==> j <= |b.cats[c].files|) && (c == |b.cats| ==> j == 0)
    decreases c, j
  {
    if j > 0 then FileTable(b, files, i, c, j - 1)[PathAt(b, c, j - 1) := RatiosAt(b, files, i, c, j - 1)]
    else if c == 0 then map[]
    else FileTable(b, files, i, c - 1, |b.cats[c - 1].files|)
  }

  /** The tables the loop fills: per label, the ratios of each file by path
      (results) and the list of each category (categ_results). */
  datatype Tables = Tables(results: map<string, map<string, Ratios>>, categ: map<string, map<string, seq<Ratios>>>)

  /** After the first n configurations the tables are keyed by their
      labels, and each label holds what the last of them with that label
      recorded. */
  ghost predicate Kept(b: Bench, files: map<string, seq<byte>>, n: nat,
                       results: map<string, map<string, Ratios>>, categ: map<string, map<string, seq<Ratios>>>)
    requires n <= |b.codecs|
  {
    results.Keys == Labels(b.codecs[..n]) && categ.Keys == Labels(b.codecs[..n]) &&
    forall i | 0 <= i < n && LastOfLabel(b.codecs[..n], i) ::
      categ[Label(b.codecs[i])] == CategoryTable(b, files, i, |b.cats|) &&
      results[Label(b.codecs[i])] == FileTable(b, files, i, |b.cats|, 0)
  }

  /** Before the first configuration the tables are empty. */
  lemma KeptStart(b: Bench, files: map<string, seq<byte>>)
    ensures Kept(b, files, 0, map[], map[])
  {
    assert Labels(b.codecs[..0]) == {};
  }

  /** The labels of one more configuration. */
  lemma LabelsSnoc(codecs: seq<Codec>, n: nat)
    requires n < |codecs|
    ensures Labels(codecs[..n + 1]) == Labels(codecs[..n]) + {Label(codecs[n])}
  {
    hide Label;
    var cs := codecs[..n + 1];
    forall l | l in Labels(cs) ensures l in Labels(codecs[..n]) + {Label(codecs[n])} {
      var k :| 0 <= k < |cs| && l == Label(cs[k]);
      if k < n {
        assert cs[k] == codecs[..n][k];
      }
    }
    forall l | l in Labels(codecs[..n]) ensures l in Labels(cs) {
      var k :| 0 <= k < n && l == Label(codecs[..n][k]);
      assert cs[k] == codecs[..n][k];
    }
    assert Label(codecs[n]) == Label(cs[n]);
  }

  /** A configuration that is the last of its label among the first n + 1
      was already the last among the first n, and configuration n has
      another label. */
  lemma LastStep(codecs: seq<Codec>, n: nat, i: nat)
    requires i < n < |codecs| && LastOfLabel(codecs[..n + 1], i)
    ensures LastOfLabel(codecs[..n], i) && Label(codecs[i]) != Label(codecs[n])
  {
    hide Label;
    assert codecs[..n + 1][n] == codecs[n];
    assert codecs[..n + 1][i] == codecs[i];
    forall k | i < k < n ensures Label(codecs[..n][k]) != Label(codecs[..n][i]) {
      assert codecs[..n + 1][k] == codecs[..n][k];
    }
  }

  /** Storing configuration n's tables under its label keeps Kept: the
      configurations it overwrites are no longer the last of their label. */
  lemma KeptStep(b: Bench, files: map<string, seq<byte>>, n: nat,
                 results: map<string, map<string, Ratios>>, categ: map<string, map<string, seq<Ratios>>>,
                 fileRows: map<string, Ratios>, categRows: map<string, seq<Ratios>>)
    requires n < |b.codecs|
    requires Kept(b, files, n, results, categ)
    requires fileRows == FileTable(b, files, n, |b.cats|, 0) && categRows == CategoryTable(b, files, n, |b.cats|)
    ensures Kept(b, files, n + 1, results[Label(b.codecs[n]) := fileRows], categ[Label(b.codecs[n]) := categRows])
  {
    hide CategoryTable, FileTable, Column, TrialAt, RatiosAt, TrialOutcomeOf, Label, Labels, LastOfLabel;
    LabelsSnoc(b.codecs, n);
    var l := Label(b.codecs[n]);
    var results', categ' := results[l := fileRows], categ[l := categRows];
    forall i | 0 <= i < n + 1 && LastOfLabel(b.codecs[..n + 1], i)
      ensures categ'[Label(b.codecs[i])] == CategoryTable(b, files, i, |b.cats|)
      ensures results'[Label(b.codecs[i])] == FileTable(b, files, i, |b.cats|, 0)
    {
      if i < n {
        LastStep(b.codecs, n, i);
      }
    }
  }

  /** The files of category c under configuration i, in order, one trial
      each: the ratios are appended to the category's list and stored under
      each file's path in fileRows; the first trial that is not recorded
      ends the run (None). */
  method MeasureCategory(fs: FileSystem, b: Bench, i: nat, c: nat, fileRows: map<string, Ratios>)
    returns (r: Option<(map<string, Ratios>, seq<Ratios>)>)
    requires i < |b.codecs| && c < |b.cats| && Ready(b, fs.files)
    requires fileRows == FileTable(b, fs.files, i, c, 0)
    modifies fs
    ensures r.Some? <==> RecordedUpTo(b, old(fs.files), i, c, |b.cats[c].files|)
    ensures r.Some? ==> fs.files == old(fs.files)
    ensures r.Some? ==>
      r.value == (FileTable(b, old(fs.files), i, c, |b.cats[c].files|), Column(b, old(fs.files), i, c, |b.cats[c].files|))
  {
    hide TrialOutcomeOf, Ready, CategoryTable;
    ghost var files0 := fs.files;
    var rows := fileRows;
    var column: seq<Ratios> := [];
    var j := 0;
    while j < |b.cats[c].files|
      invariant j <= |b.cats[c].files| && fs.files == files0
      invariant RecordedUpTo(b, files0, i, c, j)
      invariant column == Column(b, files0, i, c, j)
      invariant rows == FileTable(b, files0, i, c, j)
    {
      var src := b.cats[c].files[j];
      SourceReady(b, files0, c, j);
      var outcome := Trial(fs, b.codecs[i], src, b.measure(i, c, j));
      assert outcome == TrialAt(b, files0, i, c, j);
      if outcome.Aborted? {
        assert !RecordedUpTo(b, files0, i, c, |b.cats[c].files|);
        return None;
      }
      rows := rows[src.path := outcome.ratios];
      column := column + [outcome.ratios];
      j := j + 1;
    }
    return Some((rows, column));
  }

  /** The body of the __main__ loop for configuration i: every category
      in order, filling results[label] and categ_results[label]; the first
      trial that is not recorded ends the run (None). */
  method MeasureCodec(fs: FileSystem, b: Bench, i: nat) returns (r: Option<(map<string, Ratios>, map<string, seq<Ratios>>)>)
    requires i < |b.codecs| && Ready(b, fs.files)
    modifies fs
    ensures r.Some? <==> CodecRecorded(b, old(fs.files), i)
    ensures r.Some? ==> fs.files == old(fs.files)
    ensures r.Some? ==> r.value == (FileTable(b, old(fs.files), i, |b.cats|, 0), CategoryTable(b, old(fs.files), i, |b.cats|))
  {
    hide TrialOutcomeOf, Ready, TrialAt, Column, RecordedUpTo;
    ghost var files0 := fs.files;
    var fileRows: map<string, Ratios> := map[];
    var categRows: map<string, seq<Ratios>> := map[];
    var c := 0;
    while c < |b.cats|
      invariant c <= |b.cats| && fs.files == files0
      invariant forall c' | 0 <= c' < c :: RecordedUpTo(b, files0, i, c', |b.cats[c'].files|)
      invariant categRows == CategoryTable(b, files0, i, c)
      invariant fileRows == FileTable(b, files0, i, c, 0)
    {
      var rows := MeasureCategory(fs, b, i, c, fileRows);
      if rows.None? {
        return None;
      }
      var column;
      fileRows, column := rows.value.0, rows.value.1;
      categRows := categRows[b.cats[c].name := column];
      c := c + 1;
    }
    return Some((fileRows, categRows));
  }

  /** The __main__ loop: every configuration, every category, every file
      in order, one trial each; the first trial that is not recorded ends
      the run.  Otherwise the files are as before, and for each label the
      tables hold what the last configuration with that label recorded. */
  method Run(fs: FileSystem, b: Bench) returns (r: Option<Tables>)
    requires Ready(b, fs.files)
    modifies fs
    ensures r.Some? <==> AllRecorded(b, old(fs.files))
    ensures r.Some? ==> fs.files == old(fs.files)
    ensures r.Some? ==> r.value.results.Keys == Labels(b.codecs) && r.value.categ.Keys == Labels(b.codecs)
    ensures r.Some? ==> forall i | 0 <= i < |b.codecs| && LastOfLabel(b.codecs, i) ::
      r.value.categ[Label(b.codecs[i])] == CategoryTable(b, old(fs.files), i, |b.cats|) &&
      r.value.results[Label(b.codecs[i])] == FileTable(b, old(fs.files), i, |b.cats|, 0)
  {
    hide TrialOutcomeOf, Label, Labels, LastOfLabel, Ready, CategoryTable, FileTable, CodecRecorded;
    ghost var files0 := fs.files;
    var results: map<string, map<string, Ratios>> := map[];
    var categ: map<string, map<string, seq<Ratios>>> := map[];
    KeptStart(b, files0);
    var i := 0;
    while i < |b.codecs|
      invariant i <= |b.codecs| && fs.files == files0 && Ready(b, fs.files)
      invariant forall i' | 0 <= i' < i :: CodecRecorded(b, files0, i')
      invariant Kept(b, files0, i, results, categ)
    {
      var rows := MeasureCodec(fs, b, i);
      if rows.None? {
        return None;
      }
      var (fileRows, categRows) := rows.value;
      KeptStep(b, files0, i, results, categ, fileRows, categRows);
      results := results[Label(b.codecs[i]) := fileRows];
      categ := categ[Label(b.codecs[i]) := categRows];
      i := i + 1;
    }
    assert b.codecs[..i] == b.codecs;
    return Some(Tables(results, categ));
  }

  /* ---------------------------------------------------------------- */
  /* What the tables hold.                                              */
  /* ---------------------------------------------------------------- */

  /** No two categories share a name (they are the keys of a dict). */
  predicate DistinctNames(b: Bench)
  {
    forall c, c' | 0 <= c < c' < |b.cats| :: b.cats[c].name != b.cats[c'].name
  }

  /** No path is visited twice in a run. */
  predicate DistinctPaths(b: Bench)
  {
    forall c, j, c', j' | 0 <= c < |b.cats| && 0 <= j < |b.cats[c].files| && 0 <= c' < |b.cats| && 0 <= j' < |b.cats[c'].files| ::
      (c, j) != (c', j') ==> PathAt(b, c, j) != PathAt(b, c', j')
  }

  /** With distinct category names, categ_results[label] after the first n
      categories holds exactly their names. */
  lemma {:induction false} CategoryTableKeys(b: Bench, files: map<string, seq<byte>>, i: nat, n: nat)
    requires n <= |b.cats|
    ensures CategoryTable(b, files, i, n).Keys == set c | 0 <= c < n :: b.cats[c].name
  {
    hide Column;
    if n > 0 {
      CategoryTableKeys(b, files, i, n - 1);
      var prev := set c | 0 <= c < n - 1 :: b.cats[c].name;
      assert (set c | 0 <= c < n :: b.cats[c].name) == prev + {b.cats[n - 1].name};
    }
  }

  /** With distinct category names, categ_results[label] maps each of the
      first n categories to its list of ratios, in file order. */
  lemma {:induction false} CategoryTableAt(b: Bench, files: map<string, seq<byte>>, i: nat, n: nat, c: nat)
    requires n <= |b.cats| && DistinctNames(b) && c < n
    ensures b.cats[c].name in CategoryTable(b, files, i, n)
    ensures CategoryTable(b, files, i, n)[b.cats[c].name] == Column(b, files, i, c, |b.cats[c].files|)
  {
    hide Column;
    if c < n - 1 {
      CategoryTableAt(b, files, i, n - 1, c);
    }
  }

  /** results[label] maps the path of every file visited before (c', j')
      to the ratios of its trial, when no path is visited twice. */
  lemma {:induction false} FileTableAt(b: Bench, files: map<string, seq<byte>>, i: nat, c': nat, j': nat, c: nat, j: nat)
    requires c' <= |b.cats| && (c' < |b.cats| ==> j' <= |b.cats[c'].files|) && (c' == |b.cats| ==> j' == 0)
    requires DistinctPaths(b) && c < |b.cats| && j < |b.cats[c].files| && (c < c' || (c == c' && j < j'))
    ensures PathAt(b, c, j) in FileTable(b, files, i, c', j')
    ensures FileTable(b, files, i, c', j')[PathAt(b, c, j)] == RatiosAt(b, files, i, c, j)
    decreases c', j'
  {
    if j' > 0 {
      if (c, j) != (c', j' - 1) {
        FileTableAt(b, files, i, c', j' - 1, c, j);
      }
    } else {
      FileTableAt(b, files, i, c' - 1, |b.cats[c' - 1].files|, c, j);
    }
  }

  /** When every trial of configuration i is recorded, in a corpus without
      repeated paths or category names, the tables of i hold, under the
      file's path and at the file's place in its category's list, the
      ratios that file's trial recorded. */
  lemma TablesHold(b: Bench, files: map<string, seq<byte>>, i: nat, c: nat, j: nat)
    requires CodecRecorded(b, files, i) && DistinctPaths(b) && DistinctNames(b)
    requires c < |b.cats| && j < |b.cats[c].files|
    ensures TrialAt(b, files, i, c, j).Recorded?
    ensures var results := FileTable(b, files, i, |b.cats|, 0);
      PathAt(b, c, j) in results && results[PathAt(b, c, j)] == TrialAt(b, files, i, c, j).ratios
    ensures var categ := CategoryTable(b, files, i, |b.cats|);
      b.cats[c].name in categ && |categ[b.cats[c].name]| == |b.cats[c].files| &&
      categ[b.cats[c].name][j] == TrialAt(b, files, i, c, j).ratios
  {
    assert RecordedUpTo(b, files, i, c, |b.cats[c].files|);
    FileTableAt(b, files, i, |b.cats|, 0, c, j);
    CategoryTableAt(b, files, i, |b.cats|, c);
    ColumnAt(b, files, i, c, |b.cats[c].files|, j);
  }

  /* ---------------------------------------------------------------- */
  /* Means.                                                             */
  /* ---------------------------------------------------------------- */

  /** The three measured quantities. */
  datatype Quantity = EncodeTime | DecodeTime | CompressRate

  function Get(r: Ratios, q: Quantity): real
  {
    match q
    case EncodeTime => r.encode
    case DecodeTime => r.decode
    case CompressRate => r.compress
  }

  /** One quantity of each element of a list. */
  function Project(rs: seq<Ratios>, q: Quantity): (r: seq<real>)
    ensures |r| == |rs| && forall k | 0 <= k < |rs| :: r[k] == Get(rs[k], q)
  {
    seq(|rs|, k requires 0 <= k < |rs| => Get(rs[k], q))
  }

  function Sum(xs: seq<real>): real
  {
    if |xs| == 0 then 0.0 else Sum(xs[..|xs| - 1]) + xs[|xs| - 1]
  }

  lemma SumNil()
    ensures Sum([]) == 0.0
  {
  }

  /** The sum of a concatenation. */
  lemma {:induction false} SumConcat(a: seq<real>, b: seq<real>)
    ensures Sum(a + b) == Sum(a) + Sum(b)
    decreases |b|
  {
    if |b| > 0 {
      assert (a + b)[..|a + b| - 1] == a + b[..|b| - 1];
      SumConcat(a, b[..|b| - 1]);
    } else {
      assert a + b == a;
    }
  }

  /** np.mean of a list: its sum over its length; nothing (NaN) for an
      empty list. */
  function Mean(xs: seq<real>): (m: Option<real>)
    ensures m.None? <==> |xs| == 0
    ensures m.Some? ==> m.value * (|xs| as real) == Sum(xs)
  {
    if |xs| == 0 then None else Some(Sum(xs) / (|xs| as real))
  }

  /** The mean of each quantity of a list of ratios. */
  function MeanRatios(rs: seq<Ratios>): (m: Option<Ratios>)
    ensures m.None? <==> |rs| == 0
    ensures m.Some? ==> forall q :: Get(m.value, q) == Mean(Project(rs, q)).value
  {
    if |rs| == 0 then None
    else Some(Ratios(Mean(Project(rs, EncodeTime)).value, Mean(Project(rs, DecodeTime)).value,
                     Mean(Project(rs, CompressRate)).value))
  }

  /** The lists of the named categories, one after the other. */
  function Pooled(table: map<string, seq<Ratios>>, names: seq<string>): seq<Ratios>
    requires forall k | 0 <= k < |names| :: names[k] in table
  {
    if |names| == 0 then [] else Pooled(table, names[..|names| - 1]) + table[names[|names| - 1]]
  }

  /** The mean of two lists together weighs each list by its length: the
      pooled mean counts files, not categories. */
  lemma MeanOfConcat(a: seq<real>, b: seq<real>)
    requires |a| > 0 && |b| > 0
    ensures Mean(a + b).value * ((|a| + |b|) as real) ==
            Mean(a).value * (|a| as real) + Mean(b).value * (|b| as real)
  {
    SumConcat(a, b);
  }

  /** The number of files over the named categories. */
  function FileCount(table: map<string, seq<Ratios>>, names: seq<string>): nat
    requires forall k | 0 <= k < |names| :: names[k] in table
  {
    if |names| == 0 then 0 else FileCount(table, names[..|names| - 1]) + |table[names[|names| - 1]]|
  }

  /** Each named category's mean weighted by its number of files, summed. */
  function WeightedMeans(table: map<string, seq<Ratios>>, names: seq<string>, q: Quantity): real
    requires forall k | 0 <= k < |names| :: names[k] in table
  {
    if |names| == 0 then 0.0
    else
      var rs := table[names[|names| - 1]];
      WeightedMeans(table, names[..|names| - 1], q) + (if |rs| == 0 then 0.0 else Mean(Project(rs, q)).value * (|rs| as real))
  }

  /** The pooled total is the file-weighted mean of the category means:
      the pooled list holds every file once, and its sum is each category's
      mean times that category's number of files, summed. */
  lemma {:induction false} PooledWeighted(table: map<string, seq<Ratios>>, names: seq<string>, q: Quantity)
    requires forall k | 0 <= k < |names| :: names[k] in table
    ensures |Pooled(table, names)| == FileCount(table, names)
    ensures Sum(Project(Pooled(table, names), q)) == WeightedMeans(table, names, q)
  {
    hide Mean, Sum, Project;
    if |names| > 0 {
      var front, rs := Pooled(table, names[..|names| - 1]), table[names[|names| - 1]];
      PooledWeighted(table, names[..|names| - 1], q);
      assert Project(front + rs, q) == Project(front, q) + Project(rs, q);
      SumConcat(Project(front, q), Project(rs, q));
      if |rs| == 0 {
        assert Project(rs, q) == [];
        SumNil();
      }
    } else {
      assert Project(Pooled(table, names), q) == [];
      SumNil();
    }
  }

  /** Pooling weights every file once: compression ratios [10, 20] in one
      category and [30] in another pool to a mean of 20, while the mean of
      the two category means would be 22.5. */
  lemma FileWeightedExample()
    ensures var table := map["A" := [Ratios(0.0, 0.0, 10.0), Ratios(0.0, 0.0, 20.0)], "B" := [Ratios(0.0, 0.0, 30.0)]];
      MeanRatios(Pooled(table, ["A", "B"])).value.compress == 20.0 &&
      (MeanRatios(table["A"]).value.compress + MeanRatios(table["B"]).value.compress) / 2.0 == 22.5
  {
    var a := [Ratios(0.0, 0.0, 10.0), Ratios(0.0, 0.0, 20.0)];
    var b := [Ratios(0.0, 0.0, 30.0)];
    var table := map["A" := a, "B" := b];
    var names := ["A", "B"];
    assert names[..1] == ["A"] && names[..1][..0] == [];
    assert Pooled(table, names[..1][..0]) == [];
    assert Pooled(table, names[..1]) == a;
    var pooled := Pooled(table, names);
    assert pooled == a + b;
    var xs := Project(pooled, CompressRate);
    assert xs == [10.0, 20.0, 30.0];
    assert xs[..2] == [10.0, 20.0] && xs[..2][..1] == [10.0] && xs[..2][..1][..0] == [];
    assert Sum(xs[..2][..1]) == 10.0;
    assert Sum(xs[..2]) == 30.0;
    assert Sum(xs) == 60.0;
    var ys := Project(a, CompressRate);
    assert ys == xs[..2];
    var zs := Project(b, CompressRate);
    assert zs == [30.0] && zs[..0] == [];
  }

  /** What the summary reports for one configuration: the mean of each
      category, and the total over the pooled per-file lists. */
  datatype Summary = Summary(categoryMeans: seq<Option<Ratios>>, total: Option<Ratios>)

  /** total_result for one configuration: its category lists extended one
      after the other, then averaged. */
  method TotalMean(table: map<string, seq<Ratios>>, names: seq<string>) returns (m: Option<Ratios>)
    requires forall k | 0 <= k < |names| :: names[k] in table
    ensures m == MeanRatios(Pooled(table, names))
  {
    var pooled: seq<Ratios> := [];
    for k := 0 to |names|
      invariant pooled == Pooled(table, names[..k])
    {
      assert names[..k + 1][..k] == names[..k];
      pooled := pooled + table[names[k]];
    }
    assert names[..|names|] == names;
    m := MeanRatios(pooled);
  }

  /** s summarizes a table over the named categories: the mean of each
      category's list, and the mean of all of their lists pooled. */
  predicate Summarizes(s: Summary, table: map<string, seq<Ratios>>, names: seq<string>)
    requires forall k | 0 <= k < |names| :: names[k] in table
  {
    |s.categoryMeans| == |names| &&
    (forall k | 0 <= k < |names| :: s.categoryMeans[k] == MeanRatios(table[names[k]])) &&
    s.total == MeanRatios(Pooled(table, names))
  }

  /** The summary of one configuration's table. */
  method Summarize(table: map<string, seq<Ratios>>, names: seq<string>) returns (s: Summary)
    requires forall k | 0 <= k < |names| :: names[k] in table
    ensures Summarizes(s, table, names)
  {
    var means: seq<Option<Ratios>> := [];
    for k := 0 to |names|
      invariant |means| == k && forall k' | 0 <= k' < k :: means[k'] == MeanRatios(table[names[k']])
    {
      means := means + [MeanRatios(table[names[k]])];
    }
    var total := TotalMean(table, names);
    s := Summary(means, total);
  }

  /** The summary of every configuration, in order. */
  method Aggregate(categ: map<string, map<string, seq<Ratios>>>, codecs: seq<Codec>, names: seq<string>)
    returns (s: seq<Summary>)
    requires forall i | 0 <= i < |codecs| :: Label(codecs[i]) in categ
    requires forall i, k | 0 <= i < |codecs| && 0 <= k < |names| :: names[k] in categ[Label(codecs[i])]
    ensures |s| == |codecs|
    ensures forall i | 0 <= i < |codecs| :: Summarizes(s[i], categ[Label(codecs[i])], names)
  {
    hide Summarizes, Label;
    s := [];
    for i := 0 to |codecs|
      invariant |s| == i
      invariant forall i' | 0 <= i' < i :: Summarizes(s[i'], categ[Label(codecs[i'])], names)
    {
      var one := Summarize(categ[Label(codecs[i])], names);
      s := s + [one];
    }
  }
}
