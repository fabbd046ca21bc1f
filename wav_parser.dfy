/**
 * WAVParser of libs/wav/src/wav.c: a bit reader over a FILE* through a
 * 128 KiB buffer, and the readers of the RIFF header and the PCM samples
 * built on it.  The file is the byte sequence `file`, its read position
 * `filePos`; fread and fseek are the two methods Fill and Seek.
 *
 * The buffer also records how many bytes the last fread delivered
 * (`numLoaded`).  The source keeps no such count: it refills only when the
 * whole 128 KiB have been consumed and rewinds by a whole buffer on a
 * seek, which misbehaves on a short read (see AsWrittenRefill and
 * AsWrittenSeekTarget).  The model refills and rewinds by the count.
 */
module WavParser {
  import opened Bits
  import opened BitRegisters
  import opened WavFormat

  function Min(a: int, b: int): int
  {
    if a < b then a else b
  }

  /** Bits 8 - hi up to 8 - lo of byte i of m, counted from its top bit,
      are (m[i] >> lo) masked to hi - lo bits. */
  lemma ByteBits(m: seq<byte>, s: seq<bool>, i: nat, hi: nat, lo: nat)
    requires s == BytesToBits(m) && i < |m| && lo <= hi <= 8
    ensures |s| == 8 * |m|
    ensures BitsToNat(s[8 * i + 8 - hi .. 8 * i + 8 - lo]) == Low(Shr(m[i], lo), hi - lo)
  {
    hide NatToBits, BytesToBits, Low, Shr, BitsToNat;
    ByteInStream(m, s, i, 8);
    var b := m[i];
    Split(b, 8 - lo, lo, 8);
    Split(Shr(b, lo), 8 - hi, hi - lo, 8 - lo);
    var x := NatToBits(Shr(Shr(b, lo), hi - lo), 8 - hi);
    var y := NatToBits(Shr(b, lo), hi - lo);
    var z := NatToBits(b, lo);
    assert s[8 * i .. 8 * i + 8] == x + y + z;
    assert s[8 * i + 8 - hi .. 8 * i + 8 - lo] == (x + y + z)[|x| .. |x| + |y|];
    MiddleSlice(x, y, z);
    BitsToNatLow(Shr(b, lo), hi - lo);
  }

  /** Reading c more bits: the value so far, shifted over what is still to
      come, plus the new bits in their place. */
  lemma TakeMore(s: seq<bool>, p0: nat, p: nat, c: nat, piece: nat, nb: nat, nb': nat)
    requires p0 <= p && p + c <= |s| && piece == BitsToNat(s[p..p + c]) && nb == nb' + c
    ensures Shl(BitsToNat(s[p0..p]), nb) + Shl(piece, nb') == Shl(BitsToNat(s[p0..p + c]), nb')
  {
    hide BitsToNat, Shl, NatToBits;
    ShlShl(BitsToNat(s[p0..p]), c, nb', nb);
    ShlAdd(Shl(BitsToNat(s[p0..p]), c), piece, nb');
    assert s[p0..p + c] == s[p0..p] + s[p..p + c];
    BitsToNatConcat(s[p0..p], s[p..p + c]);
  }

  /** Reading the c bits left of byte i after the bits from p0 on. */
  lemma RestOfByte(m: seq<byte>, i: nat, p0: nat, c: nat, tmp: nat, nb: nat)
    requires i < |m| && c <= 8 && c <= nb && p0 <= 8 * i + 8 - c
    requires tmp == Shl(BitsToNat(BytesToBits(m)[p0 .. 8 * i + 8 - c]), nb)
    ensures tmp + Shl(Low(m[i], c), nb - c) == Shl(BitsToNat(BytesToBits(m)[p0 .. 8 * i + 8]), nb - c)
  {
    hide BytesToBits, BitsToNat, Low, Shr, Shl, NatToBits;
    var s := BytesToBits(m);
    ByteBits(m, s, i, c, 0);
    NoShift(m[i]);
    TakeMore(s, p0, 8 * i + 8 - c, c, Low(m[i], c), nb, nb - c);
  }

  /** Reading the last nb bits of a read from the bitCount bits left of
      byte i completes the value of the bits from p0 on. */
  lemma LastOfByte(m: seq<byte>, i: nat, p0: nat, bitCount: nat, tmp: nat, nb: nat)
    requires i < |m| && nb <= bitCount <= 8 && p0 <= 8 * i + 8 - bitCount
    requires tmp == Shl(BitsToNat(BytesToBits(m)[p0 .. 8 * i + 8 - bitCount]), nb)
    ensures tmp + Low(Shr(m[i], bitCount - nb), nb) ==
      BitsToNat(BytesToBits(m)[p0 .. 8 * i + 8 - bitCount + nb])
  {
    hide BytesToBits, BitsToNat, Low, Shr, Shl, NatToBits;
    var s := BytesToBits(m);
    var p := 8 * i + 8 - bitCount;
    var piece := Low(Shr(m[i], bitCount - nb), nb);
    ByteBits(m, s, i, bitCount, bitCount - nb);
    TakeMore(s, p0, p, nb, piece, nb, 0);
    NoShift(piece);
    NoShift(BitsToNat(s[p0..p + nb]));
  }

  /** The eight bits of byte j are its value. */
  lemma OneByte(m: seq<byte>, j: nat)
    requires j < |m|
    ensures BitsToNat(BytesToBits(m)[8 * j .. 8 * j + 8]) == m[j]
  {
    AlignedBits(m, j, 1);
    assert m[j..j + 1] == [m[j]];
    assert FromBE([m[j]]) == m[j] by {
      assert [m[j]][..0] == [];
    }
  }

  /** Byte-aligned bits are the big-endian value of the bytes. */
  lemma AlignedBits(m: seq<byte>, q: nat, k: nat)
    requires q + k <= |m|
    ensures BitsToNat(BytesToBits(m)[8 * q .. 8 * (q + k)]) == FromBE(m[q..q + k])
  {
    hide BytesToBits, BE, FromBE, NatToBits, BitsToNat, Pow2;
    var s := m[q..q + k];
    var v := FromBE(s);
    BitsOfRange(m, q, q + k);
    BEOfFromBE(s);
    BEBits(v, k);
    assert BytesToBits(s) == NatToBits(v, 8 * k);
    BitsToNatOfNatToBits(v, 8 * k);
    DivModUnique(v, Pow2(8 * k), 0, v);
  }

  /** One step of ChunkScan. */
  lemma ChunkScanUnfold(d: seq<byte>, pos: nat)
    ensures ChunkScan(d, pos) ==
      if pos + 4 > |d| then Failure(Io)
      else if d[pos..pos + 4] == DATA then Success(pos + 4)
      else if pos + 8 > |d| then Failure(Io)
      else ChunkScan(d, pos + 8 + FromLE(d[pos + 4 .. pos + 8]))
  {
  }

  lemma SampleHere(d: seq<byte>, at: nat, bps: nat, v: nat)
    requires SupportedDepth(bps) && at + bps / 8 <= |d| && v == Field(d, at, bps / 8)
    ensures v < Pow2(bps) && SampleIn(d, at, bps) == ReadSample(bps, v)
  {
    assert 8 * (bps / 8) == bps;
  }

  /** Where the corrected WAVParser_Seek sends the file: back over the
      part of the buffer not yet read, which is numLoaded - (bytePos + 1)
      bytes, then offset further. */
  function SeekTarget(filePos: nat, numLoaded: nat, bytePos: int, offset: int): int
  {
    if bytePos != -1 then filePos - (numLoaded - (bytePos + 1)) + offset else filePos + offset
  }

  /** Where WAVParser_Seek as written sends the file: it assumes the last
      fread filled the whole buffer and rewinds by BUFFER_SIZE - (bytePos + 1)
      whatever was loaded. */
  function AsWrittenSeekTarget(filePos: nat, bytePos: int, offset: int): (r: int)
    ensures bytePos != -1 ==> r == filePos - (BUFFER_SIZE - (bytePos + 1)) + offset
    ensures bytePos == -1 ==> r == filePos + offset
  {
    SeekTarget(filePos, BUFFER_SIZE, bytePos, offset)
  }

  /** After a short fread the two rewinds differ by the bytes the buffer did
      not get: in a 100-byte file, with bytes 0 to 35 read, a skip of 2 is
      meant to land on byte 38, but the as-written target lies before the
      start of the file, so fseek fails and the file stays at its end. */
  lemma AsWrittenSeekShortRead(filePos: nat, numLoaded: nat, bytePos: int, offset: int)
    requires 0 <= bytePos < numLoaded <= BUFFER_SIZE
    ensures AsWrittenSeekTarget(filePos, bytePos, offset) ==
      SeekTarget(filePos, numLoaded, bytePos, offset) - (BUFFER_SIZE - numLoaded)
    ensures SeekTarget(100, 100, 35, 2) == 38 && AsWrittenSeekTarget(100, 35, 2) < 0
  {
  }

  /** Byte k of a file of at most BUFFER_SIZE bytes as the as-written
      WAVParser_GetBits hands it out when reading from the start: it
      refills only once all BUFFER_SIZE bytes of the buffer are used, so
      past the end of the file it hands out the zeros WAVParser_Initialize
      left in the buffer instead of reporting Io. */
  function AsWrittenRefill(file: seq<byte>, k: nat): (r: Outcome<byte>)
    requires |file| <= BUFFER_SIZE && k < BUFFER_SIZE
    ensures r.Failure? <==> |file| == 0
    ensures k < |file| ==> r == Success(file[k])
  {
    if |file| == 0 then Failure(Io)
    else if k < |file| then Success(file[k])
    else Success(0)
  }

  /** Reading one byte past the end of a 100-byte file: the as-written
      reader succeeds with a byte the file does not have, while the
      corrected Parser.GetBits fails with Io exactly when the bits asked
      for go past the end of the file. */
  lemma AsWrittenRefillPastEnd(file: seq<byte>)
    requires |file| == 100
    ensures AsWrittenRefill(file, 100) == Success(0)
  {
  }

  class Parser {
    /** The contents of the file being read. */
    const file: seq<byte>
    /** The FILE*'s position. */
    var filePos: nat
    /** buffer.bytes */
    const bytes: array<byte>
    /** How many bytes the last fread put in the buffer. */
    var numLoaded: nat
    /** buffer.byte_pos: the byte being read, -1 when nothing is loaded. */
    var bytePos: int
    /** buffer.bit_count: the bits of that byte not yet read. */
    var bitCount: nat

    /** The loaded part of the buffer is the stretch of the file just
        before the file position, and the byte being read lies in it. */
    ghost predicate Valid()
      reads this, bytes
    {
      bytes.Length == BUFFER_SIZE && numLoaded <= BUFFER_SIZE && bitCount <= 8 && -1 <= bytePos &&
      (bytePos >= 0 ==>
        bytePos < numLoaded <= filePos <= |file| &&
        forall j :: 0 <= j < numLoaded ==> bytes[j] == file[filePos - numLoaded + j])
    }

    /** The bits of the file. */
    ghost function Stream(): seq<bool>
    {
      BytesToBits(file)
    }

    /** The bit position of the next bit the parser hands out. */
    ghost function Pos(): int
      reads this
    {
      if bytePos < 0 then 8 * filePos else 8 * (filePos - numLoaded + bytePos) + 8 - bitCount
    }

    /** The parser stands between bytes: nothing loaded, or the current
        byte used up. */
    ghost predicate Aligned()
      reads this
    {
      bytePos < 0 || bitCount == 0
    }

    /** The index of the next byte, when the parser stands between bytes. */
    ghost function Offset(): int
      reads this
    {
      if bytePos < 0 then filePos else filePos - numLoaded + bytePos + 1
    }

    /** WAVParser_Initialize on a freshly opened file. */
    constructor (file: seq<byte>)
      ensures this.file == file && Valid() && Pos() == 0 && Aligned()
      ensures fresh(bytes)
    {
      this.file := file;
      filePos := 0;
      bytes := new byte[BUFFER_SIZE](_ => 0);
      numLoaded := 0;
      bytePos := -1;
      bitCount := 0;
    }

    /** fread of a whole buffer: copies what is left of the file, up to
        BUFFER_SIZE bytes, and moves the file position past it. */
    method Fill() returns (k: nat)
      requires bytes.Length == BUFFER_SIZE
      modifies this, bytes
      ensures k == (if old(filePos) < |file| then Min(BUFFER_SIZE, |file| - old(filePos)) else 0)
      ensures filePos == old(filePos) + k && numLoaded == k
      ensures forall j :: 0 <= j < k ==> bytes[j] == file[old(filePos) + j]
      ensures bytePos == old(bytePos) && bitCount == old(bitCount)
    {
      k := if filePos < |file| then Min(BUFFER_SIZE, |file| - filePos) else 0;
      forall i | 0 <= i < k {
        bytes[i] := file[filePos + i];
      }
      filePos := filePos + k;
      numLoaded := k;
    }

    /** Steps to the next byte of the file, refilling the buffer when the
        loaded bytes are used up; false when the file has ended. */
    method NextByte() returns (more: bool)
      requires Valid() && bytePos >= 0
      modifies this, bytes
      ensures more ==> Valid() && bytePos >= 0 && bitCount == 8 && Pos() == old(Pos()) + old(bitCount)
      ensures !more ==> old(Pos()) + old(bitCount) >= 8 * |file|
    {
      bytePos := bytePos + 1;
      bitCount := 8;
      if bytePos == numLoaded {
        var k := Fill();
        if k == 0 {
          return false;
        }
        bytePos := 0;
      }
      return true;
    }


    /** One pass of the loop of WAVParser_GetBits: the bits left of the
        current byte go below the ones read so far, then the parser steps
        to the next byte. */
    method TakeRestOfByte(ghost p0: nat, tmp: nat, nb: nat) returns (more: bool, tmp': nat, nb': nat)
      requires Valid() && bytePos >= 0 && p0 <= Pos() && bitCount < nb
      requires tmp == Shl(BitsToNat(Stream()[p0 .. Pos()]), nb)
      modifies this, bytes
      ensures nb' == nb - old(bitCount)
      ensures more ==> Valid() && bytePos >= 0 && bitCount == 8 && Pos() == old(Pos()) + old(bitCount)
      ensures more ==> tmp' == Shl(BitsToNat(Stream()[p0 .. Pos()]), nb')
      ensures !more ==> old(Pos()) + old(bitCount) >= 8 * |file|
    {
      hide BitsToNat, Shl, Low, Shr, BytesToBits, NatToBits;
      var c := bitCount;
      RestOfByte(file, filePos - numLoaded + bytePos, p0, c, tmp, nb);
      nb' := nb - c;
      tmp' := tmp + Shl(Low(bytes[bytePos], c), nb');
      more := NextByte();
    }

    /** The loop of WAVParser_GetBits, once a buffer is loaded. */
    method ReadLoaded(n: nat) returns (err: WavError, v: nat)
      requires Valid() && bytePos >= 0
      modifies this, bytes
      ensures err == Ok || err == Io
      ensures err == Ok <==> old(Pos()) + n <= 8 * |file|
      ensures err == Ok ==> Valid() && 0 <= old(Pos()) && Pos() == old(Pos()) + n <= 8 * |file|
      ensures err == Ok ==> v == BitsToNat(Stream()[old(Pos()) .. Pos()])
      ensures err == Ok && (old(bitCount) == 0 || old(bitCount) == 8) && n % 8 == 0 && n > 0 ==> Aligned()
    {
      hide BitsToNat, Shl, Low, Shr, BytesToBits, NatToBits;
      ghost var p0 := Pos();
      ghost var aligned := (bitCount == 0 || bitCount == 8) && n % 8 == 0;
      assert Pos() == p0 && Stream()[p0..p0] == [];
      ZeroShifts(n);
      ghost var bytesLeft: nat := n / 8;
      assert n == 8 * bytesLeft + n % 8;
      var tmp: nat := 0;
      var nb: nat := n;
      while nb > bitCount
        invariant Valid() && 0 <= bytePos && p0 <= Pos() <= 8 * |file|
        invariant Pos() + nb == p0 + n
        invariant tmp == Shl(BitsToNat(Stream()[p0 .. Pos()]), nb)
        invariant n > 0 ==> nb > 0
        invariant aligned ==> nb == 8 * bytesLeft && (bitCount == 0 || bitCount == 8)
        decreases 9 * nb + 8 - bitCount
      {
        var c := bitCount;
        if c == 8 && bytesLeft > 0 {
          bytesLeft := bytesLeft - 1;
        }
        var more;
        more, tmp, nb := TakeRestOfByte(p0, tmp, nb);
        if !more {
          return Io, 0;
        }
      }
      v := TakeLastBits(p0, tmp, nb);
      return Ok, v;
    }

    /** The last nb bits of a GetBits call, all from the current byte. */
    method TakeLastBits(ghost p0: nat, tmp: nat, nb: nat) returns (v: nat)
      requires Valid() && bytePos >= 0 && p0 <= Pos() && nb <= bitCount
      requires tmp == Shl(BitsToNat(Stream()[p0 .. Pos()]), nb)
      modifies this
      ensures Valid() && bytePos == old(bytePos) && bitCount == old(bitCount) - nb
      ensures Pos() == old(Pos()) + nb <= 8 * |file|
      ensures v == BitsToNat(Stream()[p0 .. Pos()])
    {
      hide BitsToNat, Shl, Low, Shr, BytesToBits, NatToBits;
      LastOfByte(file, filePos - numLoaded + bytePos, p0, bitCount, tmp, nb);
      bitCount := bitCount - nb;
      v := tmp + Low(Shr(bytes[bytePos], bitCount), nb);
    }

    /** WAVParser_GetBits: the next n bits of the file, most significant
        first, right-aligned in v.  It fails with Io exactly when the file
        ends before them. */
    method GetBits(n: nat) returns (err: WavError, v: nat)
      requires Valid()
      modifies this, bytes
      ensures n > 64 ==> err == InvalidParameter && Valid() && Pos() == old(Pos())
      ensures 0 < n <= 64 ==> (err == Ok <==> old(Pos()) + n <= 8 * |file|)
      ensures n == 0 ==> (err == Ok <==> old(bytePos) >= 0 || old(filePos) < |file|)
      ensures n <= 64 && err != Ok ==> err == Io
      ensures err == Ok ==> Valid() && 0 <= old(Pos()) && Pos() == old(Pos()) + n <= 8 * |file|
      ensures err == Ok ==> v == BitsToNat(Stream()[old(Pos()) .. Pos()])
      ensures err == Ok && old(Aligned()) && n % 8 == 0 && n > 0 ==> Aligned()
    {
      hide BitsToNat, Shl, Low, Shr, BytesToBits, NatToBits;
      if n > 64 {
        return InvalidParameter, 0;
      }
      if bytePos == -1 {
        var k := Fill();
        if k == 0 {
          return Io, 0;
        }
        bytePos, bitCount := 0, 8;
      }
      err, v := ReadLoaded(n);
    }
  
    /** WAVParser_GetLittleEndianBytes: nbytes bytes (at most 8) read
        as a little-endian number. */
    method GetLittleEndianBytes(nbytes: nat) returns (err: WavError, v: nat)
      requires Valid() && Aligned()
      modifies this, bytes
      ensures err == Ok || err == Io
      ensures nbytes > 8 ==> err == Io
      ensures 0 < nbytes <= 8 ==> (err == Ok <==> old(Offset()) + nbytes <= |file|)
      ensures err == Ok ==> Valid()
      ensures err == Ok && nbytes > 0 ==>
        Aligned() && Offset() == old(Offset()) + nbytes <= |file| &&
        v == FromLE(file[old(Offset()) .. Offset()])
    {
      hide BitsToNat, BytesToBits, FromBE, FromLE, Reordered, BE, Pow2, NatToBits, Low, Shr, Shl;
      ghost var q := Offset();
      var e, tmp := GetBits(nbytes * 8);
      if e != Ok {
        return Io, 0;
      }
      v := ReorderBytes(nbytes, tmp);
      if nbytes > 0 {
        AlignedBits(file, q, nbytes);
        ReorderedFromBE(file[q .. q + nbytes]);
      }
      return Ok, v;
    }

    /** WAVParser_GetString: the next len bytes. */
    method GetString(len: nat) returns (err: WavError, s: seq<byte>)
      requires Valid() && Aligned()
      modifies this, bytes
      ensures err == Ok || err == Io
      ensures len > 0 ==> (err == Ok <==> old(Offset()) + len <= |file|)
      ensures err == Ok ==> Valid() && Aligned() && |s| == len
      ensures err == Ok && len > 0 ==> Offset() == old(Offset()) + len <= |file| && s == file[old(Offset()) .. Offset()]
    {
      hide BitsToNat, BytesToBits;
      ghost var q := Offset();
      s := [];
      var i := 0;
      while i < len
        invariant i <= len && Valid() && Aligned() && |s| == i && Offset() == q + i
        invariant i > 0 ==> q + i <= |file| && s == file[q .. q + i]
      {
        ghost var at := Offset();
        var e, b := GetBits(8);
        if e != Ok {
          return Io, s;
        }
        OneByte(file, at);
        s := s + [b];
        assert i > 0 ==> file[q .. q + i + 1] == file[q .. q + i] + [file[q + i]];
        i := i + 1;
      }
      return Ok, s;
    }

    /** WAVParser_CheckSignatureString: the next bytes are the signature;
        Io when the file ends first, InvalidFormat at the first byte that
        differs.  (The signatures are ASCII, so comparing as char is
        comparing the bytes.) */
    method CheckSignatureString(signature: seq<byte>) returns (err: WavError)
      requires Valid() && Aligned()
      modifies this, bytes
      ensures err == Ok || err == Io || err == InvalidFormat
      ensures |signature| > 0 ==> (err == Ok <==>
        old(Offset()) + |signature| <= |file| && file[old(Offset()) .. old(Offset()) + |signature|] == signature)
      ensures err == Ok ==> Valid() && Aligned()
      ensures err == Ok && |signature| > 0 ==> Offset() == old(Offset()) + |signature|
      ensures err == InvalidFormat ==>
        exists i :: 0 <= i < |signature| && old(Offset()) + i < |file| && file[old(Offset()) + i] != signature[i]
    {
      hide BitsToNat, BytesToBits;
      ghost var q := Offset();
      var i := 0;
      while i < |signature|
        invariant i <= |signature| && Valid() && Aligned() && Offset() == q + i
        invariant i > 0 ==> q + i <= |file| && file[q .. q + i] == signature[..i]
      {
        ghost var at := Offset();
        var e, b := GetBits(8);
        if e != Ok {
          return Io;
        }
        OneByte(file, at);
        if signature[i] != b {
          assert file[q + i] != signature[i];
          return InvalidFormat;
        }
        assert i > 0 ==> file[q .. q + i + 1] == file[q .. q + i] + [file[q + i]];
        assert signature[..i + 1] == signature[..i] + [signature[i]];
        i := i + 1;
      }
      assert signature[..i] == signature;
      return Ok;
    }

    /** WAVParser_Seek from the current position: the file position moves
        to the byte after the one being read, plus offset, and the buffer
        is emptied.  A target before the start of the file leaves the
        position where it was, as fseek does; the result is always Ok. */
    method Seek(offset: int) returns (err: WavError)
      requires Valid()
      modifies this
      ensures err == Ok && Valid() && Aligned() && bytePos == -1
      ensures var t := SeekTarget(old(filePos), old(numLoaded), old(bytePos), offset);
        filePos == if t >= 0 then t else old(filePos)
      ensures old(Aligned()) && old(Offset()) + offset >= 0 ==> Offset() == old(Offset()) + offset
    {
      var target := SeekTarget(filePos, numLoaded, bytePos, offset);
      if target >= 0 {
        filePos := target;
      }
      bytePos := -1;
      return Ok;
    }
  
    /** The chunk loop of WAVParser_GetWAVFormat: skip whole chunks, by
        their size, until one named "data". */
    method ScanChunks() returns (err: WavError)
      requires Valid() && Aligned()
      modifies this, bytes
      ensures var r := ChunkScan(file, old(Offset()));
        (err == Ok <==> r.Success?) && (err == Ok || err == Io) &&
        (err == Ok ==> Valid() && Aligned() && Offset() == r.value)
    {
      hide ChunkScan;
      ghost var pos: nat := Offset();
      while true
        invariant Valid() && Aligned() && Offset() == pos
        invariant ChunkScan(file, pos) == ChunkScan(file, old(Offset()))
        decreases if pos <= |file| then |file| - pos + 1 else 0
      {
        ChunkScanUnfold(file, pos);
        var e, name := GetString(4);
        if e != Ok {
          return Io;
        }
        if name == DATA {
          return Ok;
        }
        var e2, size := GetLittleEndianBytes(4);
        if e2 != Ok {
          return Io;
        }
        var skipped := Seek(size);
        pos := pos + 8 + size;
      }
    }

    /** WAVParser_GetWAVFormat on a parser at the start of the file: the
        format and the position of the first sample that ParseFormat
        describes, or the error it names. */
    method GetWAVFormat() returns (err: WavError, format: WavFileFormat)
      requires Valid() && Aligned() && Offset() == 0
      modifies this, bytes
      ensures var r := ParseFormat(file);
        (err == Ok <==> r.Success?) && (err != Ok ==> err == r.error) &&
        (err == Ok ==> format == r.value.0 && Valid() && Aligned() && Offset() == r.value.1)
    {
      hide DataChunk, ChunkScan, FromLE, HeaderError, Field;
      format := WavFileFormat(false, 0, 0, 0, 0);
      var e, fmtSize := ReadRiffHeader();
      if e != Ok {
        return e, format;
      }
      var fmtChunkSize := ToInt32(fmtSize);
      var e2, ch, rate, bps := ReadFmtFields();
      if e2 != Ok {
        return Io, format;
      }
      ghost var skip := FmtSkip(fmtSize);
      assert ParseFormat(file) == DataChunk(file, ch, rate, bps, 36 + skip);
      hide ParseFormat, FmtSkip;
      if fmtChunkSize > 16 {
        var skipped := Seek(fmtChunkSize - 16);
      }
      assert Offset() == 36 + skip;
      err, format := ReadDataChunk(ch, rate, bps);
    }

    /** The first part of WAVParser_GetWAVFormat: the RIFF signature and
        size, the WAVE and "fmt " signatures, the fmt chunk's size and the
        format tag, which must be 1. */
    method ReadRiffHeader() returns (err: WavError, fmtSize: nat)
      requires Valid() && Aligned() && Offset() == 0
      modifies this, bytes
      ensures err == Ok <==> HeaderError(file).None?
      ensures err != Ok ==> err == HeaderError(file).value
      ensures err == Ok ==> Valid() && Aligned() && Offset() == 22 && fmtSize == Field(file, 16, 4) < 0x1_0000_0000
    {
      hide FromLE;
      Pow2Values();
      var e := CheckSignatureString(RIFF);
      if e != Ok {
        return InvalidFormat, 0;
      }
      var e1, riffSize := GetLittleEndianBytes(4);
      if e1 != Ok {
        return Io, 0;
      }
      e := CheckSignatureString(WAVE);
      if e != Ok {
        return InvalidFormat, 0;
      }
      e := CheckSignatureString(FMT);
      if e != Ok {
        return InvalidFormat, 0;
      }
      var e2;
      e2, fmtSize := GetLittleEndianBytes(4);
      if e2 != Ok {
        return Io, 0;
      }
      assert fmtSize == Field(file, 16, 4);
      var e3, formatId := GetLittleEndianBytes(2);
      if e3 != Ok {
        return Io, 0;
      }
      if formatId != 1 {
        return InvalidFormat, 0;
      }
      return Ok, fmtSize;
    }

    /** The rest of the fmt chunk's sixteen bytes: channel count, sampling
        rate, byte rate, block size and sample depth; only a file that ends
        before them fails. */
    method ReadFmtFields() returns (err: WavError, ch: u32, rate: u32, bps: u32)
      requires Valid() && Aligned() && Offset() == 22
      modifies this, bytes
      ensures err == Ok <==> 36 <= |file|
      ensures err != Ok ==> err == Io
      ensures err == Ok ==> Valid() && Aligned() && Offset() == 36
      ensures err == Ok ==> ch == Field(file, 22, 2) && rate == Field(file, 24, 4) && bps == Field(file, 34, 2)
    {
      hide FromLE;
      Pow2Values();
      var e4, c := GetLittleEndianBytes(2);
      if e4 != Ok {
        return Io, 0, 0, 0;
      }
      var e5, r := GetLittleEndianBytes(4);
      if e5 != Ok {
        return Io, 0, 0, 0;
      }
      var e6, byteRate := GetLittleEndianBytes(4);
      if e6 != Ok {
        return Io, 0, 0, 0;
      }
      var e7, blockSize := GetLittleEndianBytes(2);
      if e7 != Ok {
        return Io, 0, 0, 0;
      }
      var e8, b := GetLittleEndianBytes(2);
      if e8 != Ok {
        return Io, 0, 0, 0;
      }
      assert c == Field(file, 22, 2) && r == Field(file, 24, 4) && b == Field(file, 34, 2);
      return Ok, c, r, b;
    }

    /** The rest of WAVParser_GetWAVFormat, from the first chunk after the
        fmt chunk: find "data", read its byte count and turn it into a
        number of samples per channel.  A zero frame size is rejected
        (see AsWrittenSampleCount). */
    method ReadDataChunk(ch: u32, rate: u32, bps: u32) returns (err: WavError, format: WavFileFormat)
      requires Valid() && Aligned() && Offset() >= 36
      modifies this, bytes
      ensures var r := DataChunk(file, ch, rate, bps, old(Offset()));
        (err == Ok <==> r.Success?) && (err != Ok ==> err == r.error) &&
        (err == Ok ==> format == r.value.0 && Valid() && Aligned() && Offset() == r.value.1)
    {
      hide ChunkScan, SampleCount;
      format := WavFileFormat(false, 0, 0, 0, 0);
      var e := ScanChunks();
      if e != Ok {
        return Io, format;
      }
      ghost var at := Offset();
      var e2, size := GetLittleEndianBytes(4);
      if e2 != Ok {
        return Io, format;
      }
      assert size == Field(file, at, 4);
      var frame := (bps / 8) * ch;
      if frame == 0 {
        return InvalidFormat, format;
      }
      Pow2Word();
      format := WavFileFormat(true, ch, rate, bps, SampleCount(size, bps, ch));
      return Ok, format;
    }
  
    /** WAVParser_GetWAVPcmData: numSamples frames of numChannels samples,
        each bitsPerSample / 8 bytes little-endian, converted to 32 bits;
        data[ch, s] receives channel ch of frame s.  Depths other than 8,
        16, 24 and 32 are InvalidFormat before anything is read. */
    method GetWAVPcmData(format: WavFileFormat, data: array2<int>) returns (err: WavError)
      requires Valid() && Aligned()
      requires data.Length0 == format.numChannels && data.Length1 == format.numSamples
      modifies this, bytes, data
      ensures !SupportedDepth(format.bitsPerSample) ==> err == InvalidFormat
      ensures SupportedDepth(format.bitsPerSample) ==> err == Ok || err == Io
      ensures SupportedDepth(format.bitsPerSample) && (format.numSamples == 0 || format.numChannels == 0) ==> err == Ok
      ensures SupportedDepth(format.bitsPerSample) && format.numSamples * format.numChannels > 0 ==>
        (err == Ok <==> old(Offset()) + Slot(Slot(format.numSamples, format.numChannels), format.bitsPerSample / 8) <= |file|)
      ensures err == Ok ==> SupportedDepth(format.bitsPerSample) && Valid() && Aligned()
      ensures err == Ok ==> forall ch, s :: 0 <= ch < format.numChannels && 0 <= s < format.numSamples ==>
        data[ch, s] == SampleIn(file, old(Offset()) + Slot(Slot(s, format.numChannels) + ch, format.bitsPerSample / 8), format.bitsPerSample)
    {
      var bps := format.bitsPerSample;
      if !SupportedDepth(bps) {
        return InvalidFormat;
      }
      var w: nat := bps / 8;
      var c: nat := format.numChannels;
      var n: nat := format.numSamples;
      ghost var q := Offset();
      assert Slot(0, c) == 0 && Slot(0, w) == 0;
      hide SampleIn, Slot, FromLE;
      var s: nat := 0;
      while s < n
        invariant s <= n && Valid() && Aligned()
        invariant Offset() == q + Slot(Slot(s, c), w)
        invariant s > 0 && c > 0 ==> Offset() <= |file|
        invariant forall ch, s' :: 0 <= ch < c && 0 <= s' < s ==> data[ch, s'] == SampleIn(file, q + Slot(Slot(s', c) + ch, w), bps)
      {
        var e := ReadFrame(data, s, bps, q);
        if e != Ok {
          assert n > 0 && c > 0;
          SlotMonotone(s + 1, n, c);
          SlotMonotone(Slot(s + 1, c), Slot(n, c), w);
          return Io;
        }
        s := s + 1;
      }
      if n * c > 0 {
        assert n > 0 && c > 0;
      }
      return Ok;
    }

    /** One sample of the frame: channel ch of sample s, read into data. */
    method ReadSampleInto(data: array2<int>, s: nat, ch: nat, bps: nat, ghost q: nat) returns (err: WavError)
      requires Valid() && Aligned() && SupportedDepth(bps) && s < data.Length1 && ch < data.Length0
      requires Offset() == q + Slot(Slot(s, data.Length0) + ch, bps / 8)
      modifies this, bytes, data
      ensures err == Ok || err == Io
      ensures err == Io ==> q + Slot(Slot(s, data.Length0) + ch + 1, bps / 8) > |file|
      ensures err == Ok ==> Valid() && Aligned() && Offset() == q + Slot(Slot(s, data.Length0) + ch + 1, bps / 8) <= |file|
      ensures err == Ok ==> data[ch, s] == SampleIn(file, q + Slot(Slot(s, data.Length0) + ch, bps / 8), bps)
      ensures forall ch', s' :: 0 <= ch' < data.Length0 && 0 <= s' < data.Length1 && (ch', s') != (ch, s) ==>
        data[ch', s'] == old(data[ch', s'])
    {
      hide SampleIn, Slot, FromLE, Valid;
      SlotStep(Slot(s, data.Length0) + ch, bps / 8);
      var e, x := ReadSampleValue(bps);
      if e != Ok {
        return Io;
      }
      data[ch, s] := x;
      return Ok;
    }

    /** The sample at the parser's position, bps / 8 bytes little-endian. */
    method ReadSampleValue(bps: nat) returns (err: WavError, x: int)
      requires Valid() && Aligned() && SupportedDepth(bps)
      modifies this, bytes
      ensures err == Ok || err == Io
      ensures err == Ok <==> old(Offset()) + bps / 8 <= |file|
      ensures err == Ok ==> Valid() && Aligned() && Offset() == old(Offset()) + bps / 8
      ensures err == Ok ==> x == SampleIn(file, old(Offset()), bps)
    {
      hide SampleIn, FromLE;
      ghost var at := Offset();
      var e, v := GetLittleEndianBytes(bps / 8);
      if e != Ok {
        return Io, 0;
      }
      assert v == Field(file, at, bps / 8);
      SampleHere(file, at, bps, v);
      return Ok, ReadSample(bps, v);
    }

    /** One pass of the channel loop of WAVParser_GetWAVPcmData: the
        samples of frame s, channel by channel. */
    method ReadFrame(data: array2<int>, s: nat, bps: nat, ghost q: nat) returns (err: WavError)
      requires Valid() && Aligned() && SupportedDepth(bps) && s < data.Length1
      requires Offset() == q + Slot(Slot(s, data.Length0), bps / 8)
      modifies this, bytes, data
      ensures err == Ok || err == Io
      ensures data.Length0 == 0 ==> err == Ok
      ensures err == Io ==> q + Slot(Slot(s + 1, data.Length0), bps / 8) > |file|
      ensures err == Ok ==> Valid() && Aligned() && Offset() == q + Slot(Slot(s + 1, data.Length0), bps / 8)
      ensures err == Ok && data.Length0 > 0 ==> Offset() <= |file|
      ensures err == Ok ==> forall ch :: 0 <= ch < data.Length0 ==>
        data[ch, s] == SampleIn(file, q + Slot(Slot(s, data.Length0) + ch, bps / 8), bps)
      ensures forall ch, s' :: 0 <= ch < data.Length0 && 0 <= s' < data.Length1 && s' != s ==>
        data[ch, s'] == old(data[ch, s'])
    {
      hide SampleIn, Slot, FromLE;
      var w: nat := bps / 8;
      var c: nat := data.Length0;
      SlotStep(s, c);
      var ch: nat := 0;
      while ch < c
        invariant ch <= c && Valid() && Aligned()
        invariant Offset() == q + Slot(Slot(s, c) + ch, w)
        invariant ch > 0 ==> Offset() <= |file|
        invariant forall ch' :: 0 <= ch' < ch ==> data[ch', s] == SampleIn(file, q + Slot(Slot(s, c) + ch', w), bps)
        invariant forall ch', s' :: 0 <= ch' < c && 0 <= s' < data.Length1 && s' != s ==>
          data[ch', s'] == old(data[ch', s'])
      {
        var e := ReadSampleInto(data, s, ch, bps, q);
        if e != Ok {
          SlotMonotone(Slot(s, c) + ch + 1, Slot(s + 1, c), w);
          return Io;
        }
        ch := ch + 1;
      }
      return Ok;
    }
  }
}
