/**
 * WAVWriter of libs/wav/src/wav.c: an MSB-first bit writer with an 8-bit
 * register in front of a 128 KiB byte buffer, and the writers of the
 * 44-byte header and the interleaved PCM area built on it.  The file is
 * the byte sequence `out` that fwrite has delivered so far.
 */
module WavWriter {
  import opened Bits
  import opened BitRegisters
  import opened WavFormat

  /* ---------------------------------------------------------------- */
  /* The 8-bit writer register.                                         */
  /* ---------------------------------------------------------------- */

  /** Everything a writer has produced: the bytes handed on (to the file
      or still in the buffer), then the 8 - c pending bits of a register
      with c free bits. */
  ghost function Emitted(flat: seq<byte>, buf: nat, c: nat): (r: seq<bool>)
    requires c <= 8
    ensures |r| == 8 * |flat| + 8 - c
  {
    BytesToBits(flat) + NatToBits(Shr(buf, c), 8 - c)
  }

  /** OR-ing the low n bits of val, shifted up by the new count c', into a
      register with c free bits puts them right after the pending ones.
      The bits are disjoint, so the C `|=` is an addition here. */
  lemma PendingByte(buf: nat, c: nat, val: nat, n: nat, nb: nat, c': nat)
    requires n <= c <= 8 && buf < 256 && Low(buf, c) == 0
    requires c' == c - n && nb == buf + Shl(Low(val, n), c')
    ensures nb < 256 && Low(nb, c') == 0
    ensures NatToBits(Shr(nb, c'), 8 - c') == NatToBits(Shr(buf, c), 8 - c) + NatToBits(val, n)
  {
    var p := Shr(buf, c);
    var x := Low(val, n);
    var q := Shl(p, n) + x;
    HighPart(buf, c, n, c', p);
    ShiftIn(buf, n, c', p, x, q, nb);
    ShlUndo(q, c');
    Pow2Byte();
    ShrBound(buf, 8 - c, c, 8);
    Compose(p, x, n, 8 - c, 8 - c');
    LowBits(val, n, n);
    ComposeBound(p, x, n, 8 - c, 8 - c');
    ShlBound(q, c', 8 - c', 8);
  }

  /** The trailing step of WAVWriter_PutBits: n < c bits join the pending
      ones. */
  lemma PutPendingByte(f: seq<byte>, buf: nat, c: nat, val: nat, n: nat, nb: nat, c': nat)
    requires n < c <= 8 && buf < 256 && Low(buf, c) == 0
    requires c' == c - n && nb == buf + Shl(Low(val, n), c')
    ensures nb < 256 && Low(nb, c') == 0
    ensures Emitted(f, nb, c') == Emitted(f, buf, c) + NatToBits(val, n)
  {
    PendingByte(buf, c, val, n, nb, c');
  }

  /** The storing step of WAVWriter_PutBits: the register, filled up with
      the c bits of val above its low `rest` bits, becomes the byte b. */
  lemma StoreBits(f: seq<byte>, buf: nat, c: nat, val: nat, rest: nat, n: nat, b: nat)
    requires 1 <= c <= 8 && buf < 256 && Low(buf, c) == 0
    requires n == rest + c && b == buf + Low(Shr(val, rest), c)
    ensures b < 256
    ensures Emitted(f + [b], 0, 8) + NatToBits(val, rest) == Emitted(f, buf, c) + NatToBits(val, n)
  {
    hide NatToBits, BytesToBits, Low, Shr, Shl, Pow2, BitsToNat;
    NoShift(Low(Shr(val, rest), c));
    PendingByte(buf, c, Shr(val, rest), c, b, 0);
    NoShift(b);
    Split(val, c, rest, n);
    BytesToBitsAppend(f, [b]);
    BytesToBitsOne(b);
    ZeroShifts(8);
  }

  /** A register with all its bits free holds nothing. */
  lemma EmptyRegister(f: seq<byte>, buf: nat)
    requires buf < 256 && Low(buf, 8) == 0
    ensures buf == 0 && Emitted(f, buf, 8) == BytesToBits(f)
  {
    Pow2Byte();
    Small(buf, 8);
  }

  /** The fmt chunk written field by field after h. */
  lemma FmtPieces(f: WavFileFormat, h: seq<byte>, g: seq<byte>)
    requires g == h + FMT + LE(16, 4) + LE(1, 2) + LE(f.numChannels, 2) + LE(f.samplingRate, 4)
                  + LE(ByteRate(f), 4) + LE(BlockAlign(f), 2) + LE(f.bitsPerSample, 2)
    ensures g == h + FmtChunk(f)
  {
    hide LE, ByteRate, BlockAlign;
  }

  /** A byte is named by its eight bits. */
  lemma ByteBitsInjective(x: byte, y: byte)
    requires NatToBits(x, 8) == NatToBits(y, 8)
    ensures x == y
  {
    hide *;
    BitsToNatOfNatToBits(x, 8);
    BitsToNatOfNatToBits(y, 8);
    Pow2Byte();
  }

  /** Padding a register's pending bits with its c free bits, all zero,
      gives the register itself as one more byte. */
  lemma PaddedByte(f: seq<byte>, buf: nat, c: nat)
    requires c <= 8 && buf < 256 && Low(buf, c) == 0
    ensures Emitted(f, buf, c) + Zeros(c) == BytesToBits(f + [buf])
  {
    Split(buf, 8 - c, c, 8);
    LowBits(buf, c, c);
    ZeroShifts(c);
    NatToBitsZero(c);
    BytesToBitsAppend(f, [buf]);
    BytesToBitsOne(buf);
  }

  /** A bit string of whole bytes names its bytes. */
  lemma {:induction false} BytesToBitsInjective(s: seq<byte>, t: seq<byte>)
    requires BytesToBits(s) == BytesToBits(t)
    ensures s == t
  {
    if |s| > 0 {
      var n := |s|;
      var a, b := s[..n - 1], t[..n - 1];
      assert BytesToBits(s) == BytesToBits(a) + NatToBits(s[n - 1], 8);
      assert BytesToBits(t) == BytesToBits(b) + NatToBits(t[n - 1], 8);
      assert s == a + [s[n - 1]] && t == b + [t[n - 1]];
      hide *;
      AppendInj(BytesToBits(a), NatToBits(s[n - 1], 8), BytesToBits(b), NatToBits(t[n - 1], 8));
      BytesToBitsInjective(a, b);
      ByteBitsInjective(s[n - 1], t[n - 1]);
    }
  }

  /** Bytes put after whole bytes leave the writer on a byte boundary, the
      new bytes after the old. */
  lemma AlignedAfter(f0: seq<byte>, b0: nat, f1: seq<byte>, b1: nat, c1: nat, x: seq<byte>)
    requires 1 <= c1 <= 8 && b0 < 256 && Low(b0, 8) == 0 && b1 < 256 && Low(b1, c1) == 0
    requires Emitted(f1, b1, c1) == Emitted(f0, b0, 8) + BytesToBits(x)
    ensures c1 == 8 && b1 == 0 && f1 == f0 + x
  {
    hide Emitted, BytesToBits, NatToBits, Low, Shr;
    var bits := Emitted(f0, b0, 8) + BytesToBits(x);
    assert 8 * |f1| + 8 - c1 == 8 * |f0| + 8 * |x|;
    assert c1 == 8 by {
      DivModUnique(8 * |f1| + 8 - c1, 8, |f1|, 8 - c1);
      DivModUnique(8 * |f0| + 8 * |x|, 8, |f0| + |x|, 0);
    }
    EmptyRegister(f0, b0);
    EmptyRegister(f1, b1);
    BytesToBitsAppend(f0, x);
    BytesToBitsInjective(f1, f0 + x);
  }

  /** The count of pending bits after n more bits. */
  lemma PendingCount(f0: nat, f1: nat, c0: nat, c1: nat, n: nat)
    requires 1 <= c1 <= 8 && c0 <= 8 && 8 * f1 + 8 - c1 == 8 * f0 + 8 - c0 + n
    ensures 8 - c1 == (8 - c0 + n) % 8
  {
    DivModUnique(8 - c0 + n, 8, f1 - f0, 8 - c1);
  }

  /** Writing `piece` after `h` on top of w0. */
  lemma Grow(w0: seq<bool>, h: seq<byte>, w1: seq<bool>, piece: seq<byte>, w2: seq<bool>)
    requires w1 == w0 + BytesToBits(h) && w2 == w1 + BytesToBits(piece)
    ensures w2 == w0 + BytesToBits(h + piece)
  {
    hide BytesToBits, NatToBits;
    BytesToBitsAppend(h, piece);
  }

  /** Adding a multiple of 256^k changes none of the k low bytes. */
  lemma {:induction false} LEWrap(v: nat, q: nat, n: nat, k: nat)
    requires n <= k
    ensures LE(v + q * Pow2(8 * k), n) == LE(v, n)
  {
    if n > 0 {
      var p := Pow2(8 * (k - 1));
      Pow2Add(8, 8 * (k - 1));
      Pow2Byte();
      var x := v + q * Pow2(8 * k);
      assert x == (v / 256 + q * p) * 256 + v % 256;
      DivModUnique(x, 256, v / 256 + q * p, v % 256);
      LEWrap(v / 256, q, n - 1, k - 1);
    }
  }

  /** A field of at most four bytes keeps the low bytes of a value
      computed in uint32_t. */
  lemma LEMod(v: nat, n: nat)
    requires n <= 4
    ensures LE(v % 0x1_0000_0000, n) == LE(v, n)
  {
    Pow2Word();
    LEWrap(v % 0x1_0000_0000, v / 0x1_0000_0000, n, 4);
  }

  /** An int computed in uint32_t: its value modulo 2^32. */
  function U32(x: int): (r: nat)
    ensures r < 0x1_0000_0000
  {
    x % 0x1_0000_0000
  }

  /** The size field after "RIFF": filesize - 8 in uint32_t, filesize
      being the PCM size plus 44 in uint32_t. */
  lemma SizeField(pcm: nat)
    requires pcm < 0x1_0000_0000
    ensures LE(U32(U32(pcm + 44) - 8), 4) == LE(pcm + 36, 4)
  {
    var m := 0x1_0000_0000;
    if pcm + 44 < m {
      DivModUnique(pcm + 44, m, 0, pcm + 44);
      DivModUnique(pcm + 36, m, 0, pcm + 36);
    } else {
      DivModUnique(pcm + 44, m, 1, pcm + 44 - m);
      DivModUnique(pcm + 36 - m, m, if pcm + 36 < m then -1 else 0, (pcm + 36) % m);
      DivModUnique(pcm + 36, m, if pcm + 36 < m then 0 else 1, (pcm + 36) % m);
    }
    LEMod(pcm + 36, 4);
  }

  /** The header is the RIFF chunk header, whose size field is the file
      size less 8, the "fmt " chunk and the "data" chunk header. */
  lemma HeaderChunks(f: WavFileFormat, pcm: nat, fileSize: nat, riffSize: nat, h: seq<byte>)
    requires pcm == PcmDataSize(f) && fileSize == U32(pcm + 44) && riffSize == U32(fileSize - 8)
    requires h == [] + RIFF + LE(riffSize, 4) + WAVE + FmtChunk(f) + DATA + LE(pcm, 4)
    ensures h == HeaderBytes(f)
  {
    hide LE, FmtChunk, U32;
    SizeField(pcm);
  }

  lemma BytesToBitsEmpty(w: seq<bool>)
    ensures w == w + BytesToBits([])
  {
  }

  /* ---------------------------------------------------------------- */
  /* The PCM area.                                                      */
  /* ---------------------------------------------------------------- */

  /** The samples of WAVFile's data[ch][smpl], channel by channel. */
  ghost function Channels(data: array2<int>): (r: seq<seq<int>>)
    reads data
    ensures Holds(r, data)
  {
    seq(data.Length0, ch requires 0 <= ch < data.Length0 reads data =>
      seq(data.Length1, s requires 0 <= s < data.Length1 reads data => data[ch, s]))
  }

  /** D holds what the array holds. */
  ghost predicate Holds(D: seq<seq<int>>, data: array2<int>)
    reads data
  {
    |D| == data.Length0
    && forall ch | 0 <= ch < data.Length0 :: |D[ch]| == data.Length1
         && forall s | 0 <= s < data.Length1 :: D[ch][s] == data[ch, s]
  }

  /** Every sample fits the int32_t the source stores it in. */
  ghost predicate Pcm32(data: array2<int>)
    reads data
  {
    forall ch, s | 0 <= ch < data.Length0 && 0 <= s < data.Length1 :: IsInt32(data[ch, s])
  }

  lemma LETwo(v: nat)
    ensures LE(v, 2) == [v % 0x100, (v / 0x100) % 0x100]
  {
    assert LE(v, 2) == [v % 256] + LE(v / 256, 1);
    assert LE(v / 256, 1) == [(v / 256) % 256] + LE(v / 256 / 256, 0);
  }

  lemma LEFour(v: nat)
    ensures LE(v, 4) == [v % 0x100, (v / 0x100) % 0x100, (v / 0x100 / 0x100) % 0x100,
                         (v / 0x100 / 0x100 / 0x100) % 0x100]
  {
    var v1, v2, v3 := v / 256, v / 256 / 256, v / 256 / 256 / 256;
    assert LE(v, 4) == [v % 256] + LE(v1, 3);
    assert LE(v1, 3) == [v1 % 256] + LE(v2, 2);
    assert LE(v2, 2) == [v2 % 256] + LE(v3, 1);
    assert LE(v3, 1) == [v3 % 256] + LE(v3 / 256, 0);
  }

  /** Storing channel ch's sample of a frame extends the interleaved area
      by that sample. */
  lemma FrameStep(D: seq<seq<int>>, c: nat, n: nat, bps: nat, frame: nat, ch: nat, k: nat,
                  pre: seq<byte>, out: seq<byte>, before: seq<byte>, p: int, after: seq<byte>)
    requires SupportedDepth(bps) && Samples(D, c, n) && frame < n && ch < c
    requires k == Slot(frame, c) && Slot(frame + 1, c) <= Slot(n, c)
    requires out + before == pre + Interleaved(D, c, n, bps, k + ch)
    requires p == D[ch][frame] && after == before + SampleBytes(bps, p)
    ensures k + ch + 1 <= Slot(n, c)
    ensures out + after == pre + Interleaved(D, c, n, bps, k + ch + 1)
  {
    hide *;
    FrameSample(D, c, n, frame, ch, k + ch);
    Append(out, before, SampleBytes(bps, p), after);
    NextSample(D, c, n, bps, k + ch, pre, out + before, SampleBytes(bps, p));
  }

  lemma Append(o: seq<byte>, a: seq<byte>, x: seq<byte>, b: seq<byte>)
    requires b == a + x
    ensures o + b == (o + a) + x
  {
  }

  lemma SampleOf(D: seq<seq<int>>, data: array2<int>, ch: nat, s: nat)
    requires Holds(D, data) && ch < data.Length0 && s < data.Length1
    ensures D[ch][s] == data[ch, s]
  {
  }

  lemma SamplesOf(data: array2<int>)
    requires Pcm32(data)
    ensures Samples(Channels(data), data.Length0, data.Length1)
  {
  }

  lemma InterleavedZero(D: seq<seq<int>>, c: nat, n: nat, bps: nat)
    requires SupportedDepth(bps) && Samples(D, c, n)
    ensures Interleaved(D, c, n, bps, 0) == []
  {
  }

  lemma SlotAdd(a: nat, b: nat, w: nat)
    ensures Slot(a + b, w) == Slot(a, w) + Slot(b, w)
  {
  }

  /** The next sample's bytes extend the interleaved area by one sample. */
  lemma NextSample(D: seq<seq<int>>, c: nat, n: nat, bps: nat, k: nat, pre: seq<byte>,
                   done: seq<byte>, x: seq<byte>)
    requires SupportedDepth(bps) && Samples(D, c, n) && k < Slot(n, c)
    requires done == pre + Interleaved(D, c, n, bps, k) && x == SampleBytes(bps, SampleAt(D, c, n, k))
    ensures done + x == pre + Interleaved(D, c, n, bps, k + 1)
  {
    hide SampleBytes, SampleAt, Samples, SupportedDepth;
    assert Interleaved(D, c, n, bps, k + 1) == Interleaved(D, c, n, bps, k) + x;
  }

  /** A buffer of m frames of c samples of w bytes fits in the buffer the
      source sizes for BUFFER_SIZE / (w c) frames. */
  lemma ChunkFits(m: nat, per: nat, c: nat, w: nat)
    requires 0 < w * c && per == BUFFER_SIZE / (w * c) && m <= per
    ensures Slot(Slot(m, c), w) <= BUFFER_SIZE
  {
    MulLeft(m, per, w * c);
    assert per * (w * c) <= BUFFER_SIZE;
    assert Slot(Slot(m, c), w) == m * (w * c);
  }

  /* ---------------------------------------------------------------- */
  /* The writer.                                                        */
  /* ---------------------------------------------------------------- */

  class Writer {
    /** What fwrite has delivered to the file. */
    var out: seq<byte>
    const bytes: array<byte>
    var bytePos: nat
    var bitBuffer: nat
    var bitCount: nat

    /** The buffer has room for the next byte; the register has 1 to 8
        free bits, and they are clear. */
    ghost predicate Valid()
      reads this
    {
      bytes.Length == BUFFER_SIZE && bytePos < BUFFER_SIZE
      && 1 <= bitCount <= 8 && bitBuffer < 256 && Low(bitBuffer, bitCount) == 0
    }

    /** The whole bytes produced so far: those in the file, then those in
        the buffer. */
    ghost function Flat(): seq<byte>
      reads this, bytes
      requires bytePos <= bytes.Length
    {
      out + bytes[..bytePos]
    }

    /** The bytes the file holds once the writer is flushed: the pending
        bits, if any, become one more byte, padded with zeros. */
    ghost function Flushed(): seq<byte>
      reads this, bytes
      requires Valid()
    {
      Flat() + (if bitCount == 8 then [] else [bitBuffer])
    }

    /** Every bit put so far, in order. */
    ghost function Written(): seq<bool>
      reads this, bytes
      requires Valid()
    {
      Emitted(Flat(), bitBuffer, bitCount)
    }

    /** What Valid and Written say about the register. */
    lemma Register()
      requires Valid()
      ensures 1 <= bitCount <= 8 && bitBuffer < 256 && Low(bitBuffer, bitCount) == 0
      ensures Written() == Emitted(Flat(), bitBuffer, bitCount)
    {
    }

    /** WAVWriter_Initialize over a file opened for writing, hence empty. */
    constructor()
      ensures Valid() && out == [] && bytePos == 0 && bitCount == 8 && bitBuffer == 0
      ensures Flat() == [] && Written() == []
      ensures fresh(bytes)
    {
      out := [];
      bytes := new byte[BUFFER_SIZE](_ => 0);
      bytePos := 0;
      bitBuffer := 0;
      bitCount := 8;
      ZeroShifts(8);
    }

    /** One byte into the buffer, which goes to the file when it is full. */
    method StoreByte(b: byte)
      requires Valid()
      modifies this, bytes
      ensures Valid() && Flat() == old(Flat()) + [b]
      ensures bitBuffer == old(bitBuffer) && bitCount == old(bitCount)
    {
      bytes[bytePos] := b;
      assert bytes[..bytePos + 1] == old(bytes[..bytePos]) + [b];
      bytePos := bytePos + 1;
      if bytePos == BUFFER_SIZE {
        assert bytes[..] == bytes[..bytePos];
        out := out + bytes[..];
        bytePos := 0;
      }
    }

    /** WAVWriter_PutBits: the low n bits of val, most significant first.
        A count above 64 would shift a uint64_t by 64 or more. */
    method PutBits(val: nat, n: nat)
      requires Valid() && n <= 64
      modifies this, bytes
      ensures Valid() && Written() == old(Written()) + NatToBits(val, n)
      ensures 8 - bitCount == (8 - old(bitCount) + n) % 8
      ensures old(bitCount) == 8 && n % 8 == 0 ==>
        bitCount == 8 && bitBuffer == 0 && Flat() == old(Flat()) + BE(val, n / 8)
    {
      hide Emitted, NatToBits, BytesToBits, Low, Shr, Shl, BE, Pow2;
      ghost var w0 := Written();
      ghost var f0, buf0 := Flat(), bitBuffer;
      var nb: nat := n;
      while nb >= bitCount
        invariant Valid() && nb <= n
        invariant Written() + NatToBits(val, nb) == w0 + NatToBits(val, n)
        decreases nb
      {
        ghost var f := Flat();
        nb := nb - bitCount;
        var b := bitBuffer + Low(Shr(val, nb), bitCount);
        StoreBits(f, bitBuffer, bitCount, val, nb, nb + bitCount, b);
        StoreByte(b);
        bitBuffer := 0;
        bitCount := 8;
        ZeroShifts(8);
      }
      ghost var f := Flat();
      var c' := bitCount - nb;
      var nbuf := bitBuffer + Shl(Low(val, nb), c');
      PutPendingByte(f, bitBuffer, bitCount, val, nb, nbuf, c');
      bitCount := c';
      bitBuffer := nbuf;
      assert Written() == w0 + NatToBits(val, n);
      PendingCount(|old(Flat())|, |Flat()|, old(bitCount), bitCount, n);
      if old(bitCount) == 8 && n % 8 == 0 {
        BEBits(val, n / 8);
        AlignedAfter(f0, buf0, Flat(), bitBuffer, bitCount, BE(val, n / 8));
      }
    }

    /** WAVWriter_Flush: pad the pending bits with zeros to a whole byte,
        then hand the whole buffer to the file. */
    method Flush()
      requires Valid()
      modifies this, bytes
      ensures Valid() && bitCount == 8 && bitBuffer == 0 && bytePos == 0
      ensures out == old(Flushed())
      ensures BytesToBits(out) == old(Written()) + Zeros(old(bitCount) % 8)
    {
      hide Emitted, NatToBits, BytesToBits, Low, Shr, Shl, Pow2, Zeros;
      if bitCount != 8 {
        ghost var c, f0, b0 := bitCount, Flat(), bitBuffer;
        PutBits(0, bitCount);
        NatToBitsZero(c);
        PaddedByte(f0, b0, c);
        EmptyRegister(Flat(), bitBuffer);
        BytesToBitsInjective(Flat(), f0 + [b0]);
        bitBuffer := 0;
        bitCount := 8;
      } else {
        EmptyRegister(Flat(), bitBuffer);
      }
      out := out + bytes[..bytePos];
      bytePos := 0;
    }

    /** WAVWriter_PutLittleEndianBytes: the nbytes low bytes of data, least
        significant first.  More than 8 bytes would shift a uint64_t by 64
        or more. */
    method PutLittleEndianBytes(nbytes: nat, data: nat)
      requires Valid() && nbytes <= 8
      modifies this, bytes
      ensures Valid() && Written() == old(Written()) + BytesToBits(LE(data, nbytes))
      ensures old(bitCount) == 8 ==> bitCount == 8 && bitBuffer == 0 && Flat() == old(Flat()) + LE(data, nbytes)
    {
      hide Emitted, LE, BE, Reordered, BytesToBits, NatToBits, Written, Flat, Valid, Low, Shr;
      var o := ReorderBytes(nbytes, data);
      PutBits(o, nbytes * 8);
      ReorderedBytes(data, nbytes);
      BEBits(o, nbytes);
    }

    /** The "fmt " chunk of WAVWriter_PutWAVHeader, as the next piece of
        what is being written on top of w0. */
    method PutFmtChunk(f: WavFileFormat, ghost w0: seq<bool>, ghost h: seq<byte>)
      requires Valid() && Written() == w0 + BytesToBits(h)
      modifies this, bytes
      ensures Valid() && Written() == w0 + BytesToBits(h + FmtChunk(f))
    {
      hide Emitted, NatToBits, BytesToBits, Low, Shr, Shl, BE, Pow2, LE, Written, Flat, ByteRate, BlockAlign, FmtChunk;
      var byteRate := ByteRate(f) % 0x1_0000_0000;
      var blockSize := BlockAlign(f) % 0x1_0000_0000;
      LEMod(ByteRate(f), 4);
      LEMod(BlockAlign(f), 2);
      ghost var g := h;
      PutTag(FMT, w0, g);
      g := g + FMT;
      PutField(4, 16, w0, g);
      g := g + LE(16, 4);
      PutField(2, 1, w0, g);
      g := g + LE(1, 2);
      PutField(2, f.numChannels, w0, g);
      g := g + LE(f.numChannels, 2);
      PutField(4, f.samplingRate, w0, g);
      g := g + LE(f.samplingRate, 4);
      PutField(4, byteRate, w0, g);
      g := g + LE(ByteRate(f), 4);
      PutField(2, blockSize, w0, g);
      g := g + LE(BlockAlign(f), 2);
      PutField(2, f.bitsPerSample, w0, g);
      g := g + LE(f.bitsPerSample, 2);
      FmtPieces(f, h, g);
    }

    /** A four-character signature, each character by
        WAVWriter_PutBits(c, 8), as the next piece of what is being
        written on top of w0. */
    method PutTag(tag: seq<byte>, ghost w0: seq<bool>, ghost h: seq<byte>)
      requires Valid() && Written() == w0 + BytesToBits(h) && |tag| == 4
      modifies this, bytes
      ensures Valid() && Written() == w0 + BytesToBits(h + tag)
    {
      hide Emitted, NatToBits, BytesToBits, Low, Shr, Shl, BE, Pow2, Written, Flat;
      PutByte(tag[0], w0, h);
      PutByte(tag[1], w0, h + [tag[0]]);
      PutByte(tag[2], w0, h + [tag[0]] + [tag[1]]);
      PutByte(tag[3], w0, h + [tag[0]] + [tag[1]] + [tag[2]]);
      assert h + [tag[0]] + [tag[1]] + [tag[2]] + [tag[3]] == h + tag;
    }

    /** WAVWriter_PutBits(b, 8), as one more byte of a piece being
        written on top of w0. */
    method PutByte(b: byte, ghost w0: seq<bool>, ghost h: seq<byte>)
      requires Valid() && Written() == w0 + BytesToBits(h)
      modifies this, bytes
      ensures Valid() && Written() == w0 + BytesToBits(h + [b])
    {
      hide Emitted, NatToBits, BytesToBits, Low, Shr, Shl, BE, Pow2, Written, Flat;
      ghost var w1 := Written();
      PutBits(b, 8);
      BytesToBitsOne(b);
      Grow(w0, h, w1, [b], Written());
    }

    /** WAVWriter_PutLittleEndianBytes(nbytes, data), as the next piece of
        what is being written on top of w0. */
    method PutField(nbytes: nat, data: nat, ghost w0: seq<bool>, ghost h: seq<byte>)
      requires Valid() && Written() == w0 + BytesToBits(h) && nbytes <= 8
      modifies this, bytes
      ensures Valid() && Written() == w0 + BytesToBits(h + LE(data, nbytes))
    {
      hide Emitted, NatToBits, BytesToBits, Low, Shr, Shl, BE, Pow2, LE, Written, Flat;
      ghost var w1 := Written();
      PutLittleEndianBytes(nbytes, data);
      Grow(w0, h, w1, LE(data, nbytes), Written());
    }

    /** WAVWriter_PutWAVHeader: the 44 header bytes for f, the sizes
        computed in uint32_t; formats other than linear PCM are refused. */
    method PutWAVHeader(f: WavFileFormat) returns (err: WavError)
      requires Valid()
      modifies this, bytes
      ensures !f.pcm ==> err == InvalidFormat && unchanged(this)
      ensures f.pcm ==> err == Ok && Valid() && Written() == old(Written()) + BytesToBits(HeaderBytes(f))
      ensures f.pcm && old(bitCount) == 8 ==>
        bitCount == 8 && bitBuffer == 0 && Flat() == old(Flat()) + HeaderBytes(f)
    {
      if !f.pcm {
        return InvalidFormat;
      }
      hide *;
      Register();
      ghost var w0, f0, b0 := Written(), Flat(), bitBuffer;
      var pcmDataSize := PcmDataSize(f);
      var fileSize := U32(pcmDataSize + 44);
      var riffSize := U32(fileSize as int - 8);
      ghost var h: seq<byte> := [];
      BytesToBitsEmpty(w0);
      PutTag(RIFF, w0, h);
      h := h + RIFF;
      PutField(4, riffSize, w0, h);
      h := h + LE(riffSize, 4);
      PutTag(WAVE, w0, h);
      h := h + WAVE;
      PutFmtChunk(f, w0, h);
      h := h + FmtChunk(f);
      PutTag(DATA, w0, h);
      h := h + DATA;
      PutField(4, pcmDataSize, w0, h);
      h := h + LE(pcmDataSize, 4);
      HeaderChunks(f, pcmDataSize, fileSize, riffSize, h);
      Register();
      if old(bitCount) == 8 {
        AlignedAfter(f0, b0, Flat(), bitBuffer, bitCount, h);
      }
      return Ok;
    }

    /** One sample into the buffer at pos, in its depth's bytes: the 8-bit
        sample plus 128, the low 16 bits as an int16_t stored
        little-endian, the 24-bit sample's three low bytes, the 32-bit
        sample as a little-endian int32_t. */
    method StoreSample(pos: nat, bps: nat, p: int)
      requires SupportedDepth(bps) && pos + bps / 8 <= bytes.Length
      modifies bytes
      ensures bytes[..pos + bps / 8] == old(bytes[..pos]) + SampleBytes(bps, p)
    {
      if bps == 8 {
        bytes[pos] := (p + 128) % 0x100;
      } else if bps == 16 {
        var v := p % 0x1_0000;
        bytes[pos] := v % 0x100;
        bytes[pos + 1] := (v / 0x100) % 0x100;
        LETwo(v);
      } else if bps == 24 {
        bytes[pos] := p % 0x100;
        bytes[pos + 1] := (p / 0x100) % 0x100;
        bytes[pos + 2] := (p / 0x1_0000) % 0x100;
      } else {
        var v := p % 0x1_0000_0000;
        bytes[pos] := v % 0x100;
        bytes[pos + 1] := (v / 0x100) % 0x100;
        bytes[pos + 2] := (v / 0x100 / 0x100) % 0x100;
        bytes[pos + 3] := (v / 0x100 / 0x100 / 0x100) % 0x100;
        LEFour(v);
      }
    }

    /** The channel loop of WAVWriter_PutWAVPcmData for one frame: the
        frame's samples go into the buffer after what is there. */
    method FillFrame(data: array2<int>, frame: nat, bps: nat, pos: nat,
                     ghost D: seq<seq<int>>, ghost k: nat, ghost pre: seq<byte>) returns (pos': nat)
      requires SupportedDepth(bps) && Holds(D, data) && Samples(D, data.Length0, data.Length1)
      requires frame < data.Length1 && k == Slot(frame, data.Length0)
      requires Slot(frame + 1, data.Length0) <= Slot(data.Length1, data.Length0)
      requires pos + Slot(data.Length0, bps / 8) <= bytes.Length
      requires out + bytes[..pos] == pre + Interleaved(D, data.Length0, data.Length1, bps, k)
      modifies bytes
      ensures pos' == pos + Slot(data.Length0, bps / 8)
      ensures out + bytes[..pos'] == pre + Interleaved(D, data.Length0, data.Length1, bps, Slot(frame + 1, data.Length0))
    {
      hide *;
      var c, n, w := data.Length0, data.Length1, bps / 8;
      SlotEmpty(0, w);
      SlotStep(frame, c);
      SlotMonotone(0, c, w);
      pos' := pos;
      var ch := 0;
      while ch < c
        invariant ch <= c && pos' == pos + Slot(ch, w) && pos' <= bytes.Length && k + ch <= Slot(n, c)
        invariant out + bytes[..pos'] == pre + Interleaved(D, c, n, bps, k + ch)
      {
        SlotStep(ch, w);
        SlotMonotone(ch + 1, c, w);
        ghost var before := bytes[..pos'];
        var p := data[ch, frame];
        SampleOf(D, data, ch, frame);
        StoreSample(pos', bps, p);
        FrameStep(D, c, n, bps, frame, ch, k, pre, out, before, p, bytes[..pos' + w]);
        pos' := pos' + w;
        ch := ch + 1;
      }
      SlotStep(frame, c);
    }

    /** The sample loop of WAVWriter_PutWAVPcmData for one buffer: frames
        from..from + m - 1 go into the emptied buffer. */
    method FillBuffer(data: array2<int>, from: nat, m: nat, bps: nat,
                      ghost D: seq<seq<int>>, ghost pre: seq<byte>) returns (size: nat)
      requires SupportedDepth(bps) && Holds(D, data) && Samples(D, data.Length0, data.Length1)
      requires from + m <= data.Length1 && Slot(Slot(m, data.Length0), bps / 8) <= bytes.Length
      requires Slot(from, data.Length0) <= Slot(from + m, data.Length0) <= Slot(data.Length1, data.Length0)
      requires out == pre + Interleaved(D, data.Length0, data.Length1, bps, Slot(from, data.Length0))
      modifies bytes
      ensures size == Slot(Slot(m, data.Length0), bps / 8)
      ensures out + bytes[..size] == pre + Interleaved(D, data.Length0, data.Length1, bps, Slot(from + m, data.Length0))
    {
      hide *;
      var c, n, w := data.Length0, data.Length1, bps / 8;
      SlotEmpty(0, c);
      SlotEmpty(0, w);
      size := 0;
      assert out + bytes[..size] == out;
      var smpl := 0;
      while smpl < m
        invariant smpl <= m && size == Slot(Slot(smpl, c), w) && size <= bytes.Length
        invariant Slot(from + smpl, c) <= Slot(n, c)
        invariant out + bytes[..size] == pre + Interleaved(D, c, n, bps, Slot(from + smpl, c))
      {
        SlotStep(smpl, c);
        SlotAdd(Slot(smpl, c), c, w);
        SlotMonotone(smpl + 1, m, c);
        SlotMonotone(Slot(smpl + 1, c), Slot(m, c), w);
        SlotMonotone(from + smpl + 1, from + m, c);
        size := FillFrame(data, from + smpl, bps, size, D, Slot(from + smpl, c), pre);
        smpl := smpl + 1;
      }
    }

    /** WAVWriter_PutWAVPcmData: flush, then the samples frame by frame and
        channel by channel, a buffer of BUFFER_SIZE / (w c) frames at a
        time.  A frame wider than the buffer would leave the loop without
        progress, and a frame of no bytes divides by zero. */
    method PutWAVPcmData(format: WavFileFormat, data: array2<int>) returns (err: WavError)
      requires Valid() && Pcm32(data)
      requires data.Length0 == format.numChannels && data.Length1 == format.numSamples
      requires SupportedDepth(format.bitsPerSample) ==>
        0 < (format.bitsPerSample / 8) * format.numChannels <= BUFFER_SIZE
      modifies this, bytes
      ensures Valid() && bitCount == 8 && bitBuffer == 0 && bytePos == 0
      ensures !SupportedDepth(format.bitsPerSample) ==> err == InvalidFormat && out == old(Flushed())
      ensures SupportedDepth(format.bitsPerSample) ==>
        err == Ok &&
        out == old(Flushed()) + Interleaved(Channels(data), format.numChannels, format.numSamples,
                                            format.bitsPerSample, Slot(format.numSamples, format.numChannels))
    {
      hide Interleaved, SampleBytes, SampleAt, Samples, Holds, Slot, Channels, Low, Flat, Flushed, Written;
      Flush();
      var bps := format.bitsPerSample;
      if !SupportedDepth(bps) {
        return InvalidFormat;
      }
      var c, n, w := data.Length0, data.Length1, bps / 8;
      ghost var D := Channels(data);
      ghost var pre := out;
      SamplesOf(data);
      SlotEmpty(0, c);
      SlotMonotone(0, n, c);
      InterleavedZero(D, c, n, bps);
      var perBuffer := BUFFER_SIZE / (w * c);
      var progress := 0;
      while progress < n
        invariant progress <= n && Slot(progress, c) <= Slot(n, c) && Valid() && bitCount == 8 && bitBuffer == 0 && bytePos == 0
        invariant out == pre + Interleaved(D, c, n, bps, Slot(progress, c))
        decreases n - progress
      {
        var m := if perBuffer < n - progress then perBuffer else n - progress;
        ChunkFits(m, perBuffer, c, w);
        SlotMonotone(progress, progress + m, c);
        SlotMonotone(progress + m, n, c);
        var size := FillBuffer(data, progress, m, bps, D, pre);
        out := out + bytes[..size];
        progress := progress + m;
      }
      return Ok;
    }

    /** WAVWriter_Finalize: the pending bits and bytes go to the file, and
        the register and buffer are cleared. */
    method Finalize()
      requires Valid()
      modifies this, bytes
      ensures Valid() && bitCount == 8 && bitBuffer == 0 && bytePos == 0
      ensures out == old(Flushed())
      ensures forall j | 0 <= j < bytes.Length :: bytes[j] == 0
    {
      Flush();
      bitCount := 8;
      bitBuffer := 0;
      forall j | 0 <= j < bytes.Length {
        bytes[j] := 0;
      }
      bytePos := 0;
    }
  }
}
