/**
 * The bit stream of libs/bit_stream: a reader or a writer over a caller's
 * byte buffer, with a 32-bit register `bitBuffer`, a count `bitCount` of
 * free (writer) or unread (reader) bits in it, and a byte cursor `memoryP`.
 *
 * The bits the writer has produced so far are `Written()`: the bytes before
 * the cursor followed by the pending high bits of the register.  The reader
 * sees the whole buffer as one bit string, `Stream()`, and `Position()` is
 * the number of bits consumed from it.
 */
module BitStreams {
  import opened Bits
  import opened BitRegisters

  /** BITSTREAM_SEEK_SET / _CUR / _END. */
  datatype SeekOrigin = SeekSet | SeekCur | SeekEnd

  class BitStream {
    /** memory_image; memory_size is memory.Length. */
    var memory: array?<byte>
    /** memory_p, as an offset from memory_image. */
    var memoryP: nat
    var bitBuffer: nat
    var bitCount: nat
    /** flags & BITSTREAM_FLAGS_MODE_READ. */
    var readMode: bool

    /** A reader holds in its register the bitCount bits of the buffer just
        before the cursor; a writer holds its pending bits above bitCount
        free (zero) bits. */
    ghost predicate Valid()
      reads this, memory
    {
      memory != null && memoryP <= memory.Length && bitBuffer < WORD_LIMIT && bitCount <= 32 &&
      if readMode then
        bitCount <= 8 * memoryP && ReaderRegister(Stream(), memoryP, bitBuffer, bitCount)
      else
        1 <= bitCount && WriterRegister(bitBuffer, bitCount)
    }

    /** The reader's input: every bit of the buffer, in order. */
    ghost function Stream(): (r: seq<bool>)
      reads this`memory, memory
      requires memory != null
      ensures |r| == 8 * memory.Length
    {
      BytesToBits(memory[..])
    }

    /** The number of bits the reader has consumed. */
    ghost function Position(): (r: nat)
      reads this, memory
      requires Valid() && readMode
      ensures r <= |Stream()|
    {
      8 * memoryP - bitCount
    }

    /** Every bit the writer has produced, including those still pending. */
    ghost function Written(): (r: seq<bool>)
      reads this, memory
      requires Valid() && !readMode
      ensures |r| == 8 * memoryP + 32 - bitCount
    {
      WriterBits(memory[..memoryP], bitBuffer, bitCount)
    }

    /** The memory holds the words a writer stores while putting n bits. */
    ghost predicate Room(n: nat)
      reads this, memory
      requires Valid() && !readMode
    {
      memoryP + 4 * WordsStored(bitCount, n) <= memory.Length
    }

    /** Where BitStream_Flush leaves the cursor: a reader steps back over the
        whole bytes still in its register, a writer moves past the last byte
        holding a pending bit. */
    ghost function FlushedCursor(): int
      reads this, memory
      requires Valid()
    {
      if readMode then memoryP - bitCount / 8 else (|Written()| + 7) / 8
    }

    /** The writer's flush stores its pending bytes within the buffer. */
    ghost predicate FlushFits()
      reads this, memory
      requires Valid()
    {
      readMode || FlushedCursor() <= memory.Length
    }

    /** A stream that is not open: the state BitStream_Close leaves. */
    constructor ()
      ensures memory == null && memoryP == 0 && bitBuffer == 0 && bitCount == 0 && !readMode
    {
      memory := null;
      memoryP := 0;
      bitBuffer := 0;
      bitCount := 0;
      readMode := false;
    }

    /** BitReader_Open. */
    method ReaderOpen(mem: array<byte>)
      modifies this
      ensures Valid() && readMode && memory == mem
      ensures bitCount == 0 && bitBuffer == 0 && memoryP == 0 && Position() == 0
    {
      bitCount := 0;
      bitBuffer := 0;
      memory := mem;
      memoryP := 0;
      readMode := true;
      ReaderEmpty(BytesToBits(memory[..]), 0);
    }

    /** BitWriter_Open. */
    method WriterOpen(mem: array<byte>)
      modifies this
      ensures Valid() && !readMode && memory == mem
      ensures bitCount == 32 && bitBuffer == 0 && memoryP == 0 && Written() == []
    {
      bitCount := 32;
      bitBuffer := 0;
      memory := mem;
      memoryP := 0;
      readMode := false;
      assert memory[..0] == [];
      WriterEmpty([]);
    }

    /** Stores a word at the cursor, most significant byte first. */
    method StoreWord(word: nat)
      requires memory != null && memoryP + 4 <= memory.Length
      modifies memory, this`memoryP
      ensures memoryP == old(memoryP) + 4
      ensures memory[..memoryP] == old(memory[..memoryP]) + WordBytes(word)
      ensures forall i | 0 <= i < memory.Length && !(old(memoryP) <= i < memoryP) :: memory[i] == old(memory[i])
    {
      var p := memoryP;
      ghost var before := memory[..p];
      memory[p] := ByteOf(word, 3);
      memory[p + 1] := ByteOf(word, 2);
      memory[p + 2] := ByteOf(word, 1);
      memory[p + 3] := ByteOf(word, 0);
      memoryP := p + 4;
      assert memory[..memoryP] == before + WordBytes(word);
    }

    /** BitWriter_PutBits: appends the low nbits bits of val. */
    method PutBits(val: nat, nbits: nat)
      requires Valid() && !readMode && nbits <= 32
      requires Room(nbits)
      modifies this, memory
      ensures Valid() && !readMode && memory == old(memory)
      ensures Written() == old(Written()) + NatToBits(val, nbits)
      ensures memoryP == old(memoryP) + 4 * WordsStored(old(bitCount), nbits)
      ensures bitCount == CountAfter(old(bitCount), nbits)
      ensures forall i | 0 <= i < memory.Length && !(old(memoryP) <= i < memoryP) :: memory[i] == old(memory[i])
    {
      hide WriterRegister, WriterBits, NatToBits, BytesToBits, WordBytes, Low, Shr, Shl, Pow2,
        WordsStored, CountAfter;
      StepCounts(bitCount, nbits);
      if nbits == 0 {
        return;
      }
      ghost var bytes, b0, c0 := memory[..memoryP], bitBuffer, bitCount;
      if nbits >= bitCount {
        var rest := nbits - bitCount;
        var word := bitBuffer + Low(Shr(val, rest), bitCount);
        StoreWord(word);
        bitBuffer := 0;
        bitCount := 32;
        bitCount := bitCount - rest;
        bitBuffer := bitBuffer + Shl(Low(val, rest), bitCount);
        PutStore(bytes, b0, c0, val, nbits, rest, word, bitBuffer, bitCount);
      } else {
        bitCount := bitCount - nbits;
        bitBuffer := bitBuffer + Shl(Low(val, nbits), bitCount);
        PutPending(bytes, b0, c0, val, nbits, bitBuffer, bitCount);
      }
    }

    /** BitWriter_PutZeroRun: runlength zeros, then a one.  The count
        runlength + 1 is a 32-bit unsigned number, so it wraps to 0 for the
        largest runlength and nothing is written then. */
    method PutZeroRun(runlength: nat)
      requires Valid() && !readMode && runlength < WORD_LIMIT
      requires Room((runlength + 1) % WORD_LIMIT)
      modifies this, memory
      ensures Valid() && !readMode && memory == old(memory)
      ensures runlength + 1 < WORD_LIMIT ==> Written() == old(Written()) + Zeros(runlength) + [true]
      ensures runlength + 1 == WORD_LIMIT ==> Written() == old(Written())
      ensures memoryP == old(memoryP) + 4 * WordsStored(old(bitCount), (runlength + 1) % WORD_LIMIT)
      ensures bitCount == CountAfter(old(bitCount), (runlength + 1) % WORD_LIMIT)
    {
      hide Written, WriterRegister, WriterBits, NatToBits, BytesToBits, Zeros, Low, Shr, Shl, Pow2, WordsStored, CountAfter;
      var run := (runlength + 1) % WORD_LIMIT;
      ghost var total := run;
      WrapCount(runlength, total);
      ghost var w0 := Written();
      ghost var p0, c0 := memoryP, bitCount;
      while run > 31
        invariant Valid() && !readMode && memory == old(memory)
        invariant 0 <= run <= total && Room(run) && (total > 0 ==> run > 0)
        invariant Written() == w0 + Zeros(total - run)
        invariant memoryP + 4 * WordsStored(bitCount, run) == p0 + 4 * WordsStored(c0, total)
        invariant CountAfter(bitCount, run) == CountAfter(c0, total)
      {
        RoomSplit(memoryP, bitCount, 31, run - 31);
        CountAfterSplit(bitCount, 31, run - 31);
        PutBits(0, 31);
        ZeroRunStep(w0, total, run, 31);
        run := run - 31;
      }
      RoomSplit(memoryP, bitCount, run, 0);
      CountAfterSplit(bitCount, run, 0);
      PutBits(1, run);
      if run > 0 {
        assert Written() == w0 + Zeros(total - run) + NatToBits(1, run);
        ZeroRunEnd(w0, total, run);
        assert Written() == w0 + Zeros(total - 1) + [true];
        assert runlength + 1 < WORD_LIMIT;
      }
    }

    /** BitReader_GetBits: the next nbits bits, as a number.  A refill reads a
        whole word, so the buffer must hold four more bytes then. */
    method GetBits(nbits: nat) returns (v: nat)
      requires Valid() && readMode && nbits <= 32
      requires nbits > bitCount ==> memoryP + 4 <= memory.Length
      modifies this
      ensures Valid() && readMode && memory == old(memory)
      ensures Position() == old(Position()) + nbits
      ensures v == BitsToNat(Stream()[old(Position()) .. Position()])
      ensures nbits > old(bitCount) ==> memoryP == old(memoryP) + 4
      ensures nbits <= old(bitCount) ==> memoryP == old(memoryP)
    {
      hide ReaderRegister, NatToBits, BytesToBits, BitsToNat, Low, Shr, Shl, Pow2;
      ghost var s := Stream();
      if nbits == 0 {
        v := 0;
        EmptyValue(s, Position());
        return;
      }
      ghost var b0, c0 := bitBuffer, bitCount;
      if nbits <= bitCount {
        bitCount := bitCount - nbits;
        v := Low(Shr(bitBuffer, bitCount), nbits);
        ReaderTake(s, memoryP, b0, c0, nbits, bitCount);
        return;
      }
      var rest := nbits - bitCount;
      var tmp := Shl(Low(bitBuffer, bitCount), rest);
      var p := memoryP;
      var word := WordAt(memory[..], p);
      bitBuffer := word;
      memoryP := p + 4;
      bitCount := 32;
      bitCount := bitCount - rest;
      v := tmp + Low(Shr(bitBuffer, bitCount), rest);
      ReaderRefill(memory[..], s, p, b0, c0, rest, word, tmp, v, bitCount);
    }

    /** BitReader_GetZeroRunLength: counts zeros up to the next one, and
        consumes that one too.  The one, at some bit k, must lie within the
        buffer. */
    method GetZeroRunLength(ghost k: nat) returns (run: nat)
      requires Valid() && readMode
      requires Position() <= k < |Stream()| && Stream()[k]
      modifies this
      ensures Valid() && readMode && memory == old(memory)
      ensures Position() == old(Position()) + run + 1
      ensures Stream()[old(Position()) .. old(Position()) + run] == Zeros(run)
      ensures Stream()[old(Position()) + run]
    {
      hide ReaderRegister, NatToBits, BytesToBits, Low, Shr, Shl, Pow2, Nlz, Zeros;
      ghost var s := Stream();
      ghost var pos0 := Position();
      run := HeadZeroRun();
      ZerosBefore(s, pos0, pos0 + run, k);
      while bitCount == 0
        invariant Valid() && readMode && memory == old(memory) && Stream() == s
        invariant Position() == pos0 + run
        invariant s[pos0 .. pos0 + run] == Zeros(run)
        invariant bitCount > 0 ==> s[pos0 + run]
        invariant pos0 + run <= k
        decreases memory.Length - memoryP
      {
        var tmpRun := ReadRunByte();
        RunStep(s, pos0, run, tmpRun, k);
        run := run + tmpRun;
      }
      TakeOne();
    }

    /** The last step of BitReader_GetZeroRunLength: the one after the zeros
        is consumed. */
    method TakeOne()
      requires Valid() && readMode && bitCount > 0
      modifies this
      ensures Valid() && readMode && memory == old(memory) && Position() == old(Position()) + 1
    {
      hide ReaderRegister, NatToBits, BytesToBits, Low, Shr, Shl, Pow2, BitsToNat;
      ghost var b1, c1 := bitBuffer, bitCount;
      bitCount := bitCount - 1;
      ReaderTake(Stream(), memoryP, b1, c1, 1, bitCount);
    }

    /** The first step of BitReader_GetZeroRunLength: the zeros at the head
        of the register, counted with BITSTREAM_NLZ, are consumed. */
    method HeadZeroRun() returns (run: nat)
      requires Valid() && readMode
      modifies this
      ensures Valid() && readMode && memory == old(memory) && memoryP == old(memoryP)
      ensures Position() == old(Position()) + run
      ensures Stream()[old(Position()) .. Position()] == Zeros(run)
      ensures bitCount > 0 ==> Stream()[Position()]
    {
      hide ReaderRegister, NatToBits, BytesToBits, Low, Shr, Shl, Pow2, Nlz, Zeros;
      ghost var b0, c0 := bitBuffer, bitCount;
      HeadRunFits(bitBuffer, bitCount);
      run := Nlz(Low(bitBuffer, bitCount)) + bitCount - 32;
      bitCount := bitCount - run;
      ReaderHeadRun(Stream(), memoryP, b0, c0, run, bitCount);
    }

    /** The body of the loop in BitReader_GetZeroRunLength: with the register
        empty, loads the next byte and counts the zeros at its head with the
        table. */
    method ReadRunByte() returns (tmpRun: nat)
      requires Valid() && readMode && bitCount == 0 && memoryP < memory.Length
      modifies this
      ensures Valid() && readMode && memory == old(memory)
      ensures memoryP == old(memoryP) + 1 && Position() == old(Position()) + tmpRun
      ensures Stream()[old(Position()) .. Position()] == Zeros(tmpRun)
      ensures bitCount > 0 ==> Stream()[Position()]
    {
      hide ReaderRegister, NatToBits, BytesToBits, Low, Shr, Shl, Pow2, ZeroRunLengthTable, Zeros;
      ghost var p := memoryP;
      bitBuffer := memory[memoryP];
      memoryP := memoryP + 1;
      tmpRun := ZeroRunLengthTable(bitBuffer);
      bitCount := 8 - tmpRun;
      ReaderByteRun(memory[..], Stream(), p, bitBuffer, tmpRun, bitCount);
    }

    /** BitStream_Flush for a reader: steps back over the whole unread bytes
        still in the register, so the cursor lands on the next byte boundary. */
    method ReaderFlush()
      requires Valid() && readMode
      modifies this
      ensures Valid() && readMode && memory == old(memory)
      ensures memoryP == old(FlushedCursor())
      ensures bitCount == 0 && bitBuffer == 0
      ensures 8 * memoryP == (old(Position()) + 7) / 8 * 8
    {
      hide ReaderRegister, NatToBits, BytesToBits, Low, Shr, Shl, Pow2;
      ghost var p0, c0 := memoryP, bitCount;
      ByteBoundary(p0, c0);
      memoryP := memoryP - bitCount / 8;
      bitBuffer := 0;
      bitCount := 0;
      ReaderEmpty(Stream(), memoryP);
    }

    /** BitStream_Flush for a writer: pads the pending bits with zeros to a
        byte boundary and stores the bytes that hold them. */
    method WriterFlush()
      requires Valid() && !readMode && FlushFits()
      modifies this, memory
      ensures Valid() && !readMode && memory == old(memory)
      ensures bitCount == 32 && bitBuffer == 0
      ensures memoryP == old(FlushedCursor())
      ensures Written() == old(Written()) + Zeros(8 * memoryP - |old(Written())|)
      ensures memory[memoryP..] == old(memory[FlushedCursor()..])
    {
      hide WriterRegister, WriterBits, NatToBits, BytesToBits, WordBytes, Low, Shr, Shl, Pow2, Zeros;
      if bitCount < 32 {
        var remainbits := 32 - bitCount;
        ghost var bytes, b0, c0 := memory[..memoryP], bitBuffer, bitCount;
        var p := memoryP;
        PendingBytes(remainbits);
        WordBytesAt(b0);
        StorePending(p, bitBuffer, remainbits);
        memoryP := p + (remainbits + 7) / 8;
        SpliceParts(memory[..], old(memory[..]), p, WordBytes(b0)[..(remainbits + 7) / 8]);
        bitCount := 32;
        bitBuffer := 0;
        FlushPending(bytes, b0, c0, (remainbits + 7) / 8);
        WriterEmpty(memory[..memoryP]);
      } else {
        WriterFull(bitBuffer);
        PadNothing(Written());
      }
    }

    /** The stores of BitStream_Flush for a writer: the bytes of the register
        word that hold its remainbits pending bits, most significant first. */
    method StorePending(p: nat, word: nat, remainbits: nat)
      requires memory != null && 0 < remainbits <= 32
      requires p + (remainbits + 7) / 8 <= memory.Length
      modifies memory
      ensures memory[..] == old(memory[..p]) + WordBytes(word)[..(remainbits + 7) / 8]
                            + old(memory[p + (remainbits + 7) / 8 ..])
    {
      hide *;
      PendingBytes(remainbits);
      WordBytesAt(word);
      ghost var w := WordBytes(word);
      if remainbits > 24 {
        memory[p] := ByteOf(word, 3);
        memory[p + 1] := ByteOf(word, 2);
        memory[p + 2] := ByteOf(word, 1);
        memory[p + 3] := ByteOf(word, 0);
        Spliced(memory[..], old(memory[..]), p, w[..4]);
      } else if remainbits > 16 {
        memory[p] := ByteOf(word, 3);
        memory[p + 1] := ByteOf(word, 2);
        memory[p + 2] := ByteOf(word, 1);
        Spliced(memory[..], old(memory[..]), p, w[..3]);
      } else if remainbits > 8 {
        memory[p] := ByteOf(word, 3);
        memory[p + 1] := ByteOf(word, 2);
        Spliced(memory[..], old(memory[..]), p, w[..2]);
      } else {
        memory[p] := ByteOf(word, 3);
        Spliced(memory[..], old(memory[..]), p, w[..1]);
      }
    }

    /** BitStream_Flush. */
    method Flush()
      requires Valid() && FlushFits()
      modifies this, memory
      ensures Valid() && readMode == old(readMode) && memory == old(memory)
      ensures memoryP == old(FlushedCursor())
      ensures readMode ==> bitCount == 0 && bitBuffer == 0 && memory[..] == old(memory[..])
      ensures !readMode ==> bitCount == 32 && bitBuffer == 0
      ensures !readMode ==> Written() == old(Written()) + Zeros(8 * memoryP - |old(Written())|)
    {
      if readMode {
        ReaderFlush();
      } else {
        WriterFlush();
      }
    }

    /** BitStream_Seek: flushes, then moves the cursor to a byte offset from
        the start, the flushed cursor, or the last byte. */
    method Seek(offset: int, origin: SeekOrigin)
      requires Valid() && FlushFits()
      requires 0 <= offset + match origin
        case SeekCur => FlushedCursor()
        case SeekSet => 0
        case SeekEnd => memory.Length - 1
      requires offset + (match origin
        case SeekCur => FlushedCursor()
        case SeekSet => 0
        case SeekEnd => memory.Length - 1) < memory.Length
      modifies this, memory
      ensures Valid() && readMode == old(readMode) && memory == old(memory)
      ensures memoryP == offset + match origin
        case SeekCur => old(FlushedCursor())
        case SeekSet => 0
        case SeekEnd => memory.Length - 1
      ensures readMode ==> bitCount == 0 && memory[..] == old(memory[..])
      ensures !readMode ==> bitCount == 32 && bitBuffer == 0 && Written() == BytesToBits(memory[..memoryP])
    {
      hide WriterRegister, WriterBits, NatToBits, BytesToBits, Zeros, Low, Shr, Shl, Pow2;
      Flush();
      var pos := match origin
        case SeekCur => memoryP
        case SeekSet => 0
        case SeekEnd => memory.Length - 1;
      memoryP := pos + offset;
      if readMode {
        ReaderEmpty(BytesToBits(memory[..]), memoryP);
      } else {
        WriterEmpty(memory[..memoryP]);
      }
    }

    /** BitStream_Tell: the cursor's byte offset from the start. */
    method Tell() returns (r: int)
      requires Valid()
      ensures r == memoryP
      ensures !readMode ==> 8 * r == |Written()| - (32 - bitCount)
      ensures readMode ==> 8 * r == Position() + bitCount
    {
      r := memoryP;
    }

    /** BitStream_Close: flushes, then clears the register and forgets the
        buffer.  The count keeps the value the flush left. */
    method Close()
      requires Valid() && FlushFits()
      modifies this, memory
      ensures memory == null && memoryP == 0 && bitBuffer == 0 && !readMode
      ensures bitCount == if old(readMode) then 0 else 32
      ensures !old(readMode) ==>
        BytesToBits(old(memory)[..old(FlushedCursor())])
          == old(Written()) + Zeros(8 * old(FlushedCursor()) - |old(Written())|)
      ensures old(readMode) ==> old(memory)[..] == old(memory[..])
    {
      Flush();
      if !readMode {
        WriterEmpty(memory[..memoryP]);
      }
      bitBuffer := 0;
      memory := null;
      memoryP := 0;
      readMode := false;
    }
  }

  /** Padding with no zeros. */
  /** The whole bytes a reader's flush steps back over leave its cursor on
      the byte boundary at or after the reader's position. */
  lemma ByteBoundary(p: nat, c: nat)
    requires c <= 32 && c <= 8 * p
    ensures c / 8 <= p && 8 * (p - c / 8) == (8 * p - c + 7) / 8 * 8
  {
    var q, r := c / 8, c % 8;
    assert c == 8 * q + r;
    if r == 0 {
      assert 8 * p - c + 7 == 8 * (p - q) + 7;
    } else {
      assert 8 * p - c + 7 == 8 * (p - q - 1) + (15 - r);
    }
  }

  /** A buffer that differs from m0 only in holding w from p on. */
  lemma Spliced(m: seq<byte>, m0: seq<byte>, p: nat, w: seq<byte>)
    requires p + |w| <= |m| == |m0|
    requires forall i | 0 <= i < |m| :: m[i] == if p <= i < p + |w| then w[i - p] else m0[i]
    ensures m == m0[..p] + w + m0[p + |w|..]
  {
  }

  lemma SpliceParts(m: seq<byte>, m0: seq<byte>, p: nat, w: seq<byte>)
    requires p + |w| <= |m0| && m == m0[..p] + w + m0[p + |w|..]
    ensures m[..p + |w|] == m0[..p] + w && m[p + |w|..] == m0[p + |w|..]
  {
  }

  lemma PadNothing(w: seq<bool>)
    ensures w + Zeros(0) == w
  {
    assert Zeros(0) == [];
  }

  /** The empty slice spells 0. */
  lemma EmptyValue(s: seq<bool>, i: nat)
    requires i <= |s|
    ensures BitsToNat(s[i..i]) == 0
  {
  }

  /** runlength + 1 as a 32-bit unsigned number. */
  lemma WrapCount(runlength: nat, total: nat)
    requires runlength < WORD_LIMIT && total == (runlength + 1) % WORD_LIMIT
    ensures runlength + 1 < WORD_LIMIT ==> total == runlength + 1
    ensures runlength + 1 == WORD_LIMIT ==> total == 0
  {
  }

  /** Putting d more zeros extends the zero run written so far. */
  lemma ZeroRunStep(w0: seq<bool>, total: nat, run: nat, d: nat)
    requires d <= run <= total
    ensures w0 + Zeros(total - run) + NatToBits(0, d) == w0 + Zeros(total - (run - d))
  {
    NatToBitsZero(d);
    ZerosConcat(total - run, d);
  }

  /** The closing one after the run. */
  lemma ZeroRunEnd(w0: seq<bool>, total: nat, run: nat)
    requires 0 < run <= total
    ensures w0 + Zeros(total - run) + NatToBits(1, run) == w0 + Zeros(total - 1) + [true]
  {
    NatToBitsZero(run - 1);
    assert NatToBits(1, run) == Zeros(run - 1) + [true];
    ZerosConcat(total - run, run - 1);
  }

  lemma ZerosConcat(a: nat, b: nat)
    ensures Zeros(a) + Zeros(b) == Zeros(a + b)
  {
    assert Zeros(a) + Zeros(b) == Zeros(a + b);
  }

}
