/**
 * The put and get routines of srla_coder.c for single code words, on the
 * bit stream.  Each put appends exactly the word of SrlaCodes; each get,
 * started at such a word, returns the encoded value and consumes exactly
 * the word.  The reader refills its register a whole word at a time, so a
 * get asks for 32 bits of buffer beyond the word it reads.
 */
module CodeIO {
  import opened Bits
  import opened BitRegisters
  import opened BitStreams
  import opened SrlaUtility
  import opened SrlaCodes

  /** The reader's next bits are `bits`, and at least 32 more bits of buffer
      follow them. */
  ghost predicate Holds(stream: BitStream, bits: seq<bool>)
    reads stream, stream.memory
  {
    stream.Valid() && stream.readMode &&
    stream.Position() + |bits| + 32 <= |stream.Stream()| &&
    stream.Stream()[stream.Position() .. stream.Position() + |bits|] == bits
  }

  /** The writer has put n bits since it had cursor p0 and free count c0. */
  ghost predicate Advanced(stream: BitStream, p0: nat, c0: nat, n: nat)
    reads stream
    requires c0 <= 32
  {
    stream.memoryP == p0 + 4 * WordsStored(c0, n) && stream.bitCount == CountAfter(c0, n)
  }

  /** Reading the first part of a+b leaves the reader in front of b. */
  lemma HoldsRest(s: seq<bool>, p: nat, a: seq<bool>, b: seq<bool>)
    requires p + |a| + |b| <= |s| && s[p .. p + |a| + |b|] == a + b
    ensures s[p .. p + |a|] == a && s[p + |a| .. p + |a| + |b|] == b
  {
    assert s[p .. p + |a|] == (a + b)[..|a|];
    assert s[p + |a| .. p + |a| + |b|] == (a + b)[|a|..];
  }

  /** A window holding z zeros, a one and then `tail`. */
  lemma RunWindow(s: seq<bool>, p: nat, z: nat, tail: seq<bool>, code: seq<bool>)
    requires code == Zeros(z) + [true] + tail
    requires p + |code| <= |s| && s[p .. p + |code|] == code
    ensures s[p .. p + z] == Zeros(z) && s[p + z]
    ensures s[p + z + 1 .. p + |code|] == tail
  {
    assert s[p .. p + z] == code[..z];
    assert s[p + z] == code[z];
    assert s[p + z + 1 .. p + |code|] == code[z + 1 ..];
  }

  /** The zero run before a one has only one possible length. */
  lemma RunUnique(s: seq<bool>, p: nat, run: nat, z: nat)
    requires p + run < |s| && p + z < |s|
    requires s[p .. p + run] == Zeros(run) && s[p + run]
    requires s[p .. p + z] == Zeros(z) && s[p + z]
    ensures run == z
  {
  }

  /** With 32 bits of buffer beyond the bits still to be read, a refill
      finds its four bytes. */
  lemma RefillFits(p: nat, c: nat, len: nat, pos: nat, n: nat, left: nat)
    requires c <= 8 * p && pos == 8 * p - c && n <= left && pos + left + 32 <= 8 * len
    ensures n > c ==> p + 4 <= len
  {
  }

  /** Putting n1 bits and then n2 bits, starting with room for n1 + n2. */
  lemma TwoPuts(p0: nat, c0: nat, n1: nat, n2: nat, len: nat)
    requires 1 <= c0 <= 32 && p0 + 4 * WordsStored(c0, n1 + n2) <= len
    ensures CountAfter(c0, n1) <= 32
    ensures p0 + 4 * WordsStored(c0, n1) + 4 * WordsStored(CountAfter(c0, n1), n2) <= len
    ensures p0 + 4 * WordsStored(c0, n1) + 4 * WordsStored(CountAfter(c0, n1), n2) == p0 + 4 * WordsStored(c0, n1 + n2)
    ensures CountAfter(CountAfter(c0, n1), n2) == CountAfter(c0, n1 + n2)
  {
    RoomSplit(p0, c0, n1, n2);
    CountAfterSplit(c0, n1, n2);
  }

  /** Gamma_PutCode. */
  method GammaPutCode(stream: BitStream, val: nat)
    requires stream.Valid() && !stream.readMode && val + 2 < WORD_LIMIT
    requires stream.Room(GammaBits(val))
    modifies stream, stream.memory
    ensures stream.Valid() && !stream.readMode && stream.memory == old(stream.memory)
    ensures stream.Written() == old(stream.Written()) + GammaCode(val)
    ensures Advanced(stream, old(stream.memoryP), old(stream.bitCount), GammaBits(val))
  {
    hide NatToBits, Zeros, BytesToBits, BitsToNat, WriterBits, WriterRegister, ReaderRegister, Pow2, Shr, Shl, Low, Nlz, BitLength, WordsStored, CountAfter, Log2Ceil, BitStream.Written;
    if val == 0 {
      stream.PutBits(1, 1);
      NatToBitsOne();
      return;
    }
    var ndigit := Log2Ceil(val + 2);
    GammaDigitsRange(val, ndigit);
    TwoPuts(stream.memoryP, stream.bitCount, ndigit - 1, ndigit, stream.memory.Length);
    stream.PutBits(0, ndigit - 1);
    NatToBitsZero(ndigit - 1);
    stream.PutBits(val + 1, ndigit);
  }

  /** BitReader_GetZeroRunLength in front of z zeros and a one. */
  method ReadZeroRun(stream: BitStream, ghost z: nat, ghost after: seq<bool>) returns (run: nat)
    requires Holds(stream, Zeros(z) + [true] + after)
    modifies stream
    ensures run == z && Holds(stream, after)
    ensures stream.memory == old(stream.memory) && stream.Position() == old(stream.Position()) + z + 1
  {
    hide NatToBits, Zeros, BytesToBits, BitsToNat, ReaderRegister, Pow2, Shr, Shl, Low, Nlz, BitLength;
    ghost var s := stream.Stream();
    ghost var p := stream.Position();
    RunWindow(s, p, z, after, Zeros(z) + [true] + after);
    run := stream.GetZeroRunLength(p + z);
    RunUnique(s, p, run, z);
  }

  /** BitReader_GetBits in front of the n bits `bits`. */
  method ReadBits(stream: BitStream, n: nat, ghost bits: seq<bool>, ghost after: seq<bool>) returns (v: nat)
    requires n <= 32 && |bits| == n && Holds(stream, bits + after)
    modifies stream
    ensures v == BitsToNat(bits) && Holds(stream, after)
    ensures stream.memory == old(stream.memory) && stream.Position() == old(stream.Position()) + n
  {
    hide NatToBits, Zeros, BytesToBits, BitsToNat, ReaderRegister, Pow2, Shr, Shl, Low, Nlz, BitLength;
    ghost var s := stream.Stream();
    ghost var p := stream.Position();
    HoldsRest(s, p, bits, after);
    RefillFits(stream.memoryP, stream.bitCount, stream.memory.Length, p, n, n + |after|);
    v := stream.GetBits(n);
  }

  /** Gamma_GetCode. */
  method GammaGetCode(stream: BitStream, ghost u: nat, ghost rest: seq<bool>) returns (v: nat)
    requires u + 2 < WORD_LIMIT && Holds(stream, GammaCode(u) + rest)
    modifies stream
    ensures v == u && Holds(stream, rest)
    ensures stream.memory == old(stream.memory) && stream.Position() == old(stream.Position()) + |GammaCode(u)|
  {
    hide *;
    ghost var z: nat := if u == 0 then 0 else GammaDigits(u) - 1;
    ghost var low: nat := if u == 0 then 0 else u + 1 - Pow2(z);
    ghost var tail := NatToBits(low, z);
    if u > 0 {
      GammaShape(u, z + 1, low);
    }
    assert GammaCode(u) + rest == Zeros(z) + [true] + (tail + rest);
    var ndigit := ReadZeroRun(stream, z, tail + rest);
    ndigit := ndigit + 1;
    if ndigit == 1 {
      assert tail + rest == rest;
      return 0;
    }
    var bitsbuf := ReadBits(stream, ndigit - 1, tail, rest);
    GammaValue(u, ndigit, low, bitsbuf);
    v := (Shl(1, ndigit - 1) + bitsbuf - 1) % WORD_LIMIT;
  }

  /** Rice_PutCode.  The one ending the unary quotient is counted by
      PutZeroRun as `run + 1`, a 32-bit unsigned number; the model asks
      that it does not wrap. */
  method RicePutCode(stream: BitStream, k: nat, uval: nat)
    requires stream.Valid() && !stream.readMode && k < 32 && uval < WORD_LIMIT
    requires Shr(uval, k) + 1 < WORD_LIMIT
    requires stream.Room(RiceCodeLength(k, uval))
    modifies stream, stream.memory
    ensures stream.Valid() && !stream.readMode && stream.memory == old(stream.memory)
    ensures stream.Written() == old(stream.Written()) + RiceCode(k, uval)
    ensures Advanced(stream, old(stream.memoryP), old(stream.bitCount), RiceCodeLength(k, uval))
  {
    hide NatToBits, Zeros, BytesToBits, BitsToNat, WriterBits, WriterRegister, ReaderRegister, Pow2, Shr, Shl, Low, Nlz, BitLength, WordsStored, CountAfter, Log2Ceil, BitStream.Written;
    var q := Shr(uval, k);
    TwoPuts(stream.memoryP, stream.bitCount, q + 1, k, stream.memory.Length);
    stream.PutZeroRun(q);
    stream.PutBits(uval, k);
  }

  /** Rice_GetCode. */
  method RiceGetCode(stream: BitStream, k: nat, ghost u: nat, ghost rest: seq<bool>) returns (v: nat)
    requires k <= 32 && u < WORD_LIMIT && Holds(stream, RiceCode(k, u) + rest)
    modifies stream
    ensures v == u && Holds(stream, rest)
    ensures stream.memory == old(stream.memory) && stream.Position() == old(stream.Position()) + RiceCodeLength(k, u)
  {
    hide NatToBits, Zeros, BytesToBits, BitsToNat, WriterBits, WriterRegister, ReaderRegister, Pow2, Shr, Shl, Low, Nlz, BitLength, WordsStored, CountAfter, Log2Ceil, Holds;
    ghost var tail := NatToBits(u, k);
    assert RiceCode(k, u) + rest == Zeros(Shr(u, k)) + [true] + (tail + rest);
    var quot := ReadZeroRun(stream, Shr(u, k), tail + rest);
    var uval := ReadBits(stream, k, tail, rest);
    RiceValue(k, u);
    v := (Shl(quot, k) + uval) % WORD_LIMIT;
  }

  /** RecursiveRice_PutCode (the macro and the function have the same
      body).  `k1pow | uval` below 2^k1 is a sum of disjoint bits. */
  method RecursiveRicePutCode(stream: BitStream, k1: nat, k2: nat, uval: nat)
    requires stream.Valid() && !stream.readMode && k1 < 32 && k2 < 32 && uval < WORD_LIMIT
    requires uval >= Pow2(k1) ==> Shr(uval - Pow2(k1), k2) + 2 < WORD_LIMIT
    requires stream.Room(RecursiveRiceLength(k1, k2, uval))
    modifies stream, stream.memory
    ensures stream.Valid() && !stream.readMode && stream.memory == old(stream.memory)
    ensures stream.Written() == old(stream.Written()) + RecursiveRiceCode(k1, k2, uval)
    ensures Advanced(stream, old(stream.memoryP), old(stream.bitCount), RecursiveRiceLength(k1, k2, uval))
  {
    hide NatToBits, Zeros, BytesToBits, BitsToNat, WriterBits, WriterRegister, ReaderRegister, Pow2, Shr, Shl, Low, Nlz, BitLength, WordsStored, CountAfter, Log2Ceil, BitStream.Written;
    var k1pow := Shl(1, k1);
    OneShifted(k1);
    if uval < k1pow {
      stream.PutBits(k1pow + uval, k1 + 1);
    } else {
      var rest := uval - k1pow;
      var q := Shr(rest, k2);
      assert RecursiveRiceLength(k1, k2, uval) == (q + 2) + k2;
      ghost var p0, c0, w0 := stream.memoryP, stream.bitCount, stream.Written();
      TwoPuts(p0, c0, q + 2, k2, stream.memory.Length);
      DivModUnique(q + 2, WORD_LIMIT, 0, q + 2);
      stream.PutZeroRun(1 + q);
      assert stream.memoryP == p0 + 4 * WordsStored(c0, q + 2) && stream.bitCount == CountAfter(c0, q + 2);
      stream.PutBits(rest, k2);
      assert stream.memoryP == p0 + 4 * WordsStored(c0, (q + 2) + k2) && stream.bitCount == CountAfter(c0, (q + 2) + k2);
      assert stream.Written() == w0 + (Zeros(1 + q) + [true] + NatToBits(rest, k2));
    }
  }

  /** RecursiveRice_GetCode, which asserts k1 = k2 + 1: a first-stage word
      has no leading zero, and then k2 + 1 bits follow. */
  method RecursiveRiceGetCode(stream: BitStream, k1: nat, k2: nat, ghost u: nat, ghost rest: seq<bool>) returns (uval: nat)
    requires k1 == k2 + 1 && k2 < 32 && u < WORD_LIMIT
    requires Holds(stream, RecursiveRiceCode(k1, k2, u) + rest)
    modifies stream
    ensures uval == u && Holds(stream, rest)
    ensures stream.memory == old(stream.memory)
    ensures stream.Position() == old(stream.Position()) + RecursiveRiceLength(k1, k2, u)
  {
    hide NatToBits, Zeros, BytesToBits, BitsToNat, WriterBits, WriterRegister, ReaderRegister, Pow2, Shr, Shl, Low, Nlz, BitLength, WordsStored, CountAfter, Log2Ceil, Holds;
    ghost var first := u < Pow2(k1);
    ghost var z: nat := if first then 0 else 1 + Shr(u - Pow2(k1), k2);
    ghost var tail := if first then NatToBits(u, k1) else NatToBits(u - Pow2(k1), k2);
    if first {
      FirstStageShape(k1, u);
      assert Zeros(0) + [true] == [true];
    }
    assert RecursiveRiceCode(k1, k2, u) + rest == Zeros(z) + [true] + (tail + rest);
    var quot := ReadZeroRun(stream, z, tail + rest);
    var nbits := k2 + (if quot == 0 then 1 else 0);
    var bits := ReadBits(stream, nbits, tail, rest);
    uval := bits + Shl(quot + (if quot != 0 then 1 else 0), k2) % WORD_LIMIT;
    if first {
      ZeroShifts(k2);
    } else {
      RecursiveRiceValue(k1, k2, u);
    }
  }
}
