/**
 * The register arithmetic of libs/bit_stream, on plain values.
 *
 * A writer keeps its pending bits in the high end of a 32-bit register
 * `buf`, above `c` free bits that are zero; what it has produced so far is
 * the bytes already stored followed by those pending bits (`WriterBits`).
 * A reader keeps in its register the `c` bits of the input that end at the
 * byte cursor `p` (`ReaderRegister`).  The lemmas here say what each step
 * of the C operations does to these two invariants.
 */
module BitRegisters {
  import opened Bits

  /** 2^32: every register value is below it. */
  const WORD_LIMIT: nat := 0x1_0000_0000

  /** Number of 32-bit words the writer stores when n bits are put while
      32 - c bits are pending. */
  function WordsStored(c: nat, n: nat): nat
    requires c <= 32
  {
    (32 - c + n) / 32
  }

  /** The writer's free-bit count after putting n bits. */
  function CountAfter(c: nat, n: nat): nat
    requires c <= 32
  {
    32 - (32 - c + n) % 32
  }

  /** Room for n1 + n2 bits splits into room for n1, then room for n2. */
  lemma RoomSplit(p: nat, c: nat, n1: nat, n2: nat)
    requires 1 <= c <= 32
    ensures CountAfter(c, n1) <= 32
    ensures p + 4 * WordsStored(c, n1) + 4 * WordsStored(CountAfter(c, n1), n2)
         == p + 4 * WordsStored(c, n1 + n2)
  {
    var a := 32 - c + n1;
    var q, r := a / 32, a % 32;
    assert a == 32 * q + r;
    var t := r + n2;
    MulDivMod(q, t % 32, 32);
    assert (32 - c + n1 + n2) == 32 * (q + t / 32) + t % 32;
    DivModUnique(32 - c + n1 + n2, 32, q + t / 32, t % 32);
  }

  /** (v >> 8k) & 0xFF: byte k of a word, counting from the least
      significant. */
  function ByteOf(v: nat, k: nat): byte
  {
    Pow2Byte();
    Low(Shr(v, 8 * k), 8)
  }

  /** A word as the writer stores it: four bytes, most significant first. */
  function WordBytes(v: nat): seq<byte>
  {
    [ByteOf(v, 3), ByteOf(v, 2), ByteOf(v, 1), ByteOf(v, 0)]
  }

  lemma WordBytesAt(v: nat)
    ensures |WordBytes(v)| == 4
    ensures WordBytes(v)[0] == ByteOf(v, 3) && WordBytes(v)[1] == ByteOf(v, 2)
    ensures WordBytes(v)[2] == ByteOf(v, 1) && WordBytes(v)[3] == ByteOf(v, 0)
  {
  }

  /** The stored bytes carry the word's 32 bits in order. */
  lemma WordBits(v: nat)
    ensures BytesToBits(WordBytes(v)) == NatToBits(v, 32)
  {
    var w := WordBytes(v);
    assert w == [w[0]] + [w[1]] + [w[2]] + [w[3]];
    BytesToBitsAppend([w[0]] + [w[1]] + [w[2]], [w[3]]);
    BytesToBitsAppend([w[0]] + [w[1]], [w[2]]);
    BytesToBitsAppend([w[0]], [w[1]]);
    BytesToBitsOne(w[0]);
    BytesToBitsOne(w[1]);
    BytesToBitsOne(w[2]);
    BytesToBitsOne(w[3]);
    Split(v, 24, 8, 32);
    Split(Shr(v, 8), 16, 8, 24);
    ShrShr(v, 8, 8, 16);
    Split(Shr(v, 16), 8, 8, 16);
    ShrShr(v, 16, 8, 24);
    assert Shr(v, 0) == v;
    LowBits(v, 8, 8);
    LowBits(Shr(v, 8), 8, 8);
    LowBits(Shr(v, 16), 8, 8);
    LowBits(Shr(v, 24), 8, 8);
  }

  /** The stored bytes of a word, read back big-endian, carry its bits. */
  lemma {:induction false} FromBEBits(s: seq<byte>)
    ensures BytesToBits(s) == NatToBits(FromBE(s), 8 * |s|)
  {
    if |s| > 0 {
      var s', b := s[..|s| - 1], s[|s| - 1];
      FromBEBits(s');
      AppendByte(FromBE(s'), b, 8 * |s'|, 8 * |s|, FromBE(s));
    }
  }

  /** Appending a byte below a k-bit number, as FromBE does. */
  lemma AppendByte(h: nat, b: byte, k: nat, w: nat, v: nat)
    requires w == k + 8 && v == 256 * h + b
    ensures NatToBits(v, w) == NatToBits(h, k) + NatToBits(b, 8)
  {
    hide NatToBits, Shl, Pow2;
    Pow2Byte();
    ShlByte(h);
    Compose(h, b, 8, k, w);
  }

  lemma ShlByte(h: nat)
    ensures Shl(h, 8) == 256 * h
  {
    Pow2Byte();
    ShlMul(h, 8);
  }

  /** The number of significant bits of x. */
  function BitLength(x: nat): (r: nat)
  {
    if x == 0 then 0 else 1 + BitLength(x / 2)
  }

  /** In a c-bit field holding x, the first c - BitLength(x) bits are zero
      and, when x > 0, the next one is set. */
  lemma {:induction false} LeadingZeros(x: nat, c: nat)
    requires x < Pow2(c)
    ensures BitLength(x) <= c
    ensures NatToBits(x, c)[..c - BitLength(x)] == Zeros(c - BitLength(x))
    ensures x > 0 ==> NatToBits(x, c)[c - BitLength(x)]
  {
    if c == 0 {
    } else if x == 0 {
      NatToBitsZero(c);
    } else {
      LeadingZeros(x / 2, c - 1);
      var z := c - BitLength(x);
      assert NatToBits(x, c) == NatToBits(x / 2, c - 1) + [x % 2 == 1];
      if x / 2 == 0 {
        assert x == 1;
        NatToBitsZero(c - 1);
      }
    }
  }

  lemma BitLengthBound(x: nat, c: nat)
    requires c <= 32 && x < Pow2(c)
    ensures BitLength(x) <= c
  {
    LeadingZeros(x, c);
  }

  /** BITSTREAM_NLZ: the number of leading zero bits of a 32-bit word
      (32 for 0).  The default build computes it with a compiler builtin. */
  function Nlz(x: nat): (r: nat)
    requires x < WORD_LIMIT
    ensures r <= 32
    ensures NatToBits(x, 32)[..r] == Zeros(r)
    ensures x > 0 ==> r < 32 && NatToBits(x, 32)[r]
  {
    WordLeadingZeros(x);
    32 - BitLength(x)
  }

  lemma WordLeadingZeros(x: nat)
    requires x < WORD_LIMIT
    ensures BitLength(x) <= 32
    ensures NatToBits(x, 32)[..32 - BitLength(x)] == Zeros(32 - BitLength(x))
    ensures x > 0 ==> NatToBits(x, 32)[32 - BitLength(x)]
  {
    Pow2Word();
    LeadingZeros(x, 32);
  }

  /** x has exactly c significant bits when 2^(c-1) <= x < 2^c. */
  lemma {:induction false} BitLengthRange(x: nat, c: nat)
    requires 1 <= c && Pow2(c - 1) <= x < Pow2(c)
    ensures BitLength(x) == c
  {
    if c > 1 {
      BitLengthRange(x / 2, c - 1);
    }
  }

  /** g_bitstream_zerobit_runlength_table: leading zeros of a byte, 8 for 0.
      The table is laid out as runs of 128, 64, ..., 1 equal entries. */
  function ZeroRunLengthTable(b: byte): (r: nat)
    ensures r == 8 - BitLength(b)
  {
    Pow2Byte();
    if b >= 128 then BitLengthRange(b, 8); 0
    else if b >= 64 then BitLengthRange(b, 7); 1
    else if b >= 32 then BitLengthRange(b, 6); 2
    else if b >= 16 then BitLengthRange(b, 5); 3
    else if b >= 8 then BitLengthRange(b, 4); 4
    else if b >= 4 then BitLengthRange(b, 3); 5
    else if b >= 2 then BitLengthRange(b, 2); 6
    else if b >= 1 then BitLengthRange(b, 1); 7
    else 8
  }

  /** The table entry counts the zeros at the head of the byte's k = 8 bits,
      which are followed by a one unless the byte is 0. */
  lemma TableZeros(b: byte, k: nat, t: nat)
    requires k == 8 && t == ZeroRunLengthTable(b)
    ensures t <= k && NatToBits(b, k)[..t] == Zeros(t)
    ensures b > 0 ==> t < k && NatToBits(b, k)[t]
  {
    Pow2Byte();
    LeadingZeros(b, k);
  }

  /** Writer: OR-ing the low n bits of val, shifted up by the new count
      c', into a register with c free bits puts them right after the pending
      ones.  The bits are disjoint, so the C `|=` is an addition here.  (The
      new register and count are parameters so that the facts are stated on
      the very terms a caller holds.) */
  lemma AppendPending(buf: nat, c: nat, val: nat, n: nat, nb: nat, c': nat)
    requires n <= c <= 32 && buf < WORD_LIMIT && Low(buf, c) == 0
    requires c' == c - n && nb == buf + Shl(Low(val, n), c')
    ensures nb < WORD_LIMIT && Low(nb, c') == 0
    ensures NatToBits(Shr(nb, c'), 32 - c') == NatToBits(Shr(buf, c), 32 - c) + NatToBits(val, n)
  {
    var p := Shr(buf, c);
    var x := Low(val, n);
    var q := Shl(p, n) + x;
    HighPart(buf, c, n, c', p);
    ShiftIn(buf, n, c', p, x, q, nb);
    ShlUndo(q, c');
    PendingBound(buf, c, p);
    Compose(p, x, n, 32 - c, 32 - c');
    LowBits(val, n, n);
    WordBound(p, x, n, 32 - c, 32 - c', q, nb, c');
  }

  /** A register whose low c bits are clear is its high part p shifted back
      up, in two steps of n and c'. */
  lemma HighPart(buf: nat, c: nat, n: nat, c': nat, p: nat)
    requires c' + n == c && Low(buf, c) == 0 && p == Shr(buf, c)
    ensures buf == Shl(Shl(p, n), c')
  {
    Decompose(buf, c);
    ShlShl(p, n, c', c);
  }

  /** Adding x shifted by c' to p shifted by n + c' is q = (p << n) + x
      shifted by c'. */
  lemma ShiftIn(buf: nat, n: nat, c': nat, p: nat, x: nat, q: nat, nb: nat)
    requires buf == Shl(Shl(p, n), c')
    requires q == Shl(p, n) + x && nb == buf + Shl(x, c')
    ensures nb == Shl(q, c')
  {
    ShlAdd(Shl(p, n), x, c');
  }

  /** The pending part of a word register fits in its 32 - c bits. */
  lemma PendingBound(buf: nat, c: nat, p: nat)
    requires c <= 32 && buf < WORD_LIMIT && p == Shr(buf, c)
    ensures p < Pow2(32 - c)
  {
    Pow2Word();
    ShrBound(buf, 32 - c, c, 32);
  }

  /** A k-bit p above an n-bit x, shifted up by c' = 32 - k - n, is a word. */
  lemma WordBound(p: nat, x: nat, n: nat, k: nat, w: nat, q: nat, nb: nat, c': nat)
    requires w == k + n && w + c' == 32 && p < Pow2(k) && x < Pow2(n)
    requires q == Shl(p, n) + x && nb == Shl(q, c')
    ensures nb < WORD_LIMIT
  {
    ComposeBound(p, x, n, k, w);
    ShlBound(q, c', w, 32);
    Pow2Word();
  }

  /** Writer: the word-storing branch of BitWriter_PutBits.  The stored word
      and the new pending bits together are the old pending bits followed by
      the n new ones. */
  lemma StoreStep(buf: nat, c: nat, val: nat, n: nat, rest: nat, word: nat, nb: nat, c': nat)
    requires 1 <= c <= n <= 32 && buf < WORD_LIMIT && Low(buf, c) == 0
    requires rest == n - c && word == buf + Low(Shr(val, rest), c)
    requires c' == 32 - rest && nb == 0 + Shl(Low(val, rest), c')
    ensures word < WORD_LIMIT && nb < WORD_LIMIT && Low(nb, c') == 0
    ensures NatToBits(word, 32) + NatToBits(Shr(nb, c'), 32 - c')
         == NatToBits(Shr(buf, c), 32 - c) + NatToBits(val, n)
  {
    NoShift(Low(Shr(val, rest), c));
    AppendPending(buf, c, Shr(val, rest), c, word, 0);
    NoShift(word);
    FreshPending(val, rest, nb, c');
    Split(val, c, rest, n);
  }

  /** Writer: the first pending bits of an emptied register. */
  lemma FreshPending(val: nat, rest: nat, nb: nat, c': nat)
    requires rest <= 32 && c' == 32 - rest && nb == 0 + Shl(Low(val, rest), c')
    ensures nb < WORD_LIMIT && Low(nb, c') == 0
    ensures NatToBits(Shr(nb, c'), 32 - c') == NatToBits(val, rest)
  {
    ShlUndo(Low(val, rest), c');
    LowBits(val, rest, rest);
    ShlBound(Low(val, rest), c', rest, 32);
    Pow2Word();
  }

  /** Writer: a register with c free bits is its pending bits then c zeros. */
  lemma PendingThenZeros(buf: nat, c: nat)
    requires c <= 32 && Low(buf, c) == 0
    ensures NatToBits(buf, 32) == NatToBits(Shr(buf, c), 32 - c) + Zeros(c)
  {
    Split(buf, 32 - c, c, 32);
    LowBits(buf, c, c);
    NatToBitsZero(c);
  }

  /** A prefix of a zero-padded string is the string padded less. */
  lemma PaddedPrefix(a: seq<bool>, n: nat, m: nat)
    requires |a| <= m <= |a| + n
    ensures (a + Zeros(n))[..m] == a + Zeros(m - |a|)
  {
  }

  /** Reader: taking the first n of the c unread bits of the register, which
      are the bits of the stream ending at bit e, leaves c' of them. */
  lemma TakeBits(buf: nat, c: nat, n: nat, s: seq<bool>, e: nat, c': nat)
    requires n <= c <= e <= |s| && NatToBits(buf, c) == s[e - c .. e] && c' == c - n
    ensures NatToBits(buf, c') == s[e - c' .. e]
    ensures Low(Shr(buf, c'), n) == BitsToNat(s[e - c .. e - c'])
  {
    hide NatToBits, Low, Shr, Shl, BitsToNat, Pow2;
    Split(buf, n, c', c);
    SliceSplit(s, e - c, e - c', e);
    AppendInj(NatToBits(Shr(buf, c'), n), NatToBits(buf, c'), s[e - c .. e - c'], s[e - c' .. e]);
    BitsToNatLow(Shr(buf, c'), n);
  }

  /** Reader: the refilling branch of BitReader_GetBits, which moves the end
      of the register from bit e to bit e2 = e + 32.  The c bits left in the
      register, shifted up, and the first rest bits of the new word spell the
      c + rest bits of the stream from the old position. */
  lemma RefillStep(buf: nat, c: nat, rest: nat, word: nat, s: seq<bool>, e: nat, e2: nat,
                   tmp: nat, v: nat, c': nat)
    requires 0 < rest && c + rest <= 32 && c <= e && e2 == e + 32 && e2 <= |s|
    requires NatToBits(buf, c) == s[e - c .. e] && NatToBits(word, 32) == s[e .. e2]
    requires c' == 32 - rest && tmp == Shl(Low(buf, c), rest) && v == tmp + Low(Shr(word, c'), rest)
    ensures NatToBits(word, c') == s[e2 - c' .. e2]
    ensures v == BitsToNat(s[e - c .. e2 - c'])
  {
    hide NatToBits, Low, Shr, Shl, BitsToNat, Pow2;
    TakeBits(word, 32, rest, s, e2, c');
    assert e2 - 32 == e;
    RegisterValue(buf, c, s, e);
    ConcatValue(s, e - c, e, e2 - c', Low(buf, c), Low(Shr(word, c'), rest), rest, v);
  }

  /** Reader: the unread bits of the register, as a number. */
  lemma RegisterValue(buf: nat, c: nat, s: seq<bool>, e: nat)
    requires c <= e <= |s| && NatToBits(buf, c) == s[e - c .. e]
    ensures Low(buf, c) == BitsToNat(s[e - c .. e])
  {
    BitsToNatLow(buf, c);
  }

  /** The number spelled by adjacent slices i..j and j..k. */
  lemma ConcatValue(s: seq<bool>, i: nat, j: nat, k: nat, hi: nat, lo: nat, m: nat, v: nat)
    requires i <= j <= k <= |s| && m == k - j
    requires hi == BitsToNat(s[i..j]) && lo == BitsToNat(s[j..k]) && v == Shl(hi, m) + lo
    ensures v == BitsToNat(s[i..k])
  {
    SliceSplit(s, i, j, k);
    BitsToNatConcat(s[i..j], s[j..k]);
  }

  /** Reader: the zeros at the head of the register, as BITSTREAM_NLZ counts
      them in BitReader_GetZeroRunLength; c' bits remain after them. */
  lemma HeadRun(buf: nat, c: nat, s: seq<bool>, e: nat, run: nat, c': nat)
    requires c <= 32 && c <= e <= |s| && NatToBits(buf, c) == s[e - c .. e]
    requires Low(buf, c) < WORD_LIMIT && run == Nlz(Low(buf, c)) + c - 32 && c' == c - run
    ensures s[e - c .. e - c'] == Zeros(run)
    ensures NatToBits(buf, c') == s[e - c' .. e]
    ensures c' > 0 ==> s[e - c']
  {
    hide NatToBits, Low, Shr, Shl, BitsToNat, Pow2, Zeros;
    HeadZeros(buf, c, s, e, Low(buf, c), c');
    TakeBits(buf, c, run, s, e, c');
  }

  /** Reader: the unread bits of the register start with c - BitLength(x)
      zeros, x being their value, and then with a one if any is left. */
  lemma HeadZeros(buf: nat, c: nat, s: seq<bool>, e: nat, x: nat, bl: nat)
    requires c <= e <= |s| && NatToBits(buf, c) == s[e - c .. e]
    requires x == Low(buf, c) && bl == BitLength(x)
    ensures bl <= c && s[e - c .. e - bl] == Zeros(c - bl)
    ensures bl > 0 ==> s[e - bl]
  {
    LeadingZeros(x, c);
    LowBits(buf, c, c);
    assert s[e - c .. e][..c - bl] == s[e - c .. e - bl];
    if bl > 0 {
      assert s[e - c .. e][c - bl] == s[e - bl];
    }
  }

  /** Reader: the low c bits of the register fit a word, and the zeros at
      their head number at most c. */
  lemma HeadRunFits(buf: nat, c: nat)
    requires c <= 32
    ensures Low(buf, c) < WORD_LIMIT && 32 <= Nlz(Low(buf, c)) + c
  {
    Pow2Monotone(c, 32);
    Pow2Word();
    LeadingZeros(Low(buf, c), c);
  }

  /** Reader: the zeros at the head of a fresh byte of k = 8 bits read to
      end at bit e, by the table; k - t bits remain after them. */
  lemma ByteRun(b: byte, k: nat, s: seq<bool>, e: nat, t: nat, c': nat)
    requires k == 8 && k <= e <= |s| && NatToBits(b, k) == s[e - k .. e]
    requires t == ZeroRunLengthTable(b) && c' == k - t
    ensures s[e - k .. e - c'] == Zeros(t) && NatToBits(b, c') == s[e - c' .. e]
    ensures c' > 0 ==> s[e - c']
  {
    hide NatToBits, Low, Shr, Shl, BitsToNat, Pow2, Zeros, ZeroRunLengthTable;
    TableZeros(b, k, t);
    Split(b, t, c', k);
    SliceSplit(s, e - k, e - c', e);
    AppendInj(NatToBits(Shr(b, c'), t), NatToBits(b, c'), s[e - k .. e - c'], s[e - c' .. e]);
  }

  /** The bits of a byte range are the matching range of the bits. */
  lemma BitsOfRange(s: seq<byte>, i: nat, j: nat)
    requires i <= j <= |s|
    ensures BytesToBits(s)[8 * i .. 8 * j] == BytesToBits(s[i..j])
  {
    hide BytesToBits;
    var a, b, c := s[..i], s[i..j], s[j..];
    SliceSplit(s, 0, i, j);
    SliceSplit(s, 0, j, |s|);
    assert s[0..j] == s[..j] && s[0..i] == a && s[0..|s|] == s && s[j..|s|] == c;
    BytesToBitsAppend(a + b, c);
    BytesToBitsAppend(a, b);
    MiddleSlice(BytesToBits(a), BytesToBits(b), BytesToBits(c));
  }

  lemma MiddleSlice<T>(x: seq<T>, y: seq<T>, z: seq<T>)
    ensures (x + y + z)[|x| .. |x| + |y|] == y
  {
  }


  /* ---------------------------------------------------------------- */
  /* The two register invariants and what each operation does to them. */
  /* ---------------------------------------------------------------- */

  /** A writer register: a 32-bit word whose low c bits, 1 <= c <= 32, are
      free and clear. */
  ghost predicate WriterRegister(buf: nat, c: nat)
  {
    buf < WORD_LIMIT && 1 <= c <= 32 && Low(buf, c) == 0
  }

  /** Everything a writer has produced: the stored bytes, then the 32 - c
      pending bits of the register. */
  ghost function WriterBits(bytes: seq<byte>, buf: nat, c: nat): (r: seq<bool>)
    requires c <= 32
    ensures |r| == 8 * |bytes| + 32 - c
  {
    BytesToBits(bytes) + NatToBits(Shr(buf, c), 32 - c)
  }

  /** A reader register: its c bits are the bits of the input s that end at
      byte p. */
  ghost predicate ReaderRegister(s: seq<bool>, p: nat, buf: nat, c: nat)
  {
    buf < WORD_LIMIT && c <= 32 && c <= 8 * p <= |s| && NatToBits(buf, c) == s[8 * p - c .. 8 * p]
  }

  /** A writer register with all 32 bits free is 0. */
  lemma WriterFull(buf: nat)
    requires WriterRegister(buf, 32)
    ensures buf == 0
  {
    Pow2Word();
    Small(buf, 32);
  }

  /** An emptied writer register holds nothing pending. */
  lemma WriterEmpty(bytes: seq<byte>)
    ensures WriterRegister(0, 32) && WriterBits(bytes, 0, 32) == BytesToBits(bytes)
  {
    ZeroShifts(32);
    Pow2Word();
    assert NatToBits(Shr(0, 32), 0) == [];
  }

  /** BitWriter_PutBits without a store: the n bits go after the pending
      ones. */
  lemma PutPending(bytes: seq<byte>, buf: nat, c: nat, val: nat, n: nat, nb: nat, c': nat)
    requires WriterRegister(buf, c) && n < c && c' == c - n && nb == buf + Shl(Low(val, n), c')
    ensures WriterRegister(nb, c') && nb < WORD_LIMIT
    ensures WriterBits(bytes, nb, c') == WriterBits(bytes, buf, c) + NatToBits(val, n)
  {
    AppendPending(buf, c, val, n, nb, c');
  }

  /** BitWriter_PutBits with a store: the register filled up with the high
      bits of val is stored as a word, and the rest of val starts the next
      register. */
  lemma PutStore(bytes: seq<byte>, buf: nat, c: nat, val: nat, n: nat, rest: nat, word: nat,
                 nb: nat, c': nat)
    requires WriterRegister(buf, c) && c <= n <= 32
    requires rest == n - c && word == buf + Low(Shr(val, rest), c)
    requires c' == 32 - rest && nb == 0 + Shl(Low(val, rest), c')
    ensures WriterRegister(nb, c') && nb < WORD_LIMIT
    ensures WriterBits(bytes + WordBytes(word), nb, c') == WriterBits(bytes, buf, c) + NatToBits(val, n)
  {
    hide NatToBits, BytesToBits, Low, Shr, Shl, Pow2, BitsToNat, Zeros, FromBE;
    StoreStep(buf, c, val, n, rest, word, nb, c');
    StoredWord(bytes, word);
    Regroup(BytesToBits(bytes), NatToBits(word, 32), NatToBits(Shr(nb, c'), 32 - c'),
            NatToBits(Shr(buf, c), 32 - c), NatToBits(val, n));
  }

  lemma Regroup<T>(a: seq<T>, b: seq<T>, c: seq<T>, d: seq<T>, e: seq<T>)
    requires b + c == d + e
    ensures (a + b) + c == (a + d) + e
  {
    assert (a + b) + c == a + (b + c);
    assert (a + d) + e == a + (d + e);
  }

  lemma StoredWord(bytes: seq<byte>, word: nat)
    ensures BytesToBits(bytes + WordBytes(word)) == BytesToBits(bytes) + NatToBits(word, 32)
  {
    WordBits(word);
    BytesToBitsAppend(bytes, WordBytes(word));
  }

  /** BitStream_Flush for a writer: the first k bytes of the register word,
      k being the pending bits rounded up to bytes, are the pending bits
      padded with zeros. */
  lemma FlushPending(bytes: seq<byte>, buf: nat, c: nat, k: nat)
    requires WriterRegister(buf, c) && c < 32 && k == (32 - c + 7) / 8
    ensures 1 <= k <= 4
    ensures BytesToBits(bytes + WordBytes(buf)[..k]) == WriterBits(bytes, buf, c) + Zeros(8 * k - (32 - c))
  {
    PendingThenZeros(buf, c);
    WordBits(buf);
    BytesToBitsPrefix(WordBytes(buf), k);
    BytesToBitsAppend(bytes, WordBytes(buf)[..k]);
    PaddedPrefix(NatToBits(Shr(buf, c), 32 - c), c, 8 * k);
  }

  /** The bytes BitStream_Flush stores for remainbits pending bits. */
  lemma PendingBytes(remainbits: nat)
    requires 0 < remainbits <= 32
    ensures (remainbits + 7) / 8 == if remainbits > 24 then 4 else if remainbits > 16 then 3
                                     else if remainbits > 8 then 2 else 1
  {
  }

  /** An empty reader register, anywhere in the input. */
  lemma ReaderEmpty(s: seq<bool>, p: nat)
    requires 8 * p <= |s|
    ensures ReaderRegister(s, p, 0, 0)
  {
  }

  /** BitReader_GetBits without a refill: the first n of the register's bits
      are the next n bits of the input. */
  lemma ReaderTake(s: seq<bool>, p: nat, buf: nat, c: nat, n: nat, c': nat)
    requires ReaderRegister(s, p, buf, c) && n <= c && c' == c - n
    ensures ReaderRegister(s, p, buf, c')
    ensures Low(Shr(buf, c'), n) == BitsToNat(s[8 * p - c .. 8 * p - c'])
  {
    TakeBits(buf, c, n, s, 8 * p, c');
  }

  /** The big-endian word at byte p of m, as BitReader_GetBits assembles it
      from four bytes. */
  function WordAt(m: seq<byte>, p: nat): (r: nat)
    requires p + 4 <= |m|
    ensures r == FromBE(m[p..p + 4]) && r < WORD_LIMIT
  {
    WordAtBE(m[p..p + 4]);
    Pow2Word();
    m[p] as nat * 0x100_0000 + m[p + 1] as nat * 0x1_0000 + m[p + 2] as nat * 0x100 + m[p + 3] as nat
  }

  lemma WordAtBE(w: seq<byte>)
    requires |w| == 4
    ensures FromBE(w) == w[0] as nat * 0x100_0000 + w[1] as nat * 0x1_0000 + w[2] as nat * 0x100 + w[3] as nat
  {
    var w1, w2, w3 := w[..1], w[..2], w[..3];
    assert w3[..2] == w2 && w2[..1] == w1 && w1[..0] == [];
    assert FromBE(w1) == w[0];
    assert FromBE(w2) == 256 * w[0] as nat + w[1] as nat;
    assert FromBE(w3) == 256 * FromBE(w2) + w[2];
    assert FromBE(w) == 256 * FromBE(w3) + w[3];
  }

  /** BitReader_GetBits with a refill: the register's remaining c bits,
      shifted up, and the first rest bits of the next word are the next
      c + rest bits of the input; the word's other bits stay unread. */
  lemma ReaderRefill(m: seq<byte>, s: seq<bool>, p: nat, buf: nat, c: nat, rest: nat,
                     word: nat, tmp: nat, v: nat, c': nat)
    requires s == BytesToBits(m) && ReaderRegister(s, p, buf, c) && p + 4 <= |m|
    requires 0 < rest && c + rest <= 32 && word == WordAt(m, p)
    requires c' == 32 - rest && tmp == Shl(Low(buf, c), rest) && v == tmp + Low(Shr(word, c'), rest)
    ensures ReaderRegister(s, p + 4, word, c')
    ensures v == BitsToNat(s[8 * p - c .. 8 * (p + 4) - c'])
  {
    hide NatToBits, BytesToBits, Low, Shr, Shl, Pow2, BitsToNat, Zeros, FromBE, ReaderRegister;
    ReaderParts(s, p, buf, c);
    WordInStream(m, s, p, word);
    RefillStep(buf, c, rest, word, s, 8 * p, 8 * (p + 4), tmp, v, c');
    ReaderJoin(s, p + 4, word, c');
  }

  lemma ReaderParts(s: seq<bool>, p: nat, buf: nat, c: nat)
    requires ReaderRegister(s, p, buf, c)
    ensures buf < WORD_LIMIT && c <= 32 && c <= 8 * p <= |s| && NatToBits(buf, c) == s[8 * p - c .. 8 * p]
  {
  }

  lemma ReaderJoin(s: seq<bool>, p: nat, buf: nat, c: nat)
    requires buf < WORD_LIMIT && c <= 32 && c <= 8 * p <= |s| && NatToBits(buf, c) == s[8 * p - c .. 8 * p]
    ensures ReaderRegister(s, p, buf, c)
  {
  }

  lemma WordInStream(m: seq<byte>, s: seq<bool>, p: nat, word: nat)
    requires s == BytesToBits(m) && p + 4 <= |m| && word == FromBE(m[p..p + 4])
    ensures word < WORD_LIMIT && NatToBits(word, 32) == s[8 * p .. 8 * (p + 4)]
  {
    FromBEBits(m[p..p + 4]);
    BitsOfRange(m, p, p + 4);
    Pow2Word();
  }

  /** BitReader_GetZeroRunLength, first step: the zeros at the head of the
      register, counted with BITSTREAM_NLZ. */
  lemma ReaderHeadRun(s: seq<bool>, p: nat, buf: nat, c: nat, run: nat, c': nat)
    requires ReaderRegister(s, p, buf, c)
    requires Low(buf, c) < WORD_LIMIT && run == Nlz(Low(buf, c)) + c - 32 && c' == c - run
    ensures ReaderRegister(s, p, buf, c')
    ensures s[8 * p - c .. 8 * p - c'] == Zeros(run)
    ensures c' > 0 ==> s[8 * p - c']
  {
    hide NatToBits, Low, Shr, Shl, BitsToNat, Pow2, Zeros;
    HeadRun(buf, c, s, 8 * p, run, c');
  }

  /** BitReader_GetZeroRunLength, loop step: a fresh byte and the zeros at
      its head, counted with the table. */
  lemma ReaderByteRun(m: seq<byte>, s: seq<bool>, p: nat, b: byte, t: nat, c': nat)
    requires s == BytesToBits(m) && p < |m| && b == m[p]
    requires t == ZeroRunLengthTable(b) && c' == 8 - t
    ensures ReaderRegister(s, p + 1, b, c')
    ensures s[8 * p .. 8 * (p + 1) - c'] == Zeros(t)
    ensures c' > 0 ==> s[8 * (p + 1) - c']
  {
    hide NatToBits, BytesToBits, Low, Shr, Shl, BitsToNat, Pow2, Zeros, ZeroRunLengthTable;
    var k := 8;
    ByteInStream(m, s, p, k);
    ByteRun(b, k, s, 8 * (p + 1), t, c');
    Pow2Word();
  }

  lemma ByteInStream(m: seq<byte>, s: seq<bool>, p: nat, k: nat)
    requires s == BytesToBits(m) && p < |m| && k == 8
    ensures |s| == 8 * |m| && NatToBits(m[p], k) == s[8 * p .. 8 * (p + 1)]
  {
    BitsOfRange(m, p, p + 1);
    assert m[p..p + 1] == [m[p]];
    BytesToBitsOne(m[p]);
  }

  /** A one at k after zeros up to j means k is not before j. */
  lemma ZerosBefore(s: seq<bool>, i: nat, j: nat, k: nat)
    requires i <= j <= |s| && s[i..j] == Zeros(j - i) && i <= k < |s| && s[k]
    ensures j <= k
  {
    assert forall t | i <= t < j :: s[t] == s[i..j][t - i];
  }

  /** BitReader_GetZeroRunLength, the run after a loop step: the t zeros
      of the fresh byte extend the run, which still ends before the one at
      k. */
  lemma RunStep(s: seq<bool>, pos0: nat, run: nat, t: nat, k: nat)
    requires pos0 + run + t <= |s|
    requires s[pos0 .. pos0 + run] == Zeros(run) && s[pos0 + run .. pos0 + run + t] == Zeros(t)
    requires pos0 + run <= k < |s| && s[k]
    ensures s[pos0 .. pos0 + run + t] == Zeros(run + t) && pos0 + run + t <= k
  {
    ZerosJoin(s, pos0, pos0 + run, pos0 + run + t);
    ZerosBefore(s, pos0, pos0 + run + t, k);
  }

  /** Zero runs over adjacent slices join. */
  lemma ZerosJoin(s: seq<bool>, i: nat, j: nat, k: nat)
    requires i <= j <= k <= |s| && s[i..j] == Zeros(j - i) && s[j..k] == Zeros(k - j)
    ensures s[i..k] == Zeros(k - i)
  {
    SliceSplit(s, i, j, k);
  }

  /** What one BitWriter_PutBits of n bits does to the counts. */
  lemma StepCounts(c: nat, n: nat)
    requires 1 <= c <= 32 && n <= 32
    ensures WordsStored(c, n) == if n >= c then 1 else 0
    ensures CountAfter(c, n) == if n >= c then 32 - (n - c) else c - n
  {
    if n >= c {
      DivModUnique(32 - c + n, 32, 1, n - c);
    } else {
      DivModUnique(32 - c + n, 32, 0, 32 - c + n);
    }
  }

  lemma CountAfterSplit(c: nat, n1: nat, n2: nat)
    requires 1 <= c <= 32
    ensures CountAfter(CountAfter(c, n1), n2) == CountAfter(c, n1 + n2)
  {
    var a := 32 - c + n1;
    var r := a % 32;
    var t := r + n2;
    assert a == 32 * (a / 32) + r;
    DivModUnique(32 - c + n1 + n2, 32, a / 32 + t / 32, t % 32);
  }
}
