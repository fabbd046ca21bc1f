/**
 * The code words of srla_coder.c as bit strings, most significant bit
 * first: the gamma code used for parameter deltas, the Rice code, and the
 * two-stage "recursive Rice" code with parameters k1 and k2.  The stream
 * methods that write and read them are proved against these functions.
 */
module SrlaCodes {
  import opened Bits
  import opened BitRegisters
  import opened SrlaUtility

  /** SRLACODER_LOG2_MAX_NUM_PARTITIONS: the width of the partition order. */
  const LOG2_MAX_NUM_PARTITIONS: nat := 10
  /** SRLACODER_RICE_PARAMETER_BITS: the width of the first parameter. */
  const RICE_PARAMETER_BITS: nat := 5

  /* ---------------------------------------------------------------- */
  /* The gamma code.                                                   */
  /* ---------------------------------------------------------------- */

  /** LOG2CEIL(u + 2) for u >= 1: the number of binary digits of u + 1. */
  function GammaDigits(u: nat): (nd: nat)
    requires 1 <= u && u + 2 < WORD_LIMIT
    ensures 2 <= nd <= 32 && Pow2(nd - 1) <= u + 1 < Pow2(nd)
  {
    var nd := Log2Ceil(u + 2);
    GammaDigitsRange(u, nd);
    nd
  }

  lemma GammaDigitsRange(u: nat, nd: nat)
    requires 1 <= u && u + 2 < WORD_LIMIT && nd == Log2Ceil(u + 2)
    ensures 2 <= nd <= 32 && Pow2(nd - 1) <= u + 1 < Pow2(nd)
  {
    assert Pow2(1) == 2;
  }

  /** SRLACODER_GAMMA_BITS. */
  function GammaBits(u: nat): nat
    requires u + 2 < WORD_LIMIT
  {
    if u == 0 then 1 else 2 * GammaDigits(u) - 1
  }

  /** The word Gamma_PutCode writes: a single one for 0, otherwise nd - 1
      zeros followed by the nd digits of u + 1.  Its length is
      SRLACODER_GAMMA_BITS(u). */
  function GammaCode(u: nat): (c: seq<bool>)
    requires u + 2 < WORD_LIMIT
    ensures |c| == GammaBits(u)
    ensures u == 0 <==> c == [true]
  {
    if u == 0 then [true]
    else
      var nd := GammaDigits(u);
      assert |Zeros(nd - 1) + NatToBits(u + 1, nd)| > 1;
      Zeros(nd - 1) + NatToBits(u + 1, nd)
  }

  /** Gamma_GetCode's view of a word for u >= 1: a run of nd - 1 zeros, the
      leading one of u + 1, then nd - 1 digits that spell u + 1 - 2^(nd-1). */
  lemma GammaShape(u: nat, nd: nat, rest: nat)
    requires 1 <= u && u + 2 < WORD_LIMIT && nd == GammaDigits(u) && rest + Pow2(nd - 1) == u + 1
    ensures rest < Pow2(nd - 1)
    ensures GammaCode(u) == Zeros(nd - 1) + [true] + NatToBits(rest, nd - 1)
    ensures BitsToNat(NatToBits(rest, nd - 1)) == rest
  {
    hide *;
    var p := Pow2(nd - 1);
    Pow2Add(1, nd - 1);
    Pow2Values();
    GammaCodeDigits(u);
    NatToBitsOne();
    NatToBitsSplit(u + 1, 1, nd - 1, 1, rest);
    BitsToNatOfNatToBits(rest, nd - 1);
    DivModUnique(rest, p, 0, rest);
  }

  /** For u >= 1 the gamma word is nd - 1 zeros and the nd digits of u + 1. */
  lemma GammaCodeDigits(u: nat)
    requires 1 <= u && u + 2 < WORD_LIMIT
    ensures GammaCode(u) == Zeros(GammaDigits(u) - 1) + NatToBits(u + 1, GammaDigits(u))
  {
  }

  /** Gamma_GetCode's result `(1 << (nd - 1)) + bits - 1`, in 32-bit
      unsigned arithmetic, is u again. */
  lemma GammaValue(u: nat, nd: nat, rest: nat, bits: nat)
    requires 1 <= u && u + 2 < WORD_LIMIT && nd == GammaDigits(u) && rest + Pow2(nd - 1) == u + 1
    requires bits == BitsToNat(NatToBits(rest, nd - 1))
    ensures Shl(1, nd - 1) + bits >= 1
    ensures (Shl(1, nd - 1) + bits - 1) % WORD_LIMIT == u
  {
    hide *;
    GammaShape(u, nd, rest);
    OneShifted(nd - 1);
    DivModUnique(u, WORD_LIMIT, 0, u);
  }

  /** `1 << k` is 2^k. */
  lemma OneShifted(k: nat)
    ensures Shl(1, k) == Pow2(k)
  {
    ShlMul(1, k);
  }

  /* ---------------------------------------------------------------- */
  /* The Rice code.                                                    */
  /* ---------------------------------------------------------------- */

  /** Rice_GetCodeLength: 1 + k + (u >> k). */
  function RiceCodeLength(k: nat, u: nat): nat
  {
    1 + k + Shr(u, k)
  }

  /** The word Rice_PutCode writes: the quotient u >> k in unary (that many
      zeros and a one), then the k low bits of u.  Its length is
      Rice_GetCodeLength. */
  function RiceCode(k: nat, u: nat): (c: seq<bool>)
    ensures |c| == RiceCodeLength(k, u)
    ensures c[Shr(u, k)] && forall i | 0 <= i < Shr(u, k) :: !c[i]
  {
    Zeros(Shr(u, k)) + [true] + NatToBits(u, k)
  }

  /** Rice_GetCode rebuilds u from the quotient and the k low bits, in
      32-bit unsigned arithmetic. */
  lemma RiceValue(k: nat, u: nat)
    requires u < WORD_LIMIT
    ensures BitsToNat(NatToBits(u, k)) == Low(u, k)
    ensures (Shl(Shr(u, k), k) + Low(u, k)) % WORD_LIMIT == u
  {
    hide *;
    BitsToNatLow(u, k);
    Decompose(u, k);
  }

  /* ---------------------------------------------------------------- */
  /* The recursive Rice code.                                          */
  /* ---------------------------------------------------------------- */

  /** The per-sample length of the reference loop (kept under `#if 0`) in
      RecursiveRice_ComputeCodeLength. */
  function RecursiveRiceLength(k1: nat, k2: nat, u: nat): nat
  {
    if u < Pow2(k1) then k1 + 1 else k2 + 2 + Shr(u - Pow2(k1), k2)
  }

  /** The word RecursiveRice_PutCode writes: below 2^k1, a one and the k1
      low bits of u (the k1 + 1 bits of `2^k1 | u`); otherwise u - 2^k1 as
      a Rice code with parameter k2 whose unary quotient is one longer. */
  function RecursiveRiceCode(k1: nat, k2: nat, u: nat): (c: seq<bool>)
    ensures |c| == RecursiveRiceLength(k1, k2, u)
  {
    if u < Pow2(k1) then NatToBits(Pow2(k1) + u, k1 + 1)
    else Zeros(1 + Shr(u - Pow2(k1), k2)) + [true] + NatToBits(u - Pow2(k1), k2)
  }

  /** A first-stage word is a one followed by the k1 digits of u. */
  lemma FirstStageShape(k1: nat, u: nat)
    requires u < Pow2(k1)
    ensures NatToBits(Pow2(k1) + u, k1 + 1) == [true] + NatToBits(u, k1)
    ensures Shl(1, k1) == Pow2(k1)
    ensures BitsToNat(NatToBits(u, k1)) == u
  {
    hide *;
    ShlMul(1, k1);
    Compose(1, u, k1, 1, k1 + 1);
    NatToBitsOne();
    BitsToNatLow(u, k1);
    Small(u, k1);
  }

  /** RecursiveRice_GetCode with k1 = k2 + 1 rebuilds u.  A first-stage
      word has an empty zero run, so k2 + 1 = k1 bits follow; otherwise the
      run is q + 1 with q = (u - 2^k1) >> k2, k2 bits follow, and
      (q + 2) << k2 supplies both the quotient and the 2^k1 subtracted by
      the writer. */
  lemma RecursiveRiceValue(k1: nat, k2: nat, u: nat)
    requires k1 == k2 + 1 && u < WORD_LIMIT && u >= Pow2(k1)
    ensures var q := Shr(u - Pow2(k1), k2);
            BitsToNat(NatToBits(u - Pow2(k1), k2)) + Shl(q + 2, k2) % WORD_LIMIT == u
  {
    hide *;
    Pow2Add(1, k2);
    Pow2Values();
    var v := u - Pow2(k1);
    var q := Shr(v, k2);
    BitsToNatLow(v, k2);
    Decompose(v, k2);
    ShlAdd(q, 2, k2);
    ShlMul(2, k2);
    assert Shl(q + 2, k2) <= u;
    DivModUnique(Shl(q + 2, k2), WORD_LIMIT, 0, Shl(q + 2, k2));
  }

  /** The summand of the fast loop of RecursiveRice_ComputeCodeLength, on
      unsigned values: k1 + 1, plus the quotient when u >= 2^k1. */
  function FastSampleLength(k1: nat, k2: nat, u: nat): nat
  {
    k1 + 1 + (if u >= Pow2(k1) then Shr(u - Pow2(k1), k2) else 0)
  }

  /** With k1 = k2 + 1 the fast summand is the reference length. */
  lemma FastSampleLengthCorrect(k1: nat, k2: nat, u: nat)
    requires k1 == k2 + 1
    ensures FastSampleLength(k1, k2, u) == RecursiveRiceLength(k1, k2, u) == |RecursiveRiceCode(k1, k2, u)|
  {
  }

  /** `(int32_t)x` for a 32-bit unsigned x, on a two's-complement target. */
  function Int32(x: nat): (r: int)
    requires x < WORD_LIMIT
    ensures -0x8000_0000 <= r < 0x8000_0000 && r % WORD_LIMIT == x % WORD_LIMIT
  {
    if x < 0x8000_0000 then x else x - WORD_LIMIT
  }

  /** The fast summand as the source writes it:
      `MAX(0, (int32_t)u - (int32_t)k1pow) >> k2`, which reads a value of
      2^31 or more as negative. */
  function FastSampleLengthAsWritten(k1: nat, k2: nat, u: nat): nat
    requires k1 <= 30 && u < WORD_LIMIT
  {
    Pow2Monotone(k1, 30);
    Pow2Half();
    var d := Int32(u) - Int32(Pow2(k1));
    k1 + 1 + (if d > 0 then Shr(d, k2) else 0)
  }

  /** Below 2^31 the signed form agrees with the reference length. */
  lemma FastSampleLengthAsWrittenSmall(k1: nat, k2: nat, u: nat)
    requires k1 == k2 + 1 && k1 <= 30 && u < 0x8000_0000
    ensures FastSampleLengthAsWritten(k1, k2, u) == RecursiveRiceLength(k1, k2, u)
  {
    Pow2Monotone(k1, 30);
    Pow2Half();
    if u >= Pow2(k1) {
      assert Int32(u) - Int32(Pow2(k1)) == u - Pow2(k1);
      ZeroShifts(k2);
    }
  }

  /** A zig-zag value of 3 * 2^30 (a residual of 1.5 * 2^30) with k2 = 0
      is counted as 2 bits by the signed form, but its word is 3 * 2^30
      bits long. */
  lemma FastSampleLengthCounterexample()
    ensures FastSampleLengthAsWritten(1, 0, 0xC000_0000) == 2
    ensures RecursiveRiceLength(1, 0, 0xC000_0000) == 0xC000_0000
  {
    assert Pow2(1) == 2;
    assert Shr(0xC000_0000 - 2, 0) == 0xC000_0000 - 2;
  }
}
