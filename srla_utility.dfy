/**
 * The expression macros of srla_utility.h: sign, rounding, clamping, the
 * power-of-two test, the zig-zag map between signed and unsigned samples,
 * and the base-2 logarithms built on NLZ.
 *
 * C's unsigned arithmetic is written out where it wraps (LOG2CEIL of 0,
 * LOG2FLOOR of 0, `v - 1` in IS_POWERED_OF_2); everything else works on
 * mathematical integers.
 */
module SrlaUtility {
  import opened Bits
  import opened BitRegisters

  /** v is a power of two. */
  ghost predicate IsPowerOfTwo(v: nat)
  {
    exists k: nat :: v == Pow2(k)
  }

  /** SRLAUTILITY_SHIFT_RIGHT_ARITHMETIC on a platform whose `>>` on a
      signed value is arithmetic: division by 2^r rounded towards minus
      infinity. */
  function ShiftRightArithmetic(x: int, r: nat): (q: int)
    ensures q * Pow2(r) <= x < (q + 1) * Pow2(r)
  {
    FloorDiv(x, Pow2(r));
    x / Pow2(r)
  }

  lemma FloorDiv(x: int, d: nat)
    requires d > 0
    ensures (x / d) * d <= x < (x / d + 1) * d
  {
    assert x == (x / d) * d + x % d;
  }

  /** SRLAUTILITY_SIGN. */
  function Sign(v: int): (r: int)
    ensures v > 0 ==> r == 1
    ensures v == 0 ==> r == 0
    ensures v < 0 ==> r == -1
  {
    (if v > 0 then 1 else 0) - (if v < 0 then 1 else 0)
  }

  /** SRLAUTILITY_ROUNDUP: the least multiple of n not below val. */
  function RoundUp(val: nat, n: nat): (r: nat)
    requires n > 0
    ensures r % n == 0 && val <= r < val + n
  {
    RoundUpBounds(val, n, (val + (n - 1)) / n);
    (val + (n - 1)) / n * n
  }

  lemma RoundUpBounds(val: nat, n: nat, q: nat)
    requires n > 0 && q == (val + (n - 1)) / n
    ensures (q * n) % n == 0 && val <= q * n < val + n
  {
    var m := val + (n - 1);
    assert m == q * n + m % n;
    DivModUnique(q * n, n, q, 0);
  }

  /** SRLAUTILITY_MAX. */
  function Max(a: int, b: int): (r: int)
    ensures r >= a && r >= b && (r == a || r == b)
  {
    if a > b then a else b
  }

  /** SRLAUTILITY_MIN. */
  function Min(a: int, b: int): (r: int)
    ensures r <= a && r <= b && (r == a || r == b)
  {
    if a < b then a else b
  }

  /** SRLAUTILITY_INNER_VALUE: val clamped to [lo, hi]. */
  function InnerValue(val: int, lo: int, hi: int): (r: int)
    ensures lo <= hi ==> lo <= r <= hi
    ensures lo <= val <= hi ==> r == val
    ensures lo <= hi && val < lo ==> r == lo
    ensures lo <= hi && hi < val ==> r == hi
  {
    Min(hi, Max(lo, val))
  }

  /** The bitwise AND of two naturals. */
  function BitAnd(a: nat, b: nat): (r: nat)
    ensures r <= a && r <= b
  {
    if a == 0 || b == 0 then 0
    else 2 * BitAnd(a / 2, b / 2) + (if a % 2 == 1 && b % 2 == 1 then 1 else 0)
  }

  /** SRLAUTILITY_IS_POWERED_OF_2 on a 32-bit unsigned value: `v & (v - 1)`
      vanishes, `v - 1` wrapping to 0xFFFFFFFF for v = 0. */
  function IsPoweredOf2(v: nat): (r: bool)
    requires v < WORD_LIMIT
  {
    BitAnd(v, (v - 1) % WORD_LIMIT) == 0
  }

  /** The test holds exactly for 0 and the powers of two. */
  lemma IsPoweredOf2Correct(v: nat)
    requires v < WORD_LIMIT
    ensures IsPoweredOf2(v) <==> v == 0 || IsPowerOfTwo(v)
  {
    if v > 0 {
      AndPredecessor(v);
    }
  }

  /** v & (v - 1) == 0 exactly when v > 0 is a power of two. */
  lemma {:induction false} AndPredecessor(v: nat)
    requires v >= 1
    ensures BitAnd(v, v - 1) == 0 <==> IsPowerOfTwo(v)
  {
    if v == 1 {
      assert 1 == Pow2(0);
    } else if v % 2 == 0 {
      var a := v / 2;
      assert BitAnd(v, v - 1) == 2 * BitAnd(a, a - 1);
      AndPredecessor(a);
      DoublePowerOfTwo(a);
    } else {
      var a := v / 2;
      assert BitAnd(v, v - 1) == 2 * BitAnd(a, a);
      AndSelf(a);
      OddNotPowerOfTwo(v);
    }
  }

  lemma {:induction false} AndSelf(a: nat)
    ensures BitAnd(a, a) == a
  {
    if a > 0 {
      AndSelf(a / 2);
    }
  }

  lemma DoublePowerOfTwo(a: nat)
    requires a >= 1
    ensures IsPowerOfTwo(2 * a) <==> IsPowerOfTwo(a)
  {
    if IsPowerOfTwo(a) {
      var k: nat :| a == Pow2(k);
      assert 2 * a == Pow2(k + 1);
    }
    if IsPowerOfTwo(2 * a) {
      var k: nat :| 2 * a == Pow2(k);
      assert k != 0;
      assert a == Pow2(k - 1);
    }
  }

  lemma OddNotPowerOfTwo(v: nat)
    requires v > 1 && v % 2 == 1
    ensures !IsPowerOfTwo(v)
  {
    forall k: nat
      ensures Pow2(k) != v
    {
      if k > 0 {
        assert Pow2(k) == 2 * Pow2(k - 1);
      }
    }
  }


  /** SRLAUTILITY_SINT32_TO_UINT32: the zig-zag map, 0, -1, 1, -2, ... to
      0, 1, 2, 3, ... */
  function SignedToUnsigned(s: int): (u: nat)
    ensures s >= 0 ==> u == 2 * s
    ensures s < 0 ==> u == -2 * s - 1
  {
    if s < 0 then -2 * s - 1 else 2 * s
  }

  /** SRLAUTILITY_UINT32_TO_SINT32: `(u >> 1) ^ -(u & 1)`; the XOR with
      all ones for odd u is the complement, -(u >> 1) - 1. */
  function UnsignedToSigned(u: nat): (s: int)
  {
    if u % 2 == 0 then u / 2 else -(u / 2) - 1
  }

  lemma SignedRoundTrip(s: int)
    ensures UnsignedToSigned(SignedToUnsigned(s)) == s
  {
  }

  lemma UnsignedRoundTrip(u: nat)
    ensures SignedToUnsigned(UnsignedToSigned(u)) == u
  {
  }

  /** A b-bit signed value maps into b unsigned bits, and back. */
  lemma ZigZagBound(s: int, b: nat)
    requires b >= 1 && -(Pow2(b - 1) as int) <= s < Pow2(b - 1)
    ensures SignedToUnsigned(s) < Pow2(b)
  {
    assert Pow2(b) == 2 * Pow2(b - 1);
  }

  lemma UnsignedBound(u: nat, b: nat)
    requires b >= 1 && u < Pow2(b)
    ensures -(Pow2(b - 1) as int) <= UnsignedToSigned(u) < Pow2(b - 1)
  {
    assert Pow2(b) == 2 * Pow2(b - 1);
  }

  /** x has BitLength(x) significant bits. */
  lemma {:induction false} BitLengthBounds(x: nat)
    ensures x < Pow2(BitLength(x))
    ensures x >= 1 ==> BitLength(x) >= 1 && Pow2(BitLength(x) - 1) <= x
  {
    if x > 0 {
      BitLengthBounds(x / 2);
    }
  }

  /** SRLAUTILITY_LOG2CEIL: `32 - NLZ(x - 1)` in 32-bit unsigned arithmetic,
      so 32 for x = 0. */
  function Log2Ceil(x: nat): (r: nat)
    requires x < WORD_LIMIT
    ensures r <= 32
    ensures x == 0 ==> r == 32
    ensures x >= 1 ==> x <= Pow2(r) && (r == 0 || Pow2(r - 1) < x)
  {
    var y := (x - 1) % WORD_LIMIT;
    CeilBounds(x, y, Nlz(y));
    32 - Nlz(y)
  }

  lemma CeilBounds(x: nat, y: nat, z: nat)
    requires x < WORD_LIMIT && y == (x - 1) % WORD_LIMIT && z == Nlz(y)
    ensures z <= 32
    ensures x == 0 ==> z == 0
    ensures x >= 1 ==> x <= Pow2(32 - z) && (z == 32 || Pow2(32 - z - 1) < x)
  {
    hide NatToBits, Zeros, Pow2;
    BitLengthBounds(y);
    if x == 0 {
      Pow2Word();
      Pow2Half();
      BitLengthRange(y, 32);
    }
  }

  /** SRLAUTILITY_LOG2FLOOR: `31 - NLZ(x)` in 32-bit unsigned arithmetic,
      so 0xFFFFFFFF for x = 0. */
  function Log2Floor(x: nat): (r: nat)
    requires x < WORD_LIMIT
    ensures x == 0 ==> r == WORD_LIMIT - 1
    ensures x >= 1 ==> Pow2(r) <= x < Pow2(r + 1)
  {
    FloorBounds(x, Nlz(x));
    (31 - Nlz(x)) % WORD_LIMIT
  }

  lemma FloorBounds(x: nat, z: nat)
    requires x < WORD_LIMIT && z == Nlz(x)
    ensures x == 0 ==> z == 32
    ensures x >= 1 ==> z <= 31 && Pow2(31 - z) <= x < Pow2(31 - z + 1)
  {
    hide NatToBits, Zeros, Pow2;
    BitLengthBounds(x);
  }

  /** SRLAUTILITY_ROUNDUP2POWERED with the builtin NLZ: `1 << LOG2CEIL(x)`,
      the least power of two not below x.  The shift is defined for
      x <= 2^31. */
  function RoundUp2Powered(x: nat): (r: nat)
    requires 1 <= x <= 0x8000_0000
    ensures IsPowerOfTwo(r) && x <= r && (r == 1 || r / 2 < x)
  {
    var n := Log2Ceil(x);
    RoundUpExponent(x, n);
    Pow2(n)
  }

  lemma RoundUpExponent(x: nat, n: nat)
    requires 1 <= x <= 0x8000_0000 && n == Log2Ceil(x)
    ensures n <= 31 && (n == 0 || Pow2(n) / 2 == Pow2(n - 1))
    ensures IsPowerOfTwo(Pow2(n))
  {
    if n > 31 {
      Pow2Monotone(31, n - 1);
      Pow2Half();
    }
  }

  lemma Pow2Half()
    ensures Pow2(31) == 0x8000_0000
  {
    Pow2Word();
  }
}
