/**
 * Bit-level vocabulary shared by the model: powers of two, the
 * most-significant-bit-first bit strings that the stream writes, and the
 * big- and little-endian byte layouts used by the container and WAV formats.
 */
module Bits {

  /** An octet of a byte buffer. */
  type byte = x: int | 0 <= x < 256

  /** A value that may be missing. */
  datatype Option<T> = None | Some(value: T)

  function Pow2(n: nat): (r: nat)
    ensures r >= 1
  {
    if n == 0 then 1 else 2 * Pow2(n - 1)
  }

  lemma {:induction false} Pow2Add(a: nat, b: nat)
    ensures Pow2(a + b) == Pow2(a) * Pow2(b)
  {
    if b > 0 {
      Pow2Add(a, b - 1);
      calc {
        Pow2(a + b);
        2 * Pow2(a + (b - 1));
        2 * (Pow2(a) * Pow2(b - 1));
        Pow2(a) * (2 * Pow2(b - 1));
      }
    }
  }

  lemma {:induction false} Pow2Monotone(a: nat, b: nat)
    requires a <= b
    ensures Pow2(a) <= Pow2(b)
  {
    if a < b {
      Pow2Monotone(a, b - 1);
    }
  }

  lemma Pow2Values()
    ensures Pow2(1) == 2 && Pow2(2) == 4 && Pow2(3) == 8 && Pow2(4) == 16
    ensures Pow2(5) == 32 && Pow2(8) == 256 && Pow2(16) == 65536
    ensures Pow2(24) == 16777216 && Pow2(32) == 4294967296
  {
    assert Pow2(8) == 256;
    Pow2Add(8, 8);
    Pow2Add(16, 8);
    Pow2Add(16, 16);
  }

  lemma Pow2Byte()
    ensures Pow2(8) == 256
  {
  }

  lemma Pow2Word()
    ensures Pow2(32) == 0x1_0000_0000
  {
    hide Pow2;
    Pow2Byte();
    Pow2Add(8, 8);
    Pow2Add(16, 16);
  }

  /* ---------------------------------------------------------------- */
  /* Division facts, proved once so that callers stay linear.         */
  /* ---------------------------------------------------------------- */

  lemma MulSign(x: int, d: int)
    requires d > 0
    ensures x >= 1 ==> x * d >= d
    ensures x <= -1 ==> x * d <= -d
  {
    assert x * d - d == (x - 1) * d;
    assert x * d + d == (x + 1) * d;
  }

  lemma DivModUnique(v: int, d: int, q: int, r: int)
    requires d > 0 && 0 <= r < d && v == q * d + r
    ensures q == v / d && r == v % d
  {
    var q0, r0 := v / d, v % d;
    MulSign(q - q0, d);
    assert (q - q0) * d == r0 - r;
  }

  lemma DivDiv(v: nat, a: nat, b: nat)
    requires a > 0 && b > 0
    ensures v / a / b == v / (a * b)
    ensures (v % (a * b)) / a == (v / a) % b
    ensures (v % (a * b)) % a == v % a
  {
    var q1, r1 := v / a, v % a;
    var q2, r2 := q1 / b, q1 % b;
    DivDivStep(v, a, b, q1, r1, q2, r2);
    DivModUnique(v, a * b, q2, r2 * a + r1);
    DivModUnique(r2 * a + r1, a, r2, r1);
  }

  /** v = q1 a + r1 with q1 = q2 b + r2 is v = q2 (a b) + (r2 a + r1), the
      last term a remainder modulo a b. */
  lemma DivDivStep(v: int, a: int, b: int, q1: int, r1: int, q2: int, r2: int)
    requires a > 0 && b > 0 && 0 <= r1 < a && 0 <= r2 < b
    requires v == q1 * a + r1 && q1 == q2 * b + r2
    ensures v == q2 * (a * b) + (r2 * a + r1) && 0 <= r2 * a + r1 < a * b
  {
    assert q1 * a == q2 * (a * b) + r2 * a by {
      assert (q2 * b + r2) * a == q2 * b * a + r2 * a;
    }
    assert r2 * a <= (b - 1) * a by {
      MulLeft(r2, b - 1, a);
    }
    assert (b - 1) * a == a * b - a;
  }

  lemma MulLeft(x: int, y: int, a: int)
    requires x <= y && a >= 0
    ensures x * a <= y * a
  {
    assert y * a - x * a == (y - x) * a;
  }

  lemma MulDivMod(x: nat, y: nat, a: nat)
    requires a > 0 && y < a
    ensures (x * a + y) / a == x && (x * a + y) % a == y
  {
    DivModUnique(x * a + y, a, x, y);
  }

  lemma ModOfMultiple(x: nat, a: nat, b: nat)
    requires a > 0 && b > 0
    ensures (x * (a * b)) % a == 0
    ensures (x * (a * b)) / a == x * b
  {
    MulDivMod(x * b, 0, a);
    assert x * (a * b) == (x * b) * a;
  }

  /* ---------------------------------------------------------------- */
  /* Bit strings, most significant bit first.                          */
  /* ---------------------------------------------------------------- */

  function Zeros(n: nat): (r: seq<bool>)
    ensures |r| == n && forall i :: 0 <= i < n ==> !r[i]
  {
    if n == 0 then [] else Zeros(n - 1) + [false]
  }

  /** The low `n` bits of `v`, most significant first. */
  function NatToBits(v: nat, n: nat): (r: seq<bool>)
    ensures |r| == n
  {
    if n == 0 then [] else NatToBits(v / 2, n - 1) + [v % 2 == 1]
  }

  /** The number spelled by a bit string read most significant bit first. */
  function BitsToNat(b: seq<bool>): (r: nat)
    ensures r < Pow2(|b|)
  {
    if |b| == 0 then 0 else 2 * BitsToNat(b[..|b| - 1]) + (if b[|b| - 1] then 1 else 0)
  }

  lemma {:induction false} BitsToNatOfNatToBits(v: nat, n: nat)
    ensures BitsToNat(NatToBits(v, n)) == v % Pow2(n)
  {
    if n > 0 {
      var b := NatToBits(v, n);
      assert b[..n - 1] == NatToBits(v / 2, n - 1);
      BitsToNatOfNatToBits(v / 2, n - 1);
      DivDiv(v, 2, Pow2(n - 1));
      assert v % Pow2(n) == 2 * ((v / 2) % Pow2(n - 1)) + v % 2 by {
        var m := v % (2 * Pow2(n - 1));
        assert m == 2 * (m / 2) + m % 2;
      }
    }
  }

  lemma {:induction false} NatToBitsOfBitsToNat(b: seq<bool>)
    ensures NatToBits(BitsToNat(b), |b|) == b
  {
    if |b| > 0 {
      var n := |b|;
      var v := BitsToNat(b);
      MulDivMod(BitsToNat(b[..n - 1]), if b[n - 1] then 1 else 0, 2);
      NatToBitsOfBitsToNat(b[..n - 1]);
      assert b == b[..n - 1] + [b[n - 1]];
    }
  }

  lemma {:induction false} BitsToNatAppend(a: seq<bool>, b: seq<bool>)
    ensures BitsToNat(a + b) == BitsToNat(a) * Pow2(|b|) + BitsToNat(b)
  {
    if |b| > 0 {
      var ab := a + b;
      var b' := b[..|b| - 1];
      var bit := if b[|b| - 1] then 1 else 0;
      assert ab[..|ab| - 1] == a + b';
      assert ab[|ab| - 1] == b[|b| - 1];
      assert b[..|b| - 1] == b';
      BitsToNatAppend(a, b');
      var x, y := BitsToNat(a), BitsToNat(b');
      assert BitsToNat(b) == 2 * y + bit;
      assert Pow2(|b|) == 2 * Pow2(|b'|);
      DoubleShift(x, Pow2(|b'|), y, bit);
    } else {
      assert a + b == a;
    }
  }

  lemma DoubleShift(x: int, p: int, y: int, bit: int)
    ensures 2 * (x * p + y) + bit == x * (2 * p) + (2 * y + bit)
  {
  }

  /** Splitting an (a+b)-bit field into its top a bits, q, and its bottom
      b bits, r. */
  lemma {:induction false} NatToBitsSplit(v: nat, a: nat, b: nat, q: nat, r: nat)
    requires r < Pow2(b) && v == q * Pow2(b) + r
    ensures NatToBits(v, a + b) == NatToBits(q, a) + NatToBits(r, b)
  {
    if b == 0 {
      assert r == 0 && v == q;
    } else {
      var d := Pow2(b - 1);
      assert Pow2(b) == 2 * d;
      assert q * Pow2(b) == 2 * (q * d);
      DivModUnique(v, 2, q * d + r / 2, r % 2);
      NatToBitsSplit(v / 2, a, b - 1, q, r / 2);
      assert NatToBits(r, b) == NatToBits(r / 2, b - 1) + [r % 2 == 1];
    }
  }

  lemma {:induction false} NatToBitsMod(v: nat, n: nat, m: nat)
    requires n <= m
    ensures NatToBits(v % Pow2(m), n) == NatToBits(v, n)
  {
    if n > 0 {
      Pow2Add(1, m - 1);
      DivDiv(v, 2, Pow2(m - 1));
      NatToBitsMod(v / 2, n - 1, m - 1);
      assert (v % Pow2(m)) % 2 == v % 2 by {
        DivDiv(v, 2, Pow2(m - 1));
      }
    }
  }

  lemma NatToBitsOne()
    ensures NatToBits(1, 1) == [true]
  {
  }

  lemma {:induction false} NatToBitsZero(n: nat)
    ensures NatToBits(0, n) == Zeros(n)
  {
    if n > 0 {
      NatToBitsZero(n - 1);
    }
  }

  /* ---------------------------------------------------------------- */
  /* Shifts and masks of unsigned words, written as repeated halving   */
  /* and doubling so that reasoning about them stays linear.           */
  /* ---------------------------------------------------------------- */

  /** v >> k. */
  function Shr(v: nat, k: nat): nat
  {
    if k == 0 then v else Shr(v / 2, k - 1)
  }

  /** v << k, before any truncation to a word. */
  function Shl(v: nat, k: nat): nat
  {
    if k == 0 then v else 2 * Shl(v, k - 1)
  }

  /** v & ((1 << k) - 1): the low k bits of v. */
  function Low(v: nat, k: nat): (r: nat)
    ensures r < Pow2(k)
  {
    if k == 0 then 0 else 2 * Low(v / 2, k - 1) + v % 2
  }

  /** Placing l below h, shifted up by m bits, in a field of w = k + m
      bits: the two parts come back out by a shift and a mask, and the bits
      are h's followed by l's.  (The widths are separate parameters so that
      callers meet the terms they already hold.) */
  lemma {:induction false} Compose(h: nat, l: nat, m: nat, k: nat, w: nat)
    requires w == k + m && l < Pow2(m)
    ensures Shr(Shl(h, m) + l, m) == h
    ensures Low(Shl(h, m) + l, m) == l
    ensures NatToBits(Shl(h, m) + l, w) == NatToBits(h, k) + NatToBits(l, m)
  {
    if m > 0 {
      var v := Shl(h, m) + l;
      assert v / 2 == Shl(h, m - 1) + l / 2 && v % 2 == l % 2;
      Compose(h, l / 2, m - 1, k, w - 1);
      assert NatToBits(v, w) == NatToBits(v / 2, w - 1) + [v % 2 == 1];
    }
  }

  /** A k-bit h placed above an m-bit l fits in w = k + m bits. */
  lemma {:induction false} ComposeBound(h: nat, l: nat, m: nat, k: nat, w: nat)
    requires w == k + m && l < Pow2(m) && h < Pow2(k)
    ensures Shl(h, m) + l < Pow2(w)
  {
    if m > 0 {
      var v := Shl(h, m) + l;
      assert v / 2 == Shl(h, m - 1) + l / 2 && v % 2 == l % 2;
      ComposeBound(h, l / 2, m - 1, k, w - 1);
    }
  }

  /** A shift up by m leaves m zero bits below the shifted value. */
  lemma ShlUndo(h: nat, m: nat)
    ensures Shr(Shl(h, m), m) == h && Low(Shl(h, m), m) == 0
  {
    Compose(h, 0, m, 0, m);
  }

  lemma ShlBound(h: nat, m: nat, k: nat, w: nat)
    requires w == k + m && h < Pow2(k)
    ensures Shl(h, m) < Pow2(w)
  {
    ComposeBound(h, 0, m, k, w);
  }

  /** v >> k is v divided by 2^k. */
  lemma {:induction false} ShrDiv(v: nat, k: nat)
    ensures Shr(v, k) == v / Pow2(k)
  {
    if k > 0 {
      ShrDiv(v / 2, k - 1);
      DivDiv(v, 2, Pow2(k - 1));
    }
  }

  /** Every number is its high part shifted back over its low part. */
  lemma {:induction false} Decompose(v: nat, m: nat)
    ensures v == Shl(Shr(v, m), m) + Low(v, m)
  {
    if m > 0 {
      Decompose(v / 2, m - 1);
    }
  }

  /** The bits of a w = a + b bit field: its top a bits, then its low b. */
  lemma Split(v: nat, a: nat, b: nat, w: nat)
    requires w == a + b
    ensures NatToBits(v, w) == NatToBits(Shr(v, b), a) + NatToBits(v, b)
  {
    Decompose(v, b);
    Compose(Shr(v, b), Low(v, b), b, a, w);
    LowBits(v, b, b);
  }

  /** Masking to k bits keeps the low n <= k bits. */
  lemma {:induction false} LowBits(v: nat, k: nat, n: nat)
    requires n <= k
    ensures NatToBits(Low(v, k), n) == NatToBits(v, n)
  {
    if n > 0 {
      LowBits(v / 2, k - 1, n - 1);
    }
  }

  /** A number that fits in k bits is unchanged by the mask and shifted out
      entirely by k. */
  lemma {:induction false} Small(v: nat, k: nat)
    requires v < Pow2(k)
    ensures Low(v, k) == v && Shr(v, k) == 0
  {
    if k > 0 {
      Small(v / 2, k - 1);
    }
  }

  /** The part of a w = a + b bit number above its low b bits fits in a. */
  lemma {:induction false} ShrBound(v: nat, a: nat, b: nat, w: nat)
    requires w == a + b && v < Pow2(w)
    ensures Shr(v, b) < Pow2(a)
  {
    if b > 0 {
      ShrBound(v / 2, a, b - 1, w - 1);
    }
  }

  lemma {:induction false} ShlAdd(x: nat, y: nat, m: nat)
    ensures Shl(x, m) + Shl(y, m) == Shl(x + y, m)
  {
    if m > 0 {
      ShlAdd(x, y, m - 1);
    }
  }

  lemma {:induction false} ShlShl(x: nat, a: nat, b: nat, s: nat)
    requires s == a + b
    ensures Shl(Shl(x, a), b) == Shl(x, s)
  {
    if b > 0 {
      ShlShl(x, a, b - 1, s - 1);
    }
  }

  lemma {:induction false} ShrShr(x: nat, a: nat, b: nat, s: nat)
    requires s == a + b
    ensures Shr(Shr(x, a), b) == Shr(x, s)
  {
    if a > 0 {
      ShrShr(x / 2, a - 1, b, s - 1);
    }
  }

  lemma {:induction false} ShlMul(x: nat, m: nat)
    ensures Shl(x, m) == x * Pow2(m)
  {
    if m > 0 {
      ShlMul(x, m - 1);
      assert x * Pow2(m) == 2 * (x * Pow2(m - 1));
    }
  }

  lemma NoShift(v: nat)
    ensures Shl(v, 0) == v && Shr(v, 0) == v
  {
  }

  lemma {:induction false} ZeroShifts(k: nat)
    ensures Shr(0, k) == 0 && Shl(0, k) == 0 && Low(0, k) == 0
  {
    if k > 0 {
      ZeroShifts(k - 1);
    }
  }

  /** The number spelled by a + b: a's number shifted over b's bits, plus
      b's number. */
  lemma {:induction false} BitsToNatConcat(a: seq<bool>, b: seq<bool>)
    ensures BitsToNat(a + b) == Shl(BitsToNat(a), |b|) + BitsToNat(b)
  {
    if |b| > 0 {
      var b' := b[..|b| - 1];
      assert (a + b)[..|a + b| - 1] == a + b';
      assert (a + b)[|a + b| - 1] == b[|b| - 1];
      BitsToNatConcat(a, b');
    } else {
      assert a + b == a;
    }
  }

  /** Adjacent slices of a sequence concatenate. */
  lemma SliceSplit<T>(s: seq<T>, i: nat, j: nat, k: nat)
    requires i <= j <= k <= |s|
    ensures s[i..k] == s[i..j] + s[j..k]
  {
  }

  /** Concatenations of equal-length heads are equal part by part. */
  lemma AppendInj<T>(a: seq<T>, b: seq<T>, x: seq<T>, y: seq<T>)
    requires a + b == x + y && |a| == |x|
    ensures a == x && b == y
  {
    assert a == (a + b)[..|a|] && x == (x + y)[..|x|];
    assert b == (a + b)[|a|..] && y == (x + y)[|x|..];
  }

  /** Reading back the bits of v gives its low n bits. */
  lemma {:induction false} BitsToNatLow(v: nat, n: nat)
    ensures BitsToNat(NatToBits(v, n)) == Low(v, n)
  {
    if n > 0 {
      assert NatToBits(v, n)[..n - 1] == NatToBits(v / 2, n - 1);
      BitsToNatLow(v / 2, n - 1);
    }
  }

  /* ---------------------------------------------------------------- */
  /* Byte strings.                                                     */
  /* ---------------------------------------------------------------- */

  /** The bits of a byte string, each byte most significant bit first. */
  function BytesToBits(s: seq<byte>): (r: seq<bool>)
    ensures |r| == 8 * |s|
  {
    if |s| == 0 then [] else BytesToBits(s[..|s| - 1]) + NatToBits(s[|s| - 1], 8)
  }

  lemma BytesToBitsOne(b: byte)
    ensures BytesToBits([b]) == NatToBits(b, 8)
  {
    assert [b][..0] == [];
  }

  lemma {:induction false} BytesToBitsAppend(s: seq<byte>, t: seq<byte>)
    ensures BytesToBits(s + t) == BytesToBits(s) + BytesToBits(t)
  {
    if |t| == 0 {
      assert s + t == s;
    } else {
      assert (s + t)[..|s + t| - 1] == s + t[..|t| - 1];
      BytesToBitsAppend(s, t[..|t| - 1]);
    }
  }

  lemma BytesToBitsPrefix(s: seq<byte>, k: nat)
    requires k <= |s|
    ensures BytesToBits(s[..k]) == BytesToBits(s)[..8 * k]
  {
    assert s == s[..k] + s[k..];
    BytesToBitsAppend(s[..k], s[k..]);
  }

  /** `v mod 256^n` as n bytes, most significant byte first. */
  function BE(v: nat, n: nat): (r: seq<byte>)
    ensures |r| == n
  {
    if n == 0 then [] else BE(v / 256, n - 1) + [v % 256]
  }

  /** The number held by a big-endian byte string. */
  function FromBE(s: seq<byte>): (r: nat)
    ensures r < Pow2(8 * |s|)
  {
    if |s| == 0 then 0
    else
      Pow2Add(8 * (|s| - 1), 8);
      Pow2Values();
      256 * FromBE(s[..|s| - 1]) + s[|s| - 1]
  }

  lemma {:induction false} BEBits(v: nat, n: nat)
    ensures BytesToBits(BE(v, n)) == NatToBits(v, 8 * n)
  {
    if n > 0 {
      var s := BE(v, n);
      assert s[..n - 1] == BE(v / 256, n - 1);
      BEBits(v / 256, n - 1);
      Pow2Values();
      NatToBitsSplit(v, 8 * (n - 1), 8, v / 256, v % 256);
      NatToBitsMod(v, 8, 8);
    }
  }

  lemma {:induction false} FromBEOfBE(v: nat, n: nat)
    ensures FromBE(BE(v, n)) == v % Pow2(8 * n)
  {
    if n > 0 {
      var s := BE(v, n);
      assert s[..n - 1] == BE(v / 256, n - 1);
      FromBEOfBE(v / 256, n - 1);
      Pow2Values();
      Pow2Add(8, 8 * (n - 1));
      DivDiv(v, 256, Pow2(8 * (n - 1)));
      var m := v % (256 * Pow2(8 * (n - 1)));
      assert m == 256 * (m / 256) + m % 256;
    }
  }

  lemma {:induction false} BEOfFromBE(s: seq<byte>)
    ensures BE(FromBE(s), |s|) == s
  {
    hide Pow2;
    if |s| > 0 {
      var n, h, b := |s|, FromBE(s[..|s| - 1]), s[|s| - 1];
      assert FromBE(s) == 256 * h + b;
      MulDivMod(h, b, 256);
      BEOfFromBE(s[..n - 1]);
      assert BE(FromBE(s), n) == BE(h, n - 1) + [b];
      assert s == s[..n - 1] + [b];
    }
  }

  /** `v mod 256^n` as n bytes, least significant byte first. */
  function LE(v: nat, n: nat): (r: seq<byte>)
    ensures |r| == n
  {
    if n == 0 then [] else [v % 256] + LE(v / 256, n - 1)
  }

  /** The number held by a little-endian byte string. */
  function FromLE(s: seq<byte>): (r: nat)
  {
    if |s| == 0 then 0 else s[0] + 256 * FromLE(s[1..])
  }

  lemma {:induction false} FromLEOfLE(v: nat, n: nat)
    ensures FromLE(LE(v, n)) == v % Pow2(8 * n)
  {
    if n > 0 {
      var s := LE(v, n);
      assert s[1..] == LE(v / 256, n - 1);
      FromLEOfLE(v / 256, n - 1);
      Pow2Values();
      Pow2Add(8, 8 * (n - 1));
      DivDiv(v, 256, Pow2(8 * (n - 1)));
      var m := v % (256 * Pow2(8 * (n - 1)));
      assert m == 256 * (m / 256) + m % 256;
    }
  }

  /** Reversing the byte order of an n-byte value. */
  function Reverse(s: seq<byte>): (r: seq<byte>)
    ensures |r| == |s|
  {
    if |s| == 0 then [] else Reverse(s[1..]) + [s[0]]
  }

  lemma {:induction false} LEIsReversedBE(v: nat, n: nat)
    ensures LE(v, n) == Reverse(BE(v, n))
  {
    if n > 0 {
      LEIsReversedBE(v / 256, n - 1);
      ReverseAppend(BE(v / 256, n - 1), [v % 256]);
    }
  }

  lemma {:induction false} ReverseAppend(s: seq<byte>, t: seq<byte>)
    ensures Reverse(s + t) == Reverse(t) + Reverse(s)
  {
    if |s| == 0 {
      assert s + t == t;
    } else {
      assert (s + t)[1..] == s[1..] + t;
      ReverseAppend(s[1..], t);
    }
  }

  lemma {:induction false} ReverseReverse(s: seq<byte>)
    ensures Reverse(Reverse(s)) == s
  {
    if |s| > 0 {
      ReverseAppend(Reverse(s[1..]), [s[0]]);
      ReverseReverse(s[1..]);
      assert s == [s[0]] + s[1..];
    }
  }
}
