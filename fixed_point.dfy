/**
 * The fixed-point arithmetic shared by the integer predictors of
 * srla_lpc_predict.c, srla_lpc_synthesize.c and lpc.c: a weighted sum of
 * consecutive samples, and the rounding right shift `(half + sum) >> r`
 * with half = 2^(r-1), the fixed-point 0.5.
 */
module FixedPoint {
  import opened Bits
  import opened SrlaUtility

  /** coef[0] * x[lo] + ... + coef[m-1] * x[lo+m-1], accumulated in the
      order of the coefficient loops. */
  function Taps(coef: seq<int>, x: seq<int>, lo: nat, m: nat): int
    requires m <= |coef| && lo + m <= |x|
  {
    if m == 0 then 0 else Taps(coef, x, lo, m - 1) + coef[m - 1] * x[lo + m - 1]
  }

  /** The weighted sum reads only x[lo..lo+m]: two sequences that agree
      there give the same sum. */
  lemma {:induction false} TapsAgree(coef: seq<int>, x: seq<int>, y: seq<int>, lo: nat, m: nat)
    requires m <= |coef| && lo + m <= |x| && lo + m <= |y|
    requires forall j | lo <= j < lo + m :: x[j] == y[j]
    ensures Taps(coef, x, lo, m) == Taps(coef, y, lo, m)
  {
    if m > 0 {
      TapsAgree(coef, x, y, lo, m - 1);
    }
  }

  /** The unrolled sums of SRLALTP_Synthesize for orders 1, 3 and 5. */
  lemma UnrolledTaps(coef: seq<int>, x: seq<int>, lo: nat, k: nat)
    requires (k == 1 || k == 3 || k == 5) && k <= |coef| && lo + k <= |x|
    ensures k == 1 ==> Taps(coef, x, lo, 1) == coef[0] * x[lo]
    ensures k == 3 ==> Taps(coef, x, lo, 3) == coef[0] * x[lo] + coef[1] * x[lo + 1] + coef[2] * x[lo + 2]
    ensures k == 5 ==>
              Taps(coef, x, lo, 5) == coef[0] * x[lo] + coef[1] * x[lo + 1] + coef[2] * x[lo + 2]
                                      + coef[3] * x[lo + 3] + coef[4] * x[lo + 4]
  {
    assert Taps(coef, x, lo, 1) == coef[0] * x[lo];
    if k >= 3 {
      assert Taps(coef, x, lo, 2) == Taps(coef, x, lo, 1) + coef[1] * x[lo + 1];
      assert Taps(coef, x, lo, 3) == Taps(coef, x, lo, 2) + coef[2] * x[lo + 2];
    }
    if k == 5 {
      assert Taps(coef, x, lo, 4) == Taps(coef, x, lo, 3) + coef[3] * x[lo + 3];
      assert Taps(coef, x, lo, 5) == Taps(coef, x, lo, 4) + coef[4] * x[lo + 4];
    }
  }

  /** `(1 << (r - 1)) + sum` shifted right arithmetically by r: sum / 2^r
      rounded to the nearest integer, halves upwards. */
  function RoundShift(sum: int, r: nat): int
    requires r >= 1
  {
    ShiftRightArithmetic(Pow2(r - 1) + sum, r)
  }

  /** The rounding shift is off by at most one half from sum / 2^r, and
      rounds an empty sum to zero. */
  lemma RoundShiftBounds(sum: int, r: nat)
    requires r >= 1
    ensures 2 * RoundShift(sum, r) * Pow2(r) <= 2 * sum + Pow2(r)
    ensures 2 * sum + Pow2(r) < 2 * (RoundShift(sum, r) + 1) * Pow2(r)
    ensures sum == 0 ==> RoundShift(sum, r) == 0
  {
    var h := Pow2(r - 1);
    var p := Pow2(r);
    assert p == 2 * h;
    hide Pow2, ShiftRightArithmetic;
    var q := ShiftRightArithmetic(h + sum, r);
    assert q * p <= h + sum < (q + 1) * p;
    assert RoundShift(sum, r) == q;
    HalfQuotient(q, sum, h, p);
  }

  /** The quotient facts behind RoundShiftBounds, with 2^r = p = 2h. */
  lemma HalfQuotient(q: int, sum: int, h: nat, p: nat)
    requires h >= 1 && p == 2 * h && q * p <= h + sum < (q + 1) * p
    ensures 2 * q * p <= 2 * sum + p < 2 * (q + 1) * p
    ensures sum == 0 ==> q == 0
  {
    if sum == 0 {
      MulSign(q, p);
      MulSign(q + 1, p);
    }
  }
}
