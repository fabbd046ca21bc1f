/**
 * The generic (non-SIMD) predictors of srla_lpc_predict.c, which turn a
 * block of samples into residuals.
 *
 * SRLALPC_Predict keeps the first sample, takes first differences up to the
 * order, and from then on adds the rounded short-term prediction from the
 * `order` samples before each one.  SRLALTP_Predict (odd orders) subtracts a
 * rounded long-term prediction from the samples around one pitch period
 * back, and keeps the samples before that window unchanged.
 *
 * Samples are mathematical integers: the 32-bit products and sums are not
 * wrapped.
 */
module SrlaLpcPredict {
  import opened Bits
  import opened SrlaUtility
  import opened FixedPoint

  /** Residual i of SRLALPC_Predict on the data x. */
  function LpcResidualAt(x: seq<int>, coef: seq<int>, order: nat, r: nat, i: nat): int
    requires r >= 1 && order <= |coef| && i < |x|
  {
    if i < order then (if i == 0 then x[0] else x[i] - x[i - 1])
    else x[i] + RoundShift(Taps(coef, x, i - order, order), r)
  }

  /** The residual block SRLALPC_Predict writes for the data x. */
  function LpcResidual(x: seq<int>, coef: seq<int>, order: nat, r: nat): (res: seq<int>)
    requires r >= 1 && order <= |coef|
    ensures |res| == |x|
  {
    seq(|x|, i requires 0 <= i < |x| => LpcResidualAt(x, coef, order, r, i))
  }

  /** The first residual is the first sample, also for order 0, where the
      empty prediction rounds to zero. */
  lemma LpcResidualFirst(x: seq<int>, coef: seq<int>, order: nat, r: nat)
    requires r >= 1 && order <= |coef| && |x| > 0
    ensures LpcResidual(x, coef, order, r)[0] == x[0]
  {
    RoundShiftBounds(0, r);
  }

  /** Residual i in the two forms the predictor computes it. */
  lemma LpcResidualCases(x: seq<int>, coef: seq<int>, order: nat, r: nat, i: nat)
    requires r >= 1 && order <= |coef| && i < |x|
    ensures i < order && i == 0 ==> LpcResidual(x, coef, order, r)[i] == x[0]
    ensures i < order && i > 0 ==> LpcResidual(x, coef, order, r)[i] == x[i] - x[i - 1]
    ensures i >= order ==>
              LpcResidual(x, coef, order, r)[i]
              == x[i] + ShiftRightArithmetic(Pow2(r - 1) + Taps(coef, x, i - order, order), r)
  {
  }

  /** The coefficient loop of both predictors: half plus the weighted sum
      of the m samples from data[lo]. */
  method WeightedSum(data: array<int>, n: nat, ghost x: seq<int>, lo: nat, coef: seq<int>, m: nat, half: int)
    returns (predict: int)
    requires n <= data.Length && x == data[..n] && lo + m <= n && m <= |coef|
    ensures predict == half + Taps(coef, x, lo, m)
  {
    predict := half;
    var ord := 0;
    while ord < m
      invariant ord <= m
      invariant predict == half + Taps(coef, x, lo, ord)
    {
      predict := predict + coef[ord] * data[lo + ord];
      ord := ord + 1;
    }
  }

  /** SRLALPC_Predict: residual[..n] receives the residual of data[..n];
      data is only read. */
  method LpcPredict(data: array<int>, n: nat, coef: seq<int>, order: nat, residual: array<int>, r: nat)
    requires data != residual && n <= data.Length && n <= residual.Length
    requires r >= 1 && order <= |coef| && order <= n
    modifies residual
    ensures residual[..n] == LpcResidual(data[..n], coef, order, r)
    ensures residual[n..] == old(residual[n..])
  {
    hide LpcResidual, LpcResidualAt, ShiftRightArithmetic;
    ghost var x := data[..n];
    ghost var res := LpcResidual(x, coef, order, r);
    var half := Pow2(r - 1);
    forall i | 0 <= i < n {
      residual[i] := data[i];
    }
    if order > 0 {
      LpcResidualCases(x, coef, order, r, 0);
    }
    var smpl := 1;
    while smpl < order
      invariant 1 <= smpl && (smpl <= order || smpl == 1)
      invariant forall i | 1 <= i < smpl && i < order :: residual[i] == res[i]
      invariant forall i | 0 <= i < n && (i == 0 || smpl <= i) :: residual[i] == x[i]
      invariant residual[n..] == old(residual[n..])
    {
      LpcResidualCases(x, coef, order, r, smpl);
      residual[smpl] := data[smpl] - data[smpl - 1];
      smpl := smpl + 1;
    }
    smpl := 0;
    while smpl < n - order
      invariant smpl <= n - order
      invariant forall i | 0 <= i < smpl + order :: residual[i] == res[i]
      invariant forall i | smpl + order <= i < n :: residual[i] == x[i]
      invariant residual[n..] == old(residual[n..])
    {
      var predict := WeightedSum(data, n, x, smpl, coef, order, half);
      LpcResidualCases(x, coef, order, r, smpl + order);
      residual[smpl + order] := residual[smpl + order] + ShiftRightArithmetic(predict, r);
      smpl := smpl + 1;
    }
    assert residual[..n] == res;
    assert data[..n] == x;
  }

  /* ---------------------------------------------------------------- */
  /* Long-term (pitch) prediction.                                     */
  /* ---------------------------------------------------------------- */

  /** The window of the pitch predictor for every sample lies inside the
      block: either no sample is predicted, or the last tap of the window
      is at most the sample itself. */
  predicate LtpInBounds(n: nat, order: nat, period: nat)
  {
    n <= period + order / 2 + 1 || order <= period + order / 2 + 1
  }

  /** Residual i of SRLALTP_Predict: unchanged up to period + order/2,
      then minus the rounded prediction from x[i-period-order/2..]. */
  function LtpResidualAt(x: seq<int>, coef: seq<int>, order: nat, period: nat, r: nat, i: nat): int
    requires r >= 1 && order <= |coef| && i < |x| && LtpInBounds(|x|, order, period)
  {
    if i <= period + order / 2 then x[i]
    else x[i] - RoundShift(Taps(coef, x, i - period - order / 2, order), r)
  }

  /** The residual block SRLALTP_Predict writes for the data x. */
  function LtpResidual(x: seq<int>, coef: seq<int>, order: nat, period: nat, r: nat): (res: seq<int>)
    requires r >= 1 && order <= |coef| && LtpInBounds(|x|, order, period)
    ensures |res| == |x|
  {
    seq(|x|, i requires 0 <= i < |x| => LtpResidualAt(x, coef, order, period, r, i))
  }

  /** Residual i of the pitch predictor in the form it is computed. */
  lemma LtpResidualCases(x: seq<int>, coef: seq<int>, order: nat, period: nat, r: nat, i: nat)
    requires r >= 1 && order <= |coef| && i < |x| && LtpInBounds(|x|, order, period)
    ensures i <= period + order / 2 ==> LtpResidual(x, coef, order, period, r)[i] == x[i]
    ensures i > period + order / 2 ==> i - period - order / 2 + order <= |x|
    ensures i > period + order / 2 ==>
              LtpResidual(x, coef, order, period, r)[i]
              == x[i] - ShiftRightArithmetic(Pow2(r - 1) + Taps(coef, x, i - period - order / 2, order), r)
  {
  }

  /** SRLALTP_Predict, which asserts an odd order: residual[..n] receives
      the pitch residual of data[..n]. */
  method LtpPredict(data: array<int>, n: nat, coef: seq<int>, order: nat, period: nat, residual: array<int>, r: nat)
    requires data != residual && n <= data.Length && n <= residual.Length
    requires r >= 1 && order <= |coef| && order % 2 == 1 && LtpInBounds(n, order, period)
    modifies residual
    ensures residual[..n] == LtpResidual(data[..n], coef, order, period, r)
    ensures residual[n..] == old(residual[n..])
  {
    hide LtpResidual, LtpResidualAt, ShiftRightArithmetic;
    ghost var x := data[..n];
    ghost var res := LtpResidual(x, coef, order, period, r);
    var half := Pow2(r - 1);
    var halfOrder := order / 2;
    forall i | 0 <= i < n {
      residual[i] := data[i];
    }
    forall i | 0 <= i < n && i <= period + halfOrder
      ensures res[i] == x[i]
    {
      LtpResidualCases(x, coef, order, period, r, i);
    }
    var smpl := period + halfOrder + 1;
    while smpl < n
      invariant forall i | 0 <= i < n && (i < smpl || i <= period + halfOrder) :: residual[i] == res[i]
      invariant forall i | smpl <= i < n :: residual[i] == x[i]
      invariant residual[n..] == old(residual[n..])
    {
      LtpResidualCases(x, coef, order, period, r, smpl);
      var predict := WeightedSum(data, n, x, smpl - period - halfOrder, coef, order, half);
      residual[smpl] := residual[smpl] - ShiftRightArithmetic(predict, r);
      smpl := smpl + 1;
    }
    assert residual[..n] == res;
    assert data[..n] == x;
  }
}
