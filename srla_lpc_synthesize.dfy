/**
 * The generic (non-SIMD) synthesis filters of srla_lpc_synthesize.c, which
 * rebuild samples from residuals in place, and the proofs that they invert
 * the predictors of srla_lpc_predict.c.
 *
 * Both filters run forwards through the block, so the prediction for a
 * sample reads the samples already restored before it.  The synthesized
 * block is therefore defined sample by sample: LpcRestored(res, m) and
 * LtpRestored(res, m) are the first m restored samples, and sample m is
 * computed from them (and, for the pitch filter, from the residuals not yet
 * overwritten when the window reaches that far).
 */
module SrlaLpcSynthesize {
  import opened Bits
  import opened SrlaUtility
  import opened FixedPoint
  import opened SrlaLpcPredict

  /* ---------------------------------------------------------------- */
  /* Short-term synthesis.                                             */
  /* ---------------------------------------------------------------- */

  /** The sample SRLALPC_Synthesize restores from residual v when the
      samples before it are s: a running sum below the order, otherwise
      v minus the rounded prediction from the last `order` samples. */
  function LpcSample(v: int, s: seq<int>, coef: seq<int>, order: nat, r: nat): int
    requires r >= 1 && order <= |coef|
  {
    var i := |s|;
    if i < order then (if i == 0 then v else v + s[i - 1])
    else v - RoundShift(Taps(coef, s, i - order, order), r)
  }

  /** The first m samples restored from the residuals res. */
  function LpcRestored(res: seq<int>, coef: seq<int>, order: nat, r: nat, m: nat): (s: seq<int>)
    requires r >= 1 && order <= |coef| && m <= |res|
    ensures |s| == m
    decreases m
  {
    if m == 0 then []
    else
      var s := LpcRestored(res, coef, order, r, m - 1);
      s + [LpcSample(res[m - 1], s, coef, order, r)]
  }

  /** The block SRLALPC_Synthesize restores from res. */
  function LpcSynthesis(res: seq<int>, coef: seq<int>, order: nat, r: nat): (x: seq<int>)
    requires r >= 1 && order <= |coef|
    ensures |x| == |res|
  {
    LpcRestored(res, coef, order, r, |res|)
  }

  /** Restoring more samples extends the shorter restoration. */
  lemma {:induction false} LpcRestoredPrefix(res: seq<int>, coef: seq<int>, order: nat, r: nat, k: nat, m: nat)
    requires r >= 1 && order <= |coef| && k <= m <= |res|
    ensures LpcRestored(res, coef, order, r, m)[..k] == LpcRestored(res, coef, order, r, k)
    decreases m
  {
    if k < m {
      LpcRestoredPrefix(res, coef, order, r, k, m - 1);
      var s := LpcRestored(res, coef, order, r, m - 1);
      assert LpcRestored(res, coef, order, r, m)[..m - 1] == s;
    }
  }

  /** Sample m of the synthesis, computed from any w that holds the
      samples restored before it. */
  lemma LpcSynthesisAt(res: seq<int>, coef: seq<int>, order: nat, r: nat, m: nat, w: seq<int>)
    requires r >= 1 && order <= |coef| && m < |res| && m <= |w|
    requires forall i | 0 <= i < m :: w[i] == LpcSynthesis(res, coef, order, r)[i]
    ensures m < order && m == 0 ==> LpcSynthesis(res, coef, order, r)[m] == res[0]
    ensures m < order && m > 0 ==> LpcSynthesis(res, coef, order, r)[m] == res[m] + w[m - 1]
    ensures m >= order ==>
              LpcSynthesis(res, coef, order, r)[m]
              == res[m] - RoundShift(Taps(coef, w, m - order, order), r)
  {
    hide LpcSynthesis, LpcRestored;
    var x := LpcSynthesis(res, coef, order, r);
    LpcSynthesisNext(res, coef, order, r, m);
    if m >= order {
      TapsAgree(coef, w, x[..m], m - order, order);
    }
  }

  /** Sample m of the synthesis is restored from the m samples before it. */
  lemma LpcSynthesisNext(res: seq<int>, coef: seq<int>, order: nat, r: nat, m: nat)
    requires r >= 1 && order <= |coef| && m < |res|
    ensures var x := LpcSynthesis(res, coef, order, r);
            x[m] == LpcSample(res[m], x[..m], coef, order, r)
  {
    hide LpcSample;
    var x := LpcSynthesis(res, coef, order, r);
    LpcRestoredPrefix(res, coef, order, r, m, |res|);
    LpcRestoredPrefix(res, coef, order, r, m + 1, |res|);
    assert x[m] == x[..m + 1][m];
  }

  /** Synthesis undoes SRLALPC_Predict with the same coefficients, order
      and shift. */
  lemma LpcRoundTrip(x: seq<int>, coef: seq<int>, order: nat, r: nat)
    requires r >= 1 && order <= |coef|
    ensures LpcSynthesis(LpcResidual(x, coef, order, r), coef, order, r) == x
  {
    LpcRestoredOfResidual(x, coef, order, r, |x|);
  }

  lemma {:induction false} LpcRestoredOfResidual(x: seq<int>, coef: seq<int>, order: nat, r: nat, m: nat)
    requires r >= 1 && order <= |coef| && m <= |x|
    ensures LpcRestored(LpcResidual(x, coef, order, r), coef, order, r, m) == x[..m]
  {
    if m > 0 {
      var res := LpcResidual(x, coef, order, r);
      LpcRestoredOfResidual(x, coef, order, r, m - 1);
      var i := m - 1;
      if i >= order {
        TapsAgree(coef, x, x[..i], i - order, order);
      }
      assert LpcSample(res[i], x[..i], coef, order, r) == x[i];
      assert x[..i] + [x[i]] == x[..m];
    }
  }

  /** Prediction undoes synthesis: every residual block is the residual of
      the block synthesized from it, so the two filters are inverse
      bijections. */
  lemma LpcResidualOfSynthesis(res: seq<int>, coef: seq<int>, order: nat, r: nat)
    requires r >= 1 && order <= |coef|
    ensures LpcResidual(LpcSynthesis(res, coef, order, r), coef, order, r) == res
  {
    var x := LpcSynthesis(res, coef, order, r);
    forall i | 0 <= i < |res|
      ensures LpcResidual(x, coef, order, r)[i] == res[i]
    {
      LpcSynthesisAt(res, coef, order, r, i, x);
    }
  }

  /** With order 0 the synthesis leaves the block as it is, which is why
      SRLALPC_Synthesize may return at once. */
  lemma LpcSynthesisOrderZero(res: seq<int>, coef: seq<int>, r: nat)
    requires r >= 1
    ensures LpcSynthesis(res, coef, 0, r) == res
  {
    LpcRestoredOrderZero(res, coef, r, |res|);
  }

  lemma {:induction false} LpcRestoredOrderZero(res: seq<int>, coef: seq<int>, r: nat, m: nat)
    requires r >= 1 && m <= |res|
    ensures LpcRestored(res, coef, 0, r, m) == res[..m]
  {
    if m > 0 {
      LpcRestoredOrderZero(res, coef, r, m - 1);
      RoundShiftBounds(0, r);
      assert res[..m - 1] + [res[m - 1]] == res[..m];
    }
  }

  /** A restored sample depends on no residual after it. */
  lemma {:induction false} LpcRestoredCausal(res: seq<int>, res2: seq<int>, coef: seq<int>, order: nat, r: nat, m: nat)
    requires r >= 1 && order <= |coef| && m <= |res| && m <= |res2| && res[..m] == res2[..m]
    ensures LpcRestored(res, coef, order, r, m) == LpcRestored(res2, coef, order, r, m)
  {
    if m > 0 {
      assert res[..m - 1] == res[..m][..m - 1] && res2[..m - 1] == res2[..m][..m - 1];
      assert res[m - 1] == res[..m][m - 1] && res2[m - 1] == res2[..m][m - 1];
      LpcRestoredCausal(res, res2, coef, order, r, m - 1);
    }
  }

  /** SRLALPC_Synthesize: the first n samples of data, holding residuals,
      are replaced by the block synthesized from them. */
  method LpcSynthesize(data: array<int>, n: nat, coef: seq<int>, order: nat, r: nat)
    requires n <= data.Length && r >= 1 && order <= |coef| && order <= n
    modifies data
    ensures data[..n] == LpcSynthesis(old(data[..n]), coef, order, r)
    ensures data[n..] == old(data[n..])
  {
    hide LpcSynthesis, LpcRestored, LpcSample, ShiftRightArithmetic;
    ghost var res := data[..n];
    ghost var x := LpcSynthesis(res, coef, order, r);
    var half := Pow2(r - 1);
    if order == 0 {
      LpcSynthesisOrderZero(res, coef, r);
      return;
    }
    LpcSynthesisAt(res, coef, order, r, 0, data[..n]);
    var smpl := 1;
    while smpl < order
      invariant 1 <= smpl <= order
      invariant forall i | 0 <= i < n :: data[i] == if i < smpl then x[i] else res[i]
      invariant data[n..] == old(data[n..])
    {
      LpcSynthesisAt(res, coef, order, r, smpl, data[..n]);
      data[smpl] := data[smpl] + data[smpl - 1];
      smpl := smpl + 1;
    }
    smpl := 0;
    while smpl < n - order
      invariant smpl <= n - order
      invariant forall i | 0 <= i < n :: data[i] == if i < smpl + order then x[i] else res[i]
      invariant data[n..] == old(data[n..])
    {
      LpcSynthesisAt(res, coef, order, r, smpl + order, data[..n]);
      var predict := half;
      var ord := 0;
      while ord < order
        invariant ord <= order
        invariant predict == half + Taps(coef, data[..n], smpl, ord)
      {
        predict := predict + coef[ord] * data[smpl + ord];
        ord := ord + 1;
      }
      data[smpl + ord] := data[smpl + ord] - ShiftRightArithmetic(predict, r);
      smpl := smpl + 1;
    }
    assert data[..n] == x;
  }

  /* ---------------------------------------------------------------- */
  /* Long-term (pitch) synthesis.                                      */
  /* ---------------------------------------------------------------- */

  /** The sample SRLALTP_Synthesize restores at index |s| when the
      samples before it are s: the residual itself up to
      period + order/2, otherwise the residual plus the rounded prediction
      from the block as it stands at that moment, restored samples
      followed by residuals. */
  function LtpSample(res: seq<int>, s: seq<int>, coef: seq<int>, order: nat, period: nat, r: nat): int
    requires r >= 1 && order <= |coef| && |s| < |res| && LtpInBounds(|res|, order, period)
  {
    var i := |s|;
    if i <= period + order / 2 then res[i]
    else res[i] + RoundShift(Taps(coef, s + res[i..], i - period - order / 2, order), r)
  }

  /** The first m samples the pitch filter restores from res. */
  function LtpRestored(res: seq<int>, coef: seq<int>, order: nat, period: nat, r: nat, m: nat): (s: seq<int>)
    requires r >= 1 && order <= |coef| && m <= |res| && LtpInBounds(|res|, order, period)
    ensures |s| == m
    decreases m
  {
    if m == 0 then []
    else
      var s := LtpRestored(res, coef, order, period, r, m - 1);
      s + [LtpSample(res, s, coef, order, period, r)]
  }

  /** The block SRLALTP_Synthesize restores from res: nothing changes for
      order 0 or period 0. */
  function LtpSynthesis(res: seq<int>, coef: seq<int>, order: nat, period: nat, r: nat): (x: seq<int>)
    requires r >= 1 && order <= |coef| && (period == 0 || LtpInBounds(|res|, order, period))
    ensures |x| == |res|
  {
    if order == 0 || period == 0 then res
    else LtpRestored(res, coef, order, period, r, |res|)
  }

  lemma {:induction false} LtpRestoredPrefix(res: seq<int>, coef: seq<int>, order: nat, period: nat, r: nat, k: nat, m: nat)
    requires r >= 1 && order <= |coef| && k <= m <= |res| && LtpInBounds(|res|, order, period)
    ensures LtpRestored(res, coef, order, period, r, m)[..k] == LtpRestored(res, coef, order, period, r, k)
    decreases m
  {
    if k < m {
      LtpRestoredPrefix(res, coef, order, period, r, k, m - 1);
      var s := LtpRestored(res, coef, order, period, r, m - 1);
      assert LtpRestored(res, coef, order, period, r, m)[..m - 1] == s;
    }
  }

  /** Sample m of the pitch synthesis, computed from the block w as the
      filter holds it: restored before m, residuals from m on. */
  lemma LtpSynthesisAt(res: seq<int>, coef: seq<int>, order: nat, period: nat, r: nat, m: nat, w: seq<int>)
    requires r >= 1 && order <= |coef| && order > 0 && period > 0 && LtpInBounds(|res|, order, period)
    requires m < |res| == |w|
    requires forall i | 0 <= i < |res| :: w[i] == if i < m then LtpSynthesis(res, coef, order, period, r)[i] else res[i]
    ensures m <= period + order / 2 ==> LtpSynthesis(res, coef, order, period, r)[m] == res[m]
    ensures m > period + order / 2 ==>
              m - period - order / 2 + order <= |w| &&
              LtpSynthesis(res, coef, order, period, r)[m]
              == res[m] + RoundShift(Taps(coef, w, m - period - order / 2, order), r)
  {
    hide LtpSynthesis, LtpRestored, Taps, RoundShift;
    var x := LtpSynthesis(res, coef, order, period, r);
    LtpSynthesisNext(res, coef, order, period, r, m);
    Spliced(x, res, w, m);
  }

  /** A block that agrees with x before m and with res from m on. */
  lemma Spliced(x: seq<int>, res: seq<int>, w: seq<int>, m: nat)
    requires |x| == |res| == |w| && m <= |res|
    requires forall i | 0 <= i < |res| :: w[i] == if i < m then x[i] else res[i]
    ensures w == x[..m] + res[m..]
  {
  }

  /** Sample m of the pitch synthesis is restored from the m samples
      before it and the residuals from m on. */
  lemma LtpSynthesisNext(res: seq<int>, coef: seq<int>, order: nat, period: nat, r: nat, m: nat)
    requires r >= 1 && order <= |coef| && order > 0 && period > 0 && LtpInBounds(|res|, order, period)
    requires m < |res|
    ensures var x := LtpSynthesis(res, coef, order, period, r);
            x[m] == LtpSample(res, x[..m], coef, order, period, r)
  {
    hide LtpSample;
    var x := LtpSynthesis(res, coef, order, period, r);
    LtpRestoredPrefix(res, coef, order, period, r, m, |res|);
    LtpRestoredPrefix(res, coef, order, period, r, m + 1, |res|);
    assert x[m] == x[..m + 1][m];
  }

  /** SRLALTP_Synthesize never changes the samples up to
      period + order/2. */
  lemma LtpSynthesisKeepsHead(res: seq<int>, coef: seq<int>, order: nat, period: nat, r: nat, i: nat)
    requires r >= 1 && order <= |coef| && (period == 0 || LtpInBounds(|res|, order, period))
    requires i < |res| && i <= period + order / 2
    ensures LtpSynthesis(res, coef, order, period, r)[i] == res[i]
  {
    if order > 0 && period > 0 {
      var s := LtpRestored(res, coef, order, period, r, i);
      LtpRestoredPrefix(res, coef, order, period, r, i + 1, |res|);
      assert LtpSynthesis(res, coef, order, period, r)[i] == LtpRestored(res, coef, order, period, r, i + 1)[i];
    }
  }

  /** When the window ends before the sample (period > order/2), synthesis
      undoes SRLALTP_Predict. */
  lemma LtpRoundTrip(x: seq<int>, coef: seq<int>, order: nat, period: nat, r: nat)
    requires r >= 1 && order <= |coef| && order % 2 == 1 && period > order / 2
    ensures LtpInBounds(|x|, order, period)
    ensures LtpSynthesis(LtpResidual(x, coef, order, period, r), coef, order, period, r) == x
  {
    LtpRestoredOfResidual(x, coef, order, period, r, |x|);
  }

  lemma {:induction false} LtpRestoredOfResidual(x: seq<int>, coef: seq<int>, order: nat, period: nat, r: nat, m: nat)
    requires r >= 1 && order <= |coef| && order % 2 == 1 && period > order / 2 && m <= |x|
    ensures LtpInBounds(|x|, order, period)
    ensures LtpRestored(LtpResidual(x, coef, order, period, r), coef, order, period, r, m) == x[..m]
  {
    hide LtpResidual, LtpSample;
    if m > 0 {
      LtpRestoredOfResidual(x, coef, order, period, r, m - 1);
      LtpSampleOfResidual(x, coef, order, period, r, m - 1);
      assert x[..m - 1] + [x[m - 1]] == x[..m];
    }
  }

  /** The pitch filter restores sample i from the residual and the
      samples before it. */
  lemma LtpSampleOfResidual(x: seq<int>, coef: seq<int>, order: nat, period: nat, r: nat, i: nat)
    requires r >= 1 && order <= |coef| && order % 2 == 1 && period > order / 2 && i < |x|
    ensures LtpInBounds(|x|, order, period)
    ensures LtpSample(LtpResidual(x, coef, order, period, r), x[..i], coef, order, period, r) == x[i]
  {
    hide LtpResidual, Taps, ShiftRightArithmetic, Pow2;
    var res := LtpResidual(x, coef, order, period, r);
    LtpResidualCases(x, coef, order, period, r, i);
    if i > period + order / 2 {
      var lo := i - period - order / 2;
      assert lo + order <= i;
      TapsAgree(coef, x, x[..i] + res[i..], lo, order);
    }
  }

  /** Prediction undoes pitch synthesis when period > order/2. */
  lemma LtpResidualOfSynthesis(res: seq<int>, coef: seq<int>, order: nat, period: nat, r: nat)
    requires r >= 1 && order <= |coef| && order % 2 == 1 && period > order / 2
    ensures LtpInBounds(|res|, order, period)
    ensures LtpResidual(LtpSynthesis(res, coef, order, period, r), coef, order, period, r) == res
  {
    var x := LtpSynthesis(res, coef, order, period, r);
    forall i | 0 <= i < |res|
      ensures LtpResidual(x, coef, order, period, r)[i] == res[i]
    {
      var w := seq(|res|, j requires 0 <= j < |res| => if j < i then x[j] else res[j]);
      LtpSynthesisAt(res, coef, order, period, r, i, w);
      if i > period + order / 2 {
        TapsAgree(coef, x, w, i - period - order / 2, order);
      }
    }
  }

  /** The order-1 case of SRLALTP_Synthesize, unrolled. */
  method LtpSynthesizeOrder1(data: array<int>, n: nat, coef: seq<int>, period: nat, r: nat)
    requires n <= data.Length && r >= 1 && 1 <= |coef| && period > 0 && LtpInBounds(n, 1, period)
    modifies data
    ensures data[..n] == LtpSynthesis(old(data[..n]), coef, 1, period, r)
    ensures data[n..] == old(data[n..])
  {
    hide LtpSynthesis, LtpRestored, LtpSample, ShiftRightArithmetic;
    ghost var res := data[..n];
    ghost var x := LtpSynthesis(res, coef, 1, period, r);
    var half := Pow2(r - 1);
    var halfOrder := 1 / 2;
    forall i | 0 <= i < n && i <= period + halfOrder
      ensures x[i] == res[i]
    {
      LtpSynthesisKeepsHead(res, coef, 1, period, r, i);
    }
    var smpl := period + halfOrder + 1;
    while smpl < n
      invariant smpl >= period + halfOrder + 1
      invariant forall i | 0 <= i < n :: data[i] == if i < smpl then x[i] else res[i]
      invariant data[n..] == old(data[n..])
    {
      LtpSynthesisAt(res, coef, 1, period, r, smpl, data[..n]);
      var lo := smpl - (period + halfOrder);
      UnrolledTaps(coef, data[..n], lo, 1);
      var predict := half + coef[0] * data[lo];
      data[smpl] := data[smpl] + ShiftRightArithmetic(predict, r);
      smpl := smpl + 1;
    }
    assert data[..n] == x;
  }

  /** The order-3 case of SRLALTP_Synthesize, unrolled. */
  method LtpSynthesizeOrder3(data: array<int>, n: nat, coef: seq<int>, period: nat, r: nat)
    requires n <= data.Length && r >= 1 && 3 <= |coef| && period > 0 && LtpInBounds(n, 3, period)
    modifies data
    ensures data[..n] == LtpSynthesis(old(data[..n]), coef, 3, period, r)
    ensures data[n..] == old(data[n..])
  {
    hide LtpSynthesis, LtpRestored, LtpSample, ShiftRightArithmetic;
    ghost var res := data[..n];
    ghost var x := LtpSynthesis(res, coef, 3, period, r);
    var half := Pow2(r - 1);
    var halfOrder := 3 / 2;
    forall i | 0 <= i < n && i <= period + halfOrder
      ensures x[i] == res[i]
    {
      LtpSynthesisKeepsHead(res, coef, 3, period, r, i);
    }
    var smpl := period + halfOrder + 1;
    while smpl < n
      invariant smpl >= period + halfOrder + 1
      invariant forall i | 0 <= i < n :: data[i] == if i < smpl then x[i] else res[i]
      invariant data[n..] == old(data[n..])
    {
      LtpSynthesisAt(res, coef, 3, period, r, smpl, data[..n]);
      var lo := smpl - (period + halfOrder);
      UnrolledTaps(coef, data[..n], lo, 3);
      var predict := half;
      predict := predict + coef[0] * data[lo];
      predict := predict + coef[1] * data[lo + 1];
      predict := predict + coef[2] * data[lo + 2];
      data[smpl] := data[smpl] + ShiftRightArithmetic(predict, r);
      smpl := smpl + 1;
    }
    assert data[..n] == x;
  }

  /** The order-5 case of SRLALTP_Synthesize, unrolled. */
  method LtpSynthesizeOrder5(data: array<int>, n: nat, coef: seq<int>, period: nat, r: nat)
    requires n <= data.Length && r >= 1 && 5 <= |coef| && period > 0 && LtpInBounds(n, 5, period)
    modifies data
    ensures data[..n] == LtpSynthesis(old(data[..n]), coef, 5, period, r)
    ensures data[n..] == old(data[n..])
  {
    hide LtpSynthesis, LtpRestored, LtpSample, ShiftRightArithmetic;
    ghost var res := data[..n];
    ghost var x := LtpSynthesis(res, coef, 5, period, r);
    var half := Pow2(r - 1);
    var halfOrder := 5 / 2;
    forall i | 0 <= i < n && i <= period + halfOrder
      ensures x[i] == res[i]
    {
      LtpSynthesisKeepsHead(res, coef, 5, period, r, i);
    }
    var smpl := period + halfOrder + 1;
    while smpl < n
      invariant smpl >= period + halfOrder + 1
      invariant forall i | 0 <= i < n :: data[i] == if i < smpl then x[i] else res[i]
      invariant data[n..] == old(data[n..])
    {
      LtpSynthesisAt(res, coef, 5, period, r, smpl, data[..n]);
      var lo := smpl - (period + halfOrder);
      UnrolledTaps(coef, data[..n], lo, 5);
      var predict := half;
      predict := predict + coef[0] * data[lo];
      predict := predict + coef[1] * data[lo + 1];
      predict := predict + coef[2] * data[lo + 2];
      predict := predict + coef[3] * data[lo + 3];
      predict := predict + coef[4] * data[lo + 4];
      data[smpl] := data[smpl] + ShiftRightArithmetic(predict, r);
      smpl := smpl + 1;
    }
    assert data[..n] == x;
  }

  /** The default case of SRLALTP_Synthesize: any order, with the
      coefficient loop. */
  method LtpSynthesizeAnyOrder(data: array<int>, n: nat, coef: seq<int>, order: nat, period: nat, r: nat)
    requires n <= data.Length && r >= 1 && order <= |coef| && order > 0 && period > 0 && LtpInBounds(n, order, period)
    modifies data
    ensures data[..n] == LtpSynthesis(old(data[..n]), coef, order, period, r)
    ensures data[n..] == old(data[n..])
  {
    hide LtpSynthesis, LtpRestored, LtpSample, ShiftRightArithmetic;
    ghost var res := data[..n];
    ghost var x := LtpSynthesis(res, coef, order, period, r);
    var half := Pow2(r - 1);
    var halfOrder := order / 2;
    forall i | 0 <= i < n && i <= period + halfOrder
      ensures x[i] == res[i]
    {
      LtpSynthesisKeepsHead(res, coef, order, period, r, i);
    }
    var smpl := period + halfOrder + 1;
    while smpl < n
      invariant smpl >= period + halfOrder + 1
      invariant forall i | 0 <= i < n :: data[i] == if i < smpl then x[i] else res[i]
      invariant data[n..] == old(data[n..])
    {
      LtpSynthesisAt(res, coef, order, period, r, smpl, data[..n]);
      var lo := smpl - (period + halfOrder);
      var predict := half;
      var ord := 0;
      while ord < order
        invariant ord <= order
        invariant predict == half + Taps(coef, data[..n], lo, ord)
      {
        predict := predict + coef[ord] * data[lo + ord];
        ord := ord + 1;
      }
      data[smpl] := data[smpl] + ShiftRightArithmetic(predict, r);
      smpl := smpl + 1;
    }
    assert data[..n] == x;
  }

  /** SRLALTP_Synthesize: the first n samples of data, holding pitch
      residuals, are replaced by the block synthesized from them.  Orders
      1, 3 and 5 take the unrolled loops, which meet the same contract as
      the general one. */
  method LtpSynthesize(data: array<int>, n: nat, coef: seq<int>, order: nat, period: nat, r: nat)
    requires n <= data.Length && r >= 1 && order <= |coef| && (period == 0 || LtpInBounds(n, order, period))
    modifies data
    ensures data[..n] == LtpSynthesis(old(data[..n]), coef, order, period, r)
    ensures data[n..] == old(data[n..])
  {
    if order == 0 || period == 0 {
      return;
    }
    match order {
      case 1 => LtpSynthesizeOrder1(data, n, coef, period, r);
      case 3 => LtpSynthesizeOrder3(data, n, coef, period, r);
      case 5 => LtpSynthesizeOrder5(data, n, coef, period, r);
      case _ => LtpSynthesizeAnyOrder(data, n, coef, order, period, r);
    }
  }
}
