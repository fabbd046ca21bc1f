/**
 * The integer parts of lpc.c: rounding up to a power of two, quantizing
 * the real-valued predictor coefficients to integers with a shift, and the
 * predictor and synthesis filters with those integer coefficients.  Unlike
 * the SRLA filters, the lpc.c filters predict the first `order` samples too,
 * from as many coefficients as there are samples before each one, and they
 * check their arguments and report INVALID_ARGUMENT.
 *
 * Samples are mathematical integers; the double-precision arithmetic of the
 * quantizer is carried out on real numbers.
 */
module Lpc {
  import opened Bits
  import opened SrlaUtility
  import opened FixedPoint

  /** LPCApiResult. */
  datatype ApiResult =
    | Ok
    | Ng
    | InvalidArgument
    | ExceedMaxOrder
    | ExceedMaxNumSamples
    | FailedToFindPitch
    | FailedToCalculation

  /* ---------------------------------------------------------------- */
  /* LPC_RoundUp2Powered.                                              */
  /* ---------------------------------------------------------------- */

  /** LPC_RoundUp2Powered on a 32-bit unsigned value: decrement, smear the
      leading one into every lower bit, increment.  For 1 <= v <= 2^31 the
      result is the least power of two not below v; 0 and values above
      2^31 wrap to 0. */
  function RoundUp2Powered(val: bv32): (r: bv32)
    ensures 1 <= val <= 0x8000_0000 ==> r != 0 && r & (r - 1) == 0 && val <= r && r >> 1 < val
    ensures (val == 0 || val > 0x8000_0000) ==> r == 0
  {
    var v0 := val - 1;
    var v1 := v0 | (v0 >> 1);
    var v2 := v1 | (v1 >> 2);
    var v3 := v2 | (v2 >> 4);
    var v4 := v3 | (v3 >> 8);
    var v5 := v4 | (v4 >> 16);
    v5 + 1
  }

  /* ---------------------------------------------------------------- */
  /* LPC_Predict and LPC_Synthesize.                                   */
  /* ---------------------------------------------------------------- */

  /** coef[0] * s[|s|-1] + ... + coef[m-1] * s[|s|-m]: the prediction from
      the last m samples of s, the nearest first. */
  function BackTaps(coef: seq<int>, s: seq<int>, m: nat): int
    requires m <= |coef| && m <= |s|
  {
    if m == 0 then 0 else BackTaps(coef, s, m - 1) + coef[m - 1] * s[|s| - m]
  }

  lemma BackTapsNone(coef: seq<int>, s: seq<int>)
    ensures BackTaps(coef, s, 0) == 0
  {
  }

  lemma BackTapsNext(coef: seq<int>, s: seq<int>, m: nat)
    requires m < |coef| && m < |s|
    ensures BackTaps(coef, s, m + 1) == BackTaps(coef, s, m) + coef[m] * s[|s| - 1 - m]
  {
  }

  /** The rounded prediction of the sample after s: from all `order`
      coefficients once there are that many samples, otherwise from the
      first |s| of them. */
  function Prediction(s: seq<int>, coef: seq<int>, order: nat, r: nat): int
    requires r >= 1 && order <= |coef|
  {
    RoundShift(BackTaps(coef, s, Min(|s|, order)), r)
  }

  /** The residual block LPC_Predict writes for the data x. */
  function Residual(x: seq<int>, coef: seq<int>, order: nat, r: nat): (res: seq<int>)
    requires r >= 1 && order <= |coef|
    ensures |res| == |x|
  {
    seq(|x|, i requires 0 <= i < |x| => x[i] + Prediction(x[..i], coef, order, r))
  }

  /** The first residual is the first sample: nothing precedes it, and the
      empty prediction rounds to zero. */
  lemma ResidualFirst(x: seq<int>, coef: seq<int>, order: nat, r: nat)
    requires r >= 1 && order <= |coef| && |x| > 0
    ensures Residual(x, coef, order, r)[0] == x[0]
  {
    RoundShiftBounds(0, r);
  }

  /** The first m samples LPC_Synthesize restores from res. */
  function Restored(res: seq<int>, coef: seq<int>, order: nat, r: nat, m: nat): (s: seq<int>)
    requires r >= 1 && order <= |coef| && m <= |res|
    ensures |s| == m
    decreases m
  {
    if m == 0 then []
    else
      var s := Restored(res, coef, order, r, m - 1);
      s + [res[m - 1] - Prediction(s, coef, order, r)]
  }

  /** The block LPC_Synthesize restores from res. */
  function Synthesis(res: seq<int>, coef: seq<int>, order: nat, r: nat): (x: seq<int>)
    requires r >= 1 && order <= |coef|
    ensures |x| == |res|
  {
    Restored(res, coef, order, r, |res|)
  }

  lemma {:induction false} RestoredPrefix(res: seq<int>, coef: seq<int>, order: nat, r: nat, k: nat, m: nat)
    requires r >= 1 && order <= |coef| && k <= m <= |res|
    ensures Restored(res, coef, order, r, m)[..k] == Restored(res, coef, order, r, k)
    decreases m
  {
    if k < m {
      RestoredPrefix(res, coef, order, r, k, m - 1);
      assert Restored(res, coef, order, r, m)[..m - 1] == Restored(res, coef, order, r, m - 1);
    }
  }

  /** Sample m of the synthesis is restored from the samples before it. */
  lemma SynthesisAt(res: seq<int>, coef: seq<int>, order: nat, r: nat, m: nat)
    requires r >= 1 && order <= |coef| && m < |res|
    ensures var x := Synthesis(res, coef, order, r);
            x[m] == res[m] - Prediction(x[..m], coef, order, r)
  {
    hide Prediction;
    var x := Synthesis(res, coef, order, r);
    RestoredPrefix(res, coef, order, r, m, |res|);
    RestoredPrefix(res, coef, order, r, m + 1, |res|);
    assert x[m] == x[..m + 1][m];
  }

  /** LPC_Synthesize undoes LPC_Predict with the same coefficients. */
  lemma RoundTrip(x: seq<int>, coef: seq<int>, order: nat, r: nat)
    requires r >= 1 && order <= |coef|
    ensures Synthesis(Residual(x, coef, order, r), coef, order, r) == x
  {
    RestoredOfResidual(x, coef, order, r, |x|);
  }

  lemma {:induction false} RestoredOfResidual(x: seq<int>, coef: seq<int>, order: nat, r: nat, m: nat)
    requires r >= 1 && order <= |coef| && m <= |x|
    ensures Restored(Residual(x, coef, order, r), coef, order, r, m) == x[..m]
  {
    hide Prediction;
    if m > 0 {
      RestoredOfResidual(x, coef, order, r, m - 1);
      assert x[..m - 1] + [x[m - 1]] == x[..m];
    }
  }

  /** LPC_Predict undoes LPC_Synthesize: the filters are inverse
      bijections on blocks. */
  lemma ResidualOfSynthesis(res: seq<int>, coef: seq<int>, order: nat, r: nat)
    requires r >= 1 && order <= |coef|
    ensures Residual(Synthesis(res, coef, order, r), coef, order, r) == res
  {
    hide Prediction;
    forall i | 0 <= i < |res|
      ensures Residual(Synthesis(res, coef, order, r), coef, order, r)[i] == res[i]
    {
      SynthesisAt(res, coef, order, r, i);
    }
  }

  /** The inner loop of LPC_Predict and LPC_Synthesize: 2^(r-1) plus the
      weighted sum of the m samples before data[smpl], the nearest first. */
  method PredictSample(data: array<int>, smpl: nat, coef: array<int>, m: nat, r: nat) returns (predict: int)
    requires r >= 1 && m <= smpl <= data.Length && m <= coef.Length
    ensures predict == Pow2(r - 1) + BackTaps(coef[..], data[..smpl], m)
    ensures m == 0 ==> predict == Pow2(r - 1)
  {
    ghost var before := data[..smpl];
    predict := Pow2(r - 1);
    var ord := 0;
    while ord < m
      invariant ord <= m
      invariant predict == Pow2(r - 1) + BackTaps(coef[..], before, ord)
    {
      BackTapsNext(coef[..], before, ord);
      predict := predict + coef[ord] * data[smpl - ord - 1];
      ord := ord + 1;
    }
  }

  /** LPC_Predict.  A missing buffer or a zero shift is refused without
      writing anything; otherwise residual[..n] receives the residual of
      data[..n]. */
  method Predict(data: array?<int>, n: nat, coef: array?<int>, order: nat, residual: array?<int>, r: nat)
    returns (result: ApiResult)
    requires data != null ==> n <= data.Length
    requires residual != null ==> n <= residual.Length && residual != data && residual != coef
    requires coef != null ==> order <= coef.Length
    requires order <= n
    modifies residual
    ensures result == InvalidArgument <==> data == null || coef == null || residual == null || r == 0
    ensures result == Ok || result == InvalidArgument
    ensures result == InvalidArgument && residual != null ==> residual[..] == old(residual[..])
    ensures result == Ok ==> residual[..n] == Residual(data[..n], coef[..], order, r)
    ensures result == Ok ==> residual[n..] == old(residual[n..])
  {
    if data == null || coef == null || residual == null || r == 0 {
      return InvalidArgument;
    }
    hide Residual, Prediction, ShiftRightArithmetic, BackTaps;
    ghost var x := data[..n];
    ghost var c := coef[..];
    ghost var res := Residual(x, c, order, r);
    forall i | 0 <= i < n {
      residual[i] := data[i];
    }
    assert data[..n] == x && coef[..] == c;
    if n > 0 {
      ResidualFirst(x, c, order, r);
    }
    PredictHead(data, n, coef, order, residual, r, res);
    PredictTail(data, n, coef, order, residual, r, res);
    return Ok;
  }

  /** The first loop of LPC_Predict: each sample 1 .. order-1 receives the
      prediction from all the samples before it. */
  method PredictHead(data: array<int>, n: nat, coef: array<int>, order: nat, residual: array<int>, r: nat,
                     ghost res: seq<int>)
    requires n <= data.Length && n <= residual.Length && residual != data && residual != coef
    requires r >= 1 && order <= coef.Length && order <= n
    requires res == Residual(data[..n], coef[..], order, r)
    requires n > 0 ==> residual[0] == res[0]
    requires forall i | 1 <= i < n :: residual[i] == data[i]
    modifies residual
    ensures forall i | 0 <= i < n && (i < order || i == 0) :: residual[i] == res[i]
    ensures forall i | order <= i < n && i != 0 :: residual[i] == data[i]
    ensures residual[n..] == old(residual[n..])
  {
    hide Residual, Prediction, ShiftRightArithmetic, BackTaps;
    ghost var x := data[..n];
    ghost var c := coef[..];
    var smpl := 1;
    while smpl < order
      invariant 1 <= smpl && (smpl <= order || smpl == 1)
      invariant forall i | 0 <= i < smpl && i < n :: residual[i] == res[i]
      invariant forall i | smpl <= i < n :: residual[i] == x[i]
      invariant residual[n..] == old(residual[n..]) && coef[..] == c
    {
      ResidualAt(x, c, order, r, smpl);
      assert data[..smpl] == x[..smpl];
      var predict := PredictSample(data, smpl, coef, smpl, r);
      residual[smpl] := residual[smpl] + ShiftRightArithmetic(predict, r);
      smpl := smpl + 1;
    }
  }

  /** The second loop of LPC_Predict: each sample from the order on
      receives the prediction from the order samples before it. */
  method PredictTail(data: array<int>, n: nat, coef: array<int>, order: nat, residual: array<int>, r: nat,
                     ghost res: seq<int>)
    requires n <= data.Length && n <= residual.Length && residual != data && residual != coef
    requires r >= 1 && order <= coef.Length && order <= n
    requires res == Residual(data[..n], coef[..], order, r)
    requires forall i | 0 <= i < n && (i < order || i == 0) :: residual[i] == res[i]
    requires forall i | order <= i < n && i != 0 :: residual[i] == data[i]
    modifies residual
    ensures residual[..n] == res
    ensures residual[n..] == old(residual[n..])
  {
    hide Residual, Prediction, ShiftRightArithmetic, BackTaps;
    ghost var x := data[..n];
    ghost var c := coef[..];
    RoundShiftBounds(0, r);
    var smpl := order;
    while smpl < n
      invariant order <= smpl <= n
      invariant forall i | 0 <= i < n && (i < smpl || i == 0) :: residual[i] == res[i]
      invariant forall i | smpl <= i < n && i != 0 :: residual[i] == x[i]
      invariant residual[n..] == old(residual[n..]) && coef[..] == c
    {
      ResidualAt(x, c, order, r, smpl);
      assert data[..smpl] == x[..smpl];
      var predict := PredictSample(data, smpl, coef, order, r);
      residual[smpl] := residual[smpl] + ShiftRightArithmetic(predict, r);
      smpl := smpl + 1;
    }
    assert residual[..n] == res;
  }

  /** Residual i in the form LPC_Predict computes it. */
  lemma ResidualAt(x: seq<int>, coef: seq<int>, order: nat, r: nat, i: nat)
    requires r >= 1 && order <= |coef| && i < |x|
    ensures Residual(x, coef, order, r)[i]
            == x[i] + ShiftRightArithmetic(Pow2(r - 1) + BackTaps(coef, x[..i], Min(i, order)), r)
  {
  }

  /** LPC_Synthesize, in place.  A missing buffer or a zero shift is
      refused without writing anything; otherwise data[..n], holding
      residuals, is replaced by the block synthesized from them. */
  method Synthesize(data: array?<int>, n: nat, coef: array?<int>, order: nat, r: nat)
    returns (result: ApiResult)
    requires data != null ==> n <= data.Length && data != coef
    requires coef != null ==> order <= coef.Length
    requires order <= n
    modifies data
    ensures result == InvalidArgument <==> data == null || coef == null || r == 0
    ensures result == Ok || result == InvalidArgument
    ensures result == InvalidArgument && data != null ==> data[..] == old(data[..])
    ensures result == Ok ==> data[..n] == Synthesis(old(data[..n]), coef[..], order, r)
    ensures result == Ok ==> data[n..] == old(data[n..])
  {
    if data == null || coef == null || r == 0 {
      return InvalidArgument;
    }
    hide Synthesis, Restored, Prediction, ShiftRightArithmetic, BackTaps;
    ghost var res := data[..n];
    ghost var c := coef[..];
    ghost var x := Synthesis(res, c, order, r);
    if n > 0 {
      SynthesisFirst(res, c, order, r);
    }
    SynthesizeHead(data, n, coef, order, r, res, x);
    SynthesizeTail(data, n, coef, order, r, res, x);
    return Ok;
  }

  /** The first loop of LPC_Synthesize: samples 1 .. order-1 are restored
      from all the restored samples before them. */
  method SynthesizeHead(data: array<int>, n: nat, coef: array<int>, order: nat, r: nat,
                        ghost res: seq<int>, ghost x: seq<int>)
    requires n <= data.Length && data != coef
    requires r >= 1 && order <= coef.Length && order <= n
    requires |res| == n && x == Synthesis(res, coef[..], order, r)
    requires n > 0 ==> data[0] == x[0]
    requires forall i | 1 <= i < n :: data[i] == res[i]
    modifies data
    ensures forall i | 0 <= i < n && (i < order || i == 0) :: data[i] == x[i]
    ensures forall i | order <= i < n && i != 0 :: data[i] == res[i]
    ensures data[n..] == old(data[n..])
  {
    hide Synthesis, Restored, Prediction, ShiftRightArithmetic, BackTaps;
    ghost var c := coef[..];
    var smpl := 1;
    while smpl < order
      invariant 1 <= smpl && (smpl <= order || smpl == 1)
      invariant forall i | 0 <= i < smpl && i < n :: data[i] == x[i]
      invariant forall i | smpl <= i < n :: data[i] == res[i]
      invariant data[n..] == old(data[n..]) && coef[..] == c
    {
      SynthesisStep(res, c, order, r, smpl);
      assert data[..smpl] == x[..smpl];
      var predict := PredictSample(data, smpl, coef, smpl, r);
      data[smpl] := data[smpl] - ShiftRightArithmetic(predict, r);
      smpl := smpl + 1;
    }
  }

  /** The second loop of LPC_Synthesize: each sample from the order on is
      restored from the order restored samples before it. */
  method SynthesizeTail(data: array<int>, n: nat, coef: array<int>, order: nat, r: nat,
                        ghost res: seq<int>, ghost x: seq<int>)
    requires n <= data.Length && data != coef
    requires r >= 1 && order <= coef.Length && order <= n
    requires |res| == n && x == Synthesis(res, coef[..], order, r)
    requires forall i | 0 <= i < n && (i < order || i == 0) :: data[i] == x[i]
    requires forall i | order <= i < n && i != 0 :: data[i] == res[i]
    modifies data
    ensures data[..n] == x
    ensures data[n..] == old(data[n..])
  {
    hide Synthesis, Restored, Prediction, ShiftRightArithmetic, BackTaps;
    ghost var c := coef[..];
    RoundShiftBounds(0, r);
    var smpl := order;
    while smpl < n
      invariant order <= smpl <= n
      invariant forall i | 0 <= i < n && (i < smpl || i == 0) :: data[i] == x[i]
      invariant forall i | smpl <= i < n && i != 0 :: data[i] == res[i]
      invariant data[n..] == old(data[n..]) && coef[..] == c
    {
      SynthesisStep(res, c, order, r, smpl);
      assert data[..smpl] == x[..smpl];
      var predict := PredictSample(data, smpl, coef, order, r);
      data[smpl] := data[smpl] - ShiftRightArithmetic(predict, r);
      smpl := smpl + 1;
    }
    assert data[..n] == x;
  }

  /** The first sample passes through the synthesis unchanged. */
  lemma SynthesisFirst(res: seq<int>, coef: seq<int>, order: nat, r: nat)
    requires r >= 1 && order <= |coef| && |res| > 0
    ensures Synthesis(res, coef, order, r)[0] == res[0]
  {
    SynthesisAt(res, coef, order, r, 0);
    RoundShiftBounds(0, r);
  }

  /** Sample m of the synthesis in the form LPC_Synthesize computes it. */
  lemma SynthesisStep(res: seq<int>, coef: seq<int>, order: nat, r: nat, m: nat)
    requires r >= 1 && order <= |coef| && m < |res|
    ensures var x := Synthesis(res, coef, order, r);
            x[m] == res[m] - ShiftRightArithmetic(Pow2(r - 1) + BackTaps(coef, x[..m], Min(m, order)), r)
  {
    SynthesisAt(res, coef, order, r, m);
  }

  /* ---------------------------------------------------------------- */
  /* LPC_QuantizeCoefficients.                                         */
  /* ---------------------------------------------------------------- */

  /** LPC_Round: to the nearest integer, halves away from zero. */
  function Round(d: real): int
  {
    if d >= 0.0 then (d + 0.5).Floor else -((-d + 0.5).Floor)
  }

  /** The rounding error is at most one half. */
  lemma RoundNearest(d: real)
    ensures -0.5 <= (Round(d) as real) - d <= 0.5
  {
  }

  /** The clamp into the signed range [-qmax, qmax - 1]. */
  function Clamp(q: int, qmax: nat): (c: int)
    requires qmax >= 1
    ensures -(qmax as int) <= c < qmax
    ensures -(qmax as int) <= q < qmax ==> c == q
  {
    if q >= qmax then qmax - 1 else if q < -(qmax as int) then -(qmax as int) else q
  }

  /** |d|. */
  function Abs(d: real): (a: real)
    ensures a >= 0.0 && (a == d || a == -d)
  {
    if d < 0.0 then -d else d
  }

  /** The largest |c[i]|, 0 for no coefficients. */
  function MaxAbs(c: seq<real>): (m: real)
    ensures m >= 0.0
    ensures forall i | 0 <= i < |c| :: Abs(c[i]) <= m
    ensures |c| > 0 ==> exists i | 0 <= i < |c| :: Abs(c[i]) == m
  {
    if |c| == 0 then 0.0
    else
      var m := MaxAbs(c[..|c| - 1]);
      assert forall i | 0 <= i < |c| - 1 :: c[..|c| - 1][i] == c[i];
      if m < Abs(c[|c| - 1]) then Abs(c[|c| - 1]) else m
  }

  /** 2^e for an integer exponent. */
  function Pow2Real(e: int): (p: real)
    ensures p > 0.0
  {
    if e >= 0 then Pow2(e) as real else 1.0 / (Pow2(-e) as real)
  }

  /** The exponent frexp returns for m > 0: m lies in [2^(e-1), 2^e). */
  ghost predicate FrexpExponent(m: real, e: int)
  {
    m > 0.0 ==> Pow2Real(e - 1) <= m < Pow2Real(e)
  }

  /** The quantization of c[j..] from the last coefficient backwards, each
      scaled by 2^rshift, rounded with the error carried over from the one
      after it, and clamped; returns the integers and the final error. */
  function Quantized(c: seq<real>, scale: real, qmax: nat, j: nat): (p: (seq<int>, real))
    requires qmax >= 1 && j <= |c|
    ensures |p.0| == |c| - j
    ensures forall k | 0 <= k < |p.0| :: -(qmax as int) <= p.0[k] < qmax
    decreases |c| - j
  {
    if j == |c| then ([], 0.0)
    else
      var after := Quantized(c, scale, qmax, j + 1);
      var e := after.1 + c[j] * scale;
      var q := Clamp(Round(e), qmax);
      ([q] + after.0, e - q as real)
  }

  /** Nothing is left to quantize past the last coefficient. */
  lemma QuantizedNone(c: seq<real>, scale: real, qmax: nat)
    requires qmax >= 1
    ensures Quantized(c, scale, qmax, |c|) == ([], 0.0)
  {
  }

  /** One step of the backward quantization. */
  lemma QuantizedStep(c: seq<real>, scale: real, qmax: nat, j: nat)
    requires qmax >= 1 && j < |c|
    ensures var after := Quantized(c, scale, qmax, j + 1);
            var e := after.1 + c[j] * scale;
            Quantized(c, scale, qmax, j) == ([Clamp(Round(e), qmax)] + after.0, e - Clamp(Round(e), qmax) as real)
  {
  }

  /** The shift LPC_QuantizeCoefficients chooses for coefficients whose
      largest magnitude has frexp exponent ndigit, capped at maxBits - 1. */
  function QuantizeShift(nbits: nat, maxBits: nat, ndigit: int): (rshift: nat)
    requires nbits >= 1 && maxBits >= 1 && ndigit <= nbits - 1
    ensures rshift <= maxBits - 1
    ensures rshift <= nbits - 1 - ndigit
  {
    var s := nbits - 1 - ndigit;
    if s >= maxBits then maxBits - 1 else s
  }

  /** LPC_QuantizeCoefficients.  The exponent frexp computes for the
      largest magnitude is the parameter ndigit; the source asserts that it
      is at most nbits - 1.  A missing buffer or zero precision is refused
      without writing anything.  Coefficients no larger than 2^-(nbits-1)
      all quantize to 0 with shift nbits; otherwise they quantize as
      Quantized describes, into [-2^(nbits-1), 2^(nbits-1) - 1], with a shift
      of at most maxBits - 1. */
  method QuantizeCoefficients(doubleCoef: array?<real>, order: nat, nbits: nat, maxBits: nat,
                              intCoef: array?<int>, ndigit: int)
    returns (result: ApiResult, rshift: nat)
    requires doubleCoef != null ==> order <= doubleCoef.Length
    requires intCoef != null ==> order <= intCoef.Length
    requires maxBits >= 1
    requires doubleCoef != null && nbits >= 1 && MaxAbs(doubleCoef[..order]) > 1.0 / (Pow2(nbits - 1) as real) ==>
               FrexpExponent(MaxAbs(doubleCoef[..order]), ndigit) && ndigit <= nbits - 1
    modifies intCoef
    ensures result == InvalidArgument <==> doubleCoef == null || intCoef == null || nbits == 0
    ensures result == Ok || result == InvalidArgument
    ensures result == InvalidArgument && intCoef != null ==> intCoef[..] == old(intCoef[..])
    ensures result == Ok ==> intCoef[order..] == old(intCoef[order..])
    ensures result == Ok && MaxAbs(doubleCoef[..order]) <= 1.0 / (Pow2(nbits - 1) as real) ==>
              rshift == nbits && forall k | 0 <= k < order :: intCoef[k] == 0
    ensures result == Ok && MaxAbs(doubleCoef[..order]) > 1.0 / (Pow2(nbits - 1) as real) ==>
              rshift == QuantizeShift(nbits, maxBits, ndigit) && rshift <= maxBits - 1 &&
              intCoef[..order] == Quantized(doubleCoef[..order], Pow2(rshift) as real, Pow2(nbits - 1), 0).0
    ensures result == Ok ==> forall k | 0 <= k < order :: -(Pow2(nbits - 1) as int) <= intCoef[k] < Pow2(nbits - 1)
  {
    hide Quantized, FrexpExponent, MaxAbs, Pow2Real;
    if doubleCoef == null || intCoef == null || nbits == 0 {
      return InvalidArgument, 0;
    }
    var qmax := Pow2(nbits - 1);
    var max := MaxMagnitude(doubleCoef, order);
    if max <= 1.0 / (qmax as real) {
      forall k | 0 <= k < order {
        intCoef[k] := 0;
      }
      return Ok, nbits;
    }
    rshift := nbits - 1 - ndigit;
    if rshift >= maxBits {
      rshift := maxBits - 1;
    }
    QuantizeBackwards(doubleCoef, order, Pow2(rshift) as real, qmax, intCoef);
    result := Ok;
  }

  /** The first loop of LPC_QuantizeCoefficients: the largest magnitude
      among the first order coefficients. */
  method MaxMagnitude(doubleCoef: array<real>, order: nat) returns (max: real)
    requires order <= doubleCoef.Length
    ensures max == MaxAbs(doubleCoef[..order])
  {
    max := 0.0;
    var ord := 0;
    while ord < order
      invariant ord <= order
      invariant max == MaxAbs(doubleCoef[..ord])
    {
      assert doubleCoef[..ord + 1][..ord] == doubleCoef[..ord];
      if max < Abs(doubleCoef[ord]) {
        max := Abs(doubleCoef[ord]);
      }
      ord := ord + 1;
    }
    assert doubleCoef[..ord] == doubleCoef[..order];
  }

  /** The quantization loop of LPC_QuantizeCoefficients, from the last
      coefficient to the first, carrying the rounding error. */
  method QuantizeBackwards(doubleCoef: array<real>, order: nat, scale: real, qmax: nat, intCoef: array<int>)
    requires order <= doubleCoef.Length && order <= intCoef.Length && qmax >= 1
    modifies intCoef
    ensures intCoef[..order] == Quantized(doubleCoef[..order], scale, qmax, 0).0
    ensures intCoef[order..] == old(intCoef[order..])
  {
    hide Quantized, Round;
    ghost var c := doubleCoef[..order];
    QuantizedNone(c, scale, qmax);
    var qerror := 0.0;
    var ord := order;
    while ord > 0
      invariant ord <= order
      invariant intCoef[ord..order] == Quantized(c, scale, qmax, ord).0
      invariant qerror == Quantized(c, scale, qmax, ord).1
      invariant intCoef[order..] == old(intCoef[order..])
    {
      ord := ord - 1;
      QuantizedStep(c, scale, qmax, ord);
      assert doubleCoef[ord] == c[ord];
      qerror := qerror + doubleCoef[ord] * scale;
      assert qerror == Quantized(c, scale, qmax, ord + 1).1 + c[ord] * scale;
      var qtmp := Round(qerror);
      if qtmp >= qmax {
        qtmp := qmax - 1;
      } else if qtmp < -(qmax as int) {
        qtmp := -(qmax as int);
      }
      assert qtmp == Clamp(Round(qerror), qmax);
      qerror := qerror - qtmp as real;
      ghost var after := intCoef[ord + 1..order];
      intCoef[ord] := qtmp;
      assert intCoef[ord + 1..order] == after;
      assert intCoef[ord..order] == [qtmp] + after;
    }
    assert intCoef[..order] == intCoef[0..order];
  }
}
