/**
 * The first-order pre-emphasis filter of srla_utility.c and the two-stage
 * de-emphasis that undoes it.  A filter holds its coefficient, a fixed-point
 * number with SRLA_PREEMPHASIS_COEF_SHIFT = 4 fractional bits, and the
 * sample before the current one.  Pre-emphasis subtracts
 * `(prev * coef) >> 4` from every sample; de-emphasis adds the same amount,
 * computed from the sample it has just restored.
 */
module Emphasis {
  import opened SrlaUtility

  const COEF_SHIFT: nat := 4
  const NUM_FILTERS: nat := 2

  /** `(v * coef) >> 4` with the arithmetic shift. */
  function Scaled(v: int, coef: int): int
  {
    ShiftRightArithmetic(v * coef, COEF_SHIFT)
  }

  /** The sample before x[i], prev for the first one. */
  function Before(x: seq<int>, prev: int, i: nat): int
    requires i < |x|
  {
    if i == 0 then prev else x[i - 1]
  }

  /** The output of Preemphasis on x, starting from prev. */
  function Preemph(x: seq<int>, prev: int, coef: int): (y: seq<int>)
    ensures |y| == |x|
  {
    seq(|x|, i requires 0 <= i < |x| => x[i] - Scaled(Before(x, prev, i), coef))
  }

  /** Sample i of the de-emphasis of y: the inverse recurrence, feeding
      back the restored samples. */
  function DeemphAt(y: seq<int>, prev: int, coef: int, i: nat): int
    requires i < |y|
  {
    y[i] + Scaled(if i == 0 then prev else DeemphAt(y, prev, coef, i - 1), coef)
  }

  /** The single-stage de-emphasis of y, starting from prev. */
  function Deemph(y: seq<int>, prev: int, coef: int): (x: seq<int>)
    ensures |x| == |y|
  {
    seq(|y|, i requires 0 <= i < |y| => DeemphAt(y, prev, coef, i))
  }

  /** De-emphasis undoes pre-emphasis, sample by sample. */
  lemma {:induction false} DeemphPreemphAt(x: seq<int>, prev: int, coef: int, i: nat)
    requires i < |x|
    ensures DeemphAt(Preemph(x, prev, coef), prev, coef, i) == x[i]
  {
    if i > 0 {
      DeemphPreemphAt(x, prev, coef, i - 1);
    }
  }

  lemma DeemphPreemph(x: seq<int>, prev: int, coef: int)
    ensures Deemph(Preemph(x, prev, coef), prev, coef) == x
  {
    forall i | 0 <= i < |x|
      ensures Deemph(Preemph(x, prev, coef), prev, coef)[i] == x[i]
    {
      DeemphPreemphAt(x, prev, coef, i);
    }
  }

  /** Pre-emphasis undoes de-emphasis. */
  lemma PreemphDeemph(y: seq<int>, prev: int, coef: int)
    ensures Preemph(Deemph(y, prev, coef), prev, coef) == y
  {
  }

  /** The two stages of the encoder, filter 0 first, are undone by the two
      stages of the decoder, filter 1 first. */
  lemma TwoStageRoundTrip(x: seq<int>, prev0: int, coef0: int, prev1: int, coef1: int)
    ensures var y := Preemph(Preemph(x, prev0, coef0), prev1, coef1);
            Deemph(Deemph(y, prev1, coef1), prev0, coef0) == x
  {
    DeemphPreemph(Preemph(x, prev0, coef0), prev1, coef1);
    DeemphPreemph(x, prev0, coef0);
  }

  /** The coefficient CalculateCoefficient stores, from the outcome of its
      floating-point analysis: 0 when the signal has (almost) no energy or
      a negative lag-1 correlation, otherwise the rounded correlation
      scaled by 2^4 (non-negative, since the correlation is), capped at
      2^3 - 1. */
  function ClampCoefficient(degenerate: bool, rounded: nat): (coef: int)
    ensures 0 <= coef <= 7
    ensures !degenerate && rounded < 8 ==> coef == rounded
    ensures degenerate ==> coef == 0
  {
    if degenerate then 0
    else if rounded >= 8 then 7
    else rounded
  }

  /** struct SRLAPreemphasisFilter. */
  class PreemphasisFilter {
    var prev: int
    var coef: int

    constructor ()
      ensures prev == 0 && coef == 0
    {
      prev, coef := 0, 0;
    }

    /** SRLAPreemphasisFilter_Initialize. */
    method Initialize()
      modifies this
      ensures prev == 0 && coef == 0
    {
      prev := 0;
      coef := 0;
    }

    /** SRLAPreemphasisFilter_CalculateCoefficient, with the correlation
        analysis abstracted to its outcome. */
    method CalculateCoefficient(degenerate: bool, rounded: nat)
      modifies this
      ensures coef == ClampCoefficient(degenerate, rounded) && prev == old(prev)
    {
      var c := if degenerate then 0 else rounded;
      if c >= 8 {
        c := 7;
      }
      coef := c;
    }

    /** SRLAPreemphasisFilter_Preemphasis on the first n samples. */
    method Preemphasis(buffer: array<int>, n: nat)
      requires n <= buffer.Length
      modifies this, buffer
      ensures buffer[..n] == Preemph(old(buffer[..n]), old(prev), coef)
      ensures buffer[n..] == old(buffer[n..])
      ensures coef == old(coef)
      ensures prev == if n == 0 then old(prev) else old(buffer[n - 1])
    {
      ghost var x := buffer[..n];
      ghost var p0 := prev;
      var p := prev;
      var smpl := 0;
      while smpl < n
        invariant smpl <= n
        invariant p == if smpl == 0 then p0 else x[smpl - 1]
        invariant forall i | 0 <= i < smpl :: buffer[i] == Preemph(x, p0, coef)[i]
        invariant buffer[smpl..] == old(buffer[smpl..])
        invariant coef == old(coef) && prev == p0
      {
        var tmp := buffer[smpl];
        buffer[smpl] := buffer[smpl] - Scaled(p, coef);
        p := tmp;
        smpl := smpl + 1;
      }
      prev := p;
    }
  }

  /** SRLAPreemphasisFilter_MultiStageDeemphasis with num_preem = 2: the
      de-emphasis of filter 1 and then of filter 0, interleaved in one pass
      over the buffer.  Afterwards preem[0].prev holds the last output of
      the first stage and preem[1].prev the last output of the second, as
      the code assigns them. */
  method MultiStageDeemphasis(preem: array<PreemphasisFilter>, numPreem: nat, buffer: array<int>, n: nat)
    requires numPreem == NUM_FILTERS && preem.Length == NUM_FILTERS && preem[0] != preem[1]
    requires 2 <= n <= buffer.Length
    modifies preem[0], preem[1], buffer
    ensures buffer[..n] == Deemph(Deemph(old(buffer[..n]), old(preem[1].prev), preem[1].coef), old(preem[0].prev), preem[0].coef)
    ensures buffer[n..] == old(buffer[n..])
    ensures preem[0].coef == old(preem[0].coef) && preem[1].coef == old(preem[1].coef)
    ensures preem[0].prev == Deemph(old(buffer[..n]), old(preem[1].prev), preem[1].coef)[n - 1]
    ensures preem[1].prev == buffer[n - 1]
  {
    var f0, f1 := preem[0], preem[1];
    var mid := DeemphasisPass(buffer, n, f0.prev, f0.coef, f1.prev, f1.coef);
    f0.prev := mid;
    f1.prev := buffer[n - 1];
  }

  /** The buffer part of MultiStageDeemphasis: both stages in one pass, the
      second stage running one sample behind the first.  It returns the
      last sample of the first stage, which the caller stores in
      preem[0].prev. */
  method DeemphasisPass(buffer: array<int>, n: nat, prev0: int, c0: int, prev1: int, c1: int) returns (mid: int)
    requires 2 <= n <= buffer.Length
    modifies buffer
    ensures buffer[..n] == Deemph(Deemph(old(buffer[..n]), prev1, c1), prev0, c0)
    ensures buffer[n..] == old(buffer[n..])
    ensures mid == Deemph(old(buffer[..n]), prev1, c1)[n - 1]
  {
    hide Deemph, DeemphAt, Scaled;
    ghost var y := buffer[..n];
    ghost var z := Deemph(y, prev1, c1);
    ghost var x := Deemph(z, prev0, c0);
    DeemphStep(y, prev1, c1, 0);
    DeemphStep(y, prev1, c1, 1);
    DeemphStep(z, prev0, c0, 0);
    buffer[0] := buffer[0] + Scaled(prev1, c1);
    buffer[1] := buffer[1] + Scaled(buffer[0], c1);
    buffer[0] := buffer[0] + Scaled(prev0, c0);
    var smpl := 2;
    while smpl < n
      invariant 2 <= smpl <= n
      invariant forall i | 0 <= i < smpl - 1 :: buffer[i] == x[i]
      invariant buffer[smpl - 1] == z[smpl - 1]
      invariant buffer[smpl..] == old(buffer[smpl..])
    {
      DeemphStep(y, prev1, c1, smpl);
      DeemphStep(z, prev0, c0, smpl - 1);
      assert buffer[smpl] == y[smpl];
      buffer[smpl] := buffer[smpl] + Scaled(buffer[smpl - 1], c1);
      buffer[smpl - 1] := buffer[smpl - 1] + Scaled(buffer[smpl - 2], c0);
      smpl := smpl + 1;
    }
    DeemphStep(z, prev0, c0, n - 1);
    mid := buffer[n - 1];
    buffer[n - 1] := buffer[n - 1] + Scaled(buffer[n - 2], c0);
    assert forall i | 0 <= i < n :: buffer[i] == x[i];
    assert buffer[..n] == x;
  }

  /** One sample of the de-emphasis recurrence. */
  lemma DeemphStep(y: seq<int>, prev: int, coef: int, i: nat)
    requires i < |y|
    ensures Deemph(y, prev, coef)[i] == y[i] + Scaled(if i == 0 then prev else Deemph(y, prev, coef)[i - 1], coef)
  {
  }
}
