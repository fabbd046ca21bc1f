/**
 * The in-place stereo conversions of srla_utility.c.  buffer[0] and
 * buffer[1] are the arrays `ch0` and `ch1`; each conversion rewrites the
 * first n samples of both, one sample pair at a time, and leaves the rest
 * alone.  `>> 1` on a signed sample is the arithmetic shift, that is
 * division by 2 rounded towards minus infinity.
 */
module Stereo {
  import opened SrlaUtility

  /** LRtoMS on one pair: S = R - L, then M = L + (S >> 1). */
  function ToMidSide(l: int, r: int): (int, int)
  {
    var s := r - l;
    (l + ShiftRightArithmetic(s, 1), s)
  }

  /** MStoLR on one pair: L = M - (S >> 1), then R = S + L. */
  function FromMidSide(m: int, s: int): (int, int)
  {
    var l := m - ShiftRightArithmetic(s, 1);
    (l, s + l)
  }

  /** LRtoLS on one pair: channel 1 becomes R - L. */
  function ToLeftSide(l: int, r: int): (int, int)
  {
    (l, r - l)
  }

  /** LStoLR on one pair: channel 1 becomes S + L. */
  function FromLeftSide(l: int, s: int): (int, int)
  {
    (l, s + l)
  }

  /** LRtoRS and RStoLR on one pair: channel 0 becomes R - L. */
  function SwapSide(l: int, r: int): (int, int)
  {
    (r - l, r)
  }

  /** MStoLR undoes LRtoMS, and LRtoMS undoes MStoLR. */
  lemma MidSideRoundTrip(l: int, r: int)
    ensures var (m, s) := ToMidSide(l, r); FromMidSide(m, s) == (l, r)
  {
  }

  lemma MidSideOnto(m: int, s: int)
    ensures var (l, r) := FromMidSide(m, s); ToMidSide(l, r) == (m, s)
  {
  }

  /** The mid channel lies between the two inputs. */
  lemma MidBetween(l: int, r: int)
    ensures var (m, _) := ToMidSide(l, r); (l <= r ==> l <= m <= r) && (r <= l ==> r <= m <= l)
  {
    var s := r - l;
    var h := ShiftRightArithmetic(s, 1);
    assert 2 * h <= s < 2 * h + 2;
  }

  lemma LeftSideRoundTrip(l: int, r: int)
    ensures var (a, b) := ToLeftSide(l, r); FromLeftSide(a, b) == (l, r)
  {
  }

  lemma LeftSideOnto(l: int, s: int)
    ensures var (a, b) := FromLeftSide(l, s); ToLeftSide(a, b) == (l, s)
  {
  }

  /** The RS map is its own inverse. */
  lemma SwapSideInvolution(l: int, r: int)
    ensures var (a, b) := SwapSide(l, r); SwapSide(a, b) == (l, r)
  {
  }

  /** SRLAUtility_LRtoMSConversion. */
  method LRtoMS(ch0: array<int>, ch1: array<int>, n: nat)
    requires ch0 != ch1 && n <= ch0.Length && n <= ch1.Length
    modifies ch0, ch1
    ensures forall i | 0 <= i < n :: (ch0[i], ch1[i]) == ToMidSide(old(ch0[i]), old(ch1[i]))
    ensures ch0[n..] == old(ch0[n..]) && ch1[n..] == old(ch1[n..])
  {
    var smpl := 0;
    while smpl < n
      invariant smpl <= n
      invariant forall i | 0 <= i < smpl :: (ch0[i], ch1[i]) == ToMidSide(old(ch0[i]), old(ch1[i]))
      invariant ch0[smpl..] == old(ch0[smpl..]) && ch1[smpl..] == old(ch1[smpl..])
    {
      ch1[smpl] := ch1[smpl] - ch0[smpl];
      ch0[smpl] := ch0[smpl] + ShiftRightArithmetic(ch1[smpl], 1);
      smpl := smpl + 1;
    }
  }

  /** SRLAUtility_MStoLRConversion. */
  method MStoLR(ch0: array<int>, ch1: array<int>, n: nat)
    requires ch0 != ch1 && n <= ch0.Length && n <= ch1.Length
    modifies ch0, ch1
    ensures forall i | 0 <= i < n :: (ch0[i], ch1[i]) == FromMidSide(old(ch0[i]), old(ch1[i]))
    ensures ch0[n..] == old(ch0[n..]) && ch1[n..] == old(ch1[n..])
  {
    var smpl := 0;
    while smpl < n
      invariant smpl <= n
      invariant forall i | 0 <= i < smpl :: (ch0[i], ch1[i]) == FromMidSide(old(ch0[i]), old(ch1[i]))
      invariant ch0[smpl..] == old(ch0[smpl..]) && ch1[smpl..] == old(ch1[smpl..])
    {
      ch0[smpl] := ch0[smpl] - ShiftRightArithmetic(ch1[smpl], 1);
      ch1[smpl] := ch1[smpl] + ch0[smpl];
      smpl := smpl + 1;
    }
  }

  /** SRLAUtility_LRtoLSConversion: channel 0 is untouched. */
  method LRtoLS(ch0: array<int>, ch1: array<int>, n: nat)
    requires ch0 != ch1 && n <= ch0.Length && n <= ch1.Length
    modifies ch1
    ensures forall i | 0 <= i < n :: (ch0[i], ch1[i]) == ToLeftSide(old(ch0[i]), old(ch1[i]))
    ensures ch1[n..] == old(ch1[n..])
  {
    var smpl := 0;
    while smpl < n
      invariant smpl <= n
      invariant forall i | 0 <= i < smpl :: (ch0[i], ch1[i]) == ToLeftSide(old(ch0[i]), old(ch1[i]))
      invariant ch1[smpl..] == old(ch1[smpl..])
    {
      ch1[smpl] := ch1[smpl] - ch0[smpl];
      smpl := smpl + 1;
    }
  }

  /** SRLAUtility_LStoLRConversion: channel 0 is untouched. */
  method LStoLR(ch0: array<int>, ch1: array<int>, n: nat)
    requires ch0 != ch1 && n <= ch0.Length && n <= ch1.Length
    modifies ch1
    ensures forall i | 0 <= i < n :: (ch0[i], ch1[i]) == FromLeftSide(old(ch0[i]), old(ch1[i]))
    ensures ch1[n..] == old(ch1[n..])
  {
    var smpl := 0;
    while smpl < n
      invariant smpl <= n
      invariant forall i | 0 <= i < smpl :: (ch0[i], ch1[i]) == FromLeftSide(old(ch0[i]), old(ch1[i]))
      invariant ch1[smpl..] == old(ch1[smpl..])
    {
      ch1[smpl] := ch1[smpl] + ch0[smpl];
      smpl := smpl + 1;
    }
  }

  /** SRLAUtility_LRtoRSConversion and SRLAUtility_RStoLRConversion, which
      have the same body: channel 1 is untouched. */
  method SwapSideConversion(ch0: array<int>, ch1: array<int>, n: nat)
    requires ch0 != ch1 && n <= ch0.Length && n <= ch1.Length
    modifies ch0
    ensures forall i | 0 <= i < n :: (ch0[i], ch1[i]) == SwapSide(old(ch0[i]), old(ch1[i]))
    ensures ch0[n..] == old(ch0[n..])
  {
    var smpl := 0;
    while smpl < n
      invariant smpl <= n
      invariant forall i | 0 <= i < smpl :: (ch0[i], ch1[i]) == SwapSide(old(ch0[i]), old(ch1[i]))
      invariant ch0[smpl..] == old(ch0[smpl..])
    {
      ch0[smpl] := ch1[smpl] - ch0[smpl];
      smpl := smpl + 1;
    }
  }
}
