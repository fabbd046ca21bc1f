/**
 * What the partitioned coder of srla_coder.c writes, as bit strings.
 *
 * The samples of a block, zig-zag mapped to unsigned values, are split into
 * 2^porder partitions of equal length.  The coded block is one bit for the
 * code type, ten bits for porder, and then for each partition its
 * parameter (five bits for the first, the gamma code of the zig-zag
 * difference from the previous parameter for the others) followed by the
 * code words of its samples.  The parameter of a partition is derived from
 * the partition's mean by floating-point estimates, which are parameters
 * of the model here (`Estimates`).
 */
module SrlaPartition {
  import opened Bits
  import opened BitRegisters
  import opened SrlaUtility
  import opened SrlaCodes

  /** SRLACoderCodeType without its INVALID member. */
  datatype CodeType = Rice | RecursiveRice

  /** SRLACODER_CODE_TYPE_RICE = 0, SRLACODER_CODE_TYPE_RECURSIVE_RICE = 1. */
  function CodeTypeValue(t: CodeType): (v: nat)
    ensures v < 2 && (v == 0 <==> t == Rice)
  {
    if t == Rice then 0 else 1
  }

  /** The code type a decoder reads from its one-bit field. */
  function CodeTypeOf(v: nat): (t: CodeType)
    requires v < 2
    ensures CodeTypeValue(t) == v
  {
    if v == 0 then Rice else RecursiveRice
  }

  /* ---------------------------------------------------------------- */
  /* Parameters.                                                       */
  /* ---------------------------------------------------------------- */

  /** The integer part of SRLACoder_CalculateOptimalRecursiveRiceParameter
      (its fast path) as written: from the estimate opt_golomb_param >= 1,
      k2 is LOG2FLOOR(opt_golomb_param) and k1 = k2 + 1.  An estimate of
      2^31 or more gives k1 = 32, and `1U << k1` is then a shift by the
      whole word. */
  function RecursiveRiceParameters(golomb: nat): (k: (nat, nat))
    requires 1 <= golomb < WORD_LIMIT
    ensures k.0 == k.1 + 1
    ensures Pow2(k.1) <= golomb < Pow2(k.0)
    ensures golomb >= Pow2(31) <==> k == (32, 31)
  {
    var k2 := Log2Floor(golomb);
    GolombExponent(golomb, k2);
    (k2 + 1, k2)
  }

  /** The exponent of an estimate: at most 30 below 2^31, and 31 from there
      to 2^32. */
  lemma GolombExponent(g: nat, k2: nat)
    requires g < WORD_LIMIT && Pow2(k2) <= g < Pow2(k2 + 1)
    ensures k2 <= 31 && (g >= Pow2(31) <==> k2 == 31)
  {
    Pow2Half();
    Pow2Word();
    if k2 > 31 {
      Pow2Monotone(32, k2);
    }
    if k2 < 31 {
      Pow2Monotone(k2 + 1, 31);
    }
  }

  /** The parameters the model codes with: those of the source with k2
      capped at 30, so that k1 = k2 + 1 is at most 31 and `1U << k1` stays
      inside a 32-bit word.  Below 2^31 they are the source's. */
  function CappedRecursiveRiceParameters(golomb: nat): (k: (nat, nat))
    requires 1 <= golomb < WORD_LIMIT
    ensures k.0 == k.1 + 1 && k.0 <= 31 && Pow2(k.1) <= golomb
    ensures golomb < Pow2(31) ==> k == RecursiveRiceParameters(golomb)
    ensures golomb >= Pow2(31) ==> k == (31, 30)
  {
    var k := RecursiveRiceParameters(golomb);
    if k.1 <= 30 then k
    else
      Pow2Monotone(30, 31);
      (31, 30)
  }

  /** The floating-point estimates, as functions of a partition mean: the
      k of SRLACoder_CalculateOptimalRiceParameter and the opt_golomb_param
      of SRLACoder_CalculateOptimalRecursiveRiceParameter. */
  datatype Estimates = Estimates(riceK: real -> nat, golomb: real -> nat)

  /** Estimates of the source's types: a Rice parameter that fits the
      five-bit field and a `uint32_t` Golomb estimate of at least 1. */
  ghost predicate EstimatesInRange(e: Estimates)
  {
    forall m: real :: e.riceK(m) < 32 && 1 <= e.golomb(m) < WORD_LIMIT
  }

  /** The parameter written for a partition with the given mean: k for the
      Rice code, the capped k2 for the recursive Rice code. */
  function Parameter(e: Estimates, t: CodeType, mean: real): (k: nat)
    requires EstimatesInRange(e)
    ensures k < 32 && (t == RecursiveRice ==> k <= 30)
  {
    if t == Rice then e.riceK(mean)
    else CappedRecursiveRiceParameters(e.golomb(mean)).1
  }

  /** -ln(OPTX), the factor of the fast Golomb estimate. */
  const MLNOPTX: real := 0.66794162356

  /** opt_golomb_param of SRLACoder_CalculateOptimalRecursiveRiceParameter,
      MAX(1, MLNOPTX (1 + mean)) cast to `uint32_t`, with the double
      arithmetic taken as exact. */
  function SourceGolomb(mean: real): (g: nat)
    ensures g >= 1
  {
    var x := MLNOPTX * (1.0 + mean);
    if x < 1.0 then 1 else x.Floor
  }

  /** Every mean of 32-bit values gives a 32-bit estimate. */
  lemma SourceGolombWord(mean: real)
    requires 0.0 <= mean < WORD_LIMIT as real
    ensures 1 <= SourceGolomb(mean) < WORD_LIMIT
  {
  }

  /** As written: a one-sample partition holding -0x7FFF_FFFF has the zig-zag
      value 0xFFFF_FFFD, its estimate is at least 2^31, and the source's
      parameters are k1 = 32, k2 = 31; the capped ones are 31 and 30. */
  lemma AsWrittenParameterOverflow()
    ensures ZigZag([-0x7FFF_FFFF]) == [0xFFFF_FFFD]
    ensures var g := SourceGolomb(PartMean([0xFFFF_FFFD], 0, 0));
            Pow2(31) <= g < WORD_LIMIT &&
            RecursiveRiceParameters(g) == (32, 31) && CappedRecursiveRiceParameters(g) == (31, 30)
  {
    var us: seq<nat> := [0xFFFF_FFFD];
    WholeMean(us);
    assert us[..0] == [];
    assert SumOf(us) == 0xFFFF_FFFD;
    assert Mean(us) == 4294967293.0;
    Pow2Half();
  }

  /* ---------------------------------------------------------------- */
  /* Concatenation of code words.                                      */
  /* ---------------------------------------------------------------- */

  /** The words of w, one after the other. */
  function Flatten<T>(w: seq<seq<T>>): seq<T>
  {
    if |w| == 0 then [] else Flatten(w[..|w| - 1]) + w[|w| - 1]
  }

  /** Appending one more word: how a writer's output grows. */
  lemma FlattenStep<T>(w: seq<seq<T>>, i: nat)
    requires i < |w|
    ensures Flatten(w[..i + 1]) == Flatten(w[..i]) + w[i]
  {
    assert w[..i + 1][..i] == w[..i];
  }

  lemma {:induction false} FlattenSplit<T>(w: seq<seq<T>>, m: nat)
    requires m <= |w|
    ensures Flatten(w) == Flatten(w[..m]) + Flatten(w[m..])
  {
    if m == |w| {
      assert w[..m] == w;
      assert w[m..] == [];
    } else {
      var w' := w[..|w| - 1];
      FlattenSplit(w', m);
      assert w'[..m] == w[..m];
      assert w[m..][..|w[m..]| - 1] == w'[m..];
    }
  }

  /** Taking off the first word: how a reader's input shrinks. */
  lemma FlattenHead<T>(w: seq<seq<T>>, i: nat)
    requires i < |w|
    ensures Flatten(w[i..]) == w[i] + Flatten(w[i + 1..])
  {
    FlattenSplit(w[i..], 1);
    assert w[i..][..1] == [w[i]];
    assert [w[i]][..0] == [];
    assert w[i..][1..] == w[i + 1..];
  }

  /* ---------------------------------------------------------------- */
  /* Samples, partitions and the coded block.                          */
  /* ---------------------------------------------------------------- */

  /** SRLAUTILITY_SINT32_TO_UINT32 applied to every sample. */
  function ZigZag(data: seq<int>): (us: seq<nat>)
    ensures |us| == |data|
  {
    seq(|data|, i requires 0 <= i < |data| => SignedToUnsigned(data[i]))
  }

  /** The word of one sample under a partition parameter k: the Rice code
      with parameter k, or the recursive Rice code with k1 = k + 1, k2 = k. */
  function SampleCode(t: CodeType, k: nat, u: nat): (c: seq<bool>)
    ensures |c| == SampleLength(t, k, u)
  {
    if t == Rice then RiceCode(k, u) else RecursiveRiceCode(k + 1, k, u)
  }

  /** The length the search counts for one sample. */
  function SampleLength(t: CodeType, k: nat, u: nat): nat
  {
    if t == Rice then RiceCodeLength(k, u) else RecursiveRiceLength(k + 1, k, u)
  }

  /** The words of a run of samples. */
  function SampleWords(t: CodeType, k: nat, us: seq<nat>): (w: seq<seq<bool>>)
    ensures |w| == |us|
  {
    seq(|us|, i requires 0 <= i < |us| => SampleCode(t, k, us[i]))
  }

  /** Every parameter fits the five-bit field. */
  predicate ParametersInRange(ks: seq<nat>)
  {
    forall i | 0 <= i < |ks| :: ks[i] < 32
  }

  /** The parameter field of partition p. */
  function ParamCode(ks: seq<nat>, p: nat): (c: seq<bool>)
    requires p < |ks| && ParametersInRange(ks)
    ensures |c| == ParamBits(ks, p)
  {
    if p == 0 then NatToBits(ks[0], RICE_PARAMETER_BITS)
    else GammaCode(SignedToUnsigned(ks[p] as int - ks[p - 1]))
  }

  /** The bits the search counts for the parameter of partition p. */
  function ParamBits(ks: seq<nat>, p: nat): nat
    requires p < |ks| && ParametersInRange(ks)
  {
    if p == 0 then RICE_PARAMETER_BITS else GammaBits(SignedToUnsigned(ks[p] as int - ks[p - 1]))
  }

  /** The nsmpl samples of partition p. */
  function Part(us: seq<nat>, nsmpl: nat, p: nat): (s: seq<nat>)
    requires p * nsmpl + nsmpl <= |us|
    ensures |s| == nsmpl
  {
    us[p * nsmpl .. p * nsmpl + nsmpl]
  }

  lemma PartFits(p: nat, m: nat, nsmpl: nat)
    requires p < m
    ensures p * nsmpl + nsmpl <= m * nsmpl
  {
    assert p * nsmpl + nsmpl == (p + 1) * nsmpl;
    MulLeft(p + 1, m, nsmpl);
  }

  /** The words of the partitions: each parameter field followed by the
      words of the partition's samples. */
  function PartWords(t: CodeType, ks: seq<nat>, us: seq<nat>, nsmpl: nat): (w: seq<seq<bool>>)
    requires |ks| * nsmpl <= |us| && ParametersInRange(ks)
    ensures |w| == |ks|
  {
    seq(|ks|, p requires 0 <= p < |ks| =>
      PartFits(p, |ks|, nsmpl);
      ParamCode(ks, p) + Flatten(SampleWords(t, ks[p], Part(us, nsmpl, p))))
  }

  /** The coded block of SRLACoder_EncodePartitionedRecursiveRice. */
  function PartitionedCode(t: CodeType, porder: nat, ks: seq<nat>, us: seq<nat>): seq<bool>
    requires |ks| == Pow2(porder) && |us| % |ks| == 0 && ParametersInRange(ks)
  {
    ExactDivision(|us|, |ks|);
    NatToBits(CodeTypeValue(t), 1) + NatToBits(porder, LOG2_MAX_NUM_PARTITIONS) +
    Flatten(PartWords(t, ks, us, |us| / |ks|))
  }

  lemma ExactDivision(n: nat, d: nat)
    requires d > 0 && n % d == 0
    ensures d * (n / d) == n && (n / d) * d == n
  {
  }

  /* ---------------------------------------------------------------- */
  /* Means.                                                            */
  /* ---------------------------------------------------------------- */

  function SumOf(us: seq<nat>): nat
  {
    if |us| == 0 then 0 else SumOf(us[..|us| - 1]) + us[|us| - 1]
  }

  lemma {:induction false} SumOfAppend(a: seq<nat>, b: seq<nat>)
    ensures SumOf(a + b) == SumOf(a) + SumOf(b)
  {
    if |b| == 0 {
      assert a + b == a;
    } else {
      SumOfAppend(a, b[..|b| - 1]);
      assert (a + b)[..|a + b| - 1] == a + b[..|b| - 1];
    }
  }

  /** The mean of a nonempty run of samples, in exact arithmetic. */
  function Mean(us: seq<nat>): real
    requires |us| > 0
  {
    (SumOf(us) as real) / (|us| as real)
  }

  /** Partitions of size n / d fit in n samples. */
  lemma FloorFits(n: nat, d: nat, p: nat)
    requires p < d <= n
    ensures n / d >= 1 && p * (n / d) + n / d <= n && d * (n / d) <= n
  {
    PartFits(p, d, n / d);
    assert n == d * (n / d) + n % d;
  }

  /** The mean of partition p of order o: part_mean[o][p]. */
  function PartMean(us: seq<nat>, o: nat, p: nat): real
    requires p < Pow2(o) <= |us|
  {
    FloorFits(|us|, Pow2(o), p);
    Mean(Part(us, |us| / Pow2(o), p))
  }

  /** The single partition of order 0 is the whole block. */
  lemma WholeMean(us: seq<nat>)
    requires |us| > 0
    ensures PartMean(us, 0, 0) == Mean(us)
  {
    assert Part(us, |us| / Pow2(0), 0) == us;
  }

  /** Partition p of size 2m is partitions 2p and 2p + 1 of size m. */
  lemma {:induction false} PartHalves(us: seq<nat>, m: nat, p: nat)
    requires p * (2 * m) + 2 * m <= |us|
    ensures (2 * p) * m + m <= |us| && (2 * p + 1) * m + m <= |us|
    ensures Part(us, 2 * m, p) == Part(us, m, 2 * p) + Part(us, m, 2 * p + 1)
  {
    var s := p * (2 * m);
    assert (2 * p) * m == s && (2 * p + 1) * m == s + m;
    assert Part(us, 2 * m, p) == us[s .. s + 2 * m];
    assert Part(us, m, 2 * p) == us[s .. s + m];
    assert Part(us, m, 2 * p + 1) == us[s + m .. s + 2 * m];
    SliceSplit(us, s, s + m, s + 2 * m);
  }

  /** The average of the two halves' means is the mean of the whole. */
  lemma MergedMean(us: seq<nat>, m: nat, p: nat)
    requires m > 0 && p * (2 * m) + 2 * m <= |us|
    ensures (2 * p) * m + m <= |us| && (2 * p + 1) * m + m <= |us|
    ensures (Mean(Part(us, m, 2 * p)) + Mean(Part(us, m, 2 * p + 1))) / 2.0 == Mean(Part(us, 2 * m, p))
  {
    PartHalves(us, m, p);
    var a, b := Part(us, m, 2 * p), Part(us, m, 2 * p + 1);
    SumOfAppend(a, b);
    assert |a + b| as real == 2.0 * (m as real);
    HalvesAverage(SumOf(a) as real, SumOf(b) as real, m as real);
  }

  lemma HalvesAverage(x: real, y: real, m: real)
    requires m > 0.0
    ensures (x / m + y / m) / 2.0 == (x + y) / (2.0 * m)
  {
  }

  /** The mean of a partition of order o is the average of the means of
      its two halves at order o + 1, when the finer partitions are exact. */
  lemma MergedPartMean(us: seq<nat>, o: nat, p: nat)
    requires |us| > 0 && |us| % Pow2(o + 1) == 0 && p < Pow2(o)
    ensures 2 * p + 1 < Pow2(o + 1) <= |us|
    ensures (PartMean(us, o + 1, 2 * p) + PartMean(us, o + 1, 2 * p + 1)) / 2.0 == PartMean(us, o, p)
  {
    var d := Pow2(o);
    assert Pow2(o + 1) == 2 * d;
    var m := |us| / (2 * d);
    DivisorBound(|us|, 2 * d);
    assert |us| == m * (2 * d);
    DivModUnique(|us|, d, 2 * m, 0);
    PartFits(p, d, 2 * m);
    assert d * (2 * m) == |us|;
    MergedMean(us, m, p);
  }

  lemma DivisorBound(n: nat, d: nat)
    requires 0 < n && 0 < d && n % d == 0
    ensures d <= n && (n / d) * d == n
  {
    MulSign(n / d, d);
  }

  /* ---------------------------------------------------------------- */
  /* The search.                                                       */
  /* ---------------------------------------------------------------- */

  /** The exponent of the largest power of two dividing n. */
  function Valuation(n: nat): nat
    requires n > 0
  {
    if n % 2 == 1 then 0 else 1 + Valuation(n / 2)
  }

  /** 2^k divides n exactly when k is at most the valuation of n. */
  lemma {:induction false} ValuationDivides(n: nat, k: nat)
    requires n > 0
    ensures n % Pow2(k) == 0 <==> k <= Valuation(n)
  {
    if k > 0 {
      var d := Pow2(k - 1);
      assert Pow2(k) == 2 * d;
      DivDiv(n, 2, d);
      var r := n % Pow2(k);
      assert r % 2 == n % 2 && r / 2 == (n / 2) % d;
      if n % 2 == 0 {
        ValuationDivides(n / 2, k - 1);
        assert r == 2 * (r / 2) + r % 2;
      }
    }
  }

  /** The largest partition order for n samples: all partitions equal, at
      most 2^10 of them. */
  function MaxPartitionOrder(n: nat): (r: nat)
    requires n > 0
    ensures r <= LOG2_MAX_NUM_PARTITIONS && n % Pow2(r) == 0 && Pow2(r) <= n
    ensures r < LOG2_MAX_NUM_PARTITIONS ==> n % Pow2(r + 1) != 0
    ensures forall o | 0 <= o <= r :: n % Pow2(o) == 0
  {
    var v := Valuation(n);
    var r := Min(v, LOG2_MAX_NUM_PARTITIONS);
    ValuationDivides(n, r);
    ValuationDivides(n, r + 1);
    DivisorBound(n, Pow2(r));
    forall o | 0 <= o <= r
      ensures n % Pow2(o) == 0
    {
      ValuationDivides(n, o);
    }
    r
  }

  /** The code type chosen from the overall mean. */
  function CodeTypeFor(us: seq<nat>): (t: CodeType)
    requires |us| > 0
    ensures t == Rice <==> Mean(us) < 2.0
  {
    if Mean(us) < 2.0 then Rice else RecursiveRice
  }

  /** The parameters of the 2^o partitions of order o. */
  function OrderParameters(e: Estimates, t: CodeType, us: seq<nat>, o: nat): (ks: seq<nat>)
    requires EstimatesInRange(e) && Pow2(o) <= |us|
    ensures |ks| == Pow2(o) && ParametersInRange(ks)
    ensures forall p | 0 <= p < Pow2(o) :: ks[p] == Parameter(e, t, PartMean(us, o, p))
  {
    seq(Pow2(o), p requires 0 <= p < Pow2(o) => Parameter(e, t, PartMean(us, o, p)))
  }

  /** The bits of the partition fields of order o (all but the first 11
      bits of the coded block). */
  function OrderBits(e: Estimates, t: CodeType, us: seq<nat>, o: nat): nat
    requires EstimatesInRange(e) && Pow2(o) <= |us|
  {
    var ks := OrderParameters(e, t, us, o);
    FloorFits(|us|, Pow2(o), 0);
    |Flatten(PartWords(t, ks, us, |us| / Pow2(o)))|
  }

  /** OrderBits for the orders 0 to maxP. */
  function OrderBitsTable(e: Estimates, t: CodeType, us: seq<nat>, maxP: nat): (s: seq<nat>)
    requires EstimatesInRange(e) && Pow2(maxP) <= |us|
    ensures |s| == maxP + 1
  {
    seq(maxP + 1, o requires 0 <= o <= maxP =>
      Pow2Monotone(o, maxP);
      OrderBits(e, t, us, o))
  }

  /** The first index holding the least value. */
  function FirstMinIndex(s: seq<nat>): (i: nat)
    requires |s| > 0
    ensures i < |s|
    ensures forall j | 0 <= j < |s| :: s[i] <= s[j]
    ensures forall j | 0 <= j < i :: s[j] > s[i]
  {
    if |s| == 1 then 0
    else
      var i := FirstMinIndex(s[..|s| - 1]);
      assert forall j | 0 <= j < |s| - 1 :: s[..|s| - 1][j] == s[j];
      if s[|s| - 1] < s[i] then |s| - 1 else i
  }

  /** The table of the block's code type, up to its largest order. */
  function Table(e: Estimates, us: seq<nat>): (s: seq<nat>)
    requires EstimatesInRange(e) && |us| > 0
    ensures |s| == MaxPartitionOrder(|us|) + 1
  {
    OrderBitsTable(e, CodeTypeFor(us), us, MaxPartitionOrder(|us|))
  }

  /** The order the search settles on: the first order of least size. */
  function BestOrder(e: Estimates, us: seq<nat>): (r: nat)
    requires EstimatesInRange(e) && |us| > 0
    ensures r <= MaxPartitionOrder(|us|) && |us| % Pow2(r) == 0 && Pow2(r) <= |us|
    ensures forall o | 0 <= o <= MaxPartitionOrder(|us|) :: Table(e, us)[r] <= Table(e, us)[o]
    ensures forall o | 0 <= o < r :: Table(e, us)[o] > Table(e, us)[r]
  {
    var r := FirstMinIndex(Table(e, us));
    Pow2Monotone(r, MaxPartitionOrder(|us|));
    r
  }

  /** The size SRLACoder_ComputeCodeLength reports. */
  function BestBits(e: Estimates, us: seq<nat>): nat
    requires EstimatesInRange(e) && |us| > 0
  {
    Table(e, us)[BestOrder(e, us)]
  }

  /** The block SRLACoder_Encode writes for the samples us. */
  function Encoded(e: Estimates, us: seq<nat>): seq<bool>
    requires EstimatesInRange(e) && |us| > 0
  {
    var t, o := CodeTypeFor(us), BestOrder(e, us);
    PartitionedCode(t, o, OrderParameters(e, t, us, o), us)
  }

  /** The written block is 11 header bits longer than the size the search
      reports. */
  lemma EncodedLength(e: Estimates, us: seq<nat>)
    requires EstimatesInRange(e) && |us| > 0
    ensures |Encoded(e, us)| == 1 + LOG2_MAX_NUM_PARTITIONS + BestBits(e, us)
  {
    var t, o := CodeTypeFor(us), BestOrder(e, us);
    Pow2Monotone(o, MaxPartitionOrder(|us|));
    assert Table(e, us)[o] == OrderBits(e, t, us, o);
  }

  /** The inverse of ZigZag. */
  function UnZigZag(us: seq<nat>): (data: seq<int>)
    ensures |data| == |us|
  {
    seq(|us|, i requires 0 <= i < |us| => UnsignedToSigned(us[i]))
  }

  lemma ZigZagRoundTrip(data: seq<int>)
    ensures UnZigZag(ZigZag(data)) == data
  {
    forall i | 0 <= i < |data|
      ensures UnZigZag(ZigZag(data))[i] == data[i]
    {
      SignedRoundTrip(data[i]);
    }
  }

  /** Samples whose zig-zag values the code words carry without a 32-bit
      wrap of a unary quotient. */
  predicate Codable(us: seq<nat>)
  {
    forall i | 0 <= i < |us| :: us[i] < WORD_LIMIT - 1
  }

  /** Every 32-bit sample that is not INT32_MIN is codable. */
  lemma ZigZagCodable(data: seq<int>)
    requires forall i | 0 <= i < |data| :: -0x8000_0000 <= data[i] <= 0x7FFF_FFFF && data[i] != -0x8000_0000
    ensures Codable(ZigZag(data))
  {
  }

  /** Every value is a 32-bit unsigned word. */
  predicate AllWords(us: seq<nat>)
  {
    forall i | 0 <= i < |us| :: us[i] < WORD_LIMIT
  }

  /** Every 32-bit sample has a 32-bit zig-zag value. */
  lemma ZigZagWords(data: seq<int>)
    requires forall i | 0 <= i < |data| :: -0x8000_0000 <= data[i] <= 0x7FFF_FFFF
    ensures AllWords(ZigZag(data))
  {
  }
}
