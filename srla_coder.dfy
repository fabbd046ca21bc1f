/**
 * The partitioned entropy coder of srla_coder.c on the bit stream: the
 * search for the code type and partition order, the encoder that writes
 * the block of SrlaPartition, and the decoder that reads it back.
 */
module SrlaCoder {
  import opened Bits
  import opened BitRegisters
  import opened BitStreams
  import opened SrlaUtility
  import opened SrlaCodes
  import opened CodeIO
  import opened SrlaPartition

  /** A writer with room for n1 + n2 bits has room for n1 now, and for n2
      once it has put n1. */
  lemma RoomFor(stream: BitStream, n1: nat, n2: nat)
    requires stream.Valid() && !stream.readMode && stream.Room(n1 + n2)
    ensures stream.Room(n1) && CountAfter(stream.bitCount, n1) <= 32
    ensures stream.memoryP + 4 * WordsStored(stream.bitCount, n1) +
            4 * WordsStored(CountAfter(stream.bitCount, n1), n2) <= stream.memory.Length
  {
    TwoPuts(stream.memoryP, stream.bitCount, n1, n2, stream.memory.Length);
  }

  /** The length of every word, and how the rest of a list of words
      shrinks by one. */
  lemma WordSplit(w: seq<seq<bool>>, i: nat)
    requires i < |w|
    ensures Flatten(w[..i + 1]) == Flatten(w[..i]) + w[i]
    ensures Flatten(w[i..]) == w[i] + Flatten(w[i + 1..])
    ensures |Flatten(w[i..])| == |w[i]| + |Flatten(w[i + 1..])|
  {
    FlattenStep(w, i);
    FlattenHead(w, i);
  }

  /** No words, and all the words. */
  lemma FlattenEnds<T>(w: seq<seq<T>>)
    ensures Flatten(w[..0]) == [] && Flatten(w[|w|..]) == []
    ensures Flatten(w[..|w|]) == Flatten(w) && Flatten(w[0..]) == Flatten(w)
  {
    assert w[..0] == [] && w[|w|..] == [];
    assert w[..|w|] == w && w[0..] == w;
  }

  /** The word of sample i is its code word. */
  lemma SampleWordAt(t: CodeType, k: nat, vs: seq<nat>, i: nat)
    requires i < |vs|
    ensures SampleWords(t, k, vs)[i] == SampleCode(t, k, vs[i])
    ensures |SampleWords(t, k, vs)[i]| == SampleLength(t, k, vs[i])
  {
  }

  /** The samples of a partition rewritten as zig-zag values: the bits of
      a Rice-coded partition, summed with Rice_GetCodeLength. */
  method RiceCodesLength(data: array<nat>, start: nat, num: nat, k: nat) returns (length: nat)
    requires start + num <= data.Length
    ensures length == |Flatten(SampleWords(Rice, k, data[start .. start + num]))|
  {
    hide Flatten, SampleWords, Shr, Pow2;
    ghost var w := SampleWords(Rice, k, data[start .. start + num]);
    FlattenEnds(w);
    length := 0;
    var smpl := 0;
    while smpl < num
      invariant smpl <= num
      invariant length == |Flatten(w[..smpl])|
    {
      FlattenStep(w, smpl);
      SampleWordAt(Rice, k, data[start .. start + num], smpl);
      length := length + RiceCodeLength(k, data[start + smpl]);
      smpl := smpl + 1;
    }
    FlattenEnds(w);
  }

  /** RecursiveRice_ComputeCodeLength in its fast form, which counts k1 + 1
      bits for every sample first and then adds the unary quotients, here
      with the difference taken on unsigned values. */
  method RecursiveRiceComputeCodeLength(data: array<nat>, start: nat, num: nat, k1: nat, k2: nat)
    returns (length: nat)
    requires start + num <= data.Length && k1 == k2 + 1
    ensures length == |Flatten(SampleWords(RecursiveRice, k2, data[start .. start + num]))|
  {
    hide Flatten, SampleWords, Shr, Shl, Pow2;
    ghost var vs := data[start .. start + num];
    ghost var w := SampleWords(RecursiveRice, k2, vs);
    FlattenEnds(w);
    var k1pow := Shl(1, k1);
    OneShifted(k1);
    length := (k1 + 1) * num;
    var smpl := 0;
    while smpl < num
      invariant smpl <= num
      invariant length == (k1 + 1) * (num - smpl) + |Flatten(w[..smpl])|
    {
      FlattenStep(w, smpl);
      SampleWordAt(RecursiveRice, k2, vs, smpl);
      FastSampleLengthCorrect(k1, k2, vs[smpl]);
      assert (k1 + 1) * (num - smpl) == (k1 + 1) * (num - smpl - 1) + k1 + 1;
      var uval := data[start + smpl];
      length := length + (if uval >= k1pow then Shr(uval - k1pow, k2) else 0);
      smpl := smpl + 1;
    }
    FlattenEnds(w);
  }

  /** The Rice loop of SRLACoder_EncodePartitionedRecursiveRice: the words
      of one partition, tail bits of room left over for what follows. */
  method EncodeRice(stream: BitStream, data: array<nat>, start: nat, num: nat, k: nat, ghost tail: nat)
    requires stream.Valid() && !stream.readMode && k < 32
    requires start + num <= data.Length && Codable(data[start .. start + num])
    requires stream.Room(|Flatten(SampleWords(Rice, k, data[start .. start + num]))| + tail)
    modifies stream, stream.memory
    ensures stream.Valid() && !stream.readMode && stream.memory == old(stream.memory)
    ensures stream.Written() == old(stream.Written()) + Flatten(SampleWords(Rice, k, data[start .. start + num]))
    ensures stream.Room(tail)
  {
    hide NatToBits, Zeros, BytesToBits, BitsToNat, WriterBits, WriterRegister, ReaderRegister, Pow2, Shr, Shl, Low, Nlz, BitLength, WordsStored, CountAfter, RiceCode, RecursiveRiceCode, Flatten, SampleWords, BitStream.Written;
    ghost var vs := data[start .. start + num];
    ghost var w := SampleWords(Rice, k, vs);
    ghost var w0 := stream.Written();
    FlattenEnds(w);
    var smpl := 0;
    while smpl < num
      invariant smpl <= num
      invariant stream.Valid() && !stream.readMode && stream.memory == old(stream.memory)
      invariant stream.Written() == w0 + Flatten(w[..smpl])
      invariant stream.Room(|Flatten(w[smpl..])| + tail)
    {
      WordSplit(w, smpl);
      SampleWordAt(Rice, k, vs, smpl);
      RoomFor(stream, |w[smpl]|, |Flatten(w[smpl + 1..])| + tail);
      assert vs[smpl] < WORD_LIMIT - 1;
      RiceQuotientFits(k, vs[smpl]);
      RicePutCode(stream, k, data[start + smpl]);
      smpl := smpl + 1;
    }
    FlattenEnds(w);
  }

  /** The unary quotient of a codable value does not wrap. */
  lemma RiceQuotientFits(k: nat, u: nat)
    requires u < WORD_LIMIT - 1
    ensures Shr(u, k) + 1 < WORD_LIMIT
  {
    ShrDiv(u, k);
  }

  /** The second-stage quotient of any 32-bit value, INT32_MIN's
      0xFFFF_FFFF included, does not wrap when k1 = k2 + 1. */
  lemma RecursiveQuotientFits(k1: nat, k2: nat, u: nat)
    requires u < WORD_LIMIT && k1 == k2 + 1
    ensures u >= Pow2(k1) ==> Shr(u - Pow2(k1), k2) + 2 < WORD_LIMIT
  {
    if u >= Pow2(k1) {
      var p := Pow2(k2);
      assert Pow2(k1) == 2 * p;
      ShrDiv(u - 2 * p, k2);
      QuotientLess(u - 2 * p, p);
    }
  }

  lemma QuotientLess(x: nat, p: nat)
    requires p >= 1
    ensures x / p <= x
  {
  }

  /** SRLACoder_EncodeRecursiveRice. */
  method EncodeRecursiveRice(stream: BitStream, data: array<nat>, start: nat, num: nat, k1: nat, k2: nat, ghost tail: nat)
    requires stream.Valid() && !stream.readMode && k1 == k2 + 1 && k1 < 32
    requires start + num <= data.Length && AllWords(data[start .. start + num])
    requires stream.Room(|Flatten(SampleWords(RecursiveRice, k2, data[start .. start + num]))| + tail)
    modifies stream, stream.memory
    ensures stream.Valid() && !stream.readMode && stream.memory == old(stream.memory)
    ensures stream.Written() == old(stream.Written()) + Flatten(SampleWords(RecursiveRice, k2, data[start .. start + num]))
    ensures stream.Room(tail)
  {
    hide NatToBits, Zeros, BytesToBits, BitsToNat, WriterBits, WriterRegister, ReaderRegister, Pow2, Shr, Shl, Low, Nlz, BitLength, WordsStored, CountAfter, RiceCode, RecursiveRiceCode, Flatten, SampleWords, BitStream.Written;
    ghost var vs := data[start .. start + num];
    ghost var w := SampleWords(RecursiveRice, k2, vs);
    ghost var w0 := stream.Written();
    FlattenEnds(w);
    var smpl := 0;
    while smpl < num
      invariant smpl <= num
      invariant stream.Valid() && !stream.readMode && stream.memory == old(stream.memory)
      invariant stream.Written() == w0 + Flatten(w[..smpl])
      invariant stream.Room(|Flatten(w[smpl..])| + tail)
    {
      WordSplit(w, smpl);
      SampleWordAt(RecursiveRice, k2, vs, smpl);
      RoomFor(stream, |w[smpl]|, |Flatten(w[smpl + 1..])| + tail);
      assert vs[smpl] < WORD_LIMIT;
      RecursiveQuotientFits(k1, k2, vs[smpl]);
      RecursiveRicePutCode(stream, k2 + 1, k2, data[start + smpl]);
      smpl := smpl + 1;
    }
    FlattenEnds(w);
  }

  /** The Rice loop of SRLACoder_DecodePartitionedRecursiveRice. */
  method DecodeRice(stream: BitStream, data: array<int>, start: nat, num: nat, k: nat,
                    ghost vs: seq<nat>, ghost rest: seq<bool>)
    requires k < 32 && start + num <= data.Length && |vs| == num && AllWords(vs)
    requires Holds(stream, Flatten(SampleWords(Rice, k, vs)) + rest)
    modifies stream, data
    ensures Holds(stream, rest) && stream.memory == old(stream.memory)
    ensures data[start .. start + num] == UnZigZag(vs)
    ensures forall i | 0 <= i < data.Length && !(start <= i < start + num) :: data[i] == old(data[i])
  {
    hide NatToBits, Zeros, BytesToBits, BitsToNat, ReaderRegister, Pow2, Shr, Shl, Low, RiceCode, RecursiveRiceCode, Flatten, SampleWords, Holds;
    ghost var w := SampleWords(Rice, k, vs);
    var smpl := 0;
    FlattenEnds(w);
    while smpl < num
      invariant smpl <= num
      invariant Holds(stream, Flatten(w[smpl..]) + rest) && stream.memory == old(stream.memory)
      invariant forall i | 0 <= i < smpl :: data[start + i] == UnsignedToSigned(vs[i])
      invariant forall i | 0 <= i < data.Length && !(start <= i < start + smpl) :: data[i] == old(data[i])
    {
      WordSplit(w, smpl);
      SampleWordAt(Rice, k, vs, smpl);
      assert Flatten(w[smpl..]) + rest == RiceCode(k, vs[smpl]) + (Flatten(w[smpl + 1..]) + rest);
      var uval := RiceGetCode(stream, k, vs[smpl], Flatten(w[smpl + 1..]) + rest);
      data[start + smpl] := UnsignedToSigned(uval);
      smpl := smpl + 1;
    }
    assert Flatten(w[num..]) + rest == rest;
  }

  /** SRLACoder_DecodeRecursiveRice. */
  method DecodeRecursiveRice(stream: BitStream, data: array<int>, start: nat, num: nat, k1: nat, k2: nat,
                             ghost vs: seq<nat>, ghost rest: seq<bool>)
    requires k1 == k2 + 1 && k2 < 32 && start + num <= data.Length && |vs| == num && AllWords(vs)
    requires Holds(stream, Flatten(SampleWords(RecursiveRice, k2, vs)) + rest)
    modifies stream, data
    ensures Holds(stream, rest) && stream.memory == old(stream.memory)
    ensures data[start .. start + num] == UnZigZag(vs)
    ensures forall i | 0 <= i < data.Length && !(start <= i < start + num) :: data[i] == old(data[i])
  {
    hide NatToBits, Zeros, BytesToBits, BitsToNat, ReaderRegister, Pow2, Shr, Shl, Low, RiceCode, RecursiveRiceCode, Flatten, SampleWords, Holds;
    ghost var w := SampleWords(RecursiveRice, k2, vs);
    var smpl := 0;
    FlattenEnds(w);
    while smpl < num
      invariant smpl <= num
      invariant Holds(stream, Flatten(w[smpl..]) + rest) && stream.memory == old(stream.memory)
      invariant forall i | 0 <= i < smpl :: data[start + i] == UnsignedToSigned(vs[i])
      invariant forall i | 0 <= i < data.Length && !(start <= i < start + smpl) :: data[i] == old(data[i])
    {
      WordSplit(w, smpl);
      SampleWordAt(RecursiveRice, k2, vs, smpl);
      assert Flatten(w[smpl..]) + rest == RecursiveRiceCode(k2 + 1, k2, vs[smpl]) + (Flatten(w[smpl + 1..]) + rest);
      var uval := RecursiveRiceGetCode(stream, k2 + 1, k2, vs[smpl], Flatten(w[smpl + 1..]) + rest);
      data[start + smpl] := UnsignedToSigned(uval);
      smpl := smpl + 1;
    }
    assert Flatten(w[num..]) + rest == rest;
  }

  /* ---------------------------------------------------------------- */
  /* The search.                                                       */
  /* ---------------------------------------------------------------- */

  /** SRLACODER_MAX_NUM_PARTITIONS. */
  const MAX_NUM_PARTITIONS: nat := 1024
  /** The UINT32_MAX every part_mean starts with. */
  const UNSET_MEAN: real := 4294967295.0

  /** The first loop of SRLACoder_SearchBestCodeAndPartition: the
      smallest exponent whose power of two does not divide n, less one,
      capped at 10. */
  method ComputeMaxPartitionOrder(n: nat) returns (r: nat)
    requires n > 0
    ensures r == MaxPartitionOrder(n)
  {
    var maxPorder := 1;
    ValuationDivides(n, 0);
    ValuationDivides(n, 1);
    while n % Pow2(maxPorder) == 0
      invariant 1 <= maxPorder <= Valuation(n) + 1
      decreases Valuation(n) + 1 - maxPorder
    {
      ValuationDivides(n, maxPorder);
      maxPorder := maxPorder + 1;
    }
    ValuationDivides(n, maxPorder);
    r := Min(maxPorder - 1, LOG2_MAX_NUM_PARTITIONS);
  }

  /** Every order up to the largest one divides the block into at most
      1024 equal partitions. */
  lemma OrdersFit(n: nat, maxP: nat)
    requires n > 0 && maxP == MaxPartitionOrder(n)
    ensures forall o | 0 <= o <= maxP :: Pow2(o) <= n && Pow2(o) <= MAX_NUM_PARTITIONS && n % Pow2(o) == 0
  {
    forall o | 0 <= o <= maxP
      ensures Pow2(o) <= n && Pow2(o) <= MAX_NUM_PARTITIONS
    {
      Pow2Monotone(o, maxP);
      Pow2Monotone(o, LOG2_MAX_NUM_PARTITIONS);
      Pow2Ten();
    }
  }

  /** The state of the search loop after the orders before k: the best
      order and the least size so far, starting from best_porder =
      max_porder + 1 and min_bits = UINT32_MAX and replacing them only on a
      strictly smaller size. */
  function SearchState(s: seq<nat>, k: nat, none: nat): (nat, nat)
    requires k <= |s|
  {
    if k == 0 then (none, WORD_LIMIT - 1)
    else
      var (b, m) := SearchState(s, k - 1, none);
      if s[k - 1] < m then (k - 1, s[k - 1]) else (b, m)
  }

  /** The search loop finds the first least size, when that size is below
      UINT32_MAX. */
  lemma {:induction false} SearchStateFirstMin(s: seq<nat>, k: nat, none: nat)
    requires 0 < k <= |s|
    ensures var i := FirstMinIndex(s[..k]);
            if s[i] < WORD_LIMIT - 1 then SearchState(s, k, none) == (i, s[i])
            else SearchState(s, k, none) == (none, WORD_LIMIT - 1)
  {
    var i := FirstMinIndex(s[..k]);
    if k == 1 {
      assert i == 0;
    } else {
      SearchStateFirstMin(s, k - 1, none);
      assert s[..k][..k - 1] == s[..k - 1];
      var j := FirstMinIndex(s[..k - 1]);
      assert s[..k][j] == s[j] && s[..k][k - 1] == s[k - 1] && s[..k][i] == s[i];
    }
  }

  /** The search starts from best_porder = none and min_bits = UINT32_MAX. */
  lemma SearchStart(s: seq<nat>, none: nat)
    ensures SearchState(s, 0, none) == (none, WORD_LIMIT - 1)
  {
  }

  /** One step of the search loop, given a size that is exact below the
      least size so far and a lower bound otherwise. */
  lemma SearchStep(s: seq<nat>, k: nat, none: nat, bits: nat, minBits: nat, best: nat)
    requires k < |s| && (best, minBits) == SearchState(s, k, none)
    requires bits <= s[k] && (bits < minBits ==> bits == s[k])
    ensures bits < minBits ==> SearchState(s, k + 1, none) == (k, bits)
    ensures bits >= minBits ==> SearchState(s, k + 1, none) == (best, minBits)
  {
  }

  /** Row o of the table of a block. */
  lemma TableAt(e: Estimates, us: seq<nat>, o: nat)
    requires EstimatesInRange(e) && |us| > 0 && o <= MaxPartitionOrder(|us|)
    ensures Pow2(o) <= |us| && o <= LOG2_MAX_NUM_PARTITIONS
    ensures Table(e, us)[o] == OrderBits(e, CodeTypeFor(us), us, o)
  {
    Pow2Monotone(o, MaxPartitionOrder(|us|));
  }

  /** Over the whole table, the search loop ends on the order and size
      the block is coded with, when that size is below UINT32_MAX. */
  lemma SearchFinds(e: Estimates, us: seq<nat>)
    requires EstimatesInRange(e) && |us| > 0 && BestBits(e, us) < WORD_LIMIT - 1
    ensures var maxP := MaxPartitionOrder(|us|);
            SearchState(Table(e, us), maxP + 1, maxP + 1) == (BestOrder(e, us), BestBits(e, us))
  {
    hide Table, OrderBitsTable, OrderBits, MaxPartitionOrder;
    var table, maxP := Table(e, us), MaxPartitionOrder(|us|);
    SearchStateFirstMin(table, maxP + 1, maxP + 1);
    assert table[..maxP + 1] == table;
  }

  lemma Pow2Ten()
    ensures Pow2(LOG2_MAX_NUM_PARTITIONS) == MAX_NUM_PARTITIONS
  {
    Pow2Values();
    Pow2Add(5, 5);
  }

  /** On a writer: PutBits of a value below 2^n, seen as the value's bits. */
  lemma FieldValue(v: nat, n: nat)
    requires v < Pow2(n)
    ensures BitsToNat(NatToBits(v, n)) == v
  {
    BitsToNatOfNatToBits(v, n);
  }

  /** struct SRLACoder: the per-order partition means and the zig-zag
      values of the block being coded. */
  class Coder {
    var partMean: array2<real>
    var uvalBuffer: array<nat>

    ghost predicate Valid()
      reads this
    {
      partMean.Length0 == LOG2_MAX_NUM_PARTITIONS + 1 && partMean.Length1 == MAX_NUM_PARTITIONS
    }

    /** SRLACoder_Create: a buffer for maxNumSamples values and every mean
        set to UINT32_MAX. */
    constructor (maxNumSamples: nat)
      ensures Valid() && uvalBuffer.Length == maxNumSamples
      ensures fresh(partMean) && fresh(uvalBuffer)
      ensures forall i, j | 0 <= i < LOG2_MAX_NUM_PARTITIONS + 1 && 0 <= j < MAX_NUM_PARTITIONS :: partMean[i, j] == UNSET_MEAN
    {
      partMean := new real[LOG2_MAX_NUM_PARTITIONS + 1, MAX_NUM_PARTITIONS]((i, j) => UNSET_MEAN);
      uvalBuffer := new nat[maxNumSamples];
    }

    /** part_mean[o][p] holds the mean of partition p of order o. */
    ghost predicate MeanAt(us: seq<nat>, o: nat, p: nat)
      reads this, partMean
    {
      Valid() && o <= LOG2_MAX_NUM_PARTITIONS && p < MAX_NUM_PARTITIONS && p < Pow2(o) <= |us| &&
      partMean[o, p] == PartMean(us, o, p)
    }

    /** SRLACoder_SearchBestCodeAndPartition: the code type from the mean
        of the block, then the first partition order of least size.  The
        source asserts that some order is smaller than UINT32_MAX. */
    method SearchBestCodeAndPartition(e: Estimates, data: seq<int>) returns (t: CodeType, bestPorder: nat, minBits: nat)
      requires Valid() && EstimatesInRange(e) && 0 < |data| <= uvalBuffer.Length
      requires BestBits(e, ZigZag(data)) < WORD_LIMIT - 1
      modifies uvalBuffer, partMean
      ensures t == CodeTypeFor(ZigZag(data))
      ensures bestPorder == BestOrder(e, ZigZag(data)) && minBits == BestBits(e, ZigZag(data))
      ensures uvalBuffer[..|data|] == ZigZag(data) && uvalBuffer[|data|..] == old(uvalBuffer[|data|..])
      ensures forall o, p | 0 <= o <= MaxPartitionOrder(|data|) && 0 <= p < Pow2(o) :: MeanAt(ZigZag(data), o, p)
    {
      var n := |data|;
      ghost var us := ZigZag(data);
      var maxPorder := ComputeMaxPartitionOrder(n);
      ComputeMeans(data, maxPorder);
      assert partMean[0, 0] == Mean(us) by {
        assert MeanAt(us, 0, 0);
        WholeMean(us);
      }
      t := if partMean[0, 0] < 2.0 then Rice else RecursiveRice;
      bestPorder, minBits := SearchOrders(e, t, us, n, maxPorder);
    }

    /** Every mean of the orders 0 to maxPorder is cached. */
    ghost predicate MeansReady(us: seq<nat>, maxPorder: nat)
      reads this, partMean
    {
      forall o, p | 0 <= o <= maxPorder && 0 <= p < Pow2(o) :: MeanAt(us, o, p)
    }

    lemma MeansReadyAt(us: seq<nat>, maxPorder: nat, o: nat)
      requires MeansReady(us, maxPorder) && o <= maxPorder
      ensures forall p | 0 <= p < Pow2(o) :: MeanAt(us, o, p)
    {
    }

    /** The search loop over the partition orders 0 to maxPorder, starting
        from best_porder = max_porder + 1 and min_bits = UINT32_MAX. */
    method SearchOrders(e: Estimates, t: CodeType, ghost us: seq<nat>, n: nat, maxPorder: nat) returns (bestPorder: nat, minBits: nat)
      requires Valid() && EstimatesInRange(e) && 0 < n == |us| <= uvalBuffer.Length && uvalBuffer[..n] == us
      requires maxPorder == MaxPartitionOrder(n) && t == CodeTypeFor(us)
      requires MeansReady(us, maxPorder)
      requires BestBits(e, us) < WORD_LIMIT - 1
      ensures bestPorder == BestOrder(e, us) && minBits == BestBits(e, us)
    {
      hide *;
      minBits := WORD_LIMIT - 1;
      bestPorder := maxPorder + 1;
      ghost var table := Table(e, us);
      SearchStart(table, maxPorder + 1);
      var porder: nat := 0;
      while porder <= maxPorder
        invariant porder <= maxPorder + 1
        invariant (bestPorder, minBits) == SearchState(table, porder, maxPorder + 1)
      {
        TableAt(e, us, porder);
        assert forall p | 0 <= p < Pow2(porder) :: MeanAt(us, porder, p) by {
          MeansReadyAt(us, maxPorder, porder);
        }
        var bits := OrderSize(e, t, us, n, porder, minBits);
        ghost var next := SearchState(table, porder + 1, maxPorder + 1);
        assert (if bits < minBits then (porder, bits) else (bestPorder, minBits)) == next by {
          SearchStep(table, porder, maxPorder + 1, bits, minBits, bestPorder);
        }
        if bits < minBits {
          minBits := bits;
          bestPorder := porder;
        }
        assert (bestPorder, minBits) == next;
        porder := porder + 1;
      }
      SearchFinds(e, us);
    }

    /** The second part of SRLACoder_SearchBestCodeAndPartition: the zig-zag
        values are cached in uvalBuffer while the finest partitions are
        summed; every coarser mean is the average of the two below it. */
    method ComputeMeans(data: seq<int>, maxPorder: nat)
      requires Valid() && 0 < |data| <= uvalBuffer.Length
      requires maxPorder == MaxPartitionOrder(|data|)
      modifies uvalBuffer, partMean
      ensures uvalBuffer[..|data|] == ZigZag(data) && uvalBuffer[|data|..] == old(uvalBuffer[|data|..])
      ensures forall o, p | 0 <= o <= maxPorder && 0 <= p < Pow2(o) :: MeanAt(ZigZag(data), o, p)
    {
      hide *;
      ghost var us := ZigZag(data);
      FinestMeans(data, maxPorder);
      var i: int := maxPorder - 1;
      while i >= 0
        modifies partMean
        invariant -1 <= i < maxPorder
        invariant forall o, p | i < o <= maxPorder && 0 <= p < Pow2(o) :: MeanAt(us, o, p)
      {
        MergeMeans(us, i, maxPorder);
        i := i - 1;
      }
    }

    /** The finest partitions: their values cached and their means taken. */
    method FinestMeans(data: seq<int>, maxPorder: nat)
      requires Valid() && 0 < |data| <= uvalBuffer.Length
      requires maxPorder == MaxPartitionOrder(|data|)
      modifies uvalBuffer, partMean
      ensures uvalBuffer[..|data|] == ZigZag(data) && uvalBuffer[|data|..] == old(uvalBuffer[|data|..])
      ensures forall p | 0 <= p < Pow2(maxPorder) :: MeanAt(ZigZag(data), maxPorder, p)
    {
      hide PartMean, Mean, SumOf, ZigZag, Pow2, MaxPartitionOrder;
      var n := |data|;
      ghost var us := ZigZag(data);
      Pow2Monotone(maxPorder, LOG2_MAX_NUM_PARTITIONS);
      Pow2Ten();
      var numParts := Pow2(maxPorder);
      var nsmpl := n / numParts;
      DivisorBound(n, numParts);
      var part: nat := 0;
      var start: nat := 0;
      while part < numParts
        invariant part <= numParts && start == part * nsmpl && start <= n
        invariant forall i | 0 <= i < uvalBuffer.Length :: uvalBuffer[i] == if i < start then us[i] else old(uvalBuffer[i])
        invariant forall p | 0 <= p < part :: partMean[maxPorder, p] == PartMean(us, maxPorder, p)
      {
        FloorFits(n, numParts, part);
        FinestPart(data, maxPorder, part, start, nsmpl);
        assert (part + 1) * nsmpl == start + nsmpl;
        part := part + 1;
        start := start + nsmpl;
      }
      assert uvalBuffer[..n] == us;
      forall p | 0 <= p < Pow2(maxPorder)
        ensures MeanAt(us, maxPorder, p)
      {
        assert partMean[maxPorder, p] == PartMean(us, maxPorder, p);
      }
    }

    /** One finest partition, beginning at sample start: cache its values
        and store its mean. */
    method FinestPart(data: seq<int>, maxPorder: nat, part: nat, start: nat, nsmpl: nat)
      requires Valid() && |data| <= uvalBuffer.Length && maxPorder <= LOG2_MAX_NUM_PARTITIONS
      requires part < Pow2(maxPorder) <= |data| && nsmpl == |data| / Pow2(maxPorder)
      requires start == part * nsmpl && start + nsmpl <= |data|
      modifies uvalBuffer, partMean
      ensures forall i | 0 <= i < uvalBuffer.Length :: uvalBuffer[i] == if start <= i < start + nsmpl then ZigZag(data)[i] else old(uvalBuffer[i])
      ensures forall o, p | 0 <= o < partMean.Length0 && 0 <= p < partMean.Length1 :: partMean[o, p] == if o == maxPorder && p == part then PartMean(ZigZag(data), maxPorder, part) else old(partMean[o, p])
    {
      ghost var us := ZigZag(data);
      var partSum := CachePart(data, start, nsmpl);
      PartMeanIs(us, maxPorder, part, nsmpl, partSum);
      FloorFits(|data|, Pow2(maxPorder), part);
      Pow2Monotone(maxPorder, LOG2_MAX_NUM_PARTITIONS);
      Pow2Ten();
      partMean[maxPorder, part] := partSum / (nsmpl as real);
    }

    /** The inner loop over one finest partition. */
    method CachePart(data: seq<int>, start: nat, nsmpl: nat) returns (partSum: real)
      requires start + nsmpl <= |data| <= uvalBuffer.Length
      modifies uvalBuffer
      ensures partSum == SumOf(ZigZag(data)[start .. start + nsmpl]) as real
      ensures forall i | 0 <= i < uvalBuffer.Length :: uvalBuffer[i] == if start <= i < start + nsmpl then ZigZag(data)[i] else old(uvalBuffer[i])
    {
      hide ZigZag;
      ghost var us := ZigZag(data);
      partSum := 0.0;
      var smpl := 0;
      while smpl < nsmpl
        invariant smpl <= nsmpl
        invariant partSum == SumOf(us[start .. start + smpl]) as real
        invariant forall i | 0 <= i < uvalBuffer.Length :: uvalBuffer[i] == if start <= i < start + smpl then us[i] else old(uvalBuffer[i])
      {
        ZigZagAt(data, start + smpl);
        var uval := SignedToUnsigned(data[start + smpl]);
        uvalBuffer[start + smpl] := uval;
        assert us[start .. start + smpl + 1][..smpl] == us[start .. start + smpl];
        partSum := partSum + uval as real;
        smpl := smpl + 1;
      }
    }

    /** One pass of the merging loop: order i from order i + 1. */
    method MergeMeans(ghost us: seq<nat>, i: nat, maxPorder: nat)
      requires Valid() && |us| > 0 && maxPorder == MaxPartitionOrder(|us|) && i < maxPorder
      requires forall o, p | i < o <= maxPorder && 0 <= p < Pow2(o) :: MeanAt(us, o, p)
      modifies partMean
      ensures forall o, p | i <= o <= maxPorder && 0 <= p < Pow2(o) :: MeanAt(us, o, p)
    {
      hide PartMean, Pow2, MaxPartitionOrder;
      OrdersFit(|us|, maxPorder);
      forall o, p | i < o <= maxPorder && 0 <= p < Pow2(o)
        ensures partMean[o, p] == PartMean(us, o, p)
      {
        assert MeanAt(us, o, p);
      }
      var part := 0;
      while part < Pow2(i)
        invariant part <= Pow2(i)
        invariant forall p | 0 <= p < part :: partMean[i, p] == PartMean(us, i, p)
        invariant forall o, p | i < o <= maxPorder && 0 <= p < Pow2(o) :: partMean[o, p] == PartMean(us, o, p)
      {
        MergedPartMean(us, i, part);
        partMean[i, part] := (partMean[i + 1, 2 * part] + partMean[i + 1, 2 * part + 1]) / 2.0;
        part := part + 1;
      }
    }

    /** One pass of the search loop of SRLACoder_SearchBestCodeAndPartition:
        the size of the partition fields of order porder, summed partition
        by partition and abandoned as soon as it reaches minBits.  Until then
        it is the exact size; a size it gives up on is no more than the
        exact one. */
    method OrderSize(e: Estimates, t: CodeType, ghost us: seq<nat>, n: nat, porder: nat, minBits: nat) returns (bits: nat)
      requires Valid() && EstimatesInRange(e) && 0 < n == |us| <= uvalBuffer.Length && uvalBuffer[..n] == us
      requires porder <= MaxPartitionOrder(n) && Pow2(porder) <= n
      requires forall p | 0 <= p < Pow2(porder) :: MeanAt(us, porder, p)
      ensures bits <= OrderBits(e, t, us, porder)
      ensures bits < minBits ==> bits == OrderBits(e, t, us, porder)
    {
      hide *;
      var numParts := Pow2(porder);
      var nsmpl := Shr(n, porder);
      OrderLayout(n, porder);
      ghost var ks := OrderParameters(e, t, us, porder);
      ghost var w := PartWords(t, ks, us, nsmpl);
      OrderBitsIs(e, t, us, porder);
      MeansOfOrder(us, porder);
      bits := 0;
      assert bits == |Flatten(w[..0])| by { FlattenEnds(w); }
      assert PartStart(0, nsmpl) == 0;
      var part: nat := 0;
      var start: nat := 0;
      var prevk: nat := 0;
      while part < numParts
        invariant part <= numParts && start == PartStart(part, nsmpl) && start <= n
        invariant bits == |Flatten(w[..part])|
        invariant part > 0 ==> prevk == ks[part - 1]
      {
        NextPartStart(n, numParts, part, nsmpl);
        var k, partBits := PartSize(e, t, us, n, porder, part, start, nsmpl, prevk);
        assert bits + partBits == |Flatten(w[..part + 1])| by {
          PartWordAt(t, ks, us, nsmpl, part, start);
          FlattenStep(w, part);
        }
        bits := bits + partBits;
        prevk := k;
        part := part + 1;
        start := start + nsmpl;
        if bits >= minBits {
          assert bits <= |Flatten(w)| by { FlattenSplit(w, part); }
          break;
        }
      }
      assert part == numParts ==> bits == |Flatten(w)| by { FlattenEnds(w); }
    }

    /** The cached means of order o, as raw array entries. */
    lemma MeansOfOrder(us: seq<nat>, o: nat)
      requires Valid() && o <= LOG2_MAX_NUM_PARTITIONS && Pow2(o) <= |us| && Pow2(o) <= MAX_NUM_PARTITIONS
      requires forall p | 0 <= p < Pow2(o) :: MeanAt(us, o, p)
      ensures forall p | 0 <= p < Pow2(o) :: partMean[o, p] == PartMean(us, o, p)
    {
      forall p | 0 <= p < Pow2(o)
        ensures partMean[o, p] == PartMean(us, o, p)
      {
        assert MeanAt(us, o, p);
      }
    }

    /** The body of the partition loop of the search: the parameter of
        partition part of order porder, from its mean, and the size of its
        fields, the samples counted with Rice_GetCodeLength or
        RecursiveRice_ComputeCodeLength and then the parameter field. */
    method PartSize(e: Estimates, t: CodeType, ghost us: seq<nat>, n: nat, porder: nat, part: nat, start: nat, nsmpl: nat, prevk: nat)
      returns (k: nat, partBits: nat)
      requires Valid() && EstimatesInRange(e) && n == |us| <= uvalBuffer.Length && uvalBuffer[..n] == us
      requires porder <= LOG2_MAX_NUM_PARTITIONS && part < MAX_NUM_PARTITIONS
      requires part < Pow2(porder) <= n && start + nsmpl <= n
      requires partMean[porder, part] == PartMean(us, porder, part)
      requires part > 0 ==> prevk == OrderParameters(e, t, us, porder)[part - 1]
      ensures k == OrderParameters(e, t, us, porder)[part]
      ensures partBits == ParamBits(OrderParameters(e, t, us, porder), part) + |Flatten(SampleWords(t, k, us[start .. start + nsmpl]))|
    {
      hide Flatten, SampleWords, Pow2, PartMean, OrderParameters, Log2Floor, GammaDigits;
      ghost var ks := OrderParameters(e, t, us, porder);
      ghost var vs := us[start .. start + nsmpl];
      var mean := partMean[porder, part];
      var k1: nat := 0;
      if t == Rice {
        k := e.riceK(mean);
      } else {
        k1, k := CappedRecursiveRiceParameters(e.golomb(mean)).0, CappedRecursiveRiceParameters(e.golomb(mean)).1;
      }
      assert k == ks[part];
      var paramBits := if part == 0 then RICE_PARAMETER_BITS else GammaBits(SignedToUnsigned(k as int - prevk));
      assert paramBits == ParamBits(ks, part);
      assert uvalBuffer[start .. start + nsmpl] == vs by {
        SliceOfPrefix(uvalBuffer[..], n, start, start + nsmpl);
      }
      hide *;
      if t == Rice {
        partBits := RiceCodesLength(uvalBuffer, start, nsmpl, k);
      } else {
        partBits := RecursiveRiceComputeCodeLength(uvalBuffer, start, nsmpl, k1, k);
      }
      partBits := partBits + paramBits;
    }

    /** The parameter of partition part of order porder, from its cached
        mean: SRLACoder_CalculateOptimalRiceParameter's k for the Rice code,
        SRLACoder_CalculateOptimalRecursiveRiceParameter's k1 and k2 for the
        recursive Rice code. */
    method PartParameter(e: Estimates, t: CodeType, ghost us: seq<nat>, porder: nat, part: nat) returns (k1: nat, k: nat)
      requires Valid() && EstimatesInRange(e) && porder <= LOG2_MAX_NUM_PARTITIONS && part < MAX_NUM_PARTITIONS
      requires part < Pow2(porder) <= |us| && partMean[porder, part] == PartMean(us, porder, part)
      ensures k == OrderParameters(e, t, us, porder)[part]
      ensures t == RecursiveRice ==> k1 == k + 1
    {
      var mean := partMean[porder, part];
      k1 := 0;
      if t == Rice {
        k := e.riceK(mean);
      } else {
        k1, k := CappedRecursiveRiceParameters(e.golomb(mean)).0, CappedRecursiveRiceParameters(e.golomb(mean)).1;
      }
    }

    /** The body of the partition loop of
        SRLACoder_EncodePartitionedRecursiveRice: the parameter field of
        partition part (five bits for the first partition, the gamma code
        of the zig-zag difference from the previous parameter otherwise),
        then the words of its samples, with tail bits of room left over. */
    method EncodePart(e: Estimates, t: CodeType, stream: BitStream, ghost us: seq<nat>, n: nat, porder: nat,
                      part: nat, start: nat, nsmpl: nat, prevk: nat, ghost tail: nat) returns (k: nat)
      requires Valid() && EstimatesInRange(e) && n == |us| <= uvalBuffer.Length && uvalBuffer[..n] == us
      requires AllWords(us) && (t == Rice ==> Codable(us))
      requires porder <= LOG2_MAX_NUM_PARTITIONS && part < MAX_NUM_PARTITIONS
      requires part < Pow2(porder) <= n && start + nsmpl <= n
      requires partMean[porder, part] == PartMean(us, porder, part)
      requires part > 0 ==> prevk == OrderParameters(e, t, us, porder)[part - 1]
      requires stream.Valid() && !stream.readMode
      requires var ks := OrderParameters(e, t, us, porder);
               stream.Room(ParamBits(ks, part) + |Flatten(SampleWords(t, ks[part], us[start .. start + nsmpl]))| + tail)
      modifies stream, stream.memory
      ensures k == OrderParameters(e, t, us, porder)[part]
      ensures stream.Valid() && !stream.readMode && stream.memory == old(stream.memory)
      ensures stream.Written() == old(stream.Written()) + ParamCode(OrderParameters(e, t, us, porder), part) +
                                  Flatten(SampleWords(t, k, us[start .. start + nsmpl]))
      ensures stream.Room(tail)
    {
      hide *;
      ghost var ks := OrderParameters(e, t, us, porder);
      ghost var vs := us[start .. start + nsmpl];
      var k1;
      k1, k := PartParameter(e, t, us, porder, part);
      ghost var samples := Flatten(SampleWords(t, k, vs));
      SliceOfPrefix(uvalBuffer[..], n, start, start + nsmpl);
      AllWordsSlice(us, start, start + nsmpl);
      if t == Rice {
        CodableSlice(us, start, start + nsmpl);
      }
      ParamField(ks, part, prevk);
      FieldWidths();
      if part == 0 {
        PutField(stream, k, RICE_PARAMETER_BITS, |samples| + tail);
      } else {
        GammaField(stream, SignedToUnsigned(k as int - prevk), |samples| + tail);
      }
      if t == Rice {
        EncodeRice(stream, uvalBuffer, start, nsmpl, k, tail);
      } else {
        EncodeRecursiveRice(stream, uvalBuffer, start, nsmpl, k1, k, tail);
      }
    }

    /** SRLACoder_EncodePartitionedRecursiveRice: the search, then the code
        type, the partition order and the fields of every partition of
        that order.  The search must find a size below UINT32_MAX, as the
        source asserts.  On the Rice path the samples must avoid INT32_MIN,
        whose unary quotient 0xFFFF_FFFF under k = 0 would wrap. */
    method EncodePartitionedRecursiveRice(e: Estimates, stream: BitStream, data: seq<int>)
      requires Valid() && EstimatesInRange(e) && 0 < |data| <= uvalBuffer.Length
      requires forall i | 0 <= i < |data| :: -0x8000_0000 <= data[i] <= 0x7FFF_FFFF
      requires CodeTypeFor(ZigZag(data)) == Rice ==> forall i | 0 <= i < |data| :: data[i] != -0x8000_0000
      requires BestBits(e, ZigZag(data)) < WORD_LIMIT - 1
      requires stream.Valid() && !stream.readMode && stream.Room(|Encoded(e, ZigZag(data))|)
      modifies uvalBuffer, partMean, stream, stream.memory
      ensures stream.Valid() && !stream.readMode && stream.memory == old(stream.memory)
      ensures stream.Written() == old(stream.Written()) + Encoded(e, ZigZag(data))
    {
      hide *;
      ghost var us := ZigZag(data);
      ghost var w0 := stream.Written();
      var n := |data|;
      var t, bestPorder, minBits := SearchBestCodeAndPartition(e, data);
      ZigZagWords(data);
      if t == Rice {
        ZigZagCodable(data);
      }
      var nsmpl := Shr(n, bestPorder);
      ghost var ks := OrderParameters(e, t, us, bestPorder);
      EncodedParts(e, us, t, bestPorder, ks, nsmpl);
      ghost var pw := PartWords(t, ks, us, nsmpl);
      MeansReadyAt(us, MaxPartitionOrder(n), bestPorder);
      MeansOfOrder(us, bestPorder);
      FieldWidths();
      PutField(stream, CodeTypeValue(t), 1, LOG2_MAX_NUM_PARTITIONS + |Flatten(pw)|);
      PutField(stream, bestPorder, LOG2_MAX_NUM_PARTITIONS, |Flatten(pw)|);
      EncodeParts(e, t, stream, us, n, bestPorder, ks, nsmpl);
    }

    /** The partition loop of SRLACoder_EncodePartitionedRecursiveRice: the
        fields of the 2^porder partitions of nsmpl samples each. */
    method EncodeParts(e: Estimates, t: CodeType, stream: BitStream, ghost us: seq<nat>, n: nat, porder: nat,
                       ghost ks: seq<nat>, nsmpl: nat)
      requires Valid() && EstimatesInRange(e) && n == |us| <= uvalBuffer.Length && uvalBuffer[..n] == us
      requires AllWords(us) && (t == Rice ==> Codable(us))
      requires porder <= LOG2_MAX_NUM_PARTITIONS && Pow2(porder) <= MAX_NUM_PARTITIONS
      requires Layout(n, Pow2(porder), nsmpl) && ks == OrderParameters(e, t, us, porder)
      requires forall p | 0 <= p < Pow2(porder) :: partMean[porder, p] == PartMean(us, porder, p)
      requires stream.Valid() && !stream.readMode && stream.Room(|Flatten(PartWords(t, ks, us, nsmpl))|)
      modifies stream, stream.memory
      ensures stream.Valid() && !stream.readMode && stream.memory == old(stream.memory)
      ensures stream.Written() == old(stream.Written()) + Flatten(PartWords(t, ks, us, nsmpl))
    {
      hide *;
      var numParts := Pow2(porder);
      LayoutCovers(n, numParts, nsmpl);
      ghost var pw := PartWords(t, ks, us, nsmpl);
      ghost var w0 := stream.Written();
      FlattenEnds(pw);
      PartStartZero(nsmpl);
      var part: nat := 0;
      var start: nat := 0;
      var prevk: nat := 0;
      while part < numParts
        invariant part <= numParts && start == PartStart(part, nsmpl) && start <= n
        invariant stream.Valid() && !stream.readMode && stream.memory == old(stream.memory)
        invariant stream.Written() == w0 + Flatten(pw[..part])
        invariant stream.Room(|Flatten(pw[part..])|)
        invariant part > 0 ==> prevk == ks[part - 1]
      {
        NextPartStart(n, numParts, part, nsmpl);
        WordSplit(pw, part);
        PartWordAt(t, ks, us, nsmpl, part, start);
        var k := EncodePart(e, t, stream, us, n, porder, part, start, nsmpl, prevk, |Flatten(pw[part + 1..])|);
        prevk := k;
        part := part + 1;
        start := start + nsmpl;
      }
      FlattenEnds(pw);
    }

    /** SRLACoder_Encode. */
    method Encode(e: Estimates, stream: BitStream, data: seq<int>)
      requires Valid() && EstimatesInRange(e) && 0 < |data| <= uvalBuffer.Length
      requires forall i | 0 <= i < |data| :: -0x8000_0000 <= data[i] <= 0x7FFF_FFFF
      requires CodeTypeFor(ZigZag(data)) == Rice ==> forall i | 0 <= i < |data| :: data[i] != -0x8000_0000
      requires BestBits(e, ZigZag(data)) < WORD_LIMIT - 1
      requires stream.Valid() && !stream.readMode && stream.Room(|Encoded(e, ZigZag(data))|)
      modifies uvalBuffer, partMean, stream, stream.memory
      ensures stream.Valid() && !stream.readMode && stream.memory == old(stream.memory)
      ensures stream.Written() == old(stream.Written()) + Encoded(e, ZigZag(data))
    {
      EncodePartitionedRecursiveRice(e, stream, data);
    }

    /** SRLACoder_ComputeCodeLength: the size the search settles on, which
        is the length of the coded block less its 11 header bits. */
    method ComputeCodeLength(e: Estimates, data: seq<int>) returns (bits: nat)
      requires Valid() && EstimatesInRange(e) && 0 < |data| <= uvalBuffer.Length
      requires BestBits(e, ZigZag(data)) < WORD_LIMIT - 1
      modifies uvalBuffer, partMean
      ensures bits == BestBits(e, ZigZag(data))
      ensures bits + 1 + LOG2_MAX_NUM_PARTITIONS == |Encoded(e, ZigZag(data))|
    {
      var t, porder;
      t, porder, bits := SearchBestCodeAndPartition(e, data);
      EncodedLength(e, ZigZag(data));
    }
  }

  /** BitWriter_PutBits of an n-bit field, with tail bits of room left. */
  method PutField(stream: BitStream, v: nat, n: nat, ghost tail: nat)
    requires stream.Valid() && !stream.readMode && n <= 32 && stream.Room(n + tail)
    modifies stream, stream.memory
    ensures stream.Valid() && !stream.readMode && stream.memory == old(stream.memory)
    ensures stream.Written() == old(stream.Written()) + NatToBits(v, n)
    ensures stream.Room(tail)
  {
    RoomFor(stream, n, tail);
    stream.PutBits(v, n);
  }

  /** Gamma_PutCode, with tail bits of room left. */
  method GammaField(stream: BitStream, v: nat, ghost tail: nat)
    requires stream.Valid() && !stream.readMode && v + 2 < WORD_LIMIT && stream.Room(GammaBits(v) + tail)
    modifies stream, stream.memory
    ensures stream.Valid() && !stream.readMode && stream.memory == old(stream.memory)
    ensures stream.Written() == old(stream.Written()) + GammaCode(v)
    ensures stream.Room(tail)
  {
    RoomFor(stream, GammaBits(v), tail);
    GammaPutCode(stream, v);
  }

  /** The coded block of a search result: its two header fields and the
      words of the 2^porder partitions of n >> porder samples. */
  lemma EncodedParts(e: Estimates, us: seq<nat>, t: CodeType, porder: nat, ks: seq<nat>, nsmpl: nat)
    requires EstimatesInRange(e) && |us| > 0
    requires t == CodeTypeFor(us) && porder == BestOrder(e, us) && ks == OrderParameters(e, t, us, porder)
    requires nsmpl == Shr(|us|, porder)
    ensures porder <= MaxPartitionOrder(|us|) && Pow2(porder) <= MAX_NUM_PARTITIONS && porder <= LOG2_MAX_NUM_PARTITIONS
    ensures Layout(|us|, Pow2(porder), nsmpl) && |ks| == Pow2(porder) && ParametersInRange(ks)
    ensures Encoded(e, us) == NatToBits(CodeTypeValue(t), 1) + NatToBits(porder, LOG2_MAX_NUM_PARTITIONS) +
                              Flatten(PartWords(t, ks, us, nsmpl))
    ensures |Encoded(e, us)| == 1 + LOG2_MAX_NUM_PARTITIONS + |Flatten(PartWords(t, ks, us, nsmpl))|
  {
    OrderLayout(|us|, porder);
    TableAt(e, us, porder);
  }

  lemma PartStartZero(nsmpl: nat)
    ensures PartStart(0, nsmpl) == 0
  {
  }

  /** The widths of the header and parameter fields. */
  lemma FieldWidths()
    ensures RICE_PARAMETER_BITS == 5 && LOG2_MAX_NUM_PARTITIONS == 10 && WORD_LIMIT == 0x1_0000_0000
  {
  }

  /** The parameter field of partition p, given the previous parameter. */
  lemma ParamField(ks: seq<nat>, p: nat, prevk: nat)
    requires p < |ks| && ParametersInRange(ks) && (p > 0 ==> prevk == ks[p - 1])
    ensures ks[p] < 32 && (p > 0 ==> SignedToUnsigned(ks[p] as int - prevk) + 2 < WORD_LIMIT)
    ensures ParamCode(ks, p) == if p == 0 then NatToBits(ks[p], RICE_PARAMETER_BITS) else GammaCode(SignedToUnsigned(ks[p] as int - prevk))
    ensures ParamBits(ks, p) == if p == 0 then RICE_PARAMETER_BITS else GammaBits(SignedToUnsigned(ks[p] as int - prevk))
  {
    hide GammaCode, GammaBits, GammaDigits, NatToBits, Log2Ceil, Pow2;
  }

  /** The partitions of a layout cover the samples. */
  lemma LayoutCovers(n: nat, d: nat, nsmpl: nat)
    requires Layout(n, d, nsmpl)
    ensures 0 < d <= n && d * nsmpl == n && PartStart(d, nsmpl) == n
  {
  }

  /** A run of codable values is codable. */
  lemma CodableSlice(us: seq<nat>, lo: nat, hi: nat)
    requires Codable(us) && lo <= hi <= |us|
    ensures Codable(us[lo .. hi])
  {
    assert forall i | 0 <= i < hi - lo :: us[lo .. hi][i] == us[lo + i];
  }

  /* ---------------------------------------------------------------- */
  /* The decoder.                                                      */
  /* ---------------------------------------------------------------- */

  /** One partition of SRLACoder_DecodePartitionedRecursiveRice: its
      parameter (five bits for the first partition, otherwise the previous
      parameter plus the signed value of a gamma code, in 32-bit
      arithmetic), then its nsmpl samples, starting at data[start]. */
  method DecodePart(stream: BitStream, data: array<int>, t: CodeType, part: nat, start: nat, nsmpl: nat, prevk: nat,
                    ghost ks: seq<nat>, ghost vs: seq<nat>, ghost rest: seq<bool>) returns (k: nat)
    requires part < |ks| && ParametersInRange(ks) && (part > 0 ==> prevk == ks[part - 1])
    requires start + nsmpl <= data.Length && |vs| == nsmpl && AllWords(vs)
    requires Holds(stream, ParamCode(ks, part) + Flatten(SampleWords(t, ks[part], vs)) + rest)
    modifies stream, data
    ensures k == ks[part] && Holds(stream, rest) && stream.memory == old(stream.memory)
    ensures data[start .. start + nsmpl] == UnZigZag(vs)
    ensures forall i | 0 <= i < data.Length && !(start <= i < start + nsmpl) :: data[i] == old(data[i])
  {
    hide *;
    ghost var samples := Flatten(SampleWords(t, ks[part], vs));
    ParamField(ks, part, prevk);
    FieldWidths();
    Pow2Values();
    assert ParamCode(ks, part) + samples + rest == ParamCode(ks, part) + (samples + rest);
    if part == 0 {
      k := ReadBits(stream, RICE_PARAMETER_BITS, NatToBits(ks[0], RICE_PARAMETER_BITS), samples + rest);
      FieldValue(ks[0], RICE_PARAMETER_BITS);
    } else {
      var diff := ks[part] as int - prevk;
      var udiff := GammaGetCode(stream, SignedToUnsigned(diff), samples + rest);
      SignedRoundTrip(diff);
      k := (prevk as int + UnsignedToSigned(udiff)) % WORD_LIMIT;
      DivModUnique(ks[part], WORD_LIMIT, 0, ks[part]);
    }
    if t == Rice {
      DecodeRice(stream, data, start, nsmpl, k, vs, rest);
    } else {
      DecodeRecursiveRice(stream, data, start, nsmpl, k + 1, k, vs, rest);
    }
  }

  /** The partition loop of SRLACoder_DecodePartitionedRecursiveRice. */
  method DecodeParts(stream: BitStream, data: array<int>, n: nat, t: CodeType, numParts: nat, nsmpl: nat,
                     ghost ks: seq<nat>, ghost us: seq<nat>, ghost rest: seq<bool>)
    requires n == |us| <= data.Length && AllWords(us) && Layout(n, numParts, nsmpl)
    requires |ks| == numParts && ParametersInRange(ks)
    requires Holds(stream, Flatten(PartWords(t, ks, us, nsmpl)) + rest)
    modifies stream, data
    ensures Holds(stream, rest) && stream.memory == old(stream.memory)
    ensures data[..n] == UnZigZag(us) && data[n..] == old(data[n..])
  {
    hide *;
    LayoutCovers(n, numParts, nsmpl);
    ghost var pw := PartWords(t, ks, us, nsmpl);
    FlattenEnds(pw);
    PartStartZero(nsmpl);
    var part: nat := 0;
    var start: nat := 0;
    var k: nat := 0;
    while part < numParts
      invariant part <= numParts && start == PartStart(part, nsmpl) && start <= n
      invariant Holds(stream, Flatten(pw[part..]) + rest) && stream.memory == old(stream.memory)
      invariant part > 0 ==> k == ks[part - 1]
      invariant forall i | 0 <= i < start :: data[i] == UnsignedToSigned(us[i])
      invariant forall i | n <= i < data.Length :: data[i] == old(data[i])
    {
      NextPartStart(n, numParts, part, nsmpl);
      WordSplit(pw, part);
      PartWordAt(t, ks, us, nsmpl, part, start);
      ghost var vs := us[start .. start + nsmpl];
      AllWordsSlice(us, start, start + nsmpl);
      assert Flatten(pw[part..]) + rest ==
             ParamCode(ks, part) + Flatten(SampleWords(t, ks[part], vs)) + (Flatten(pw[part + 1..]) + rest);
      k := DecodePart(stream, data, t, part, start, nsmpl, k, ks, vs, Flatten(pw[part + 1..]) + rest);
      DecodedRun(data[..], us, start, start + nsmpl);
      part := part + 1;
      start := start + nsmpl;
    }
    assert Flatten(pw[numParts..]) + rest == rest by { FlattenEnds(pw); }
    DecodedAll(data[..n], us);
  }

  /** SRLACoder_DecodePartitionedRecursiveRice on a block of n samples
      coded with code type t, order porder and parameters ks: the code
      type bit, the ten-bit order, then the partitions of n >> porder
      samples each. */
  method DecodePartitionedRecursiveRice(stream: BitStream, data: array<int>, n: nat,
                                        ghost t: CodeType, ghost porder: nat, ghost ks: seq<nat>,
                                        ghost us: seq<nat>, ghost rest: seq<bool>)
    requires 0 < n == |us| <= data.Length && n < WORD_LIMIT && AllWords(us)
    requires porder < MAX_NUM_PARTITIONS && |ks| == Pow2(porder) && n % |ks| == 0 && ParametersInRange(ks)
    requires Holds(stream, PartitionedCode(t, porder, ks, us) + rest)
    modifies stream, data
    ensures Holds(stream, rest) && stream.memory == old(stream.memory)
    ensures data[..n] == UnZigZag(us) && data[n..] == old(data[n..])
  {
    hide *;
    ghost var body := Flatten(PartWords(t, ks, us, n / |ks|));
    PartitionedFields(t, porder, ks, us, rest);
    FieldWidths();
    var v := ReadBits(stream, 1, NatToBits(CodeTypeValue(t), 1), NatToBits(porder, LOG2_MAX_NUM_PARTITIONS) + (body + rest));
    FieldValue(CodeTypeValue(t), 1);
    var codeType := CodeTypeOf(v);
    var bestPorder := ReadBits(stream, LOG2_MAX_NUM_PARTITIONS, NatToBits(porder, LOG2_MAX_NUM_PARTITIONS), body + rest);
    FieldValue(porder, LOG2_MAX_NUM_PARTITIONS);
    var nsmpl := Shr(n, bestPorder);
    var numParts := Pow2(bestPorder);
    DecodeParts(stream, data, n, codeType, numParts, nsmpl, ks, us, rest);
  }

  /** SRLACoder_Decode: a block the encoder wrote for the zig-zag values us
      under the estimates e is read back as the samples UnZigZag(us). */
  method Decode(stream: BitStream, data: array<int>, n: nat, ghost e: Estimates, ghost us: seq<nat>, ghost rest: seq<bool>)
    requires EstimatesInRange(e) && 0 < n == |us| <= data.Length && n < WORD_LIMIT && AllWords(us)
    requires Holds(stream, Encoded(e, us) + rest)
    modifies stream, data
    ensures Holds(stream, rest) && stream.memory == old(stream.memory)
    ensures data[..n] == UnZigZag(us) && data[n..] == old(data[n..])
  {
    var t, o := CodeTypeFor(us), BestOrder(e, us);
    ghost var ks := OrderParameters(e, t, us, o);
    EncodedParts(e, us, t, o, ks, Shr(n, o));
    Pow2Ten();
    Pow2Monotone(o, LOG2_MAX_NUM_PARTITIONS);
    DecodePartitionedRecursiveRice(stream, data, n, t, o, ks, us, rest);
  }

  /** The fields of a coded block, and its layout. */
  lemma PartitionedFields(t: CodeType, porder: nat, ks: seq<nat>, us: seq<nat>, rest: seq<bool>)
    requires 0 < |us| && porder < MAX_NUM_PARTITIONS && |ks| == Pow2(porder) && |us| % |ks| == 0 && ParametersInRange(ks)
    ensures porder < Pow2(LOG2_MAX_NUM_PARTITIONS) && CodeTypeValue(t) < Pow2(1)
    ensures Layout(|us|, Pow2(porder), Shr(|us|, porder)) && Shr(|us|, porder) == |us| / |ks|
    ensures PartitionedCode(t, porder, ks, us) + rest == NatToBits(CodeTypeValue(t), 1) +
            (NatToBits(porder, LOG2_MAX_NUM_PARTITIONS) + (Flatten(PartWords(t, ks, us, |us| / |ks|)) + rest))
  {
    hide Flatten, PartWords, NatToBits, Shr, Pow2;
    Pow2Ten();
    Pow2Values();
    ShrDiv(|us|, porder);
    DivisorBound(|us|, |ks|);
    ExactDivision(|us|, |ks|);
  }

  /** Every run of words is a run of words. */
  lemma AllWordsSlice(us: seq<nat>, lo: nat, hi: nat)
    requires AllWords(us) && lo <= hi <= |us|
    ensures AllWords(us[lo .. hi])
  {
    assert forall i | 0 <= i < hi - lo :: us[lo .. hi][i] == us[lo + i];
  }

  /** A decoded run holds the signed values of its zig-zag values. */
  lemma DecodedRun(d: seq<int>, us: seq<nat>, lo: nat, hi: nat)
    requires lo <= hi <= |d| && hi <= |us| && d[lo .. hi] == UnZigZag(us[lo .. hi])
    ensures forall i | lo <= i < hi :: d[i] == UnsignedToSigned(us[i])
  {
    forall i | lo <= i < hi
      ensures d[i] == UnsignedToSigned(us[i])
    {
      assert d[lo .. hi][i - lo] == d[i];
      assert us[lo .. hi][i - lo] == us[i];
    }
  }

  /** Samples that all hold the signed values of us are UnZigZag(us). */
  lemma DecodedAll(d: seq<int>, us: seq<nat>)
    requires |d| == |us| && forall i | 0 <= i < |d| :: d[i] == UnsignedToSigned(us[i])
    ensures d == UnZigZag(us)
  {
  }

  /** n samples in d partitions of nsmpl samples each. */
  predicate Layout(n: nat, d: nat, nsmpl: nat)
  {
    0 < d <= n && n % d == 0 && nsmpl == n / d && d * nsmpl == n
  }

  /** Order porder splits the n samples into 2^porder partitions of
      n >> porder samples, the first starting at 0. */
  lemma OrderLayout(n: nat, porder: nat)
    requires 0 < n && porder <= MaxPartitionOrder(n)
    ensures Pow2(porder) <= MAX_NUM_PARTITIONS && Pow2(porder) <= n
    ensures Layout(n, Pow2(porder), Shr(n, porder)) && PartStart(0, Shr(n, porder)) == 0
  {
    var d := Pow2(porder);
    ShrDiv(n, porder);
    OrdersFit(n, MaxPartitionOrder(n));
    DivisorBound(n, d);
    FloorFits(n, d, 0);
  }

  /** The size of order porder is that of its partition words. */
  lemma OrderBitsIs(e: Estimates, t: CodeType, us: seq<nat>, porder: nat)
    requires EstimatesInRange(e) && 0 < |us| && porder <= MaxPartitionOrder(|us|)
    ensures Pow2(porder) <= |us| && Layout(|us|, Pow2(porder), Shr(|us|, porder))
    ensures OrderBits(e, t, us, porder) == |Flatten(PartWords(t, OrderParameters(e, t, us, porder), us, Shr(|us|, porder)))|
  {
    OrderLayout(|us|, porder);
  }

  /** The first sample of partition part. */
  function PartStart(part: nat, nsmpl: nat): nat
  {
    part * nsmpl
  }

  /** Partition part of n / d samples each ends where the next begins,
      within the n samples. */
  lemma NextPartStart(n: nat, d: nat, part: nat, nsmpl: nat)
    requires part < d && Layout(n, d, nsmpl)
    ensures PartStart(part + 1, nsmpl) == PartStart(part, nsmpl) + nsmpl <= n
  {
    FloorFits(n, d, part);
    assert (part + 1) * nsmpl == part * nsmpl + nsmpl;
  }

  /** The field of partition p: its parameter and then its samples. */
  lemma PartWordAt(t: CodeType, ks: seq<nat>, us: seq<nat>, nsmpl: nat, p: nat, start: nat)
    requires Layout(|us|, |ks|, nsmpl) && ParametersInRange(ks) && p < |ks| && start == PartStart(p, nsmpl)
    ensures start + nsmpl <= |us|
    ensures PartWords(t, ks, us, nsmpl)[p] == ParamCode(ks, p) + Flatten(SampleWords(t, ks[p], us[start .. start + nsmpl]))
    ensures |PartWords(t, ks, us, nsmpl)[p]| == ParamBits(ks, p) + |Flatten(SampleWords(t, ks[p], us[start .. start + nsmpl]))|
  {
    PartFits(p, |ks|, nsmpl);
    assert start == p * nsmpl && |ks| * nsmpl <= |us|;
    hide Layout, PartStart;
    ghost var w := PartWords(t, ks, us, nsmpl);
    assert Part(us, nsmpl, p) == us[start .. start + nsmpl];
    assert w[p] == ParamCode(ks, p) + Flatten(SampleWords(t, ks[p], Part(us, nsmpl, p)));
  }

  lemma SliceOfPrefix(a: seq<nat>, n: nat, lo: nat, hi: nat)
    requires lo <= hi <= n <= |a|
    ensures a[..n][lo .. hi] == a[lo .. hi]
  {
  }

  lemma ZigZagAt(data: seq<int>, i: nat)
    requires i < |data|
    ensures ZigZag(data)[i] == SignedToUnsigned(data[i])
  {
  }

  /** The mean of partition p the finest loop computes. */
  lemma PartMeanIs(us: seq<nat>, o: nat, p: nat, nsmpl: nat, sum: real)
    requires p < Pow2(o) <= |us| && nsmpl == |us| / Pow2(o) && p * nsmpl + nsmpl <= |us|
    requires sum == SumOf(us[p * nsmpl .. p * nsmpl + nsmpl]) as real
    ensures PartMean(us, o, p) == sum / (nsmpl as real)
  {
  }
}
