/**
 * SRLAUtility_CalculateFletcher16CheckSum: the Fletcher-16 checksum with
 * deferred reduction.  The running sums are 32-bit unsigned; they are
 * reduced modulo 255 only after each block of at most 5802 bytes, the
 * largest block after which the second sum still fits in 32 bits.  The
 * reduction itself is the macro MOD255, `(x + x / 255) & 0xFF`.
 */
module Fletcher16 {
  import opened Bits
  import opened BitRegisters

  const MAX_BLOCK_SIZE: nat := 5802

  /** The textbook Fletcher-16 state after the first n bytes: both sums
      reduced modulo 255 after every byte. */
  function FletcherState(data: seq<byte>, n: nat): (nat, nat)
    requires n <= |data|
  {
    if n == 0 then (0, 0)
    else
      var (c0, c1) := FletcherState(data, n - 1);
      var d0 := (c0 + data[n - 1]) % 255;
      (d0, (c1 + d0) % 255)
  }

  /** The checksum word: the second sum in the high byte, the first in the
      low byte. */
  function Fletcher16Of(data: seq<byte>): nat
  {
    var (c0, c1) := FletcherState(data, |data|);
    c1 * 256 + c0
  }

  /** The sum of the first n bytes. */
  function SumTo(data: seq<byte>, n: nat): nat
    requires n <= |data|
  {
    if n == 0 then 0 else SumTo(data, n - 1) + data[n - 1]
  }

  /** The sum of the first n prefix sums. */
  function AccTo(data: seq<byte>, n: nat): nat
    requires n <= |data|
  {
    if n == 0 then 0 else AccTo(data, n - 1) + SumTo(data, n)
  }

  /** The eagerly reduced state holds the two plain sums modulo 255. */
  lemma {:induction false} FletcherStateSums(data: seq<byte>, n: nat)
    requires n <= |data|
    ensures FletcherState(data, n) == (SumTo(data, n) % 255, AccTo(data, n) % 255)
  {
    if n > 0 {
      var (c0, c1) := FletcherState(data, n - 1);
      var b := data[n - 1];
      assert FletcherState(data, n) == ((c0 + b) % 255, (c1 + (c0 + b) % 255) % 255);
      var s0, a0 := SumTo(data, n - 1), AccTo(data, n - 1);
      assert SumTo(data, n) == s0 + b;
      assert AccTo(data, n) == a0 + s0 + b;
      hide *;
      FletcherStateSums(data, n - 1);
      SumsStep(c0, c1, s0, a0, b);
    }
  }

  /** One byte of the eager recurrence, on plain numbers. */
  lemma SumsStep(c0: nat, c1: nat, s0: nat, a0: nat, b: nat)
    requires c0 == s0 % 255 && c1 == a0 % 255
    ensures (c0 + b) % 255 == (s0 + b) % 255
    ensures (c1 + (c0 + b) % 255) % 255 == (a0 + s0 + b) % 255
  {
    ModAdd(c0, s0, b);
    var d0 := (c0 + b) % 255;
    ModAdd(c1, a0, d0);
    ModAdd(s0 + b, d0, a0);
  }

  lemma ModAdd(a: nat, b: nat, c: nat)
    requires a % 255 == b % 255
    ensures (a + c) % 255 == (b + c) % 255 && (c + a) % 255 == (c + b) % 255
  {
    DivModUnique(a + c, 255, a / 255 + (a % 255 + c) / 255, (a % 255 + c) % 255);
    DivModUnique(b + c, 255, b / 255 + (b % 255 + c) / 255, (b % 255 + c) % 255);
  }

  /** The checksum is a 16-bit value whose two bytes are each below 255. */
  lemma Fletcher16Range(data: seq<byte>)
    ensures Fletcher16Of(data) < 0x1_0000
    ensures Fletcher16Of(data) % 256 < 255 && Fletcher16Of(data) / 256 < 255
  {
  }

  /** MOD255 on a 32-bit value; the sum `x + x / 255` is taken in 32-bit
      unsigned arithmetic. */
  function Mod255(x: nat): (r: nat)
    requires x < WORD_LIMIT
    ensures r == x % 255
  {
    Mod255Correct(x);
    ((x + x / 255) % WORD_LIMIT) % 256
  }

  /** With x = 255q + r, x + q = 256q + r, whose low byte is r; the
      wrap-around modulo 2^32 does not disturb the low byte. */
  lemma Mod255Correct(x: nat)
    requires x < WORD_LIMIT
    ensures ((x + x / 255) % WORD_LIMIT) % 256 == x % 255
  {
    var q, r := x / 255, x % 255;
    var v := x + q;
    assert v == 256 * q + r;
    MulDivMod(q, r, 256);
    var t := v % WORD_LIMIT;
    assert v == WORD_LIMIT * (v / WORD_LIMIT) + t;
    DivModUnique(v, 256, 0x100_0000 * (v / WORD_LIMIT) + t / 256, t % 256);
  }

  /** 1 + 2 + ... + j. */
  function Tri(j: nat): nat
  {
    if j == 0 then 0 else Tri(j - 1) + j
  }

  lemma {:induction false} TriClosed(j: nat)
    ensures 2 * Tri(j) == j * (j + 1)
  {
    if j > 0 {
      TriClosed(j - 1);
    }
  }

  lemma {:induction false} TriMonotone(i: nat, j: nat)
    requires i <= j
    ensures Tri(i) <= Tri(j)
  {
    if i < j {
      TriMonotone(i, j - 1);
    }
  }

  /** The largest values the two sums reach inside one block, after j
      bytes, starting from reduced sums. */
  function C0Bound(j: nat): nat
  {
    254 + 255 * j
  }

  function C1Bound(j: nat): nat
  {
    254 * (j + 1) + 255 * Tri(j)
  }

  /** Within a block of MAX_BLOCK_SIZE bytes the second sum stays below
      2^32. */
  lemma BlockBound(j: nat)
    requires j <= MAX_BLOCK_SIZE
    ensures C1Bound(j) < WORD_LIMIT
  {
    TriMonotone(j, MAX_BLOCK_SIZE);
    TriClosed(MAX_BLOCK_SIZE);
  }

  lemma StepSums(data: seq<byte>, n: nat)
    requires n < |data|
    ensures SumTo(data, n + 1) == SumTo(data, n) + data[n]
    ensures AccTo(data, n + 1) == AccTo(data, n) + SumTo(data, n + 1)
  {
  }

  /** SRLAUtility_CalculateFletcher16CheckSum. */
  method CalculateFletcher16CheckSum(data: seq<byte>) returns (sum: nat)
    ensures sum == Fletcher16Of(data)
  {
    var c0: nat, c1: nat := 0, 0;
    var pos: nat := 0;
    var dataSize: nat := |data|;
    while dataSize > 0
      invariant pos + dataSize == |data|
      invariant c0 < 255 && c1 < 255
      invariant c0 == SumTo(data, pos) % 255 && c1 == AccTo(data, pos) % 255
    {
      var blockSize: nat := if MAX_BLOCK_SIZE < dataSize then MAX_BLOCK_SIZE else dataSize;
      dataSize := dataSize - blockSize;
      ghost var j: nat := 0;
      while blockSize > 0
        invariant pos + blockSize + dataSize == |data|
        invariant j + blockSize <= MAX_BLOCK_SIZE
        invariant c0 <= C0Bound(j) && c1 <= C1Bound(j)
        invariant c0 % 255 == SumTo(data, pos) % 255 && c1 % 255 == AccTo(data, pos) % 255
      {
        blockSize := blockSize - 1;
        StepSums(data, pos);
        ModAdd(c0, SumTo(data, pos), data[pos]);
        c0 := c0 + data[pos];
        ModAdd(c1, AccTo(data, pos), c0);
        ModAdd(AccTo(data, pos), c1, SumTo(data, pos + 1));
        ModAdd(c0, SumTo(data, pos + 1), AccTo(data, pos));
        c1 := c1 + c0;
        pos := pos + 1;
        j := j + 1;
        BlockBound(j);
      }
      BlockBound(j);
      c0 := Mod255(c0);
      c1 := Mod255(c1);
    }
    FletcherStateSums(data, |data|);
    sum := c1 * 256 + c0;
  }

  /** The state after n bytes depends on those bytes only. */
  lemma {:induction false} FletcherStatePrefix(data: seq<byte>, m: nat, n: nat)
    requires n <= m <= |data|
    ensures FletcherState(data[..m], n) == FletcherState(data, n)
  {
    if n > 0 {
      FletcherStatePrefix(data, m, n - 1);
      assert data[..m][n - 1] == data[n - 1];
    }
  }

  lemma StateStep(data: seq<byte>, n: nat, c0: nat, c1: nat)
    requires 0 < n <= |data| && FletcherState(data, n - 1) == (c0, c1)
    ensures FletcherState(data, n) == ((c0 + data[n - 1]) % 255, (c1 + (c0 + data[n - 1]) % 255) % 255)
  {
  }

  /** The eight bytes "abcdefgh". */
  const ABCDEFGH: seq<byte> := [0x61, 0x62, 0x63, 0x64, 0x65, 0x66, 0x67, 0x68]

  lemma FirstFive()
    ensures FletcherState(ABCDEFGH, 5) == (240, 200)
  {
    var d := ABCDEFGH;
    assert FletcherState(d, 0) == (0, 0);
    hide FletcherState;
    StateStep(d, 1, 0, 0);
    StateStep(d, 2, 97, 97);
    StateStep(d, 3, 195, 37);
    StateStep(d, 4, 39, 76);
    StateStep(d, 5, 139, 215);
  }

  /** Published Fletcher-16 values. */
  lemma Fletcher16Vectors()
    ensures Fletcher16Of([0x61, 0x62, 0x63, 0x64, 0x65]) == 0xC8F0
    ensures Fletcher16Of([0x61, 0x62, 0x63, 0x64, 0x65, 0x66]) == 0x2057
    ensures Fletcher16Of([0x61, 0x62, 0x63, 0x64, 0x65, 0x66, 0x67, 0x68]) == 0x0627
  {
    var d := ABCDEFGH;
    FirstFive();
    hide FletcherState;
    StateStep(d, 6, 240, 200);
    StateStep(d, 7, 87, 32);
    StateStep(d, 8, 190, 222);
    FletcherStatePrefix(d, 5, 5);
    FletcherStatePrefix(d, 6, 6);
    assert d[..5] == [0x61, 0x62, 0x63, 0x64, 0x65];
    assert d[..6] == [0x61, 0x62, 0x63, 0x64, 0x65, 0x66];
  }
}
