/**
 * The software bit tricks of the library, on 32-bit words: the NLZ of
 * BitStream_NLZSoft and SRLAUtility_NLZSoft (the same algorithm and the same
 * st_nlz10_table in both files), and the round-up to a power of two of
 * SRLAUtility_RoundUp2PoweredSoft and LPC_RoundUp2Powered (again one
 * algorithm in two files).  The NLZ smears the leading one down, keeps at
 * most 16 of the ones, multiplies by a constant through shifts and looks the
 * top six bits up in a table of 64 entries (99 marks an unused entry).
 */
module SoftBits {
  /** st_nlz10_table. */
  function Nlz10Table(i: bv32): bv32
  {
    match i
    case 0 => 32 case 1 => 20 case 2 => 19 case 3 => 99 case 4 => 99 case 5 => 18 case 6 => 99 case 7 => 7
    case 8 => 10 case 9 => 17 case 10 => 99 case 11 => 99 case 12 => 14 case 13 => 99 case 14 => 6 case 15 => 99
    case 16 => 99 case 17 => 9 case 18 => 99 case 19 => 16 case 20 => 99 case 21 => 99 case 22 => 1 case 23 => 26
    case 24 => 99 case 25 => 13 case 26 => 99 case 27 => 99 case 28 => 24 case 29 => 5 case 30 => 99 case 31 => 99
    case 32 => 99 case 33 => 21 case 34 => 99 case 35 => 8 case 36 => 11 case 37 => 99 case 38 => 15 case 39 => 99
    case 40 => 99 case 41 => 99 case 42 => 99 case 43 => 2 case 44 => 27 case 45 => 0 case 46 => 25 case 47 => 99
    case 48 => 22 case 49 => 99 case 50 => 12 case 51 => 99 case 52 => 99 case 53 => 3 case 54 => 28 case 55 => 99
    case 56 => 23 case 57 => 99 case 58 => 4 case 59 => 29 case 60 => 99 case 61 => 99 case 62 => 30 case 63 => 31
    case _ => 99
  }

  /** The first four OR steps: every bit below the leading one is set
      within a distance of 15. */
  function Smear(x: bv32): bv32
  {
    var x1 := x | (x >> 1);
    var x2 := x1 | (x1 >> 2);
    var x3 := x2 | (x2 >> 4);
    x3 | (x3 >> 8)
  }

  /** The masking, then the multiplication. */
  function Hash(x4: bv32): bv32
  {
    Spread(x4 & !(x4 >> 16))
  }

  /** The multiplication by 511 * 2047 * 16383, as shifts and subtractions. */
  function Spread(x5: bv32): bv32
  {
    var x6 := (x5 << 9) - x5;
    var x7 := (x6 << 11) - x6;
    (x7 << 14) - x7
  }

  /** BitStream_NLZSoft / SRLAUtility_NLZSoft. */
  function NlzSoft(x: bv32): bv32
  {
    Nlz10Table(Hash(Smear(x)) >> 26)
  }

  /** The masking step of Hash gives the same word whether or not the
      smear is first completed with its upper half, so the hash of the
      four-step smear is the hash of the full mask. */
  lemma HashOfSmear(s: bv32)
    ensures Hash(s) == Hash(s | (s >> 16))
  {
    hide Spread;
    MaskOfFull(s);
  }

  /** The upper half added to the smear is masked off again. */
  lemma MaskOfFull(s: bv32)
    ensures (s | (s >> 16)) & !((s | (s >> 16)) >> 16) == s & !(s >> 16)
  {
  }

  /** The result is the number of zero bits above the leading one, and 32
      for 0. */
  lemma NlzSoftCounts(x: bv32)
    ensures x == 0 ==> NlzSoft(x) == 32
    ensures x != 0 ==> NlzSoft(x) < 32 && x >> (31 - NlzSoft(x)) == 1
  {
    if x != 0 {
      var k := TopBit(x);
      SmearTop(x, k);
      HashOfSmear(Smear(x));
      MaskHash(k);
    }
  }

  /** The position of the leading one. */
  function TopBit(x: bv32): (k: bv32)
    requires x != 0
    ensures k < 32 && x >> k == 1
  {
    if x >> 31 == 1 then 31 else
    if x >> 30 == 1 then 30 else
    if x >> 29 == 1 then 29 else
    if x >> 28 == 1 then 28 else
    if x >> 27 == 1 then 27 else
    if x >> 26 == 1 then 26 else
    if x >> 25 == 1 then 25 else
    if x >> 24 == 1 then 24 else
    if x >> 23 == 1 then 23 else
    if x >> 22 == 1 then 22 else
    if x >> 21 == 1 then 21 else
    if x >> 20 == 1 then 20 else
    if x >> 19 == 1 then 19 else
    if x >> 18 == 1 then 18 else
    if x >> 17 == 1 then 17 else
    if x >> 16 == 1 then 16 else
    if x >> 15 == 1 then 15 else
    if x >> 14 == 1 then 14 else
    if x >> 13 == 1 then 13 else
    if x >> 12 == 1 then 12 else
    if x >> 11 == 1 then 11 else
    if x >> 10 == 1 then 10 else
    if x >> 9 == 1 then 9 else
    if x >> 8 == 1 then 8 else
    if x >> 7 == 1 then 7 else
    if x >> 6 == 1 then 6 else
    if x >> 5 == 1 then 5 else
    if x >> 4 == 1 then 4 else
    if x >> 3 == 1 then 3 else
    if x >> 2 == 1 then 2 else
    if x >> 1 == 1 then 1 else 0
  }

  /** With the leading one at k, the full smear is the mask of k + 1 ones. */
  lemma SmearTop(x: bv32, k: bv32)
    requires k < 32 && x >> k == 1
    ensures Smear(x) | (Smear(x) >> 16) == 0xFFFF_FFFF >> (31 - k)
  {
    if k < 8 { SmearTop0(x, k); }
    else if k < 16 { SmearTop1(x, k); }
    else if k < 24 { SmearTop2(x, k); }
    else { SmearTop3(x, k); }
  }

  lemma SmearTop0(x: bv32, k: bv32)
    requires 0 <= k < 8 && x >> k == 1
    ensures Smear(x) | (Smear(x) >> 16) == 0xFFFF_FFFF >> (31 - k)
  {
  }

  lemma SmearTop1(x: bv32, k: bv32)
    requires 8 <= k < 16 && x >> k == 1
    ensures Smear(x) | (Smear(x) >> 16) == 0xFFFF_FFFF >> (31 - k)
  {
  }

  lemma SmearTop2(x: bv32, k: bv32)
    requires 16 <= k < 24 && x >> k == 1
    ensures Smear(x) | (Smear(x) >> 16) == 0xFFFF_FFFF >> (31 - k)
  {
  }

  lemma SmearTop3(x: bv32, k: bv32)
    requires 24 <= k < 32 && x >> k == 1
    ensures Smear(x) | (Smear(x) >> 16) == 0xFFFF_FFFF >> (31 - k)
  {
  }

  /** The table maps the hash of each of the 32 masks to its count; the
      cases are checked two masks at a time. */
  lemma MaskHash(k: bv32)
    requires k < 32
    ensures Nlz10Table(Hash(0xFFFF_FFFF >> (31 - k)) >> 26) == 31 - k
  {
    if k < 2 { MaskHash0(k); }
    else if k < 4 { MaskHash1(k); }
    else if k < 6 { MaskHash2(k); }
    else if k < 8 { MaskHash3(k); }
    else if k < 10 { MaskHash4(k); }
    else if k < 12 { MaskHash5(k); }
    else if k < 14 { MaskHash6(k); }
    else if k < 16 { MaskHash7(k); }
    else if k < 18 { MaskHash8(k); }
    else if k < 20 { MaskHash9(k); }
    else if k < 22 { MaskHash10(k); }
    else if k < 24 { MaskHash11(k); }
    else if k < 26 { MaskHash12(k); }
    else if k < 28 { MaskHash13(k); }
    else if k < 30 { MaskHash14(k); }
    else { MaskHash15(k); }
  }

  lemma MaskHash0(k: bv32)
    requires 0 <= k < 2
    ensures Nlz10Table(Hash(0xFFFF_FFFF >> (31 - k)) >> 26) == 31 - k
  {
  }

  lemma MaskHash1(k: bv32)
    requires 2 <= k < 4
    ensures Nlz10Table(Hash(0xFFFF_FFFF >> (31 - k)) >> 26) == 31 - k
  {
  }

  lemma MaskHash2(k: bv32)
    requires 4 <= k < 6
    ensures Nlz10Table(Hash(0xFFFF_FFFF >> (31 - k)) >> 26) == 31 - k
  {
  }

  lemma MaskHash3(k: bv32)
    requires 6 <= k < 8
    ensures Nlz10Table(Hash(0xFFFF_FFFF >> (31 - k)) >> 26) == 31 - k
  {
  }

  lemma MaskHash4(k: bv32)
    requires 8 <= k < 10
    ensures Nlz10Table(Hash(0xFFFF_FFFF >> (31 - k)) >> 26) == 31 - k
  {
  }

  lemma MaskHash5(k: bv32)
    requires 10 <= k < 12
    ensures Nlz10Table(Hash(0xFFFF_FFFF >> (31 - k)) >> 26) == 31 - k
  {
  }

  lemma MaskHash6(k: bv32)
    requires 12 <= k < 14
    ensures Nlz10Table(Hash(0xFFFF_FFFF >> (31 - k)) >> 26) == 31 - k
  {
  }

  lemma MaskHash7(k: bv32)
    requires 14 <= k < 16
    ensures Nlz10Table(Hash(0xFFFF_FFFF >> (31 - k)) >> 26) == 31 - k
  {
  }

  lemma MaskHash8(k: bv32)
    requires 16 <= k < 18
    ensures Nlz10Table(Hash(0xFFFF_FFFF >> (31 - k)) >> 26) == 31 - k
  {
  }

  lemma MaskHash9(k: bv32)
    requires 18 <= k < 20
    ensures Nlz10Table(Hash(0xFFFF_FFFF >> (31 - k)) >> 26) == 31 - k
  {
  }

  lemma MaskHash10(k: bv32)
    requires 20 <= k < 22
    ensures Nlz10Table(Hash(0xFFFF_FFFF >> (31 - k)) >> 26) == 31 - k
  {
  }

  lemma MaskHash11(k: bv32)
    requires 22 <= k < 24
    ensures Nlz10Table(Hash(0xFFFF_FFFF >> (31 - k)) >> 26) == 31 - k
  {
  }

  lemma MaskHash12(k: bv32)
    requires 24 <= k < 26
    ensures Nlz10Table(Hash(0xFFFF_FFFF >> (31 - k)) >> 26) == 31 - k
  {
  }

  lemma MaskHash13(k: bv32)
    requires 26 <= k < 28
    ensures Nlz10Table(Hash(0xFFFF_FFFF >> (31 - k)) >> 26) == 31 - k
  {
  }

  lemma MaskHash14(k: bv32)
    requires 28 <= k < 30
    ensures Nlz10Table(Hash(0xFFFF_FFFF >> (31 - k)) >> 26) == 31 - k
  {
  }

  lemma MaskHash15(k: bv32)
    requires 30 <= k < 32
    ensures Nlz10Table(Hash(0xFFFF_FFFF >> (31 - k)) >> 26) == 31 - k
  {
  }

  /** SRLAUtility_RoundUp2PoweredSoft / LPC_RoundUp2Powered: smear val - 1
      and add one. */
  function RoundUp2PoweredSoft(val: bv32): bv32
  {
    var v0 := val - 1;
    var v4 := Smear(v0);
    (v4 | (v4 >> 16)) + 1
  }

  /** For 1 <= val <= 2^31 the result is the least power of two not below
      val. */
  lemma RoundUp2PoweredSoftCorrect(val: bv32)
    requires 1 <= val <= 0x8000_0000
    ensures var r := RoundUp2PoweredSoft(val);
      r & (r - 1) == 0 && val <= r && (r == 1 || r >> 1 < val)
  {
  }

}
