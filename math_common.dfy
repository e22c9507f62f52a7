/**
  Integer helpers of the engine's math library (src/scm/core/math/common.h).

  The comparison helpers are C++ templates; they are modelled at T = int.
  The bit tricks are modelled on unsigned 32-bit words (`bv32`), and the
  64-bit overload of floor_log2 on `bv64`. Bit positions are small
  bit-vectors themselves (`bv5` for a 32-bit word, `bv6` for a 64-bit one).
  Results that the source returns as `int` or `unsigned` are integers.
*/
module MathCommon {

  // ---------------------------------------------------------------------
  // Comparison helpers

  /** Absolute value, used to state what Sign means. */
  function Abs(v: int): nat { if v < 0 then -v else v }

  /** sign(v): -1 for negative values and 1 otherwise, so sign(0) is 1. */
  function Sign(v: int): (r: int)
    ensures r == 1 || r == -1
    ensures r == -1 <==> v < 0
    ensures r * v == Abs(v)
  {
    if v < 0 then -1 else 1
  }

  /** max(a, b) = (a > b) ? a : b */
  function Max(a: int, b: int): (r: int)
    ensures r == a || r == b
    ensures a <= r && b <= r
  {
    if a > b then a else b
  }

  /** min(a, b) = (a < b) ? a : b */
  function Min(a: int, b: int): (r: int)
    ensures r == a || r == b
    ensures r <= a && r <= b
  {
    if a < b then a else b
  }

  /** in_range(x, a, b): x lies in the closed interval [a, b]. */
  function InRange(x: int, a: int, b: int): (r: bool)
    ensures r <==> a <= x <= b
  {
    x >= a && x <= b
  }

  /** sqr(a) = a * a */
  function Sqr(a: int): (r: int)
    ensures r >= 0
    ensures r == (-a) * (-a)
  {
    a * a
  }

  /** sqr is monotone on the non-negative integers. */
  lemma SqrMonotone(a: int, b: int)
    requires 0 <= a <= b
    ensures Sqr(a) <= Sqr(b)
  {
    assert a * a <= a * b <= b * b;
  }

  /**
    clamp(v, lo, hi) = (v > hi) ? hi : (v < lo) ? lo : v.
    The upper bound is tested first, so with lo > hi a value above hi still
    yields hi.
  */
  function Clamp(v: int, lo: int, hi: int): (r: int)
    ensures lo <= hi ==> InRange(r, lo, hi)
    ensures InRange(v, lo, hi) ==> r == v
    ensures hi < v ==> r == hi
  {
    if v > hi then hi else if v < lo then lo else v
  }

  /** With lo <= hi, clamp agrees with the reference max(lo, min(v, hi)) and is idempotent. */
  lemma ClampIsMaxMin(v: int, lo: int, hi: int)
    requires lo <= hi
    ensures Clamp(v, lo, hi) == Max(lo, Min(v, hi))
    ensures Clamp(Clamp(v, lo, hi), lo, hi) == Clamp(v, lo, hi)
  {
  }

  /**
    in_range agrees with the other helpers: a value is in range exactly when
    max(x, a) and min(x, b) both leave it unchanged, and, for a <= b, exactly
    when clamp leaves it unchanged. A clamped value is then always in range.
  */
  lemma InRangeIsFixpoint(x: int, a: int, b: int)
    ensures InRange(x, a, b) <==> Max(x, a) == x && Min(x, b) == x
    ensures a <= b ==> (InRange(x, a, b) <==> Clamp(x, a, b) == x)
    ensures a <= b ==> InRange(Clamp(x, a, b), a, b)
  {
  }

  // ---------------------------------------------------------------------
  // Unsigned 32-bit words: reference definitions
  // Bit positions and shift amounts are words themselves, so that no
  // conversion between integers and bit-vectors is needed.

  /** 2^p as a 32-bit word. */
  function Pow2(p: bv5): bv32
  {
    1 << p
  }

  /** Bit i of y, as 0 or 1. */
  function Bit(y: bv32, i: bv32): (b: nat)
    requires i < 32
    ensures b <= 1
  {
    if (y >> i) & 1 == 1 then 1 else 0
  }

  /** The unsigned value of a word, as the sum of its bits' weights. */
  function Value(y: bv32): nat
  {
    Bit(y, 0) + 2 * Bit(y, 1) + 4 * Bit(y, 2) + 8 * Bit(y, 3)
    + 0x10 * Bit(y, 4) + 0x20 * Bit(y, 5) + 0x40 * Bit(y, 6) + 0x80 * Bit(y, 7)
    + 0x100 * Bit(y, 8) + 0x200 * Bit(y, 9) + 0x400 * Bit(y, 10) + 0x800 * Bit(y, 11)
    + 0x1000 * Bit(y, 12) + 0x2000 * Bit(y, 13) + 0x4000 * Bit(y, 14) + 0x8000 * Bit(y, 15)
    + 0x1_0000 * Bit(y, 16) + 0x2_0000 * Bit(y, 17) + 0x4_0000 * Bit(y, 18) + 0x8_0000 * Bit(y, 19)
    + 0x10_0000 * Bit(y, 20) + 0x20_0000 * Bit(y, 21) + 0x40_0000 * Bit(y, 22) + 0x80_0000 * Bit(y, 23)
    + 0x100_0000 * Bit(y, 24) + 0x200_0000 * Bit(y, 25) + 0x400_0000 * Bit(y, 26) + 0x800_0000 * Bit(y, 27)
    + 0x1000_0000 * Bit(y, 28) + 0x2000_0000 * Bit(y, 29) + 0x4000_0000 * Bit(y, 30) + 0x8000_0000 * Bit(y, 31)
  }

  /** The number of set bits of a word. */
  function PopCount(y: bv32): nat
  {
    Bit(y, 0) + Bit(y, 1) + Bit(y, 2) + Bit(y, 3) + Bit(y, 4) + Bit(y, 5) + Bit(y, 6) + Bit(y, 7)
    + Bit(y, 8) + Bit(y, 9) + Bit(y, 10) + Bit(y, 11) + Bit(y, 12) + Bit(y, 13) + Bit(y, 14) + Bit(y, 15)
    + Bit(y, 16) + Bit(y, 17) + Bit(y, 18) + Bit(y, 19) + Bit(y, 20) + Bit(y, 21) + Bit(y, 22) + Bit(y, 23)
    + Bit(y, 24) + Bit(y, 25) + Bit(y, 26) + Bit(y, 27) + Bit(y, 28) + Bit(y, 29) + Bit(y, 30) + Bit(y, 31)
  }

  // ---------------------------------------------------------------------
  // floor_log2 and is_power_of_two

  /** Bit p is the highest set bit of x: shifting x right by p leaves exactly 1. */
  ghost predicate IsHighestSetBit(x: bv32, p: bv5)
  {
    x >> p == 1
  }

  /** The highest set bit p of x is floor(log2 x): 2^p <= x < 2^(p+1). */
  lemma HighestSetBitBounds(x: bv32, p: bv5)
    requires IsHighestSetBit(x, p)
    ensures Pow2(p) <= x
    ensures p < 31 ==> x < Pow2(p + 1)
  {
  }

  /** A word has at most one highest set bit. */
  lemma HighestSetBitUnique(x: bv32, p: bv5, q: bv5)
    requires IsHighestSetBit(x, p) && IsHighestSetBit(x, q)
    ensures p == q
  {
  }

  /** r is floor_log2(x): the position of the highest set bit, or -1 for zero. */
  ghost predicate IsFloorLog2(x: bv32, r: int)
  {
    if x == 0 then r == -1 else 0 <= r < 32 && IsHighestSetBit(x, r as bv5)
  }

  /** floor_log2 for 32-bit words: five conditional halvings of the search range. */
  method FloorLog2(x0: bv32) returns (r: int)
    ensures IsFloorLog2(x0, r)
  {
    var x := x0;
    var pos := 0;
    if x >= 1 << 16 { x := x >> 16; pos := pos + 16; }
    if x >= 1 << 8  { x := x >> 8;  pos := pos + 8; }
    if x >= 1 << 4  { x := x >> 4;  pos := pos + 4; }
    if x >= 1 << 2  { x := x >> 2;  pos := pos + 2; }
    if x >= 1 << 1  { pos := pos + 1; }
    r := if x == 0 then -1 else pos;
  }

  /** The highest set bit found by halving, a reference that needs no search. */
  function HighestSetBit(x: bv32): bv5
    decreases x
  {
    if x <= 1 then 0 else 1 + HighestSetBit(x >> 1)
  }

  lemma {:induction false} HighestSetBitIsHighest(x: bv32)
    requires x != 0
    ensures IsHighestSetBit(x, HighestSetBit(x))
  {
    if x > 1 {
      assert x >> 1 != 0;
      HighestSetBitIsHighest(x >> 1);
      var h := HighestSetBit(x >> 1);
      HighestSetBitStep(x, h);
      assert HighestSetBit(x) == h + 1;
    } else {
      assert x == 1;
      assert HighestSetBit(x) == 0;
    }
  }

  /** If bit h is the highest of x >> 1, bit h + 1 is the highest of x. */
  lemma HighestSetBitStep(x: bv32, h: bv5)
    requires x > 1 && IsHighestSetBit(x >> 1, h)
    ensures h < 31 && IsHighestSetBit(x, h + 1)
  {
  }

  /** is_power_of_two(x) = !(x & (x - 1)), with x - 1 wrapping for x = 0. */
  function IsPowerOfTwo(x: bv32): bool
  {
    x & (x - 1) == 0
  }

  /** is_power_of_two holds exactly for 0 and for the 32 powers of two. */
  lemma IsPowerOfTwoIff(x: bv32)
    ensures IsPowerOfTwo(x) <==> x == 0 || exists p: bv5 :: x == Pow2(p)
  {
    if x != 0 && IsPowerOfTwo(x) {
      HighestSetBitIsHighest(x);
      var p := HighestSetBit(x);
      assert x == Pow2(p);
    }
  }

  // ---------------------------------------------------------------------
  // next_power_of_two

  /** r is the least power of two at least x: a power of two, at least x, whose half is below x. */
  ghost predicate IsLeastPowerOfTwoAtLeast(x: bv32, r: bv32)
  {
    r != 0 && IsPowerOfTwo(r) && x <= r && r >> 1 < x
  }

  /** No power of two at least x lies below it. */
  lemma LeastPowerOfTwoIsLeast(x: bv32, r: bv32, p: bv5)
    requires IsLeastPowerOfTwoAtLeast(x, r) && x <= Pow2(p)
    ensures r <= Pow2(p)
  {
    IsPowerOfTwoIff(r);
  }

  /**
    next_power_of_two: decrement, smear the highest set bit into every lower
    position, increment. Both the decrement of 0 and the increment of an
    all-ones word wrap around, so 0 and every x above 2^31 yield 0.
  */
  method NextPowerOfTwo(x0: bv32) returns (r: bv32)
    ensures 1 <= x0 <= 0x8000_0000 ==> IsLeastPowerOfTwoAtLeast(x0, r)
    ensures x0 != 0 && IsPowerOfTwo(x0) ==> r == x0
    ensures x0 == 0 || 0x8000_0000 < x0 ==> r == 0
  {
    var x := x0 - 1;
    x := x | (x >> 1);
    x := x | (x >> 2);
    x := x | (x >> 4);
    x := x | (x >> 8);
    x := x | (x >> 16);
    r := x + 1;
  }

  // ---------------------------------------------------------------------
  // bit_count: the octal-mask population count

  /** Step one on unsigned words: each 3-bit group of x is replaced by its number of set bits. */
  function GroupCounts(x: bv32): bv32
  {
    x - ((x >> 1) & 0xDB6D_B6DB) - ((x >> 2) & 0x4924_9249)   // masks 033333333333 and 011111111111
  }

  /** Step two: neighbouring groups are added; the sums sit in 6-bit fields. */
  function FoldedCounts(count: bv32): bv32
  {
    (count + (count >> 3)) & 0xC71C_71C7   // mask 030707070707
  }

  /** The six 6-bit fields of y (the last one two bits wide), added up. */
  function FieldSum(y: bv32): nat
  {
    (Bit(y, 0) + 2 * Bit(y, 1) + 4 * Bit(y, 2))
    + (Bit(y, 6) + 2 * Bit(y, 7) + 4 * Bit(y, 8))
    + (Bit(y, 12) + 2 * Bit(y, 13) + 4 * Bit(y, 14))
    + (Bit(y, 18) + 2 * Bit(y, 19) + 4 * Bit(y, 20))
    + (Bit(y, 24) + 2 * Bit(y, 25) + 4 * Bit(y, 26))
    + (Bit(y, 30) + 2 * Bit(y, 31))
  }

  /** Every 6-bit field of y uses only its three low bits. */
  ghost predicate NarrowFields(y: bv32)
  {
    y & 0x38E3_8E38 == 0
  }

  /** Since 64 = 1 (mod 63), reducing a word of narrow fields mod 63 adds its fields up. */
  lemma NarrowFieldsMod63(y: bv32)
    requires NarrowFields(y)
    ensures Value(y) % 63 == FieldSum(y)
  {
    ValueOfNarrowFields(y);
    var f0, f1, f2 := Bit(y, 0) + 2 * Bit(y, 1) + 4 * Bit(y, 2), Bit(y, 6) + 2 * Bit(y, 7) + 4 * Bit(y, 8),
                      Bit(y, 12) + 2 * Bit(y, 13) + 4 * Bit(y, 14);
    var f3, f4, f5 := Bit(y, 18) + 2 * Bit(y, 19) + 4 * Bit(y, 20), Bit(y, 24) + 2 * Bit(y, 25) + 4 * Bit(y, 26),
                      Bit(y, 30) + 2 * Bit(y, 31);
    FieldsMod63(f0, f1, f2, f3, f4, f5);
  }

  /** A word of narrow fields is the base-64 numeral of its fields. */
  lemma ValueOfNarrowFields(y: bv32)
    requires NarrowFields(y)
    ensures Value(y) == (Bit(y, 0) + 2 * Bit(y, 1) + 4 * Bit(y, 2))
      + 0x40 * (Bit(y, 6) + 2 * Bit(y, 7) + 4 * Bit(y, 8))
      + 0x1000 * (Bit(y, 12) + 2 * Bit(y, 13) + 4 * Bit(y, 14))
      + 0x4_0000 * (Bit(y, 18) + 2 * Bit(y, 19) + 4 * Bit(y, 20))
      + 0x100_0000 * (Bit(y, 24) + 2 * Bit(y, 25) + 4 * Bit(y, 26))
      + 0x4000_0000 * (Bit(y, 30) + 2 * Bit(y, 31))
  {
    NarrowFieldsGaps(y);
  }

  /** Six fields of a base-64 numeral, reduced mod 63. */
  lemma FieldsMod63(f0: nat, f1: nat, f2: nat, f3: nat, f4: nat, f5: nat)
    requires f0 < 8 && f1 < 8 && f2 < 8 && f3 < 8 && f4 < 8 && f5 < 4
    ensures (f0 + 0x40 * f1 + 0x1000 * f2 + 0x4_0000 * f3 + 0x100_0000 * f4 + 0x4000_0000 * f5) % 63
            == f0 + f1 + f2 + f3 + f4 + f5
  {
    var q := f1 + 65 * f2 + 4161 * f3 + 266305 * f4 + 17043521 * f5;
    ModOfMultiplePlus(f0 + 0x40 * f1 + 0x1000 * f2 + 0x4_0000 * f3 + 0x100_0000 * f4 + 0x4000_0000 * f5,
                      q, f0 + f1 + f2 + f3 + f4 + f5);
  }

  /** The bits between the fields of a narrow-field word are clear. */
  lemma NarrowFieldsGaps(y: bv32)
    requires NarrowFields(y)
    ensures Bit(y, 3) == 0 && Bit(y, 4) == 0 && Bit(y, 5) == 0
    ensures Bit(y, 9) == 0 && Bit(y, 10) == 0 && Bit(y, 11) == 0
    ensures Bit(y, 15) == 0 && Bit(y, 16) == 0 && Bit(y, 17) == 0
    ensures Bit(y, 21) == 0 && Bit(y, 22) == 0 && Bit(y, 23) == 0
    ensures Bit(y, 27) == 0 && Bit(y, 28) == 0 && Bit(y, 29) == 0
  {
  }

  lemma ModOfMultiplePlus(v: int, q: int, s: int)
    requires 0 <= s < 63 && v == 63 * q + s
    ensures v % 63 == s
  {
  }

  /** Field 0 of the folded counts holds the number of set bits among bits 0 .. 5 of x. */
  lemma FoldedField0(x: bv32)
    ensures var y := FoldedCounts(GroupCounts(x));
      Bit(y, 0) + 2 * Bit(y, 1) + 4 * Bit(y, 2)
      == Bit(x, 0) + Bit(x, 1) + Bit(x, 2) + Bit(x, 3) + Bit(x, 4) + Bit(x, 5)
  {
  }

  /** Field 1 of the folded counts holds the number of set bits among bits 6 .. 11 of x. */
  lemma FoldedField1(x: bv32)
    ensures var y := FoldedCounts(GroupCounts(x));
      Bit(y, 6) + 2 * Bit(y, 7) + 4 * Bit(y, 8)
      == Bit(x, 6) + Bit(x, 7) + Bit(x, 8) + Bit(x, 9) + Bit(x, 10) + Bit(x, 11)
  {
  }

  /** Field 2 of the folded counts holds the number of set bits among bits 12 .. 17 of x. */
  lemma FoldedField2(x: bv32)
    ensures var y := FoldedCounts(GroupCounts(x));
      Bit(y, 12) + 2 * Bit(y, 13) + 4 * Bit(y, 14)
      == Bit(x, 12) + Bit(x, 13) + Bit(x, 14) + Bit(x, 15) + Bit(x, 16) + Bit(x, 17)
  {
  }

  /** Field 3 of the folded counts holds the number of set bits among bits 18 .. 23 of x. */
  lemma FoldedField3(x: bv32)
    ensures var y := FoldedCounts(GroupCounts(x));
      Bit(y, 18) + 2 * Bit(y, 19) + 4 * Bit(y, 20)
      == Bit(x, 18) + Bit(x, 19) + Bit(x, 20) + Bit(x, 21) + Bit(x, 22) + Bit(x, 23)
  {
  }

  /** Field 4 of the folded counts holds the number of set bits among bits 24 .. 29 of x. */
  lemma FoldedField4(x: bv32)
    ensures var y := FoldedCounts(GroupCounts(x));
      Bit(y, 24) + 2 * Bit(y, 25) + 4 * Bit(y, 26)
      == Bit(x, 24) + Bit(x, 25) + Bit(x, 26) + Bit(x, 27) + Bit(x, 28) + Bit(x, 29)
  {
  }

  lemma FoldedCountsAreFieldwisePopCount(x: bv32)
    ensures NarrowFields(FoldedCounts(GroupCounts(x)))
    ensures FieldSum(FoldedCounts(GroupCounts(x))) == PopCount(x)
  {
    FoldedCountsNarrow(x);
    FoldedFieldSum(x);
  }

  lemma FoldedCountsNarrow(x: bv32)
    ensures NarrowFields(FoldedCounts(GroupCounts(x)))
  {
  }

  lemma FoldedFieldSum(x: bv32)
    ensures FieldSum(FoldedCounts(GroupCounts(x))) == PopCount(x)
  {
    var y := FoldedCounts(GroupCounts(x));
    FoldedField0(x);
    FoldedField1(x);
    FoldedField2(x);
    FoldedField3(x);
    FoldedField4(x);
    FoldedField5(x);
    FieldSumOfFieldwiseCounts(x, y);
  }

  /** The two-bit top field of the folded counts holds the number of set bits among bits 30 and 31 of x. */
  lemma FoldedField5(x: bv32)
    ensures var y := FoldedCounts(GroupCounts(x));
      Bit(y, 30) + 2 * Bit(y, 31) == Bit(x, 30) + Bit(x, 31)
  {
  }

  /** If every field of y counts the bits of the matching 6-bit range of x, the fields add up to PopCount(x). */
  lemma FieldSumOfFieldwiseCounts(x: bv32, y: bv32)
    requires Bit(y, 0) + 2 * Bit(y, 1) + 4 * Bit(y, 2)
      == Bit(x, 0) + Bit(x, 1) + Bit(x, 2) + Bit(x, 3) + Bit(x, 4) + Bit(x, 5)
    requires Bit(y, 6) + 2 * Bit(y, 7) + 4 * Bit(y, 8)
      == Bit(x, 6) + Bit(x, 7) + Bit(x, 8) + Bit(x, 9) + Bit(x, 10) + Bit(x, 11)
    requires Bit(y, 12) + 2 * Bit(y, 13) + 4 * Bit(y, 14)
      == Bit(x, 12) + Bit(x, 13) + Bit(x, 14) + Bit(x, 15) + Bit(x, 16) + Bit(x, 17)
    requires Bit(y, 18) + 2 * Bit(y, 19) + 4 * Bit(y, 20)
      == Bit(x, 18) + Bit(x, 19) + Bit(x, 20) + Bit(x, 21) + Bit(x, 22) + Bit(x, 23)
    requires Bit(y, 24) + 2 * Bit(y, 25) + 4 * Bit(y, 26)
      == Bit(x, 24) + Bit(x, 25) + Bit(x, 26) + Bit(x, 27) + Bit(x, 28) + Bit(x, 29)
    requires Bit(y, 30) + 2 * Bit(y, 31) == Bit(x, 30) + Bit(x, 31)
    ensures FieldSum(y) == PopCount(x)
  {
  }

  /**
    bit_count with the shifts done on the unsigned word: the number of set
    bits. This is the behaviour the rest of the model uses; see BitCountAsWritten
    for what the source computes.
  */
  method BitCount(x: bv32) returns (r: nat)
    ensures r == PopCount(x)
  {
    var count := GroupCounts(x);
    var folded := FoldedCounts(count);
    BitCountFolds(x);
    r := Value(folded) % 63;
  }

  /** The three steps of bit_count, with logical shifts, yield the population count. */
  lemma BitCountFolds(x: bv32)
    ensures Value(FoldedCounts(GroupCounts(x))) % 63 == PopCount(x)
  {
    FoldedCountsAreFieldwisePopCount(x);
    NarrowFieldsMod63(FoldedCounts(GroupCounts(x)));
  }

  /** `i >> n` on a 32-bit int read bit-for-bit as unsigned: an arithmetic (sign-extending) shift. */
  function ArithmeticShiftRight(x: bv32, n: bv32): bv32
    requires n < 32
  {
    if x & 0x8000_0000 == 0 then x >> n else !((!x) >> n)
  }

  /** Step one as the source writes it: the shifts act on `int& i`, so they sign-extend. */
  function GroupCountsAsWritten(x: bv32): bv32
  {
    x - (ArithmeticShiftRight(x, 1) & 0xDB6D_B6DB) - (ArithmeticShiftRight(x, 2) & 0x4924_9249)
  }

  /** bit_count as written: the shifts of step one sign-extend a negative int. */
  method BitCountAsWritten(x: bv32) returns (r: nat)
    ensures r == PopCount(x) + Bit(x, 31)
  {
    var count := GroupCountsAsWritten(x);
    var folded := FoldedCounts(count);
    BitCountAsWrittenOvercounts(x);
    r := Value(folded) % 63;
  }

  /** With bit 31 set the source's count is one too high. */
  lemma BitCountAsWrittenOvercounts(x: bv32)
    ensures Value(FoldedCounts(GroupCountsAsWritten(x))) % 63 == PopCount(x) + Bit(x, 31)
  {
    if x & 0x8000_0000 == 0 {
      BitCountAsWrittenNonNegative(x);
    } else {
      BitCountAsWrittenNegative(x);
    }
  }

  lemma BitCountAsWrittenNonNegative(x: bv32)
    requires x & 0x8000_0000 == 0
    ensures Value(FoldedCounts(GroupCountsAsWritten(x))) % 63 == PopCount(x) + Bit(x, 31)
  {
    GroupCountsAsWrittenNonNegative(x);
    LowBitsClear(x);
    BitCountFolds(x);
  }

  lemma BitCountAsWrittenNegative(x: bv32)
    requires x & 0x8000_0000 != 0
    ensures Value(FoldedCounts(GroupCountsAsWritten(x))) % 63 == PopCount(x) + Bit(x, 31)
  {
    FoldedAsWrittenNegative(x);
    FoldedTopFieldBound(x);
    FoldedCountsAreFieldwisePopCount(x);
    HighBitSet(x);
    OvercountChain(x, FoldedCounts(GroupCounts(x)), FoldedCounts(GroupCountsAsWritten(x)));
  }

  /** On a negative int, sign extension adds one to the top field of the folded counts. */
  lemma FoldedAsWrittenNegative(x: bv32)
    ensures x & 0x8000_0000 != 0 ==>
      FoldedCounts(GroupCountsAsWritten(x)) == FoldedCounts(GroupCounts(x)) + 0x4000_0000
  {
    if x & 0x8000_0000 != 0 {
      GroupCountsAsWrittenNegative(x);
      FoldedCountsCarryOnGroupCounts(x, GroupCountsAsWritten(x));
    }
  }

  /** Adding 2^30 to the step-one word of x adds 2^30 to its folded counts. */
  lemma FoldedCountsCarryOnGroupCounts(x: bv32, c': bv32)
    ensures c' == GroupCounts(x) + 0x4000_0000 ==> FoldedCounts(c') == FoldedCounts(GroupCounts(x)) + 0x4000_0000
  {
    GroupCountsTopFields(x);
    FoldedCountsCarry(GroupCounts(x), c');
  }

  lemma FoldedTopFieldBound(x: bv32)
    ensures FoldedCounts(GroupCounts(x)) >> 30 <= 2
  {
  }

  lemma OvercountChain(x: bv32, y: bv32, z: bv32)
    ensures z == y + 0x4000_0000 && y >> 30 <= 2 && NarrowFields(y) && FieldSum(y) == PopCount(x) && Bit(x, 31) == 1
      ==> Value(z) % 63 == PopCount(x) + Bit(x, 31)
  {
    if z == y + 0x4000_0000 && y >> 30 <= 2 && NarrowFields(y) {
      AddToTopField(y);
      NarrowFieldsMod63(z);
    }
  }

  lemma LowBitsClear(x: bv32)
    ensures x & 0x8000_0000 == 0 ==> Bit(x, 31) == 0
  {
  }

  lemma HighBitSet(x: bv32)
    ensures x & 0x8000_0000 != 0 ==> Bit(x, 31) == 1
  {
  }

  /** Without bit 31 the sign-extending shifts are logical ones. */
  lemma GroupCountsAsWrittenNonNegative(x: bv32)
    ensures x & 0x8000_0000 == 0 ==> GroupCountsAsWritten(x) == GroupCounts(x)
  {
  }

  /** Sign extension adds 2^31 to the first masked shift and 2^30 to the second: step one gains 2^30 (mod 2^32). */
  lemma GroupCountsAsWrittenNegative(x: bv32)
    requires x & 0x8000_0000 != 0
    ensures GroupCountsAsWritten(x) == GroupCounts(x) + 0x4000_0000
  {
  }

  /** The two top groups of step one count at most three and two bits. */
  lemma GroupCountsTopFields(x: bv32)
    ensures (GroupCounts(x) >> 27) & 7 <= 3
    ensures GroupCounts(x) >> 30 <= 2
  {
  }

  /** Adding one to the top group of step one adds one to the top field of step two: nothing carries. */
  lemma FoldedCountsCarry(c: bv32, c': bv32)
    ensures (c >> 27) & 7 <= 3 && c >> 30 <= 2 && c' == c + 0x4000_0000 ==>
      FoldedCounts(c') == FoldedCounts(c) + 0x4000_0000
  {
  }

  /** Adding one to the top field of a word of narrow fields adds one to their sum. */
  lemma AddToTopField(y: bv32)
    requires NarrowFields(y) && y >> 30 <= 2
    ensures NarrowFields(y + 0x4000_0000)
    ensures FieldSum(y + 0x4000_0000) == FieldSum(y) + 1
  {
    SameLowFields(y, y + 0x4000_0000);
  }

  /** Words that agree below bit 30 have field sums that differ only by their top fields. */
  lemma SameLowFields(y: bv32, z: bv32)
    requires y & 0x3FFF_FFFF == z & 0x3FFF_FFFF
    ensures FieldSum(z) == FieldSum(y) - (Bit(y, 30) + 2 * Bit(y, 31)) + (Bit(z, 30) + 2 * Bit(z, 31))
  {
    SameLowBits(y, z);
    SameLowFieldSums(y, z);
  }

  lemma SameLowBits(y: bv32, z: bv32)
    requires y & 0x3FFF_FFFF == z & 0x3FFF_FFFF
    ensures Bit(y, 0) == Bit(z, 0) && Bit(y, 1) == Bit(z, 1) && Bit(y, 2) == Bit(z, 2)
    ensures Bit(y, 6) == Bit(z, 6) && Bit(y, 7) == Bit(z, 7) && Bit(y, 8) == Bit(z, 8)
    ensures Bit(y, 12) == Bit(z, 12) && Bit(y, 13) == Bit(z, 13) && Bit(y, 14) == Bit(z, 14)
    ensures Bit(y, 18) == Bit(z, 18) && Bit(y, 19) == Bit(z, 19) && Bit(y, 20) == Bit(z, 20)
    ensures Bit(y, 24) == Bit(z, 24) && Bit(y, 25) == Bit(z, 25) && Bit(y, 26) == Bit(z, 26)
  {
  }

  lemma SameLowFieldSums(y: bv32, z: bv32)
    requires Bit(y, 0) == Bit(z, 0) && Bit(y, 1) == Bit(z, 1) && Bit(y, 2) == Bit(z, 2)
    requires Bit(y, 6) == Bit(z, 6) && Bit(y, 7) == Bit(z, 7) && Bit(y, 8) == Bit(z, 8)
    requires Bit(y, 12) == Bit(z, 12) && Bit(y, 13) == Bit(z, 13) && Bit(y, 14) == Bit(z, 14)
    requires Bit(y, 18) == Bit(z, 18) && Bit(y, 19) == Bit(z, 19) && Bit(y, 20) == Bit(z, 20)
    requires Bit(y, 24) == Bit(z, 24) && Bit(y, 25) == Bit(z, 25) && Bit(y, 26) == Bit(z, 26)
    ensures FieldSum(z) == FieldSum(y) - (Bit(y, 30) + 2 * Bit(y, 31)) + (Bit(z, 30) + 2 * Bit(z, 31))
  {
  }

  /** The smallest input that shows it: 0x8000_0000 has one set bit and is counted as two. */
  lemma BitCountAsWrittenCounterexample()
    ensures PopCount(0x8000_0000) == 1
    ensures Value(FoldedCounts(GroupCountsAsWritten(0x8000_0000))) % 63 == 2
  {
    BitCountAsWrittenOvercounts(0x8000_0000);
    TopBitOnly();
  }

  lemma TopBitOnly()
    ensures PopCount(0x8000_0000) == 1 && Bit(0x8000_0000, 31) == 1
  {
  }

  // ---------------------------------------------------------------------
  // first_zero_bit

  /** The number of trailing one bits of x: the position of its lowest clear bit, 32 when it has none. */
  function TrailingOnes(x: bv32): nat
    decreases x
  {
    if x & 1 == 0 then 0 else 1 + TrailingOnes(x >> 1)
  }

  /** The mask first_zero_bit hands to bit_count: i = ~x, then (i & -i) - 1, wrapping as a two's complement int. */
  function BelowFirstZero(x: bv32): bv32
  {
    var i := !x;
    (i & -i) - 1
  }

  /** The mask has one set bit per trailing one of x. */
  lemma {:induction false} PopCountBelowFirstZero(x: bv32)
    ensures PopCount(BelowFirstZero(x)) == TrailingOnes(x)
    decreases x
  {
    PopCountBelowFirstZeroStep(x);
    if x & 1 != 0 {
      PopCountBelowFirstZero(x >> 1);
      assert TrailingOnes(x) == 1 + TrailingOnes(x >> 1);
    }
  }

  /** An even x has an empty mask; an odd x has one more set bit in its mask than x >> 1. */
  lemma PopCountBelowFirstZeroStep(x: bv32)
    ensures x & 1 == 0 ==> PopCount(BelowFirstZero(x)) == 0
    ensures x & 1 != 0 ==> PopCount(BelowFirstZero(x)) == PopCount(BelowFirstZero(x >> 1)) + 1
  {
    BelowFirstZeroStep(x);
    if x & 1 != 0 {
      var m, m' := BelowFirstZero(x >> 1), BelowFirstZero(x);
      ShiftInOne(m, m');
      PopCountShiftInOne(m, m');
    }
  }

  /** An even x has an empty mask; for an odd x the mask of x >> 1, shifted up, gains a low one. */
  lemma BelowFirstZeroStep(x: bv32)
    ensures x & 1 == 0 ==> BelowFirstZero(x) == 0
    ensures x & 1 != 0 ==> BelowFirstZero(x) == (BelowFirstZero(x >> 1) << 1) | 1
    ensures x & 1 != 0 ==> BelowFirstZero(x >> 1) < 0x8000_0000
  {
  }

  /** Shifting a word below 2^31 up by one and setting bit 0 moves every bit one place up. */
  lemma ShiftInOne(y: bv32, z: bv32)
    ensures y < 0x8000_0000 && z == (y << 1) | 1 ==>
      && Bit(z, 0) == 1 && Bit(y, 31) == 0
      && Bit(z, 1) == Bit(y, 0) && Bit(z, 2) == Bit(y, 1) && Bit(z, 3) == Bit(y, 2) && Bit(z, 4) == Bit(y, 3)
      && Bit(z, 5) == Bit(y, 4) && Bit(z, 6) == Bit(y, 5) && Bit(z, 7) == Bit(y, 6) && Bit(z, 8) == Bit(y, 7)
      && Bit(z, 9) == Bit(y, 8) && Bit(z, 10) == Bit(y, 9) && Bit(z, 11) == Bit(y, 10) && Bit(z, 12) == Bit(y, 11)
      && Bit(z, 13) == Bit(y, 12) && Bit(z, 14) == Bit(y, 13) && Bit(z, 15) == Bit(y, 14) && Bit(z, 16) == Bit(y, 15)
      && Bit(z, 17) == Bit(y, 16) && Bit(z, 18) == Bit(y, 17) && Bit(z, 19) == Bit(y, 18) && Bit(z, 20) == Bit(y, 19)
      && Bit(z, 21) == Bit(y, 20) && Bit(z, 22) == Bit(y, 21) && Bit(z, 23) == Bit(y, 22) && Bit(z, 24) == Bit(y, 23)
      && Bit(z, 25) == Bit(y, 24) && Bit(z, 26) == Bit(y, 25) && Bit(z, 27) == Bit(y, 26) && Bit(z, 28) == Bit(y, 27)
      && Bit(z, 29) == Bit(y, 28) && Bit(z, 30) == Bit(y, 29) && Bit(z, 31) == Bit(y, 30)
  {
  }

  lemma PopCountShiftInOne(y: bv32, z: bv32)
    requires Bit(z, 0) == 1 && Bit(y, 31) == 0
    requires Bit(z, 1) == Bit(y, 0) && Bit(z, 2) == Bit(y, 1) && Bit(z, 3) == Bit(y, 2) && Bit(z, 4) == Bit(y, 3)
    requires Bit(z, 5) == Bit(y, 4) && Bit(z, 6) == Bit(y, 5) && Bit(z, 7) == Bit(y, 6) && Bit(z, 8) == Bit(y, 7)
    requires Bit(z, 9) == Bit(y, 8) && Bit(z, 10) == Bit(y, 9) && Bit(z, 11) == Bit(y, 10) && Bit(z, 12) == Bit(y, 11)
    requires Bit(z, 13) == Bit(y, 12) && Bit(z, 14) == Bit(y, 13) && Bit(z, 15) == Bit(y, 14) && Bit(z, 16) == Bit(y, 15)
    requires Bit(z, 17) == Bit(y, 16) && Bit(z, 18) == Bit(y, 17) && Bit(z, 19) == Bit(y, 18) && Bit(z, 20) == Bit(y, 19)
    requires Bit(z, 21) == Bit(y, 20) && Bit(z, 22) == Bit(y, 21) && Bit(z, 23) == Bit(y, 22) && Bit(z, 24) == Bit(y, 23)
    requires Bit(z, 25) == Bit(y, 24) && Bit(z, 26) == Bit(y, 25) && Bit(z, 27) == Bit(y, 26) && Bit(z, 28) == Bit(y, 27)
    requires Bit(z, 29) == Bit(y, 28) && Bit(z, 30) == Bit(y, 29) && Bit(z, 31) == Bit(y, 30)
    ensures PopCount(z) == PopCount(y) + 1
  {
  }

  /** Only the all-ones word has 32 trailing ones, and its mask is the only one with bit 31 set. */
  lemma TrailingOnesAllOnes(x: bv32)
    ensures TrailingOnes(x) <= 32
    ensures TrailingOnes(x) == 32 <==> x == 0xFFFF_FFFF
    ensures Bit(BelowFirstZero(x), 31) == 1 <==> x == 0xFFFF_FFFF
  {
    PopCountBelowFirstZero(x);
    var m := BelowFirstZero(x);
    MaskAllOnes(x);
    PopCountFull(m);
  }

  lemma MaskAllOnes(x: bv32)
    ensures BelowFirstZero(x) == 0xFFFF_FFFF <==> x == 0xFFFF_FFFF
    ensures Bit(BelowFirstZero(x), 31) == 1 <==> x == 0xFFFF_FFFF
  {
  }

  /** A word has 32 set bits exactly when it is all ones. */
  lemma PopCountFull(y: bv32)
    ensures PopCount(y) <= 32
    ensures PopCount(y) == 32 <==> y == 0xFFFF_FFFF
  {
    PopCountAtMost32(y);
    if PopCount(y) == 32 {
      EveryBitSet(y);
      AllOnesFromBits(y);
    }
    if y == 0xFFFF_FFFF {
      PopCountOfAllOnes();
    }
  }

  lemma PopCountAtMost32(y: bv32)
    ensures PopCount(y) <= 32
  {
  }

  lemma PopCountOfAllOnes()
    ensures PopCount(0xFFFF_FFFF) == 32
  {
  }

  lemma EveryBitSet(y: bv32)
    requires PopCount(y) == 32
    ensures Bit(y, 0) == 1 && Bit(y, 1) == 1 && Bit(y, 2) == 1 && Bit(y, 3) == 1 && Bit(y, 4) == 1 && Bit(y, 5) == 1 && Bit(y, 6) == 1 && Bit(y, 7) == 1
      && Bit(y, 8) == 1 && Bit(y, 9) == 1 && Bit(y, 10) == 1 && Bit(y, 11) == 1 && Bit(y, 12) == 1 && Bit(y, 13) == 1 && Bit(y, 14) == 1 && Bit(y, 15) == 1
      && Bit(y, 16) == 1 && Bit(y, 17) == 1 && Bit(y, 18) == 1 && Bit(y, 19) == 1 && Bit(y, 20) == 1 && Bit(y, 21) == 1 && Bit(y, 22) == 1 && Bit(y, 23) == 1
      && Bit(y, 24) == 1 && Bit(y, 25) == 1 && Bit(y, 26) == 1 && Bit(y, 27) == 1 && Bit(y, 28) == 1 && Bit(y, 29) == 1 && Bit(y, 30) == 1 && Bit(y, 31) == 1
  {
  }

  lemma AllOnesFromBits(y: bv32)
    requires Bit(y, 0) == 1 && Bit(y, 1) == 1 && Bit(y, 2) == 1 && Bit(y, 3) == 1 && Bit(y, 4) == 1 && Bit(y, 5) == 1 && Bit(y, 6) == 1 && Bit(y, 7) == 1
      && Bit(y, 8) == 1 && Bit(y, 9) == 1 && Bit(y, 10) == 1 && Bit(y, 11) == 1 && Bit(y, 12) == 1 && Bit(y, 13) == 1 && Bit(y, 14) == 1 && Bit(y, 15) == 1
      && Bit(y, 16) == 1 && Bit(y, 17) == 1 && Bit(y, 18) == 1 && Bit(y, 19) == 1 && Bit(y, 20) == 1 && Bit(y, 21) == 1 && Bit(y, 22) == 1 && Bit(y, 23) == 1
      && Bit(y, 24) == 1 && Bit(y, 25) == 1 && Bit(y, 26) == 1 && Bit(y, 27) == 1 && Bit(y, 28) == 1 && Bit(y, 29) == 1 && Bit(y, 30) == 1 && Bit(y, 31) == 1
    ensures y == 0xFFFF_FFFF
  {
  }

  /**
    first_zero_bit: i = ~x, return bit_count((i & -i) - 1). On the complement
    i & -i isolates the lowest set bit, and subtracting one leaves a mask of
    the bits below it. The negation of INT_MIN (x = 0x7FFF_FFFF) is modelled
    as wrapping around.
  */
  method FirstZeroBit(x: bv32) returns (r: nat)
    ensures r == TrailingOnes(x)
    ensures r <= 32 && (r == 32 <==> x == 0xFFFF_FFFF)
  {
    r := BitCount(BelowFirstZero(x));
    PopCountBelowFirstZero(x);
    TrailingOnesAllOnes(x);
  }

  /** first_zero_bit as written, on the sign-extending bit_count: the all-ones word yields 33. */
  method FirstZeroBitAsWritten(x: bv32) returns (r: nat)
    ensures x != 0xFFFF_FFFF ==> r == TrailingOnes(x)
    ensures x == 0xFFFF_FFFF ==> r == 33
  {
    r := BitCountAsWritten(BelowFirstZero(x));
    PopCountBelowFirstZero(x);
    TrailingOnesAllOnes(x);
  }

  /** The input that shows it: a word with no clear bit. */
  lemma FirstZeroBitAsWrittenCounterexample()
    ensures TrailingOnes(0xFFFF_FFFF) == 32
    ensures PopCount(BelowFirstZero(0xFFFF_FFFF)) + Bit(BelowFirstZero(0xFFFF_FFFF), 31) == 33
  {
    TrailingOnesAllOnes(0xFFFF_FFFF);
  }

  // ---------------------------------------------------------------------
  // The 64-bit overload of floor_log2

  /** Bit p is the highest set bit of the 64-bit word x. */
  ghost predicate IsHighestSetBitU64(x: bv64, p: bv6)
  {
    x >> p == 1
  }

  /** The highest set bit p of x is floor(log2 x): 2^p <= x < 2^(p+1). */
  lemma HighestSetBitBoundsU64(x: bv64, p: bv6)
    requires IsHighestSetBitU64(x, p)
    ensures (1 as bv64) << p <= x
    ensures p < 63 ==> x < (1 as bv64) << (p + 1)
  {
  }

  /** A 64-bit word has at most one highest set bit. */
  lemma HighestSetBitUniqueU64(x: bv64, p: bv6, q: bv6)
    requires IsHighestSetBitU64(x, p) && IsHighestSetBitU64(x, q)
    ensures p == q
  {
  }

  /** r is floor_log2(x) for a 64-bit word: the position of its highest set bit, or -1 for zero. */
  ghost predicate IsFloorLog2U64(x: bv64, r: int)
  {
    if x == 0 then r == -1 else 0 <= r < 64 && IsHighestSetBitU64(x, r as bv6)
  }

  /**
    floor_log2 for 64-bit words: six conditional halvings. The first one
    (by 32) is done here; the other five, which act on a value below 2^32,
    are done by FloorLog2Below32.
  */
  method FloorLog2U64(x0: bv64) returns (r: int)
    ensures IsFloorLog2U64(x0, r)
  {
    var x := x0;
    var pos := 0;
    if x >= 1 << 32 { x := x >> 32; pos := pos + 32; }
    var low := FloorLog2Below32(x);
    HighHalfPosition(x0, low);
    r := if low == -1 then -1 else pos + low;
  }

  /** The last five halvings of the 64-bit floor_log2, on a value below 2^32. */
  method FloorLog2Below32(x0: bv64) returns (r: int)
    requires x0 < 1 << 32
    ensures IsFloorLog2U64(x0, r) && r < 32
  {
    var x := x0;
    var pos := 0;
    if x >= 1 << 16 { x := x >> 16; pos := pos + 16; }
    if x >= 1 << 8  { x := x >> 8;  pos := pos + 8; }
    if x >= 1 << 4  { x := x >> 4;  pos := pos + 4; }
    if x >= 1 << 2  { x := x >> 2;  pos := pos + 2; }
    if x >= 1 << 1  { pos := pos + 1; }
    r := if x == 0 then -1 else pos;
  }

  /** The highest set bit of the upper half, moved up by 32, is the highest set bit of the word. */
  lemma HighHalfPosition(x: bv64, low: int)
    ensures 0 <= low < 32 && IsFloorLog2U64(x >> 32, low) ==> IsFloorLog2U64(x, low + 32)
  {
  }
}
