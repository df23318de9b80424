/** The 16-bit pattern arithmetic of the Life sample
    (samples/life/include/LifeImplementation.h, LifeSupport.h): counting
    1-bits the way Kernighan does, and the 3×3 neighbourhood masks whose bit
    `j` records whether the `j`-th visited cell is alive. */
module SurroundBits {

  /** Bit `i` of `x`, as 0 or 1. */
  function Bit(x: bv16, i: nat): nat
    requires i < 16
  {
    if x & (1 << i) == 0 then 0 else 1
  }

  /** Whether `x` has a 1-bit among its lowest `n` bits. */
  predicate HasBitBelow(x: bv16, n: nat)
    requires n <= 16
  {
    x & ((1 << n) - 1) != 0
  }

  /** The number of 1-bits among the lowest `n` bits of `x`. */
  function CountLow(x: bv16, n: nat): nat
    requires n <= 16
  {
    if n == 0 then 0 else CountLow(x, n - 1) + Bit(x, n - 1)
  }

  /** The number of 1-bits of `x`, bit by bit. */
  function PopCount(x: bv16): nat
  {
    CountLow(x, 16)
  }

  /** At a single-bit mask `m`, `x & (x - 1)` differs from `x` exactly when
      `m` marks the lowest 1-bit of `x`. */
  lemma ClearedAtSingleBit(x: bv16, m: bv16)
    requires m != 0 && m & (m - 1) == 0
    ensures (x & (x - 1)) & m == if x & (m - 1) == 0 && x & m != 0 then 0 else x & m
  {
  }

  lemma BitOfCleared(x: bv16, i: nat)
    requires i < 16
    ensures Bit(x & (x - 1), i) == if !HasBitBelow(x, i) && Bit(x, i) == 1 then 0 else Bit(x, i)
  {
    var m: bv16 := 1 << i;
    assert m != 0 && m & (m - 1) == 0;
    ClearedAtSingleBit(x, m);
  }

  lemma MaskGrows(x: bv16, n: nat)
    requires 1 <= n <= 16
    ensures HasBitBelow(x, n) == (HasBitBelow(x, n - 1) || Bit(x, n - 1) == 1)
  {
  }

  /** Among the lowest `n` bits, `x & (x - 1)` has one 1-bit fewer than `x`
      when `x` has one there at all. */
  lemma {:induction false} ClearLowestBitCount(x: bv16, n: nat)
    requires n <= 16
    ensures CountLow(x & (x - 1), n) + (if HasBitBelow(x, n) then 1 else 0) == CountLow(x, n)
  {
    if n > 0 {
      ClearLowestBitCount(x, n - 1);
      BitOfCleared(x, n - 1);
      MaskGrows(x, n);
    } else {
      assert !HasBitBelow(x, 0);
    }
  }

  /** Kernighan's step removes exactly one 1-bit. */
  lemma LowestBitCleared(x: bv16)
    requires x != 0
    ensures PopCount(x & (x - 1)) == PopCount(x) - 1
  {
    ClearLowestBitCount(x, 16);
    assert HasBitBelow(x, 16);
  }

  lemma {:induction false} ZeroCount(n: nat)
    requires n <= 16
    ensures CountLow(0, n) == 0
  {
    if n > 0 {
      ZeroCount(n - 1);
    }
  }

  /** GetSurroundingCount: clear the lowest 1-bit until none is left,
      counting the rounds; the count is the number of 1-bits. */
  method GetSurroundingCount(surround: bv16) returns (count: nat)
    ensures count == PopCount(surround)
  {
    var s := surround;
    count := 0;
    while s != 0
      invariant count + PopCount(s) == PopCount(surround)
      decreases PopCount(s)
    {
      LowestBitCleared(s);
      s := s & (s - 1);
      count := count + 1;
    }
    ZeroCount(16);
  }

  /** The mask with bit `n` alone set, as `bitmask <<= 1` builds it from
      1. */
  function SingleBit(n: nat): bv16
    requires n < 16
  {
    if n == 0 then 1 else SingleBit(n - 1) << 1
  }

  /** The mask built by shifting is `1 << n`. */
  lemma {:induction false} SingleBitIsShift(n: nat)
    requires n < 16
    ensures SingleBit(n) == (1 as bv16) << n
  {
    if n > 0 {
      SingleBitIsShift(n - 1);
      ShiftOnce(n - 1);
    }
  }

  /** `bitmask <<= 1` moves the single bit up by one. */
  lemma ShiftSingleBit(m: nat)
    requires m < 15
    ensures SingleBit(m) << 1 == SingleBit(m + 1)
  {
  }

  /** The pattern whose bit `j` is set exactly when `flags[j]`, for the
      first `k` flags: what `surround |= bitmask; bitmask <<= 1` builds. */
  function MaskUpTo(flags: seq<bool>, k: nat): bv16
    requires k <= |flags| <= 16
  {
    if k == 0 then 0 else MaskUpTo(flags, k - 1) | (if flags[k - 1] then 1 << (k - 1) else 0)
  }

  /** The pattern of all the flags. */
  function Mask(flags: seq<bool>): bv16
    requires |flags| <= 16
  {
    MaskUpTo(flags, |flags|)
  }

  /** `surround |= bitmask` for a set flag extends the pattern by it. */
  lemma MaskSet(flags: seq<bool>, m: nat, surround: bv16, bitmask: bv16)
    requires m < |flags| <= 15 && flags[m]
    requires surround == MaskUpTo(flags, m) && bitmask == SingleBit(m)
    ensures surround | bitmask == MaskUpTo(flags, m + 1)
  {
    SingleBitIsShift(m);
  }

  /** A clear flag leaves the pattern as it is. */
  lemma MaskKeep(flags: seq<bool>, m: nat, surround: bv16)
    requires m < |flags| <= 15 && !flags[m]
    requires surround == MaskUpTo(flags, m)
    ensures surround == MaskUpTo(flags, m + 1)
  {
  }

  /** `bitmask <<= 1` moves the single bit up by one. */
  lemma ShiftOnce(m: nat)
    requires m < 15
    ensures ((1 as bv16) << m) << 1 == (1 as bv16) << (m + 1)
  {
  }

  /** A single-bit mask `m` sees an or-ed bit `b` exactly when `b` is `m`. */
  lemma OrAtSingleBit(x: bv16, m: bv16, b: bv16)
    requires m != 0 && m & (m - 1) == 0
    requires b == 0 || (b != 0 && b & (b - 1) == 0)
    ensures (x | b) & m == if b == m then m else x & m
  {
  }

  lemma SingleBitDiffers(i: nat, j: nat)
    requires i < 16 && j < 16 && i != j
    ensures (1 as bv16) << i != (1 as bv16) << j
  {
    if i < j {
      assert ((1 as bv16) << j) >> i != 1;
    } else {
      assert ((1 as bv16) << i) >> j != 1;
    }
  }

  /** Or-ing in `b`, which is bit `k` when `on` and 0 otherwise, sets bit
      `k` when `on` and changes no other bit. */
  lemma BitOfOr(x: bv16, k: nat, on: bool, b: bv16, i: nat)
    requires k < 16 && i < 16
    requires (on ==> b == (1 as bv16) << k) && (!on ==> b == 0)
    ensures Bit(x | b, i) == if i == k && on then 1 else Bit(x, i)
  {
    var m: bv16 := 1 << i;
    assert m != 0 && m & (m - 1) == 0;
    assert b == 0 || (b != 0 && b & (b - 1) == 0);
    OrAtSingleBit(x, m, b);
    if i != k {
      SingleBitDiffers(i, k);
    }
  }

  lemma BitOfZero(i: nat)
    requires i < 16
    ensures Bit(0, i) == 0
  {
    var m: bv16 := 1 << i;
    assert 0 & m == 0;
  }

  /** Flag `k - 1` sets bit `k - 1` of the pattern and no other. */
  lemma MaskUpToStep(flags: seq<bool>, k: nat, i: nat)
    requires 0 < k <= |flags| <= 16 && i < 16
    ensures Bit(MaskUpTo(flags, k), i) == if i == k - 1 && flags[k - 1] then 1 else Bit(MaskUpTo(flags, k - 1), i)
  {
    var b: bv16 := if flags[k - 1] then 1 << (k - 1) else 0;
    assert MaskUpTo(flags, k) == MaskUpTo(flags, k - 1) | b;
    BitOfOr(MaskUpTo(flags, k - 1), k - 1, flags[k - 1], b, i);
  }

  /** Bit `i` of the pattern is flag `i` for the flags included so far. */
  lemma {:induction false} MaskUpToBits(flags: seq<bool>, k: nat, i: nat)
    requires k <= |flags| <= 16 && i < 16
    ensures Bit(MaskUpTo(flags, k), i) == if i < k && flags[i] then 1 else 0
  {
    if k > 0 {
      MaskUpToBits(flags, k - 1, i);
      MaskUpToStep(flags, k, i);
    } else {
      BitOfZero(i);
    }
  }

  /** Bit `i` of the pattern is flag `i`, and 0 past the last flag. */
  lemma MaskBits(flags: seq<bool>, i: nat)
    requires |flags| <= 16 && i < 16
    ensures Bit(Mask(flags), i) == if i < |flags| && flags[i] then 1 else 0
  {
    MaskUpToBits(flags, |flags|, i);
  }

  /** A pattern with none of the bits 9 to 15 set is below 512. */
  lemma HighBitsClear(x: bv16)
    requires Bit(x, 9) == 0 && Bit(x, 10) == 0 && Bit(x, 11) == 0 && Bit(x, 12) == 0
    requires Bit(x, 13) == 0 && Bit(x, 14) == 0 && Bit(x, 15) == 0
    ensures x as int < 512
  {
    assert x & 0xFE00 == 0;
    assert x <= 0x1FF;
  }

  /** A pattern of at most nine flags indexes the 512-entry rule table. */
  lemma MaskBound(flags: seq<bool>)
    requires |flags| <= 9
    ensures Mask(flags) as int < 512
  {
    MaskBits(flags, 9);
    MaskBits(flags, 10);
    MaskBits(flags, 11);
    MaskBits(flags, 12);
    MaskBits(flags, 13);
    MaskBits(flags, 14);
    MaskBits(flags, 15);
    HighBitsClear(Mask(flags));
  }

  /** Bit `i` of a pattern with the centre bit 0x10 cleared. */
  lemma BitWithoutCentre(x: bv16, i: nat)
    requires i < 16
    ensures Bit(x & !0x10, i) == if i == 4 then 0 else Bit(x, i)
  {
    var m: bv16 := 1 << i;
    assert m != 0 && m & (m - 1) == 0;
    if i == 4 {
      assert m == 0x10;
    } else {
      SingleBitDiffers(i, 4);
    }
  }

  lemma CentreClearedBit(flags: seq<bool>, i: nat)
    requires |flags| <= 16 && i < 16
    ensures Bit(Mask(flags) & !0x10, i) == if i != 4 && i < |flags| && flags[i] then 1 else 0
  {
    BitWithoutCentre(Mask(flags), i);
    MaskBits(flags, i);
  }

  /** The number of set flags among the first `n`, the one at position 4
      (the centre of a 3×3 neighbourhood) not counted. */
  function CountAround(flags: seq<bool>, n: nat): nat
    requires n <= |flags|
  {
    if n == 0 then 0 else CountAround(flags, n - 1) + (if n - 1 != 4 && flags[n - 1] then 1 else 0)
  }

  /** A pattern whose bit `i` is flag `i` for every position but the
      centre, and 0 elsewhere, has as many 1-bits among its lowest `n` as
      there are set flags other than the centre there. */
  lemma {:induction false} CountLowAround(flags: seq<bool>, y: bv16, n: nat)
    requires |flags| <= 16 && n <= 16
    requires forall i :: 0 <= i < 16 ==> Bit(y, i) == if i != 4 && i < |flags| && flags[i] then 1 else 0
    ensures CountLow(y, n) == CountAround(flags, if n < |flags| then n else |flags|)
  {
    if n > 0 {
      CountLowAround(flags, y, n - 1);
    }
  }

  /** The neighbour count of a pattern is the number of live cells around
      the centre. */
  lemma NeighbourCountOfMask(flags: seq<bool>)
    requires |flags| <= 16
    ensures PopCount(Mask(flags) & !0x10) == CountAround(flags, |flags|)
  {
    var y := Mask(flags) & !0x10;
    forall i | 0 <= i < 16
      ensures Bit(y, i) == if i != 4 && i < |flags| && flags[i] then 1 else 0
    {
      CentreClearedBit(flags, i);
    }
    CountLowAround(flags, y, 16);
  }
}
