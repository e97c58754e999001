/** The stack-pointer adjustment that gfunc_epilog writes back into the prologue. */
module A64Frame {
  import opened Arith
  import opened Wrappers
  import opened A64Isa

  /** What the two reserved instruction slots are filled with. */
  datatype FrameCode =
    | SubImmediates(low12: nat, high12: nat)          // sub sp,sp,#low12 ; sub sp,sp,#high12,lsl #12
    | MovzSub(mantissa: nat, half: nat, shift: nat)   // movz x16,#mantissa,lsl #(16*half) ; sub sp,sp,x16,lsl #shift

  /** The amount by which running the two instructions lowers the stack pointer. */
  function Lowered(c: FrameCode): nat
  {
    match c
    case SubImmediates(lo, hi) => lo + hi * 4096
    case MovzSub(m, i, j) => m * Pow2(16 * i + j)
  }

  /** The fields fit their instructions; the extended-register form shifts by at most 4. */
  predicate Encodable(c: FrameCode)
  {
    match c
    case SubImmediates(lo, hi) => lo < 4096 && hi < 4096
    case MovzSub(m, i, j) => m < 0x1_0000 && i <= 3 && j <= 4
  }

  /** What the two loops leave: all fields fit, except that the shift may be 5. */
  predicate FieldsFit(c: FrameCode)
  {
    match c
    case SubImmediates(lo, hi) => lo < 4096 && hi < 4096
    case MovzSub(m, i, j) => m < 0x1_0000 && i <= 3 && j <= 5
  }

  // ----- the two loops -----

  /** cur is d in units of 2^(16 i), rounded up, and the last step started at 2^20 or more. */
  predicate HalvesInv(d: nat, cur: nat, i: nat)
  {
    i <= 3 && cur == CeilDiv(d, Pow2(16 * i)) && cur <= Pow2(64 - 16 * i) &&
    (i >= 1 ==> cur >= 16 && CeilDiv(d, Pow2(16 * (i - 1))) >= 0x10_0000)
  }

  lemma SixteenBits(n: nat)
    ensures Pow2(n + 16) == 0x1_0000 * Pow2(n)
  {
    Pow2Values();
    Pow2Add(16, n);
  }

  lemma HalvesStep(d: nat, cur: nat, i: nat)
    requires HalvesInv(d, cur, i) && cur >= 0x10_0000
    ensures HalvesInv(d, CeilDiv(cur, 0x1_0000), i + 1)
  {
    Pow2Values();
    if i == 3 { assert false; }
    SixteenBits(16 * i);
    CeilCompose(d, Pow2(16 * i), 0x1_0000);
    SixteenBits(48 - 16 * i);
    CeilMono(cur, 0x1_0000 * Pow2(48 - 16 * i), 0x1_0000);
    CeilMono(0x10_0000, cur, 0x1_0000);
    CeilUnique(0x1_0000 * Pow2(48 - 16 * i), 0x1_0000, Pow2(48 - 16 * i));
  }

  /** cur is d in units of 2^(16 i + j), rounded up, and start was its value for j == 0. */
  predicate DoublingInv(d: nat, start: nat, cur: nat, i: nat, j: nat)
  {
    j <= 5 && cur == CeilDiv(d, Pow2(16 * i + j)) && cur == CeilDiv(start, Pow2(j)) &&
    (j >= 1 ==> cur >= 0x8000)
  }

  lemma DoublingStep(d: nat, start: nat, cur: nat, i: nat, j: nat)
    requires DoublingInv(d, start, cur, i, j) && start < 0x10_0000 && cur >= 0x1_0000
    ensures DoublingInv(d, start, CeilDiv(cur, 2), i, j + 1)
  {
    CeilCompose(d, Pow2(16 * i + j), 2);
    CeilCompose(start, Pow2(j), 2);
    assert Pow2(16 * i + j + 1) == Pow2(16 * i + j) * 2;
    assert 16 * i + (j + 1) == 16 * i + j + 1;
    Pow2Values();
    CeilMono(start, 0xf_ffff, 32);
    if j == 5 { assert false; }
  }

  // ----- how much more than asked -----

  /** The least multiple of a unit that is at most a sixteenth of d. */
  lemma SmallUnit(d: nat, u: nat)
    requires u > 0 && 16 * u < d
    ensures 16 * (CeilDiv(d, u) * u) < 17 * d
  {
    CeilBounds(d, u);
  }

  lemma LastHalf(d: nat, cur: nat, i: nat)
    requires HalvesInv(d, cur, i) && i >= 1
    ensures 16 * (cur * Pow2(16 * i)) < 17 * d
  {
    var w := Pow2(16 * (i - 1));
    SixteenBits(16 * (i - 1));
    var u := Pow2(16 * i);
    assert u == 0x1_0000 * w;
    CeilBounds(d, w);
    CeilBounds(d, u);
    assert d > 0xf_ffff * w by { MulMono(0x10_0000, CeilDiv(d, w), w); }
    if cur == 16 {
      assert 16 * (cur * u) == 0x100_0000 * w;
    } else {
      MulMono(17, cur, u);
      SmallUnit(d, u);
    }
  }

  lemma LastDoubling(d: nat, start: nat, cur: nat, i: nat, j: nat)
    requires DoublingInv(d, start, cur, i, j) && j >= 1
    ensures 16 * (cur * Pow2(16 * i + j)) < 17 * d
  {
    var u := Pow2(16 * i + j);
    CeilBounds(d, u);
    MulMono(0x8000, cur, u);
    SmallUnit(d, u);
  }

  /** The shift exceeds what the instruction allows only for the top sixteen mantissas. */
  lemma ShiftRange(start: nat, cur: nat, j: nat)
    requires start < 0x10_0000 && j <= 5 && cur == CeilDiv(start, Pow2(j)) && cur < 0x1_0000
    requires j >= 1 ==> CeilDiv(start, Pow2(j - 1)) >= 0x1_0000
    ensures j == 5 <==> start > 0x10_0000 - 16
  {
    Pow2Values();
    assert CeilDiv(0x10_0000 - 16, 16) == 0xffff && CeilDiv(0x10_0000 - 15, 16) == 0x1_0000;
    if start > 0x10_0000 - 16 {
      CeilMono(0x10_0000 - 15, start, 16);
      if j <= 4 { CoarserIsSmaller(start, j, 4); }
    } else {
      CeilMono(start, 0x10_0000 - 16, 16);
    }
  }

  lemma {:induction false} CoarserIsSmaller(d: nat, j: nat, k: nat)
    requires j <= k
    ensures CeilDiv(d, Pow2(k)) <= CeilDiv(d, Pow2(j))
    decreases k - j
  {
    if j < k {
      CoarserIsSmaller(d, j + 1, k);
      CeilCompose(d, Pow2(j), 2);
      assert Pow2(j + 1) == Pow2(j) * 2;
    }
  }

  /** A 32-bit int, wrapping around. */
  function Int32(x: int): int { (x + 0x8000_0000) % 0x1_0000_0000 - 0x8000_0000 }

  /** The frame size of a function whose locals end at loc: (-loc + 15) & ~15 in ints, then made a 64-bit number. */
  function FrameSize(loc: int): nat { Int32(Int32(-loc) + 15) / 16 * 16 % UINT64 }

  const UINT64 := 0x1_0000_0000_0000_0000

  /** The largest frame size that is not rounded up to 2^64, which is zero in 64 bits. */
  const LARGEST := 0xffff_0000_0000_0000

  /** The frame sizes whose encoding would need a shift by 5. */
  predicate NeedsShiftByFive(d: nat)
  {
    0xf_fff0_0000 < d <= 0xf_ffff_0000 || 0xf_fff0_0000_0000 < d <= 0xf_ffff_0000_0000
  }

  lemma Units()
    ensures Pow2(0) == 1 && Pow2(16) == 0x1_0000 && Pow2(32) == 0x1_0000_0000
    ensures Pow2(48) == 0x1_0000_0000_0000 && Pow2(64) == 0x1_0000_0000_0000_0000
  {
    Pow2Values();
    SixteenBits(16);
    SixteenBits(32);
    SixteenBits(48);
  }

  lemma CeilAtMost(d: nat, u: nat, q: nat)
    requires u > 0
    ensures CeilDiv(d, u) <= q <==> d <= q * u
  {
    CeilBounds(d, u);
    if CeilDiv(d, u) <= q { MulMono(CeilDiv(d, u), q, u); } else { MulMono(q + 1, CeilDiv(d, u), u); }
  }

  /** start, in units of u, against the two bounds that matter. */
  lemma UnitBounds(d: nat, start: nat, u: nat)
    requires u > 0 && start == CeilDiv(d, u)
    ensures start > 0xf_fff0 <==> d > 0xf_fff0 * u
    ensures start > 0xf_ffff <==> d > 0xf_ffff * u
  {
    hide CeilDiv;
    CeilAtMost(d, u, 0xf_fff0);
    CeilAtMost(d, u, 0xf_ffff);
  }

  lemma FiveRanges(d: nat, start: nat, i: nat)
    requires HalvesInv(d, start, i) && 1 <= i && start < 0x10_0000 && d < Pow2(64)
    ensures start > 0x10_0000 - 16 <==> NeedsShiftByFive(d)
  {
    hide CeilDiv, Pow2;
    Units();
    UnitBounds(d, start, Pow2(16 * i));
    UnitBounds(d, CeilDiv(d, Pow2(16 * (i - 1))), Pow2(16 * (i - 1)));
    if i == 1 {
    } else if i == 2 {
    } else {
      assert i == 3;
    }
  }

  lemma OneHalfSuffices(d: nat, start: nat, i: nat)
    requires HalvesInv(d, start, i) && 1 <= i && d <= 0x8000_0000
    ensures i == 1 && start < 0x1_0000
  {
    Units();
    CeilMono(d, 0x8000_0000, 0x1_0000);
    CeilMono(d, 0x8000_0000, 0x1_0000_0000);
    if i >= 2 {
      CoarserIsSmaller(d, 16, 16 * (i - 1));
    }
  }

  lemma MultipleOf16(m: nat, n: nat)
    requires n >= 4
    ensures m * Pow2(n) % 16 == 0
  {
    Pow2Values();
    Pow2Add(n - 4, 4);
    hide Pow2;
    var p := Pow2(n - 4);
    Times16(m, p, Pow2(n));
  }

  lemma Times16(m: nat, p: nat, q: nat)
    requires q == p * 16
    ensures m * q % 16 == 0
  {
    assert m * q == m * p * 16;
    DivModUnique(m * q, 16, m * p, 0);
  }

  lemma OneHalfAtLeast(d: nat, start: nat, i: nat)
    requires 0x100_0000 <= d && HalvesInv(d, start, i) && start < 0x10_0000
    ensures i >= 1
  {
    CeilUnique(d, 1, d);
    Units();
  }

  lemma NoDoubling(start: nat)
    ensures CeilDiv(start, Pow2(0)) == start
  {
    CeilUnique(start, 1, start);
  }

  /** Only sizes above the largest are rounded up to 2^64. */
  lemma RoundedTo(d: nat, start: nat, m: nat, i: nat, j: nat)
    requires 0x100_0000 <= d && HalvesInv(d, start, i) && 1 <= i && start < 0x10_0000
    requires m < 0x1_0000 && m == CeilDiv(start, Pow2(j)) && j <= 5 && (j >= 1 ==> CeilDiv(start, Pow2(j - 1)) >= 0x1_0000)
    ensures if d <= LARGEST then m * Pow2(16 * i + j) < UINT64 else m * Pow2(16 * i + j) == UINT64
  {
    if i == 3 {
      Units();
      RoundedThird(d, start, m, j);
    } else {
      TopIsThird(d, start, i);
      RoundedLow(m, i, j);
    }
  }

  lemma RoundedThird(d: nat, start: nat, m: nat, j: nat)
    requires HalvesInv(d, start, 3)
    requires m < 0x1_0000 && m == CeilDiv(start, Pow2(j)) && (j >= 1 ==> CeilDiv(start, Pow2(j - 1)) >= 0x1_0000)
    ensures if d <= LARGEST then m * Pow2(48 + j) < UINT64 else m * Pow2(48 + j) == UINT64
  {
    Units();
    hide CeilDiv, Pow2;
    CeilAtMost(d, Pow2(48), 0xffff);
    if d > LARGEST { TopHalf(start, m, j); } else { NotHalved(start, m, j); }
  }

  lemma RoundedLow(m: nat, i: nat, j: nat)
    requires m < 0x1_0000 && Pow2(16 * i) <= 0x1_0000_0000 && j <= 5
    ensures m * Pow2(16 * i + j) < UINT64
  {
    hide Pow2;
    Pow2Add(16 * i, j);
    SmallAmount(m, Pow2(16 * i), Pow2(j), j);
  }

  lemma NotHalved(start: nat, m: nat, j: nat)
    requires start <= 0xffff && m == CeilDiv(start, Pow2(j)) && (j >= 1 ==> CeilDiv(start, Pow2(j - 1)) >= 0x1_0000)
    ensures j == 0 && m == start && m * Pow2(48) < UINT64
  {
    Units();
    NoDoubling(start);
    if j >= 1 { CoarserIsSmaller(start, 0, j - 1); }
  }

  lemma TopIsThird(d: nat, start: nat, i: nat)
    requires HalvesInv(d, start, i) && start < 0x10_0000 && i <= 2
    ensures d <= LARGEST && Pow2(16 * i) <= 0x1_0000_0000
  {
    Units();
    CeilBounds(d, Pow2(16 * i));
    assert Pow2(16 * i) <= 0x1_0000_0000 by { assert i == 0 || i == 1 || i == 2; }
    hide HalvesInv, CeilDiv, Pow2;
    MulMono(start, 0xf_ffff, Pow2(16 * i));
  }

  lemma TopHalf(start: nat, m: nat, j: nat)
    requires start == 0x1_0000 && m < 0x1_0000 && m == CeilDiv(start, Pow2(j)) && (j >= 1 ==> CeilDiv(start, Pow2(j - 1)) >= 0x1_0000)
    ensures j == 1 && m * Pow2(48 + j) == UINT64
  {
    Units();
    Pow2Values();
    NoDoubling(start);
    assert CeilDiv(0x1_0000, 2) == 0x8000;
    if j >= 2 { CoarserIsSmaller(start, 1, j - 1); }
    assert Pow2(49) == 2 * Pow2(48);
  }

  lemma SmallAmount(m: nat, u: nat, p: nat, j: nat)
    requires m < 0x1_0000 && u <= 0x1_0000_0000 && j <= 5 && p == Pow2(j)
    ensures m * (u * p) < 0x20_0000_0000_0000
  {
    Pow2Values();
    MulMono(u, 0x1_0000_0000, p);
    MulMono(m, 0xffff, u * p);
  }

  /** The result for large frames, from the state in which the loops end. */
  lemma LargeFrame(d: nat, start: nat, m: nat, i: nat, j: nat)
    requires 0x100_0000 <= d < Pow2(64) && HalvesInv(d, start, i) && start < 0x10_0000
    requires DoublingInv(d, start, m, i, j) && m < 0x1_0000
    requires j >= 1 ==> CeilDiv(start, Pow2(j - 1)) >= 0x1_0000
    ensures var c := MovzSub(m, i, j);
            d <= Lowered(c) && 16 * Lowered(c) < 17 * d && Lowered(c) % 16 == 0 &&
            (if d <= LARGEST then Lowered(c) < UINT64 else Lowered(c) == UINT64) &&
            (Encodable(c) <==> !NeedsShiftByFive(d)) && (d <= 0x8000_0000 ==> i == 1 && j == 0)
  {
    assert i <= 3;
    hide CeilDiv, Pow2, HalvesInv, NeedsShiftByFive;
    OneHalfAtLeast(d, start, i);
    CeilBounds(d, Pow2(16 * i + j));
    NoDoubling(start);
    RoundedTo(d, start, m, i, j);
    if j == 0 { LastHalf(d, m, i); } else { LastDoubling(d, start, m, i, j); }
    MultipleOf16(m, 16 * i + j);
    ShiftRange(start, m, j);
    FiveRanges(d, start, i);
    if d <= 0x8000_0000 {
      OneHalfSuffices(d, start, i);
      if j >= 1 { CoarserIsSmaller(start, 0, j - 1); }
    }
  }

  /** gfunc_epilog's encoding of the frame size d. Sizes above the largest end up as an amount of zero in 64 bits. */
  method EncodeFrame(d: nat) returns (c: FrameCode)
    requires d < UINT64 && d % 16 == 0
    ensures d < 0x100_0000 ==> c.SubImmediates? && Lowered(c) == d
    ensures 0x100_0000 <= d <= LARGEST ==> c.MovzSub? && d <= Lowered(c) < UINT64 && 16 * Lowered(c) < 17 * d && Lowered(c) % 16 == 0
    ensures d > LARGEST ==> c.MovzSub? && (Lowered(c) == 0 || Lowered(c) == UINT64)
    ensures c.MovzSub? && d <= 0x8000_0000 ==> c.half == 1 && c.shift == 0
    ensures FieldsFit(c) && (Encodable(c) <==> !NeedsShiftByFive(d))
  {
    if d < 0x100_0000 {
      c := SubImmediates(d % 4096, d / 4096);
      return;
    }
    Units();
    hide CeilDiv, Lowered, Encodable, NeedsShiftByFive, HalvesInv, DoublingInv;
    var i, j, diff := 0, 0, d;
    HalvesStart(d);
    while diff >= 0x10_0000
      invariant HalvesInv(d, diff, i) || (WrapsAround(d) && diff == 0 && i == 1)
      invariant i == 0 ==> diff == d
      decreases diff
    {
      if !WrapsAround(diff) { HalvesStep(d, diff, i); } else { OnlyAtFirst(d, diff, i); }
      diff := RoundHalf(diff);
      i := i + 1;
    }
    if diff == 0 {
      NotZero(d, i);
      ZeroFrame(d);
      return MovzSub(0, 1, 0);
    }
    ghost var start := diff;
    DoublingStart(d, start, i);
    while diff >= 0x1_0000
      invariant DoublingInv(d, start, diff, i, j)
      invariant j >= 1 ==> CeilDiv(start, Pow2(j - 1)) >= 0x1_0000
      decreases diff
    {
      DoublingStep(d, start, diff, i, j);
      WasLarge(d, start, diff, i, j);
      diff := RoundBit(diff);
      j := j + 1;
    }
    LargeFrame(d, start, diff, i, j);
    FieldsLeft(d, start, diff, i, j);
    c := MovzSub(diff, i, j);
  }

  lemma FieldsLeft(d: nat, start: nat, m: nat, i: nat, j: nat)
    requires HalvesInv(d, start, i) && DoublingInv(d, start, m, i, j) && m < 0x1_0000
    ensures FieldsFit(MovzSub(m, i, j))
  {}

  /** diff + 0xffff does not fit 64 bits. */
  predicate WrapsAround(diff: nat) { diff + 0xffff >= UINT64 }

  lemma OnlyAtFirst(d: nat, diff: nat, i: nat)
    requires HalvesInv(d, diff, i) && WrapsAround(diff)
    ensures i == 0
  {
    Units();
    assert i == 0 || 64 - 16 * i == 48 || 64 - 16 * i == 32 || 64 - 16 * i == 16;
  }

  lemma NotZero(d: nat, i: nat)
    requires d >= 0x100_0000
    ensures !HalvesInv(d, 0, i)
  {
    if i == 0 { CeilUnique(d, 1, d); Units(); }
  }

  lemma ZeroFrame(d: nat)
    requires WrapsAround(d) && d < UINT64
    ensures Lowered(MovzSub(0, 1, 0)) == 0 && Encodable(MovzSub(0, 1, 0)) && !NeedsShiftByFive(d) && d > LARGEST
  {}

  /** (diff + 0xffff) >> 16 in 64 bits, and (diff + 1) >> 1 */
  function RoundHalf(diff: nat): (r: nat)
    requires diff < UINT64
    ensures diff >= 0x10_0000 ==> r < diff
    ensures if WrapsAround(diff) then r == 0 else r == CeilDiv(diff, 0x1_0000)
  {
    (diff + 0xffff) % UINT64 / 0x1_0000
  }

  function RoundBit(diff: nat): (r: nat)
    ensures r == CeilDiv(diff, 2) && (diff >= 2 ==> r < diff)
  {
    (diff + 1) / 2
  }

  lemma HalvesStart(d: nat)
    requires d < Pow2(64)
    ensures HalvesInv(d, d, 0)
  {
    CeilUnique(d, 1, d);
  }

  lemma DoublingStart(d: nat, start: nat, i: nat)
    requires HalvesInv(d, start, i)
    ensures DoublingInv(d, start, start, i, 0)
  {
    CeilUnique(start, 1, start);
  }

  lemma WasLarge(d: nat, start: nat, cur: nat, i: nat, j: nat)
    requires DoublingInv(d, start, cur, i, j) && cur >= 0x1_0000
    ensures CeilDiv(start, Pow2(j)) >= 0x1_0000
  {}

  /** From the function's lowest local, an int: the frame never needs the invalid shift, and it is large enough exactly unless the
      rounding overflows, for the lowest sixteen offsets; their size is above the largest. */
  lemma IntFramesEncodable(loc: int)
    requires -0x8000_0000 <= loc < 0
    ensures var d := FrameSize(loc);
      d < UINT64 && d % 16 == 0 && !NeedsShiftByFive(d) &&
      if loc >= -0x7fff_fff0 then -loc <= d <= 0x7fff_fff0 && d < -loc + 16 else d > LARGEST
  {
    var x := Int32(Int32(-loc) + 15);
    if loc >= -0x7fff_fff0 {
      assert x == -loc + 15;
    } else {
      assert x / 16 * 16 == -0x8000_0000;
    }
  }
}
