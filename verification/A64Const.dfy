/** Loading 64-bit constants (arm64_movi and arm64_movimm), against the instruction semantics. */
module A64Const {
  import opened Arith
  import opened Wrappers
  import opened A64Bitmask
  import opened A64Words
  import opened A64Isa

  // ----- one move -----

  /** A single instruction that loads a constant: MOVZ, MOVN, or ORR with the zero register. */
  predicate ConstantMove(i: bv32)
  {
    match Decode(i)
    case MovWide(sf, opc, hw, imm16, rd) => opc == 0 || opc == 2
    case LogicalImm(sf, opc, code, rn, rd) => opc == 1 && rn == 31
    case _ => false
  }

  /** The constant such an instruction loads, if its encoding is defined. */
  function MovedValue(i: bv32): Option<bv64>
    requires ConstantMove(i)
  {
    match Decode(i)
    case MovWide(sf, opc, hw, imm16, rd) =>
      if !sf && hw >= 2 then None else Some(Width(sf, MovWideValue(opc, hw, imm16, 0)))
    case LogicalImm(sf, opc, code, rn, rd) => LogicalImmediate(sf, code)
    case _ => None
  }

  lemma MoveSteps(i: bv32, s: State)
    requires ConstantMove(i) && Decode(i).rd != 31
    ensures Step(i, s) == match MovedValue(i) case None => None case Some(v) => Some(Write(s, Decode(i).rd, v))
  {
    hide *;
    match Decode(i)
    case MovWide(sf, opc, hw, imm16, rd) => MovWideMoves(i, s);
    case LogicalImm(sf, opc, code, rn, rd) => LogicalMoves(i, s);
    case _ => NotAMove(i);
  }

  lemma NotAMove(i: bv32)
    requires ConstantMove(i)
    ensures Decode(i).MovWide? || Decode(i).LogicalImm?
  {
    hide Decode;
  }

  lemma MovWideMoves(i: bv32, s: State)
    requires ConstantMove(i) && Decode(i).MovWide?
    ensures Step(i, s) == match MovedValue(i) case None => None case Some(v) => Some(Write(s, Decode(i).rd, v))
  {
    hide Decode, Width, HalfWord, Write, MovWideValue;
    var MovWide(sf, opc, hw, imm16, rd) := Decode(i);
    OldUnused(opc, hw, imm16, Read(s, rd));
  }

  lemma LogicalMoves(i: bv32, s: State)
    requires ConstantMove(i) && Decode(i).LogicalImm? && Decode(i).rd != 31
    ensures Step(i, s) == match MovedValue(i) case None => None case Some(v) => Some(Write(s, Decode(i).rd, v))
  {
    hide Decode, Width, Write, LogicalImmediate;
    var LogicalImm(sf, opc, code, rn, rd) := Decode(i);
    OrrZero(sf, code);
  }

  lemma OldUnused(opc: bv32, hw: bv32, imm16: bv64, v: bv64)
    requires opc == 0 || opc == 2
    ensures MovWideValue(opc, hw, imm16, v) == MovWideValue(opc, hw, imm16, 0)
  {
    hide HalfWord;
  }

  lemma OrrZero(sf: bool, code: bv32)
    ensures LogicalImmediate(sf, code).Some? ==>
      Width(sf, 0 | LogicalImmediate(sf, code).value) == LogicalImmediate(sf, code).value
  {
    hide Width;
    if LogicalImmediate(sf, code).Some? { ZeroOr(sf, WordOf(DecodeBitMasks(FieldNat(code)).value)); }
  }

  lemma ZeroOr(sf: bool, w: bv64)
    ensures Width(sf, 0 | Width(sf, w)) == Width(sf, w)
  {}

  /** Instruction i loads x into register r. */
  predicate Loads(i: bv32, r: bv32, x: bv64)
  {
    ConstantMove(i) && Decode(i).rd == r && MovedValue(i) == Some(x)
  }

  lemma LoadsNonZero(i: bv32, r: bv32, x: bv64)
    requires Loads(i, r, x)
    ensures i != 0
  {
    ZeroIsOther();
    hide Decode, MovedValue;
  }

  lemma ZeroIsOther()
    ensures Decode(0) == Other
  {}

  // ----- the ten MOVZ and MOVN forms -----

  predicate ZeroOutside(x: bv64, m: bv64) { x & !m == 0 }

  predicate OnesOutside(x: bv64, m: bv64) { !(x | m) == 0 }

  /** A 32-bit value that is v outside m. */
  predicate IsOutside(x: bv64, m: bv64, v: bv64) { x & !m == v }

  /** What is left of x when it is moved down by a number of half words. */
  function HalfOf(x: bv64, hw: bv32): bv64
  {
    if hw == 0 then x else if hw == 1 then x >> 16 else if hw == 2 then x >> 32 else x >> 48
  }

  /** MOVZ of the only half word of x that is not zero loads x, in 32 bits when it is a low one. */
  lemma MovzLoads(i: bv32, hw: bv32, r: bv32, x: bv64)
    requires hw <= 3 && ZeroOutside(x, HalfWord(0xffff, hw)) && Decode(i) == MovWide(hw >= 2, 2, hw, HalfOf(x, hw), r)
    ensures Loads(i, r, x) && i != 0
  {
    hide Decode;
    LoadsNonZero(i, r, x);
  }

  /** MOVN of 32 bits does when the other half word is all ones. */
  lemma MovnWLoads(i: bv32, hw: bv32, r: bv32, x: bv64)
    requires hw <= 1 && IsOutside(x, HalfWord(0xffff, hw), HalfWord(0xffff, 1 - hw))
    requires Decode(i) == MovWide(false, 0, hw, HalfOf(!x, hw) & 0xffff, r)
    ensures Loads(i, r, x) && i != 0
  {
    hide Decode;
    LoadsNonZero(i, r, x);
  }

  /** MOVN of 64 bits does when all other half words are. */
  lemma MovnXLoads(i: bv32, hw: bv32, r: bv32, x: bv64)
    requires hw <= 3 && OnesOutside(x, HalfWord(0xffff, hw)) && Decode(i) == MovWide(true, 0, hw, HalfOf(!x, hw), r)
    ensures Loads(i, r, x) && i != 0
  {
    hide Decode;
    LoadsNonZero(i, r, x);
  }

  lemma HalfMasks()
    ensures HalfWord(0xffff, 0) == 0xffff && HalfWord(0xffff, 1) == 0xffff_0000
    ensures HalfWord(0xffff, 2) == 0xffff_0000_0000 && HalfWord(0xffff, 3) == 0xffff_0000_0000_0000
  {}

  function MovzW0(r: bv32, x: bv64): bv32 requires ZeroOutside(x, 0xffff) { 0x52800000 | r | ((x << 5) as bv32) }

  lemma MovzW0Fields(r: bv32, x: bv64)
    requires r < 31 && ZeroOutside(x, 0xffff)
    ensures Decode(MovzW0(r, x)) == MovWide(false, 2, 0, x, r)
  {}

  function MovzW1(r: bv32, x: bv64): bv32 requires ZeroOutside(x, 0xffff_0000) { 0x52a00000 | r | ((x >> 11) as bv32) }

  lemma MovzW1Fields(r: bv32, x: bv64)
    requires r < 31 && ZeroOutside(x, 0xffff_0000)
    ensures Decode(MovzW1(r, x)) == MovWide(false, 2, 1, x >> 16, r)
  {}

  function MovzX2(r: bv32, x: bv64): bv32 requires ZeroOutside(x, 0xffff_0000_0000) { 0xd2c00000 | r | ((x >> 27) as bv32) }

  lemma MovzX2Fields(r: bv32, x: bv64)
    requires r < 31 && ZeroOutside(x, 0xffff_0000_0000)
    ensures Decode(MovzX2(r, x)) == MovWide(true, 2, 2, x >> 32, r)
  {}

  function MovzX3(r: bv32, x: bv64): bv32 requires ZeroOutside(x, 0xffff_0000_0000_0000) { 0xd2e00000 | r | ((x >> 43) as bv32) }

  lemma MovzX3Fields(r: bv32, x: bv64)
    requires r < 31 && ZeroOutside(x, 0xffff_0000_0000_0000)
    ensures Decode(MovzX3(r, x)) == MovWide(true, 2, 3, x >> 48, r)
  {}

  function MovnW0(r: bv32, x: bv64): bv32 requires IsOutside(x, 0xffff, 0xffff_0000) { 0x12800000 | r | ((((!x) << 5) & 0x1fffe0) as bv32) }

  lemma MovnW0Fields(r: bv32, x: bv64)
    requires r < 31 && IsOutside(x, 0xffff, 0xffff_0000)
    ensures Decode(MovnW0(r, x)) == MovWide(false, 0, 0, (!x) & 0xffff, r)
  {}

  function MovnW1(r: bv32, x: bv64): bv32 requires IsOutside(x, 0xffff_0000, 0xffff) { 0x12a00000 | r | ((((!x) >> 11) & 0x1fffe0) as bv32) }

  lemma MovnW1Fields(r: bv32, x: bv64)
    requires r < 31 && IsOutside(x, 0xffff_0000, 0xffff)
    ensures Decode(MovnW1(r, x)) == MovWide(false, 0, 1, ((!x) >> 16) & 0xffff, r)
  {}

  function MovnX0(r: bv32, x: bv64): bv32 requires OnesOutside(x, 0xffff) { 0x92800000 | r | ((((!x) << 5) & 0x1fffe0) as bv32) }

  lemma MovnX0Fields(r: bv32, x: bv64)
    requires r < 31 && OnesOutside(x, 0xffff)
    ensures Decode(MovnX0(r, x)) == MovWide(true, 0, 0, !x, r)
  {}

  function MovnX1(r: bv32, x: bv64): bv32 requires OnesOutside(x, 0xffff_0000) { 0x92a00000 | r | ((((!x) >> 11) & 0x1fffe0) as bv32) }

  lemma MovnX1Fields(r: bv32, x: bv64)
    requires r < 31 && OnesOutside(x, 0xffff_0000)
    ensures Decode(MovnX1(r, x)) == MovWide(true, 0, 1, (!x) >> 16, r)
  {}

  function MovnX2(r: bv32, x: bv64): bv32 requires OnesOutside(x, 0xffff_0000_0000) { 0x92c00000 | r | ((((!x) >> 27) & 0x1fffe0) as bv32) }

  lemma MovnX2Fields(r: bv32, x: bv64)
    requires r < 31 && OnesOutside(x, 0xffff_0000_0000)
    ensures Decode(MovnX2(r, x)) == MovWide(true, 0, 2, (!x) >> 32, r)
  {}

  function MovnX3(r: bv32, x: bv64): bv32 requires OnesOutside(x, 0xffff_0000_0000_0000) { 0x92e00000 | r | ((((!x) >> 43) & 0x1fffe0) as bv32) }

  lemma MovnX3Fields(r: bv32, x: bv64)
    requires r < 31 && OnesOutside(x, 0xffff_0000_0000_0000)
    ensures Decode(MovnX3(r, x)) == MovWide(true, 0, 3, (!x) >> 48, r)
  {}

  // ----- ORR of a logical immediate -----

  function OrrX(r: bv32, c: bv32): bv32 { 0xb20003e0 | r | (c << 10) }
  function OrrW(r: bv32, c: bv32): bv32 { 0x320003e0 | r | (c << 10) }

  lemma OrrFields(r: bv32, c: bv32)
    requires r < 31 && c & 0x1fff == c
    ensures Decode(OrrX(r, c)) == LogicalImm(true, 1, c, 31, r)
    ensures Decode(OrrW(r, c)) == LogicalImm(false, 1, c, 31, r)
  {}

  lemma LogicalLoads(i: bv32, r: bv32, x: bv64, sf: bool, code: bv32)
    requires Decode(i) == LogicalImm(sf, 1, code, 31, r) && LogicalImmediate(sf, code) == Some(x)
    ensures Loads(i, r, x)
  {
    hide Decode, LogicalImmediate;
  }

  lemma ImmediateOf(e: nat, sf: bool, w: Word64)
    requires e < 0x2000 && DecodeBitMasks(e) == Some(w) && (sf || e < 0x1000)
    ensures LogicalImmediate(sf, Field(e)) == Some(Width(sf, WordOf(w)))
  {
    hide Field, FieldNat, DecodeBitMasks, WordOf, Width;
    FieldRoundTrip(e);
  }

  lemma OrrXLoads(r: bv32, x: bv64, e: nat)
    requires r < 31 && e < 0x2000 && DecodeBitMasks(e) == Some(Word64Of(x))
    ensures Loads(OrrX(r, Field(e)), r, x)
  {
    hide Decode, DecodeBitMasks, WordOf, Word64Of, Field, FieldNat, Loads, LogicalImmediate, OrrX, OrrW;
    ImmediateOf(e, true, Word64Of(x));
    FieldRoundTrip(e);
    OrrFields(r, Field(e));
    WordRoundTrip(x);
    LogicalLoads(OrrX(r, Field(e)), r, x, true, Field(e));
  }

  /** A code for a word with period 32 is one that the 32-bit form accepts. */
  lemma ShortPeriodShortCode(e: nat, w: Word64)
    requires e < 0x2000 && DecodeBitMasks(e) == Some(w) && Periodic(w, 32)
    ensures e < 0x1000
  {
    if e >= 0x1000 { LongCode(e, w); }
  }

  /** A code with the high bit set has elements of 64 bits. */
  lemma LongCode(e: nat, w: Word64)
    requires 0x1000 <= e < 0x2000 && DecodeBitMasks(e) == Some(w)
    ensures !Periodic(w, 32)
  {
    hide DecodeBitMasks, IsRun, Periodic;
    var n, s, r := DecodeIsRun(e);
    RunNotPeriodic(w, n, s, r, 32);
  }

  function Twice(x: bv64): bv64 { x | (x << 32) }

  lemma TwiceHalves(x: bv64)
    requires x >> 32 == 0
    ensures Low32(Twice(x)) == x && And(Twice(x), 0xffff_ffff) == And(Twice(x) >> 32, 0xffff_ffff)
  {}

  lemma OrrWLoads(r: bv32, x: bv64, e: nat)
    requires r < 31 && x >> 32 == 0 && e < 0x2000 && DecodeBitMasks(e) == Some(Word64Of(Twice(x)))
    ensures Loads(OrrW(r, Field(e)), r, x)
  {
    hide Decode, DecodeBitMasks, LogicalImmediate, WordOf, Word64Of, Field, FieldNat, Loads, Twice, And, OrrX, OrrW;
    TwiceHalves(x);
    EqualHalves(Twice(x));
    ShortPeriodShortCode(e, Word64Of(Twice(x)));
    ImmediateOf(e, false, Word64Of(Twice(x)));
    FieldRoundTrip(e);
    OrrFields(r, Field(e));
    WordRoundTrip(Twice(x));
    LogicalLoads(OrrW(r, Field(e)), r, x, false, Field(e));
  }

  // ----- nothing else loads x -----

  /** x is none of the MOVZ and MOVN values. */
  predicate NotWide(x: bv64)
  {
    !ZeroOutside(x, 0xffff) && !ZeroOutside(x, 0xffff_0000) &&
    !ZeroOutside(x, 0xffff_0000_0000) && !ZeroOutside(x, 0xffff_0000_0000_0000) &&
    !IsOutside(x, 0xffff, 0xffff_0000) && !IsOutside(x, 0xffff_0000, 0xffff) &&
    !OnesOutside(x, 0xffff) && !OnesOutside(x, 0xffff_0000) &&
    !OnesOutside(x, 0xffff_0000_0000) && !OnesOutside(x, 0xffff_0000_0000_0000)
  }

  lemma WideValues(x: bv64, sf: bool, opc: bv32, hw: bv32, imm16: bv64)
    requires NotWide(x) && (opc == 0 || opc == 2) && hw <= 3 && imm16 <= 0xffff && (sf || hw < 2)
    ensures Width(sf, MovWideValue(opc, hw, imm16, 0)) != x
  {
    hide NotWide, Width, HalfWord, Inverted, Inserted;
    if opc == 2 { ZeroValues(x, sf, hw, imm16); } else { OneValues(x, sf, hw, imm16); }
  }

  lemma ZeroValues(x: bv64, sf: bool, hw: bv32, imm16: bv64)
    requires NotWide(x) && hw <= 3 && imm16 <= 0xffff && (sf || hw < 2)
    ensures Width(sf, HalfWord(imm16, hw)) != x
  {}

  lemma OneValues(x: bv64, sf: bool, hw: bv32, imm16: bv64)
    requires NotWide(x) && hw <= 3 && imm16 <= 0xffff && (sf || hw < 2)
    ensures Width(sf, Inverted(HalfWord(imm16, hw))) != x
  {}

  lemma WideFieldsBounded(i: bv32)
    requires Decode(i).MovWide?
    ensures Decode(i).hw <= 3 && Decode(i).imm16 <= 0xffff
  {}

  lemma LogicalFieldBounded(i: bv32)
    requires Decode(i).LogicalImm?
    ensures Decode(i).code & 0x1fff == Decode(i).code
  {}

  ghost predicate NoCodeFor(w: Word64) { forall c: nat | c < 0x2000 :: DecodeBitMasks(c) != Some(w) }

  lemma NoLogical(x: bv64, sf: bool, code: bv32)
    requires NoCodeFor(Word64Of(x)) && (x >> 32 == 0 ==> NoCodeFor(Word64Of(Twice(x))))
    requires code & 0x1fff == code
    ensures LogicalImmediate(sf, code) != Some(x)
  {
    FieldNatBound(code);
    if LogicalImmediate(sf, code) == Some(x) {
      var w := DecodeBitMasks(FieldNat(code)).value;
      BitsOfWord(w);
      if !sf { WideCodeIsShort(code, w, x); }
      assert false;
    }
  }

  lemma WideCodeIsShort(code: bv32, w: Word64, x: bv64)
    requires code < 0x1000 && FieldNat(code) < 0x2000 && DecodeBitMasks(FieldNat(code)) == Some(w) && x == Low32(WordOf(w))
    ensures x >> 32 == 0 && w == Word64Of(Twice(x))
  {
    hide FieldNat, DecodeBitMasks, HighestElement, WordOf, And, Low32, Twice, IsRun, Periodic;
    ShortCodeElement(code);
    var y := WordOf(w);
    var n, s, r := DecodeIsRun(FieldNat(code));
    RunPeriodic(w, n, s, r);
    PeriodicMultiple(w, n, 32);
    BitsOfWord(w);
    EqualHalves(y);
    HalvesTwice(y);
  }

  lemma ShortCodeElement(code: bv32)
    requires code < 0x1000 && FieldNat(code) < 0x2000 && DecodeBitMasks(FieldNat(code)).Some?
    ensures HighestElement(FieldNat(code) / 4096 * 64 + (63 - FieldNat(code) % 64)).value <= 32
  {
    FieldNatBound(code);
    hide FieldNat;
  }

  lemma HalvesTwice(y: bv64)
    requires And(y, 0xffff_ffff) == And(y >> 32, 0xffff_ffff)
    ensures Twice(Low32(y)) == y && Low32(y) >> 32 == 0
  {}

  lemma PeriodicMultiple(w: Word64, n: int, m: int)
    requires ElementSize(n) && ElementSize(m) && n <= m && Periodic(w, n)
    ensures Periodic(w, m)
  {
    var k := SizesDivide(m, n);
    forall i | 0 <= i < 64 ensures w[i] == w[i % m] {
      RemainderOfRemainder(i, k, n);
    }
  }

  lemma RemainderOfRemainder(i: int, k: int, n: int)
    requires n > 0 && k > 0
    ensures k * n > 0 && i % (k * n) % n == i % n
  {
    MulAtLeast(k, n);
    var q := i / (k * n);
    ModAddMultiple(i % (k * n), q * k, n);
    assert i == i % (k * n) + q * k * n by { assert q * (k * n) == q * k * n; }
  }

  lemma NothingLoads(x: bv64, i: bv32)
    requires NotWide(x) && NoCodeFor(Word64Of(x)) && (x >> 32 == 0 ==> NoCodeFor(Word64Of(Twice(x))))
    requires ConstantMove(i)
    ensures MovedValue(i) != Some(x)
  {
    hide *;
    NotAMove(i);
    if Decode(i).MovWide? {
      WideFieldsBounded(i);
      NoWide(x, i);
    } else {
      LogicalFieldBounded(i);
      NoLogical(x, Decode(i).sf, Decode(i).code);
      LogicalMoved(i);
    }
  }

  lemma NoWide(x: bv64, i: bv32)
    requires NotWide(x) && ConstantMove(i) && Decode(i).MovWide? && Decode(i).hw <= 3 && Decode(i).imm16 <= 0xffff
    ensures MovedValue(i) != Some(x)
  {
    hide Decode, NotWide, Width, MovWideValue;
    var MovWide(sf, opc, hw, imm16, rd) := Decode(i);
    if sf || hw < 2 { WideValues(x, sf, opc, hw, imm16); }
  }

  lemma LogicalMoved(i: bv32)
    requires ConstantMove(i) && Decode(i).LogicalImm?
    ensures MovedValue(i) == LogicalImmediate(Decode(i).sf, Decode(i).code)
  {
    hide Decode, LogicalImmediate;
  }

  /** arm64_movi: one instruction loading x into register r, or 0 when there is none. */
  method MovI(r: bv32, x: bv64) returns (i: bv32)
    requires r < 31
    ensures i != 0 ==> Loads(i, r, x)
    ensures i == 0 ==> NotWide(x) && forall j | ConstantMove(j) :: MovedValue(j) != Some(x)
  {
    i := MovWideI(r, x);
    if i != 0 { return; }
    hide Loads, MovedValue, ConstantMove, NotWide, OrrW, OrrX, Twice, Word64Of, DecodeBitMasks;
    if x >> 32 == 0 {
      var e := EncodeBimm64(Word64Of(Twice(x)));
      if e >= 0 {
        OrrWLoads(r, x, e);
        LoadsNonZero(OrrW(r, Field(e)), r, x);
        return OrrW(r, Field(e));
      }
      assert NoCodeFor(Word64Of(Twice(x)));
    }
    var e := EncodeBimm64(Word64Of(x));
    if e >= 0 {
      OrrXLoads(r, x, e);
      LoadsNonZero(OrrX(r, Field(e)), r, x);
      return OrrX(r, Field(e));
    }
    assert NoCodeFor(Word64Of(x));
    forall j | ConstantMove(j) ensures MovedValue(j) != Some(x) { NothingLoads(x, j); }
    return 0;
  }

  /** Its first ten tests: MOVZ and MOVN, in the source's order. */
  method MovWideI(r: bv32, x: bv64) returns (i: bv32)
    requires r < 31
    ensures i != 0 ==> Loads(i, r, x)
    ensures i == 0 ==> NotWide(x)
  {
    HalfMasks();
    hide ZeroOutside, OnesOutside, IsOutside, Loads, Decode, HalfWord;
    hide MovzW0, MovzW1, MovzX2, MovzX3, MovnW0, MovnW1, MovnX0, MovnX1, MovnX2, MovnX3;
    if ZeroOutside(x, 0xffff) { i := MovzW0(r, x); MovzW0Fields(r, x); MovzLoads(i, 0, r, x); }
    else if ZeroOutside(x, 0xffff_0000) { i := MovzW1(r, x); MovzW1Fields(r, x); MovzLoads(i, 1, r, x); }
    else if ZeroOutside(x, 0xffff_0000_0000) { i := MovzX2(r, x); MovzX2Fields(r, x); MovzLoads(i, 2, r, x); }
    else if ZeroOutside(x, 0xffff_0000_0000_0000) { i := MovzX3(r, x); MovzX3Fields(r, x); MovzLoads(i, 3, r, x); }
    else if IsOutside(x, 0xffff, 0xffff_0000) { i := MovnW0(r, x); MovnW0Fields(r, x); MovnWLoads(i, 0, r, x); }
    else if IsOutside(x, 0xffff_0000, 0xffff) { i := MovnW1(r, x); MovnW1Fields(r, x); MovnWLoads(i, 1, r, x); }
    else if OnesOutside(x, 0xffff) { i := MovnX0(r, x); MovnX0Fields(r, x); MovnXLoads(i, 0, r, x); }
    else if OnesOutside(x, 0xffff_0000) { i := MovnX1(r, x); MovnX1Fields(r, x); MovnXLoads(i, 1, r, x); }
    else if OnesOutside(x, 0xffff_0000_0000) { i := MovnX2(r, x); MovnX2Fields(r, x); MovnXLoads(i, 2, r, x); }
    else if OnesOutside(x, 0xffff_0000_0000_0000) { i := MovnX3(r, x); MovnX3Fields(r, x); MovnXLoads(i, 3, r, x); }
    else { i := 0; }
  }
}
