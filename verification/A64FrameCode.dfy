/** The two instruction words that lower the stack pointer, composed and run. */
module A64FrameCode {
  import opened Arith
  import opened Wrappers
  import opened A64Words
  import opened A64Isa
  import opened A64Frame

  // ----- numbers as words -----

  /** The word with the binary digits of n; digits past the 64th are lost. */
  function WordOfNat(n: nat): bv64 { if n == 0 then 0 else Push(WordOfNat(n / 2), n % 2 == 1) }

  /** The number with the digits of a string of bits. */
  function BitsNat(b: seq<bool>): nat { if b == [] then 0 else 2 * BitsNat(b[1..]) + if b[0] then 1 else 0 }

  function NatBits(n: nat, k: nat): (b: seq<bool>)
    ensures |b| == k
  {
    if k == 0 then [] else [n % 2 == 1] + NatBits(n / 2, k - 1)
  }

  lemma {:induction false} NatBitsNat(n: nat, k: nat)
    requires n < Pow2(k)
    ensures BitsNat(NatBits(n, k)) == n
  {
    if k > 0 {
      NatBitsNat(n / 2, k - 1);
      assert NatBits(n, k)[1..] == NatBits(n / 2, k - 1);
    }
  }

  lemma {:induction false} WordOfNatBits(n: nat, k: nat)
    requires n < Pow2(k)
    ensures WordOfNat(n) == WordOf(NatBits(n, k))
  {
    hide Push;
    if k > 0 {
      WordOfNatBits(n / 2, k - 1);
      assert NatBits(n, k)[1..] == NatBits(n / 2, k - 1);
      if n == 0 { PushZero(); }
    }
  }

  lemma PushZero()
    ensures Push(0, false) == 0
  {}

  /** The digits of the word of a number below 2^64 are those of the number. */
  lemma WordValue(n: nat)
    requires n < UINT64
    ensures BitsNat(Word64Of(WordOfNat(n))) == n
  {
    Units();
    WordOfNatBits(n, 64);
    BitsOfWord(NatBits(n, 64));
    NatBitsNat(n, 64);
  }

  /** w doubled k times. */
  function Doubled(w: bv64, k: nat): bv64 { if k == 0 then w else Push(Doubled(w, k - 1), false) }

  lemma {:induction false} DoubledNat(n: nat, k: nat)
    ensures WordOfNat(n * Pow2(k)) == Doubled(WordOfNat(n), k)
  {
    hide Push;
    if k > 0 {
      DoubledNat(n, k - 1);
      var m := n * Pow2(k - 1);
      assert n * Pow2(k) == 2 * m;
      if m == 0 { PushZero(); }
    } else {
      assert n * Pow2(0) == n;
    }
  }

  function Shl4(w: bv64): bv64 { w << 4 }
  function Shl12(w: bv64): bv64 { w << 12 }
  function Shl16(w: bv64): bv64 { w << 16 }

  lemma FourDoublings(w: bv64)
    ensures Push(Push(Push(Push(w, false), false), false), false) == Shl4(w)
  {}

  lemma DoubledFour(w: bv64, k: nat)
    ensures Doubled(w, k + 4) == Shl4(Doubled(w, k))
  {
    hide Push, Shl4;
    FourDoublings(Doubled(w, k));
    assert Doubled(w, k + 2) == Push(Push(Doubled(w, k), false), false);
    assert Doubled(w, k + 4) == Push(Push(Doubled(w, k + 2), false), false);
  }

  lemma FourShifts(w: bv64)
    ensures Shl4(Shl4(Shl4(w))) == Shl12(w) && Shl4(Shl4(Shl4(Shl4(w)))) == Shl16(w)
  {}

  lemma DoubledTwelve(w: bv64, k: nat)
    ensures Doubled(w, k + 12) == Shl12(Doubled(w, k)) && Doubled(w, k + 16) == Shl16(Doubled(w, k))
  {
    hide Doubled, Shl4, Shl12, Shl16;
    DoubledFour(w, k);
    DoubledFour(w, k + 4);
    DoubledFour(w, k + 8);
    DoubledFour(w, k + 12);
    FourShifts(Doubled(w, k));
  }

  function Shl32(w: bv64): bv64 { w << 32 }
  function Shl48(w: bv64): bv64 { w << 48 }

  lemma TwoShifts(w: bv64)
    ensures Shl16(Shl16(w)) == Shl32(w)
  {}

  lemma ThreeShifts(w: bv64)
    ensures Shl16(Shl32(w)) == Shl48(w)
  {}

  lemma HalfWordIs(w: bv64, hw: bv32)
    ensures HalfWord(w, hw) == if hw == 0 then w else if hw == 1 then Shl16(w) else if hw == 2 then Shl32(w) else Shl48(w)
  {}

  /** The half-word position of MOVZ. */
  lemma DoubledHalves(w: bv64, i: nat)
    requires i <= 3
    ensures Doubled(w, 16 * i) == HalfWord(w, HalfField(i))
  {
    hide Doubled, Shl16, Shl32, Shl48, HalfWord;
    DoubledNone(w);
    DoubledTwelve(w, 0);
    DoubledTwelve(w, 16);
    DoubledTwelve(w, 32);
    TwoShifts(w);
    ThreeShifts(w);
    HalfWordIs(w, HalfField(i));
  }

  lemma DoubledNone(w: bv64)
    ensures Doubled(w, 0) == w
  {}

  lemma {:induction false} DoubledTwice(w: bv64, i: nat, j: nat)
    ensures Doubled(w, i + j) == Doubled(Doubled(w, i), j)
    decreases j
  {
    hide Push;
    if j > 0 { DoubledTwice(w, i, j - 1); }
  }

  lemma ShiftedNone(w: bv64)
    ensures ShiftedBy(w, 0) == w
  {}

  lemma ShiftedOnce(w: bv64)
    ensures Push(w, false) == ShiftedBy(w, 1)
  {}

  lemma ShiftedMore(w: bv64)
    ensures Push(ShiftedBy(w, 1), false) == ShiftedBy(w, 2)
  {}

  lemma ShiftedThree(w: bv64)
    ensures Push(ShiftedBy(w, 2), false) == ShiftedBy(w, 3)
  {}

  lemma ShiftedFour(w: bv64)
    ensures Push(ShiftedBy(w, 3), false) == ShiftedBy(w, 4)
  {}

  /** The shift of the extended-register form. */
  lemma DoubledShift(w: bv64, j: nat)
    requires j <= 4
    ensures Doubled(w, j) == ShiftedBy(w, ShiftField(j))
  {
    hide Push, ShiftedBy;
    ShiftedNone(w);
    ShiftedOnce(w);
    ShiftedMore(w);
    ShiftedThree(w);
    ShiftedFour(w);
    assert Doubled(w, 1) == Push(Doubled(w, 0), false);
    assert Doubled(w, 2) == Push(Doubled(w, 1), false);
    assert Doubled(w, 3) == Push(Doubled(w, 2), false);
    assert Doubled(w, 4) == Push(Doubled(w, 3), false);
  }

  // ----- fields -----

  function HalfField(i: nat): bv32 { if i == 0 then 0 else if i == 1 then 1 else if i == 2 then 2 else 3 }

  function ShiftField(j: nat): (f: bv32)
    ensures f <= 5
  {
    if j == 0 then 0 else if j == 1 then 1 else if j == 2 then 2 else if j == 3 then 3 else if j == 4 then 4 else 5
  }

  function PushField(x: bv32, b: bool): bv32 { (x << 1) | (if b then 1 else 0) }

  /** A number in a field of the instruction. */
  function FieldOf(n: nat): bv32 { if n == 0 then 0 else PushField(FieldOf(n / 2), n % 2 == 1) }

  /** The k lowest bits. */
  function FieldOnes(k: nat): bv32 { if k == 0 then 0 else PushField(FieldOnes(k - 1), true) }

  /** x has no bits outside m. */
  predicate Inside(x: bv32, m: bv32) { x & m == x }

  function Wide(x: bv32): bv64 { x as bv64 }

  lemma PushInside(x: bv32, m: bv32, b: bool)
    requires Inside(x, m)
    ensures Inside(PushField(x, b), PushField(m, true))
  {}

  lemma PushSame(x: bv32, w: bv64, b: bool)
    requires Inside(x, 0xffff) && Wide(x) == w
    ensures Wide(PushField(x, b)) == Push(w, b)
  {}

  lemma InsideTrans(x: bv32, y: bv32, z: bv32)
    requires Inside(x, y) && Inside(y, z)
    ensures Inside(x, z)
  {}

  lemma PushOnes(m: bv32, r: bv32)
    requires r == (m << 1) | 1
    ensures PushField(m, true) == r
  {}

  lemma FieldOnesValues()
    ensures FieldOnes(12) == 0xfff && FieldOnes(16) == 0xffff
    ensures forall k: nat | k <= 16 :: Inside(FieldOnes(k), 0xffff)
  {
    hide PushField;
    PushOnes(0, 1); PushOnes(1, 3); PushOnes(3, 7); PushOnes(7, 0xf); PushOnes(0xf, 0x1f); PushOnes(0x1f, 0x3f);
    PushOnes(0x3f, 0x7f); PushOnes(0x7f, 0xff); PushOnes(0xff, 0x1ff); PushOnes(0x1ff, 0x3ff); PushOnes(0x3ff, 0x7ff);
    PushOnes(0x7ff, 0xfff); PushOnes(0xfff, 0x1fff); PushOnes(0x1fff, 0x3fff); PushOnes(0x3fff, 0x7fff); PushOnes(0x7fff, 0xffff);
    assert FieldOnes(0) == 0;
    assert FieldOnes(1) == 1 && FieldOnes(2) == 3;
    assert FieldOnes(3) == 7 && FieldOnes(4) == 0xf;
    assert FieldOnes(5) == 0x1f && FieldOnes(6) == 0x3f;
    assert FieldOnes(7) == 0x7f && FieldOnes(8) == 0xff;
    assert FieldOnes(9) == 0x1ff && FieldOnes(10) == 0x3ff;
    assert FieldOnes(11) == 0x7ff && FieldOnes(12) == 0xfff;
    assert FieldOnes(13) == 0x1fff && FieldOnes(14) == 0x3fff;
    assert FieldOnes(15) == 0x7fff && FieldOnes(16) == 0xffff;
  }

  lemma {:induction false} FieldFits(n: nat, k: nat)
    requires k <= 16 && n < Pow2(k)
    ensures Inside(FieldOf(n), FieldOnes(k)) && Wide(FieldOf(n)) == WordOfNat(n)
  {
    hide PushField, Push, Inside, Wide;
    if n > 0 {
      assert k > 0 && n / 2 < Pow2(k - 1);
      FieldFits(n / 2, k - 1);
      FieldOnesValues();
      InsideTrans(FieldOf(n / 2), FieldOnes(k - 1), 0xffff);
      PushInside(FieldOf(n / 2), FieldOnes(k - 1), n % 2 == 1);
      PushSame(FieldOf(n / 2), WordOfNat(n / 2), n % 2 == 1);
    } else {
      NothingInside(FieldOnes(k));
    }
  }

  lemma NothingInside(m: bv32)
    ensures Inside(0, m) && Wide(0) == 0
  {}

  // ----- the words -----

  const NOP: bv32 := 0xd503201f

  function SubWord(base: bv32, f: bv32): bv32 { base | (f << 10) }

  lemma SubLowFields(f: bv32)
    requires Inside(f, 0xfff)
    ensures Decode(SubWord(0xd10003ff, f)) == AddSubImm(true, true, false, Wide(f), 31, 31)
  {}

  lemma SubHighFields(f: bv32)
    requires Inside(f, 0xfff)
    ensures Decode(SubWord(0xd14003ff, f)) == AddSubImm(true, true, true, Wide(f), 31, 31)
  {}

  function MovzWord(m: bv32, half: bv32): bv32 { 0xd2800010 | (m << 5) | (half << 21) }

  lemma MovzFields(m: bv32, half: bv32)
    requires Inside(m, 0xffff) && Inside(half, 3)
    ensures Decode(MovzWord(m, half)) == MovWide(true, 2, half, Wide(m), 16)
  {}

  lemma SubSpFields(shift: bv32)
    requires Inside(shift, 7)
    ensures Decode(SubWord(0xcb3063ff, shift)) == SubSpExtended(16, shift)
  {}

  lemma NopFields()
    ensures Decode(NOP) == Nop
  {}

  /** The two reserved slots as gfunc_epilog leaves them; the first loop reserved them as nops. */
  function Words(c: FrameCode): seq<bv32>
  {
    match c
    case SubImmediates(lo, hi) =>
      [if lo != 0 then SubWord(0xd10003ff, FieldOf(lo)) else NOP, if hi != 0 then SubWord(0xd14003ff, FieldOf(hi)) else NOP]
    case MovzSub(m, i, j) => [MovzWord(FieldOf(m), HalfField(i)), SubWord(0xcb3063ff, ShiftField(j))]
  }

  /** Only the stack pointer, and x16, may have changed; the stack pointer is lower by the amount. */
  ghost predicate LoweredBy(s: State, t: State, amount: bv64)
  {
    t.sp == AddSub(true, s.sp, amount) && forall r: bv32 :: r < 32 && r != 16 ==> t.x(r) == s.x(r)
  }

  /** Running the code lowers the stack pointer by the amount, from any state. */
  ghost predicate Lowers(code: seq<bv32>, amount: bv64)
  {
    forall s: State :: Run(code, s).Some? && LoweredBy(s, Run(code, s).value, amount)
  }

  lemma RunTwo(u: bv32, v: bv32, s: State)
    ensures Run([u, v], s) == match Step(u, s) case None => None case Some(t) => Step(v, t)
  {
    hide Step;
    assert [u, v][1..] == [v] && [v][1..] == [];
    match Step(u, s)
    case None =>
    case Some(t) => assert Run([v], t) == Step(v, t) by { match Step(v, t) case None => case Some(t') => assert Run([], t') == Some(t'); }
  }

  /** What one of the SUB instructions does, or the nop in its place. */
  lemma SubStep(w: bv32, shift12: bool, f: bv32, n: nat, s: State)
    requires n < 4096 && f == FieldOf(n)
    requires w == if n != 0 then SubWord(if shift12 then 0xd14003ff else 0xd10003ff, f) else NOP
    ensures Step(w, s) == Some(s.(sp := AddSub(true, s.sp, if shift12 then Shl12(WordOfNat(n)) else WordOfNat(n))))
  {
    Pow2Twelve();
    FieldFits(n, 12);
    FieldOnesValues();
    hide FieldOf, WordOfNat, SubWord, Wide, Inside, Decode, AddSub, Shl12, AddSubImmStep;
    if n != 0 {
      if shift12 { SubHighFields(f); } else { SubLowFields(f); }
      SubtractSp(s, shift12, Wide(f));
    } else {
      NopFields();
      NothingSubtracted(s.sp);
    }
  }

  lemma Pow2Twelve()
    ensures Pow2(12) == 4096
  {
    assert Pow2(8) == 256;
  }

  lemma SubtractSp(s: State, shift12: bool, imm: bv64)
    ensures AddSubImmStep(true, true, shift12, imm, 31, 31, s) == Some(s.(sp := AddSub(true, s.sp, if shift12 then Shl12(imm) else imm)))
  {
    hide AddSub;
  }

  lemma NothingSubtracted(v: bv64)
    ensures AddSub(true, v, WordOfNat(0)) == v && AddSub(true, v, Shl12(WordOfNat(0))) == v
  {}

  function Plus(a: bv64, b: bv64): bv64 { a + b }

  lemma PlusIs(a: bv64, b: bv64)
    ensures Plus(a, b) == a + b
  {}

  lemma AddSubIs(v: bv64, a: bv64)
    ensures AddSub(true, v, a) == v - a
  {}

  lemma SubsAssociate(v: bv64, a: bv64, b: bv64)
    ensures AddSub(true, v - a, b) == AddSub(true, v, a + b)
  {}

  lemma SubTwice(v: bv64, a: bv64, b: bv64)
    ensures AddSub(true, AddSub(true, v, a), b) == AddSub(true, v, Plus(a, b))
  {
    hide AddSub, Plus;
    AddSubIs(v, a);
    PlusIs(a, b);
    SubsAssociate(v, a, b);
  }

  lemma PushZeroIs(a: bv64)
    ensures Push(a, false) == Plus(a, a)
  {}

  lemma PushOneIs(a: bv64)
    ensures Push(a, true) == Plus(Push(a, false), 1)
  {}

  lemma SumPairs(a: bv64, b: bv64)
    ensures Plus(a + b, a + b) == Plus(a + a, b + b)
  {}

  lemma SumOne(a: bv64, b: bv64)
    ensures Plus(a + b, 1) == Plus(a + 1, b)
  {}

  lemma PlusPairs(a: bv64, b: bv64)
    ensures Plus(Plus(a, b), Plus(a, b)) == Plus(Plus(a, a), Plus(b, b))
    ensures Plus(Plus(a, b), 1) == Plus(Plus(a, 1), b)
  {
    hide Plus;
    PlusIs(a, b);
    PlusIs(a, a);
    PlusIs(b, b);
    PlusIs(a, 1);
    SumPairs(a, b);
    SumOne(a, b);
  }

  lemma PushPlus(a: bv64, b: bv64, x: bool)
    ensures Push(Plus(a, b), x) == Plus(Push(a, x), Push(b, false))
  {
    hide Push, Plus;
    PushZeroIs(Plus(a, b));
    PushZeroIs(a);
    PushZeroIs(b);
    PlusPairs(a, b);
    PushOneIs(Plus(a, b));
    PushOneIs(a);
    PlusPairs(Push(a, false), Push(b, false));
  }

  lemma PlusZero(b: bv64)
    ensures Plus(0, b) == b
  {}

  /** Digits below and above position k. */
  lemma {:induction false} WordOfSum(lo: nat, hi: nat, k: nat)
    requires lo < Pow2(k)
    ensures WordOfNat(lo + hi * Pow2(k)) == Plus(WordOfNat(lo), Doubled(WordOfNat(hi), k))
    decreases k
  {
    hide Push, Plus;
    if k == 0 {
      PlusZero(WordOfNat(hi));
      assert lo + hi * Pow2(0) == hi;
    } else {
      WordOfSum(lo / 2, hi, k - 1);
      var p := hi * Pow2(k - 1);
      assert hi * Pow2(k) == 2 * p;
      var n := lo + 2 * p;
      assert n / 2 == lo / 2 + p && n % 2 == lo % 2;
      PushPlus(WordOfNat(lo / 2), Doubled(WordOfNat(hi), k - 1), n % 2 == 1);
      WordOfNatStep(n);
      WordOfNatStep(lo);
    }
  }

  lemma WordOfNatStep(n: nat)
    ensures WordOfNat(n) == Push(WordOfNat(n / 2), n % 2 == 1)
  {
    if n == 0 { PushZero(); }
  }

  lemma SubImmediatesRun(lo: nat, hi: nat, s: State)
    requires lo < 4096 && hi < 4096
    ensures var c := SubImmediates(lo, hi);
      Run(Words(c), s) == Some(s.(sp := AddSub(true, s.sp, WordOfNat(Lowered(c)))))
  {
    hide SubWord, Step, Run, FieldOf, WordOfNat, Plus, Shl12, Doubled, AddSub;
    var u := if lo != 0 then SubWord(0xd10003ff, FieldOf(lo)) else NOP;
    var v := if hi != 0 then SubWord(0xd14003ff, FieldOf(hi)) else NOP;
    SubStep(u, false, FieldOf(lo), lo, s);
    var t := s.(sp := AddSub(true, s.sp, WordOfNat(lo)));
    SubStep(v, true, FieldOf(hi), hi, t);
    RunTwo(u, v, s);
    Pow2Twelve();
    WordOfSum(lo, hi, 12);
    DoubledTwelve(WordOfNat(hi), 0);
    DoubledNone(WordOfNat(hi));
    SubTwice(s.sp, WordOfNat(lo), Shl12(WordOfNat(hi)));
  }

  lemma MovzStep(m: nat, i: nat, s: State)
    requires m < 0x1_0000 && i <= 3
    ensures Step(MovzWord(FieldOf(m), HalfField(i)), s) == Some(Write(s, 16, HalfWord(WordOfNat(m), HalfField(i))))
  {
    Pow2Values();
    FieldFits(m, 16);
    FieldOnesValues();
    HalfInside(i);
    hide FieldOf, WordOfNat, MovzWord, Wide, Inside, Decode, HalfWord;
    MovzFields(FieldOf(m), HalfField(i));
  }

  lemma HalfInside(i: nat)
    requires i <= 3
    ensures Inside(HalfField(i), 3)
  {}

  lemma ShiftInside(j: nat)
    ensures Inside(ShiftField(j), 7) && (ShiftField(j) > 4 <==> j > 4)
  {}

  lemma SubSpRun(v: bv64, j: nat, s: State)
    requires Read(s, 16) == v
    ensures Step(SubWord(0xcb3063ff, ShiftField(j)), s) == if j <= 4 then Some(s.(sp := AddSub(true, s.sp, ShiftedBy(v, ShiftField(j))))) else None
  {
    ShiftInside(j);
    hide SubWord, Inside, Decode, AddSub, ShiftedBy;
    SubSpFields(ShiftField(j));
  }

  lemma MovzSubRun(m: nat, i: nat, j: nat, s: State)
    requires m < 0x1_0000 && i <= 3
    ensures var c := MovzSub(m, i, j);
      if j <= 4 then Run(Words(c), s).Some? && LoweredBy(s, Run(Words(c), s).value, WordOfNat(Lowered(c)))
      else Run(Words(c), s) == None
  {
    hide SubWord, MovzWord, Step, Run, FieldOf, WordOfNat, ShiftedBy, HalfWord, Doubled, AddSub;
    var v := HalfWord(WordOfNat(m), HalfField(i));
    var u, w := MovzWord(FieldOf(m), HalfField(i)), SubWord(0xcb3063ff, ShiftField(j));
    MovzStep(m, i, s);
    var t := Write(s, 16, v);
    SubSpRun(v, j, t);
    RunTwo(u, w, s);
    if j <= 4 {
      DoubledNat(m, 16 * i + j);
      DoubledTwice(WordOfNat(m), 16 * i, j);
      DoubledHalves(WordOfNat(m), i);
      DoubledShift(v, j);
    }
  }

  /** The stack pointer is lowered by just the amount the fields say, when they fit; else the second instruction is undefined. */
  lemma WordsRun(c: FrameCode, s: State)
    requires FieldsFit(c)
    ensures if Encodable(c) then Run(Words(c), s).Some? && LoweredBy(s, Run(Words(c), s).value, WordOfNat(Lowered(c)))
            else Run(Words(c), s) == None
  {
    hide Words, Run, Lowered, AddSub, WordOfNat;
    match c
    case SubImmediates(lo, hi) => SubImmediatesRun(lo, hi, s);
    case MovzSub(m, i, j) => MovzSubRun(m, i, j, s);
  }

  /** 2^64 is zero in 64 bits. */
  lemma AllLost()
    ensures WordOfNat(0) == 0 && WordOfNat(UINT64) == 0
  {
    Units();
    DoubledNat(1, 64);
    assert WordOfNat(1) == Push(WordOfNat(0), true);
    var w := WordOfNat(1);
    hide WordOfNat, Push, Doubled, Shl16, Shl12;
    DoubledNone(w);
    DoubledTwelve(w, 0);
    DoubledTwelve(w, 16);
    DoubledTwelve(w, 32);
    DoubledTwelve(w, 48);
    FourSixteens(w);
  }

  lemma FourSixteens(w: bv64)
    ensures Shl16(Shl16(Shl16(Shl16(w)))) == 0
  {}

  /** gfunc_epilog: the code written over the two nops. Running it lowers the stack pointer by the frame size when that is small, else by
      less than 17/16 of it; by nothing at all for sizes above the largest; and the second word is undefined for the sizes of NeedsShiftByFive. */
  method PatchFrame(d: nat) returns (code: seq<bv32>, ghost amount: nat)
    requires d < UINT64 && d % 16 == 0
    ensures |code| == 2
    ensures !NeedsShiftByFive(d) ==> Lowers(code, WordOfNat(amount))
    ensures NeedsShiftByFive(d) ==> forall s: State :: Run(code, s) == None
    ensures d < 0x100_0000 ==> amount == d
    ensures 0x100_0000 <= d <= LARGEST ==> d <= amount < UINT64 && 16 * amount < 17 * d && amount % 16 == 0
    ensures d > LARGEST ==> amount == 0
  {
    hide Lowered, Encodable, NeedsShiftByFive, Run, WordOfNat, LoweredBy, FieldOf, SubWord, MovzWord, Words;
    var c := EncodeFrame(d);
    code := [NOP, NOP];
    match c {
      case SubImmediates(lo, hi) =>
        if lo != 0 { code := code[0 := SubWord(0xd10003ff, FieldOf(lo))]; }
        if hi != 0 { code := code[1 := SubWord(0xd14003ff, FieldOf(hi))]; }
      case MovzSub(m, i, j) =>
        code := code[0 := MovzWord(FieldOf(m), HalfField(i))];
        code := code[1 := SubWord(0xcb3063ff, ShiftField(j))];
    }
    WordsAre(c, code);
    amount := if d > LARGEST then 0 else Lowered(c);
    AllLost();
    forall s: State
      ensures if Encodable(c) then Run(code, s).Some? && LoweredBy(s, Run(code, s).value, WordOfNat(Lowered(c))) else Run(code, s) == None
    {
      WordsRun(c, s);
    }
  }

  lemma WordsAre(c: FrameCode, code: seq<bv32>)
    requires match c
      case SubImmediates(lo, hi) =>
        code == [if lo != 0 then SubWord(0xd10003ff, FieldOf(lo)) else NOP, if hi != 0 then SubWord(0xd14003ff, FieldOf(hi)) else NOP]
      case MovzSub(m, i, j) => code == [MovzWord(FieldOf(m), HalfField(i)), SubWord(0xcb3063ff, ShiftField(j))]
    ensures code == Words(c)
  {
    hide SubWord, MovzWord, FieldOf;
  }
}
