/** arm64_gen_opic: integer operations with a constant operand, in 64 or 32 bits. */
module A64Opic {
  import opened Wrappers
  import opened A64Bitmask
  import opened A64Words
  import opened A64Isa
  import opened A64Const
  import opened A64MovImm
  import opened Emit

  datatype Op = Plus | Minus | BitAnd | BitOr | BitXor | Sar | Shl | Shr | OtherOp

  predicate IsShift(op: Op) { op == Sar || op == Shl || op == Shr }

  predicate IsBitwise(op: Op) { op == BitAnd || op == BitOr || op == BitXor }

  function ShiftMask(l: bool): bv64 { if l then 63 else 31 }

  /** The 64-bit value of a 32-bit signed one. */
  function SignExtended(u: bv64): bv64
  {
    if NegativeW(u) then OnesAbove(u) else u
  }

  predicate NegativeW(u: bv64) { u & 0x8000_0000 != 0 }

  function OnesAbove(u: bv64): bv64 { u | 0xffff_ffff_0000_0000 }

  /** The shift of a W or X value u that lies in its register width. */
  function Shifted(op: Op, l: bool, u: bv64, k: bv64): bv64
    requires k < 64
  {
    if op == Shl then u << k else if op == Shr then u >> k else Asr(if l then u else SignExtended(u), k)
  }

  /** The operation of the C program on register value v and constant val. */
  function Meaning(op: Op, l: bool, rev: bool, val: bv64, v: bv64): bv64
  {
    var k := val & ShiftMask(l);
    Width(l, match op
             case Plus => AddSub(false, v, val)
             case Minus => if rev then AddSub(true, val, v) else AddSub(true, v, val)
             case BitAnd => LogicalValue(0, v, val)
             case BitOr => LogicalValue(1, v, val)
             case BitXor => LogicalValue(2, v, val)
             case OtherOp => 0
             case _ => Shifted(op, l, Width(l, v), k))
  }

  /** From every state the code puts the result in x; besides x it may use x30 only. */
  ghost predicate Computes(code: seq<bv32>, x: bv32, a: bv32, op: Op, l: bool, rev: bool, val: bv64)
  {
    forall s: State :: ComputesFrom(code, x, a, op, l, rev, val, s)
  }

  ghost predicate ComputesFrom(code: seq<bv32>, x: bv32, a: bv32, op: Op, l: bool, rev: bool, val: bv64, s: State)
  {
    match Run(code, s)
    case None => false
    case Some(t) => t.x(x) == Meaning(op, l, rev, val, s.x(a)) && t.sp == s.sp &&
                    forall k: bv32 | k != x && k != 30 :: t.x(k) == s.x(k)
  }

  // ----- sums modulo 2^64 and 2^32 -----

  function High(c: bv64): bv64 { c & 0xffff_ffff_0000_0000 }

  lemma Assoc(v: bv64, w: bv64, u: bv64)
    ensures AddSub(false, v, w + u) == AddSub(false, v + w, u)
    ensures AddSub(true, v, w + u) == AddSub(true, v - w, u)
  {}

  lemma AddSubMeans(v: bv64, w: bv64)
    ensures AddSub(false, v, w) == v + w && AddSub(true, v, w) == v - w
  {}

  lemma Parts(c: bv64)
    ensures Low32(c) + High(c) == c
  {}

  lemma HighIgnored(t: bv64, c: bv64)
    ensures Low32(AddSub(false, t, High(c))) == Low32(t) && Low32(AddSub(true, t, High(c))) == Low32(t)
  {}

  lemma WidthIs(l: bool, v: bv64)
    ensures Width(l, v) == if l then v else Low32(v)
  {
    hide Low32;
  }

  /** The low half of a sum or difference needs only the low half of its right operand. */
  lemma WidthOperand(l: bool, v: bv64, c: bv64, sub: bool)
    ensures Width(l, AddSub(sub, v, Width(l, c))) == Width(l, AddSub(sub, v, c))
  {
    hide *;
    WidthIs(l, c);
    WidthIs(l, AddSub(sub, v, Width(l, c)));
    WidthIs(l, AddSub(sub, v, c));
    Parts(c);
    Assoc(v, Low32(c), High(c));
    AddSubMeans(v, Low32(c));
    HighIgnored(v + Low32(c), c);
    HighIgnored(v - Low32(c), c);
  }

  lemma Negated(v: bv64, c: bv64)
    ensures AddSub(true, v, -c) == AddSub(false, v, c) && AddSub(false, v, -c) == AddSub(true, v, c)
  {}

  lemma AssocLeft(w: bv64, u: bv64, v: bv64)
    ensures AddSub(true, w + u, v) == AddSub(false, w - v, u)
  {}

  /** The low half of a difference needs only the low half of the left operand. */
  lemma WidthLeftOperand(l: bool, c: bv64, v: bv64)
    ensures Width(l, AddSub(true, Width(l, c), v)) == Width(l, AddSub(true, c, v))
  {
    hide *;
    WidthIs(l, c);
    WidthIs(l, AddSub(true, Width(l, c), v));
    WidthIs(l, AddSub(true, c, v));
    Parts(c);
    AssocLeft(Low32(c), High(c), v);
    AddSubMeans(Low32(c), v);
    HighIgnored(Low32(c) - v, c);
  }

  lemma AllOnesInvert(v: bv64)
    ensures AddSub(true, 0xffff_ffff_ffff_ffff, v) == 0 | !v == LogicalValue(2, v, 0xffff_ffff_ffff_ffff)
  {}

  function Magnitude(l: bool, s: bool, c: bv64): bv64
  {
    Width(l, if s then -c else c)
  }

  // ----- instruction words -----

  function SfBit(l: bool): bv32 { if l then 0x8000_0000 else 0 }
  function SubBit(s: bool): bv32 { if s then 0x4000_0000 else 0 }

  lemma FlagBits(l: bool, s: bool)
    ensures (SfBit(l) | SubBit(s)) & 0x3fff_ffff == 0 && SfBit(l) & 0x7fff_ffff == 0
    ensures (SfBit(l) | SubBit(s)) & 0x8000_0000 != 0 <==> l
    ensures (SfBit(l) | SubBit(s)) & 0x4000_0000 != 0 <==> s
    ensures SfBit(l) & 0x8000_0000 != 0 <==> l
  {}

  function AddImm(f: bv32, x: bv32, a: bv32, c: bv64): bv32
    requires c <= 0xfff
  { 0x11000000 | f | x | (a << 5) | ((c as bv32) << 10) }

  function AddImm12(f: bv32, x: bv32, a: bv32, c: bv64): bv32
    requires c & !0xfff000 == 0
  { 0x11400000 | f | x | (a << 5) | (((c >> 12) as bv32) << 10) }

  lemma AddImmFields(f: bv32, x: bv32, a: bv32, c: bv64)
    requires x < 31 && a < 31 && c <= 0xfff && f & 0x3fff_ffff == 0
    ensures Decode(AddImm(f, x, a, c)) == AddSubImm(f & 0x8000_0000 != 0, f & 0x4000_0000 != 0, false, c, a, x)
  {}

  lemma AddImm12Fields(f: bv32, x: bv32, a: bv32, c: bv64)
    requires x < 31 && a < 31 && c & !0xfff000 == 0 && f & 0x3fff_ffff == 0
    ensures Decode(AddImm12(f, x, a, c)) == AddSubImm(f & 0x8000_0000 != 0, f & 0x4000_0000 != 0, true, c >> 12, a, x)
  {}

  function AddReg(f: bv32, x: bv32, a: bv32): bv32 { 0x0b1e0000 | f | x | (a << 5) }

  lemma AddRegFields(f: bv32, x: bv32, a: bv32)
    requires x < 31 && a < 31 && f & 0x3fff_ffff == 0
    ensures Decode(AddReg(f, x, a)) == AddSubReg(f & 0x8000_0000 != 0, f & 0x4000_0000 != 0, 30, a, x)
  {}

  function NegWord(f: bv32, x: bv32, a: bv32): bv32 { 0x4b0003e0 | f | x | (a << 16) }
  function MvnWord(f: bv32, x: bv32, a: bv32): bv32 { 0x2a2003e0 | f | x | (a << 16) }
  function SubFrom30(f: bv32, x: bv32, a: bv32): bv32 { 0x4b0003c0 | f | x | (a << 16) }

  lemma NegFields(f: bv32, x: bv32, a: bv32)
    requires x < 31 && a < 31 && f & 0x7fff_ffff == 0
    ensures Decode(NegWord(f, x, a)) == AddSubReg(f & 0x8000_0000 != 0, true, a, 31, x)
  {}

  lemma MvnFields(f: bv32, x: bv32, a: bv32)
    requires x < 31 && a < 31 && f & 0x7fff_ffff == 0
    ensures Decode(MvnWord(f, x, a)) == OrnReg(f & 0x8000_0000 != 0, a, 31, x)
  {}

  lemma SubFrom30Fields(f: bv32, x: bv32, a: bv32)
    requires x < 31 && a < 31 && f & 0x7fff_ffff == 0
    ensures Decode(SubFrom30(f, x, a)) == AddSubReg(f & 0x8000_0000 != 0, true, a, 30, x)
  {}

  function LogicalWord(base: bv32, f: bv32, x: bv32, a: bv32, c: bv32): bv32 { base | f | x | (a << 5) | (c << 10) }

  lemma LogicalFields(base: bv32, f: bv32, x: bv32, a: bv32, c: bv32)
    requires x < 31 && a < 31 && c & 0x1fff == c && f & 0x7fff_ffff == 0
    requires base == 0x12000000 || base == 0x32000000 || base == 0x52000000
    ensures Decode(LogicalWord(base, f, x, a, c)) == LogicalImm(f & 0x8000_0000 != 0, (base >> 29) & 3, c, a, x)
  {}

  function BitfieldWord(base: bv32, f: bv32, x: bv32, a: bv32, immr: bv64, imms: bv64): bv32
    requires immr <= 63 && imms <= 63
  { base | f | x | (a << 5) | ((immr as bv32) << 16) | ((imms as bv32) << 10) }

  lemma BitfieldFields64(base: bv32, x: bv32, a: bv32, immr: bv64, imms: bv64)
    requires x < 31 && a < 31 && immr <= 63 && imms <= 63
    requires base == 0x53000000 || base == 0x13000000
    ensures Decode(BitfieldWord(base, 0x8040_0000, x, a, immr, imms)) == Bitfield(true, base == 0x13000000, immr, imms, a, x)
  {}

  lemma BitfieldFields32(base: bv32, x: bv32, a: bv32, immr: bv64, imms: bv64)
    requires x < 31 && a < 31 && immr <= 63 && imms <= 63
    requires base == 0x53000000 || base == 0x13000000
    ensures Decode(BitfieldWord(base, 0, x, a, immr, imms)) == Bitfield(false, base == 0x13000000, immr, imms, a, x)
  {}

  // ----- shifts as bit-field moves -----

  lemma UpKeepsAll(v: bv64, k: bv64)
    requires 1 <= k < 64
    ensures (v & Mask(63 - k + 1)) << k == v << k
  {}

  lemma Up64(v: bv64, k: bv64)
    requires 1 <= k < 64
    ensures FieldUp(false, 63 - k, k, v) == v << k
  {
    hide Mask;
    UpKeepsAll(v, k);
  }

  predicate FitsW(u: bv64) { u <= 0xffff_ffff }

  lemma Low32Fits(v: bv64)
    ensures FitsW(Low32(v)) && Low32(v) >> 32 == 0
  {}

  lemma FieldKeepsLow(u: bv64, k: bv64)
    requires 1 <= k < 32 && FitsW(u)
    ensures Low32((u & Mask(31 - k + 1)) << k) == Low32(u << k) && (u >> k) & Mask(31 - k + 1) == u >> k
  {}

  lemma Up32(u: bv64, k: bv64)
    requires 1 <= k < 32 && FitsW(u)
    ensures Low32(FieldUp(false, 31 - k, k, u)) == Low32(u << k)
  {
    hide Mask, Low32, FitsW;
    FieldKeepsLow(u, k);
  }

  lemma DownKeepsAll(v: bv64, k: bv64)
    requires 1 <= k < 64
    ensures (v >> k) & Mask(63 - k + 1) == v >> k
  {}

  lemma Down64(v: bv64, k: bv64)
    requires 1 <= k < 64
    ensures FieldDown(false, k, 63, v) == v >> k
  {
    hide Mask;
    DownKeepsAll(v, k);
  }

  lemma Down32(u: bv64, k: bv64)
    requires 1 <= k < 32 && FitsW(u)
    ensures FieldDown(false, k, 31, u) == u >> k
  {
    hide Mask, FitsW;
    FieldKeepsLow(u, k);
  }

  lemma SignedDown64(v: bv64, k: bv64)
    requires 1 <= k < 64
    ensures FieldDown(true, k, 63, v) == Asr(v, k)
  {}

  lemma ShiftSplit(v: bv64, k: bv64)
    requires 1 <= k < 32
    ensures ShiftIn(false, v, 32 + k) == ShiftIn(false, v >> 32, k)
    ensures ShiftIn(true, v, 32 + k) == ShiftIn(true, !((!v) >> 32), k)
  {}

  function Top(u: bv64): bv64 { u << 32 }

  lemma TopAndBack(u: bv64)
    requires FitsW(u)
    ensures Top(u) >> 32 == u
  {}

  lemma TopAndBackNot(u: bv64)
    ensures !((!Top(u)) >> 32) == OnesAbove(u)
  {}

  lemma SignsAgree(u: bv64)
    requires FitsW(u)
    ensures Negative(Top(u)) <==> NegativeW(u)
    ensures NegativeW(u) ==> Negative(OnesAbove(u))
    ensures !NegativeW(u) ==> !Negative(u)
  {}

  lemma ShiftFromTop(u: bv64, k: bv64)
    requires 1 <= k < 32 && FitsW(u)
    ensures ShiftIn(false, Top(u), 32 + k) == ShiftIn(false, u, k)
    ensures ShiftIn(true, Top(u), 32 + k) == ShiftIn(true, OnesAbove(u), k)
  {
    hide FitsW, ShiftIn, Top, OnesAbove;
    ShiftSplit(Top(u), k);
    TopAndBack(u);
    TopAndBackNot(u);
  }

  lemma FieldFromTop(u: bv64, k: bv64)
    requires 1 <= k < 32
    ensures FieldDown(true, k, 31, u) == Asr(Top(u), 32 + k)
  {
    hide Asr;
  }

  lemma SignedDown32(u: bv64, k: bv64)
    requires 1 <= k < 32 && FitsW(u)
    ensures FieldDown(true, k, 31, u) == Asr(SignExtended(u), k)
  {
    hide FitsW, ShiftIn, Negative, NegativeW, OnesAbove, Top, FieldDown;
    FieldFromTop(u, k);
    SignsAgree(u);
    ShiftFromTop(u, k);
  }

  // ----- the effect of each emitted instruction -----

  /** One instruction that computes the operation. */
  lemma OneComputes(i: bv32, x: bv32, a: bv32, op: Op, l: bool, rev: bool, val: bv64)
    requires x < 31
    requires forall s: State :: Step(i, s) == Some(Write(s, x, Meaning(op, l, rev, val, s.x(a))))
    ensures Computes([i], x, a, op, l, rev, val)
  {
    hide Step, Meaning;
    var code := [i];
    forall s: State ensures ComputesFrom(code, x, a, op, l, rev, val, s) { RunOne(i, s); }
  }

  /** A constant into x30, then one instruction reading it. */
  lemma TwoCompute(out: seq<bv32>, c: bv64, i: bv32, x: bv32, a: bv32, op: Op, l: bool, rev: bool, val: bv64)
    requires x < 31 && a != 30 && Sets(out, 30, c)
    requires forall s: State :: s.x(30) == c ==> Step(i, s) == Some(Write(s, x, Meaning(op, l, rev, val, s.x(a))))
    ensures Computes(out + [i], x, a, op, l, rev, val)
  {
    hide Step, Meaning;
    var code := out + [i];
    forall s: State ensures ComputesFrom(code, x, a, op, l, rev, val, s) {
      assert SetsFrom(out, 30, c, s);
      RunConcat(out, [i], s);
      RunOne(i, Run(out, s).value);
    }
  }

  /** The sum as the source forms it, from the magnitude of the constant. */
  lemma SumMeaning(l: bool, s: bool, rev: bool, val: bv64, v: bv64)
    ensures Width(l, AddSub(s, v, Magnitude(l, s, Width(l, val)))) == Meaning(Plus, l, rev, val, v)
  {
    hide AddSub, Width;
    var c := Width(l, val);
    Negated(v, c);
    WidthOperand(l, v, if s then -c else c, s);
    WidthOperand(l, v, val, false);
  }

  lemma PlusImmComputes(i: bv32, sh: bool, imm: bv64, s: bool, x: bv32, a: bv32, l: bool, rev: bool, val: bv64)
    requires x < 31 && a < 31 && Decode(i) == AddSubImm(l, s, sh, imm, a, x)
    requires (if sh then imm << 12 else imm) == Magnitude(l, s, Width(l, val))
    ensures Computes([i], x, a, Plus, l, rev, val)
  {
    hide Decode, AddSub, Width, Magnitude, Meaning, Write, Computes;
    forall st: State ensures Step(i, st) == Some(Write(st, x, Meaning(Plus, l, rev, val, st.x(a)))) {
      SumMeaning(l, s, rev, val, st.x(a));
    }
    OneComputes(i, x, a, Plus, l, rev, val);
  }

  lemma PlusRegComputes(out: seq<bv32>, i: bv32, s: bool, x: bv32, a: bv32, l: bool, rev: bool, val: bv64)
    requires x < 31 && a < 30 && Decode(i) == AddSubReg(l, s, 30, a, x)
    requires Sets(out, 30, Magnitude(l, s, Width(l, val)))
    ensures Computes(out + [i], x, a, Plus, l, rev, val)
  {
    hide Decode, AddSub, Width, Magnitude, Meaning, Write, Computes, Sets;
    var c := Magnitude(l, s, Width(l, val));
    forall st: State | st.x(30) == c ensures Step(i, st) == Some(Write(st, x, Meaning(Plus, l, rev, val, st.x(a)))) {
      SumMeaning(l, s, rev, val, st.x(a));
    }
    TwoCompute(out, c, i, x, a, Plus, l, rev, val);
  }

  lemma MinusAsPlus(code: seq<bv32>, x: bv32, a: bv32, l: bool, rev: bool, val: bv64)
    requires Computes(code, x, a, Plus, l, rev, -val)
    ensures Computes(code, x, a, Minus, l, false, val)
  {
    hide Run;
    forall s: State ensures ComputesFrom(code, x, a, Minus, l, false, val, s) {
      assert ComputesFrom(code, x, a, Plus, l, rev, -val, s);
      MinusMeaning(l, rev, val, s.x(a));
      hide Meaning;
    }
  }

  lemma MinusMeaning(l: bool, rev: bool, val: bv64, v: bv64)
    ensures Meaning(Minus, l, false, val, v) == Meaning(Plus, l, rev, -val, v)
  {
    Negated(v, val);
    hide AddSub, Width;
  }

  // ----- constant minus register -----

  lemma NegComputes(i: bv32, x: bv32, a: bv32, l: bool, val: bv64)
    requires x < 31 && a < 31 && Decode(i) == AddSubReg(l, true, a, 31, x) && Width(l, val) == 0
    ensures Computes([i], x, a, Minus, l, true, val)
  {
    hide Decode, AddSub, Width, Write, Computes;
    forall s: State ensures Step(i, s) == Some(Write(s, x, Meaning(Minus, l, true, val, s.x(a)))) {
      WidthLeftOperand(l, val, s.x(a));
    }
    OneComputes(i, x, a, Minus, l, true, val);
  }

  function AllOnes(l: bool): bv64 { if l then 0xffff_ffff_ffff_ffff else 0xffff_ffff }

  lemma WidthOfOnes(l: bool)
    ensures Width(l, 0xffff_ffff_ffff_ffff) == AllOnes(l)
  {}

  lemma MvnMeansMinus(l: bool, val: bv64, v: bv64)
    requires Width(l, val) == AllOnes(l)
    ensures Width(l, 0 | !v) == Meaning(Minus, l, true, val, v)
  {
    hide AddSub, Width, AllOnes;
    WidthOfOnes(l);
    WidthLeftOperand(l, val, v);
    WidthLeftOperand(l, 0xffff_ffff_ffff_ffff, v);
    AllOnesInvert(v);
  }

  lemma MvnMinusComputes(i: bv32, x: bv32, a: bv32, l: bool, val: bv64)
    requires x < 31 && a < 31 && Decode(i) == OrnReg(l, a, 31, x) && Width(l, val) == AllOnes(l)
    ensures Computes([i], x, a, Minus, l, true, val)
  {
    hide Decode, Width, Write, Computes, Meaning, AllOnes;
    forall s: State ensures Step(i, s) == Some(Write(s, x, Meaning(Minus, l, true, val, s.x(a)))) {
      MvnMeansMinus(l, val, s.x(a));
    }
    OneComputes(i, x, a, Minus, l, true, val);
  }

  lemma SubRegComputes(out: seq<bv32>, i: bv32, x: bv32, a: bv32, l: bool, val: bv64)
    requires x < 31 && a < 30 && Decode(i) == AddSubReg(l, true, a, 30, x) && Sets(out, 30, Width(l, val))
    ensures Computes(out + [i], x, a, Minus, l, true, val)
  {
    hide Decode, AddSub, Width, Write, Computes, Sets;
    var c := Width(l, val);
    forall s: State | s.x(30) == c ensures Step(i, s) == Some(Write(s, x, Meaning(Minus, l, true, val, s.x(a)))) {
      WidthLeftOperand(l, val, s.x(a));
    }
    TwoCompute(out, c, i, x, a, Minus, l, true, val);
  }

  // ----- bitwise operations -----

  function Opc(op: Op): bv32 { if op == BitAnd then 0 else if op == BitOr then 1 else 2 }

  lemma LogicalMeans(v: bv64, c: bv64)
    ensures LogicalValue(0, v, c) == v & c && LogicalValue(1, v, c) == v | c && LogicalValue(2, v, c) == v ^ c
  {}

  lemma LowAnd(v: bv64, c: bv64, d: bv64)
    requires d == Low32(c)
    ensures Low32(v & d) == Low32(v & c)
  {}

  lemma LowOr(v: bv64, c: bv64, d: bv64)
    requires d == Low32(c)
    ensures Low32(v | d) == Low32(v | c)
  {}

  lemma LowXor(v: bv64, c: bv64, d: bv64)
    requires d == Low32(c)
    ensures Low32(v ^ d) == Low32(v ^ c)
  {}

  lemma LogicalOperand(opc: bv32, v: bv64, c: bv64)
    requires opc == 0 || opc == 1 || opc == 2
    ensures Low32(LogicalValue(opc, v, Low32(c))) == Low32(LogicalValue(opc, v, c))
  {
    hide LogicalValue, Low32;
    var d := Low32(c);
    LogicalMeans(v, c);
    LogicalMeans(v, d);
    LowAnd(v, c, d);
    LowOr(v, c, d);
    LowXor(v, c, d);
  }

  lemma LogicalComputes(i: bv32, code: bv32, op: Op, x: bv32, a: bv32, l: bool, rev: bool, val: bv64)
    requires x < 31 && a < 31 && IsBitwise(op) && Decode(i) == LogicalImm(l, Opc(op), code, a, x)
    requires LogicalImmediate(l, code) == Some(Width(l, val))
    ensures Computes([i], x, a, op, l, rev, val)
  {
    hide Decode, Low32, LogicalImmediate, LogicalValue, Write, Computes;
    forall s: State ensures Step(i, s) == Some(Write(s, x, Meaning(op, l, rev, val, s.x(a)))) {
      LogicalOperand(Opc(op), s.x(a), val);
    }
    OneComputes(i, x, a, op, l, rev, val);
  }

  lemma XorOnes(l: bool, val: bv64, v: bv64)
    requires Width(l, val) == AllOnes(l)
    ensures Width(l, 0 | !v) == Width(l, LogicalValue(2, v, val))
  {
    hide LogicalValue, Low32;
    WidthOfOnes(l);
    AllOnesInvert(v);
    LogicalOperand(2, v, val);
    LogicalOperand(2, v, 0xffff_ffff_ffff_ffff);
  }

  lemma MvnXorComputes(i: bv32, x: bv32, a: bv32, l: bool, rev: bool, val: bv64)
    requires x < 31 && a < 31 && Decode(i) == OrnReg(l, a, 31, x) && Width(l, val) == AllOnes(l)
    ensures Computes([i], x, a, BitXor, l, rev, val)
  {
    hide Decode, Width, LogicalValue, Write, Computes, AllOnes;
    forall s: State ensures Step(i, s) == Some(Write(s, x, Meaning(BitXor, l, rev, val, s.x(a)))) {
      XorOnes(l, val, s.x(a));
    }
    OneComputes(i, x, a, BitXor, l, rev, val);
  }

  // ----- shifts -----

  function Immr(op: Op, l: bool, k: bv64): bv64 { if op == Shl then (if l then 64 - k else 32 - k) else k }
  function Imms(op: Op, l: bool, k: bv64): bv64
  {
    if op == Shl then (if l then 63 - k else 31 - k) else (if l then 63 else 31)
  }

  lemma FieldsInRange(op: Op, l: bool, k: bv64)
    requires IsShift(op) && 1 <= k <= ShiftMask(l)
    ensures Immr(op, l, k) <= ShiftMask(l) && Imms(op, l, k) <= ShiftMask(l)
    ensures op == Shl <==> Imms(op, l, k) < Immr(op, l, k)
  {}

  lemma Amounts32(op: Op, k: bv64)
    requires IsShift(op)
    ensures op == Shl ==> Imms(op, false, k) == 31 - k && 32 - Immr(op, false, k) == k
    ensures op != Shl ==> Imms(op, false, k) == 31 && Immr(op, false, k) == k
  {}

  lemma Amounts64(op: Op, k: bv64)
    requires IsShift(op)
    ensures op == Shl ==> Imms(op, true, k) == 63 - k && 64 - Immr(op, true, k) == k
    ensures op != Shl ==> Imms(op, true, k) == 63 && Immr(op, true, k) == k
  {}

  lemma ShlIsField64(k: bv64, u: bv64)
    requires 1 <= k < 64 && Immr(Shl, true, k) <= 63 && Imms(Shl, true, k) <= 63
    ensures BitfieldValue(false, 64, Immr(Shl, true, k), Imms(Shl, true, k), u) == u << k
  {
    FieldsInRange(Shl, true, k);
    hide FieldUp, FieldDown, Immr, Imms;
    Amounts64(Shl, k);
    Up64(u, k);
  }

  lemma RightIsField64(signed: bool, k: bv64, u: bv64)
    requires 1 <= k < 64
    ensures BitfieldValue(signed, 64, k, 63, u) == if signed then Asr(u, k) else u >> k
  {
    hide FieldUp, FieldDown, Asr;
    Down64(u, k);
    SignedDown64(u, k);
  }

  lemma FieldIsShift64(op: Op, k: bv64, u: bv64)
    requires IsShift(op) && 1 <= k < 64
    requires Immr(op, true, k) <= 63 && Imms(op, true, k) <= 63
    ensures BitfieldValue(op == Sar, 64, Immr(op, true, k), Imms(op, true, k), u) == Shifted(op, true, u, k)
  {
    hide BitfieldValue, Asr, Immr, Imms;
    Amounts64(op, k);
    if op == Shl { ShlIsField64(k, u); } else { RightIsField64(op == Sar, k, u); }
  }

  lemma ShlIsField32(k: bv64, u: bv64)
    requires 1 <= k < 32 && FitsW(u) && Immr(Shl, false, k) <= 31 && Imms(Shl, false, k) <= 31
    ensures Low32(BitfieldValue(false, 32, Immr(Shl, false, k), Imms(Shl, false, k), u)) == Low32(u << k)
  {
    FieldsInRange(Shl, false, k);
    hide FieldUp, FieldDown, Immr, Imms, FitsW, Low32;
    Amounts32(Shl, k);
    Up32(u, k);
  }

  lemma ShrIsField32(k: bv64, u: bv64)
    requires 1 <= k < 32 && FitsW(u)
    ensures BitfieldValue(false, 32, k, 31, u) == u >> k
  {
    hide FieldUp, FieldDown, FitsW;
    Down32(u, k);
  }

  lemma SarIsField32(k: bv64, u: bv64)
    requires 1 <= k < 32 && FitsW(u)
    ensures BitfieldValue(true, 32, k, 31, u) == Asr(SignExtended(u), k)
  {
    hide FieldUp, FieldDown, FitsW, Asr, SignExtended;
    SignedDown32(u, k);
  }

  lemma FieldIsShift32(op: Op, k: bv64, u: bv64)
    requires IsShift(op) && 1 <= k < 32 && FitsW(u)
    requires Immr(op, false, k) <= 31 && Imms(op, false, k) <= 31
    ensures Low32(BitfieldValue(op == Sar, 32, Immr(op, false, k), Imms(op, false, k), u)) == Low32(Shifted(op, false, u, k))
  {
    hide BitfieldValue, Asr, Immr, Imms, FitsW, SignExtended, Low32;
    Amounts32(op, k);
    if op == Shl { ShlIsField32(k, u); } else if op == Shr { ShrIsField32(k, u); } else { SarIsField32(k, u); }
  }

  lemma BitfieldMeaning(op: Op, l: bool, k: bv64, v: bv64)
    requires IsShift(op) && 1 <= k <= ShiftMask(l)
    requires Immr(op, l, k) <= ShiftMask(l) && Imms(op, l, k) <= ShiftMask(l)
    ensures Width(l, BitfieldValue(op == Sar, if l then 64 else 32, Immr(op, l, k), Imms(op, l, k), Width(l, v))) ==
            Width(l, Shifted(op, l, Width(l, v), k))
  {
    Low32Fits(v);
    hide BitfieldValue, Low32, Shifted, Immr, Imms, FitsW;
    if l { FieldIsShift64(op, k, v); } else { FieldIsShift32(op, k, Low32(v)); }
  }

  lemma ShiftStep(i: bv32, op: Op, x: bv32, a: bv32, l: bool, k: bv64, s: State)
    requires IsShift(op) && x < 31 && a < 31 && 1 <= k <= ShiftMask(l)
    requires Immr(op, l, k) <= ShiftMask(l) && Imms(op, l, k) <= ShiftMask(l)
    requires Decode(i) == Bitfield(l, op == Sar, Immr(op, l, k), Imms(op, l, k), a, x)
    ensures Step(i, s) == Some(Write(s, x, Width(l, Shifted(op, l, Width(l, s.x(a)), k))))
  {
    hide Decode, Width, BitfieldValue, Write, Immr, Imms, Shifted;
    BitfieldMeaning(op, l, k, s.x(a));
  }

  lemma ShiftMeaning(op: Op, l: bool, val: bv64, k: bv64, v: bv64)
    requires IsShift(op) && k == val & ShiftMask(l) && k <= ShiftMask(l)
    ensures k < 64 && Meaning(op, l, false, val, v) == Width(l, Shifted(op, l, Width(l, v), k))
  {
    MaskSmall(l);
    hide Width, Shifted, ShiftMask;
  }

  lemma MaskSmall(l: bool)
    ensures ShiftMask(l) < 64
  {}

  lemma ShiftComputes(i: bv32, op: Op, x: bv32, a: bv32, l: bool, val: bv64, k: bv64)
    requires IsShift(op) && x < 31 && a < 31 && k == val & ShiftMask(l) && 1 <= k <= ShiftMask(l)
    requires Immr(op, l, k) <= ShiftMask(l) && Imms(op, l, k) <= ShiftMask(l)
    requires Decode(i) == Bitfield(l, op == Sar, Immr(op, l, k), Imms(op, l, k), a, x)
    ensures Computes([i], x, a, op, l, false, val)
  {
    MaskSmall(l);
    hide *;
    forall s: State ensures Step(i, s) == Some(Write(s, x, Meaning(op, l, false, val, s.x(a)))) {
      ShiftStep(i, op, x, a, l, k, s);
      ShiftMeaning(op, l, val, k, s.x(a));
    }
    OneComputes(i, x, a, op, l, false, val);
  }

  // ----- the generator -----

  function TopBitSet(l: bool, c: bv64): bool
  {
    if l then c >> 63 != 0 else c >> 31 != 0
  }

  /** Case '+': add or subtract the magnitude of the constant. */
  method GenPlus(em: Emitter, l: bool, rev: bool, val: bv64, x: bv32, a: bv32) returns (ghost out: seq<bv32>)
    requires x < 31 && a < 30
    modifies em
    ensures em.code == old(em.code) + out && Computes(out, x, a, Plus, l, rev, val)
  {
    hide *;
    var c := Width(l, val);
    var s := TopBitSet(l, c);
    var f := SfBit(l) | SubBit(s);
    FlagBits(l, s);
    c := Magnitude(l, s, c);
    if c & !0xfff == 0 {
      SmallFits(c);
      var i := AddImm(f, x, a, c);
      AddImmFields(f, x, a, c);
      em.O(i);
      PlusImmComputes(i, false, c, s, x, a, l, rev, val);
      out := [i];
    } else if c & !0xfff000 == 0 {
      var i := AddImm12(f, x, a, c);
      AddImm12Fields(f, x, a, c);
      ShiftedBack(c);
      em.O(i);
      PlusImmComputes(i, true, c >> 12, s, x, a, l, rev, val);
      out := [i];
    } else {
      out := MovImm(em, 30, c);
      var i := AddReg(f, x, a);
      AddRegFields(f, x, a);
      em.O(i);
      PlusRegComputes(out, i, s, x, a, l, rev, val);
      out := out + [i];
    }
  }

  lemma SmallFits(c: bv64)
    requires c & !0xfff == 0
    ensures c <= 0xfff
  {}

  lemma ShiftedBack(c: bv64)
    requires c & !0xfff000 == 0
    ensures (c >> 12) << 12 == c
  {}

  /** Case '-' with the constant on the left. */
  method GenReverseMinus(em: Emitter, l: bool, val: bv64, x: bv32, a: bv32) returns (ghost out: seq<bv32>)
    requires x < 31 && a < 30
    modifies em
    ensures em.code == old(em.code) + out && Computes(out, x, a, Minus, l, true, val)
  {
    hide *;
    var c := Width(l, val);
    var f := SfBit(l);
    FlagBits(l, false);
    if c == 0 {
      var i := NegWord(f, x, a);
      NegFields(f, x, a);
      em.O(i);
      NegComputes(i, x, a, l, val);
      out := [i];
    } else if c == AllOnes(l) {
      var i := MvnWord(f, x, a);
      MvnFields(f, x, a);
      em.O(i);
      MvnMinusComputes(i, x, a, l, val);
      out := [i];
    } else {
      out := MovImm(em, 30, c);
      var i := SubFrom30(f, x, a);
      SubFrom30Fields(f, x, a);
      em.O(i);
      SubRegComputes(out, i, x, a, l, val);
      out := out + [i];
    }
  }

  function Base(op: Op): bv32 { if op == BitAnd then 0x12000000 else if op == BitOr then 0x32000000 else 0x52000000 }

  lemma BaseFields(op: Op)
    requires IsBitwise(op)
    ensures Base(op) == 0x12000000 || Base(op) == 0x32000000 || Base(op) == 0x52000000
    ensures (Base(op) >> 29) & 3 == Opc(op)
  {}

  /** The 64-bit word whose encoding the instruction needs. */
  function ImmediateWord(l: bool, val: bv64): bv64
  {
    if l then val else Twice(Low32(val))
  }

  /** Cases '&', '|' and '^'; false when the constant is no logical immediate. */
  method GenBitwise(em: Emitter, op: Op, l: bool, rev: bool, val: bv64, x: bv32, a: bv32)
    returns (ok: bool, ghost out: seq<bv32>)
    requires x < 31 && a < 30 && IsBitwise(op)
    modifies em
    ensures em.code == old(em.code) + out
    ensures ok ==> Computes(out, x, a, op, l, rev, val)
    ensures !ok ==> out == []
    ensures !ok <==> !(op == BitXor && Width(l, val) == AllOnes(l)) && NoCodeFor(Word64Of(ImmediateWord(l, val)))
  {
    hide *;
    out := [];
    if op == BitXor && Width(l, val) == AllOnes(l) {
      FlagBits(l, false);
      var i := MvnWord(SfBit(l), x, a);
      MvnFields(SfBit(l), x, a);
      em.O(i);
      MvnXorComputes(i, x, a, l, rev, val);
      return true, [i];
    }
    var w := Word64Of(ImmediateWord(l, val));
    var e := EncodeBimm64(w);
    CodeOrNone(w, e);
    if e < 0 { return false, []; }
    FlagBits(l, false);
    FieldRoundTrip(e);
    BaseFields(op);
    var i := LogicalWord(Base(op), SfBit(l), x, a, Field(e));
    LogicalFields(Base(op), SfBit(l), x, a, Field(e));
    EncodedImmediate(l, val, e);
    em.O(i);
    LogicalComputes(i, Field(e), op, x, a, l, rev, val);
    return true, [i];
  }

  lemma CodeOrNone(w: Word64, e: int)
    requires -1 <= e < 0x2000 && (e >= 0 ==> DecodeBitMasks(e) == Some(w))
    requires e == -1 ==> forall c: nat | c < 0x2000 :: DecodeBitMasks(c) != Some(w)
    ensures e == -1 <==> NoCodeFor(w)
  {
    hide DecodeBitMasks;
  }

  lemma EncodedImmediate(l: bool, val: bv64, e: nat)
    requires e < 0x2000 && DecodeBitMasks(e) == Some(Word64Of(ImmediateWord(l, val)))
    ensures LogicalImmediate(l, Field(e)) == Some(Width(l, val))
  {
    hide Field, DecodeBitMasks, Twice, Low32, WordOf, LogicalImmediate, Periodic, Word64Of, And;
    var y := ImmediateWord(l, val);
    WordRoundTrip(y);
    if !l {
      Low32Fits(val);
      TwiceHalves(Low32(val));
      EqualHalves(y);
      ShortPeriodShortCode(e, Word64Of(y));
    }
    ImmediateOf(e, l, Word64Of(y));
  }

  /** Shifts by a non-zero constant on the right. */
  method GenShift(em: Emitter, op: Op, l: bool, val: bv64, x: bv32, a: bv32) returns (ghost out: seq<bv32>)
    requires x < 31 && a < 30 && IsShift(op) && val & ShiftMask(l) != 0
    modifies em
    ensures em.code == old(em.code) + out && Computes(out, x, a, op, l, false, val)
  {
    hide *;
    var k := val & ShiftMask(l);
    ShiftRange(l, val, k);
    FieldsInRange(op, l, k);
    FieldsSmall(op, l, k);
    var i := BitfieldWord(if op == Sar then 0x13000000 else 0x53000000, if l then 0x8040_0000 else 0, x, a,
                          Immr(op, l, k), Imms(op, l, k));
    if l {
      BitfieldFields64(if op == Sar then 0x13000000 else 0x53000000, x, a, Immr(op, l, k), Imms(op, l, k));
    } else {
      BitfieldFields32(if op == Sar then 0x13000000 else 0x53000000, x, a, Immr(op, l, k), Imms(op, l, k));
    }
    em.O(i);
    ShiftComputes(i, op, x, a, l, val, k);
    out := [i];
  }

  lemma ShiftRange(l: bool, val: bv64, k: bv64)
    requires k == val & ShiftMask(l) && k != 0
    ensures 1 <= k <= ShiftMask(l)
  {}

  lemma FieldsSmall(op: Op, l: bool, k: bv64)
    requires Immr(op, l, k) <= ShiftMask(l) && Imms(op, l, k) <= ShiftMask(l)
    ensures Immr(op, l, k) <= 63 && Imms(op, l, k) <= 63
  {
    hide Immr, Imms;
  }

  /** When the generator leaves the operation to the general case. */
  ghost predicate Declines(op: Op, l: bool, rev: bool, val: bv64)
  {
    op == OtherOp || (IsShift(op) && rev) ||
    (IsBitwise(op) && !(op == BitXor && Width(l, val) == AllOnes(l)) && NoCodeFor(Word64Of(ImmediateWord(l, val))))
  }

  /** arm64_gen_opic: x := a op val, or x := val op a when rev. */
  method GenOpic(em: Emitter, op: Op, l: bool, rev: bool, val: bv64, x: bv32, a: bv32)
    returns (ok: bool, ghost out: seq<bv32>)
    requires x < 31 && a < 30
    requires IsShift(op) && !rev ==> val & ShiftMask(l) != 0
    modifies em
    ensures em.code == old(em.code) + out
    ensures ok ==> Computes(out, x, a, op, l, rev, val)
    ensures !ok ==> out == []
    ensures !ok <==> Declines(op, l, rev, val)
  {
    hide Computes, Width, AllOnes, NoCodeFor, ImmediateWord, ShiftMask;
    if op == Minus && !rev {
      out := GenPlus(em, l, rev, -val, x, a);
      MinusAsPlus(out, x, a, l, rev, val);
      return true, out;
    }
    match op
    case Plus =>
      out := GenPlus(em, l, rev, val, x, a);
      ok := true;
    case Minus =>
      out := GenReverseMinus(em, l, val, x, a);
      ok := true;
    case BitXor => ok, out := GenBitwise(em, op, l, rev, val, x, a);
    case BitAnd => ok, out := GenBitwise(em, op, l, rev, val, x, a);
    case BitOr => ok, out := GenBitwise(em, op, l, rev, val, x, a);
    case OtherOp => ok, out := false, [];
    case _ =>
      if rev { return false, []; }
      out := GenShift(em, op, l, val, x, a);
      ok := true;
  }
}
