/** stuff_const: an ARM data-processing instruction with a constant, if one instruction can do it. */
module ArmConst {
  import opened Wrappers
  import opened ArmIsa

  /** An immediate-form instruction whose immediate field is still empty. */
  predicate Template(op: bv32) { op & 0x0e00_0fff == 0x0200_0000 }

  function Head(w: bv32): bv32 { w & 0xffff_f000 }

  /** Condition and S bit. */
  function Flags(w: bv32): bv32 { w & 0xf010_0000 }

  /** The constants an ARM data-processing instruction can hold. */
  ghost predicate IsModified(c: bv32)
  {
    exists i: bv32 :: RotationFits(c, i)
  }

  predicate RotationFits(c: bv32, i: bv32) { i < 32 && i & 1 == 0 && Rol(c, i) <= 0xff }

  // ----- one rotation -----

  lemma RorRol(c: bv32, i: bv32)
    requires i < 32
    ensures Ror(Rol(c, i), i) == c
  {}

  function MaskAt(i: bv32): bv32
    requires 2 <= i < 32
  {
    ((0xff as bv32) >> i) | ((0xff as bv32) << (32 - i))
  }

  lemma MaskTest(c: bv32, i: bv32)
    requires 2 <= i < 32
    ensures c & !MaskAt(i) == 0 <==> Rol(c, i) <= 0xff
  {}

  function Composed(op: bv32, i: bv32, t: bv32): bv32 { op | (i << 7) | t }

  /** op | i << 7 | c << i | c >> (32 - i) */
  function WithRotation(op: bv32, c: bv32, i: bv32): bv32
    requires i <= 32
  {
    Composed(op, i, Rol(c, i))
  }

  lemma FieldsKept(op: bv32, t: bv32, i: bv32, w: bv32)
    requires 2 <= i < 32 && i & 1 == 0 && t <= 0xff && Template(op) && w == Composed(op, i, t)
    ensures Low8(w) == t && RotationField(w) == i && Head(w) == op && ImmediateForm(w)
  {}

  lemma HeadFields(w: bv32)
    ensures Opcode(Head(w)) == Opcode(w) && Rn(Head(w)) == Rn(w)
  {}

  lemma HeadFields2(w: bv32)
    ensures Rd(Head(w)) == Rd(w) && Flags(Head(w)) == Flags(w)
  {}

  lemma FormNonZero(w: bv32)
    requires ImmediateForm(w)
    ensures w != 0
  {}

  /** Instruction w is op with the immediate c. */
  predicate HasImmediate(w: bv32, op: bv32, c: bv32)
  {
    Decode(w) == DataProc(Opcode(op), Rn(op), Rd(op), Imm(c)) && Rd(w) == Rd(op) && Flags(w) == Flags(op)
  }

  lemma RotationWorks(op: bv32, c: bv32, i: bv32)
    requires Template(op) && 2 <= i && RotationFits(c, i)
    ensures HasImmediate(WithRotation(op, c, i), op, c) && WithRotation(op, c, i) != 0
  {
    hide Composed, Rol, Ror, Opcode, Rn, Rd, Flags, Head, Low8, RotationField, ImmediateForm, RegisterForm, Template;
    var w := WithRotation(op, c, i);
    FieldsKept(op, Rol(c, i), i, w);
    HeadFields(w);
    HeadFields2(w);
    FormNonZero(w);
    RorRol(c, i);
  }

  function Plain(op: bv32, c: bv32): bv32 { op | c }

  lemma PlainFields(op: bv32, c: bv32, w: bv32)
    requires Template(op) && c <= 0xff && w == Plain(op, c)
    ensures Low8(w) == c && RotationField(w) == 0 && Head(w) == op && ImmediateForm(w)
  {}

  lemma NoRotation(c: bv32)
    ensures Ror(c, 0) == c && Rol(c, 0) == c
  {}

  lemma PlainWorks(op: bv32, c: bv32)
    requires Template(op) && c <= 0xff
    ensures HasImmediate(Plain(op, c), op, c) && Plain(op, c) != 0
  {
    hide Plain, Rol, Ror, Opcode, Rn, Rd, Flags, Head, Low8, RotationField, ImmediateForm, RegisterForm, Template;
    var w := Plain(op, c);
    PlainFields(op, c, w);
    HeadFields(w);
    HeadFields2(w);
    FormNonZero(w);
    NoRotation(c);
  }

  /** The inner search of stuff_const. */
  method TryRotations(op: bv32, c: bv32) returns (w: bv32)
    requires Template(op)
    ensures w != 0 ==> HasImmediate(w, op, c)
    ensures w != 0 <==> IsModified(c)
  {
    hide Template, HasImmediate, WithRotation, Plain, MaskAt, RotationFits;
    if c < 256 {
      PlainWorks(op, c);
      ZeroRotation(c);
      return Plain(op, c);
    }
    ZeroRotation(c);
    var i: bv32 := 2;
    while i < 32
      invariant 2 <= i <= 32 && i & 1 == 0
      invariant forall j: bv32 | j < i :: !RotationFits(c, j)
      decreases 32 - i
    {
      MaskFits(c, i);
      if c & !MaskAt(i) == 0 {
        RotationWorks(op, c, i);
        return WithRotation(op, c, i);
      }
      NextEven(c, i);
      i := i + 2;
    }
    AllRotations(c);
    return 0;
  }

  lemma ZeroRotation(c: bv32)
    ensures RotationFits(c, 0) <==> c < 256
    ensures !RotationFits(c, 1)
  {}

  lemma MaskFits(c: bv32, i: bv32)
    requires 2 <= i < 32 && i & 1 == 0
    ensures c & !MaskAt(i) == 0 <==> RotationFits(c, i)
  {
    hide MaskAt, Rol;
    MaskTest(c, i);
  }

  lemma NextEven(c: bv32, i: bv32)
    requires 2 <= i < 32 && i & 1 == 0 && !RotationFits(c, i)
    ensures i + 2 <= 32 && (i + 2) & 1 == 0 && i < i + 2 && 32 - (i + 2) < 32 - i
    ensures forall j: bv32 | RotationFits(c, j) && j < i + 2 :: j < i
  {
    hide Rol;
  }

  lemma AllRotations(c: bv32)
    ensures forall j: bv32 :: RotationFits(c, j) ==> j < 32
  {
    hide Rol;
  }

  // ----- stuff_const -----

  /** What instruction op computes with second operand c. */
  function Meaning(op: bv32, c: bv32, regs: Regs): Option<bv32> { AluResult(Opcode(op), regs(Rn(op)), c) }

  /** TST to CMN write only flags, ADC to RSC read the carry, and the S bit makes any opcode write flags: their result is not all they do. */
  predicate UsesFlags(op: bv32) { 5 <= Opcode(op) <= 11 || op & 0x10_0000 != 0 }

  /** Instruction w does what op does with operand c: same destination, condition and S bit, same value; and where flags are
      involved, it is op itself with the operand c. */
  ghost predicate Implements(w: bv32, op: bv32, c: bv32)
  {
    Decode(w).DataProc? && Rd(w) == Rd(op) && Flags(w) == Flags(op) &&
    (forall regs: Regs :: Effect(w, regs) == Meaning(op, c, regs)) &&
    (UsesFlags(op) ==> Decode(w) == DataProc(Opcode(op), Rn(op), Rd(op), Imm(c)))
  }

  /** Where no flags are involved, the result says all. */
  lemma ResultDefined(op: bv32, c: bv32, regs: Regs)
    requires !UsesFlags(op)
    ensures Meaning(op, c, regs).Some?
  {}

  lemma NoFlags(op: bv32)
    requires HasNegation(op) || Kind(op) == 0x20_0000 || Kind(op) == 0 || Kind(op) == 0x180_0000
    ensures !UsesFlags(op)
  {}

  lemma ImmediateImplements(w: bv32, op: bv32, c: bv32)
    requires HasImmediate(w, op, c)
    ensures Implements(w, op, c)
  {
    hide Decode, AluResult, Opcode, Rn, Rd, Flags, UsesFlags;
  }

  function Kind(op: bv32): bv32 { op & 0x1f0_0000 }

  predicate IsAddSub(op: bv32) { Kind(op) == 0x80_0000 || Kind(op) == 0x40_0000 }
  predicate IsMove(op: bv32) { Kind(op) == 0x1a0_0000 || Kind(op) == 0x1e0_0000 }
  predicate IsAndBic(op: bv32) { Kind(op) == 0 || Kind(op) == 0x1c0_0000 }
  predicate HasNegation(op: bv32) { IsAddSub(op) || IsMove(op) || IsAndBic(op) }

  /** The opcode that does the same with the negated or inverted constant. */
  function NegOp(op: bv32): bv32
  {
    if IsAddSub(op) then op ^ 0xc0_0000 else if IsMove(op) then op ^ 0x40_0000 else op ^ 0x1c0_0000
  }

  function NegConst(op: bv32, c: bv32): bv32
  {
    if IsAddSub(op) then -c else !c
  }

  /** Operations that need no constant at all when it is all ones. */
  predicate WithOnes(op: bv32, c: bv32)
  {
    c == 0xffff_ffff && (Kind(op) == 0x20_0000 || Kind(op) == 0 || Kind(op) == 0x180_0000)
  }

  ghost predicate Expressible(op: bv32, c: bv32)
  {
    IsModified(c) || WithOnes(op, c) || (HasNegation(op) && IsModified(NegConst(op, c)))
  }

  lemma NegHead(op: bv32)
    requires HasNegation(op) && Template(op)
    ensures Template(NegOp(op)) && Rd(NegOp(op)) == Rd(op) && Rn(NegOp(op)) == Rn(op) && Flags(NegOp(op)) == Flags(op)
  {}

  lemma NegOpcode(op: bv32)
    ensures Kind(op) == 0x80_0000 ==> Opcode(op) == 4 && Opcode(NegOp(op)) == 2
    ensures Kind(op) == 0x40_0000 ==> Opcode(op) == 2 && Opcode(NegOp(op)) == 4
    ensures Kind(op) == 0x1a0_0000 ==> Opcode(op) == 13 && Opcode(NegOp(op)) == 15
    ensures Kind(op) == 0x1e0_0000 ==> Opcode(op) == 15 && Opcode(NegOp(op)) == 13
    ensures Kind(op) == 0 ==> Opcode(op) == 0 && Opcode(NegOp(op)) == 14
    ensures Kind(op) == 0x1c0_0000 ==> Opcode(op) == 14 && Opcode(NegOp(op)) == 0
  {}

  lemma SumMeans(n: bv32, v: bv32)
    ensures AluResult(4, n, v) == Some(Sum(n, v)) && AluResult(2, n, v) == Some(Difference(n, v))
  {
    hide Sum, Difference;
  }

  lemma NegatedOperand(n: bv32, c: bv32)
    ensures Difference(n, -c) == Sum(n, c) && Sum(n, -c) == Difference(n, c)
  {}

  lemma NegSums(n: bv32, c: bv32)
    ensures AluResult(2, n, -c) == AluResult(4, n, c) && AluResult(4, n, -c) == AluResult(2, n, c)
  {
    hide AluResult, Sum, Difference;
    SumMeans(n, c);
    SumMeans(n, -c);
    NegatedOperand(n, c);
  }

  lemma NegMoves(n: bv32, c: bv32)
    ensures AluResult(15, n, !c) == AluResult(13, n, c) && AluResult(13, n, !c) == AluResult(15, n, c)
  {}

  lemma BicOfNot(n: bv32, c: bv32)
    ensures AluResult(14, n, !c) == AluResult(0, n, c)
  {}

  lemma AndMeans(n: bv32, v: bv32)
    ensures AluResult(0, n, v) == Some(n & v)
  {}

  lemma BicMeans(n: bv32, v: bv32)
    ensures AluResult(14, n, v) == Some(n & !v)
  {}

  lemma AndOfNot(n: bv32, c: bv32)
    ensures AluResult(0, n, !c) == AluResult(14, n, c)
  {
    hide AluResult;
    AndMeans(n, !c);
    BicMeans(n, c);
  }

  lemma NegImplements(w: bv32, op: bv32, c: bv32)
    requires Template(op) && HasNegation(op) && Implements(w, NegOp(op), NegConst(op, c))
    ensures Implements(w, op, c)
  {
    NoFlags(op);
    hide Decode, AluResult, Opcode, Rn, Rd, Flags, Template, Kind, NegOp, UsesFlags;
    NegHead(op);
    NegOpcode(op);
    forall regs: Regs ensures Effect(w, regs) == Meaning(op, c, regs) {
      var n := regs(Rn(op));
      NegSums(n, c);
      NegMoves(n, c);
      BicOfNot(n, c);
      AndOfNot(n, c);
    }
  }

  /** MVN Rd,Rn for EOR and MOV Rd,Rn for AND; MVN Rd,#0 for ORR. */
  function OnesWord(op: bv32): bv32
  {
    if Kind(op) == 0x20_0000 then (op & 0xf010_f000) | ((op >> 16) & 15) | 0x1e0_0000
    else if Kind(op) == 0 then (op & 0xf010_f000) | ((op >> 16) & 15) | 0x1a0_0000
    else (op & 0xfff0_ffff) | 0x1e0_0000
  }

  lemma OnesFields(op: bv32)
    requires Template(op)
    ensures Kind(op) == 0x20_0000 ==> Decode(OnesWord(op)) == DataProc(15, 0, Rd(op), Reg(Rn(op))) && Opcode(op) == 1
    ensures Kind(op) == 0 ==> Decode(OnesWord(op)) == DataProc(13, 0, Rd(op), Reg(Rn(op))) && Opcode(op) == 0
  {}

  lemma OrrOnesFields(op: bv32)
    requires Template(op) && Kind(op) == 0x180_0000
    ensures Decode(OnesWord(op)) == DataProc(15, 0, Rd(op), Imm(0)) && Opcode(op) == 12
  {}

  lemma OnesHead(op: bv32)
    requires Template(op) && WithOnes(op, 0xffff_ffff)
    ensures Rd(OnesWord(op)) == Rd(op) && Flags(OnesWord(op)) == Flags(op) && OnesWord(op) != 0
  {}

  lemma OnesResults(n: bv32)
    ensures AluResult(1, n, 0xffff_ffff) == Some(!n) && AluResult(0, n, 0xffff_ffff) == Some(n)
    ensures AluResult(12, n, 0xffff_ffff) == Some(0xffff_ffff) && AluResult(15, 0, 0) == Some(0xffff_ffff)
  {}

  lemma MoveResults(n: bv32, v: bv32)
    ensures AluResult(13, n, v) == Some(v) && AluResult(15, n, v) == Some(!v) && AluResult(15, n, 0) == Some(0xffff_ffff)
  {}

  lemma OnesImplement(op: bv32)
    requires Template(op) && WithOnes(op, 0xffff_ffff)
    ensures Implements(OnesWord(op), op, 0xffff_ffff) && OnesWord(op) != 0
  {
    NoFlags(op);
    hide Decode, AluResult, Opcode, Rn, Rd, Flags, Template, Kind, OnesWord, UsesFlags;
    var w := OnesWord(op);
    OnesHead(op);
    OnesFields(op);
    if Kind(op) == 0x180_0000 { OrrOnesFields(op); }
    forall regs: Regs ensures Effect(w, regs) == Meaning(op, 0xffff_ffff, regs) {
      var n := regs(Rn(op));
      OnesResults(n);
      MoveResults(regs(0), n);
    }
  }

  /** stuff_const: one instruction for op with constant c, or 0. */
  method StuffConst(op: bv32, c: bv32) returns (w: bv32)
    requires Template(op)
    ensures w != 0 ==> Implements(w, op, c)
    ensures w != 0 <==> Expressible(op, c)
  {
    hide Template, Implements, HasImmediate, Kind, IsModified, OnesWord, NegOp, NegConst;
    if WithOnes(op, c) {
      OnesImplement(op);
      return OnesWord(op);
    }
    w := TryRotations(op, c);
    if w != 0 {
      ImmediateImplements(w, op, c);
      return;
    }
    if HasNegation(op) {
      NegHead(op);
      w := TryRotations(NegOp(op), NegConst(op, c));
      if w != 0 {
        ImmediateImplements(w, NegOp(op), NegConst(op, c));
        NegImplements(w, op, c);
      }
    }
  }
}
