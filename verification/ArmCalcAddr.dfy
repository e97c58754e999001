/** calcaddr: bringing the offset of a load or store into the range its instruction can encode. */
module ArmCalcAddr {
  import opened Wrappers
  import opened ArmIsa
  import opened ArmConst
  import opened ArmHarder
  import opened Emit

  const LR: bv32 := 14

  /** The condition AL of an instruction that is always executed, without the S bit. */
  const ALWAYS: bv32 := 0xe000_0000

  /** The address a load or store reaches from its base register: the offset is added, or subtracted when sgn is set. */
  function Effective(base: bv32, off: bv32, sgn: bool): bv32
  {
    if sgn then Difference(base, off) else Sum(base, off)
  }

  /** The three offset fields: word-scaled 8 bits, plain 8 bits and plain 12 bits. */
  predicate OffsetField(maxoff: bv32, shift: bv32)
  {
    (maxoff == 1020 && shift == 2) || (maxoff == 255 && shift == 0) || (maxoff == 4095 && shift == 0)
  }

  function AlignMask(shift: bv32): bv32
    requires shift <= 2
  {
    (1 << shift) - 1
  }

  /** An offset the instruction can encode. */
  predicate Fits(off: bv32, maxoff: bv32, shift: bv32)
    requires shift <= 2
  {
    off <= maxoff && off & AlignMask(shift) == 0
  }

  function AddressOp(base: bv32, sgn: bool): bv32
  {
    (if sgn then 0xe240_e000 else 0xe280_e000) | (base << 16)
  }

  lemma AddressOpFields(base: bv32, sgn: bool)
    requires base < 16
    ensures Template(AddressOp(base, sgn)) && IsAddSub(AddressOp(base, sgn))
    ensures Rn(AddressOp(base, sgn)) == base && Rd(AddressOp(base, sgn)) == LR
    ensures Opcode(AddressOp(base, sgn)) == (if sgn then 2 else 4) && Flags(AddressOp(base, sgn)) == ALWAYS
  {}

  function HighPart(off: bv32, maxoff: bv32): bv32 { off & !maxoff }
  function LowPart(off: bv32, maxoff: bv32): bv32 { off & maxoff }
  function RoundedUp(off: bv32, maxoff: bv32): bv32 { (off + maxoff) & !maxoff }
  function Overshoot(off: bv32, maxoff: bv32): bv32 { RoundedUp(off, maxoff) - off }

  lemma LowFits(off: bv32, maxoff: bv32, shift: bv32)
    requires OffsetField(maxoff, shift)
    ensures Fits(LowPart(off, maxoff), maxoff, shift)
  {}

  lemma WordOvershoot(off: bv32, d: bv32)
    requires d == Overshoot(off, 1020)
    ensures d <= 1020
    ensures d & 3 == 0
  {}

  lemma ByteOvershoot(off: bv32)
    ensures Overshoot(off, 255) <= 255
  {}

  lemma LongOvershoot(off: bv32)
    ensures Overshoot(off, 4095) <= 4095
  {}

  lemma OvershootFits(off: bv32, maxoff: bv32, shift: bv32)
    requires OffsetField(maxoff, shift)
    ensures Fits(Overshoot(off, maxoff), maxoff, shift)
  {
    hide Overshoot;
    WordOvershoot(off, Overshoot(off, 1020));
    ByteOvershoot(off);
    LongOvershoot(off);
  }

  lemma HighLowUnion(off: bv32, maxoff: bv32)
    ensures HighPart(off, maxoff) | LowPart(off, maxoff) == off
  {}

  lemma HighLowApart(off: bv32, maxoff: bv32)
    ensures HighPart(off, maxoff) & LowPart(off, maxoff) == 0
  {}

  lemma DisjointParts(c: bv32, d: bv32)
    requires c & d == 0
    ensures Sum(c, d) == c | d
  {}

  lemma HighLowSum(off: bv32, maxoff: bv32)
    ensures Sum(HighPart(off, maxoff), LowPart(off, maxoff)) == off
  {
    hide HighPart, LowPart, Sum;
    HighLowUnion(off, maxoff);
    HighLowApart(off, maxoff);
    DisjointParts(HighPart(off, maxoff), LowPart(off, maxoff));
  }

  lemma SumTwice(base: bv32, c: bv32, d: bv32)
    ensures Sum(base + c, d) == Sum(base, c + d)
  {}

  lemma DifferenceTwice(base: bv32, c: bv32, d: bv32)
    ensures Difference(base - c, d) == Difference(base, c + d)
  {}

  lemma StepBack(base: bv32, u: bv32, off: bv32)
    ensures Difference(base + u, u - off) == Sum(base, off)
  {}

  lemma StepForward(base: bv32, u: bv32, off: bv32)
    ensures Sum(base - u, u - off) == Difference(base, off)
  {}

  lemma HighAndLow(base: bv32, off: bv32, maxoff: bv32, sgn: bool)
    ensures Effective(Effective(base, HighPart(off, maxoff), sgn), LowPart(off, maxoff), sgn) == Effective(base, off, sgn)
  {
    hide HighPart, LowPart, Sum, Difference;
    var h, l := HighPart(off, maxoff), LowPart(off, maxoff);
    HighLowSum(off, maxoff);
    SumRaw(h, l);
    SumRaw(base, h);
    if sgn { DifferenceTwice(base, h, l); } else { SumTwice(base, h, l); }
  }

  lemma EffectiveBack(base: bv32, u: bv32, d: bv32, off: bv32, sgn: bool)
    requires d == u - off
    ensures Effective(Effective(base, u, sgn), d, !sgn) == Effective(base, off, sgn)
  {
    hide Sum, Difference;
    SumRaw(base, u);
    if sgn { StepForward(base, u, off); } else { StepBack(base, u, off); }
  }

  lemma UpAndBack(base: bv32, off: bv32, maxoff: bv32, sgn: bool)
    ensures Effective(Effective(base, RoundedUp(off, maxoff), sgn), Overshoot(off, maxoff), !sgn) == Effective(base, off, sgn)
  {
    hide Effective, RoundedUp;
    EffectiveBack(base, RoundedUp(off, maxoff), Overshoot(off, maxoff), off, sgn);
  }

  lemma ResultIsEffective(n: bv32, v: bv32, sgn: bool)
    ensures AluResult(if sgn then 2 else 4, n, v) == Some(Effective(n, v, sgn))
  {
    hide AluResult;
    SumMeans(n, v);
  }

  /** Running the code leaves base + v, or base - v, in lr and every other register as it was. */
  lemma Based(code: seq<bv32>, base: bv32, sgn: bool, v: bv32, regs: Regs)
    requires base < 16 && Computes(code, AddressOp(base, sgn), v)
    ensures LoadsBase(code, regs, Effective(regs(base), v, sgn))
  {
    hide Run, AluResult, Rn, Rd, Opcode, AddressOp, Effective, Template, IsAddSub;
    var op := AddressOp(base, sgn);
    AddressOpFields(base, sgn);
    assert ComputesFrom(code, op, v, regs);
    ResultIsEffective(regs(base), v, sgn);
  }

  ghost predicate LoadsBase(code: seq<bv32>, regs: Regs, address: bv32)
  {
    match Run(code, regs)
    case None => false
    case Some(t) => t(LR) == address && forall k: bv32 | k != LR :: t(k) == regs(k)
  }

  /** After the code, base' and off' reach the address base and off reached before it; only lr may have changed. */
  ghost predicate SameAddress(code: seq<bv32>, regs: Regs, base: bv32, off: bv32, sgn: bool,
                              base': bv32, off': bv32, sgn': bool)
  {
    match Run(code, regs)
    case None => false
    case Some(t) => Effective(t(base'), off', sgn') == Effective(regs(base), off, sgn) &&
                    forall k: bv32 | k != LR :: t(k) == regs(k)
  }

  ghost predicate KeepsAddress(code: seq<bv32>, base: bv32, off: bv32, sgn: bool, base': bv32, off': bv32, sgn': bool)
  {
    forall regs: Regs :: SameAddress(code, regs, base, off, sgn, base', off', sgn')
  }

  lemma ComputesAlways(code: seq<bv32>, base: bv32, sgn: bool, v: bv32)
    requires base < 16 && Computes(code, AddressOp(base, sgn), v)
    ensures HasFlags(code, ALWAYS)
  {
    hide Run, AddressOp, HasFlags, Flags, Rn, Rd, Opcode, Template, IsAddSub;
    AddressOpFields(base, sgn);
  }

  lemma LowKeeps(code: seq<bv32>, base: bv32, off: bv32, sgn: bool, maxoff: bv32)
    requires base < 16 && Computes(code, AddressOp(base, sgn), HighPart(off, maxoff))
    ensures KeepsAddress(code, base, off, sgn, LR, LowPart(off, maxoff), sgn)
  {
    hide Run, Computes, AddressOp, Effective, HighPart, LowPart;
    forall regs: Regs ensures SameAddress(code, regs, base, off, sgn, LR, LowPart(off, maxoff), sgn) {
      Based(code, base, sgn, HighPart(off, maxoff), regs);
      HighAndLow(regs(base), off, maxoff, sgn);
    }
  }

  lemma OvershootKeeps(code: seq<bv32>, base: bv32, off: bv32, sgn: bool, maxoff: bv32)
    requires base < 16 && Computes(code, AddressOp(base, sgn), RoundedUp(off, maxoff))
    ensures KeepsAddress(code, base, off, sgn, LR, Overshoot(off, maxoff), !sgn)
  {
    hide Run, Computes, AddressOp, Effective, RoundedUp, Overshoot;
    var sgn' := !sgn;
    forall regs: Regs ensures SameAddress(code, regs, base, off, sgn, LR, Overshoot(off, maxoff), sgn') {
      Based(code, base, sgn, RoundedUp(off, maxoff), regs);
      UpAndBack(regs(base), off, maxoff, sgn);
    }
  }

  /** calcaddr: the address is kept, the new offset can be encoded, and at most four instructions are emitted, which are
      executed whatever the flags are and write none. */
  method CalcAddr(em: Emitter, base: bv32, off: bv32, sgn: bool, maxoff: bv32, shift: bv32)
    returns (base': bv32, off': bv32, sgn': bool, ghost out: seq<bv32>)
    requires base < 16 && off <= 0x7fff_ffff && OffsetField(maxoff, shift)
    modifies em
    ensures em.code == old(em.code) + out && |out| <= 4
    ensures KeepsAddress(out, base, off, sgn, base', off', sgn') && HasFlags(out, ALWAYS)
    ensures Fits(off', maxoff, shift)
    ensures Fits(off, maxoff, shift) ==> out == [] && base' == base && off' == off && sgn' == sgn
    ensures !Fits(off, maxoff, shift) ==> base' == LR && 1 <= |out|
  {
    hide Implements, Computes, AddressOp, HighPart, LowPart, RoundedUp, Expressible, AluDefined, KeepsAddress, HasFlags, Template,
      IsAddSub;
    base', off', sgn', out := base, off, sgn, [];
    if off > maxoff || off & AlignMask(shift) != 0 {
      AddressOpFields(base, sgn);
      LowFits(off, maxoff, shift);
      OvershootFits(off, maxoff, shift);
      var x := AddressOp(base, sgn);
      base' := LR;
      AddSubDefined(x);
      var y := StuffConst(x, HighPart(off, maxoff));
      if y != 0 {
        em.O(y);
        out := [y];
        OneComputes(y, x, HighPart(off, maxoff));
        off' := LowPart(off, maxoff);
        ComputesAlways(out, base, sgn, HighPart(off, maxoff));
        LowKeeps(out, base, off, sgn, maxoff);
        return;
      }
      y := StuffConst(x, RoundedUp(off, maxoff));
      if y != 0 {
        em.O(y);
        out := [y];
        OneComputes(y, x, RoundedUp(off, maxoff));
        sgn' := !sgn;
        off' := RoundedUp(off, maxoff) - off;
        ComputesAlways(out, base, sgn, RoundedUp(off, maxoff));
        OvershootKeeps(out, base, off, sgn, maxoff);
        return;
      }
      out := StuffConstHarder(em, x, HighPart(off, maxoff));
      off' := LowPart(off, maxoff);
      ComputesAlways(out, base, sgn, HighPart(off, maxoff));
      LowKeeps(out, base, off, sgn, maxoff);
    } else {
      NothingEmitted(base, off, sgn);
    }
  }

  lemma NothingEmitted(base: bv32, off: bv32, sgn: bool)
    ensures KeepsAddress([], base, off, sgn, base, off, sgn) && HasFlags([], ALWAYS)
  {}
}
