/** The few A64 instructions the constant lowering emits: decoding and effect. */
module A64Isa {
  import opened Wrappers
  import opened A64Bitmask
  import opened A64Words

  /** General registers by number (0 to 30) and the stack pointer. */
  datatype State = State(x: bv32 -> bv64, sp: bv64)

  datatype Instr =
    | MovWide(sf: bool, opc: bv32, hw: bv32, imm16: bv64, rd: bv32)
    | LogicalImm(sf: bool, opc: bv32, code: bv32, rn: bv32, rd: bv32)
    | AddSubImm(sf: bool, sub: bool, shift12: bool, imm12: bv64, rn: bv32, rd: bv32)
    | AddSubReg(sf: bool, sub: bool, rm: bv32, rn: bv32, rd: bv32)
    | SubSpExtended(rm: bv32, shift: bv32)  // sub sp,sp,rm,uxtx #shift
    | OrnReg(sf: bool, rm: bv32, rn: bv32, rd: bv32)
    | Bitfield(sf: bool, signed: bool, immr: bv64, imms: bv64, rn: bv32, rd: bv32)
    | Nop
    | Other

  function Sf(i: bv32): bool { i & 0x8000_0000 != 0 }
  function Rd(i: bv32): bv32 { i & 31 }
  function Rn(i: bv32): bv32 { (i >> 5) & 31 }
  function Rm(i: bv32): bv32 { (i >> 16) & 31 }

  /** Arm ARM, encodings of data-processing (immediate) and (register). */
  function Decode(i: bv32): Instr
  {
    if i & 0x1f80_0000 == 0x1280_0000 then
      MovWide(Sf(i), (i >> 29) & 3, (i >> 21) & 3, ((i >> 5) & 0xffff) as bv64, Rd(i))
    else if i & 0x1f80_0000 == 0x1200_0000 then
      LogicalImm(Sf(i), (i >> 29) & 3, (i >> 10) & 0x1fff, Rn(i), Rd(i))
    else if i & 0x3f80_0000 == 0x1100_0000 then
      AddSubImm(Sf(i), i & 0x4000_0000 != 0, i & 0x40_0000 != 0, ((i >> 10) & 0xfff) as bv64, Rn(i), Rd(i))
    else if i & 0x3fe0_fc00 == 0x0b00_0000 then
      AddSubReg(Sf(i), i & 0x4000_0000 != 0, Rm(i), Rn(i), Rd(i))
    else if i & 0xffe0_e3ff == 0xcb20_63ff then
      SubSpExtended(Rm(i), (i >> 10) & 7)
    else if i & 0x7fe0_fc00 == 0x2a20_0000 then
      OrnReg(Sf(i), Rm(i), Rn(i), Rd(i))
    else if (i & 0x3f80_0000 == 0x1300_0000) && (Sf(i) == (i & 0x40_0000 != 0)) then
      Bitfield(Sf(i), i & 0x4000_0000 == 0, ((i >> 16) & 63) as bv64, ((i >> 10) & 63) as bv64, Rn(i), Rd(i))
    else if i == 0xd503201f then Nop
    else Other
  }

  // ----- effect -----

  function Low32(v: bv64): bv64 { v & 0xffff_ffff }

  /** A W result is zero-extended. */
  function Width(sf: bool, v: bv64): bv64 { if sf then v else Low32(v) }

  /** Register 31 reads as zero, and writes to it are lost. */
  function Read(s: State, r: bv32): bv64 { if r == 31 then 0 else s.x(r) }

  function Write(s: State, r: bv32, v: bv64): State
  {
    if r == 31 then s else s.(x := (k: bv32) => if k == r then v else s.x(k))
  }

  function ReadOrSp(s: State, r: bv32): bv64 { if r == 31 then s.sp else s.x(r) }

  function WriteOrSp(s: State, r: bv32, v: bv64): State
  {
    if r == 31 then s.(sp := v) else Write(s, r, v)
  }

  function HalfWord(v: bv64, hw: bv32): bv64
  {
    if hw == 0 then v else if hw == 1 then v << 16 else if hw == 2 then v << 32 else v << 48
  }

  function Inverted(v: bv64): bv64 { !v }

  function Inserted(v: bv64, m: bv64, c: bv64): bv64 { (v & !m) | c }

  /** MOVN, MOVZ and MOVK on the old value of the register. */
  function MovWideValue(opc: bv32, hw: bv32, imm16: bv64, old_: bv64): bv64
  {
    if opc == 0 then Inverted(HalfWord(imm16, hw))
    else if opc == 2 then HalfWord(imm16, hw)
    else Inserted(old_, HalfWord(0xffff, hw), HalfWord(imm16, hw))
  }

  /** The immediate of AND, ORR and EOR, where the encoding defines one. */
  function LogicalImmediate(sf: bool, code: bv32): Option<bv64>
  {
    if !sf && code >= 0x1000 then None
    else if FieldNat(code) >= 0x2000 then None
    else match DecodeBitMasks(FieldNat(code))
         case None => None
         case Some(w) => Some(Width(sf, WordOf(w)))
  }

  predicate Negative(v: bv64) { v & 0x8000_0000_0000_0000 != 0 }

  function ShiftIn(ones: bool, v: bv64, k: bv64): bv64
    requires k < 64
  {
    if ones then !((!v) >> k) else v >> k
  }

  /** Arithmetic shift right. */
  function Asr(v: bv64, k: bv64): bv64
    requires k < 64
  {
    ShiftIn(Negative(v), v, k)
  }

  /** The n low bits set. */
  function Mask(n: bv64): bv64
    requires 1 <= n <= 64
  {
    (0xffff_ffff_ffff_ffff as bv64) >> (64 - n)
  }

  /** The field imms:immr, moved to bit 0 and zero- or sign-extended. */
  function FieldDown(signed: bool, immr: bv64, imms: bv64, v: bv64): bv64
    requires immr <= imms <= 63
  {
    if signed then Asr(v << (63 - imms), 63 - imms + immr) else (v >> immr) & Mask(imms - immr + 1)
  }

  /** The field imms:0, extended and moved up by k. */
  function FieldUp(signed: bool, imms: bv64, k: bv64, v: bv64): bv64
    requires imms <= 63 && k <= 64
  {
    if signed then Asr(v << (63 - imms), 63 - imms) << k else (v & Mask(imms + 1)) << k
  }

  /** UBFM and SBFM of an n-bit register. */
  function BitfieldValue(signed: bool, n: bv64, immr: bv64, imms: bv64, v: bv64): bv64
    requires (n == 32 || n == 64) && immr < n && imms < n
  {
    if imms >= immr then FieldDown(signed, immr, imms, v) else FieldUp(signed, imms, n - immr, v)
  }

  function MovWideStep(sf: bool, opc: bv32, hw: bv32, imm16: bv64, rd: bv32, s: State): Option<State>
  {
    if opc == 1 || (!sf && hw >= 2) then None
    else Some(Write(s, rd, Width(sf, MovWideValue(opc, hw, imm16, Read(s, rd)))))
  }

  function LogicalValue(opc: bv32, v: bv64, imm: bv64): bv64
  {
    if opc == 0 then v & imm else if opc == 1 then v | imm else v ^ imm
  }

  function LogicalStep(sf: bool, opc: bv32, code: bv32, rn: bv32, rd: bv32, s: State): Option<State>
  {
    match LogicalImmediate(sf, code)
    case None => None
    case Some(imm) =>
      if opc == 3 then None else Some(WriteOrSp(s, rd, Width(sf, LogicalValue(opc, Read(s, rn), imm))))
  }

  function AddSub(sub: bool, v: bv64, w: bv64): bv64 { if sub then v - w else v + w }

  function AddSubImmStep(sf: bool, sub: bool, shift12: bool, imm12: bv64, rn: bv32, rd: bv32, s: State): Option<State>
  {
    Some(WriteOrSp(s, rd, Width(sf, AddSub(sub, ReadOrSp(s, rn), if shift12 then imm12 << 12 else imm12))))
  }

  function AddSubRegStep(sf: bool, sub: bool, rm: bv32, rn: bv32, rd: bv32, s: State): Option<State>
  {
    Some(Write(s, rd, Width(sf, AddSub(sub, Read(s, rn), Read(s, rm)))))
  }

  function ShiftedBy(v: bv64, shift: bv32): bv64
    requires shift <= 7
  {
    v << shift
  }

  /** The extended-register form shifts by at most 4. */
  function SubSpStep(rm: bv32, shift: bv32, s: State): Option<State>
    requires shift <= 7
  {
    if shift > 4 then None else Some(s.(sp := AddSub(true, s.sp, ShiftedBy(Read(s, rm), shift))))
  }

  function OrnStep(sf: bool, rm: bv32, rn: bv32, rd: bv32, s: State): Option<State>
  {
    Some(Write(s, rd, Width(sf, Read(s, rn) | !Read(s, rm))))
  }

  function BitfieldStep(sf: bool, signed: bool, immr: bv64, imms: bv64, rn: bv32, rd: bv32, s: State): Option<State>
  {
    var n := if sf then 64 else 32;
    if immr >= n || imms >= n then None
    else Some(Write(s, rd, Width(sf, BitfieldValue(signed, n, immr, imms, Width(sf, Read(s, rn))))))
  }

  /** The effect of one instruction, or None when it is undefined or not modelled. */
  function Step(i: bv32, s: State): Option<State>
  {
    match Decode(i)
    case MovWide(sf, opc, hw, imm16, rd) => MovWideStep(sf, opc, hw, imm16, rd, s)
    case LogicalImm(sf, opc, code, rn, rd) => LogicalStep(sf, opc, code, rn, rd, s)
    case AddSubImm(sf, sub, shift12, imm12, rn, rd) => AddSubImmStep(sf, sub, shift12, imm12, rn, rd, s)
    case AddSubReg(sf, sub, rm, rn, rd) => AddSubRegStep(sf, sub, rm, rn, rd, s)
    case SubSpExtended(rm, shift) => if shift <= 7 then SubSpStep(rm, shift, s) else None
    case OrnReg(sf, rm, rn, rd) => OrnStep(sf, rm, rn, rd, s)
    case Bitfield(sf, signed, immr, imms, rn, rd) => BitfieldStep(sf, signed, immr, imms, rn, rd, s)
    case Nop => Some(s)
    case Other => None
  }

  function Run(code: seq<bv32>, s: State): Option<State>
  {
    if code == [] then Some(s)
    else match Step(code[0], s)
         case None => None
         case Some(s') => Run(code[1..], s')
  }

  lemma {:induction false} RunConcat(c: seq<bv32>, d: seq<bv32>, s: State)
    ensures Run(c + d, s) == match Run(c, s) case None => None case Some(s') => Run(d, s')
    decreases |c|
  {
    if c == [] {
      assert c + d == d;
    } else {
      assert (c + d)[0] == c[0] && (c + d)[1..] == c[1..] + d;
      match Step(c[0], s)
      case None =>
      case Some(s') => RunConcat(c[1..], d, s');
    }
  }
}
