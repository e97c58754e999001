/** ARM data-processing instructions with an immediate or a plain register operand. */
module ArmIsa {
  import opened Wrappers

  /** Registers r0 to r15 by number. */
  type Regs = bv32 -> bv32

  datatype Operand = Imm(value: bv32) | Reg(rm: bv32)

  datatype Instr = DataProc(opcode: bv32, rn: bv32, rd: bv32, operand: Operand) | Other

  function Rol(c: bv32, i: bv32): bv32
    requires i <= 32
  {
    (c << i) | (c >> (32 - i))
  }

  function Ror(c: bv32, i: bv32): bv32
    requires i <= 32
  {
    (c >> i) | (c << (32 - i))
  }

  function Low8(w: bv32): bv32 { w & 0xff }

  function RotationField(w: bv32): bv32 { (w >> 7) & 0x1e }

  /** Arm ARM section A5.2.4: the low 8 bits rotated right by twice the 4-bit field above them. */
  function ModifiedImmediate(w: bv32): bv32
  {
    Ror(Low8(w), RotationField(w))
  }

  function Opcode(w: bv32): bv32 { (w >> 21) & 15 }
  function Rn(w: bv32): bv32 { (w >> 16) & 15 }
  function Rd(w: bv32): bv32 { (w >> 12) & 15 }
  predicate ImmediateForm(w: bv32) { w & 0x0e00_0000 == 0x0200_0000 }
  predicate RegisterForm(w: bv32) { w & 0x0e00_0ff0 == 0 }

  function Decode(w: bv32): Instr
  {
    if ImmediateForm(w) then DataProc(Opcode(w), Rn(w), Rd(w), Imm(ModifiedImmediate(w)))
    else if RegisterForm(w) then DataProc(Opcode(w), Rn(w), Rd(w), Reg(w & 15))
    else Other
  }

  function Sum(n: bv32, v: bv32): bv32 { n + v }
  function Difference(n: bv32, v: bv32): bv32 { n - v }

  /** The result of an opcode on the first operand and the second; none for the comparisons and the opcodes that read the carry. */
  function AluResult(opcode: bv32, n: bv32, v: bv32): Option<bv32>
  {
    match opcode
    case 0 => Some(n & v)
    case 1 => Some(n ^ v)
    case 2 => Some(Difference(n, v))
    case 3 => Some(Difference(v, n))
    case 4 => Some(Sum(n, v))
    case 12 => Some(n | v)
    case 13 => Some(v)
    case 14 => Some(n & !v)
    case 15 => Some(!v)
    case _ => None
  }

  function OperandValue(o: Operand, regs: Regs): bv32 { match o case Imm(v) => v case Reg(rm) => regs(rm) }

  /** The value an instruction gives its destination register. */
  function Effect(i: bv32, regs: Regs): Option<bv32>
  {
    match Decode(i)
    case DataProc(opcode, rn, rd, operand) => AluResult(opcode, regs(rn), OperandValue(operand, regs))
    case Other => None
  }

  function Write(regs: Regs, rd: bv32, v: bv32): Regs { (k: bv32) => if k == rd then v else regs(k) }

  function Step(i: bv32, regs: Regs): Option<Regs>
  {
    match Effect(i, regs)
    case None => None
    case Some(v) => Some(Write(regs, Rd(i), v))
  }

  function Run(code: seq<bv32>, regs: Regs): Option<Regs>
  {
    if code == [] then Some(regs)
    else match Step(code[0], regs)
         case None => None
         case Some(regs') => Run(code[1..], regs')
  }

  lemma {:induction false} RunConcat(c: seq<bv32>, d: seq<bv32>, regs: Regs)
    ensures Run(c + d, regs) == match Run(c, regs) case None => None case Some(t) => Run(d, t)
    decreases |c|
  {
    if c == [] {
      assert c + d == d;
    } else {
      assert (c + d)[0] == c[0] && (c + d)[1..] == c[1..] + d;
      match Step(c[0], regs)
      case None =>
      case Some(t) => RunConcat(c[1..], d, t);
    }
  }
}
