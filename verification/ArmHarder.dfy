/** stuff_const_harder: adding or subtracting any 32-bit constant in at most four instructions. */
module ArmHarder {
  import opened Wrappers
  import opened ArmIsa
  import opened ArmConst
  import opened Emit

  /** Running the code gives op's destination the value of op with operand c, and changes nothing else; every word is executed
      under op's condition and writes the processor flags only if op does. */
  ghost predicate Computes(code: seq<bv32>, op: bv32, c: bv32)
  {
    HasFlags(code, Flags(op)) && forall regs: Regs :: ComputesFrom(code, op, c, regs)
  }

  /** All words have this condition and this S bit. */
  ghost predicate HasFlags(code: seq<bv32>, f: bv32) { forall w | w in code :: Flags(w) == f }

  ghost predicate ComputesFrom(code: seq<bv32>, op: bv32, c: bv32, regs: Regs)
  {
    match Run(code, regs)
    case None => false
    case Some(t) => Some(t(Rd(op))) == Meaning(op, c, regs) && forall k: bv32 | k != Rd(op) :: t(k) == regs(k)
  }

  // ----- a chain of additions or subtractions -----

  /** The same operation on the register just written. */
  function Again(op: bv32): bv32 { (op & 0xfff0_ffff) | ((op & 0xf000) << 4) }

  lemma AgainFields(op: bv32)
    requires Template(op)
    ensures Template(Again(op)) && Rn(Again(op)) == Rd(op) && Rd(Again(op)) == Rd(op) && Flags(Again(op)) == Flags(op)
    ensures Opcode(Again(op)) == Opcode(op) && Kind(Again(op)) == Kind(op)
  {}

  lemma AddSubOpcode(op: bv32)
    requires IsAddSub(op)
    ensures Opcode(op) == 4 || Opcode(op) == 2
  {}

  /** Two parts that share no bit add up to their union. */
  lemma DisjointSum(c: bv32, d: bv32)
    requires c & d == 0
    ensures c + d == c | d
  {}

  lemma SumInSteps(opcode: bv32, n: bv32, c: bv32, d: bv32, m: bv32)
    requires opcode == 4 || opcode == 2
    requires AluResult(opcode, n, c) == Some(m)
    ensures AluResult(opcode, m, d) == AluResult(opcode, n, c + d)
  {
    hide AluResult, Sum, Difference;
    SumMeans(n, c);
    SumMeans(m, d);
    SumMeans(n, c + d);
    Reassociate(n, c, d);
    SumRaw(n, c);
  }

  lemma Reassociate(n: bv32, c: bv32, d: bv32)
    ensures Sum(n + c, d) == Sum(n, c + d) && Difference(n - c, d) == Difference(n, c + d)
  {}

  lemma SumRaw(n: bv32, c: bv32)
    ensures Sum(n, c) == n + c && Difference(n, c) == n - c
  {}

  lemma OneComputes(w: bv32, op: bv32, c: bv32)
    requires Implements(w, op, c) && AluDefined(op)
    ensures Computes([w], op, c)
  {
    hide Decode, AluResult, Opcode, Rn, Rd, Flags;
    var code := [w];
    forall regs: Regs ensures ComputesFrom(code, op, c, regs) {
      assert Effect(w, regs) == Meaning(op, c, regs);
      RunOne(w, regs);
    }
  }

  /** The opcode's result is modelled. */
  ghost predicate AluDefined(op: bv32) { forall n, v :: AluResult(Opcode(op), n, v).Some? }

  lemma AddSubDefined(op: bv32)
    requires IsAddSub(op)
    ensures AluDefined(op)
  {
    hide AluResult, Opcode;
    AddSubOpcode(op);
    forall n, v ensures AluResult(Opcode(op), n, v).Some? { SumMeans(n, v); }
  }

  lemma RunOne(w: bv32, regs: Regs)
    ensures Run([w], regs) == Step(w, regs)
  {
    hide Step;
    assert [w][1..] == [];
  }

  lemma NextComputes(code: seq<bv32>, w: bv32, op: bv32, c: bv32, d: bv32, e: bv32)
    requires Template(op) && IsAddSub(op) && Computes(code, op, c) && Implements(w, Again(op), d)
    requires c & d == 0 && e == c | d
    ensures Computes(code + [w], op, e)
  {
    hide Decode, AluResult, Opcode, Rn, Rd, Flags, Again, Template, IsAddSub, Kind;
    AgainFields(op);
    AddSubOpcode(op);
    AddSubDefined(op);
    DisjointSum(c, d);
    var code' := code + [w];
    forall regs: Regs ensures ComputesFrom(code', op, e, regs) {
      assert ComputesFrom(code, op, c, regs);
      var t := Run(code, regs).value;
      RunConcat(code, [w], regs);
      RunOne(w, t);
      assert Effect(w, t) == Meaning(Again(op), d, t);
      SumInSteps(Opcode(op), regs(Rn(op)), c, d, t(Rd(op)));
    }
  }

  // ----- eight-bit pieces -----

  /** a[i] of the source: 0xff rotated right by 2 * i. */
  function RotatedByte(i: bv32): bv32
    requires i < 16
  {
    Ror(0xff, i << 1)
  }

  lemma PieceRotates(v: bv32, i: bv32, r: bv32, m: bv32)
    requires i < 16 && r == i << 1 && m == Ror(0xff, r)
    ensures RotationFits(v & m, r)
  {}

  lemma PieceModified(v: bv32, i: bv32)
    requires i < 16
    ensures IsModified(v & RotatedByte(i))
  {
    hide Ror, RotationFits;
    PieceRotates(v, i, i << 1, RotatedByte(i));
  }

  lemma BytesApart(i: bv32, j: bv32)
    requires i < 16 && j < 16 && i + 4 <= j <= i + 12
    ensures RotatedByte(i) & RotatedByte(j) == 0
  {}

  function Part(v: bv32, i: bv32): bv32
    requires i < 16
  {
    v & RotatedByte(i)
  }

  function Union(c: bv32, d: bv32): bv32 { c | d }

  predicate Apart(c: bv32, d: bv32) { c & d == 0 }

  /** Pieces i and j lie at least four steps apart both ways round. */
  predicate Spaced(i: bv32, j: bv32) { i < 16 && j < 16 && i + 4 <= j <= i + 12 }

  predicate CoverTwo(v: bv32, i: bv32, j: bv32)
    requires i < 16 && j < 16
  {
    v & (RotatedByte(i) | RotatedByte(j)) == v
  }

  predicate CoverThree(v: bv32, i: bv32, j: bv32, k: bv32)
    requires i < 16 && j < 16 && k < 16
  {
    v & (RotatedByte(i) | RotatedByte(j) | RotatedByte(k)) == v
  }

  lemma PartsApart(v: bv32, i: bv32, j: bv32)
    requires Spaced(i, j)
    ensures Apart(Part(v, i), Part(v, j))
  {
    hide RotatedByte;
    BytesApart(i, j);
  }

  lemma ThirdApart(c: bv32, d: bv32, e: bv32)
    requires Apart(c, e) && Apart(d, e)
    ensures Apart(Union(c, d), e)
  {}

  lemma CoveredByTwo(v: bv32, i: bv32, j: bv32)
    requires i < 16 && j < 16 && CoverTwo(v, i, j)
    ensures Union(Part(v, i), Part(v, j)) == v
  {
    hide RotatedByte;
  }

  lemma CoveredByThree(v: bv32, i: bv32, j: bv32, k: bv32)
    requires i < 16 && j < 16 && k < 16 && CoverThree(v, i, j, k)
    ensures Union(Union(Part(v, i), Part(v, j)), Part(v, k)) == v
  {
    hide RotatedByte;
  }

  lemma CoveredByFour(v: bv32)
    ensures Union(Union(Union(Part(v, 0), Part(v, 4)), Part(v, 8)), Part(v, 12)) == v
  {}

  /** o(stuff_const(op, v & a[i])) */
  method EmitFirst(em: Emitter, op: bv32, v: bv32, i: bv32) returns (ghost out: seq<bv32>)
    requires Template(op) && IsAddSub(op) && i < 16
    modifies em
    ensures em.code == old(em.code) + out && |out| == 1 && Computes(out, op, Part(v, i))
  {
    hide Template, IsAddSub, Implements, Computes, Kind, AluDefined, IsModified;
    PieceModified(v, i);
    var w := StuffConst(op, v & RotatedByte(i));
    em.O(w);
    AddSubDefined(op);
    OneComputes(w, op, Part(v, i));
    out := [w];
  }

  /** o(stuff_const(o2, v & a[i])), after code for the pieces already added. */
  method EmitNext(em: Emitter, op: bv32, v: bv32, i: bv32, ghost before: seq<bv32>, ghost c: bv32)
    returns (ghost out: seq<bv32>)
    requires Template(op) && IsAddSub(op) && i < 16
    requires Computes(before, op, c) && Apart(c, Part(v, i))
    modifies em
    ensures exists w :: em.code == old(em.code) + [w] && out == before + [w]
    ensures Computes(out, op, Union(c, Part(v, i)))
  {
    hide Template, IsAddSub, Implements, Computes, Kind, IsModified, Again;
    PieceModified(v, i);
    AgainFields(op);
    var w := StuffConst(Again(op), v & RotatedByte(i));
    em.O(w);
    NextComputes(before, w, op, c, Part(v, i), Union(c, Part(v, i)));
    out := before + [w];
  }

  method EmitTwo(em: Emitter, op: bv32, v: bv32, i: bv32, j: bv32) returns (ghost out: seq<bv32>)
    requires Template(op) && IsAddSub(op) && Spaced(i, j) && CoverTwo(v, i, j)
    modifies em
    ensures em.code == old(em.code) + out && |out| == 2 && Computes(out, op, v)
  {
    SpacedInRange(i, j);
    hide Template, IsAddSub, Computes, Spaced, Apart, CoverTwo, Part, Union;
    out := EmitFirst(em, op, v, i);
    PartsApart(v, i, j);
    out := EmitNext(em, op, v, j, out, Part(v, i));
    CoveredByTwo(v, i, j);
  }

  method EmitThree(em: Emitter, op: bv32, v: bv32, i: bv32, j: bv32, k: bv32) returns (ghost out: seq<bv32>)
    requires Template(op) && IsAddSub(op) && Spaced(i, j) && Spaced(i, k) && Spaced(j, k) && CoverThree(v, i, j, k)
    modifies em
    ensures em.code == old(em.code) + out && |out| == 3 && Computes(out, op, v)
  {
    SpacedInRange(i, j);
    SpacedInRange(j, k);
    hide Template, IsAddSub, Computes, Spaced, Apart, CoverThree, Part, Union;
    out := EmitFirst(em, op, v, i);
    PartsApart(v, i, j);
    out := EmitNext(em, op, v, j, out, Part(v, i));
    PartsApart(v, i, k);
    PartsApart(v, j, k);
    ThirdApart(Part(v, i), Part(v, j), Part(v, k));
    out := EmitNext(em, op, v, k, out, Union(Part(v, i), Part(v, j)));
    CoveredByThree(v, i, j, k);
  }

  method EmitFour(em: Emitter, op: bv32, v: bv32) returns (ghost out: seq<bv32>)
    requires Template(op) && IsAddSub(op)
    modifies em
    ensures em.code == old(em.code) + out && |out| == 4 && Computes(out, op, v)
  {
    FourSpaced();
    hide Template, IsAddSub, Computes, Spaced, Apart, Part, Union;
    out := EmitFirst(em, op, v, 0);
    PartsApart(v, 0, 4);
    out := EmitNext(em, op, v, 4, out, Part(v, 0));
    PartsApart(v, 0, 8);
    PartsApart(v, 4, 8);
    ThirdApart(Part(v, 0), Part(v, 4), Part(v, 8));
    out := EmitNext(em, op, v, 8, out, Union(Part(v, 0), Part(v, 4)));
    PartsApart(v, 0, 12);
    PartsApart(v, 4, 12);
    PartsApart(v, 8, 12);
    ThirdApart(Part(v, 0), Part(v, 4), Part(v, 12));
    ThirdApart(Union(Part(v, 0), Part(v, 4)), Part(v, 8), Part(v, 12));
    out := EmitNext(em, op, v, 12, out, Union(Union(Part(v, 0), Part(v, 4)), Part(v, 8)));
    CoveredByFour(v);
  }

  lemma SpacedInRange(i: bv32, j: bv32)
    requires Spaced(i, j)
    ensures i < 16 && j < 16
  {}

  lemma FourSpaced()
    ensures Spaced(0, 4) && Spaced(0, 8) && Spaced(0, 12) && Spaced(4, 8) && Spaced(4, 12) && Spaced(8, 12)
  {}

  /** Two pieces, or three, that do not overlap cover v. */
  ghost predicate TwoPieces(v: bv32) { exists i: bv32, j: bv32 :: Spaced(i, j) && CoverTwo(v, i, j) }

  ghost predicate ThreePieces(v: bv32)
  {
    exists i: bv32, j: bv32, k: bv32 :: CoversSpaced(v, i, j, k)
  }

  predicate CoversSpaced(v: bv32, i: bv32, j: bv32, k: bv32) { AllSpaced(i, j, k) && CoverThree(v, i, j, k) }

  predicate AllSpaced(i: bv32, j: bv32, k: bv32) { Spaced(i, j) && Spaced(i, k) && Spaced(j, k) }

  /** The bounds of the search loops leave out no spaced pieces. */
  lemma PairsSearched(i: bv32, j: bv32)
    requires Spaced(i, j)
    ensures i < 12 && i + 4 <= j && j <= (if i < 4 then i + 12 else 15)
  {}

  lemma SpacedTriple(i: bv32, j: bv32, k: bv32)
    ensures AllSpaced(i, j, k) <==>
      i < 8 && i + 4 <= j < 12 && j + 4 <= k && k <= (if i < 4 then i + 12 else 15)
    ensures AllSpaced(i, j, k) ==> Spaced(i, j) && Spaced(i, k) && Spaced(j, k)
  {}

  /** The search for two pieces that cover v. */
  method TryTwo(em: Emitter, op: bv32, v: bv32) returns (ok: bool, ghost out: seq<bv32>)
    requires Template(op) && IsAddSub(op)
    modifies em
    ensures em.code == old(em.code) + out
    ensures if ok then |out| == 2 && Computes(out, op, v) else out == []
    ensures ok <==> TwoPieces(v)
  {
    hide Template, IsAddSub, Computes, CoverTwo;
    var i: bv32 := 0;
    while i < 12
      invariant i <= 12 && em.code == old(em.code)
      invariant forall m: bv32, n: bv32 :: Spaced(m, n) && m < i ==> !CoverTwo(v, m, n)
      decreases 12 - i
    {
      var j := if i < 4 then i + 12 else 15;
      forall n: bv32 | Spaced(i, n) ensures n <= j { PairsSearched(i, n); }
      while j >= i + 4
        invariant i + 3 <= j <= i + 12 && j < 16 && em.code == old(em.code)
        invariant forall n: bv32 :: Spaced(i, n) && j < n ==> !CoverTwo(v, i, n)
        decreases j
      {
        if CoverTwo(v, i, j) {
          assert Spaced(i, j);
          out := EmitTwo(em, op, v, i, j);
          return true, out;
        }
        j := j - 1;
      }
      forall m: bv32, n: bv32 | Spaced(m, n) && m < i + 1 ensures !CoverTwo(v, m, n) { PairsSearched(m, n); }
      i := i + 1;
    }
    forall m: bv32, n: bv32 | Spaced(m, n) ensures !CoverTwo(v, m, n) { PairsSearched(m, n); }
    return false, [];
  }

  /** The search for three pieces that cover v. */
  method TryThree(em: Emitter, op: bv32, v: bv32) returns (ok: bool, ghost out: seq<bv32>)
    requires Template(op) && IsAddSub(op)
    modifies em
    ensures em.code == old(em.code) + out
    ensures if ok then |out| == 3 && Computes(out, op, v) else out == []
    ensures ok <==> ThreePieces(v)
  {
    hide Template, IsAddSub, Computes, CoverThree, AllSpaced;
    var i: bv32 := 0;
    while i < 8
      invariant i <= 8 && em.code == old(em.code)
      invariant forall l: bv32, m: bv32, n: bv32 :: l < i ==> !CoversSpaced(v, l, m, n)
      decreases 8 - i
    {
      var j := i + 4;
      forall m: bv32, n: bv32 | AllSpaced(i, m, n) ensures j <= m { SpacedTriple(i, m, n); }
      while j < 12
        invariant i + 4 <= j <= 12 && em.code == old(em.code)
        invariant forall m: bv32, n: bv32 :: m < j ==> !CoversSpaced(v, i, m, n)
        decreases 12 - j
      {
        var k := if i < 4 then i + 12 else 15;
        forall n: bv32 | AllSpaced(i, j, n) ensures n <= k { SpacedTriple(i, j, n); }
        while k >= j + 4
          invariant i + 7 <= k <= i + 12 && k < 16 && em.code == old(em.code)
          invariant forall n: bv32 :: k < n ==> !CoversSpaced(v, i, j, n)
          decreases k
        {
          SpacedTriple(i, j, k);
          if CoverThree(v, i, j, k) {
            assert CoversSpaced(v, i, j, k);
            out := EmitThree(em, op, v, i, j, k);
            return true, out;
          }
          k := k - 1;
        }
        forall m: bv32, n: bv32 | m < j + 1 ensures !CoversSpaced(v, i, m, n) { SpacedTriple(i, m, n); }
        j := j + 1;
      }
      forall l: bv32, m: bv32, n: bv32 | l < i + 1 ensures !CoversSpaced(v, l, m, n) { SpacedTriple(l, m, n); }
      i := i + 1;
    }
    forall l: bv32, m: bv32, n: bv32 ensures !CoversSpaced(v, l, m, n) { SpacedTriple(l, m, n); }
    return false, [];
  }

  /** Subtracting the negated constant is adding the constant. */
  lemma NegatedComputes(code: seq<bv32>, op: bv32, v: bv32)
    requires Template(op) && IsAddSub(op) && Computes(code, NegOp(op), -v)
    ensures Computes(code, op, v)
  {
    hide AluResult, Opcode, Rn, Rd, Run, Template, Kind, NegOp, Flags;
    NegHead(op);
    NegOpcode(op);
    forall regs: Regs ensures ComputesFrom(code, op, v, regs) {
      assert ComputesFrom(code, NegOp(op), -v, regs);
      NegSums(regs(Rn(op)), v);
    }
  }

  lemma NegOpIsAddSub(op: bv32)
    requires Template(op) && IsAddSub(op)
    ensures Template(NegOp(op)) && IsAddSub(NegOp(op))
  {}

  /** stuff_const_harder: op with any constant v, in at most four instructions. */
  method StuffConstHarder(em: Emitter, op: bv32, v: bv32) returns (ghost out: seq<bv32>)
    requires Template(op) && IsAddSub(op)
    modifies em
    ensures em.code == old(em.code) + out && 1 <= |out| <= 4 && Computes(out, op, v)
    ensures |out| == if Expressible(op, v) then 1 else if TwoPieces(v) || TwoPieces(-v) then 2
                     else if ThreePieces(v) || ThreePieces(-v) then 3 else 4
  {
    hide Template, IsAddSub, Computes, Implements, Expressible, NegOp, AluDefined, TwoPieces, ThreePieces;
    var x := StuffConst(op, v);
    if x != 0 {
      em.O(x);
      AddSubDefined(op);
      OneComputes(x, op, v);
      return [x];
    }
    NegOpIsAddSub(op);
    var no := NegOp(op);
    var ok;
    ok, out := TryTwo(em, op, v);
    if ok { return; }
    ok, out := TryTwo(em, no, -v);
    if ok { NegatedComputes(out, op, v); return; }
    ok, out := TryThree(em, op, v);
    if ok { return; }
    ok, out := TryThree(em, no, -v);
    if ok { NegatedComputes(out, op, v); return; }
    out := EmitFour(em, op, v);
  }
}
