/** arm64_movimm: a 64-bit constant in one instruction, or in one per interesting half-word. */
module A64MovImm {
  import opened Wrappers
  import opened A64Bitmask
  import opened A64Words
  import opened A64Isa
  import opened A64Const
  import opened Emit

  /** Running the code from s leaves v in register r and changes nothing else. */
  ghost predicate SetsFrom(code: seq<bv32>, r: bv32, v: bv64, s: State)
  {
    match Run(code, s)
    case None => false
    case Some(t) => t.x(r) == v && t.sp == s.sp && forall k: bv32 | k != r :: t.x(k) == s.x(k)
  }

  ghost predicate Sets(code: seq<bv32>, r: bv32, v: bv64)
  {
    forall s: State :: SetsFrom(code, r, v, s)
  }

  lemma OneMoveSets(i: bv32, r: bv32, v: bv64)
    requires r < 31 && Loads(i, r, v)
    ensures Sets([i], r, v)
  {
    hide Decode, ConstantMove, MovedValue;
    forall s: State ensures SetsFrom([i], r, v, s) {
      MoveSteps(i, s);
      RunOne(i, s);
    }
  }

  lemma RunOne(i: bv32, s: State)
    ensures Run([i], s) == Step(i, s)
  {
    hide Step;
    assert [i][1..] == [];
  }

  // ----- half-words -----

  function Chunk(x: bv64, k: nat): bv64
    requires k < 4
  {
    match k
    case 0 => x & 0xffff
    case 1 => (x >> 16) & 0xffff
    case 2 => (x >> 32) & 0xffff
    case _ => x >> 48
  }

  function Hw(k: nat): bv32
    requires k < 4
  {
    match k case 0 => 0 case 1 => 1 case 2 => 2 case _ => 3
  }

  /** How many of the half-words from k on are zero. */
  function ZeroChunks(x: bv64, k: nat): (n: nat)
    requires k <= 4
    ensures n <= 4 - k
    decreases 4 - k
  {
    if k == 4 then 0 else (if Chunk(x, k) == 0 then 1 else 0) + ZeroChunks(x, k + 1)
  }

  function Below(k: nat): bv64
    requires k <= 4
  {
    match k case 0 => 0 case 1 => 0xffff case 2 => 0xffff_ffff case 3 => 0xffff_ffff_ffff case _ => 0xffff_ffff_ffff_ffff
  }

  /** The half-words of x below k, over all zeros or all ones. */
  function Partial(x: bv64, neg: bool, k: nat): bv64
    requires k <= 4
  {
    Keep(x, Below(k), neg)
  }

  function Keep(x: bv64, b: bv64, neg: bool): bv64 { if neg then Filled(x, Inverted(b)) else Select(x, b) }

  function Filled(x: bv64, f: bv64): bv64 { x | f }

  function Cut(f: bv64, m: bv64): bv64 { f & !m }

  function Source(x: bv64, neg: bool): bv64 { if neg then !x else x }

  lemma PartialEnds(x: bv64, neg: bool)
    ensures Partial(x, neg, 4) == x
  {}

  function ChunkMask(k: nat): bv64
    requires k < 4
  {
    match k case 0 => 0xffff case 1 => 0xffff_0000 case 2 => 0xffff_0000_0000 case _ => 0xffff_0000_0000_0000
  }

  function Select(x: bv64, m: bv64): bv64 { x & m }

  lemma InPlace(x: bv64)
    ensures HalfWord(Chunk(x, 0), 0) == Select(x, 0xffff)
    ensures HalfWord(Chunk(x, 1), 1) == Select(x, 0xffff_0000)
    ensures HalfWord(Chunk(x, 2), 2) == Select(x, 0xffff_0000_0000)
    ensures HalfWord(Chunk(x, 3), 3) == Select(x, 0xffff_0000_0000_0000)
  {}

  lemma InPlaceZero(x: bv64)
    ensures Chunk(x, 0) == 0 <==> Select(x, 0xffff) == 0
    ensures Chunk(x, 1) == 0 <==> Select(x, 0xffff_0000) == 0
    ensures Chunk(x, 2) == 0 <==> Select(x, 0xffff_0000_0000) == 0
    ensures Chunk(x, 3) == 0 <==> Select(x, 0xffff_0000_0000_0000) == 0
  {}

  lemma FullHalfWord(k: nat)
    requires k < 4
    ensures HalfWord(0xffff, Hw(k)) == ChunkMask(k)
  {}

  lemma ChunkInPlace(x: bv64, k: nat)
    requires k < 4
    ensures HalfWord(Chunk(x, k), Hw(k)) == Select(x, ChunkMask(k))
    ensures HalfWord(0xffff, Hw(k)) == ChunkMask(k)
  {
    FullHalfWord(k);
    hide HalfWord, Chunk, Select;
    InPlace(x);
    match k case 0 => case 1 => case 2 => case _ => assert k == 3;
  }

  lemma ChunkZero(x: bv64, k: nat)
    requires k < 4
    ensures Chunk(x, k) == 0 <==> Select(x, ChunkMask(k)) == 0
  {
    hide Chunk, Select;
    InPlaceZero(x);
    match k case 0 => case 1 => case 2 => case _ => assert k == 3;
  }

  lemma ChunkSmall(x: bv64, k: nat)
    requires k < 4
    ensures Chunk(x, k) <= 0xffff
  {}

  /** b2 is b together with the disjoint bits m. */
  predicate Extends(b: bv64, m: bv64, b2: bv64) { b2 == b | m && b & m == 0 }

  lemma BelowGrows(k: nat)
    requires k < 4
    ensures Extends(Below(k), ChunkMask(k), Below(k + 1))
  {}

  lemma SkipZeros(x: bv64, b: bv64, m: bv64, b2: bv64)
    requires Extends(b, m, b2) && Select(x, m) == 0
    ensures Keep(x, b2, false) == Keep(x, b, false)
  {}

  lemma SkipOnes(x: bv64, b: bv64, m: bv64, b2: bv64)
    requires Extends(b, m, b2) && Select(!x, m) == 0
    ensures Keep(x, b2, true) == Keep(x, b, true)
  {}

  lemma InsertIntoZeros(x: bv64, b: bv64, m: bv64, b2: bv64)
    requires Extends(b, m, b2)
    ensures Inserted(Keep(x, b, false), m, Select(x, m)) == Keep(x, b2, false)
  {}

  lemma InsertIntoOnes(x: bv64, b: bv64, m: bv64, b2: bv64)
    requires Extends(b, m, b2)
    ensures Inserted(Keep(x, b, true), m, Select(x, m)) == Keep(x, b2, true)
  {
    hide Extends, Inserted, Inverted, Select, Filled, Cut;
    InvertExtended(b, m, b2);
    InsertAnywhere(x, Inverted(b), m, Filled(x, Inverted(b)), Select(x, m), Cut(Inverted(b), m));
  }

  lemma InvertExtended(b: bv64, m: bv64, b2: bv64)
    requires Extends(b, m, b2)
    ensures Inverted(b2) == Cut(Inverted(b), m)
  {}

  lemma InsertAnywhere(x: bv64, f: bv64, m: bv64, v: bv64, c: bv64, w: bv64)
    requires v == Filled(x, f) && c == Select(x, m) && w == Cut(f, m)
    ensures Inserted(v, m, c) == Filled(x, w)
  {}

  lemma FirstZeros(x: bv64, b: bv64, m: bv64, b2: bv64)
    requires Extends(b, m, b2) && Keep(x, b, false) == 0
    ensures Select(x, m) == Keep(x, b2, false)
  {}

  lemma FirstOnes(x: bv64, b: bv64, m: bv64, b2: bv64)
    requires Extends(b, m, b2) && Keep(x, b, true) == 0xffff_ffff_ffff_ffff
    ensures Inverted(Select(!x, m)) == Keep(x, b2, true)
  {
    hide Extends, Inverted, Select, Filled, Cut;
    InvertExtended(b, m, b2);
    InvertSelected(x, Inverted(b), m);
  }

  lemma InvertSelected(x: bv64, f: bv64, m: bv64)
    requires Filled(x, f) == 0xffff_ffff_ffff_ffff
    ensures Inverted(Select(!x, m)) == Filled(x, Cut(f, m))
  {
    hide Inverted, Select, Filled, Cut;
    DeMorgan(x, m);
    FillAnyway(x, f, m);
  }

  lemma DeMorgan(x: bv64, m: bv64)
    ensures Inverted(Select(!x, m)) == Filled(x, Inverted(m))
  {
    NotAnd(x, m, (!x) & m);
  }

  lemma NotAnd(x: bv64, m: bv64, s: bv64)
    requires s == (!x) & m
    ensures !s == x | !m
  {}

  lemma FillAnyway(x: bv64, f: bv64, m: bv64)
    requires Filled(x, f) == 0xffff_ffff_ffff_ffff
    ensures Filled(x, Cut(f, m)) == Filled(x, Inverted(m))
  {}

  lemma SkipChunk(x: bv64, neg: bool, k: nat)
    requires k < 4 && Chunk(Source(x, neg), k) == 0
    ensures Partial(x, neg, k + 1) == Partial(x, neg, k)
  {
    hide Chunk, ChunkMask, Below, Hw, HalfWord, Keep, Select, Extends;
    ChunkZero(Source(x, neg), k);
    BelowGrows(k);
    if neg {
      SkipOnes(x, Below(k), ChunkMask(k), Below(k + 1));
    } else {
      SkipZeros(x, Below(k), ChunkMask(k), Below(k + 1));
    }
  }

  lemma MovkChunk(x: bv64, neg: bool, k: nat)
    requires k < 4
    ensures MovWideValue(3, Hw(k), Chunk(x, k), Partial(x, neg, k)) == Partial(x, neg, k + 1)
  {
    hide Chunk, ChunkMask, Below, Hw, HalfWord, Keep, Select, Extends, Inserted, Inverted;
    ChunkInPlace(x, k);
    BelowGrows(k);
    if neg {
      InsertIntoOnes(x, Below(k), ChunkMask(k), Below(k + 1));
    } else {
      InsertIntoZeros(x, Below(k), ChunkMask(k), Below(k + 1));
    }
  }

  lemma FirstChunk(x: bv64, neg: bool, k: nat)
    requires k < 4 && Partial(x, neg, k) == Partial(x, neg, 0)
    ensures MovWideValue(if neg then 0 else 2, Hw(k), Chunk(Source(x, neg), k), 0) == Partial(x, neg, k + 1)
  {
    Unchanged(x, neg);
    hide Chunk, ChunkMask, Below, Hw, HalfWord, Keep, Select, Extends, Inserted, Inverted;
    ChunkInPlace(Source(x, neg), k);
    BelowGrows(k);
    if neg {
      FirstOnes(x, Below(k), ChunkMask(k), Below(k + 1));
    } else {
      FirstZeros(x, Below(k), ChunkMask(k), Below(k + 1));
    }
  }

  lemma Unchanged(x: bv64, neg: bool)
    ensures Partial(x, neg, 0) == if neg then 0xffff_ffff_ffff_ffff else 0
  {}

  // ----- the sequence -----

  function First(neg: bool, r: bv32, k: nat, c: bv64): bv32
    requires k < 4 && c <= 0xffff
  {
    (if neg then 0x92800000 else 0xd2800000) | r | ((c as bv32) << 5) | (Hw(k) << 21)
  }

  function Movk(r: bv32, k: nat, c: bv64): bv32
    requires k < 4 && c <= 0xffff
  {
    0xf2800000 | r | ((c as bv32) << 5) | (Hw(k) << 21)
  }

  lemma WideWord(opcode: bv32, r: bv32, hw: bv32, c: bv64)
    requires r < 31 && hw <= 3 && c <= 0xffff
    requires opcode == 0x92800000 || opcode == 0xd2800000 || opcode == 0xf2800000
    ensures Decode(opcode | r | ((c as bv32) << 5) | (hw << 21)) ==
            MovWide(true, if opcode == 0x92800000 then 0 else if opcode == 0xd2800000 then 2 else 3, hw, c, r)
  {}

  lemma HwSmall(k: nat)
    requires k < 4
    ensures Hw(k) <= 3
  {}

  lemma FirstSets(x: bv64, neg: bool, r: bv32, k: nat)
    requires r < 31 && k < 4 && Partial(x, neg, k) == Partial(x, neg, 0) && Chunk(Source(x, neg), k) <= 0xffff
    ensures Sets([First(neg, r, k, Chunk(Source(x, neg), k))], r, Partial(x, neg, k + 1))
  {
    hide Decode, Chunk, Source, Partial, Hw, MovWideValue, Sets;
    var c := Chunk(Source(x, neg), k);
    HwSmall(k);
    WideWord(if neg then 0x92800000 else 0xd2800000, r, Hw(k), c);
    FirstChunk(x, neg, k);
    OneMoveSets(First(neg, r, k, c), r, Partial(x, neg, k + 1));
  }

  lemma MovkStep(x: bv64, r: bv32, hw: bv32, c: bv64, i: bv32, s: State)
    requires r < 31 && Decode(i) == MovWide(true, 3, hw, c, r)
    ensures Step(i, s) == Some(Write(s, r, MovWideValue(3, hw, c, s.x(r))))
  {
    hide Decode, MovWideValue, Write;
  }

  lemma MovkSets(code: seq<bv32>, x: bv64, neg: bool, r: bv32, k: nat)
    requires r < 31 && k < 4 && Chunk(x, k) <= 0xffff && Sets(code, r, Partial(x, neg, k))
    ensures Sets(code + [Movk(r, k, Chunk(x, k))], r, Partial(x, neg, k + 1))
  {
    hide Decode, Chunk, Partial, Hw, MovWideValue, Step;
    var i := Movk(r, k, Chunk(x, k));
    HwSmall(k);
    WideWord(0xf2800000, r, Hw(k), Chunk(x, k));
    MovkChunk(x, neg, k);
    var code', v' := code + [i], Partial(x, neg, k + 1);
    forall s: State ensures SetsFrom(code', r, v', s) {
      assert SetsFrom(code, r, Partial(x, neg, k), s);
      RunConcat(code, [i], s);
      var t := Run(code, s).value;
      RunOne(i, t);
      MovkStep(x, r, Hw(k), Chunk(x, k), i, t);
    }
  }

  /** How many instructions arm64_movimm needs beyond one. */
  function Nonzero(x: bv64, k: nat): nat
    requires k <= 4
  {
    4 - k - ZeroChunks(x, k)
  }

  function Max(a: nat, b: nat): nat { if a > b then a else b }

  lemma OneChunkLeft(x: bv64)
    ensures Chunk(x, 1) == 0 && Chunk(x, 2) == 0 && Chunk(x, 3) == 0 ==> ZeroOutside(x, 0xffff)
    ensures Chunk(x, 0) == 0 && Chunk(x, 2) == 0 && Chunk(x, 3) == 0 ==> ZeroOutside(x, 0xffff_0000)
    ensures Chunk(x, 0) == 0 && Chunk(x, 1) == 0 && Chunk(x, 3) == 0 ==> ZeroOutside(x, 0xffff_0000_0000)
    ensures Chunk(x, 0) == 0 && Chunk(x, 1) == 0 && Chunk(x, 2) == 0 ==> ZeroOutside(x, 0xffff_0000_0000_0000)
  {}

  lemma OnesAsZeros(x: bv64, m: bv64)
    ensures OnesOutside(x, m) <==> ZeroOutside(!x, m)
  {}

  /** When no single MOVZ or MOVN does, at least two half-words must be written. */
  lemma AtLeastTwo(x: bv64, neg: bool)
    requires NotWide(x)
    ensures Nonzero(Source(x, neg), 0) >= 2
  {
    hide Chunk, ZeroOutside, OnesOutside, IsOutside;
    if neg {
      OnesAsZeros(x, 0xffff);
      OnesAsZeros(x, 0xffff_0000);
      OnesAsZeros(x, 0xffff_0000_0000);
      OnesAsZeros(x, 0xffff_0000_0000_0000);
    }
    var y := Source(x, neg);
    OneChunkLeft(y);
    assert ZeroChunks(y, 0) == (if Chunk(y, 0) == 0 then 1 else 0) + (if Chunk(y, 1) == 0 then 1 else 0) + ZeroChunks(y, 2);
  }

  method CountHalfWords(x: bv64) returns (z: nat, m: nat)
    ensures z == ZeroChunks(x, 0) && m == ZeroChunks(!x, 0)
  {
    hide Chunk;
    z, m := 0, 0;
    for k := 0 to 4
      invariant z + ZeroChunks(x, k) == ZeroChunks(x, 0)
      invariant m + ZeroChunks(!x, k) == ZeroChunks(!x, 0)
    {
      if Chunk(x, k) == 0 { z := z + 1; }
      if Chunk(!x, k) == 0 { m := m + 1; }
    }
  }

  /** arm64_movimm. */
  method MovImm(em: Emitter, r: bv32, x: bv64) returns (ghost out: seq<bv32>)
    requires r < 31
    modifies em
    ensures em.code == old(em.code) + out
    ensures Sets(out, r, x)
    ensures |out| == 1 || |out| == 4 - Max(ZeroChunks(x, 0), ZeroChunks(!x, 0))
    ensures |out| == 1 <==> exists i :: ConstantMove(i) && MovedValue(i) == Some(x)
  {
    hide *;
    var i := MovI(r, x);
    if i != 0 {
      em.O(i);
      OneMoveSets(i, r, x);
      out := [i];
      LoadsMeans(i, r, x);
      return;
    }
    out := MoveChunks(em, r, x);
  }

  method MoveChunks(em: Emitter, r: bv32, x: bv64) returns (ghost out: seq<bv32>)
    requires r < 31 && NotWide(x)
    modifies em
    ensures em.code == old(em.code) + out
    ensures Sets(out, r, x)
    ensures 1 < |out| == 4 - Max(ZeroChunks(x, 0), ZeroChunks(!x, 0))
  {
    var z, m := CountHalfWords(x);
    var neg := m > z;
    hide Chunk, Partial, Source, First, Movk, Sets, NotWide, ZeroChunks;
    var x1 := Source(x, neg);
    var k := 0;
    while k < 4 && Chunk(x1, k) == 0
      invariant 0 <= k <= 4
      invariant em.code == old(em.code)
      invariant Partial(x, neg, k) == Partial(x, neg, 0)
      invariant Nonzero(x1, k) == Nonzero(x1, 0)
    {
      SkipChunk(x, neg, k);
      CountStep(x1, k);
      k := k + 1;
    }
    AtLeastTwo(x, neg);
    CountStep(x1, k);
    ChunkSmall(x1, k);
    em.O(First(neg, r, k, Chunk(x1, k)));
    FirstSets(x, neg, r, k);
    out := [First(neg, r, k, Chunk(x1, k))];
    k := k + 1;
    while k < 4
      invariant 0 <= k <= 4
      invariant em.code == old(em.code) + out
      invariant Sets(out, r, Partial(x, neg, k))
      invariant |out| + Nonzero(x1, k) == Nonzero(x1, 0)
    {
      CountStep(x1, k);
      if Chunk(x1, k) == 0 {
        SkipChunk(x, neg, k);
      } else {
        ChunkSmall(x, k);
        em.O(Movk(r, k, Chunk(x, k)));
        MovkSets(out, x, neg, r, k);
        out := out + [Movk(r, k, Chunk(x, k))];
      }
      k := k + 1;
    }
    PartialEnds(x, neg);
    assert Nonzero(x1, 0) == 4 - Max(z, m) by { SourceCounts(x, neg); }
  }

  lemma CountStep(x: bv64, k: nat)
    requires k < 4
    ensures Nonzero(x, k) == (if Chunk(x, k) == 0 then 0 else 1) + Nonzero(x, k + 1) && Nonzero(x, 4) == 0
  {
    hide Chunk;
  }

  lemma SourceCounts(x: bv64, neg: bool)
    ensures Source(x, neg) == if neg then !x else x
  {}

  lemma LoadsMeans(i: bv32, r: bv32, x: bv64)
    requires Loads(i, r, x)
    ensures ConstantMove(i) && MovedValue(i) == Some(x)
  {}
}
