/** arm64_pcs_aux: where each argument of a call goes, and where the callee's prologue keeps it. */
module A64Params {
  import opened Arith
  import opened Wrappers

  /** Argument types by what the placement looks at; arrays have decayed to pointers. */
  datatype CType =
    | Scalar(bytes: nat)        // integers up to 8 bytes, pointers and functions
    | QuadInt                   // 16-byte integer, aligned to 8
    | Float | Double | LongDouble | QuadFloat
    | Composite(bytes: nat, alignment: nat, hfa: nat)   // hfa: members of a homogeneous float aggregate, or 0

  predicate ValidType(t: CType)
  {
    match t
    case Scalar(n) => n == 1 || n == 2 || n == 4 || n == 8
    case Composite(n, al, h) => (al == 1 || al == 2 || al == 4 || al == 8 || al == 16) && n % al == 0 && h <= 4 && (h > 0 ==> 0 < n <= 16 * h)
    case _ => true
  }

  function Size(t: CType): nat
  {
    match t
    case Scalar(n) => n
    case Float => 4
    case Double => 8
    case Composite(n, _, _) => n
    case _ => 16
  }

  function Align(t: CType): nat
  {
    match t
    case Scalar(n) => n
    case Float => 4
    case LongDouble => 16
    case Composite(_, al, _) => al
    case _ => 8
  }

  function Hfa(t: CType): nat { if t.Composite? then t.hfa else 0 }

  predicate IsFloat(t: CType) { t.Float? || t.Double? || t.LongDouble? || t.QuadFloat? }

  // ----- the procedure call standard, class by class -----

  /** Next general register, next vector register, next stack offset (stack offsets start at 32). */
  datatype Counters = Counters(nx: nat, nv: nat, ns: nat)

  const START := Counters(0, 0, 32)

  predicate InVectors(t: CType) { IsFloat(t) || Hfa(t) > 0 }

  predicate ByReference(t: CType) { !InVectors(t) && Size(t) > 16 }

  /** Registers of its class that the argument fills. */
  function Registers(t: CType): nat
  {
    if IsFloat(t) then 1 else if Hfa(t) > 0 then Hfa(t) else if ByReference(t) then 1 else CeilDiv(Size(t), 8)
  }

  /** Bytes of stack it takes when it does not go in registers. */
  function StackBytes(t: CType): nat
  {
    if ByReference(t) then 8 else RoundUp(Size(t), 8)
  }

  /** General register from which a wide argument may start. */
  function FirstRegister(t: CType, nx: nat): nat
  {
    if !ByReference(t) && Align(t) == 16 then RoundUp(nx, 2) else nx
  }

  function StackAlign(t: CType): nat { if !ByReference(t) && Align(t) == 16 then 16 else 8 }

  /** A vector argument in n registers, or at the given stack offset. */
  function PlaceVector(c: Counters, n: nat, spill: nat, bytes: nat): (nat, Counters)
  {
    if c.nv + n <= 8 then (16 + 2 * c.nv, c.(nv := c.nv + n)) else (spill, c.(nv := 8, ns := spill + bytes))
  }

  /** A general argument in n registers from first on, or at the given stack offset; odd marks a pointer to it. */
  function PlaceWords(c: Counters, first: nat, n: nat, odd: nat, spill: nat, bytes: nat): (nat, Counters)
  {
    if first + n <= 8 then (2 * first + odd, c.(nx := first + n)) else (spill + odd, c.(nx := 8, ns := spill + bytes))
  }

  /** The rule for one argument: registers of its class if all of it fits, else the stack and that class is closed. */
  function Place(c: Counters, t: CType): (nat, Counters)
  {
    var spill := RoundUp(c.ns, StackAlign(t));
    if InVectors(t) then PlaceVector(c, Registers(t), spill, StackBytes(t))
    else PlaceWords(c, FirstRegister(t, c.nx), Registers(t), if ByReference(t) then 1 else 0, spill, StackBytes(t))
  }

  predicate Wf(c: Counters) { c.nx <= 8 && c.nv <= 8 && c.ns >= 32 && c.ns % 8 == 0 }

  function Run(c: Counters, ts: seq<CType>): (a: seq<nat>)
    ensures |a| == |ts|
    decreases |ts|
  {
    if ts == [] then [] else [Place(c, ts[0]).0] + Run(Place(c, ts[0]).1, ts[1..])
  }

  function End(c: Counters, ts: seq<CType>): Counters
    decreases |ts|
  {
    if ts == [] then c else End(Place(c, ts[0]).1, ts[1..])
  }

  // ----- the source's stages -----

  lemma Rounding(n: nat, u: nat)
    requires u == 2 || u == 8 || u == 16
    ensures n <= RoundUp(n, u) < n + u && RoundUp(n, u) % u == 0
    ensures n % u == 0 ==> RoundUp(n, u) == n
  {
    hide RoundUp;
    RoundUpBounds(n, u);
    RoundedMultiple(n, u);
  }

  lemma SixteenIsEight(n: nat)
    ensures RoundUp(n, 16) % 8 == 0 && n <= RoundUp(n, 16)
  {
    hide RoundUp;
    Rounding(n, 16);
  }

  lemma SizeFacts(s: nat)
    ensures RoundUp(s, 8) == 8 * CeilDiv(s, 8) && (RoundUp(s, 8) + 7) / 8 == CeilDiv(s, 8)
    ensures (s == 0 <==> CeilDiv(s, 8) == 0) && (1 <= s <= 8 <==> CeilDiv(s, 8) == 1) && (s == 16 ==> CeilDiv(s, 8) == 2)
  {}

  /** Rounding a multiple of 8 up to a smaller alignment changes nothing. */
  lemma AlreadyAligned(ns: nat, al: nat)
    requires al == 1 || al == 2 || al == 4 || al == 8
    requires ns % 8 == 0
    ensures RoundUp(ns, al) == ns
  {
    var k := ns / 8;
    var j := 8 / al;
    assert ns == k * j * al by { assert ns == k * (j * al) == k * j * al; }
    CeilUnique(ns, al, k * j);
  }

  /** One turn of arm64_pcs_aux's loop. */
  method PlaceOne(t: CType, nx0: nat, nv0: nat, ns0: nat) returns (p: nat, nx: nat, nv: nat, ns: nat)
    requires ValidType(t) && Wf(Counters(nx0, nv0, ns0))
    ensures (p, Counters(nx, nv, ns)) == Place(Counters(nx0, nv0, ns0), t)
    ensures Wf(Counters(nx, nv, ns))
  {
    assert Wf(Counters(nx0, nv0, ns0)) ==> nx0 <= 8 && nv0 <= 8 && ns0 >= 32 && ns0 % 8 == 0;
    hide RoundUp, CeilDiv, Wf;
    nx, nv, ns := nx0, nv0, ns0;
    SpillCloses(Counters(nx0, nv0, ns0), t);
    Rounding(ns, 8);
    SixteenIsEight(ns);
    SizeFacts(Size(t));
    if Align(t) != 16 { AlreadyAligned(ns, Align(t)); }
    var hfa := Hfa(t);
    var size, align := Size(t), Align(t);
    if hfa > 0 {
      // B.2
    } else if size > 16 {
      // B.3
      if nx < 8 {
        p := 2 * nx + 1;
        nx := nx + 1;
      } else {
        ns := RoundUp(ns, 8);
        p := ns + 1;
        ns := ns + 8;
      }
      return;
    } else if t.Composite? {
      // B.4
      size := RoundUp(size, 8);
    }
    // C.1
    if IsFloat(t) && nv < 8 {
      p := 16 + 2 * nv;
      nv := nv + 1;
      return;
    }
    // C.2
    if hfa > 0 && nv + hfa <= 8 {
      p := 16 + 2 * nv;
      nv := nv + hfa;
      return;
    }
    // C.3
    if hfa > 0 {
      nv := 8;
      size := RoundUp(size, 8);
    }
    // C.4
    if hfa > 0 || t.LongDouble? {
      ns := RoundUp(RoundUp(ns, 8), align);
    }
    // C.5
    if t.Float? { size := 8; }
    // C.6
    if hfa > 0 || IsFloat(t) {
      p := ns;
      ns := ns + size;
      return;
    }
    p, nx, nv, ns := PlaceGeneral(t, size, nx, nv, ns);
  }

  /** The stages from C.7 on: the argument is neither floating-point nor passed by reference. */
  method PlaceGeneral(t: CType, rounded: nat, nx0: nat, nv0: nat, ns0: nat) returns (p: nat, nx: nat, nv: nat, ns: nat)
    requires ValidType(t) && Wf(Counters(nx0, nv0, ns0)) && !InVectors(t) && !ByReference(t)
    requires rounded == if t.Composite? then RoundUp(Size(t), 8) else Size(t)
    ensures (p, Counters(nx, nv, ns)) == Place(Counters(nx0, nv0, ns0), t)
    ensures Wf(Counters(nx, nv, ns))
  {
    hide RoundUp, CeilDiv;
    nx, nv, ns := nx0, nv0, ns0;
    var size, align := rounded, Align(t);
    Rounding(ns, 8);
    SixteenIsEight(ns);
    SizeFacts(Size(t));
    if align != 16 { AlreadyAligned(ns, align); }
    // C.7
    if !t.Composite? && size <= 8 && nx < 8 {
      p := 2 * nx;
      nx := nx + 1;
      return;
    }
    // C.8
    if align == 16 {
      Rounding(nx, 2);
      nx := RoundUp(nx, 2);
    }
    // C.9
    if !t.Composite? && size == 16 && nx < 7 {
      p := 2 * nx;
      nx := nx + 2;
      return;
    }
    // C.10
    if t.Composite? && size <= (8 - nx) * 8 {
      p := 2 * nx;
      nx := nx + (size + 7) / 8;
      return;
    }
    // C.11
    nx := 8;
    // C.12
    ns := RoundUp(RoundUp(ns, 8), align);
    // C.13
    if t.Composite? {
      p := ns;
      ns := ns + size;
      return;
    }
    // C.14
    if size < 8 { size := 8; }
    // C.15
    p := ns;
    ns := ns + size;
  }

  /** arm64_pcs_aux: the placement of every argument, and the stack they take. */
  method PcsAux(ts: seq<CType>, a: array<nat>) returns (stack: nat)
    requires a.Length >= |ts| && forall t | t in ts :: ValidType(t)
    modifies a
    ensures a[..|ts|] == Run(START, ts) && a[|ts|..] == old(a[|ts|..])
    ensures stack == End(START, ts).ns - 32 && stack % 8 == 0
  {
    hide Place, ValidType;
    var nx, nv, ns := 0, 0, 32;
    assert ts[0..] == ts;
    for i := 0 to |ts|
      invariant Wf(Counters(nx, nv, ns)) && End(START, ts) == End(Counters(nx, nv, ns), ts[i..])
      invariant Run(START, ts) == a[..i] + Run(Counters(nx, nv, ns), ts[i..]) && a[|ts|..] == old(a[|ts|..])
    {
      var p;
      p, nx, nv, ns := PlaceOne(ts[i], nx, nv, ns);
      assert ts[i..][1..] == ts[i + 1..];
      a[i] := p;
      assert a[..i + 1] == a[..i] + [p];
    }
    stack := ns - 32;
  }

  // ----- no two arguments share a register or a stack byte -----

  /** General registers are cells 0 to 7, vector registers cells 8 to 15, stack bytes cells from 32. */
  function FirstCell(a: nat): nat { if a < 32 then a / 2 else a - a % 2 }

  function Cells(t: CType, a: nat): nat { if a < 32 then Registers(t) else StackBytes(t) }

  predicate Uses(t: CType, a: nat, x: nat) { FirstCell(a) <= x < FirstCell(a) + Cells(t, a) }

  /** The cells still free. */
  predicate Free(c: Counters, x: nat)
  {
    c.nx <= x < 8 || 8 + c.nv <= x < 16 || c.ns <= x
  }

  /** Argument t went from counters c to d into the cells of a: those from its class's counter up,
      or an aligned stretch of stack that closes the class. */
  predicate Placed(c: Counters, t: CType, a: nat, d: Counters)
  {
    var lo, n := FirstCell(a), Cells(t, a);
    Wf(d) &&
    (a >= 32 ==>
       c.ns <= lo && lo + n == d.ns && lo % StackAlign(t) == 0 &&
       if InVectors(t) then d.nv == 8 && d.nx == c.nx else d.nx == 8 && d.nv == c.nv) &&
    (a < 32 ==>
       d.ns == c.ns && n == Registers(t) &&
       if InVectors(t) then lo == 8 + c.nv && lo + n == 8 + d.nv && d.nx == c.nx
       else c.nx <= lo && lo + n == d.nx && d.nv == c.nv)
  }

  lemma PlaceCells(c: Counters, t: CType)
    requires Wf(c) && ValidType(t)
    ensures Placed(c, t, Place(c, t).0, Place(c, t).1)
  {
    if InVectors(t) { VectorCells(c, t); } else { WordCells(c, t); }
  }

  lemma VectorCells(c: Counters, t: CType)
    requires Wf(c) && ValidType(t) && InVectors(t)
    ensures Placed(c, t, Place(c, t).0, Place(c, t).1)
  {
    hide RoundUp, StackBytes, StackAlign, Registers, FirstRegister, InVectors, ByReference, ValidType, PlaceVector, PlaceWords, FirstCell;
    StackFacts(c.ns, t);
    RegistersSmall(t);
    AlignPositive(t);
    VectorPlaced(c, Registers(t), RoundUp(c.ns, StackAlign(t)), StackBytes(t));
  }

  lemma AlignPositive(t: CType)
    ensures StackAlign(t) > 0
  {}

  lemma CellNumbers(r: nat, odd: nat, spill: nat)
    requires odd < 2 && spill % 8 == 0
    ensures r < 16 ==> 2 * r + odd < 32 && FirstCell(2 * r + odd) == r
    ensures spill >= 32 ==> FirstCell(spill + odd) == spill
  {}

  lemma VectorPlaced(c: Counters, n: nat, spill: nat, bytes: nat)
    requires spill % 8 == 0 && spill >= 32 && n >= 1
    ensures var (a, d) := PlaceVector(c, n, spill, bytes);
      if c.nv + n <= 8 then a < 32 && FirstCell(a) == 8 + c.nv && d == c.(nv := c.nv + n)
      else a >= 32 && FirstCell(a) == spill && d == c.(nv := 8, ns := spill + bytes)
  {
    hide FirstCell;
    CellNumbers(8 + c.nv, 0, spill);
  }

  lemma WordsPlaced(c: Counters, first: nat, n: nat, odd: nat, spill: nat, bytes: nat)
    requires odd < 2 && spill % 8 == 0 && spill >= 32
    ensures var (a, d) := PlaceWords(c, first, n, odd, spill, bytes);
      if first + n <= 8 then a < 32 && FirstCell(a) == first && d == c.(nx := first + n)
      else a >= 32 && FirstCell(a) == spill && d == c.(nx := 8, ns := spill + bytes)
  {
    hide FirstCell;
    CellNumbers(first, odd, spill);
  }

  lemma WordCells(c: Counters, t: CType)
    requires Wf(c) && ValidType(t) && !InVectors(t)
    ensures Placed(c, t, Place(c, t).0, Place(c, t).1)
  {
    hide RoundUp, StackBytes, StackAlign, Registers, FirstRegister, InVectors, ByReference, ValidType, PlaceVector, PlaceWords, FirstCell;
    StackFacts(c.ns, t);
    FirstNotBelow(t, c.nx);
    AlignPositive(t);
    WordsPlaced(c, FirstRegister(t, c.nx), Registers(t), if ByReference(t) then 1 else 0, RoundUp(c.ns, StackAlign(t)), StackBytes(t));
  }

  lemma FirstNotBelow(t: CType, nx: nat)
    ensures nx <= FirstRegister(t, nx)
  {
    hide RoundUp;
    Rounding(nx, 2);
  }

  lemma StackFacts(ns: nat, t: CType)
    requires ns % 8 == 0
    ensures var spill := RoundUp(ns, StackAlign(t));
            ns <= spill && spill % StackAlign(t) == 0 && spill % 8 == 0 && StackBytes(t) % 8 == 0
  {
    hide CeilDiv, RoundUp, Size;
    Rounding(ns, 8);
    Rounding(ns, 16);
    SixteenIsEight(ns);
    Rounding(Size(t), 8);
  }

  lemma RegistersSmall(t: CType)
    requires ValidType(t)
    ensures InVectors(t) ==> Registers(t) >= 1
  {}

  lemma PlaceApart(c: Counters, t: CType)
    requires Wf(c) && ValidType(t)
    ensures var (a, d) := Place(c, t);
            Wf(d) && forall x | Uses(t, a, x) || Free(d, x) :: Free(c, x) && !(Uses(t, a, x) && Free(d, x))
  {
    hide Place, StackAlign, Registers, InVectors, StackBytes;
    PlaceCells(c, t);
  }

  lemma {:induction false} AllFree(c: Counters, ts: seq<CType>, i: nat, x: nat)
    requires Wf(c) && (forall t | t in ts :: ValidType(t)) && i < |ts| && Uses(ts[i], Run(c, ts)[i], x)
    ensures Free(c, x)
    decreases i
  {
    hide Place, Uses, Free;
    PlaceApart(c, ts[0]);
    if i == 0 {
    } else {
      AllFree(Place(c, ts[0]).1, ts[1..], i - 1, x);
    }
  }

  /** No register and no stack byte belongs to two arguments. */
  lemma {:induction false} ArgumentsApart(c: Counters, ts: seq<CType>, i: nat, j: nat, x: nat)
    requires Wf(c) && (forall t | t in ts :: ValidType(t)) && i < j < |ts|
    ensures !(Uses(ts[i], Run(c, ts)[i], x) && Uses(ts[j], Run(c, ts)[j], x))
    decreases i
  {
    hide Place, Uses, Free;
    PlaceApart(c, ts[0]);
    var d := Place(c, ts[0]).1;
    if i == 0 {
      if Uses(ts[j], Run(c, ts)[j], x) { AllFree(d, ts[1..], j - 1, x); }
    } else {
      ArgumentsApart(d, ts[1..], i - 1, j - 1, x);
    }
  }

  // ----- where an argument starts -----

  /** An argument of 16-byte alignment that is passed by value. */
  predicate IsWide(t: CType) { Align(t) == 16 && (Size(t) <= 16 || InVectors(t)) }

  lemma EvenUp(n: nat)
    ensures RoundUp(n, 2) == if n % 2 == 1 then n + 1 else n
  {}

  lemma SixteenUp(n: nat)
    requires n % 8 == 0
    ensures RoundUp(n, 8) == n && RoundUp(n, 16) == if n % 16 == 8 then n + 8 else n
  {}

  /** The first free register, or the next even one for a wide argument, if enough registers follow it; otherwise the first
      free stack offset, or the next multiple of 16. */
  lemma StartsAt(c: Counters, t: CType)
    requires Wf(c) && ValidType(t)
    ensures var a := Place(c, t).0;
      var first := if IsWide(t) && c.nx % 2 == 1 then c.nx + 1 else c.nx;
      (a < 32 <==> if InVectors(t) then c.nv + Registers(t) <= 8 else first + Registers(t) <= 8) &&
      (a < 32 ==> FirstCell(a) == if InVectors(t) then 8 + c.nv else first) &&
      (a >= 32 ==> FirstCell(a) == if IsWide(t) && c.ns % 16 == 8 then c.ns + 8 else c.ns)
  {
    hide RoundUp, StackBytes, Registers, FirstCell, PlaceVector, PlaceWords, Size, Align;
    EvenUp(c.nx);
    SixteenUp(c.ns);
    var spill, odd := RoundUp(c.ns, StackAlign(t)), if ByReference(t) then 1 else 0;
    if InVectors(t) {
      RegistersSmall(t);
      VectorPlaced(c, Registers(t), spill, StackBytes(t));
    } else {
      WordsPlaced(c, FirstRegister(t, c.nx), Registers(t), odd, spill, StackBytes(t));
    }
  }

  /** In every argument list: a wide argument starts at an even general register, or at a multiple of 16 of the stack. */
  lemma {:induction false} WideAligned(c: Counters, ts: seq<CType>, i: nat)
    requires Wf(c) && (forall t | t in ts :: ValidType(t)) && i < |ts| && IsWide(ts[i])
    ensures Run(c, ts)[i] >= 32 ==> FirstCell(Run(c, ts)[i]) % 16 == 0
    ensures Run(c, ts)[i] < 32 && !InVectors(ts[i]) ==> FirstCell(Run(c, ts)[i]) % 2 == 0
    decreases i
  {
    hide Place, FirstCell, Registers, IsWide, InVectors, ValidType;
    StartsAt(c, ts[0]);
    SpillCloses(c, ts[0]);
    if i > 0 { WideAligned(Place(c, ts[0]).1, ts[1..], i - 1); }
  }

  // ----- a class that has spilled stays closed -----

  lemma {:induction false} ClosedStaysClosed(c: Counters, ts: seq<CType>, j: nat)
    requires Wf(c) && (forall t | t in ts :: ValidType(t)) && j < |ts| && Registers(ts[j]) > 0
    requires if InVectors(ts[j]) then c.nv == 8 else c.nx == 8
    ensures Run(c, ts)[j] >= 32
    decreases j
  {
    hide Registers, FirstCell, Cells, StackAlign, InVectors, StackBytes;
    PlaceCells(c, ts[0]);
    if j == 0 {
      Rounding(c.nx, 2);
    } else {
      ClosedStaysClosed(Place(c, ts[0]).1, ts[1..], j - 1);
    }
  }

  lemma SpillCloses(c: Counters, t: CType)
    requires Wf(c) && ValidType(t)
    ensures Wf(Place(c, t).1)
    ensures Place(c, t).0 >= 32 ==> if InVectors(t) then Place(c, t).1.nv == 8 else Place(c, t).1.nx == 8
  {
    hide Registers, FirstCell, Cells, StackAlign, InVectors, StackBytes, Place;
    PlaceCells(c, t);
  }

  /** After one argument of a class went to the stack, no later one of the class gets a register. */
  lemma {:induction false} SpillClosesClass(c: Counters, ts: seq<CType>, i: nat, j: nat)
    requires Wf(c) && (forall t | t in ts :: ValidType(t)) && i < j < |ts| && Registers(ts[j]) > 0
    requires InVectors(ts[i]) == InVectors(ts[j]) && Run(c, ts)[i] >= 32
    ensures Run(c, ts)[j] >= 32
    decreases i
  {
    hide Registers, InVectors, Place, ValidType;
    SpillCloses(c, ts[0]);
    var d := Place(c, ts[0]).1;
    if i == 0 {
      ClosedStaysClosed(d, ts[1..], j - 1);
    } else {
      SpillClosesClass(d, ts[1..], i - 1, j - 1);
    }
  }

  // ----- the callee's copies -----

  /** gfunc_prolog's offset from the frame pointer of an argument placed at a. */
  function FrameOffset(a: nat): nat
  {
    if a < 16 then 160 + a / 2 * 8
    else if a < 32 then 16 + (a - 16) / 2 * 16
    else 224 + (a - 32) / 2 * 2
  }

  /** Bytes of the frame that hold it: 8 for a general register, 16 for a vector register. */
  function FrameBytes(t: CType, a: nat): nat
  {
    if a < 32 then Registers(t) * (if InVectors(t) then 16 else 8) else StackBytes(t)
  }

  predicate Occupies(t: CType, a: nat, b: nat) { FrameOffset(a) <= b < FrameOffset(a) + FrameBytes(t, a) }

  /** The cell whose saved copy includes byte b of the frame. */
  function CellOf(b: nat): nat
  {
    if b < 160 then 8 + (b - 16) / 16 else if b < 224 then (b - 160) / 8 else b - 224 + 32
  }

  predicate InBank(t: CType, a: nat)
  {
    a < 32 ==> if InVectors(t) then 8 <= FirstCell(a) && FirstCell(a) + Cells(t, a) <= 16 else FirstCell(a) + Cells(t, a) <= 8
  }

  lemma SlotOfCell(t: CType, a: nat, b: nat)
    requires InBank(t, a) && Occupies(t, a, b)
    ensures b >= 16 && Uses(t, a, CellOf(b))
  {}

  lemma {:induction false} RunInBank(c: Counters, ts: seq<CType>, i: nat)
    requires Wf(c) && (forall t | t in ts :: ValidType(t)) && i < |ts|
    ensures InBank(ts[i], Run(c, ts)[i])
    decreases i
  {
    hide Place, Registers, StackAlign, InVectors, StackBytes;
    PlaceCells(c, ts[0]);
    if i > 0 { RunInBank(Place(c, ts[0]).1, ts[1..], i - 1); }
  }

  /** The prologue's copies of two arguments share no byte of the frame. */
  lemma FrameSlotsApart(ts: seq<CType>, i: nat, j: nat, b: nat)
    requires (forall t | t in ts :: ValidType(t)) && i < j < |ts|
    ensures !(Occupies(ts[i], Run(START, ts)[i], b) && Occupies(ts[j], Run(START, ts)[j], b))
  {
    hide Occupies, Uses, InBank;
    var a, a' := Run(START, ts)[i], Run(START, ts)[j];
    RunInBank(START, ts, i);
    RunInBank(START, ts, j);
    if Occupies(ts[i], a, b) && Occupies(ts[j], a', b) {
      SlotOfCell(ts[i], a, b);
      SlotOfCell(ts[j], a', b);
      ArgumentsApart(START, ts, i, j, CellOf(b));
    }
  }

  /** The prologue: stp x29,x30,[sp,#-224]! and then the argument registers in pairs. */
  const PUSH := 0xa9b2_7bfd
  const SAVES: seq<nat> := [0xad00_87e0, 0xad01_8fe2, 0xad02_97e4, 0xad03_9fe6,
                            0xa909_23e8, 0xa90a_07e0, 0xa90b_0fe2, 0xa90c_17e4, 0xa90d_1fe6]

  datatype Pair = Pair(vector: bool, first: nat, second: nat, offset: nat)

  /** STP of two 64-bit general registers, or of two 128-bit vector registers, relative to sp (Arm Architecture Reference Manual,
      sections C6.2 and C7.2, signed offset; here not negative). */
  function StorePair(w: nat): Option<Pair>
  {
    var imm := w / 0x8000 % 128;
    if w / 32 % 32 != 31 || imm >= 64 then None
    else if w / 0x40_0000 == 0x2a4 then Some(Pair(false, w % 32, w / 1024 % 32, 8 * imm))
    else if w / 0x40_0000 == 0x2b4 then Some(Pair(true, w % 32, w / 1024 % 32, 16 * imm))
    else None
  }

  /** STP with pre-indexing by a negative amount: how far sp moves down. */
  function PushedBytes(w: nat): nat
  {
    if w / 0x40_0000 == 0x2a6 && w / 32 % 32 == 31 && w / 0x8000 % 128 >= 64 then 8 * (128 - w / 0x8000 % 128) else 0
  }

  /** Store k of the prologue puts the register at the offset. */
  predicate SavedBy(k: nat, vector: bool, r: nat, offset: nat)
  {
    k < |SAVES| &&
    match StorePair(SAVES[k])
    case None => false
    case Some(p) =>
      p.vector == vector && ((r == p.first && offset == p.offset) || (r == p.second && offset == p.offset + if vector then 16 else 8))
  }

  /** The prologue puts the register at the offset. */
  ghost predicate Saved(vector: bool, r: nat, offset: nat) { exists k :: SavedBy(k, vector, r, offset) }

  lemma PairsStored()
    ensures StorePair(SAVES[0]) == Some(Pair(true, 0, 1, 16)) && StorePair(SAVES[1]) == Some(Pair(true, 2, 3, 48))
    ensures StorePair(SAVES[2]) == Some(Pair(true, 4, 5, 80)) && StorePair(SAVES[3]) == Some(Pair(true, 6, 7, 112))
    ensures StorePair(SAVES[5]) == Some(Pair(false, 0, 1, 160)) && StorePair(SAVES[6]) == Some(Pair(false, 2, 3, 176))
    ensures StorePair(SAVES[7]) == Some(Pair(false, 4, 5, 192)) && StorePair(SAVES[8]) == Some(Pair(false, 6, 7, 208))
  {}

  lemma GeneralSaved(r: nat)
    requires r < 8
    ensures Saved(false, r, 160 + 8 * r)
  {
    hide StorePair;
    PairsStored();
    var k := if r < 2 then 5 else if r < 4 then 6 else if r < 6 then 7 else 8;
    assert SavedBy(k, false, r, 160 + 8 * r);
  }

  lemma VectorSaved(r: nat)
    requires r < 8
    ensures Saved(true, r, 16 + 16 * r)
  {
    hide StorePair;
    PairsStored();
    var k := if r < 2 then 0 else if r < 4 then 1 else if r < 6 then 2 else 3;
    assert SavedBy(k, true, r, 16 + 16 * r);
  }

  lemma OffsetOfCell(a: nat)
    ensures if a < 16 then FirstCell(a) < 8 && FrameOffset(a) == 160 + 8 * FirstCell(a)
            else if a < 32 then FirstCell(a) >= 8 && FrameOffset(a) == 16 + 16 * (FirstCell(a) - 8)
            else FrameOffset(a) == PushedBytes(PUSH) + FirstCell(a) - 32
  {}

  /** Register m of those that hold an argument is saved in the frame where the argument's offset says; an argument on the stack is
      left where the caller put it, above the PushedBytes(PUSH) bytes of the frame. */
  ghost predicate KeptAt(t: CType, a: nat, m: nat)
    requires a < 32 ==> InBank(t, a)
  {
    if a >= 32 then FrameOffset(a) == PushedBytes(PUSH) + FirstCell(a) - 32
    else if m >= Registers(t) then true
    else if InVectors(t) then Saved(true, FirstCell(a) - 8 + m, FrameOffset(a) + 16 * m)
    else Saved(false, FirstCell(a) + m, FrameOffset(a) + 8 * m)
  }

  lemma CellKept(t: CType, a: nat, m: nat)
    requires InBank(t, a)
    ensures KeptAt(t, a, m)
  {
    OffsetOfCell(a);
    if a < 32 && m < Registers(t) {
      hide Saved, Registers, InVectors, FrameOffset, FirstCell, PushedBytes;
      var r := FirstCell(a) + m;
      if InVectors(t) {
        VectorSaved(r - 8);
        assert 16 + 16 * (r - 8) == FrameOffset(a) + 16 * m;
      } else {
        GeneralSaved(r);
        assert 160 + 8 * r == FrameOffset(a) + 8 * m;
      }
    }
  }

  lemma FrameOffsetIs(ts: seq<CType>, i: nat, m: nat)
    requires (forall t | t in ts :: ValidType(t)) && i < |ts|
    ensures InBank(ts[i], Run(START, ts)[i]) && KeptAt(ts[i], Run(START, ts)[i], m)
  {
    hide InBank, KeptAt;
    RunInBank(START, ts, i);
    CellKept(ts[i], Run(START, ts)[i], m);
  }

  /** Every copy has room for its argument: the value, or the pointer to it. */
  lemma FrameSlotHolds(t: CType, a: nat)
    requires ValidType(t)
    ensures FrameBytes(t, a) >= if ByReference(t) then 8 else Size(t)
  {
    hide RoundUp, CeilDiv;
    SizeFacts(Size(t));
    Rounding(Size(t), 8);
  }
}
