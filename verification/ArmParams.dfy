/** assign_regs and gfunc_prolog: the caller's and the callee's view of where parameters go (base standard, softfp). */
module ArmParams {
  import opened Arith

  datatype Kind = Word | LongLong | Floating | Aggregate

  datatype Param = Param(kind: Kind, size: nat, align: nat)

  predicate PowerOfTwo(a: nat) { a == 1 || (a > 1 && a % 2 == 0 && PowerOfTwo(a / 2)) }

  predicate ValidParam(p: Param)
  {
    match p.kind
    case Word => (p.size == 1 || p.size == 2 || p.size == 4) && p.align == p.size
    case LongLong => p.size == 8 && p.align == 8
    case Floating => (p.size == 4 || p.size == 8) && p.align == p.size
    case Aggregate => PowerOfTwo(p.align) && p.size > 0 && p.size % p.align == 0
  }

  /** The alignments the compiler can give a type: an aligned attribute is kept in five bits, and larger powers of two become 0. */
  predicate FiveBits(ps: seq<Param>) { forall i :: 0 <= i < |ps| ==> ps[i].align <= 16 }

  predicate Valid(ps: seq<Param>) { forall i :: 0 <= i < |ps| ==> ValidParam(ps[i]) }

  function Words(p: Param): nat { (p.size + 3) / 4 }

  function AlignWords(p: Param): nat { (p.align + 3) / 4 }

  // ----- the argument area: words 0 to 3 are r0 to r3, word 4 + k is word k of the stack -----

  datatype Location = Core(reg: nat) | Stack(word: nat)

  function WordLocation(w: nat): Location { if w < 4 then Core(w) else Stack(w - 4) }

  /** First word of a parameter when next is the first free one; an aligned start past r3 is the stack. */
  function PlaceAt(next: nat, p: Param): nat
    requires ValidParam(p)
  {
    if next < 4 then
      var s := RoundUp(next, AlignWords(p));
      if s < 4 then s else 4
    else 4 + RoundUp(next - 4, AlignWords(p))
  }

  /** Words taken by a parameter list. */
  function Used(ps: seq<Param>): nat
    requires Valid(ps)
  {
    if ps == [] then 0 else PlaceAt(Used(ps[..|ps| - 1]), ps[|ps| - 1]) + Words(ps[|ps| - 1])
  }

  /** First word of parameter i. */
  function Position(ps: seq<Param>, i: nat): nat
    requires Valid(ps) && i < |ps|
  {
    PlaceAt(Used(ps[..i]), ps[i])
  }

  lemma UsedStep(ps: seq<Param>, i: nat)
    requires Valid(ps) && i < |ps|
    ensures Used(ps[..i + 1]) == Position(ps, i) + Words(ps[i])
  {
    assert ps[..i + 1][..i] == ps[..i];
  }

  lemma RoundUpScaled(n: nat, u: nat)
    requires u > 0
    ensures RoundUp(4 * n, 4 * u) == 4 * RoundUp(n, u)
  {
    var q := CeilDiv(n, u);
    CeilBounds(n, u);
    assert q * (4 * u) == 4 * (q * u);
    CeilUnique(4 * n, 4 * u, q);
  }

  lemma PowerShapes(a: nat)
    requires PowerOfTwo(a)
    ensures a > 0 && (a == 1 || a == 2 || a == 4 || a == 8 || a % 16 == 0)
  {
    if a > 8 {
      assert PowerOfTwo(a / 2);
      assert PowerOfTwo(a / 2 / 2);
      assert PowerOfTwo(a / 2 / 2 / 2);
    }
  }

  /** The alignments that occur, in words: one, two, or a multiple of four. */
  lemma Shapes(p: Param)
    requires ValidParam(p)
    ensures Words(p) >= AlignWords(p) >= 1
    ensures AlignWords(p) <= 2 || AlignWords(p) % 4 == 0
    ensures (p.align + 3) / 4 * 4 == 4 * AlignWords(p) && (p.size + 3) / 4 * 4 == 4 * Words(p)
    ensures p.align > 16 <==> AlignWords(p) > 4
  {
    hide PowerOfTwo;
    if p.kind.Aggregate? {
      PowerShapes(p.align);
      SizeAtLeastAlign(p.size, p.align);
      WordShapes(p.size, p.align);
    }
  }

  lemma WordShapes(size: nat, align: nat)
    requires size >= align && (align == 1 || align == 2 || align == 4 || align == 8 || (align > 0 && align % 16 == 0))
    ensures (size + 3) / 4 >= (align + 3) / 4 >= 1
    ensures (align + 3) / 4 <= 2 || (align + 3) / 4 % 4 == 0
    ensures align > 16 <==> (align + 3) / 4 > 4
  {
    if align % 16 == 0 {
      var k := align / 16;
      assert align == 16 * k && (align + 3) / 4 == 4 * k;
    }
  }

  lemma SizeAtLeastAlign(size: nat, align: nat)
    requires align > 0 && size > 0 && size % align == 0
    ensures size >= align
  {}

  /** Where the next parameter starts while core registers are left. */
  lemma SmallRounding(next: nat, p: Param)
    requires ValidParam(p) && next < 4
    ensures AlignWords(p) == 1 || next == 0 ==> RoundUp(next, AlignWords(p)) == next
    ensures AlignWords(p) == 2 ==> RoundUp(next, AlignWords(p)) == (next + 1) / 2 * 2
    ensures AlignWords(p) >= 4 && next > 0 ==> RoundUp(next, AlignWords(p)) == AlignWords(p)
  {
    Shapes(p);
    RoundUpBounds(next, AlignWords(p));
  }

  lemma {:induction false} UsedMonotone(ps: seq<Param>, i: nat, j: nat)
    requires Valid(ps) && i <= j <= |ps|
    ensures Used(ps[..i]) <= Used(ps[..j])
    decreases j - i
  {
    if i < j {
      UsedMonotone(ps, i, j - 1);
      UsedStep(ps, j - 1);
      StartsAfter(Used(ps[..j - 1]), ps[j - 1]);
    }
  }

  lemma StartsAfter(next: nat, p: Param)
    requires ValidParam(p)
    ensures PlaceAt(next, p) >= next
  {
    Shapes(p);
    if next < 4 { SmallRounding(next, p); } else { RoundUpBounds(next - 4, AlignWords(p)); }
  }

  /** A word of the argument area where a parameter may start: a multiple of its alignment, counted from r0 or from the stack pointer. */
  predicate StartsOn(m: nat, w: nat)
    requires w > 0
  {
    if m < 4 then m % w == 0 else (m - 4) % w == 0
  }

  lemma NoMultipleBetween(n: nat, u: nat, m: nat)
    requires u > 0 && n <= m < RoundUp(n, u)
    ensures m % u != 0
  {
    if m % u == 0 {
      RoundUpBounds(m, u);
      CeilMono(n, m, u);
      MulMono(CeilDiv(n, u), CeilDiv(m, u), u);
    }
  }

  lemma FirstStart(next: nat, p: Param, m: nat)
    requires ValidParam(p) && AlignWords(p) > 0 && next <= m < PlaceAt(next, p)
    ensures !StartsOn(m, AlignWords(p))
  {
    hide AlignWords, RoundUp;
    if next < 4 { NoMultipleBetween(next, AlignWords(p), m); } else { NoMultipleBetween(next - 4, AlignWords(p), m - 4); }
  }

  lemma StartAligned(next: nat, p: Param)
    requires ValidParam(p) && AlignWords(p) > 0
    ensures StartsOn(PlaceAt(next, p), AlignWords(p))
  {
    RoundedMultiple(next, AlignWords(p));
    if next >= 4 { RoundedMultiple(next - 4, AlignWords(p)); }
    hide AlignWords, RoundUp, ValidParam;
  }

  /** Every parameter starts at the first free word on its alignment. */
  lemma PositionFirst(ps: seq<Param>, i: nat, m: nat)
    requires Valid(ps) && i < |ps|
    ensures AlignWords(ps[i]) > 0 && StartsOn(Position(ps, i), AlignWords(ps[i]))
    ensures Used(ps[..i]) <= m < Position(ps, i) ==> !StartsOn(m, AlignWords(ps[i]))
    ensures Position(ps, i) >= Used(ps[..i])
  {
    hide StartsOn, PlaceAt, ValidParam, RoundUp;
    var next, p := Used(ps[..i]), ps[i];
    Shapes(p);
    StartsAfter(next, p);
    StartAligned(next, p);
    if next <= m < PlaceAt(next, p) { FirstStart(next, p, m); }
  }

  /** No word of the argument area belongs to two parameters. */
  lemma PositionsApart(ps: seq<Param>, i: nat, j: nat)
    requires Valid(ps) && i < j < |ps|
    ensures Position(ps, i) + Words(ps[i]) <= Position(ps, j)
  {
    UsedStep(ps, i);
    UsedMonotone(ps, i + 1, j);
    StartsAfter(Used(ps[..j]), ps[j]);
  }

  // ----- the caller -----

  datatype Class = StackClass | CoreStructClass | CoreClass

  /** start and end: core registers, or byte addresses in the argument stack for StackClass. */
  datatype Plan = Plan(class_: Class, start: nat, end: nat)

  /** Where word k of a planned parameter travels. */
  function PlanWord(plan: Plan, k: nat): Location
  {
    if plan.class_.StackClass? then Stack(plan.start / 4 + k) else WordLocation(plan.start + k)
  }

  predicate AsStruct(p: Param) { p.kind.Aggregate? || p.kind.Floating? }

  predicate PlanMatches(plan: Plan, p: Param, pos: nat)
  {
    if pos >= 4 then plan == Plan(StackClass, 4 * (pos - 4), 4 * (pos - 4 + Words(p)))
    else if AsStruct(p) then plan == Plan(CoreStructClass, pos, if pos + Words(p) < 4 then pos + Words(p) else 4)
    else pos + Words(p) <= 4 && plan == Plan(CoreClass, pos, if p.kind.LongLong? then pos + 1 else pos)
  }

  /** Registers that hold part of a structure. */
  predicate HoldsStruct(plans: seq<Plan>, r: nat)
  {
    exists i :: 0 <= i < |plans| && plans[i].class_.CoreStructClass? && plans[i].start <= r < plans[i].end
  }

  function StackSize(used: nat): nat { if used > 4 then 4 * (used - 4) else 0 }

  /** The first core register a parameter would take. */
  lemma CoreStart(next: nat, p: Param)
    requires ValidParam(p)
    ensures next < 4 ==> PlaceAt(next, p) == (if RoundUp(next, AlignWords(p)) < 4 then RoundUp(next, AlignWords(p)) else 4)
    ensures next >= 4 ==> RoundUp(next, AlignWords(p)) >= 4
    ensures p.kind.Word? && next < 4 ==> PlaceAt(next, p) == next && Words(p) == 1
    ensures p.kind.LongLong? ==> AlignWords(p) == 2 && Words(p) == 2
    ensures p.kind.LongLong? && next < 4 ==> RoundUp(next, 2) == (next + 1) / 2 * 2
  {
    Shapes(p);
    RoundUpBounds(next, AlignWords(p));
    if next < 4 { SmallRounding(next, p); }
  }

  /** The stack slot of a parameter when no core register is left. */
  lemma StackStart(next: nat, nsaa: nat, p: Param)
    requires ValidParam(p) && nsaa == StackSize(next) && PlaceAt(next, p) >= 4
    ensures RoundUp(nsaa, 4 * AlignWords(p)) == 4 * (PlaceAt(next, p) - 4)
  {
    Shapes(p);
    if next < 4 {
      RoundUpBounds(0, 4 * AlignWords(p));
    } else {
      RoundUpScaled(next - 4, AlignWords(p));
    }
  }

  /** Every parameter so far has its plan, and todo holds the registers of the structures among them. */
  ghost predicate Planned(ps: seq<Param>, plans: seq<Plan>, todo: set<nat>)
    requires Valid(ps)
  {
    |plans| <= |ps| &&
    (forall i :: 0 <= i < |plans| ==> PlanMatches(plans[i], ps[i], Position(ps, i))) &&
    forall r: nat :: r in todo <==> HoldsStruct(plans, r)
  }

  function RegisterRange(a: nat, b: nat): (s: set<nat>)
    ensures forall r :: r in s <==> a <= r < b
    decreases b
  {
    if a < b then RegisterRange(a, b - 1) + {b - 1} else {}
  }

  function StructRegisters(plan: Plan): set<nat>
  {
    if plan.class_.CoreStructClass? then RegisterRange(plan.start, plan.end) else {}
  }

  lemma PlannedSnoc(ps: seq<Param>, plans: seq<Plan>, todo: set<nat>, plan: Plan)
    requires Valid(ps) && |plans| < |ps| && Planned(ps, plans, todo)
    requires PlanMatches(plan, ps[|plans|], Position(ps, |plans|))
    ensures Planned(ps, plans + [plan], todo + StructRegisters(plan))
  {
    hide PlanMatches, Position;
    var all := plans + [plan];
    assert forall i :: 0 <= i < |plans| ==> all[i] == plans[i];
    assert all[|plans|] == plan;
    forall r: nat ensures r in todo + StructRegisters(plan) <==> HoldsStruct(all, r) {
      if HoldsStruct(plans, r) {
        var i :| 0 <= i < |plans| && plans[i].class_.CoreStructClass? && plans[i].start <= r < plans[i].end;
        assert all[i] == plans[i];
      }
    }
  }

  /** assign_regs */
  method AssignRegs(ps: seq<Param>) returns (plans: seq<Plan>, todo: set<nat>, nsaa: nat)
    requires Valid(ps)
    ensures |plans| == |ps|
    ensures forall i :: 0 <= i < |ps| ==> PlanMatches(plans[i], ps[i], Position(ps, i))
    ensures forall r :: r in todo <==> HoldsStruct(plans, r)
    ensures nsaa == StackSize(Used(ps))
  {
    hide RoundUp, PlaceAt, Words, AlignWords, Planned, Used, PowerOfTwo;
    var ncrn := 0;
    nsaa, plans, todo := 0, [], {};
    NothingPlanned(ps);
    for i := 0 to |ps|
      invariant |plans| == i && Planned(ps, plans, todo)
      invariant nsaa == StackSize(Used(ps[..i]))
      invariant if ncrn < 4 then Used(ps[..i]) == ncrn else Used(ps[..i]) >= 4
    {
      var p := ps[i];
      var words, al := Words(p), AlignWords(p);
      Shapes(p);
      ghost var next := Used(ps[..i]);
      CoreStart(next, p);
      CoreStart(ncrn, p);
      StartsAfter(next, p);
      UsedStep(ps, i);
      var plan := Plan(StackClass, 0, 0);
      var registers: set<nat> := {};
      if AsStruct(p) {
        ncrn := RoundUp(ncrn, al);
        if ncrn + words <= 4 || ncrn < 4 {
          var j := ncrn;
          while j < 4 && j < ncrn + words
            invariant ncrn <= j <= 4 && j <= ncrn + words
            invariant registers == RegisterRange(ncrn, j)
          {
            registers := registers + {j};
            j := j + 1;
          }
          plan := Plan(CoreStructClass, ncrn, j);
          ncrn := ncrn + words;
          if ncrn > 4 { nsaa := (ncrn - 4) * 4; }
        } else {
          ncrn := 4;
        }
      } else if ncrn < 4 {
        var isLong := p.kind.LongLong?;
        if isLong { ncrn := RoundUp(ncrn, 2); }
        if !(isLong && ncrn == 4) {
          plan := Plan(CoreClass, ncrn, if isLong then ncrn + 1 else ncrn);
          ncrn := if isLong then ncrn + 2 else ncrn + 1;
        }
      }
      if plan.class_.StackClass? {
        StackStart(next, nsaa, p);
        nsaa := RoundUp(nsaa, 4 * al);
        plan := Plan(StackClass, nsaa, nsaa + 4 * words);
        nsaa := nsaa + 4 * words;
      }
      assert registers == StructRegisters(plan);
      PlannedSnoc(ps, plans, todo, plan);
      todo := todo + registers;
      plans := plans + [plan];
    }
    assert ps[..|ps|] == ps;
    PlannedAll(ps, plans, todo);
  }

  lemma NothingPlanned(ps: seq<Param>)
    requires Valid(ps)
    ensures Planned(ps, [], {}) && Used(ps[..0]) == 0
  {}

  lemma PlannedAll(ps: seq<Param>, plans: seq<Plan>, todo: set<nat>)
    requires Valid(ps) && Planned(ps, plans, todo)
    ensures forall i :: 0 <= i < |plans| ==> PlanMatches(plans[i], ps[i], Position(ps, i))
    ensures forall r :: r in todo <==> HoldsStruct(plans, r)
  {}

  lemma PlanWordIs(plan: Plan, p: Param, pos: nat, k: nat)
    requires PlanMatches(plan, p, pos) && k < Words(p)
    ensures PlanWord(plan, k) == WordLocation(pos + k)
  {}

  // ----- the callee -----

  const WORD_PARAM := Param(Word, 4, 4)

  /** What the callee is passed: a hidden result address first when it returns a large structure. */
  function Passed(ps: seq<Param>, structRet: bool): seq<Param>
  {
    if structRet then [WORD_PARAM] + ps else ps
  }

  /** A parameter aligned to more than 16 bytes that starts when r0 to r3 are partly used. */
  predicate Misfit(ps: seq<Param>, i: nat)
    requires Valid(ps) && i < |ps|
  {
    ps[i].align > 16 && 1 <= Used(ps[..i]) < 4
  }

  predicate SomeMisfit(ps: seq<Param>, n: nat)
    requires Valid(ps) && n <= |ps|
  {
    exists i :: 0 <= i < n && Misfit(ps, i)
  }

  lemma NoMisfit(ps: seq<Param>)
    requires Valid(ps) && FiveBits(ps)
    ensures !SomeMisfit(ps, |ps|)
  {
    hide ValidParam, Used;
  }

  /** Byte offset from fp of an argument word: fp, ip and lr are saved below. */
  function Offset(w: nat): nat { 4 * w + 12 }

  /** What the word at an offset holds once n registers are saved below the caller's stack. */
  function Holds(n: nat, offset: nat): Location
    requires offset >= 12
  {
    if (offset - 12) / 4 < n then Core((offset - 12) / 4) else Stack((offset - 12) / 4 - n)
  }

  /** Words of the parameters, without padding, as the prologue's first loop adds them up until there are four. */
  function RawWords(ps: seq<Param>): nat
  {
    if ps == [] then 0
    else var n := RawWords(ps[..|ps| - 1]); if n < 4 then n + Words(ps[|ps| - 1]) else n
  }

  /** Registers saved on entry: none, two or four. */
  function Saved(n: nat): nat { (if n > 4 then 5 else n + 1) / 2 * 2 }

  lemma RawStep(ps: seq<Param>, i: nat)
    requires i < |ps|
    ensures RawWords(ps[..i + 1]) == if RawWords(ps[..i]) < 4 then RawWords(ps[..i]) + Words(ps[i]) else RawWords(ps[..i])
  {
    assert ps[..i + 1][..i] == ps[..i];
  }

  /** Padding never hides that registers are in use: the raw count is exact up to three and at least three after. */
  lemma {:induction false} RawCovers(ps: seq<Param>, i: nat)
    requires Valid(ps) && i <= |ps|
    ensures Used(ps[..i]) <= 3 ==> RawWords(ps[..i]) == Used(ps[..i])
    ensures Used(ps[..i]) >= 4 ==> RawWords(ps[..i]) >= 3
    decreases i
  {
    hide Words, AlignWords, RoundUp;
    if i > 0 {
      RawCovers(ps, i - 1);
      RawStep(ps, i - 1);
      UsedStep(ps, i - 1);
      var next, p := Used(ps[..i - 1]), ps[i - 1];
      Shapes(p);
      StartsAfter(next, p);
      if next < 4 { SmallRounding(next, p); }
    } else {
      assert ps[..0] == [];
    }
  }

  /** The saved registers cover every register word, and all four are saved when the stack is used. */
  lemma SavedCovers(ps: seq<Param>)
    requires Valid(ps)
    ensures var n := Saved(RawWords(ps)); n <= 4 && (Used(ps) <= 4 ==> Used(ps) <= n) && (Used(ps) > 4 ==> n == 4)
  {
    RawCovers(ps, |ps|);
    assert ps[..|ps|] == ps;
  }

  /** pn and sn of the prologue after some parameters, as long as none was a misfit. */
  predicate Counters(used: nat, pn: nat, sn: nat)
  {
    if used < 4 then pn == used && sn == 0 else pn >= 4 && sn == used - 4
  }

  /** The word the prologue picks for the next parameter. */
  function CalleeWord(pn: nat, sn: nat, p: Param): nat
    requires ValidParam(p)
  {
    Shapes(p);
    if pn < 4 then RoundUp(pn, AlignWords(p)) else 4 + RoundUp(sn, AlignWords(p))
  }

  /** pn and sn after the next parameter. */
  function CalleeNext(pn: nat, sn: nat, p: Param): (nat, nat)
    requires ValidParam(p)
  {
    Shapes(p);
    if pn < 4 then
      var end := RoundUp(pn, AlignWords(p)) + Words(p);
      (end, if sn == 0 && end > 4 then end - 4 else sn)
    else (pn, RoundUp(sn, AlignWords(p)) + Words(p))
  }

  lemma CountersStep(next: nat, pn: nat, sn: nat, p: Param)
    requires ValidParam(p) && Counters(next, pn, sn) && CalleeWord(pn, sn, p) == PlaceAt(next, p)
    ensures Counters(PlaceAt(next, p) + Words(p), CalleeNext(pn, sn, p).0, CalleeNext(pn, sn, p).1)
  {
    hide RoundUp, Words, AlignWords;
    Shapes(p);
    StartsAfter(next, p);
  }

  lemma CalleeNextIs(pn: nat, sn: nat, p: Param)
    requires ValidParam(p) && AlignWords(p) > 0
    ensures CalleeNext(pn, sn, p) ==
      if pn < 4 then
        (RoundUp(pn, AlignWords(p)) + Words(p),
         if sn == 0 && RoundUp(pn, AlignWords(p)) + Words(p) > 4 then RoundUp(pn, AlignWords(p)) + Words(p) - 4 else sn)
      else (pn, RoundUp(sn, AlignWords(p)) + Words(p))
  {}

  lemma StepAgrees(next: nat, pn: nat, sn: nat, p: Param)
    requires ValidParam(p) && Counters(next, pn, sn)
    ensures CalleeWord(pn, sn, p) == PlaceAt(next, p) <==> !(p.align > 16 && 1 <= next < 4)
    ensures next >= 4 ==> PlaceAt(next, p) >= 4
  {
    Shapes(p);
    if next < 4 { SmallRounding(next, p); }
  }

  lemma FirstWord(ps: seq<Param>, structRet: bool)
    requires Valid(Passed(ps, structRet))
    ensures var full := Passed(ps, structRet);
      |full| == |ps| + (if structRet then 1 else 0) &&
      RawWords(full[..|full| - |ps|]) == Used(full[..|full| - |ps|]) == (if structRet then 1 else 0) &&
      !SomeMisfit(full, |full| - |ps|)
  {
    var full := Passed(ps, structRet);
    if structRet {
      assert full[..1] == [WORD_PARAM];
      assert full[..0] == [];
      RawStep(full, 0);
      UsedStep(full, 0);
      SmallRounding(0, WORD_PARAM);
    } else {
      assert full[..0] == [];
    }
  }

  lemma PassedAt(ps: seq<Param>, structRet: bool, i: nat)
    requires i < |ps|
    ensures var full := Passed(ps, structRet); |full| >= |ps| && full[|full| - |ps| + i] == ps[i]
  {}

  lemma MisfitStep(ps: seq<Param>, i: nat)
    requires Valid(ps) && i < |ps|
    ensures SomeMisfit(ps, i + 1) <==> SomeMisfit(ps, i) || Misfit(ps, i)
  {}

  /** The callee finds every named parameter at the offset of its place in the argument area. */
  ghost predicate Agrees(ps: seq<Param>, structRet: bool, addr: seq<nat>)
    requires Valid(Passed(ps, structRet)) && |addr| <= |ps|
  {
    var full := Passed(ps, structRet);
    forall j :: 0 <= j < |addr| ==> addr[j] == Offset(Position(full, |full| - |ps| + j))
  }

  lemma AgreesAt(ps: seq<Param>, structRet: bool, addr: seq<nat>, i: nat)
    requires Valid(Passed(ps, structRet)) && i < |addr| <= |ps| && Agrees(ps, structRet, addr)
    ensures addr[i] >= 12
  {}

  lemma AgreesSnoc(ps: seq<Param>, structRet: bool, addr: seq<nat>, a: nat)
    requires Valid(Passed(ps, structRet)) && |addr| < |ps|
    ensures var full := Passed(ps, structRet);
      Agrees(ps, structRet, addr + [a]) <==>
      Agrees(ps, structRet, addr) && a == Offset(Position(full, |full| - |ps| + |addr|))
  {
    hide Position, Offset;
    var all := addr + [a];
    assert forall j :: 0 <= j < |addr| ==> all[j] == addr[j];
    assert all[|addr|] == a;
  }

  lemma AgreesEmpty(ps: seq<Param>, structRet: bool)
    requires Valid(Passed(ps, structRet))
    ensures Agrees(ps, structRet, [])
  {}

  /** First loop of gfunc_prolog: how many of r0 to r3 are saved. */
  method CountSaved(ps: seq<Param>, structRet: bool, variadic: bool) returns (n: nat)
    requires Valid(Passed(ps, structRet))
    ensures n == if variadic then 4 else Saved(RawWords(Passed(ps, structRet)))
  {
    ghost var full := Passed(ps, structRet);
    ghost var skip := |full| - |ps|;
    hide Words, Used, RawWords, Passed;
    n := if structRet then 1 else 0;
    FirstWord(ps, structRet);
    for i := 0 to |ps|
      invariant n == RawWords(full[..skip + i])
    {
      PassedAt(ps, structRet, i);
      RawStep(full, skip + i);
      if n < 4 { n := n + Words(ps[i]); }
    }
    assert full[..skip + |ps|] == full;
    if variadic { n := 4; }
    if n != 0 {
      if n > 4 { n := 4; }
      n := (n + 1) / 2 * 2;
    }
  }

  /** Second loop of gfunc_prolog, with n registers saved: where each named parameter is. */
  method PlaceParams(ps: seq<Param>, structRet: bool, n: nat) returns (addr: seq<nat>)
    requires Valid(Passed(ps, structRet))
    requires Used(Passed(ps, structRet)) > 4 ==> n == 4
    ensures |addr| == |ps|
    ensures Agrees(ps, structRet, addr) <==> !SomeMisfit(Passed(ps, structRet), |Passed(ps, structRet)|)
  {
    ghost var full := Passed(ps, structRet);
    ghost var skip := |full| - |ps|;
    hide Words, AlignWords, Used, Passed, RoundUp, PlaceAt, SomeMisfit, Agrees, Position, CalleeWord, CalleeNext, Counters, Misfit, Valid,
         ValidParam, PowerOfTwo;
    ValidPrefixes(full);
    FirstWord(ps, structRet);
    assert full[..|full|] == full;
    var pn, sn := if structRet then 1 else 0, 0;
    addr := [];
    AgreesEmpty(ps, structRet);
    CountersBegin(pn);
    for i := 0 to |ps|
      invariant |addr| == i
      invariant Agrees(ps, structRet, addr) <==> !SomeMisfit(full, skip + i)
      invariant Agrees(ps, structRet, addr) ==> Counters(Used(full[..skip + i]), pn, sn)
    {
      var p := ps[i];
      var words, al := Words(p), AlignWords(p);
      PassedAt(ps, structRet, i);
      ValidAt(full, skip + i);
      MisfitStep(full, skip + i);
      MisfitIs(full, skip + i);
      Shapes(p);
      ghost var next := Used(full[..skip + i]);
      ghost var w := CalleeWord(pn, sn, p);
      CalleeWordIs(pn, sn, p);
      CalleeNextIs(pn, sn, p);
      PositionIs(full, skip + i);
      if Counters(next, pn, sn) {
        StepAgrees(next, pn, sn, p);
        if w == PlaceAt(next, p) { CountersStep(next, pn, sn, p); }
        CountersFacts(next, pn, sn);
      }
      UsedStep(full, skip + i);
      UsedMonotone(full, skip + i + 1, |full|);
      var a;
      if pn < 4 {
        pn := RoundUp(pn, al);
        a := pn * 4;
        pn := pn + words;
        if sn == 0 && pn > 4 { sn := pn - 4; }
      } else {
        sn := RoundUp(sn, al);
        a := (n + sn) * 4;
        sn := sn + words;
      }
      AgreesSnoc(ps, structRet, addr, a + 12);
      addr := addr + [a + 12];
    }
  }

  lemma ValidPrefixes(ps: seq<Param>)
    requires Valid(ps)
    ensures forall k :: 0 <= k <= |ps| ==> Valid(ps[..k])
  {}

  lemma ValidAt(ps: seq<Param>, i: nat)
    requires Valid(ps) && i < |ps|
    ensures ValidParam(ps[i])
  {}

  lemma MisfitIs(ps: seq<Param>, i: nat)
    requires Valid(ps) && i < |ps|
    ensures Misfit(ps, i) <==> ps[i].align > 16 && 1 <= Used(ps[..i]) < 4
  {}

  lemma CountersFacts(next: nat, pn: nat, sn: nat)
    requires Counters(next, pn, sn)
    ensures next < 4 <==> pn < 4
  {}

  lemma CountersBegin(used: nat)
    requires used < 4
    ensures Counters(used, used, 0)
  {}

  lemma CalleeWordIs(pn: nat, sn: nat, p: Param)
    requires ValidParam(p) && AlignWords(p) > 0
    ensures CalleeWord(pn, sn, p) == if pn < 4 then RoundUp(pn, AlignWords(p)) else 4 + RoundUp(sn, AlignWords(p))
  {}

  lemma PositionIs(ps: seq<Param>, i: nat)
    requires Valid(ps) && i < |ps|
    ensures Position(ps, i) == PlaceAt(Used(ps[..i]), ps[i])
  {}

  /** gfunc_prolog: it reads every parameter from its place in the argument area exactly when none is a misfit. */
  method GfuncProlog(ps: seq<Param>, structRet: bool, variadic: bool) returns (n: nat, addr: seq<nat>)
    requires Valid(Passed(ps, structRet))
    ensures |addr| == |ps|
    ensures n == if variadic then 4 else Saved(RawWords(Passed(ps, structRet)))
    ensures Agrees(ps, structRet, addr) <==> !SomeMisfit(Passed(ps, structRet), |Passed(ps, structRet)|)
    ensures FiveBits(ps) ==> Agrees(ps, structRet, addr)
  {
    n := CountSaved(ps, structRet, variadic);
    SavedCovers(Passed(ps, structRet));
    addr := PlaceParams(ps, structRet, n);
    if FiveBits(ps) {
      NoMisfit(Passed(ps, structRet));
    }
  }

  // ----- both sides together -----

  ghost predicate AllPlanned(ps: seq<Param>, plans: seq<Plan>)
    requires Valid(ps)
  {
    |plans| == |ps| && forall i :: 0 <= i < |ps| ==> PlanMatches(plans[i], ps[i], Position(ps, i))
  }

  /** Every word of parameter i travels where the callee reads it. */
  predicate Meets(ps: seq<Param>, plans: seq<Plan>, n: nat, addr: seq<nat>, i: nat)
    requires i < |ps| == |addr| && |ps| <= |plans| && addr[i] >= 12
  {
    forall k :: 0 <= k < Words(ps[i]) ==> PlanWord(plans[|plans| - |ps| + i], k) == Holds(n, addr[i] + 4 * k)
  }

  /** Caller and callee, each by its own allocator, on one parameter list: registers, stack and the words split between them agree. */
  method CallerMeetsCallee(ps: seq<Param>, structRet: bool, variadic: bool)
    returns (plans: seq<Plan>, n: nat, addr: seq<nat>)
    requires Valid(Passed(ps, structRet)) && FiveBits(ps)
    ensures |plans| == |Passed(ps, structRet)| && |addr| == |ps|
    ensures forall i :: 0 <= i < |ps| ==> addr[i] >= 12 && Meets(ps, plans, n, addr, i)
  {
    hide Valid, FiveBits, PlanMatches, Agrees, SomeMisfit, Words, Position, PlanWord;
    var todo, nsaa;
    plans, todo, nsaa := AssignRegs(Passed(ps, structRet));
    n, addr := GfuncProlog(ps, structRet, variadic);
    assert |Passed(ps, structRet)| == |ps| + (if structRet then 1 else 0);
    forall i | 0 <= i < |ps| ensures addr[i] >= 12 && Meets(ps, plans, n, addr, i) {
      AgreesAt(ps, structRet, addr, i);
      forall k | 0 <= k < Words(ps[i]) ensures PlanWord(plans[|plans| - |ps| + i], k) == Holds(n, addr[i] + 4 * k) {
        WordsMeet(ps, structRet, variadic, plans, addr, n, i, k);
      }
    }
  }

  /** Word k of a parameter, when the callee reads from its positions. */
  lemma WordsMeet(ps: seq<Param>, structRet: bool, variadic: bool, plans: seq<Plan>, addr: seq<nat>, n: nat,
                  i: nat, k: nat)
    requires Valid(Passed(ps, structRet)) && i < |ps| && k < Words(ps[i]) && |addr| == |ps|
    requires n == if variadic then 4 else Saved(RawWords(Passed(ps, structRet)))
    requires AllPlanned(Passed(ps, structRet), plans) && Agrees(ps, structRet, addr)
    ensures var j := |plans| - |ps| + i; 0 <= j < |plans| && PlanWord(plans[j], k) == Holds(n, addr[i] + 4 * k)
  {
    hide Words, Used, Passed, PlaceAt, Saved, RawWords, PlanMatches;
    var full := Passed(ps, structRet);
    var j := |full| - |ps| + i;
    PassedAt(ps, structRet, i);
    PlanWordIs(plans[j], ps[i], Position(full, j), k);
    SavedCovers(full);
    UsedStep(full, j);
    UsedMonotone(full, j + 1, |full|);
    assert full[..|full|] == full;
  }

  /** Two different words of parameters never share a register or a stack word. */
  lemma LocationsApart(ps: seq<Param>, plans: seq<Plan>, i: nat, k: nat, j: nat, l: nat)
    requires Valid(ps) && AllPlanned(ps, plans)
    requires i < |ps| && j < |ps| && k < Words(ps[i]) && l < Words(ps[j]) && (i != j || k != l)
    ensures PlanWord(plans[i], k) != PlanWord(plans[j], l)
  {
    hide Words, Used, PlaceAt, PlanMatches;
    PlanWordIs(plans[i], ps[i], Position(ps, i), k);
    PlanWordIs(plans[j], ps[j], Position(ps, j), l);
    if i < j { PositionsApart(ps, i, j); }
    if j < i { PositionsApart(ps, j, i); }
  }

  /** Every stack word used lies below the stack size the caller reserves. */
  lemma StackCovers(ps: seq<Param>, plans: seq<Plan>, i: nat, k: nat)
    requires Valid(ps) && AllPlanned(ps, plans) && i < |ps| && k < Words(ps[i])
    ensures match PlanWord(plans[i], k) case Stack(w) => 4 * w < StackSize(Used(ps)) case Core(r) => r < 4
  {
    hide Words, Used, PlaceAt, PlanMatches;
    PlanWordIs(plans[i], ps[i], Position(ps, i), k);
    UsedStep(ps, i);
    UsedMonotone(ps, i + 1, |ps|);
    assert ps[..|ps|] == ps;
  }
}
