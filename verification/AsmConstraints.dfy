/** asm_compute_constraints: registers for the operands of an inline assembly statement. */
module AsmConstraints {
  import opened Wrappers

  /** What the value of an operand allows: a constant with or without a symbol, or a pointer kept in a stack slot. */
  datatype Value = Constant(symbolic: bool) | SlotPointer | OtherValue

  datatype Operand = Operand(text: string, id: Option<string>, value: Value,
                             inputIndex: int, refIndex: int, reg: int, isMemory: bool, isRw: bool, isLlong: bool, priority: nat)

  const EAX := 0
  const ECX := 1
  const EDX := 2
  const EBX := 3
  const ESP := 4
  const EBP := 5
  const ESI := 6
  const EDI := 7
  const NB_REGS := 8

  // ----- references between operands -----

  predicate IsNum(c: char) { '0' <= c <= '9' }

  function Digit(c: char): nat
    requires IsNum(c)
  {
    (c - '0') as nat
  }

  /** Value of the decimal digits before n. */
  function Number(s: string, n: nat): nat
    requires n <= |s| && forall i :: 0 <= i < n ==> IsNum(s[i])
  {
    if n == 0 then 0 else 10 * Number(s, n - 1) + Digit(s[n - 1])
  }

  /** Length of the leading digits. */
  function Digits(s: string): (n: nat)
    ensures n <= |s| && (forall i :: 0 <= i < n ==> IsNum(s[i])) && (n < |s| ==> !IsNum(s[n]))
  {
    if s == [] || !IsNum(s[0]) then 0 else 1 + Digits(s[1..])
  }

  /** The operand a constraint text refers to: by number, by name in brackets, or none (-1). */
  ghost predicate Refers(ids: seq<Option<string>>, s: string, k: int)
  {
    if s != [] && IsNum(s[0]) then
      k == if Number(s, Digits(s)) < |ids| then Number(s, Digits(s)) else -1
    else if s != [] && s[0] == '[' && ']' in s then
      exists p :: 1 <= p < |s| && s[p] == ']' && ']' !in s[1..p] &&
        if Some(s[1..p]) in ids then 0 <= k < |ids| && ids[k] == Some(s[1..p]) && Some(s[1..p]) !in ids[..k] else k == -1
    else k == -1
  }

  /** find_constraint */
  method FindConstraint(ids: seq<Option<string>>, s: string) returns (k: int)
    ensures Refers(ids, s, k) && -1 <= k < |ids|
  {
    if s != [] && IsNum(s[0]) {
      var index, p := 0, 0;
      while p < |s| && IsNum(s[p])
        invariant p <= |s| && (forall i :: 0 <= i < p ==> IsNum(s[i])) && index == Number(s, p)
      {
        index := index * 10 + Digit(s[p]);
        p := p + 1;
      }
      k := if index < |ids| then index else -1;
    } else if s != [] && s[0] == '[' {
      var p := 1;
      while p < |s| && s[p] != ']'
        invariant 1 <= p <= |s| && ']' !in s[1..p]
      {
        p := p + 1;
      }
      if p < |s| {
        var name := s[1..p];
        k := 0;
        while k < |ids| && ids[k] != Some(name)
          invariant 0 <= k <= |ids| && Some(name) !in ids[..k]
        {
          k := k + 1;
        }
        if k == |ids| {
          assert ids[..k] == ids;
          k := -1;
        }
      } else {
        assert s == [s[0]] + s[1..p];
        k := -1;
      }
    } else {
      k := -1;
    }
  }

  // ----- constraint letters -----

  predicate IsModifier(c: char) { c == '=' || c == '&' || c == '+' || c == '%' }

  /** skip_constraint_modifiers */
  function Prefix(s: string): (n: nat)
    ensures n <= |s| && (forall i :: 0 <= i < n ==> IsModifier(s[i])) && (n < |s| ==> !IsModifier(s[n]))
  {
    if s == [] || !IsModifier(s[0]) then 0 else 1 + Prefix(s[1..])
  }

  /** Priority of a letter, or none for an unknown one. */
  function LetterPriority(c: char): Option<nat>
  {
    match c
    case 'A' => Some(0)
    case 'a' => Some(1) case 'b' => Some(1) case 'c' => Some(1) case 'd' => Some(1) case 'S' => Some(1) case 'D' => Some(1)
    case 'q' => Some(2)
    case 'r' => Some(3)
    case 'N' => Some(4) case 'M' => Some(4) case 'I' => Some(4) case 'i' => Some(4) case 'm' => Some(4) case 'g' => Some(4)
    case _ => None
  }

  /** constraint_priority: the lowest priority, that is the largest number, among the letters. */
  method ConstraintPriority(s: string) returns (ok: bool, priority: nat)
    ensures ok <==> forall i :: 0 <= i < |s| ==> LetterPriority(s[i]).Some?
    ensures ok ==> forall i :: 0 <= i < |s| ==> LetterPriority(s[i]).value <= priority
    ensures ok ==> priority == 0 || exists i :: 0 <= i < |s| && LetterPriority(s[i]) == Some(priority)
  {
    hide LetterPriority;
    priority := 0;
    for i := 0 to |s|
      invariant forall k :: 0 <= k < i ==> LetterPriority(s[k]).Some? && LetterPriority(s[k]).value <= priority
      invariant priority == 0 || exists k :: 0 <= k < i && LetterPriority(s[k]) == Some(priority)
    {
      match LetterPriority(s[i])
      case None => return false, 0;
      case Some(pr) => if pr > priority { priority := pr; }
    }
    ok := true;
  }

  /** The register named by a letter. */
  function NamedRegister(c: char): int
  {
    match c case 'a' => EAX case 'b' => EBX case 'c' => ECX case 'd' => EDX case 'S' => ESI case 'D' => EDI case _ => -1
  }

  // ----- what an operand holds -----

  /** Registers taken by an operand: none, one, or eax and edx together. */
  function Regs(op: Operand): set<int>
  {
    if op.reg < 0 then {} else if op.isLlong && !op.isMemory then {EAX, EDX} else {op.reg}
  }

  /** An ampersand among the modifiers: the output is written before the inputs have been read. */
  predicate EarlyClobber(op: Operand) { '&' in op.text[..Prefix(op.text)] }

  /** Operand j must keep its registers to itself while the inputs, or the outputs, are in registers. */
  predicate NeedsIn(op: Operand, j: nat, nbOutputs: nat)
  {
    j >= nbOutputs || op.inputIndex >= 0 || op.isRw || op.isMemory || EarlyClobber(op)
  }

  predicate NeedsOut(op: Operand, j: nat, nbOutputs: nat) { !op.isMemory && (j < nbOutputs || op.inputIndex >= 0) }

  /** The value the letter found for the operand is one it allows. */
  predicate Satisfies(op: Operand, c: char)
  {
    match c
    case 'A' => op.reg == EAX && op.isLlong && !op.isMemory
    case 'q' => 0 <= op.reg < 4 && !op.isLlong && !op.isMemory
    case 'r' => 0 <= op.reg < NB_REGS && !op.isLlong && !op.isMemory
    case 'i' => op.reg == -1 && op.value.Constant?
    case 'I' => op.reg == -1 && op.value == Constant(false)
    case 'N' => op.reg == -1 && op.value == Constant(false)
    case 'M' => op.reg == -1 && op.value == Constant(false)
    case 'm' => if op.value.SlotPointer? then 0 <= op.reg < NB_REGS && op.isMemory else op.reg == -1
    case 'g' => op.reg == -1 || (0 <= op.reg < NB_REGS && op.isMemory && op.value.SlotPointer?)
    case _ => 0 <= NamedRegister(c) && op.reg == NamedRegister(c) && !op.isLlong && !op.isMemory
  }

  /** One of the letters of the constraint is satisfied. */
  predicate Satisfied(op: Operand) { exists p :: 0 <= p < |op.text| && Satisfies(op, op.text[p]) }

  /** A letter offers register r to a single value that is not held in memory. */
  predicate Offers(c: char, r: int)
  {
    0 <= r < NB_REGS && Satisfies(Operand([], None, OtherValue, -1, -1, r, false, false, false, 0), c)
  }

  predicate IsSingle(c: char) { c == 'a' || c == 'b' || c == 'c' || c == 'd' || c == 'S' || c == 'D' }

  /** eax, ecx, edx, ebx, esi and edi are registers 0, 1, 2, 3, 6 and 7 of the processor; q is the four with byte halves. */
  lemma LettersOffer(c: char, r: int)
    ensures (Offers('a', r) <==> r == 0) && (Offers('c', r) <==> r == 1) && (Offers('d', r) <==> r == 2)
    ensures (Offers('b', r) <==> r == 3) && (Offers('S', r) <==> r == 6) && (Offers('D', r) <==> r == 7)
    ensures (Offers('q', r) <==> 0 <= r < 4) && (Offers('r', r) <==> 0 <= r < 8)
    ensures Offers(c, r) ==> IsSingle(c) || c == 'q' || c == 'r'
  {}

  /** A letter that leaves less choice comes first; the register pair comes before them all, constants and memory after them. */
  lemma FewerChoicesFirst(c: char, d: char)
    requires LetterPriority(c).Some? && LetterPriority(d).Some? && exists r :: Offers(c, r)
    ensures (forall r :: Offers(c, r) ==> Offers(d, r)) && (exists r :: Offers(d, r) && !Offers(c, r)) ==>
      LetterPriority(c).value < LetterPriority(d).value
    ensures d == 'A' ==> LetterPriority(d).value < LetterPriority(c).value
    ensures (forall r :: !Offers(d, r)) && d != 'A' ==> LetterPriority(c).value < LetterPriority(d).value
  {
    hide Offers;
    var x :| Offers(c, x);
    LettersOffer(c, x);
    forall r ensures Offers('q', r) <==> 0 <= r < 4 { LettersOffer('q', r); }
    if y :| Offers(d, y) { LettersOffer(d, y); LettersOffer(d, 0); LettersOffer(c, y); LettersOffer(d, 6); }
    LettersOffer(d, 0); LettersOffer(d, 1); LettersOffer(d, 2); LettersOffer(d, 3); LettersOffer(d, 6); LettersOffer(d, 7);
  }

  /** Which halves of a register are taken: while inputs are loaded, while outputs are stored. */
  datatype Mask = Mask(inp: bool, out: bool)

  predicate Overlaps(a: Mask, b: Mask) { (a.inp && b.inp) || (a.out && b.out) }

  function Join(a: Mask, b: Mask): Mask { Mask(a.inp || b.inp, a.out || b.out) }

  const BOTH := Mask(true, true)

  /** Clobbered registers, the stack pointer and the frame pointer are never given out. */
  predicate Reserved(clobber: seq<bool>, r: int)
  {
    r == ESP || r == EBP || (0 <= r < |clobber| && clobber[r])
  }

  /** Owners of the registers, one map for each half: a register has at most one owner in each. */
  type Owners = map<int, nat>

  predicate MarksHold(regs: seq<Mask>, clobber: seq<bool>, inp: Owners, out: Owners)
  {
    |regs| == NB_REGS && |clobber| == NB_REGS &&
    (forall r :: 0 <= r < NB_REGS ==>
      (regs[r].inp <==> Reserved(clobber, r) || r in inp) && (regs[r].out <==> Reserved(clobber, r) || r in out)) &&
    (forall r :: r in inp ==> 0 <= r < NB_REGS && !Reserved(clobber, r)) &&
    (forall r :: r in out ==> 0 <= r < NB_REGS && !Reserved(clobber, r))
  }

  /** Operand j owns what it needs. */
  predicate Owns(op: Operand, j: nat, nbOutputs: nat, clobber: seq<bool>, inp: Owners, out: Owners)
  {
    forall r :: r in Regs(op) ==>
      0 <= r < NB_REGS && !Reserved(clobber, r) &&
      (NeedsIn(op, j, nbOutputs) ==> r in inp && inp[r] == j) && (NeedsOut(op, j, nbOutputs) ==> r in out && out[r] == j)
  }

  /** Nobody loses a register. */
  predicate Grows(inp: Owners, inp': Owners) { forall r :: r in inp ==> r in inp' && inp'[r] == inp[r] }

  lemma StillOwns(op: Operand, j: nat, nbOutputs: nat, clobber: seq<bool>, inp: Owners, out: Owners, inp': Owners, out': Owners)
    requires Owns(op, j, nbOutputs, clobber, inp, out) && Grows(inp, inp') && Grows(out, out')
    ensures Owns(op, j, nbOutputs, clobber, inp', out')
  {}

  /** Two operands that both own what they need never clash. */
  lemma NoClash(a: Operand, i: nat, b: Operand, j: nat, nbOutputs: nat, clobber: seq<bool>, inp: Owners, out: Owners, r: int)
    requires Owns(a, i, nbOutputs, clobber, inp, out) && Owns(b, j, nbOutputs, clobber, inp, out) && i != j
    requires r in Regs(a) && r in Regs(b)
    ensures !(NeedsIn(a, i, nbOutputs) && NeedsIn(b, j, nbOutputs)) && !(NeedsOut(a, i, nbOutputs) && NeedsOut(b, j, nbOutputs))
  {}

  /** regs_allocated[r] |= mask, for a register whose halves are free. */
  function Claim(o: Owners, half: bool, r: int, j: nat): Owners { if half then o[r := j] else o }

  lemma Claimed(regs: seq<Mask>, clobber: seq<bool>, inp: Owners, out: Owners, r: int, m: Mask, j: nat)
    requires MarksHold(regs, clobber, inp, out) && 0 <= r < NB_REGS && !Overlaps(regs[r], m) && (m.inp || m.out)
    ensures !Reserved(clobber, r)
    ensures MarksHold(regs[r := Join(regs[r], m)], clobber, Claim(inp, m.inp, r, j), Claim(out, m.out, r, j))
    ensures Grows(inp, Claim(inp, m.inp, r, j)) && Grows(out, Claim(out, m.out, r, j))
  {}

  /** The first register below limit whose wanted halves are free. */
  method FindFree(regs: seq<Mask>, mask: Mask, limit: nat) returns (reg: nat)
    requires limit <= |regs|
    ensures reg <= limit && (reg < limit ==> !Overlaps(regs[reg], mask)) && forall r :: 0 <= r < reg ==> Overlaps(regs[r], mask)
  {
    reg := 0;
    while reg < limit && Overlaps(regs[reg], mask)
      invariant reg <= limit && forall r :: 0 <= r < reg ==> Overlaps(regs[r], mask)
    {
      reg := reg + 1;
    }
  }

  /** An operand that has been allocated: it fits one of its letters and owns what it needs. */
  predicate Allocated(op: Operand, j: nat, nbOutputs: nat, clobber: seq<bool>, inp: Owners, out: Owners)
  {
    op.reg >= -1 && Satisfied(op) && Owns(op, j, nbOutputs, clobber, inp, out)
  }

  /** Fields the allocation never changes. */
  predicate SameOperand(a: Operand, b: Operand)
  {
    b == a.(reg := b.reg, isMemory := b.isMemory, isRw := b.isRw, isLlong := b.isLlong)
  }

  /** The mask held while the letters are tried covers what the operand will need. */
  predicate Covers(mask: Mask, op: Operand, j: nat, nbOutputs: nat)
  {
    (mask.inp || mask.out) && (NeedsIn(op, j, nbOutputs) ==> mask.inp) && (NeedsOut(op, j, nbOutputs) ==> mask.out)
  }

  // ----- which letter is chosen -----

  /** The halves wanted when letter p is tried: both for an operand with a matching input, and after a plus or an ampersand. */
  function MaskAt(op: Operand, j: nat, nbOutputs: nat, p: nat): Mask
    requires p <= |op.text|
  {
    if op.inputIndex >= 0 || (exists q :: 0 <= q < p && (op.text[q] == '+' || op.text[q] == '&')) then BOTH
    else Mask(j >= nbOutputs, j < nbOutputs)
  }

  /** A modifier the operand may have, or a known letter. */
  predicate Passable(c: char, j: nat, nbOutputs: nat)
  {
    c == '=' || ((c == '+' || c == '&') && j < nbOutputs) || LetterPriority(c).Some?
  }

  /** A pointer to be reloaded into a register of its own. */
  predicate Reloads(op: Operand, c: char, j: nat, nbOutputs: nat) { (j < nbOutputs || c == 'm') && op.value.SlotPointer? }

  predicate FreeBelow(regs: seq<Mask>, mask: Mask, limit: nat)
    requires limit <= |regs|
  {
    exists r :: 0 <= r < limit && !Overlaps(regs[r], mask)
  }

  /** Can the operand be placed as the letter says, given the registers already taken? */
  predicate Usable(op: Operand, c: char, j: nat, nbOutputs: nat, mask: Mask, regs: seq<Mask>)
    requires |regs| == NB_REGS
  {
    match c
    case 'A' => !Overlaps(regs[EAX], mask) && !Overlaps(regs[EDX], mask)
    case 'q' => FreeBelow(regs, mask, 4)
    case 'r' => FreeBelow(regs, mask, 8)
    case 'i' => op.value.Constant?
    case 'I' => op.value == Constant(false)
    case 'N' => op.value == Constant(false)
    case 'M' => op.value == Constant(false)
    case 'm' => Reloads(op, c, j, nbOutputs) ==> FreeBelow(regs, Mask(true, false), 8)
    case 'g' => Reloads(op, c, j, nbOutputs) ==> FreeBelow(regs, Mask(true, false), 8)
    case _ => NamedRegister(c) >= 0 && !Overlaps(regs[NamedRegister(c)], mask)
  }

  /** Letter p is the first that can be used. */
  predicate FirstUsable(op: Operand, j: nat, nbOutputs: nat, regs: seq<Mask>, p: nat)
    requires |regs| == NB_REGS
  {
    p < |op.text| && Usable(op, op.text[p], j, nbOutputs, MaskAt(op, j, nbOutputs, p), regs) && PassedOver(op, j, nbOutputs, regs, p)
  }

  predicate PassedOver(op: Operand, j: nat, nbOutputs: nat, regs: seq<Mask>, p: nat)
    requires |regs| == NB_REGS && p <= |op.text|
  {
    forall q :: 0 <= q < p ==>
      Passable(op.text[q], j, nbOutputs) && !Usable(op, op.text[q], j, nbOutputs, MaskAt(op, j, nbOutputs, q), regs)
  }

  /** A percent sign, though skipped as a modifier before, ends the search: no letter behind it is ever used. */
  lemma PercentRefused(op: Operand, j: nat, nbOutputs: nat, regs: seq<Mask>, q: nat, p: nat)
    requires |regs| == NB_REGS && q < |op.text| && op.text[q] == '%' && q <= p
    ensures IsModifier('%') && !FirstUsable(op, j, nbOutputs, regs, p)
  {
    hide MaskAt;
    assert !Passable('%', j, nbOutputs);
  }

  /** What the letter gives: the lowest register it allows, no more registers than that, and no other field changed. */
  predicate Takes(op0: Operand, op: Operand, j: nat, nbOutputs: nat, regs0: seq<Mask>, regs: seq<Mask>, p: nat)
    requires |regs0| == NB_REGS && p < |op0.text|
  {
    var c, mask := op0.text[p], MaskAt(op0, j, nbOutputs, p);
    SameOperand(op0, op) && Satisfies(op, c) && (op.isRw <==> '+' in op0.text[..p]) &&
    (op.isMemory <==> (c == 'm' || c == 'g') && Reloads(op0, c, j, nbOutputs)) &&
    (op.reg < 0 || op.isMemory ==> op.isLlong == op0.isLlong) &&
    (c == 'q' || c == 'r' ==> LowestFree(regs0, mask, op.reg)) && (op.isMemory ==> LowestFree(regs0, Mask(true, false), op.reg)) &&
    Marked(regs0, regs, Regs(op), if op.isMemory then Mask(true, false) else mask)
  }

  predicate LowestFree(regs: seq<Mask>, mask: Mask, reg: int)
  {
    0 <= reg < |regs| && !Overlaps(regs[reg], mask) && forall r :: 0 <= r < reg ==> Overlaps(regs[r], mask)
  }

  /** Exactly these registers have got these marks. */
  predicate Marked(regs0: seq<Mask>, regs: seq<Mask>, taken: set<int>, mask: Mask)
  {
    |regs0| == |regs| == NB_REGS && forall r :: 0 <= r < NB_REGS ==> regs[r] == if r in taken then Join(regs0[r], mask) else regs0[r]
  }

  /** New owners are the operand's own. */
  predicate OnlyNew(inp0: Owners, inp: Owners, j: nat, taken: set<int>)
  {
    forall r :: r in inp ==> (r in inp0 && inp[r] == inp0[r]) || (inp[r] == j && r in taken)
  }

  /** New owners of a register while outputs are stored need it then. */
  predicate OutputsNew(out0: Owners, out: Owners, op: Operand, j: nat, nbOutputs: nat)
  {
    forall r :: r in out ==> r in out0 || NeedsOut(op, j, nbOutputs)
  }

  /** Letter c is tried under the given mask, and can be used: its register, if it needs one. */
  lemma TakesRegister(op0: Operand, op: Operand, j: nat, nbOutputs: nat, regs: seq<Mask>, p: nat)
    requires |regs| == NB_REGS && p < |op0.text| && 0 <= op.reg < NB_REGS && op == op0.(isRw := op.isRw, isLlong := false, reg := op.reg)
    requires var c, mask := op0.text[p], MaskAt(op0, j, nbOutputs, p);
      !op0.isMemory && (op.isRw <==> '+' in op0.text[..p]) && !Overlaps(regs[op.reg], mask) &&
      if c == 'q' || c == 'r' then
        op.reg < (if c == 'q' then 4 else 8) && forall r :: 0 <= r < op.reg ==> Overlaps(regs[r], mask)
      else NamedRegister(c) >= 0 && op.reg == NamedRegister(c)
    ensures Usable(op0, op0.text[p], j, nbOutputs, MaskAt(op0, j, nbOutputs, p), regs)
    ensures Takes(op0, op, j, nbOutputs, regs, regs[op.reg := Join(regs[op.reg], MaskAt(op0, j, nbOutputs, p))], p)
  {
    hide MaskAt;
    LetterRegister(op, op0.text[p]);
  }

  lemma TakesPair(op0: Operand, op: Operand, j: nat, nbOutputs: nat, regs: seq<Mask>, p: nat)
    requires |regs| == NB_REGS && p < |op0.text| && op0.text[p] == 'A' && op == op0.(isRw := op.isRw, isLlong := true, reg := EAX)
    requires !op0.isMemory && (op.isRw <==> '+' in op0.text[..p])
    ensures var mask := MaskAt(op0, j, nbOutputs, p);
      Takes(op0, op, j, nbOutputs, regs, regs[EAX := Join(regs[EAX], mask)][EDX := Join(regs[EDX], mask)], p)
  {
    hide MaskAt;
    LetterA(op);
  }

  lemma TakesReload(op0: Operand, op: Operand, j: nat, nbOutputs: nat, regs: seq<Mask>, p: nat)
    requires |regs| == NB_REGS && p < |op0.text| && 0 <= op.reg < NB_REGS && op == op0.(isRw := op.isRw, isMemory := true, reg := op.reg)
    requires (op0.text[p] == 'm' || op0.text[p] == 'g') && Reloads(op0, op0.text[p], j, nbOutputs) && (op.isRw <==> '+' in op0.text[..p])
    requires !regs[op.reg].inp && forall r :: 0 <= r < op.reg ==> regs[r].inp
    ensures Satisfies(op, op0.text[p])
    ensures Takes(op0, op, j, nbOutputs, regs, regs[op.reg := Join(regs[op.reg], Mask(true, false))], p)
    ensures Usable(op0, op0.text[p], j, nbOutputs, MaskAt(op0, j, nbOutputs, p), regs)
  {
    hide MaskAt;
    assert !Overlaps(regs[op.reg], Mask(true, false));
  }

  lemma PassedNext(op: Operand, j: nat, nbOutputs: nat, regs: seq<Mask>, p: nat)
    requires |regs| == NB_REGS && p < |op.text| && PassedOver(op, j, nbOutputs, regs, p)
    requires Passable(op.text[p], j, nbOutputs) && !Usable(op, op.text[p], j, nbOutputs, MaskAt(op, j, nbOutputs, p), regs)
    ensures PassedOver(op, j, nbOutputs, regs, p + 1)
  {
    hide MaskAt, Usable, Passable;
  }

  /** No letter can be used before one that may not stand there, or in the whole text. */
  lemma NoneUsable(op: Operand, j: nat, nbOutputs: nat, regs: seq<Mask>, p: nat)
    requires |regs| == NB_REGS && p <= |op.text| && PassedOver(op, j, nbOutputs, regs, p)
    requires p < |op.text| ==> !Passable(op.text[p], j, nbOutputs) && !Usable(op, op.text[p], j, nbOutputs, MaskAt(op, j, nbOutputs, p), regs)
    ensures forall q :: !FirstUsable(op, j, nbOutputs, regs, q)
  {
    hide MaskAt, Usable, Passable;
  }

  lemma MaskNext(op: Operand, j: nat, nbOutputs: nat, p: nat)
    requires p < |op.text|
    ensures MaskAt(op, j, nbOutputs, p + 1) == if op.text[p] == '+' || op.text[p] == '&' then BOTH else MaskAt(op, j, nbOutputs, p)
    ensures '+' in op.text[..p + 1] <==> op.text[p] == '+' || '+' in op.text[..p]
  {
    assert op.text[..p + 1] == op.text[..p] + [op.text[p]];
    if op.text[p] == '+' || op.text[p] == '&' { assert 0 <= p < p + 1; }
  }

  /** Taking one register. */
  lemma OneRegister(op: Operand, j: nat, nbOutputs: nat, regs: seq<Mask>, clobber: seq<bool>, inp: Owners, out: Owners, r: nat, m: Mask, p: nat)
    requires MarksHold(regs, clobber, inp, out) && r < NB_REGS && !Overlaps(regs[r], m) && (m.inp || m.out)
    requires op.reg == r && (op.isLlong ==> op.isMemory) && Covers(m, op, j, nbOutputs)
    requires p < |op.text| && Satisfies(op, op.text[p])
    ensures var inp', out' := Claim(inp, m.inp, r, j), Claim(out, m.out, r, j);
      MarksHold(regs[r := Join(regs[r], m)], clobber, inp', out') && Grows(inp, inp') && Grows(out, out') &&
      OnlyNew(inp, inp', j, Regs(op)) && OnlyNew(out, out', j, Regs(op)) &&
      Allocated(op, j, nbOutputs, clobber, inp', out')
  {
    hide Satisfies;
    Claimed(regs, clobber, inp, out, r, m, j);
  }

  /** Taking eax and edx. */
  lemma TwoRegisters(op: Operand, j: nat, nbOutputs: nat, regs: seq<Mask>, clobber: seq<bool>, inp: Owners, out: Owners, m: Mask, p: nat)
    requires MarksHold(regs, clobber, inp, out) && !Overlaps(regs[EAX], m) && !Overlaps(regs[EDX], m)
    requires op.reg == EAX && op.isLlong && !op.isMemory && Covers(m, op, j, nbOutputs)
    requires p < |op.text| && Satisfies(op, op.text[p])
    ensures var inp', out' := Claim(Claim(inp, m.inp, EAX, j), m.inp, EDX, j), Claim(Claim(out, m.out, EAX, j), m.out, EDX, j);
      MarksHold(regs[EAX := Join(regs[EAX], m)][EDX := Join(regs[EDX], m)], clobber, inp', out') && Grows(inp, inp') && Grows(out, out') &&
      OnlyNew(inp, inp', j, Regs(op)) && OnlyNew(out, out', j, Regs(op)) &&
      Allocated(op, j, nbOutputs, clobber, inp', out')
  {
    hide Satisfies;
    Claimed(regs, clobber, inp, out, EAX, m, j);
    Claimed(regs[EAX := Join(regs[EAX], m)], clobber, Claim(inp, m.inp, EAX, j), Claim(out, m.out, EAX, j), EDX, m, j);
  }

  /** The letters before p have been passed over. */
  predicate Trying(op0: Operand, op: Operand, j: nat, nbOutputs: nat, regs: seq<Mask>, mask: Mask, p: nat)
  {
    |regs| == NB_REGS && p <= |op0.text| && op0.reg == -1 && !op0.isMemory && op == op0.(isRw := op.isRw) &&
    mask == MaskAt(op0, j, nbOutputs, p) && (j >= nbOutputs || op.inputIndex >= 0 || op.isRw ==> mask.inp) &&
    (mask.out <==> j < nbOutputs || op.inputIndex >= 0) &&
    (op.isRw <==> '+' in op0.text[..p]) &&
    PassedOver(op0, j, nbOutputs, regs, p)
  }

  /** The outcome for one operand: the first usable letter taken, and what the operand then owns. */
  predicate Chosen(op0: Operand, op: Operand, j: nat, nbOutputs: nat, regs0: seq<Mask>, regs: seq<Mask>, clobber: seq<bool>,
                   inp0: Owners, out0: Owners, inp: Owners, out: Owners)
    requires |regs0| == NB_REGS
  {
    (exists p :: 0 <= p < |op0.text| && FirstUsable(op0, j, nbOutputs, regs0, p) && Takes(op0, op, j, nbOutputs, regs0, regs, p)) &&
    SameOperand(op0, op) && MarksHold(regs, clobber, inp, out) && Grows(inp0, inp) && Grows(out0, out) &&
    Allocated(op, j, nbOutputs, clobber, inp, out) && OnlyNew(inp0, inp, j, Regs(op)) && OnlyNew(out0, out, j, Regs(op)) &&
    OutputsNew(out0, out, op, j, nbOutputs)
  }

  /** A letter that is no modifier stands behind all of these, so an ampersand among them has been seen. */
  lemma LetterCovers(op0: Operand, op: Operand, j: nat, nbOutputs: nat, regs: seq<Mask>, mask: Mask, p: nat)
    requires Trying(op0, op, j, nbOutputs, regs, mask, p) && p < |op0.text| && !IsModifier(op0.text[p])
    ensures Covers(mask, op, j, nbOutputs)
  {
    hide PassedOver;
    var n := Prefix(op0.text);
    if EarlyClobber(op) {
      var q :| 0 <= q < n && op0.text[q] == '&';
      assert q < p;
    }
  }

  lemma ChosenPair(op0: Operand, op: Operand, j: nat, nbOutputs: nat, regs: seq<Mask>, clobber: seq<bool>, inp: Owners, out: Owners, mask: Mask, p: nat)
    requires Trying(op0, op, j, nbOutputs, regs, mask, p) && MarksHold(regs, clobber, inp, out)
    requires p < |op0.text| && op0.text[p] == 'A' && !Overlaps(regs[EAX], mask) && !Overlaps(regs[EDX], mask)
    ensures var inp', out' := Claim(Claim(inp, mask.inp, EAX, j), mask.inp, EDX, j), Claim(Claim(out, mask.out, EAX, j), mask.out, EDX, j);
      var op' := op.(isLlong := true, reg := EAX);
      Chosen(op0, op', j, nbOutputs, regs, regs[EAX := Join(regs[EAX], mask)][EDX := Join(regs[EDX], mask)], clobber, inp, out, inp', out')
  {
    hide MarksHold, Allocated, Satisfies, MaskAt, PassedOver, Takes, OnlyNew, Grows;
    var op' := op.(isLlong := true, reg := EAX);
    LetterA(op');
    LetterCovers(op0, op, j, nbOutputs, regs, mask, p);
    TakesPair(op0, op', j, nbOutputs, regs, p);
    TwoRegisters(op', j, nbOutputs, regs, clobber, inp, out, mask, p);
    assert FirstUsable(op0, j, nbOutputs, regs, p);
  }

  lemma ChosenRegister(op0: Operand, op: Operand, j: nat, nbOutputs: nat, regs: seq<Mask>, clobber: seq<bool>, inp: Owners, out: Owners,
                       mask: Mask, p: nat, r: nat)
    requires Trying(op0, op, j, nbOutputs, regs, mask, p) && MarksHold(regs, clobber, inp, out)
    requires p < |op0.text| && r < NB_REGS && !Overlaps(regs[r], mask)
    requires var c := op0.text[p];
      if c == 'q' || c == 'r' then r < (if c == 'q' then 4 else 8) && forall k :: 0 <= k < r ==> Overlaps(regs[k], mask)
      else r == NamedRegister(c)
    ensures Chosen(op0, op.(isLlong := false, reg := r), j, nbOutputs, regs, regs[r := Join(regs[r], mask)], clobber, inp, out,
                   Claim(inp, mask.inp, r, j), Claim(out, mask.out, r, j))
  {
    hide MarksHold, Allocated, Satisfies, MaskAt, PassedOver, Takes, OnlyNew, Grows;
    var op' := op.(isLlong := false, reg := r);
    LetterRegister(op', op0.text[p]);
    LetterCovers(op0, op, j, nbOutputs, regs, mask, p);
    TakesRegister(op0, op', j, nbOutputs, regs, p);
    OneRegister(op', j, nbOutputs, regs, clobber, inp, out, r, mask, p);
    assert FirstUsable(op0, j, nbOutputs, regs, p);
  }

  lemma ChosenNothing(op0: Operand, op: Operand, j: nat, nbOutputs: nat, regs: seq<Mask>, clobber: seq<bool>, inp: Owners, out: Owners, mask: Mask, p: nat)
    requires Trying(op0, op, j, nbOutputs, regs, mask, p) && MarksHold(regs, clobber, inp, out) && p < |op0.text|
    requires var c := op0.text[p];
      if c == 'm' || c == 'g' then !Reloads(op0, c, j, nbOutputs)
      else (c == 'i' && op.value.Constant?) || ((c == 'I' || c == 'N' || c == 'M') && op.value == Constant(false))
    ensures Chosen(op0, op, j, nbOutputs, regs, regs, clobber, inp, out, inp, out)
  {
    assert Allocated(op, j, nbOutputs, clobber, inp, out) && Grows(inp, inp) && Grows(out, out);
    assert OnlyNew(inp, inp, j, Regs(op)) && OnlyNew(out, out, j, Regs(op));
    hide MarksHold, Allocated, Satisfies, MaskAt, PassedOver, Takes, OnlyNew, Grows;
    assert FirstUsable(op0, j, nbOutputs, regs, p);
  }

  lemma ChosenReload(op0: Operand, op: Operand, j: nat, nbOutputs: nat, regs: seq<Mask>, clobber: seq<bool>, inp: Owners, out: Owners,
                     mask: Mask, p: nat, r: nat)
    requires Trying(op0, op, j, nbOutputs, regs, mask, p) && MarksHold(regs, clobber, inp, out) && p < |op0.text| && r < NB_REGS
    requires (op0.text[p] == 'm' || op0.text[p] == 'g') && Reloads(op0, op0.text[p], j, nbOutputs)
    requires !Overlaps(regs[r], Mask(true, false)) && forall k :: 0 <= k < r ==> Overlaps(regs[k], Mask(true, false))
    ensures Chosen(op0, op.(reg := r, isMemory := true), j, nbOutputs, regs, regs[r := Join(regs[r], Mask(true, false))], clobber, inp, out,
                   Claim(inp, true, r, j), out)
  {
    hide MarksHold, Allocated, Satisfies, MaskAt, PassedOver, Takes, OnlyNew, Grows;
    var op' := op.(reg := r, isMemory := true);
    TakesReload(op0, op', j, nbOutputs, regs, p);
    OneRegister(op', j, nbOutputs, regs, clobber, inp, out, r, Mask(true, false), p);
    assert FirstUsable(op0, j, nbOutputs, regs, p);
  }

  /** A letter that cannot be used, or a modifier. */
  lemma TryNext(op0: Operand, op: Operand, j: nat, nbOutputs: nat, regs: seq<Mask>, mask: Mask, p: nat)
    requires Trying(op0, op, j, nbOutputs, regs, mask, p) && p < |op0.text|
    ensures (op0.text[p] == '+' || op0.text[p] == '&') && j < nbOutputs ==>
      Trying(op0, op.(isRw := op.isRw || op0.text[p] == '+'), j, nbOutputs, regs, BOTH, p + 1)
    ensures op0.text[p] != '+' && op0.text[p] != '&' && Passable(op0.text[p], j, nbOutputs) && !Usable(op0, op0.text[p], j, nbOutputs, mask, regs) ==>
      Trying(op0, op, j, nbOutputs, regs, mask, p + 1)
  {
    hide MaskAt, PassedOver;
    MaskNext(op0, j, nbOutputs, p);
    if Passable(op0.text[p], j, nbOutputs) && !Usable(op0, op0.text[p], j, nbOutputs, mask, regs) {
      PassedNext(op0, j, nbOutputs, regs, p);
    }
  }

  lemma TryFails(op0: Operand, op: Operand, j: nat, nbOutputs: nat, regs: seq<Mask>, mask: Mask, p: nat)
    requires Trying(op0, op, j, nbOutputs, regs, mask, p)
    requires p < |op0.text| ==> !Passable(op0.text[p], j, nbOutputs)
    ensures forall q :: !FirstUsable(op0, j, nbOutputs, regs, q)
  {
    hide MaskAt, PassedOver;
    if p < |op0.text| { Known(op0.text[p]); }
    NoneUsable(op0, j, nbOutputs, regs, p);
  }

  /** The switch of the allocation loop for one operand: its letters are tried in turn. */
  method AllocOperand(op0: Operand, j: nat, nbOutputs: nat, regs0: seq<Mask>, ghost clobber: seq<bool>, ghost inp0: Owners, ghost out0: Owners)
    returns (ok: bool, op: Operand, regs: seq<Mask>, ghost inp: Owners, ghost out: Owners)
    requires |regs0| == NB_REGS && MarksHold(regs0, clobber, inp0, out0) && op0.reg == -1 && !op0.isMemory && !op0.isRw
    ensures if ok then exists p :: 0 <= p < |op0.text| && FirstUsable(op0, j, nbOutputs, regs0, p) && Takes(op0, op, j, nbOutputs, regs0, regs, p)
            else regs == regs0 && forall p :: !FirstUsable(op0, j, nbOutputs, regs0, p)
    ensures if ok then Chosen(op0, op, j, nbOutputs, regs0, regs, clobber, inp0, out0, inp, out) else inp == inp0 && out == out0
  {
    hide MarksHold, Chosen, Trying, FirstUsable, Overlaps, Takes;
    op, regs, inp, out := op0, regs0, inp0, out0;
    var mask := if op.inputIndex >= 0 then BOTH else if j < nbOutputs then Mask(false, true) else Mask(true, false);
    var p := 0;
    TryBegins(op0, j, nbOutputs, regs0);
    while p < |op0.text|
      invariant p <= |op0.text| && op == op0.(isRw := op.isRw) && regs == regs0 && inp == inp0 && out == out0
      invariant Trying(op0, op, j, nbOutputs, regs, mask, p)
    {
      var c := op.text[p];
      var reg := -1;
      Known(c);
      TryNext(op0, op, j, nbOutputs, regs, mask, p);
      if c == '=' {
      } else if c == '+' || c == '&' {
        if j >= nbOutputs { TryFails(op0, op, j, nbOutputs, regs, mask, p); return false, op, regs, inp, out; }
        if c == '+' { op := op.(isRw := true); }
        mask := BOTH;
      } else if c == 'A' {
        if !Overlaps(regs[EAX], mask) && !Overlaps(regs[EDX], mask) {
          ChosenPair(op0, op, j, nbOutputs, regs, clobber, inp, out, mask, p);
          op := op.(isLlong := true, reg := EAX);
          regs := regs[EAX := Join(regs[EAX], mask)][EDX := Join(regs[EDX], mask)];
          inp, out := Claim(Claim(inp, mask.inp, EAX, j), mask.inp, EDX, j), Claim(Claim(out, mask.out, EAX, j), mask.out, EDX, j);
          ChosenTakes(op0, op, j, nbOutputs, regs0, regs, clobber, inp0, out0, inp, out);
          return true, op, regs, inp, out;
        }
      } else if NamedRegister(c) >= 0 {
        if !Overlaps(regs[NamedRegister(c)], mask) { reg := NamedRegister(c); }
      } else if c == 'q' || c == 'r' {
        var limit := if c == 'q' then 4 else 8;
        var free := FindFree(regs, mask, limit);
        if free < limit { reg := free; }
      } else if c == 'i' || c == 'I' || c == 'N' || c == 'M' {
        if if c == 'i' then op.value.Constant? else op.value == Constant(false) {
          ChosenNothing(op0, op, j, nbOutputs, regs, clobber, inp, out, mask, p);
          ChosenTakes(op0, op, j, nbOutputs, regs0, regs, clobber, inp0, out0, inp, out);
          return true, op, regs, inp, out;
        }
      } else if c == 'm' || c == 'g' {
        if (j < nbOutputs || c == 'm') && op.value.SlotPointer? {
          var free := FindFree(regs, Mask(true, false), 8);
          if free < 8 {
            ChosenReload(op0, op, j, nbOutputs, regs, clobber, inp, out, mask, p, free);
            op := op.(reg := free, isMemory := true);
            regs := regs[free := Join(regs[free], Mask(true, false))];
            inp := Claim(inp, true, free, j);
            ChosenTakes(op0, op, j, nbOutputs, regs0, regs, clobber, inp0, out0, inp, out);
            return true, op, regs, inp, out;
          }
        } else {
          ChosenNothing(op0, op, j, nbOutputs, regs, clobber, inp, out, mask, p);
          ChosenTakes(op0, op, j, nbOutputs, regs0, regs, clobber, inp0, out0, inp, out);
          return true, op, regs, inp, out;
        }
      } else {
        TryFails(op0, op, j, nbOutputs, regs, mask, p);
        return false, op, regs, inp, out;
      }
      if reg >= 0 {
        ChosenRegister(op0, op, j, nbOutputs, regs, clobber, inp, out, mask, p, reg);
        op := op.(isLlong := false, reg := reg);
        regs := regs[reg := Join(regs[reg], mask)];
        inp, out := Claim(inp, mask.inp, reg, j), Claim(out, mask.out, reg, j);
        ChosenTakes(op0, op, j, nbOutputs, regs0, regs, clobber, inp0, out0, inp, out);
        return true, op, regs, inp, out;
      }
      p := p + 1;
    }
    TryFails(op0, op, j, nbOutputs, regs, mask, p);
    ok := false;
  }

  lemma ChosenTakes(op0: Operand, op: Operand, j: nat, nbOutputs: nat, regs0: seq<Mask>, regs: seq<Mask>, clobber: seq<bool>,
                    inp0: Owners, out0: Owners, inp: Owners, out: Owners)
    requires |regs0| == NB_REGS && Chosen(op0, op, j, nbOutputs, regs0, regs, clobber, inp0, out0, inp, out)
    ensures exists p :: 0 <= p < |op0.text| && FirstUsable(op0, j, nbOutputs, regs0, p) && Takes(op0, op, j, nbOutputs, regs0, regs, p)
    ensures SameOperand(op0, op) && op.inputIndex == op0.inputIndex
  {}

  lemma TryBegins(op: Operand, j: nat, nbOutputs: nat, regs: seq<Mask>)
    requires |regs| == NB_REGS && op.reg == -1 && !op.isMemory && !op.isRw
    ensures Trying(op, op, j, nbOutputs, regs, if op.inputIndex >= 0 then BOTH else if j < nbOutputs then Mask(false, true) else Mask(true, false), 0)
  {
    hide PassedOver, MaskAt;
    MaskBegins(op, j, nbOutputs, regs);
  }

  lemma MaskBegins(op: Operand, j: nat, nbOutputs: nat, regs: seq<Mask>)
    requires |regs| == NB_REGS
    ensures MaskAt(op, j, nbOutputs, 0) == if op.inputIndex >= 0 then BOTH else if j < nbOutputs then Mask(false, true) else Mask(true, false)
    ensures PassedOver(op, j, nbOutputs, regs, 0)
  {}

  /** The letters the allocation knows are those with a priority. */
  lemma Known(c: char)
    ensures LetterPriority(c).Some? <==> c in "AqriINMmg" || NamedRegister(c) >= 0
  {}

  lemma LetterA(op: Operand)
    requires op.reg == EAX && op.isLlong && !op.isMemory
    ensures Satisfies(op, 'A')
  {}

  lemma LetterRegister(op: Operand, c: char)
    requires !op.isLlong && !op.isMemory
    requires (c == 'q' && 0 <= op.reg < 4) || (c == 'r' && 0 <= op.reg < NB_REGS) || (NamedRegister(c) >= 0 && op.reg == NamedRegister(c))
    ensures Satisfies(op, c)
  {}

  // ----- references -----

  function Ids(ops: seq<Operand>): (ids: seq<Option<string>>)
    ensures |ids| == |ops|
  {
    seq(|ops|, i requires 0 <= i < |ops| => ops[i].id)
  }

  function Letters(op: Operand): string { op.text[Prefix(op.text)..] }

  predicate IsReference(op: Operand) { Letters(op) != [] && (IsNum(Letters(op)[0]) || Letters(op)[0] == '[') }

  /** Reference and referenced operand know each other; only an input may refer, and only backwards. */
  predicate Linked(ops: seq<Operand>, nbOutputs: nat)
  {
    (forall i :: 0 <= i < |ops| && ops[i].refIndex >= 0 ==>
      nbOutputs <= i && ops[i].refIndex < i && ops[ops[i].refIndex].inputIndex == i) &&
    forall k :: 0 <= k < |ops| && ops[k].inputIndex >= 0 ==> ops[k].inputIndex < |ops| && ops[ops[k].inputIndex].refIndex == k
  }

  /** The reference of an operand is the one its text names, or it has none; else the priority is the largest among its letters. */
  ghost predicate Resolved(ids: seq<Option<string>>, op: Operand)
  {
    if IsReference(op) then op.refIndex >= 0 && Refers(ids, Letters(op), op.refIndex) && op.priority == 5
    else op.refIndex == -1 && LargestPriority(Letters(op), op.priority)
  }

  predicate LargestPriority(s: string, priority: nat)
  {
    (forall p :: 0 <= p < |s| ==> LetterPriority(s[p]).Some? && LetterPriority(s[p]).value <= priority) &&
    (priority == 0 || exists p :: 0 <= p < |s| && LetterPriority(s[p]) == Some(priority))
  }

  /** Before allocation. */
  predicate Fresh(op: Operand) { op.reg == -1 && !op.isMemory && !op.isRw }

  /** Same constraint, name and value. */
  predicate SameText(a: Operand, b: Operand) { b.text == a.text && b.id == a.id && b.value == a.value }

  /** The first n operands have been looked at. */
  ghost predicate ResolvedSoFar(ops0: seq<Operand>, ops: seq<Operand>, nbOutputs: nat, n: nat)
  {
    |ops| == |ops0| && Linked(ops, nbOutputs) &&
    (forall k :: 0 <= k < |ops| ==> SameText(ops0[k], ops[k]) && Fresh(ops[k]) && ops[k].isLlong == ops0[k].isLlong && ops[k].inputIndex >= -1) &&
    (forall k :: 0 <= k < n && k < |ops| ==> Resolved(Ids(ops0), ops[k])) &&
    forall k :: n <= k < |ops| ==> ops[k].refIndex == -1 && ops[k].inputIndex == -1
  }

  /** The first loop: fields reset. */
  method ResetAll(ops: array<Operand>, nbOutputs: nat)
    modifies ops
    ensures ResolvedSoFar(old(ops[..]), ops[..], nbOutputs, 0)
  {
    var i := 0;
    while i < ops.Length
      invariant i <= ops.Length && forall k :: 0 <= k < ops.Length ==> SameText(old(ops[k]), ops[k]) && ops[k].isLlong == old(ops[k]).isLlong
      invariant forall k :: 0 <= k < i ==> Fresh(ops[k]) && ops[k].refIndex == -1 && ops[k].inputIndex == -1
    {
      ops[i] := ops[i].(inputIndex := -1, refIndex := -1, reg := -1, isMemory := false, isRw := false);
      i := i + 1;
    }
  }

  lemma ReferenceStep(ops0: seq<Operand>, ops: seq<Operand>, nbOutputs: nat, i: nat, k: nat)
    requires ResolvedSoFar(ops0, ops, nbOutputs, i) && k < i < |ops| && nbOutputs <= i && ops[k].inputIndex < 0
    requires IsReference(ops[i]) && Refers(Ids(ops0), Letters(ops[i]), k)
    ensures ResolvedSoFar(ops0, ops[i := ops[i].(refIndex := k, priority := 5)][k := ops[k].(inputIndex := i)], nbOutputs, i + 1)
  {
    hide Refers, Letters, IsReference, LetterPriority, Prefix, Ids;
    var ops' := ops[i := ops[i].(refIndex := k, priority := 5)][k := ops[k].(inputIndex := i)];
    LinkAdded(ops, ops', nbOutputs, k, i);
    forall m | 0 <= m <= i ensures Resolved(Ids(ops0), ops'[m]) { SameReference(ops[m], ops'[m]); }
  }

  lemma PriorityStep(ops0: seq<Operand>, ops: seq<Operand>, nbOutputs: nat, i: nat, priority: nat)
    requires ResolvedSoFar(ops0, ops, nbOutputs, i) && i < |ops| && !IsReference(ops[i])
    requires LargestPriority(Letters(ops[i]), priority)
    ensures ResolvedSoFar(ops0, ops[i := ops[i].(priority := priority)], nbOutputs, i + 1)
  {
    hide Refers, Letters, IsReference, LetterPriority, Prefix, Ids;
    var ops' := ops[i := ops[i].(priority := priority)];
    forall m | 0 <= m <= i ensures Resolved(Ids(ops0), ops'[m]) { SameReference(ops[m], ops'[m]); }
  }

  lemma IdsSame(ops0: seq<Operand>, ops: seq<Operand>, nbOutputs: nat, n: nat)
    requires ResolvedSoFar(ops0, ops, nbOutputs, n)
    ensures |ops| == |ops0| && Ids(ops) == Ids(ops0)
  {
    assert forall k :: 0 <= k < |ops| ==> SameText(ops0[k], ops[k]);
  }

  /** What the second loop asks of operand i: a reference names an earlier operand, which no operand before i refers to; other letters are known. */
  ghost predicate ResolvableAt(ops0: seq<Operand>, nbOutputs: nat, i: nat)
    requires i < |ops0|
  {
    if IsReference(ops0[i]) then
      exists k :: 0 <= k < i && nbOutputs <= i && Refers(Ids(ops0), Letters(ops0[i]), k) && Unreferenced(ops0, i, k)
    else forall p :: 0 <= p < |Letters(ops0[i])| ==> LetterPriority(Letters(ops0[i])[p]).Some?
  }

  ghost predicate Unreferenced(ops0: seq<Operand>, i: nat, k: int)
    requires i <= |ops0|
  {
    forall m :: 0 <= m < i && IsReference(ops0[m]) ==> !Refers(Ids(ops0), Letters(ops0[m]), k)
  }

  ghost predicate Resolvable(ops0: seq<Operand>, nbOutputs: nat) { forall i :: 0 <= i < |ops0| ==> ResolvableAt(ops0, nbOutputs, i) }

  /** A text refers to one operand at most. */
  lemma RefersOnce(ids: seq<Option<string>>, s: string, k: int, k': int)
    requires Refers(ids, s, k) && Refers(ids, s, k')
    ensures k == k'
  {
    if s != [] && !IsNum(s[0]) && s[0] == '[' && ']' in s {
      var p :| 1 <= p < |s| && s[p] == ']' && ']' !in s[1..p] &&
        if Some(s[1..p]) in ids then 0 <= k < |ids| && ids[k] == Some(s[1..p]) && Some(s[1..p]) !in ids[..k] else k == -1;
      var p' :| 1 <= p' < |s| && s[p'] == ']' && ']' !in s[1..p'] &&
        if Some(s[1..p']) in ids then 0 <= k' < |ids| && ids[k'] == Some(s[1..p']) && Some(s[1..p']) !in ids[..k'] else k' == -1;
      if p < p' { InSlice(s, 1, p', p); }
      if p' < p { InSlice(s, 1, p, p'); }
    }
  }

  lemma InSlice<T>(s: seq<T>, a: nat, b: nat, i: nat)
    requires a <= i < b <= |s|
    ensures s[i] in s[a..b]
  {
    assert s[a..b][i - a] == s[i];
  }

  /** The texts of the references already looked at name just the operands that have an input. */
  lemma ReferencedIs(ops0: seq<Operand>, ops: seq<Operand>, nbOutputs: nat, i: nat, k: nat)
    requires ResolvedSoFar(ops0, ops, nbOutputs, i) && i <= |ops| && k < |ops|
    ensures |ops| == |ops0| && (Unreferenced(ops0, i, k) <==> ops[k].inputIndex < 0)
  {
    hide Refers, Letters, IsReference, LetterPriority, Prefix, Ids;
    forall m | 0 <= m < i && IsReference(ops0[m]) && Refers(Ids(ops0), Letters(ops0[m]), k) ensures ops[k].inputIndex == m {
      SameReference(ops0[m], ops[m]);
      RefersOnce(Ids(ops0), Letters(ops[m]), k, ops[m].refIndex);
    }
    if ops[k].inputIndex >= 0 {
      var m := ops[k].inputIndex;
      SameReference(ops0[m], ops[m]);
      assert Resolved(Ids(ops0), ops[m]);
    }
  }

  lemma ResolvedAt(ops0: seq<Operand>, ops: seq<Operand>, nbOutputs: nat, i: nat)
    requires i < |ops| == |ops0| && ResolvedSoFar(ops0, ops, nbOutputs, i)
    requires if IsReference(ops[i]) then exists k :: 0 <= k < i && nbOutputs <= i && Refers(Ids(ops0), Letters(ops[i]), k) && ops[k].inputIndex < 0
             else forall p :: 0 <= p < |Letters(ops[i])| ==> LetterPriority(Letters(ops[i])[p]).Some?
    ensures ResolvableAt(ops0, nbOutputs, i)
  {
    hide Refers, Letters, IsReference, LetterPriority, Prefix, Ids, ResolvedSoFar;
    TextAt(ops0, ops, nbOutputs, i);
    if IsReference(ops[i]) {
      var k :| 0 <= k < i && nbOutputs <= i && Refers(Ids(ops0), Letters(ops[i]), k) && ops[k].inputIndex < 0;
      ReferencedIs(ops0, ops, nbOutputs, i, k);
    }
  }

  lemma TextAt(ops0: seq<Operand>, ops: seq<Operand>, nbOutputs: nat, i: nat)
    requires i < |ops| == |ops0| && ResolvedSoFar(ops0, ops, nbOutputs, i)
    ensures ops0[i].text == ops[i].text && Letters(ops0[i]) == Letters(ops[i]) && (IsReference(ops0[i]) <==> IsReference(ops[i]))
  {
    SameReference(ops0[i], ops[i]);
  }

  lemma ReferenceFails(ops0: seq<Operand>, ops: seq<Operand>, nbOutputs: nat, i: nat, k: int)
    requires i < |ops| == |ops0| && ResolvedSoFar(ops0, ops, nbOutputs, i) && IsReference(ops[i]) && Refers(Ids(ops0), Letters(ops[i]), k)
    requires k < 0 || k >= i || i < nbOutputs || ops[k].inputIndex >= 0
    ensures !Resolvable(ops0, nbOutputs)
  {
    hide Refers, Letters, IsReference, LetterPriority, Prefix, Ids, ResolvedSoFar;
    TextAt(ops0, ops, nbOutputs, i);
    if ResolvableAt(ops0, nbOutputs, i) {
      var k' :| 0 <= k' < i && nbOutputs <= i && Refers(Ids(ops0), Letters(ops0[i]), k') && Unreferenced(ops0, i, k');
      RefersOnce(Ids(ops0), Letters(ops[i]), k, k');
      ReferencedIs(ops0, ops, nbOutputs, i, k');
    }
  }

  lemma LargestOnce(s: string, p: nat, q: nat)
    requires LargestPriority(s, p) && LargestPriority(s, q)
    ensures p == q
  {}

  /** The resolved operands are determined by the given ones. */
  lemma ResolvedOnce(ops0: seq<Operand>, a: seq<Operand>, b: seq<Operand>, nbOutputs: nat)
    requires ResolvedSoFar(ops0, a, nbOutputs, |a|) && ResolvedSoFar(ops0, b, nbOutputs, |b|)
    ensures a == b
  {
    hide Refers, Letters, IsReference, LargestPriority, Ids;
    assert |a| == |b| == |ops0|;
    forall k | 0 <= k < |a| ensures a[k].refIndex == b[k].refIndex && a[k].priority == b[k].priority {
      assert Resolved(Ids(ops0), a[k]) && Resolved(Ids(ops0), b[k]);
      SameReference(a[k], b[k]);
      if IsReference(a[k]) {
        RefersOnce(Ids(ops0), Letters(a[k]), a[k].refIndex, b[k].refIndex);
      } else {
        LargestOnce(Letters(a[k]), a[k].priority, b[k].priority);
      }
    }
    forall k | 0 <= k < |a| ensures a[k] == b[k] {
      if a[k].inputIndex >= 0 { assert b[a[k].inputIndex].refIndex == k; }
      if b[k].inputIndex >= 0 { assert a[b[k].inputIndex].refIndex == k; }
    }
  }

  /** The second loop: references resolved, priorities computed. */
  method ResolveAll(ops: array<Operand>, nbOutputs: nat, ghost ops0: seq<Operand>) returns (ok: bool)
    requires ResolvedSoFar(ops0, ops[..], nbOutputs, 0)
    modifies ops
    ensures ok ==> ResolvedSoFar(ops0, ops[..], nbOutputs, ops.Length)
    ensures ok <==> Resolvable(ops0, nbOutputs)
  {
    hide Refers, Letters, IsReference, LetterPriority, Prefix, ResolvedSoFar, ResolvableAt;
    var i := 0;
    IdsSame(ops0, ops[..], nbOutputs, 0);
    while i < ops.Length
      invariant i <= ops.Length && ResolvedSoFar(ops0, ops[..], nbOutputs, i)
      invariant forall m :: 0 <= m < i ==> ResolvableAt(ops0, nbOutputs, m)
    {
      ghost var before := ops[..];
      IdsSame(ops0, before, nbOutputs, i);
      TextAt(ops0, before, nbOutputs, i);
      var str := Letters(ops[i]);
      if IsReference(ops[i]) {
        var k := FindConstraint(Ids(ops[..]), str);
        if k < 0 || k >= i || i < nbOutputs {
          ReferenceFails(ops0, before, nbOutputs, i, k);
          return false;
        }
        if ops[k].inputIndex >= 0 {
          ReferenceFails(ops0, before, nbOutputs, i, k);
          return false;
        }
        ResolvedAt(ops0, before, nbOutputs, i);
        ReferenceStep(ops0, before, nbOutputs, i, k);
        ops[i] := ops[i].(refIndex := k, priority := 5);
        ops[k] := ops[k].(inputIndex := i);
        assert ops[..] == before[i := before[i].(refIndex := k, priority := 5)][k := before[k].(inputIndex := i)];
      } else {
        var known, priority := ConstraintPriority(str);
        if !known {
          UnknownFails(ops0, nbOutputs, i);
          return false;
        }
        ResolvedAt(ops0, before, nbOutputs, i);
        PriorityStep(ops0, before, nbOutputs, i, priority);
        ops[i] := ops[i].(priority := priority);
        assert ops[..] == before[i := before[i].(priority := priority)];
      }
      i := i + 1;
    }
    ok := true;
  }

  lemma UnknownFails(ops0: seq<Operand>, nbOutputs: nat, i: nat)
    requires i < |ops0| && !IsReference(ops0[i])
    requires exists p :: 0 <= p < |Letters(ops0[i])| && LetterPriority(Letters(ops0[i])[p]).None?
    ensures !Resolvable(ops0, nbOutputs)
  {
    hide Letters, IsReference, LetterPriority;
    assert !ResolvableAt(ops0, nbOutputs, i);
  }

  lemma LinkAdded(ops: seq<Operand>, ops': seq<Operand>, nbOutputs: nat, k: nat, i: nat)
    requires Linked(ops, nbOutputs) && k < i < |ops| && nbOutputs <= i && |ops'| == |ops|
    requires ops[k].inputIndex < 0 && ops[i].refIndex < 0
    requires ops' == ops[i := ops'[i]][k := ops'[k]] && ops'[i] == ops[i].(refIndex := k, priority := 5) && ops'[k] == ops[k].(inputIndex := i)
    ensures Linked(ops', nbOutputs)
  {}

  lemma SameReference(a: Operand, b: Operand)
    requires a.text == b.text
    ensures Letters(a) == Letters(b) && (IsReference(a) <==> IsReference(b))
  {}

  // ----- order of allocation -----

  /** Every operand once. */
  predicate IsPermutation(order: seq<nat>, n: nat)
  {
    |order| == n && (forall a :: 0 <= a < n ==> order[a] < n) && (forall a, b :: 0 <= a < b < n ==> order[a] != order[b]) &&
    forall i :: 0 <= i < n ==> i in order
  }

  lemma Swapped(order: seq<nat>, n: nat, i: nat, j: nat)
    requires IsPermutation(order, n) && i < j < n
    ensures IsPermutation(order[i := order[j]][j := order[i]], n)
  {
    var order' := order[i := order[j]][j := order[i]];
    forall k | 0 <= k < n ensures k in order' {
      assert k in order;
      var a :| 0 <= a < |order| && order[a] == k;
      var b := if a == i then j else if a == j then i else a;
      assert order'[b] == k;
    }
  }

  /** The first i places hold the i best priorities, in order. */
  predicate SortedTo(pr: seq<nat>, order: seq<nat>, i: nat)
    requires InRange(order, |pr|)
  {
    forall a, b :: 0 <= a < i && a < b < |pr| ==> pr[order[a]] <= pr[order[b]]
  }

  /** Place i is no worse than the places after it below j. */
  predicate BestOf(pr: seq<nat>, order: seq<nat>, i: nat, j: nat)
    requires InRange(order, |pr|)
  {
    forall b :: i < b < j && b < |pr| && i < |pr| ==> pr[order[i]] <= pr[order[b]]
  }

  lemma ExchangeKeeps(pr: seq<nat>, order: seq<nat>, i: nat, j: nat)
    requires InRange(order, |pr|) && i < j < |pr| && SortedTo(pr, order, i) && BestOf(pr, order, i, j)
    ensures pr[order[j]] >= pr[order[i]] ==> BestOf(pr, order, i, j + 1)
    ensures var order' := order[i := order[j]][j := order[i]];
      InRange(order', |pr|) && SortedTo(pr, order', i) && (pr[order[j]] < pr[order[i]] ==> BestOf(pr, order', i, j + 1))
  {}

  lemma PlaceDone(pr: seq<nat>, order: seq<nat>, i: nat)
    requires InRange(order, |pr|) && SortedTo(pr, order, i) && BestOf(pr, order, i, |pr|)
    ensures SortedTo(pr, order, i + 1)
  {}

  function Swap(order: seq<nat>, i: nat, j: nat): seq<nat>
    requires i < |order| && j < |order|
  {
    order[i := order[j]][j := order[i]]
  }

  /** Place i against the places from j on: exchanged whenever the other one is better. */
  function Exchange(pr: seq<nat>, order: seq<nat>, i: nat, j: nat): (r: seq<nat>)
    requires InRange(order, |pr|) && i < j <= |pr|
    ensures InRange(r, |pr|)
    decreases |pr| - j
  {
    if j == |pr| then order else Exchange(pr, if pr[order[j]] < pr[order[i]] then Swap(order, i, j) else order, i, j + 1)
  }

  function SortFrom(pr: seq<nat>, order: seq<nat>, i: nat): (r: seq<nat>)
    requires InRange(order, |pr|)
    ensures InRange(r, |pr|)
    decreases |pr| - i
  {
    if i + 1 >= |pr| then order else SortFrom(pr, Exchange(pr, order, i, i + 1), i + 1)
  }

  /** The order the exchange sort leaves: ties are not kept in order, so it is more than a sorted permutation. */
  function ExchangeSort(pr: seq<nat>): (r: seq<nat>)
    ensures InRange(r, |pr|)
  {
    SortFrom(pr, seq(|pr|, k => k), 0)
  }

  function Priorities(ops: seq<Operand>): (pr: seq<nat>)
    ensures |pr| == |ops|
  {
    seq(|ops|, k requires 0 <= k < |ops| => ops[k].priority)
  }

  lemma ExchangeAt(pr: seq<nat>, order: seq<nat>, i: nat, j: nat)
    requires InRange(order, |pr|) && i < j < |pr|
    ensures InRange(Swap(order, i, j), |pr|)
    ensures Exchange(pr, order, i, j) == Exchange(pr, if pr[order[j]] < pr[order[i]] then Swap(order, i, j) else order, i, j + 1)
  {}

  lemma SortAt(pr: seq<nat>, order: seq<nat>, i: nat)
    requires InRange(order, |pr|) && i + 1 < |pr|
    ensures SortFrom(pr, order, i) == SortFrom(pr, Exchange(pr, order, i, i + 1), i + 1)
  {}

  lemma ExchangeDone(pr: seq<nat>, order: seq<nat>, i: nat)
    requires InRange(order, |pr|) && i < |pr|
    ensures Exchange(pr, order, i, |pr|) == order
  {}

  lemma SortDone(pr: seq<nat>, order: seq<nat>, i: nat)
    requires InRange(order, |pr|) && i + 1 >= |pr|
    ensures SortFrom(pr, order, i) == order
  {}

  /** The inner loop of the exchange sort: place i against all places behind it. */
  method ExchangePlace(ops: array<Operand>, sorted: array<nat>, i: nat, ghost pr: seq<nat>)
    requires pr == Priorities(ops[..]) && i < |pr| && IsPermutation(sorted[..], |pr|) && InRange(sorted[..], |pr|) && SortedTo(pr, sorted[..], i)
    modifies sorted
    ensures IsPermutation(sorted[..], |pr|) && InRange(sorted[..], |pr|) && SortedTo(pr, sorted[..], i + 1)
    ensures InRange(old(sorted[..]), |pr|) && sorted[..] == Exchange(pr, old(sorted[..]), i, i + 1)
  {
    hide IsPermutation, SortedTo, BestOf, Exchange, Swap;
    ghost var order := sorted[..];
    var j := i + 1;
    BestOfNone(pr, order, i);
    while j < ops.Length
      invariant i < j <= ops.Length && IsPermutation(sorted[..], |pr|) && InRange(sorted[..], |pr|)
      invariant SortedTo(pr, sorted[..], i) && BestOf(pr, sorted[..], i, j)
      invariant Exchange(pr, sorted[..], i, j) == Exchange(pr, order, i, i + 1)
    {
      ghost var before := sorted[..];
      ExchangeKeeps(pr, before, i, j);
      ExchangeAt(pr, before, i, j);
      if ops[sorted[j]].priority < ops[sorted[i]].priority {
        Swapped(before, |pr|, i, j);
        SwapIs(before, i, j);
        sorted[i], sorted[j] := sorted[j], sorted[i];
        assert sorted[..] == before[i := before[j]][j := before[i]];
      }
      j := j + 1;
    }
    ExchangeDone(pr, sorted[..], i);
    PlaceDone(pr, sorted[..], i);
  }

  /** The exchange sort by priority. */
  method SortOperands(ops: array<Operand>) returns (sorted: array<nat>)
    ensures fresh(sorted) && sorted[..] == ExchangeSort(Priorities(ops[..])) && IsPermutation(sorted[..], ops.Length)
    ensures forall a, b :: 0 <= a < b < ops.Length ==> ops[sorted[a]].priority <= ops[sorted[b]].priority
  {
    hide IsPermutation, SortedTo, Exchange, SortFrom;
    var n := ops.Length;
    ghost var pr := Priorities(ops[..]);
    sorted := new nat[n];
    var i := 0;
    while i < n
      invariant i <= n && forall a :: 0 <= a < i ==> sorted[a] == a
    {
      sorted[i] := i;
      i := i + 1;
    }
    Identity(sorted[..], n);
    assert sorted[..] == seq(n, k => k);
    i := 0;
    SortBegins(pr, sorted[..]);
    while i < n - 1
      invariant 0 <= i && IsPermutation(sorted[..], n) && InRange(sorted[..], n) && SortedTo(pr, sorted[..], i)
      invariant n > 0 ==> i < n
      invariant SortFrom(pr, sorted[..], i) == ExchangeSort(pr)
    {
      SortAt(pr, sorted[..], i);
      ExchangePlace(ops, sorted, i, pr);
      i := i + 1;
    }
    SortDone(pr, sorted[..], i);
    AllSorted(pr, sorted[..], i);
  }

  lemma SwapIs(order: seq<nat>, i: nat, j: nat)
    requires i < |order| && j < |order|
    ensures Swap(order, i, j) == order[i := order[j]][j := order[i]]
  {}

  lemma SortBegins(pr: seq<nat>, order: seq<nat>)
    requires InRange(order, |pr|)
    ensures SortedTo(pr, order, 0)
  {}

  lemma BestOfNone(pr: seq<nat>, order: seq<nat>, i: nat)
    requires InRange(order, |pr|)
    ensures BestOf(pr, order, i, i + 1)
  {}

  lemma AllSorted(pr: seq<nat>, order: seq<nat>, i: nat)
    requires InRange(order, |pr|) && SortedTo(pr, order, i) && i >= |pr| - 1
    ensures forall a, b :: 0 <= a < b < |pr| ==> pr[order[a]] <= pr[order[b]]
  {}

  predicate InRange(order: seq<nat>, n: nat) { |order| == n && forall a :: 0 <= a < n ==> order[a] < n }

  lemma Identity(order: seq<nat>, n: nat)
    requires |order| == n && forall a :: 0 <= a < n ==> order[a] == a
    ensures IsPermutation(order, n) && InRange(order, n)
  {
    forall i | 0 <= i < n ensures i in order { assert order[i] == i; }
  }

  // ----- allocation -----

  /** A matching input follows its target, unless the target is itself a matching input and so gets nothing to follow. */
  predicate Copied(ops: seq<Operand>, m: nat)
    requires m < |ops| && ops[m].refIndex < |ops|
  {
    ops[m].refIndex >= 0 ==>
      var k := ops[m].refIndex;
      if ops[k].refIndex >= 0 then ops[m].reg == -1
      else ops[m].reg == ops[k].reg && (ops[m].reg >= 0 ==> ops[m].isLlong == ops[k].isLlong)
  }

  /** Every owner has been allocated the register it owns. */
  predicate OwnersHold(ops: seq<Operand>, done: seq<nat>, o: Owners)
  {
    forall r :: r in o ==> o[r] in done && o[r] < |ops| && ops[o[r]].refIndex < 0 && r in Regs(ops[o[r]])
  }

  predicate OutputsHold(ops: seq<Operand>, nbOutputs: nat, out: Owners)
  {
    forall r :: r in out ==> out[r] < |ops| && NeedsOut(ops[out[r]], out[r], nbOutputs)
  }

  /** The operands in `done` have been allocated, the others are as they were. */
  predicate Progress(ops: seq<Operand>, done: seq<nat>, nbOutputs: nat, clobber: seq<bool>, regs: seq<Mask>, inp: Owners, out: Owners)
  {
    MarksHold(regs, clobber, inp, out) && OwnersHold(ops, done, inp) && OwnersHold(ops, done, out) &&
    OutputsHold(ops, nbOutputs, out) && Linked(ops, nbOutputs) &&
    (forall j :: 0 <= j < |ops| && ops[j].refIndex < 0 ==>
      if j in done then Allocated(ops[j], j, nbOutputs, clobber, inp, out) else Fresh(ops[j])) &&
    forall m :: 0 <= m < |ops| ==> ops[m].refIndex < |ops| && Copied(ops, m)
  }

  /** The operands after operand j has been allocated: a matching input gets its register. */
  function WithOperand(ops: seq<Operand>, j: nat, op: Operand): (r: seq<Operand>)
    requires j < |ops| && op.inputIndex < |ops|
    ensures |r| == |ops|
  {
    var ops1 := ops[j := op];
    if op.inputIndex >= 0 then ops1[op.inputIndex := ops1[op.inputIndex].(reg := op.reg, isLlong := op.isLlong)] else ops1
  }

  lemma LinkedStill(ops: seq<Operand>, nbOutputs: nat, j: nat, op: Operand)
    requires Linked(ops, nbOutputs) && j < |ops| && ops[j].refIndex < 0 && SameOperand(ops[j], op)
    ensures op.inputIndex < |ops| && Linked(WithOperand(ops, j, op), nbOutputs)
    ensures op.inputIndex != j && (op.inputIndex >= 0 ==> ops[op.inputIndex].refIndex == j)
    ensures forall k :: 0 <= k < |ops| ==> WithOperand(ops, j, op)[k].refIndex == ops[k].refIndex
    ensures forall k :: 0 <= k < |ops| && k != j && ops[k].refIndex < 0 ==> WithOperand(ops, j, op)[k] == ops[k]
    ensures WithOperand(ops, j, op)[j] == op
  {}

  lemma CopiedStill(ops: seq<Operand>, nbOutputs: nat, j: nat, op: Operand, m: nat)
    requires Linked(ops, nbOutputs) && j < |ops| && ops[j].refIndex < 0 && SameOperand(ops[j], op) && m < |ops|
    requires ops[m].refIndex < |ops| && Copied(ops, m) && op.inputIndex < |ops|
    ensures WithOperand(ops, j, op)[m].refIndex < |ops| && Copied(WithOperand(ops, j, op), m)
  {}

  lemma OwnersStill(ops: seq<Operand>, done: seq<nat>, nbOutputs: nat, o: Owners, j: nat, op: Operand, o': Owners)
    requires Linked(ops, nbOutputs) && OwnersHold(ops, done, o) && j < |ops| && ops[j].refIndex < 0 && j !in done
    requires SameOperand(ops[j], op) && OnlyNew(o, o', j, Regs(op)) && op.inputIndex < |ops|
    ensures OwnersHold(WithOperand(ops, j, op), done + [j], o')
  {
    hide Linked, WithOperand, Regs;
    LinkedStill(ops, nbOutputs, j, op);
  }

  lemma AllocationStep(ops: seq<Operand>, done: seq<nat>, nbOutputs: nat, clobber: seq<bool>, regs: seq<Mask>, inp: Owners, out: Owners,
                       j: nat, op: Operand, regs': seq<Mask>, inp': Owners, out': Owners)
    requires Progress(ops, done, nbOutputs, clobber, regs, inp, out) && j < |ops| && ops[j].refIndex < 0 && j !in done && |regs| == NB_REGS
    requires Chosen(ops[j], op, j, nbOutputs, regs, regs', clobber, inp, out, inp', out')
    ensures op.inputIndex < |ops| && op.inputIndex != j
    ensures Progress(WithOperand(ops, j, op), done + [j], nbOutputs, clobber, regs', inp', out')
  {
    hide MarksHold, Satisfied, Owns, Grows, Linked, Copied, SameOperand, WithOperand, OwnersHold, OutputsHold, OnlyNew, OutputsNew, FirstUsable, Takes;
    LinkedStill(ops, nbOutputs, j, op);
    var ops2 := WithOperand(ops, j, op);
    forall k | 0 <= k < |ops| && k != j && ops[k].refIndex < 0 && k in done ensures Allocated(ops2[k], k, nbOutputs, clobber, inp', out') {
      StillOwns(ops[k], k, nbOutputs, clobber, inp, out, inp', out');
    }
    forall m | 0 <= m < |ops| ensures ops2[m].refIndex < |ops| && Copied(ops2, m) { CopiedStill(ops, nbOutputs, j, op, m); }
    OwnersStill(ops, done, nbOutputs, inp, j, op, inp');
    OwnersStill(ops, done, nbOutputs, out, j, op, out');
    OutputsStill(ops, done, nbOutputs, out, j, op, out');
  }

  lemma OutputsStill(ops: seq<Operand>, done: seq<nat>, nbOutputs: nat, o: Owners, j: nat, op: Operand, o': Owners)
    requires Linked(ops, nbOutputs) && OwnersHold(ops, done, o) && OutputsHold(ops, nbOutputs, o) && j < |ops| && ops[j].refIndex < 0 && j !in done
    requires SameOperand(ops[j], op) && OnlyNew(o, o', j, Regs(op)) && OutputsNew(o, o', op, j, nbOutputs) && Grows(o, o') && op.inputIndex < |ops|
    ensures OutputsHold(WithOperand(ops, j, op), nbOutputs, o')
  {
    hide Linked, WithOperand, Regs, NeedsOut;
    LinkedStill(ops, nbOutputs, j, op);
  }

  lemma ReferenceSkipped(ops: seq<Operand>, done: seq<nat>, nbOutputs: nat, clobber: seq<bool>, regs: seq<Mask>, inp: Owners, out: Owners, j: nat)
    requires Progress(ops, done, nbOutputs, clobber, regs, inp, out) && j < |ops| && ops[j].refIndex >= 0
    ensures Progress(ops, done + [j], nbOutputs, clobber, regs, inp, out)
  {
    hide MarksHold, Allocated, Copied, Linked;
  }

  // ----- the run of the allocation is determined -----

  /** Operands and marks after some turns of the allocation loop. */
  datatype Alloc = Alloc(ops: seq<Operand>, regs: seq<Mask>)

  /** One turn: a reference is passed over, any other operand takes its first usable letter. */
  ghost predicate Turn(a: Alloc, j: nat, nbOutputs: nat, b: Alloc)
  {
    j < |a.ops| && |a.regs| == NB_REGS &&
    if a.ops[j].refIndex >= 0 then b == a
    else a.ops[j].inputIndex < |a.ops| && exists p, op :: TurnBy(a, j, nbOutputs, b, p, op)
  }

  ghost predicate TurnBy(a: Alloc, j: nat, nbOutputs: nat, b: Alloc, p: nat, op: Operand)
    requires j < |a.ops| && |a.regs| == NB_REGS
  {
    p < |a.ops[j].text| && FirstUsable(a.ops[j], j, nbOutputs, a.regs, p) && Takes(a.ops[j], op, j, nbOutputs, a.regs, b.regs, p) &&
    op.inputIndex < |a.ops| && b.ops == WithOperand(a.ops, j, op)
  }

  /** The first n operands of the order have had their turn. */
  ghost predicate Reaches(start: Alloc, order: seq<nat>, n: nat, nbOutputs: nat, a: Alloc)
    decreases n, 1
  {
    n <= |order| && if n == 0 then a == start else exists b :: ReachesBy(start, order, n, nbOutputs, b, a)
  }

  ghost predicate ReachesBy(start: Alloc, order: seq<nat>, n: nat, nbOutputs: nat, b: Alloc, a: Alloc)
    requires 0 < n <= |order|
    decreases n, 0
  {
    Reaches(start, order, n - 1, nbOutputs, b) && Turn(b, order[n - 1], nbOutputs, a)
  }

  lemma FirstOnce(op: Operand, j: nat, nbOutputs: nat, regs: seq<Mask>, p: nat, q: nat)
    requires |regs| == NB_REGS && FirstUsable(op, j, nbOutputs, regs, p) && FirstUsable(op, j, nbOutputs, regs, q)
    ensures p == q
  {
    hide Usable, MaskAt;
  }

  lemma TakesOnce(op0: Operand, a: Operand, b: Operand, j: nat, nbOutputs: nat, regs0: seq<Mask>, ra: seq<Mask>, rb: seq<Mask>, p: nat)
    requires |regs0| == NB_REGS && p < |op0.text|
    requires Takes(op0, a, j, nbOutputs, regs0, ra, p) && Takes(op0, b, j, nbOutputs, regs0, rb, p)
    ensures a == b && ra == rb
  {
    hide MaskAt, Overlaps;
    assert a.reg == b.reg;
  }

  lemma TurnOnce(a: Alloc, j: nat, nbOutputs: nat, b: Alloc, c: Alloc)
    requires Turn(a, j, nbOutputs, b) && Turn(a, j, nbOutputs, c)
    ensures b == c
  {
    hide FirstUsable, Takes, WithOperand;
    if a.ops[j].refIndex < 0 {
      var p, op :| TurnBy(a, j, nbOutputs, b, p, op);
      var q, op' :| TurnBy(a, j, nbOutputs, c, q, op');
      FirstOnce(a.ops[j], j, nbOutputs, a.regs, p, q);
      TakesOnce(a.ops[j], op, op', j, nbOutputs, a.regs, b.regs, c.regs, p);
    }
  }

  lemma {:induction false} ReachesOnce(start: Alloc, order: seq<nat>, n: nat, nbOutputs: nat, a: Alloc, b: Alloc)
    requires Reaches(start, order, n, nbOutputs, a) && Reaches(start, order, n, nbOutputs, b)
    ensures a == b
  {
    hide Turn;
    if n > 0 {
      var a' :| ReachesBy(start, order, n, nbOutputs, a', a);
      var b' :| ReachesBy(start, order, n, nbOutputs, b', b);
      ReachesOnce(start, order, n - 1, nbOutputs, a', b');
      TurnOnce(a', order[n - 1], nbOutputs, a, b);
    }
  }

  lemma ReachedBy(start: Alloc, order: seq<nat>, n: nat, nbOutputs: nat, a: Alloc)
    requires Reaches(start, order, n, nbOutputs, a) && n > 0
    ensures n <= |order| && exists b :: ReachesBy(start, order, n, nbOutputs, b, a)
  {}

  /** Nothing is reached past a state that has no turn. */
  lemma {:induction false} ReachesNoFurther(start: Alloc, order: seq<nat>, n: nat, nbOutputs: nat, a: Alloc, m: nat, b: Alloc)
    requires Reaches(start, order, n, nbOutputs, a) && n < m && n < |order| && forall c :: !Turn(a, order[n], nbOutputs, c)
    ensures !Reaches(start, order, m, nbOutputs, b)
    decreases m
  {
    hide Turn;
    if Reaches(start, order, m, nbOutputs, b) {
      ReachedBy(start, order, m, nbOutputs, b);
      var c :| ReachesBy(start, order, m, nbOutputs, c, b);
      if m - 1 == n {
        ReachesOnce(start, order, n, nbOutputs, a, c);
      } else {
        ReachesNoFurther(start, order, n, nbOutputs, a, m - 1, c);
      }
    }
  }

  lemma TurnTaken(a: Alloc, j: nat, nbOutputs: nat, op: Operand, regs: seq<Mask>)
    requires j < |a.ops| && |a.regs| == NB_REGS && a.ops[j].refIndex < 0 && a.ops[j].inputIndex < |a.ops| && op.inputIndex < |a.ops|
    requires exists p :: 0 <= p < |a.ops[j].text| && FirstUsable(a.ops[j], j, nbOutputs, a.regs, p) &&
                         Takes(a.ops[j], op, j, nbOutputs, a.regs, regs, p)
    ensures Turn(a, j, nbOutputs, Alloc(WithOperand(a.ops, j, op), regs))
  {
    hide FirstUsable, Takes, WithOperand;
    var p :| 0 <= p < |a.ops[j].text| && FirstUsable(a.ops[j], j, nbOutputs, a.regs, p) && Takes(a.ops[j], op, j, nbOutputs, a.regs, regs, p);
    assert TurnBy(a, j, nbOutputs, Alloc(WithOperand(a.ops, j, op), regs), p, op);
  }

  lemma NoTurn(a: Alloc, j: nat, nbOutputs: nat)
    requires j < |a.ops| && |a.regs| == NB_REGS && a.ops[j].refIndex < 0 && forall p :: !FirstUsable(a.ops[j], j, nbOutputs, a.regs, p)
    ensures forall c :: !Turn(a, j, nbOutputs, c)
  {
    hide FirstUsable, Takes, WithOperand;
  }

  lemma TurnPassed(a: Alloc, j: nat, nbOutputs: nat)
    requires j < |a.ops| && |a.regs| == NB_REGS && a.ops[j].refIndex >= 0
    ensures Turn(a, j, nbOutputs, a)
  {}

  lemma ReachesNext(start: Alloc, order: seq<nat>, n: nat, nbOutputs: nat, a: Alloc, b: Alloc)
    requires Reaches(start, order, n, nbOutputs, a) && n < |order| && Turn(a, order[n], nbOutputs, b)
    ensures Reaches(start, order, n + 1, nbOutputs, b)
  {
    hide Turn;
    assert ReachesBy(start, order, n + 1, nbOutputs, a, b);
  }

  /** The marks before allocation. */
  function FirstMarks(clobber: seq<bool>): (regs: seq<Mask>)
    ensures |regs| == NB_REGS
  {
    seq(NB_REGS, r => if Reserved(clobber, r) then BOTH else Mask(false, false))
  }

  /** The marks before allocation: clobbered registers, the stack pointer, and the frame pointer. */
  method InitialMarks(clobber: seq<bool>) returns (regs: seq<Mask>)
    requires |clobber| == NB_REGS
    ensures MarksHold(regs, clobber, map[], map[]) && regs == FirstMarks(clobber)
  {
    regs := seq(NB_REGS, i requires 0 <= i < NB_REGS => if clobber[i] then BOTH else Mask(false, false));
    regs := regs[ESP := BOTH];
    regs := regs[EBP := BOTH];
  }

  lemma AllocationBegins(ops0: seq<Operand>, ops: seq<Operand>, nbOutputs: nat, clobber: seq<bool>, regs: seq<Mask>)
    requires ResolvedSoFar(ops0, ops, nbOutputs, |ops|) && MarksHold(regs, clobber, map[], map[])
    ensures Progress(ops, [], nbOutputs, clobber, regs, map[], map[])
  {
    hide MarksHold, Resolved;
    forall m | 0 <= m < |ops| ensures ops[m].refIndex < |ops| && Copied(ops, m) {
      if ops[m].refIndex >= 0 { assert Fresh(ops[m]) && Fresh(ops[ops[m].refIndex]); }
    }
  }

  lemma ProgressAt(ops: seq<Operand>, done: seq<nat>, nbOutputs: nat, clobber: seq<bool>, regs: seq<Mask>, inp: Owners, out: Owners, j: nat)
    requires Progress(ops, done, nbOutputs, clobber, regs, inp, out) && j < |ops|
    ensures MarksHold(regs, clobber, inp, out) && |regs| == NB_REGS
    ensures ops[j].refIndex < 0 && j !in done ==> Fresh(ops[j])
  {
    assert |regs| == NB_REGS;
    hide MarksHold, Allocated;
  }

  /** The fields set up by the first loops stay. */
  predicate Unmoved(ops: seq<Operand>, ops': seq<Operand>)
  {
    |ops'| == |ops| && forall k :: 0 <= k < |ops| ==> SameOperand(ops[k], ops'[k])
  }

  lemma UnmovedStep(ops0: seq<Operand>, ops: seq<Operand>, j: nat, op: Operand)
    requires Unmoved(ops0, ops) && j < |ops| && SameOperand(ops[j], op) && op.inputIndex < |ops|
    ensures Unmoved(ops0, WithOperand(ops, j, op))
  {}

  /** Operand j has no letter that can be used after those in `done`, all of them of no lower priority, have got their registers. */
  predicate StuckAt(ops: seq<Operand>, done: seq<nat>, j: nat, nbOutputs: nat, clobber: seq<bool>, regs: seq<Mask>, inp: Owners, out: Owners)
  {
    |regs| == NB_REGS && Progress(ops, done, nbOutputs, clobber, regs, inp, out) &&
    j < |ops| && j !in done && ops[j].refIndex < 0 && Fresh(ops[j]) &&
    (forall p :: 0 <= p < |ops[j].text| ==> !FirstUsable(ops[j], j, nbOutputs, regs, p)) &&
    forall d :: d in done ==> d < |ops| && ops[d].priority <= ops[j].priority
  }

  /** The allocation loop over the operands in order of priority; it fails at the operand in place `at`. */
  method AllocateAll(ops: array<Operand>, sorted: array<nat>, nbOutputs: nat, clobber: seq<bool>)
    returns (ok: bool, regs: seq<Mask>, ghost at: nat, ghost inp: Owners, ghost out: Owners)
    requires |clobber| == NB_REGS && IsPermutation(sorted[..], ops.Length)
    requires exists ops0 :: ResolvedSoFar(ops0, ops[..], nbOutputs, ops.Length)
    requires forall a, b :: 0 <= a < b < ops.Length ==> ops[sorted[a]].priority <= ops[sorted[b]].priority
    modifies ops
    ensures Unmoved(old(ops[..]), ops[..])
    ensures ok ==> Reaches(Alloc(old(ops[..]), FirstMarks(clobber)), sorted[..], ops.Length, nbOutputs, Alloc(ops[..], regs))
    ensures !ok ==> forall a :: !Reaches(Alloc(old(ops[..]), FirstMarks(clobber)), old(sorted[..]), ops.Length, nbOutputs, a)
    ensures ok ==> Progress(ops[..], sorted[..], nbOutputs, clobber, regs, inp, out)
    ensures !ok ==> at < ops.Length && StuckAt(ops[..], sorted[..at], sorted[at], nbOutputs, clobber, regs, inp, out)
  {
    hide Progress, MarksHold, ResolvedSoFar, SameOperand, WithOperand, Chosen, FirstUsable, IsPermutation, Takes, FirstMarks, Turn;
    ghost var ops0 :| ResolvedSoFar(ops0, ops[..], nbOutputs, ops.Length);
    regs := InitialMarks(clobber);
    inp, out, at := map[], map[], 0;
    AllocationBegins(ops0, ops[..], nbOutputs, clobber, regs);
    UnmovedSelf(ops[..]);
    ghost var order, before0 := sorted[..], ops[..];
    PermutationLength(order, ops.Length);
    assert order[..0] == [];
    ghost var start := Alloc(before0, FirstMarks(clobber));
    var i := 0;
    while i < ops.Length
      invariant i <= ops.Length && Unmoved(before0, ops[..])
      invariant Progress(ops[..], order[..i], nbOutputs, clobber, regs, inp, out) && sorted[..] == order
      invariant Reaches(start, order, i, nbOutputs, Alloc(ops[..], regs))
    {
      Ordered(order, ops.Length, i);
      var j := sorted[i];
      ghost var before := ops[..];
      ProgressAt(before, order[..i], nbOutputs, clobber, regs, inp, out, j);
      if ops[j].refIndex < 0 {
        var op; ghost var regs1, inp1, out1 := regs, inp, out;
        ok, op, regs, inp, out := AllocOperand(ops[j], j, nbOutputs, regs, clobber, inp, out);
        if !ok {
          at := i;
          PriorityOrder(before0, before, order, i);
          NoTurn(Alloc(before, regs), j, nbOutputs);
          forall a ensures !Reaches(start, order, ops.Length, nbOutputs, a) {
            ReachesNoFurther(start, order, i, nbOutputs, Alloc(before, regs), ops.Length, a);
          }
          return;
        }
        AllocationStep(before, order[..i], nbOutputs, clobber, regs1, inp1, out1, j, op, regs, inp, out);
        ChosenTakes(before[j], op, j, nbOutputs, regs1, regs, clobber, inp1, out1, inp, out);
        TurnTaken(Alloc(before, regs1), j, nbOutputs, op, regs);
        ReachesNext(start, order, i, nbOutputs, Alloc(before, regs1), Alloc(WithOperand(before, j, op), regs));
        UnmovedStep(before0, before, j, op);
        WithOperandIs(before, j, op);
        ops[j] := op;
        if op.inputIndex >= 0 {
          ops[op.inputIndex] := ops[op.inputIndex].(reg := op.reg, isLlong := op.isLlong);
        }
        assert ops[..] == WithOperand(before, j, op);
      } else {
        ReferenceSkipped(before, order[..i], nbOutputs, clobber, regs, inp, out, j);
        TurnPassed(Alloc(before, regs), j, nbOutputs);
        ReachesNext(start, order, i, nbOutputs, Alloc(before, regs), Alloc(before, regs));
      }
      i := i + 1;
    }
    ok := true;
    assert order[..ops.Length] == order;
  }

  lemma PermutationLength(order: seq<nat>, n: nat)
    requires IsPermutation(order, n)
    ensures |order| == n
  {}

  lemma Ordered(order: seq<nat>, n: nat, i: nat)
    requires IsPermutation(order, n) && i < n
    ensures |order| == n && order[i] < n && order[i] !in order[..i] && order[..i + 1] == order[..i] + [order[i]]
    ensures forall a :: 0 <= a < n ==> order[a] < n
  {}

  lemma PriorityOrder(ops0: seq<Operand>, ops: seq<Operand>, order: seq<nat>, i: nat)
    requires Unmoved(ops0, ops) && i < |ops| == |order| && forall a :: 0 <= a < |ops| ==> order[a] < |ops|
    requires forall a, b :: 0 <= a < b < |ops| ==> ops0[order[a]].priority <= ops0[order[b]].priority
    ensures forall d :: d in order[..i] ==> d < |ops| && ops[d].priority <= ops[order[i]].priority
  {
    forall d | d in order[..i] ensures d < |ops| && ops[d].priority <= ops[order[i]].priority {
      var a :| 0 <= a < i && order[a] == d;
      assert SameOperand(ops0[d], ops[d]) && SameOperand(ops0[order[i]], ops[order[i]]);
    }
  }

  lemma UnmovedSelf(ops: seq<Operand>)
    ensures Unmoved(ops, ops)
  {}

  lemma WithOperandIs(ops: seq<Operand>, j: nat, op: Operand)
    requires j < |ops| && op.inputIndex < |ops|
    ensures WithOperand(ops, j, op) ==
      if op.inputIndex >= 0 then ops[j := op][op.inputIndex := ops[j := op][op.inputIndex].(reg := op.reg, isLlong := op.isLlong)]
      else ops[j := op]
  {}

  /** An operand whose result is stored through a pointer that must be reloaded. */
  predicate NeedsOutReg(op: Operand) { op.reg >= 0 && op.value.SlotPointer? && !op.isMemory }

  /** The last loop: a register free while outputs are stored, when some operand needs one. */
  method ChooseOutReg(ops: seq<Operand>, regs: seq<Mask>) returns (ok: bool, outReg: int)
    requires |regs| == NB_REGS
    ensures ok ==> (outReg == -1 <==> forall i :: 0 <= i < |ops| ==> !NeedsOutReg(ops[i]))
    ensures ok ==> -1 <= outReg < NB_REGS && (outReg >= 0 ==> !regs[outReg].out)
    ensures !ok ==> (exists i :: 0 <= i < |ops| && NeedsOutReg(ops[i])) && forall r :: 0 <= r < NB_REGS ==> regs[r].out
  {
    ok, outReg := true, -1;
    var i := 0;
    while i < |ops|
      invariant i <= |ops| && forall k :: 0 <= k < i ==> !NeedsOutReg(ops[k])
    {
      if NeedsOutReg(ops[i]) {
        var reg := FindFree(regs, Mask(false, true), 8);
        if reg == 8 {
          assert forall r :: 0 <= r < NB_REGS ==> Overlaps(regs[r], Mask(false, true));
          return false, -1;
        }
        return true, reg;
      }
      i := i + 1;
    }
  }

  /** What a finished allocation guarantees of two operands that are not references: they share no register at the same time. */
  predicate Disjoint(a: Operand, i: nat, b: Operand, j: nat, nbOutputs: nat)
  {
    forall r :: r in Regs(a) && r in Regs(b) ==>
      !(NeedsIn(a, i, nbOutputs) && NeedsIn(b, j, nbOutputs)) && !(NeedsOut(a, i, nbOutputs) && NeedsOut(b, j, nbOutputs))
  }

  /** An operand that is not a reference: a letter satisfied, in registers that may be used. */
  predicate WellPlaced(op: Operand, clobber: seq<bool>)
  {
    Satisfied(op) && forall r :: r in Regs(op) ==> 0 <= r < NB_REGS && !Reserved(clobber, r)
  }

  /** A register no operand needs while outputs are stored. */
  predicate FreeForOutput(ops: seq<Operand>, nbOutputs: nat, clobber: seq<bool>, r: int)
  {
    r < NB_REGS && !Reserved(clobber, r) &&
    forall j :: 0 <= j < |ops| && ops[j].refIndex < 0 ==> !(r in Regs(ops[j]) && NeedsOut(ops[j], j, nbOutputs))
  }

  predicate AllPlaced(ops: seq<Operand>, nbOutputs: nat, clobber: seq<bool>, outReg: int)
  {
    (forall j :: 0 <= j < |ops| && ops[j].refIndex < 0 ==> WellPlaced(ops[j], clobber)) &&
    (forall i, j :: 0 <= i < |ops| && 0 <= j < |ops| && i != j && ops[i].refIndex < 0 && ops[j].refIndex < 0 ==>
      Disjoint(ops[i], i, ops[j], j, nbOutputs)) &&
    (forall m :: 0 <= m < |ops| ==> ops[m].refIndex < |ops| && Copied(ops, m)) &&
    (outReg >= 0 ==> FreeForOutput(ops, nbOutputs, clobber, outReg))
  }

  lemma AllocationEnds(ops: seq<Operand>, done: seq<nat>, nbOutputs: nat, clobber: seq<bool>, regs: seq<Mask>, inp: Owners, out: Owners, outReg: int)
    requires Progress(ops, done, nbOutputs, clobber, regs, inp, out) && IsPermutation(done, |ops|)
    requires |regs| == NB_REGS && -1 <= outReg < NB_REGS && (outReg >= 0 ==> !regs[outReg].out)
    ensures AllPlaced(ops, nbOutputs, clobber, outReg)
  {
    hide Satisfied, Linked, Copied;
    forall i, j | 0 <= i < |ops| && 0 <= j < |ops| && i != j && ops[i].refIndex < 0 && ops[j].refIndex < 0
      ensures Disjoint(ops[i], i, ops[j], j, nbOutputs)
    {
      forall r | r in Regs(ops[i]) && r in Regs(ops[j])
        ensures !(NeedsIn(ops[i], i, nbOutputs) && NeedsIn(ops[j], j, nbOutputs))
        ensures !(NeedsOut(ops[i], i, nbOutputs) && NeedsOut(ops[j], j, nbOutputs))
      {
        NoClash(ops[i], i, ops[j], j, nbOutputs, clobber, inp, out, r);
      }
    }
  }

  /** An early-clobber output shares its registers with no other operand, except the input that matches it. */
  lemma EarlyClobberAlone(ops: seq<Operand>, nbOutputs: nat, clobber: seq<bool>, outReg: int, i: nat, j: nat)
    requires AllPlaced(ops, nbOutputs, clobber, outReg) && i < nbOutputs && i < |ops| && j < |ops| && i != j
    requires ops[i].refIndex < 0 && EarlyClobber(ops[i]) && !ops[i].isMemory && ops[j].refIndex < 0
    ensures Regs(ops[i]) !! Regs(ops[j])
  {
    hide WellPlaced, FreeForOutput, EarlyClobber;
    assert Disjoint(ops[i], i, ops[j], j, nbOutputs);
  }

  /** Some operand has no letter left that can be used. */
  ghost predicate Stuck(ops: seq<Operand>, nbOutputs: nat, clobber: seq<bool>)
  {
    exists done, j, regs, inp, out :: StuckAt(ops, done, j, nbOutputs, clobber, regs, inp, out)
  }

  /** A register is needed to store an output through, and every register is reserved or needed for another output. */
  predicate NoOutReg(ops: seq<Operand>, nbOutputs: nat, clobber: seq<bool>)
  {
    (exists i :: 0 <= i < |ops| && NeedsOutReg(ops[i])) && forall r :: 0 <= r < NB_REGS ==> Reserved(clobber, r) || HeldForOutput(ops, nbOutputs, r)
  }

  predicate HeldForOutput(ops: seq<Operand>, nbOutputs: nat, r: int)
  {
    exists j :: 0 <= j < |ops| && ops[j].refIndex < 0 && r in Regs(ops[j]) && NeedsOut(ops[j], j, nbOutputs)
  }

  /** Nothing has to be stored through a pointer, or a register is free then. */
  predicate OutRegFound(ops: seq<Operand>, regs: seq<Mask>)
  {
    (forall i :: 0 <= i < |ops| ==> !NeedsOutReg(ops[i])) || exists r :: 0 <= r < |regs| && !regs[r].out
  }

  /** The whole computation: the references and priorities r of the operands, and what the allocation in order of priority leaves. */
  ghost predicate Settles(ops0: seq<Operand>, nbOutputs: nat, clobber: seq<bool>, r: seq<Operand>, a: Alloc)
  {
    ResolvedSoFar(ops0, r, nbOutputs, |r|) &&
    Reaches(Alloc(r, FirstMarks(clobber)), ExchangeSort(Priorities(r)), |r|, nbOutputs, a) && OutRegFound(a.ops, a.regs)
  }

  /** The constraints can be met, letter by letter, in the order of the priorities. */
  ghost predicate Solvable(ops0: seq<Operand>, nbOutputs: nat, clobber: seq<bool>)
  {
    exists r, a :: Settles(ops0, nbOutputs, clobber, r, a)
  }

  /** Texts are kept, references and priorities are as the texts say. */
  ghost predicate AllResolved(ops0: seq<Operand>, ops: seq<Operand>)
  {
    |ops| == |ops0| && forall i :: 0 <= i < |ops| ==> SameText(ops0[i], ops[i]) && Resolved(Ids(ops0), ops[i])
  }

  /** These operands are what the computation leaves. */
  ghost predicate SettlesAs(ops0: seq<Operand>, nbOutputs: nat, clobber: seq<bool>, ops: seq<Operand>)
  {
    exists r, regs :: Settles(ops0, nbOutputs, clobber, r, Alloc(ops, regs))
  }

  /** asm_compute_constraints; not ok is a diagnostic that ends the compilation. */
  method ComputeConstraints(ops: array<Operand>, nbOutputs: nat, clobber: seq<bool>) returns (ok: bool, outReg: int)
    requires |clobber| == NB_REGS
    modifies ops
    ensures ok <==> Solvable(old(ops[..]), nbOutputs, clobber)
    ensures ok ==> SettlesAs(old(ops[..]), nbOutputs, clobber, ops[..])
    ensures Resolvable(old(ops[..]), nbOutputs) ==> AllResolved(old(ops[..]), ops[..])
    ensures ok ==> Linked(ops[..], nbOutputs) && AllPlaced(ops[..], nbOutputs, clobber, outReg)
    ensures ok ==> (outReg == -1 <==> forall i :: 0 <= i < ops.Length ==> !NeedsOutReg(ops[i]))
    ensures ok ==> Resolvable(old(ops[..]), nbOutputs)
    ensures !ok ==> !Resolvable(old(ops[..]), nbOutputs) || Stuck(ops[..], nbOutputs, clobber) || NoOutReg(ops[..], nbOutputs, clobber)
  {
    hide ResolvedSoFar, Progress, IsPermutation, MarksHold, AllPlaced, Unmoved, Resolved, Ids, Resolvable, StuckAt, NoOutReg, Reaches,
         ExchangeSort, Priorities, OutRegFound;
    outReg := -1;
    ghost var ops0 := ops[..];
    ResetAll(ops, nbOutputs);
    ok := ResolveAll(ops, nbOutputs, ops0);
    if !ok {
      Unsolvable(ops0, nbOutputs, clobber);
      return;
    }
    ghost var r := ops[..];
    var sorted := SortOperands(ops);
    ghost var order := sorted[..];
    ghost var start := Alloc(r, FirstMarks(clobber));
    var regs; ghost var at, inp, out;
    ok, regs, at, inp, out := AllocateAll(ops, sorted, nbOutputs, clobber);
    StillResolved(ops0, r, ops[..], nbOutputs);
    if !ok {
      PermutationLength(sorted[..], ops.Length);
      assert StuckAt(ops[..], sorted[..at], sorted[at], nbOutputs, clobber, regs, inp, out);
      NeverSettles(ops0, nbOutputs, clobber, r);
      return;
    }
    ProgressEnds(ops[..], sorted[..], nbOutputs, clobber, regs, inp, out);
    ok, outReg := ChooseOutReg(ops[..], regs);
    FoundExactly(ops[..], regs, ok);
    if !ok {
      NoneFree(ops[..], sorted[..], nbOutputs, clobber, regs, inp, out);
      SettlesOnce(ops0, nbOutputs, clobber, r, Alloc(ops[..], regs));
      return;
    }
    assert Settles(ops0, nbOutputs, clobber, r, Alloc(ops[..], regs));
    AllocationEnds(ops[..], sorted[..], nbOutputs, clobber, regs, inp, out, outReg);
  }

  lemma FoundExactly(ops: seq<Operand>, regs: seq<Mask>, ok: bool)
    requires |regs| == NB_REGS
    requires ok ==> (exists r :: 0 <= r < NB_REGS && !regs[r].out) || forall i :: 0 <= i < |ops| ==> !NeedsOutReg(ops[i])
    requires !ok ==> (exists i :: 0 <= i < |ops| && NeedsOutReg(ops[i])) && forall r :: 0 <= r < NB_REGS ==> regs[r].out
    ensures ok <==> OutRegFound(ops, regs)
  {}

  lemma Unsolvable(ops0: seq<Operand>, nbOutputs: nat, clobber: seq<bool>)
    requires !Resolvable(ops0, nbOutputs)
    ensures !Solvable(ops0, nbOutputs, clobber)
  {
    hide Reaches, OutRegFound, Resolvable;
    if Solvable(ops0, nbOutputs, clobber) {
      var r, a :| Settles(ops0, nbOutputs, clobber, r, a);
      ResolvedResolvable(ops0, r, nbOutputs);
    }
  }

  /** Operands that have been resolved are resolvable. */
  lemma ResolvedResolvable(ops0: seq<Operand>, r: seq<Operand>, nbOutputs: nat)
    requires ResolvedSoFar(ops0, r, nbOutputs, |r|)
    ensures Resolvable(ops0, nbOutputs)
  {
    hide Refers, Letters, IsReference, LetterPriority, Prefix, Ids;
    forall i | 0 <= i < |ops0| ensures ResolvableAt(ops0, nbOutputs, i) {
      SameReference(ops0[i], r[i]);
      assert Resolved(Ids(ops0), r[i]);
      if IsReference(ops0[i]) { EarlierUnreferenced(ops0, r, nbOutputs, i); }
    }
  }

  lemma EarlierUnreferenced(ops0: seq<Operand>, r: seq<Operand>, nbOutputs: nat, i: nat)
    requires ResolvedSoFar(ops0, r, nbOutputs, |r|) && i < |r| && r[i].refIndex >= 0
    ensures |r| == |ops0| && Unreferenced(ops0, i, r[i].refIndex)
  {
    hide Refers, Letters, IsReference, LetterPriority, Prefix, Ids;
    forall m | 0 <= m < i && IsReference(ops0[m]) ensures !Refers(Ids(ops0), Letters(ops0[m]), r[i].refIndex) {
      SameReference(ops0[m], r[m]);
      assert Resolved(Ids(ops0), r[m]);
      if Refers(Ids(ops0), Letters(ops0[m]), r[i].refIndex) { RefersOnce(Ids(ops0), Letters(ops0[m]), r[m].refIndex, r[i].refIndex); }
    }
  }

  lemma NeverSettles(ops0: seq<Operand>, nbOutputs: nat, clobber: seq<bool>, r: seq<Operand>)
    requires ResolvedSoFar(ops0, r, nbOutputs, |r|)
    requires forall a :: !Reaches(Alloc(r, FirstMarks(clobber)), ExchangeSort(Priorities(r)), |r|, nbOutputs, a)
    ensures !Solvable(ops0, nbOutputs, clobber)
  {
    hide Reaches, OutRegFound, ResolvedSoFar, ExchangeSort, Priorities;
    forall r', a ensures !Settles(ops0, nbOutputs, clobber, r', a) {
      if Settles(ops0, nbOutputs, clobber, r', a) { ResolvedOnce(ops0, r, r', nbOutputs); }
    }
  }

  lemma SettlesOnce(ops0: seq<Operand>, nbOutputs: nat, clobber: seq<bool>, r: seq<Operand>, a: Alloc)
    requires ResolvedSoFar(ops0, r, nbOutputs, |r|) && !OutRegFound(a.ops, a.regs)
    requires Reaches(Alloc(r, FirstMarks(clobber)), ExchangeSort(Priorities(r)), |r|, nbOutputs, a)
    ensures !Solvable(ops0, nbOutputs, clobber)
  {
    hide Reaches, OutRegFound, ResolvedSoFar, ExchangeSort, Priorities;
    forall r', b ensures !Settles(ops0, nbOutputs, clobber, r', b) {
      if Settles(ops0, nbOutputs, clobber, r', b) {
        ResolvedOnce(ops0, r, r', nbOutputs);
        ReachesOnce(Alloc(r, FirstMarks(clobber)), ExchangeSort(Priorities(r)), |r|, nbOutputs, a, b);
      }
    }
  }

  lemma NoneFree(ops: seq<Operand>, done: seq<nat>, nbOutputs: nat, clobber: seq<bool>, regs: seq<Mask>, inp: Owners, out: Owners)
    requires Progress(ops, done, nbOutputs, clobber, regs, inp, out) && |regs| == NB_REGS
    requires (exists i :: 0 <= i < |ops| && NeedsOutReg(ops[i])) && forall r :: 0 <= r < NB_REGS ==> regs[r].out
    ensures NoOutReg(ops, nbOutputs, clobber)
  {
    hide Linked, Allocated, Copied, Regs, Reserved, NeedsOutReg, NeedsOut;
    forall r | 0 <= r < NB_REGS
      ensures Reserved(clobber, r) || HeldForOutput(ops, nbOutputs, r)
    {
      assert regs[r].out;
      if !Reserved(clobber, r) { assert r in out; }
    }
  }

  lemma ProgressEnds(ops: seq<Operand>, done: seq<nat>, nbOutputs: nat, clobber: seq<bool>, regs: seq<Mask>, inp: Owners, out: Owners)
    requires Progress(ops, done, nbOutputs, clobber, regs, inp, out)
    ensures |regs| == NB_REGS && Linked(ops, nbOutputs)
  {}

  lemma StillResolved(ops0: seq<Operand>, ops: seq<Operand>, ops': seq<Operand>, nbOutputs: nat)
    requires ResolvedSoFar(ops0, ops, nbOutputs, |ops|) && Unmoved(ops, ops')
    ensures AllResolved(ops0, ops')
  {
    hide Refers, Letters, IsReference, LetterPriority, Prefix, Ids;
    forall i | 0 <= i < |ops'| ensures SameText(ops0[i], ops'[i]) && Resolved(Ids(ops0), ops'[i]) {
      assert SameOperand(ops[i], ops'[i]);
      SameReference(ops[i], ops'[i]);
    }
  }

  // ----- two inputs -----

  function Plain(text: string): Operand { Operand(text, None, OtherValue, -1, -1, -1, false, false, false, 0) }

  lemma PlainLetters(text: string)
    ensures text == "r" || text == "=r" || text == "%r" ==> Letters(Plain(text)) == "r" && !IsReference(Plain(text))
    ensures text == "0" || text == "1" ==> Letters(Plain(text)) == text && IsReference(Plain(text))
  {
    if text == "=r" || text == "%r" {
      assert text[1..] == "r";
      assert Prefix("r") == 0 && Prefix(text) == 1;
    } else if text == "r" || text == "0" || text == "1" {
      assert Prefix(text) == 0;
    }
  }

  lemma DigitRefers(ids: seq<Option<string>>, text: string, k: nat)
    requires text == "0" || text == "1"
    requires k == (if text == "0" then 0 else 1) && k < |ids|
    ensures Refers(ids, text, k)
  {
    assert text[1..] == "" && Digits(text) == 1;
    assert Number(text, 1) == 10 * Number(text, 0) + Digit(text[0]) == k;
  }

  /** "%r": a known letter with a priority, and yet a constraint that is refused. */
  lemma PercentExample(clobber: seq<bool>)
    ensures Resolvable([Plain("%r")], 0) && !Solvable([Plain("%r")], 0, clobber)
  {
    var ops0 := [Plain("%r")];
    PlainLetters("%r");
    assert Resolvable(ops0, 0) by {
      hide Letters, IsReference;
      assert ResolvableAt(ops0, 0, 0);
    }
    forall r, a ensures !Settles(ops0, 0, clobber, r, a) {
      if Settles(ops0, 0, clobber, r, a) { PercentStops(ops0, clobber, r, a); }
    }
  }

  lemma PercentStops(ops0: seq<Operand>, clobber: seq<bool>, r: seq<Operand>, a: Alloc)
    requires ops0 == [Plain("%r")]
    ensures !Settles(ops0, 0, clobber, r, a)
  {
    hide Letters, IsReference, Refers, LargestPriority, FirstUsable, Takes, OutRegFound;
    if ResolvedSoFar(ops0, r, 0, |r|) {
      PlainLetters("%r");
      SameReference(ops0[0], r[0]);
      assert SameText(ops0[0], r[0]) && Resolved(Ids(ops0), r[0]);
      var start := Alloc(r, FirstMarks(clobber));
      forall p: nat ensures !FirstUsable(r[0], 0, 0, start.regs, p) { PercentRefused(r[0], 0, 0, start.regs, 0, p); }
      NoTurn(start, 0, 0);
      OneOperand(Priorities(r));
      ReachesNoFurther(start, [0], 0, 0, start, 1, a);
    }
  }

  lemma OneOperand(pr: seq<nat>)
    requires |pr| == 1
    ensures ExchangeSort(pr) == [0]
  {
    assert seq(|pr|, k => k) == [0];
  }

  /** An input that matches "=r", and one that matches that input. */
  function Chain(): seq<Operand> { [Plain("=r"), Plain("0"), Plain("1")] }

  method NewOperands(s: seq<Operand>) returns (ops: array<Operand>)
    ensures fresh(ops) && ops[..] == s
  {
    ops := new Operand[|s|](i requires 0 <= i < |s| => s[i]);
  }

  /** The constraints are accepted, and the second of the two inputs gets no register. */
  method ChainExample() returns (ops: array<Operand>, ok: bool)
    ensures ok && ops.Length == 3 && ops[1].reg == ops[0].reg && ops[2].reg == -1
    ensures ops[0].text == "=r" && ops[1].text == "0" && ops[2].text == "1"
  {
    var clobber := seq(NB_REGS, i => false);
    hide *;
    ops := NewOperands(Chain());
    var outReg;
    ok, outReg := ComputeConstraints(ops, 1, clobber);
    ChainResolvable();
    ChainOutcome(ops[..], clobber, ok, outReg);
  }

  lemma ChainOutcome(ops: seq<Operand>, clobber: seq<bool>, ok: bool, outReg: int)
    requires clobber == seq(NB_REGS, i => false) && (Resolvable(Chain(), 1) ==> AllResolved(Chain(), ops))
    requires ok ==> AllPlaced(ops, 1, clobber, outReg)
    requires !ok ==> !Resolvable(Chain(), 1) || Stuck(ops, 1, clobber) || NoOutReg(ops, 1, clobber)
    ensures ok && |ops| == 3 && ops[1].reg == ops[0].reg && ops[2].reg == -1
    ensures ops[0].text == "=r" && ops[1].text == "0" && ops[2].text == "1"
  {
    hide Resolvable, Stuck, NoOutReg, Resolved, AllPlaced, Ids;
    var ops0 := Chain();
    ChainResolvable();
    ChainNotStuck(ops0, ops, clobber);
    ChainNoReload(ops0, ops, clobber);
    ChainPlaced(ops0, ops, clobber, outReg);
  }

  lemma ChainResolvable()
    ensures Resolvable(Chain(), 1)
  {
    var ops0 := Chain();
    assert ops0 == [Plain("=r"), Plain("0"), Plain("1")];
    hide *;
    PlainLetters("=r");
    PlainLetters("0");
    PlainLetters("1");
    DigitRefers(Ids(ops0), "0", 0);
    DigitRefers(Ids(ops0), "1", 1);
    FollowResolvable(ops0);
  }

  lemma FollowResolvable(ops0: seq<Operand>)
    requires |ops0| == 3 && !IsReference(ops0[0]) && Letters(ops0[0]) == "r"
    requires IsReference(ops0[1]) && Letters(ops0[1]) == "0" && Refers(Ids(ops0), "0", 0)
    requires IsReference(ops0[2]) && Letters(ops0[2]) == "1" && Refers(Ids(ops0), "1", 1)
    ensures Resolvable(ops0, 1)
  {
    hide Refers, Letters, IsReference, Ids;
    assert Unreferenced(ops0, 1, 0);
    assert Unreferenced(ops0, 2, 1) by {
      if Refers(Ids(ops0), "0", 1) { RefersOnce(Ids(ops0), "0", 0, 1); }
    }
    assert ResolvableAt(ops0, 1, 0) && ResolvableAt(ops0, 1, 1) && ResolvableAt(ops0, 1, 2);
  }

  predicate ChainOps(ops0: seq<Operand>, ops: seq<Operand>)
  {
    ops0 == Chain() && |ops| == 3 && forall i :: 0 <= i < 3 ==> SameText(ops0[i], ops[i])
  }

  lemma ChainReferences(ops0: seq<Operand>, ops: seq<Operand>)
    requires ChainOps(ops0, ops) && forall i :: 0 <= i < 3 ==> Resolved(Ids(ops0), ops[i])
    ensures ops[0].refIndex == -1 && ops[1].refIndex == 0 && ops[2].refIndex == 1
  {
    PlainLetters("=r");
    PlainLetters("0");
    PlainLetters("1");
    DigitRefers(Ids(ops0), "0", 0);
    DigitRefers(Ids(ops0), "1", 1);
    hide Refers, Letters, IsReference, Ids, LargestPriority;
    assert SameText(ops0[0], ops[0]) && SameText(ops0[1], ops[1]) && SameText(ops0[2], ops[2]);
    assert Resolved(Ids(ops0), ops[0]) && Resolved(Ids(ops0), ops[1]) && Resolved(Ids(ops0), ops[2]);
    SameReference(ops0[0], ops[0]);
    SameReference(ops0[1], ops[1]);
    SameReference(ops0[2], ops[2]);
    RefersOnce(Ids(ops0), "0", 0, ops[1].refIndex);
    RefersOnce(Ids(ops0), "1", 1, ops[2].refIndex);
  }

  lemma ChainNotStuck(ops0: seq<Operand>, ops: seq<Operand>, clobber: seq<bool>)
    requires ChainOps(ops0, ops) && forall i :: 0 <= i < 3 ==> Resolved(Ids(ops0), ops[i])
    requires clobber == seq(NB_REGS, i => false)
    ensures !Stuck(ops, 1, clobber)
  {
    hide Resolved, Ids;
    ChainReferences(ops0, ops);
    forall done, j, regs, inp, out ensures !StuckAt(ops, done, j, 1, clobber, regs, inp, out) {
      if StuckAt(ops, done, j, 1, clobber, regs, inp, out) {
        assert SameText(ops0[0], ops[0]);
        RegisterUsable(ops[0], regs);
      }
    }
  }

  lemma RegisterUsable(op: Operand, regs: seq<Mask>)
    requires op.text == "=r" && |regs| == NB_REGS && !regs[EAX].inp && !regs[EAX].out
    ensures FirstUsable(op, 0, 1, regs, 1)
  {
    assert !Overlaps(regs[EAX], MaskAt(op, 0, 1, 1));
    assert FreeBelow(regs, MaskAt(op, 0, 1, 1), 8);
    hide MaskAt;
    assert op.text[0] == '=' && op.text[1] == 'r';
  }

  lemma ChainNoReload(ops0: seq<Operand>, ops: seq<Operand>, clobber: seq<bool>)
    requires ChainOps(ops0, ops)
    ensures !NoOutReg(ops, 1, clobber)
  {
    hide HeldForOutput;
    assert SameText(ops0[0], ops[0]) && SameText(ops0[1], ops[1]) && SameText(ops0[2], ops[2]);
  }

  lemma ChainPlaced(ops0: seq<Operand>, ops: seq<Operand>, clobber: seq<bool>, outReg: int)
    requires ChainOps(ops0, ops) && forall i :: 0 <= i < 3 ==> Resolved(Ids(ops0), ops[i])
    requires AllPlaced(ops, 1, clobber, outReg)
    ensures ops[1].reg == ops[0].reg && ops[2].reg == -1
  {
    hide Resolved, Ids, WellPlaced, Disjoint, FreeForOutput;
    ChainReferences(ops0, ops);
    assert Copied(ops, 1) && Copied(ops, 2);
  }
}
