/** put_got_entry and relocate_plt: one GOT slot and one PLT stub per symbol, each stub through its own slot. */
module GotPlt {
  import opened Bytes

  datatype Target = X86_64 | Arm64

  // ----- what a PLT stub does when it runs -----

  const STUB := 16

  /** Two's complement reading of a 32-bit field. */
  function Signed(w: nat): int { if w < 0x8000_0000 then w else w - WORD }

  /** jmp *disp32(%rip) at offset o of the PLT: the address of the slot it jumps through. */
  predicate IsJump(plt: seq<Byte>, o: nat)
    requires o + STUB <= |plt|
  {
    plt[o] == 0xff && plt[o + 1] == 0x25
  }

  function JumpSlot(plt: seq<Byte>, o: nat, pltAddr: nat): int
    requires o + STUB <= |plt|
  {
    pltAddr + o + 6 + Signed(Read(plt, o + 2))
  }

  /** push $index; jmp start: what the stub does until its slot is bound. */
  predicate PushesAndReturns(plt: seq<Byte>, o: nat, index: nat)
    requires o + STUB <= |plt|
  {
    plt[o + 6] == 0x68 && Read(plt, o + 7) == index % WORD &&
    plt[o + 11] == 0xe9 && (o + 16 + Read(plt, o + 12)) % WORD == 0
  }

  const PAGE := 0x1000
  const UINT64 := 0x1_0000_0000_0000_0000

  /** ADRP x16: the signed page count of the instruction. */
  predicate IsAdrp(w: nat) { w % 32 == 16 && w / 0x100_0000 % 32 == 16 && w / 0x8000_0000 == 1 }

  function AdrpPages(w: nat): int
  {
    var imm := w / 32 % 0x8_0000 * 4 + w / 0x2000_0000 % 4;
    if imm < 0x10_0000 then imm else imm - 0x20_0000
  }

  /** LDR x17, [x16, #imm] and ADD x16, x16, #imm. */
  predicate IsLdr(w: nat) { w / 0x40_0000 == 0x3e5 && w % 0x400 == 16 * 32 + 17 }
  function LdrOffset(w: nat): nat { w / 0x400 % 0x1000 * 8 }
  predicate IsAdd(w: nat) { w / 0x40_0000 == 0x244 && w % 0x400 == 16 * 32 + 16 }
  function AddImm(w: nat): nat { w / 0x400 % 0x1000 }

  const BR_X17 := 0xd61f_0220

  /** The AArch64 stub at offset o runs with this page base in x16. */
  function PageBase(plt: seq<Byte>, o: nat, pltAddr: nat): int
    requires o + STUB <= |plt|
  {
    ((pltAddr + o) / PAGE + AdrpPages(Read(plt, o))) * PAGE
  }

  predicate IsArmStub(plt: seq<Byte>, o: nat)
    requires o + STUB <= |plt|
  {
    IsAdrp(Read(plt, o)) && IsLdr(Read(plt, o + 4)) && IsAdd(Read(plt, o + 8)) && Read(plt, o + 12) == BR_X17
  }

  /** The address whose contents the stub branches to, and the address it leaves in x16. */
  function ArmSlot(plt: seq<Byte>, o: nat, pltAddr: nat): int
    requires o + STUB <= |plt|
  {
    PageBase(plt, o, pltAddr) + LdrOffset(Read(plt, o + 4))
  }

  function ArmX16(plt: seq<Byte>, o: nat, pltAddr: nat): int
    requires o + STUB <= |plt|
  {
    PageBase(plt, o, pltAddr) + AddImm(Read(plt, o + 8))
  }

  // ----- layout of the two tables -----

  const HEADER := 24

  function SlotOffset(k: nat): nat { HEADER + 8 * k }

  function PltHeader(t: Target): nat { if t.X86_64? then 16 else 32 }

  function StubOffset(t: Target, j: nat): nat { PltHeader(t) + STUB * j }

  /** Contents of stub j before addresses are known: its slot offset, and on x86-64 its relocation number. */
  predicate Unlinked(t: Target, plt: seq<Byte>, o: nat, slot: nat)
    requires o + STUB <= |plt|
  {
    match t
    case X86_64 =>
      IsJump(plt, o) && Read(plt, o + 2) == SlotOffset(slot) % WORD && PushesAndReturns(plt, o, slot)
    case Arm64 =>
      Read(plt, o) + WORD * Read(plt, o + 4) == SlotOffset(slot) % UINT64
  }

  /** The first PLT entry: push got + 8, jmp *(got + 16) on x86-64; filled in later on AArch64. */
  function Header(t: Target): (h: seq<Byte>)
    ensures |h| == PltHeader(t)
  {
    match t
    case X86_64 => [0xff, 0x35] + Split(8) + [0xff, 0x25] + Split(16) + [0, 0, 0, 0]
    case Arm64 => seq(32, _ => 0)
  }

  predicate StubsHold(t: Target, plt: seq<Byte>, stubs: seq<nat>)
  {
    |plt| == (if stubs == [] then 0 else StubOffset(t, |stubs|)) && (stubs != [] ==> plt[..PltHeader(t)] == Header(t)) &&
    forall j :: 0 <= j < |stubs| ==> Unlinked(t, plt, StubOffset(t, j), stubs[j])
  }

  /** Who a GOT slot was made for. */
  datatype Owner = Owner(sym: nat, plt: bool)

  datatype Attr = Attr(got: nat, plt: nat)

  function At(attrs: seq<Attr>, s: nat): Attr { if s < |attrs| then attrs[s] else Attr(0, 0) }

  /** Slot numbers by symbol, for each kind, against the owners of the slots; stubs lists the slots of the PLT in order. */
  ghost predicate OwnersHold(owners: seq<Owner>, stubs: seq<nat>, gotSlot: map<nat, nat>, pltStub: map<nat, nat>)
  {
    (forall k :: 0 <= k < |owners| && !owners[k].plt ==> owners[k].sym in gotSlot && gotSlot[owners[k].sym] == k) &&
    (forall s :: s in gotSlot ==> gotSlot[s] < |owners| && owners[gotSlot[s]] == Owner(s, false)) &&
    (forall j :: 0 <= j < |stubs| ==> stubs[j] < |owners| && owners[stubs[j]].plt &&
                                      owners[stubs[j]].sym in pltStub && pltStub[owners[stubs[j]].sym] == j) &&
    (forall s :: s in pltStub ==> pltStub[s] < |stubs| && owners[stubs[pltStub[s]]] == Owner(s, true)) &&
    (forall k :: 0 <= k < |owners| && owners[k].plt ==> owners[k].sym in pltStub && stubs[pltStub[owners[k].sym]] == k)
  }

  ghost predicate AttrsHold(t: Target, attrs: seq<Attr>, gotSlot: map<nat, nat>, pltStub: map<nat, nat>)
  {
    forall s: nat :: At(attrs, s) == Attr(if s in gotSlot then SlotOffset(gotSlot[s]) else 0,
                                          if s in pltStub then StubOffset(t, pltStub[s]) else 0)
  }

  /** No symbol owns two slots of a kind. */
  lemma OneSlotEach(owners: seq<Owner>, stubs: seq<nat>, gotSlot: map<nat, nat>, pltStub: map<nat, nat>, k: nat, l: nat)
    requires OwnersHold(owners, stubs, gotSlot, pltStub) && k < |owners| && l < |owners| && owners[k] == owners[l]
    ensures k == l
  {}

  /** Slots and stubs never overlap each other or the reserved entries. */
  lemma SlotsApart(t: Target, k: nat, l: nat)
    ensures k != l ==> SlotOffset(k) + 8 <= SlotOffset(l) || SlotOffset(l) + 8 <= SlotOffset(k)
    ensures k != l ==> StubOffset(t, k) + STUB <= StubOffset(t, l) || StubOffset(t, l) + STUB <= StubOffset(t, k)
    ensures SlotOffset(k) >= HEADER && StubOffset(t, k) >= PltHeader(t)
  {
    if k < l { assert STUB * l >= STUB * (k + 1); } else if l < k { assert STUB * k >= STUB * (l + 1); }
  }

  /** A symbol of the output's symbol table, and one of the dynamic symbol table. */
  datatype LinkSym = LinkSym(name: string, value: nat, shndx: nat)
  datatype DynSym = DynSym(name: string, value: nat, size: nat, info: nat, shndx: nat)

  datatype GotRel = GotRel(offset: nat, jump: bool, sym: nat)

  const SHN_UNDEF := 0

  /** The value exported for the owner of a slot: its stub, when it is called but not defined here. */
  function ExportedValue(t: Target, s: LinkSym, o: Owner, stub: nat): nat
  {
    if o.plt && s.shndx == SHN_UNDEF then StubOffset(t, stub) else s.value
  }

  /** Relocation k fills slot k with the address of the slot's owner. */
  predicate RelocHolds(t: Target, syms: seq<LinkSym>, dyn: bool, dynsym: seq<DynSym>, r: GotRel, k: nat, o: Owner, pltStub: map<nat, nat>)
  {
    r.offset == SlotOffset(k) && r.jump == o.plt && o.sym < |syms| &&
    if dyn then
      r.sym < |dynsym| && dynsym[r.sym].name == syms[o.sym].name && dynsym[r.sym].shndx == syms[o.sym].shndx &&
      dynsym[r.sym].value == ExportedValue(t, syms[o.sym], o, if o.sym in pltStub then pltStub[o.sym] else 0)
    else r.sym == o.sym
  }

  predicate RelocsHold(t: Target, syms: seq<LinkSym>, dyn: bool, dynsym: seq<DynSym>, relocs: seq<GotRel>, owners: seq<Owner>, pltStub: map<nat, nat>)
  {
    |relocs| == |owners| &&
    forall k :: 0 <= k < |relocs| ==> RelocHolds(t, syms, dyn, dynsym, relocs[k], k, owners[k], pltStub)
  }

  /** A request adds one empty slot and its relocation. With a dynamic symbol table it adds one symbol at its end, of the size and
      info the request names, and the relocation is against that symbol. */
  predicate SlotMade(t: Target, s: LinkSym, dyn: bool, jump: bool, size: nat, info: nat, symIndex: nat, stub: nat,
                     dynsym: seq<DynSym>, relocs: seq<GotRel>, got: seq<Byte>,
                     dynsym': seq<DynSym>, relocs': seq<GotRel>, got': seq<Byte>)
  {
    var value := if jump && s.shndx == SHN_UNDEF then StubOffset(t, stub) else s.value;
    dynsym' == dynsym + (if dyn then [DynSym(s.name, value, size, info, s.shndx)] else []) &&
    relocs' == relocs + [GotRel(|got|, jump, if dyn then |dynsym| else symIndex)] &&
    got' == got + [0, 0, 0, 0, 0, 0, 0, 0]
  }

  // ----- one more slot -----

  lemma GotSlotAdded(t: Target, owners: seq<Owner>, stubs: seq<nat>, gotSlot: map<nat, nat>, pltStub: map<nat, nat>,
                     attrs: seq<Attr>, s: nat)
    requires OwnersHold(owners, stubs, gotSlot, pltStub) && AttrsHold(t, attrs, gotSlot, pltStub)
    requires s !in gotSlot && s < |attrs|
    ensures OwnersHold(owners + [Owner(s, false)], stubs, gotSlot[s := |owners|], pltStub)
    ensures AttrsHold(t, attrs[s := attrs[s].(got := SlotOffset(|owners|))], gotSlot[s := |owners|], pltStub)
  {
    assert At(attrs, s) == attrs[s];
    var attrs' := attrs[s := attrs[s].(got := SlotOffset(|owners|))];
    assert forall x: nat :: x != s ==> At(attrs', x) == At(attrs, x);
  }

  lemma PltSlotAdded(t: Target, owners: seq<Owner>, stubs: seq<nat>, gotSlot: map<nat, nat>, pltStub: map<nat, nat>,
                     attrs: seq<Attr>, s: nat)
    requires OwnersHold(owners, stubs, gotSlot, pltStub) && AttrsHold(t, attrs, gotSlot, pltStub)
    requires s !in pltStub && s < |attrs|
    ensures OwnersHold(owners + [Owner(s, true)], stubs + [|owners|], gotSlot, pltStub[s := |stubs|])
    ensures AttrsHold(t, attrs[s := attrs[s].(plt := StubOffset(t, |stubs|))], gotSlot, pltStub[s := |stubs|])
  {
    assert At(attrs, s) == attrs[s];
    var attrs' := attrs[s := attrs[s].(plt := StubOffset(t, |stubs|))];
    assert forall x: nat :: x != s ==> At(attrs', x) == At(attrs, x);
  }

  lemma RelocAdded(t: Target, syms: seq<LinkSym>, dyn: bool, dynsym: seq<DynSym>, relocs: seq<GotRel>, owners: seq<Owner>, pltStub: map<nat, nat>,
                   more: seq<DynSym>, r: GotRel, o: Owner, pltStub': map<nat, nat>)
    requires RelocsHold(t, syms, dyn, dynsym, relocs, owners, pltStub)
    requires RelocHolds(t, syms, dyn, dynsym + more, r, |owners|, o, pltStub')
    requires forall k :: 0 <= k < |owners| && owners[k].plt ==>
      owners[k].sym in pltStub && owners[k].sym in pltStub' && pltStub'[owners[k].sym] == pltStub[owners[k].sym]
    ensures RelocsHold(t, syms, dyn, dynsym + more, relocs + [r], owners + [o], pltStub')
  {
    hide SlotOffset, StubOffset;
  }

  /** The x86-64 stub as put_got_entry writes it at offset o. */
  function StubX86(o: nat, got: nat, index: nat): (b: seq<Byte>)
    ensures |b| == STUB
  {
    [0xff, 0x25] + Split(got) + [0x68] + Split(index) + [0xe9] + Split(-(o + 16))
  }

  /** The AArch64 stub until relocate_plt: the slot's offset in two words. */
  function StubArm(got: nat): (b: seq<Byte>)
    ensures |b| == STUB
  {
    Split(got) + Split(got / WORD) + [0, 0, 0, 0, 0, 0, 0, 0]
  }

  lemma ReadAppended(plt: seq<Byte>, before: seq<Byte>, v: int, after: seq<Byte>)
    ensures Read(plt + (before + Split(v) + after), |plt| + |before|) == v % WORD
  {
    hide Split, ReadBytes;
    var all := plt + (before + Split(v) + after);
    var o := |plt| + |before|;
    assert all[o] == Split(v)[0] && all[o + 1] == Split(v)[1] && all[o + 2] == Split(v)[2] && all[o + 3] == Split(v)[3];
    SplitRead(v);
  }

  lemma BackToStart(o: nat)
    ensures (o + 16 + (-(o + 16)) % WORD) % WORD == 0
  {
    var v := -(o + 16);
    assert v == v / WORD * WORD + v % WORD;
    assert o + 16 + v % WORD == (-(v / WORD)) * WORD;
  }

  lemma StubX86Holds(plt: seq<Byte>, slot: nat)
    ensures Unlinked(X86_64, plt + StubX86(|plt|, SlotOffset(slot), slot), |plt|, slot)
  {
    hide Split, Read;
    var o, got := |plt|, SlotOffset(slot);
    var b := StubX86(o, got, slot);
    assert b == [0xff, 0x25] + Split(got) + ([0x68] + Split(slot) + [0xe9] + Split(-(o + 16)));
    ReadAppended(plt, [0xff, 0x25], got, [0x68] + Split(slot) + [0xe9] + Split(-(o + 16)));
    assert b == ([0xff, 0x25] + Split(got) + [0x68]) + Split(slot) + ([0xe9] + Split(-(o + 16)));
    ReadAppended(plt, [0xff, 0x25] + Split(got) + [0x68], slot, [0xe9] + Split(-(o + 16)));
    assert b == ([0xff, 0x25] + Split(got) + [0x68] + Split(slot) + [0xe9]) + Split(-(o + 16)) + [];
    ReadAppended(plt, [0xff, 0x25] + Split(got) + [0x68] + Split(slot) + [0xe9], -(o + 16), []);
    BackToStart(o);
  }

  lemma StubArmHolds(plt: seq<Byte>, slot: nat)
    ensures Unlinked(Arm64, plt + StubArm(SlotOffset(slot)), |plt|, slot)
  {
    hide Split, Read, SlotOffset;
    var got := SlotOffset(slot);
    var pad: seq<Byte> := [0, 0, 0, 0, 0, 0, 0, 0];
    assert StubArm(got) == [] + Split(got) + (Split(got / WORD) + pad);
    ReadAppended(plt, [], got, Split(got / WORD) + pad);
    assert StubArm(got) == Split(got) + Split(got / WORD) + pad;
    ReadAppended(plt, Split(got), got / WORD, pad);
    TwoWords(got);
  }

  lemma TwoWords(v: nat)
    ensures v % WORD + WORD * (v / WORD % WORD) == v % UINT64
  {
    var q := v / WORD;
    assert v == q * WORD + v % WORD;
    assert q == q / WORD * WORD + q % WORD;
    assert v == (q / WORD) * UINT64 + (q % WORD * WORD + v % WORD);
  }

  /** A stub at the end leaves the others as they are. */
  lemma StubAdded(t: Target, plt: seq<Byte>, stubs: seq<nat>, head: seq<Byte>, stub: seq<Byte>, slot: nat)
    requires StubsHold(t, plt, stubs) && |stub| == STUB
    requires head == if stubs == [] then Header(t) else plt
    requires Unlinked(t, head + stub, |head|, slot)
    ensures |head| == StubOffset(t, |stubs|) && StubsHold(t, head + stub, stubs + [slot])
  {
    hide SlotOffset, Unlinked, Header;
    var plt', stubs' := head + stub, stubs + [slot];
    assert plt'[..PltHeader(t)] == Header(t);
    forall j | 0 <= j < |stubs'| ensures Unlinked(t, plt', StubOffset(t, j), stubs'[j]) {
      if j < |stubs| {
        assert STUB * j + STUB <= STUB * |stubs|;
        SameStub(t, plt, plt', StubOffset(t, j), stubs[j]);
      }
    }
  }

  lemma SameStub(t: Target, plt: seq<Byte>, plt': seq<Byte>, o: nat, slot: nat)
    requires o + STUB <= |plt| && o + STUB <= |plt'| && plt[o..o + STUB] == plt'[o..o + STUB] && Unlinked(t, plt, o, slot)
    ensures Unlinked(t, plt', o, slot)
  {
    hide ReadBytes;
    forall i | o <= i < o + STUB ensures plt[i] == plt'[i] { assert plt[o..o + STUB][i - o] == plt'[o..o + STUB][i - o]; }
  }

  // ----- relocate_plt -----

  predicate InInt32(d: int) { -0x8000_0000 <= d < 0x8000_0000 }

  /** The address within 32 bits of from that differs from the target by a multiple of 2^32. */
  predicate NearestTo(from: int, to: int, at: int) { InInt32(at - from) && (at - to) % WORD == 0 }

  /** A displacement computed modulo 2^32 reaches its target exactly when the distance fits in 32 bits. */
  lemma Reaches(from: int, to: int, w: nat)
    requires w == (to - from) % WORD
    ensures from + Signed(w) == to <==> InInt32(to - from)
    ensures NearestTo(from, to, from + Signed(w))
  {
    var d := to - from;
    var q := d / WORD;
    assert d == q * WORD + w;
    if InInt32(d) {
      assert q == 0 || q == -1;
    }
    Shifted(0, if w < 0x8000_0000 then -q else -q - 1);
  }

  /** There is only one such address. */
  lemma NearestOnce(from: int, to: int, at: int, at': int)
    requires NearestTo(from, to, at) && NearestTo(from, to, at')
    ensures at == at'
  {
    assert (at - to) % WORD == 0 && (at' - to) % WORD == 0;
  }

  lemma WrapTwice(v: int, x: int)
    ensures (v % WORD + x) % WORD == (v + x) % WORD
  {
    var q := v / WORD;
    assert v == q * WORD + v % WORD;
    Shifted(v % WORD + x, q);
  }

  lemma Shifted(y: int, q: int)
    ensures (y + q * WORD) % WORD == y % WORD
  {}

  /** A linked x86-64 stub jumps through its slot exactly when the slot is within reach, and still pushes its number. */
  predicate LinkedX86(plt: seq<Byte>, o: nat, pltAddr: nat, gotAddr: nat, slot: nat)
    requires o + STUB <= |plt|
  {
    IsJump(plt, o) && PushesAndReturns(plt, o, slot) &&
    NearestTo(pltAddr + o + 6, gotAddr + SlotOffset(slot), JumpSlot(plt, o, pltAddr)) &&
    (JumpSlot(plt, o, pltAddr) == gotAddr + SlotOffset(slot) <==>
     InInt32(gotAddr + SlotOffset(slot) - (pltAddr + o + 6)))
  }

  lemma LinkX86(plt: seq<Byte>, o: nat, pltAddr: nat, gotAddr: nat, slot: nat, x: int)
    requires o + STUB <= |plt| && Unlinked(X86_64, plt, o, slot) && x == gotAddr - pltAddr - 6
    ensures LinkedX86(Write(plt, o + 2, Read(plt, o + 2) + x - o), o, pltAddr, gotAddr, slot)
  {
    hide Read, SlotOffset, Signed;
    var w := Read(plt, o + 2) + x - o;
    var plt' := Write(plt, o + 2, w);
    ReadWritten(plt, o + 2, w);
    WrapTwice(SlotOffset(slot), x - o);
    Reaches(pltAddr + o + 6, gotAddr + SlotOffset(slot), Read(plt', o + 2));
    ReadElsewhere(plt, o + 2, w, o + 7);
    ReadElsewhere(plt, o + 2, w, o + 12);
    assert plt'[o] == plt[o] && plt'[o + 1] == plt[o + 1] && plt'[o + 6] == plt[o + 6] && plt'[o + 11] == plt[o + 11];
  }

  /** The first entry pushes the word at got + 8 and jumps through got + 16. */
  predicate FirstLinked(plt: seq<Byte>, pltAddr: nat, gotAddr: nat)
    requires |plt| >= 16
  {
    plt[0] == 0xff && plt[1] == 0x35 && plt[6] == 0xff && plt[7] == 0x25 &&
    (pltAddr + 6 + Signed(Read(plt, 2)) == gotAddr + 8 <==> InInt32(gotAddr + 8 - (pltAddr + 6))) &&
    (pltAddr + 12 + Signed(Read(plt, 8)) == gotAddr + 16 <==> InInt32(gotAddr + 16 - (pltAddr + 12)))
  }

  lemma LinkFirst(plt: seq<Byte>, pltAddr: nat, gotAddr: nat, x: int)
    requires |plt| >= 16 && plt[..16] == Header(X86_64) && x == gotAddr - pltAddr - 6
    ensures var p := Write(plt, 2, Read(plt, 2) + x); FirstLinked(Write(p, 8, Read(p, 8) + x - 6), pltAddr, gotAddr)
  {
    hide Read, Signed;
    var h := plt[..16];
    assert forall i :: 0 <= i < 16 ==> plt[i] == h[i];
    assert plt == [0xff, 0x35] + Split(8) + ([0xff, 0x25] + Split(16) + [0, 0, 0, 0] + plt[16..]);
    assert plt == [0xff, 0x35] + Split(8) + [0xff, 0x25] + Split(16) + ([0, 0, 0, 0] + plt[16..]);
    HeaderWord([0xff, 0x35], 8, [0xff, 0x25] + Split(16) + [0, 0, 0, 0] + plt[16..], plt);
    HeaderWord([0xff, 0x35] + Split(8) + [0xff, 0x25], 16, [0, 0, 0, 0] + plt[16..], plt);
    var p := Write(plt, 2, 8 + x);
    var q := Write(p, 8, 16 + x - 6);
    ReadWritten(plt, 2, 8 + x);
    ReadElsewhere(plt, 2, 8 + x, 8);
    ReadWritten(p, 8, 16 + x - 6);
    ReadElsewhere(p, 8, 16 + x - 6, 2);
    Reaches(pltAddr + 6, gotAddr + 8, Read(q, 2));
    Reaches(pltAddr + 12, gotAddr + 16, Read(q, 8));
    assert q[0] == plt[0] && q[1] == plt[1] && q[6] == plt[6] && q[7] == plt[7];
  }

  lemma HeaderWord(before: seq<Byte>, v: int, after: seq<Byte>, plt: seq<Byte>)
    requires plt == before + Split(v) + after
    ensures Read(plt, |before|) == v % WORD
  {
    assert [] + (before + Split(v) + after) == plt;
    ReadAppended([], before, v, after);
  }

  lemma LinkedX86Kept(plt: seq<Byte>, plt': seq<Byte>, o: nat, pltAddr: nat, gotAddr: nat, slot: nat)
    requires o + STUB <= |plt| && o + STUB <= |plt'| && plt[o..o + STUB] == plt'[o..o + STUB]
    requires LinkedX86(plt, o, pltAddr, gotAddr, slot)
    ensures LinkedX86(plt', o, pltAddr, gotAddr, slot)
  {
    hide ReadBytes, Signed, InInt32, SlotOffset;
    forall i | o <= i < o + STUB ensures plt[i] == plt'[i] { assert plt[o..o + STUB][i - o] == plt'[o..o + STUB][i - o]; }
  }

  // The AArch64 instruction words, by field.

  function AdrpWord(off: nat): nat { 0x9000_0010 + off % 0x20_0000 / 4 * 32 + off % 4 * 0x2000_0000 }
  function LdrWord(addr: nat): nat { 0xf940_0211 + addr % PAGE / 8 * 0x400 }
  function AddWord(addr: nat): nat { 0x9100_0210 + addr % PAGE * 0x400 }

  /** (addr >> 12) - (pc >> 12) in 64 bits. */
  function PageOffset(pc: nat, addr: nat): nat { (addr / PAGE - pc / PAGE) % UINT64 }

  /** The test before mkcc_error. */
  predicate TooFar(off: nat) { (off + 0x10_0000) % UINT64 / 0x20_0000 != 0 }

  predicate PagesInReach(pc: nat, addr: nat) { -0x10_0000 <= addr / PAGE - pc / PAGE < 0x10_0000 }

  /** The first n stubs reach their slots. */
  predicate StubsInReach(pltAddr: nat, gotAddr: nat, stubs: seq<nat>, n: nat)
    requires n <= |stubs|
  {
    forall j :: 0 <= j < n ==> PagesInReach(pltAddr + StubOffset(Arm64, j), gotAddr + SlotOffset(stubs[j]))
  }

  /** The test passes exactly when the signed page distance fits in 21 bits. */
  lemma TooFarIs(pc: nat, addr: nat)
    requires pc < UINT64 && addr < UINT64
    ensures TooFar(PageOffset(pc, addr)) <==> !PagesInReach(pc, addr)
  {
    var d := addr / PAGE - pc / PAGE;
    assert -0x10_0000_0000_0000 <= d < 0x10_0000_0000_0000;
    if d >= 0 { SmallMod(d); } else { NegativeMod(d); }
    if d + 0x10_0000 >= 0 { SmallMod(d + 0x10_0000); } else { NegativeMod(d + 0x10_0000); }
    if d < 0 {
      assert PageOffset(pc, addr) + 0x10_0000 == d + 0x10_0000 + UINT64;
    }
  }

  lemma SmallMod(d: int)
    requires 0 <= d < UINT64
    ensures d % UINT64 == d
  {}

  lemma NegativeMod(d: int)
    requires -UINT64 <= d < 0
    ensures d % UINT64 == d + UINT64
  {}

  lemma AdrpFields(pc: nat, addr: nat)
    requires pc < UINT64 && addr < UINT64 && PagesInReach(pc, addr)
    ensures AdrpWord(PageOffset(pc, addr)) < WORD && IsAdrp(AdrpWord(PageOffset(pc, addr)))
    ensures AdrpPages(AdrpWord(PageOffset(pc, addr))) == addr / PAGE - pc / PAGE
  {
    var d := addr / PAGE - pc / PAGE;
    if d >= 0 { SmallMod(d); } else { NegativeMod(d); }
    var off := PageOffset(pc, addr);
    var m := off % 0x20_0000;
    assert m == if d >= 0 then d else d + 0x20_0000;
    AdrpEncodes(off, m);
  }

  lemma AdrpEncodes(off: nat, m: nat)
    requires m == off % 0x20_0000
    ensures AdrpWord(off) < WORD && IsAdrp(AdrpWord(off))
    ensures AdrpPages(AdrpWord(off)) == if m < 0x10_0000 then m else m - 0x20_0000
  {
    assert off % 4 == m % 4;
    AdrpLow(m / 4, m % 4, AdrpWord(off));
    AdrpHigh(m / 4, m % 4, AdrpWord(off));
  }

  lemma AdrpLow(hi: nat, lo: nat, w: nat)
    requires hi < 0x8_0000 && lo < 4 && w == 0x9000_0010 + hi * 32 + lo * 0x2000_0000
    ensures w < WORD && w % 32 == 16 && w / 32 % 0x8_0000 == hi
  {
    assert w / 32 == hi + lo * 0x100_0000 + 0x480_0000;
  }

  lemma AdrpHigh(hi: nat, lo: nat, w: nat)
    requires hi < 0x8_0000 && lo < 4 && w == 0x9000_0010 + hi * 32 + lo * 0x2000_0000
    ensures w / 0x100_0000 % 32 == 16 && w / 0x8000_0000 == 1 && w / 0x2000_0000 % 4 == lo
  {
    assert w / 0x2000_0000 == lo + 4;
    assert w / 0x100_0000 == lo * 32 + 0x90;
  }

  lemma LdrFields(addr: nat)
    ensures LdrWord(addr) < WORD && IsLdr(LdrWord(addr)) && LdrOffset(LdrWord(addr)) == addr % PAGE / 8 * 8
  {}

  lemma AddFields(addr: nat)
    ensures AddWord(addr) < WORD && IsAdd(AddWord(addr)) && AddImm(AddWord(addr)) == addr % PAGE
  {}

  /** The four words of a linked AArch64 stub. */
  function FourWords(plt: seq<Byte>, o: nat, a: nat, b: nat, c: nat, d: nat): (p: seq<Byte>)
    requires o + STUB <= |plt|
    ensures |p| == |plt|
  {
    Write(Write(Write(Write(plt, o, a), o + 4, b), o + 8, c), o + 12, d)
  }

  lemma FourWordsRead(plt: seq<Byte>, o: nat, a: nat, b: nat, c: nat, d: nat)
    requires o + STUB <= |plt| && a < WORD && b < WORD && c < WORD && d < WORD
    ensures var p := FourWords(plt, o, a, b, c, d);
      Read(p, o) == a && Read(p, o + 4) == b && Read(p, o + 8) == c && Read(p, o + 12) == d
  {
    hide Read;
    var p1 := Write(plt, o, a);
    var p2 := Write(p1, o + 4, b);
    var p3 := Write(p2, o + 8, c);
    ReadWritten(plt, o, a);
    ReadWritten(p1, o + 4, b);
    ReadWritten(p2, o + 8, c);
    ReadWritten(p3, o + 12, d);
    ReadElsewhere(p1, o + 4, b, o);
    ReadElsewhere(p2, o + 8, c, o);
    ReadElsewhere(p2, o + 8, c, o + 4);
    ReadElsewhere(p3, o + 12, d, o);
    ReadElsewhere(p3, o + 12, d, o + 4);
    ReadElsewhere(p3, o + 12, d, o + 8);
  }

  /** A linked AArch64 stub leaves its slot's address in x16, and loads the slot itself exactly when that is a multiple of 8. */
  predicate LinkedArm(plt: seq<Byte>, o: nat, pltAddr: nat, gotAddr: nat, slot: nat)
    requires o + STUB <= |plt|
  {
    var addr := gotAddr + SlotOffset(slot);
    IsArmStub(plt, o) && ArmX16(plt, o, pltAddr) == addr && (ArmSlot(plt, o, pltAddr) == addr <==> addr % 8 == 0)
  }

  lemma LinkArm(plt: seq<Byte>, o: nat, pltAddr: nat, gotAddr: nat, slot: nat)
    requires o + STUB <= |plt| && pltAddr + o < UINT64 && gotAddr + SlotOffset(slot) < UINT64
    requires PagesInReach(pltAddr + o, gotAddr + SlotOffset(slot))
    ensures var pc, addr := pltAddr + o, gotAddr + SlotOffset(slot);
      LinkedArm(FourWords(plt, o, AdrpWord(PageOffset(pc, addr)), LdrWord(addr), AddWord(addr), BR_X17), o, pltAddr, gotAddr, slot)
  {
    hide Read, FourWords, AdrpWord, LdrWord, AddWord, AdrpPages, IsAdrp, IsLdr, IsAdd, LdrOffset, AddImm, PageOffset, SlotOffset;
    var pc, addr := pltAddr + o, gotAddr + SlotOffset(slot);
    AdrpFields(pc, addr);
    LdrFields(addr);
    AddFields(addr);
    FourWordsRead(plt, o, AdrpWord(PageOffset(pc, addr)), LdrWord(addr), AddWord(addr), BR_X17);
    assert addr == addr / PAGE * PAGE + addr % PAGE;
    PageAligned(addr);
  }

  lemma PageAligned(addr: nat)
    ensures addr % PAGE / 8 * 8 == addr % PAGE <==> addr % 8 == 0
  {}

  /** The first AArch64 entry saves two registers, then goes through the first GOT entry the way a stub does. */
  predicate FirstLinkedArm(plt: seq<Byte>, pltAddr: nat, gotAddr: nat)
    requires |plt| >= 32
  {
    Read(plt, 0) == 0xa9bf_7bf0 && IsArmStub(plt, 4) && ArmX16(plt, 4, pltAddr) == gotAddr &&
    (ArmSlot(plt, 4, pltAddr) == gotAddr <==> gotAddr % 8 == 0)
  }

  lemma LinkFirstArm(plt: seq<Byte>, pltAddr: nat, gotAddr: nat)
    requires |plt| >= 32 && pltAddr % 8 == 0 && pltAddr < UINT64 && gotAddr < UINT64 && PagesInReach(pltAddr, gotAddr)
    ensures var p := FourWords(plt, 0, 0xa9bf_7bf0, AdrpWord(PageOffset(pltAddr, gotAddr)), LdrWord(gotAddr), AddWord(gotAddr));
      FirstLinkedArm(FourWords(p, 16, BR_X17, 0xd503_201f, 0xd503_201f, 0xd503_201f), pltAddr, gotAddr)
  {
    hide Read, FourWords, AdrpWord, LdrWord, AddWord, AdrpPages, IsAdrp, IsLdr, IsAdd, LdrOffset, AddImm, PageOffset;
    var off := PageOffset(pltAddr, gotAddr);
    var p := FourWords(plt, 0, 0xa9bf_7bf0, AdrpWord(off), LdrWord(gotAddr), AddWord(gotAddr));
    var q := FourWords(p, 16, BR_X17, 0xd503_201f, 0xd503_201f, 0xd503_201f);
    AdrpFields(pltAddr, gotAddr);
    LdrFields(gotAddr);
    AddFields(gotAddr);
    FourWordsRead(plt, 0, 0xa9bf_7bf0, AdrpWord(off), LdrWord(gotAddr), AddWord(gotAddr));
    FourWordsRead(p, 16, BR_X17, 0xd503_201f, 0xd503_201f, 0xd503_201f);
    FourWordsFrame(p, 16, BR_X17, 0xd503_201f, 0xd503_201f, 0xd503_201f);
    ReadPrefix(p, q, 16);
    assert gotAddr == gotAddr / PAGE * PAGE + gotAddr % PAGE;
    assert (pltAddr + 4) / PAGE == pltAddr / PAGE;
    PageAligned(gotAddr);
  }

  lemma ReadPrefix(plt: seq<Byte>, plt': seq<Byte>, n: nat)
    requires n <= |plt| && n <= |plt'| && plt[..n] == plt'[..n]
    ensures forall o: nat :: o + 4 <= n ==> Read(plt, o) == Read(plt', o)
  {
    hide ReadBytes;
    forall i | 0 <= i < n ensures plt[i] == plt'[i] { assert plt[..n][i] == plt'[..n][i]; }
  }

  lemma FirstArmKept(plt: seq<Byte>, plt': seq<Byte>, n: nat, pltAddr: nat, gotAddr: nat)
    requires 32 <= n <= |plt| && n <= |plt'| && plt[..n] == plt'[..n]
    requires FirstLinkedArm(plt, pltAddr, gotAddr)
    ensures FirstLinkedArm(plt', pltAddr, gotAddr)
  {
    hide Read, IsAdrp, IsLdr, IsAdd, AdrpPages, LdrOffset, AddImm;
    ReadPrefix(plt, plt', n);
  }

  lemma LinkedArmKept(plt: seq<Byte>, plt': seq<Byte>, o: nat, pltAddr: nat, gotAddr: nat, slot: nat)
    requires o + STUB <= |plt| && o + STUB <= |plt'| && plt[o..o + STUB] == plt'[o..o + STUB]
    requires LinkedArm(plt, o, pltAddr, gotAddr, slot)
    ensures LinkedArm(plt', o, pltAddr, gotAddr, slot)
  {
    hide ReadBytes, SlotOffset, IsAdrp, IsLdr, IsAdd, AdrpPages, LdrOffset, AddImm;
    forall i | o <= i < o + STUB ensures plt[i] == plt'[i] { assert plt[o..o + STUB][i - o] == plt'[o..o + STUB][i - o]; }
  }

  class Linker {
    const target: Target
    const syms: seq<LinkSym>
    const dyn: bool
    var got: seq<Byte>
    var plt: seq<Byte>
    var relocs: seq<GotRel>
    var attrs: seq<Attr>
    var dynsym: seq<DynSym>
    ghost var owners: seq<Owner>
    ghost var stubs: seq<nat>
    ghost var gotSlot: map<nat, nat>
    ghost var pltStub: map<nat, nat>

    ghost predicate Valid()
      reads this
    {
      |got| == SlotOffset(|owners|) && OwnersHold(owners, stubs, gotSlot, pltStub) && AttrsHold(target, attrs, gotSlot, pltStub) &&
      StubsHold(target, plt, stubs) && RelocsHold(target, syms, dyn, dynsym, relocs, owners, pltStub)
    }

    /** build_got: three reserved entries. */
    constructor (t: Target, symbols: seq<LinkSym>, dynamic: bool)
      ensures Valid() && owners == [] && gotSlot == map[] && pltStub == map[] && target == t && syms == symbols && dyn == dynamic
    {
      target, syms, dyn := t, symbols, dynamic;
      got, plt, relocs, attrs, dynsym := seq(24, _ => 0), [], [], [], [];
      owners, stubs, gotSlot, pltStub := [], [], map[], map[];
    }

    /** alloc_sym_attr: room for the attributes of a symbol, in an array whose size is a power of two. */
    method AllocSymAttr(index: nat)
      modifies this`attrs
      ensures index < |attrs| && forall s: nat :: At(attrs, s) == old(At(attrs, s))
    {
      if index >= |attrs| {
        var n := 1;
        while index >= n
          invariant n >= 1
          decreases index - n
        {
          n := n * 2;
        }
        attrs := attrs + seq(n - |attrs|, _ => Attr(0, 0));
      }
    }

    /** put_got_entry: the offset of the symbol's slot or stub, made on the first request only. */
    method PutGotEntry(jump: bool, size: nat, info: nat, symIndex: nat) returns (offset: nat)
      requires Valid() && symIndex < |syms|
      modifies this
      ensures Valid()
      ensures offset == (if jump then At(attrs, symIndex).plt else At(attrs, symIndex).got) && offset != 0
      ensures forall s: nat :: Stays(old(At(attrs, s)), At(attrs, s))
      ensures symIndex in (if jump then old(pltStub) else old(gotSlot)) ==> unchanged(this)
      ensures symIndex !in (if jump then old(pltStub) else old(gotSlot)) ==>
        owners == old(owners) + [Owner(symIndex, jump)] && stubs == old(stubs) + (if jump then [|old(owners)|] else []) &&
        SlotMade(target, syms[symIndex], dyn, jump, size, info, symIndex, |old(stubs)|, old(dynsym), old(relocs), old(got), dynsym, relocs, got)
    {
      hide OwnersHold, AttrsHold, StubsHold, RelocsHold, SlotOffset, StubOffset;
      AttrIs(target, attrs, gotSlot, pltStub, symIndex);
      if symIndex < |attrs| {
        if jump && attrs[symIndex].plt != 0 { return attrs[symIndex].plt; }
        if !jump && attrs[symIndex].got != 0 { return attrs[symIndex].got; }
      }
      MakeSlot(jump, size, info, symIndex);
      AttrIs(target, attrs, gotSlot, pltStub, symIndex);
      AttrsGrow(target, old(attrs), old(gotSlot), old(pltStub), attrs, gotSlot, pltStub);
      offset := if jump then attrs[symIndex].plt else attrs[symIndex].got;
    }

    /** The part of put_got_entry that makes a new slot. */
    method MakeSlot(jump: bool, size: nat, info: nat, symIndex: nat)
      requires Valid() && symIndex < |syms| && symIndex !in if jump then pltStub else gotSlot
      modifies this
      ensures Valid() && owners == old(owners) + [Owner(symIndex, jump)] && symIndex < |attrs|
      ensures stubs == old(stubs) + if jump then [|old(owners)|] else []
      ensures SlotMade(target, syms[symIndex], dyn, jump, size, info, symIndex, |old(stubs)|, old(dynsym), old(relocs), old(got),
                       dynsym, relocs, got)
      ensures gotSlot == if jump then old(gotSlot) else old(gotSlot)[symIndex := |old(owners)|]
      ensures pltStub == if jump then old(pltStub)[symIndex := |old(stubs)|] else old(pltStub)
    {
      hide OwnersHold, AttrsHold, StubsHold, RelocsHold, At, SlotOffset;
      AllocSymAttr(symIndex);
      AttrsKept(target, old(attrs), attrs, gotSlot, pltStub);
      ghost var newStub := pltStub;
      var sym := syms[symIndex];
      var value := sym.value;
      StubCount(target, plt, stubs);
      OwnerCount(target, syms, dyn, dynsym, relocs, owners, pltStub);
      if jump {
        PltSlotAdded(target, owners, stubs, gotSlot, pltStub, attrs, symIndex);
        newStub := pltStub[symIndex := |stubs|];
        attrs := attrs[symIndex := attrs[symIndex].(plt := if |plt| == 0 then PltHeader(target) else |plt|)];
        AddStub();
        if sym.shndx == SHN_UNDEF { value := |plt| - 16; }
      } else {
        GotSlotAdded(target, owners, stubs, gotSlot, pltStub, attrs, symIndex);
        attrs := attrs[symIndex := attrs[symIndex].(got := |got|)];
      }
      StubsKept(owners, stubs, gotSlot, pltStub, symIndex, newStub);
      AddReloc(jump, symIndex, DynSym(sym.name, value, size, info, sym.shndx), newStub);
      if jump { stubs := stubs + [|owners|]; } else { gotSlot := gotSlot[symIndex := |owners|]; }
      owners := owners + [Owner(symIndex, jump)];
      pltStub := newStub;
    }

    /** The end of put_got_entry: the dynamic symbol, the relocation of the next slot, and the slot. */
    method AddReloc(jump: bool, symIndex: nat, d: DynSym, ghost newStub: map<nat, nat>)
      requires |got| == SlotOffset(|owners|) && RelocsHold(target, syms, dyn, dynsym, relocs, owners, pltStub) && symIndex < |syms|
      requires d.name == syms[symIndex].name && d.shndx == syms[symIndex].shndx
      requires d.value == ExportedValue(target, syms[symIndex], Owner(symIndex, jump),
                                        if symIndex in newStub then newStub[symIndex] else 0)
      requires forall k :: 0 <= k < |owners| && owners[k].plt ==>
        owners[k].sym in pltStub && owners[k].sym in newStub && newStub[owners[k].sym] == pltStub[owners[k].sym]
      modifies this`got, this`relocs, this`dynsym
      ensures |got| == SlotOffset(|owners| + 1)
      ensures RelocsHold(target, syms, dyn, dynsym, relocs, owners + [Owner(symIndex, jump)], newStub)
      ensures dynsym == old(dynsym) + if dyn then [d] else []
      ensures relocs == old(relocs) + [GotRel(|old(got)|, jump, if dyn then |old(dynsym)| else symIndex)]
      ensures got == old(got) + seq(8, _ => 0)
    {
      hide RelocsHold, ExportedValue;
      var index := symIndex;
      ghost var more: seq<DynSym> := [];
      if dyn {
        index := |dynsym|;
        more := [d];
        dynsym := dynsym + [d];
      } else {
        assert dynsym == dynsym + more;
      }
      RelocAdded(target, syms, dyn, old(dynsym), relocs, owners, pltStub, more, GotRel(|got|, jump, index), Owner(symIndex, jump), newStub);
      relocs := relocs + [GotRel(|got|, jump, index)];
      got := got + seq(8, _ => 0);
    }

    /** The PLT part of put_got_entry: the first entry when there is none yet, and a stub through the next slot. */
    method AddStub()
      requires StubsHold(target, plt, stubs) && |got| == SlotOffset(|relocs|)
      modifies this`plt
      ensures StubsHold(target, plt, stubs + [|relocs|]) && |plt| == StubOffset(target, |stubs|) + STUB
    {
      hide Unlinked, SlotOffset;
      if |plt| == 0 { plt := Header(target); }
      ghost var head := plt;
      match target {
        case X86_64 =>
          StubX86Holds(plt, |relocs|);
          plt := plt + StubX86(|plt|, |got|, |relocs|);
        case Arm64 =>
          StubArmHolds(plt, |relocs|);
          plt := plt + StubArm(|got|);
      }
      assert plt == head + plt[|head|..];
      StubAdded(target, old(plt), stubs, head, plt[|head|..], |relocs|);
    }

    /** relocate_plt on x86-64. */
    method RelocateX86(pltAddr: nat, gotAddr: nat)
      requires Valid() && target.X86_64?
      modifies this`plt
      ensures |plt| == |old(plt)| && |plt| == if stubs == [] then 0 else StubOffset(target, |stubs|)
      ensures stubs != [] ==> FirstLinked(plt, pltAddr, gotAddr)
      ensures forall j :: 0 <= j < |stubs| ==> LinkedX86(plt, StubOffset(target, j), pltAddr, gotAddr, stubs[j])
    {
      hide OwnersHold, AttrsHold, RelocsHold, LinkedX86, Unlinked, FirstLinked, Header, Write, Read, StubsHold, SlotOffset;
      StubCount(target, plt, stubs);
      if |plt| == 0 { return; }
      HeaderThere(target, plt, stubs);
      var x := gotAddr - pltAddr - 6;
      LinkFirst(plt, pltAddr, gotAddr, x);
      ghost var before := plt;
      plt := Write(plt, 2, Read(plt, 2) + x);
      plt := Write(plt, 8, Read(plt, 8) + x - 6);
      TailKept(before, 2, Read(before, 2) + x, 16);
      TailKept(Write(before, 2, Read(before, 2) + x), 8, Read(Write(before, 2, Read(before, 2) + x), 8) + x - 6, 16);
      var p := 16;
      ghost var j := 0;
      while p < |plt|
        invariant |plt| == StubOffset(target, |stubs|) && j <= |stubs| && p == StubOffset(target, j)
        invariant FirstLinked(plt, pltAddr, gotAddr) && plt[p..] == before[p..] && |before| == |plt|
        invariant forall m :: 0 <= m < j ==> LinkedX86(plt, StubOffset(target, m), pltAddr, gotAddr, stubs[m])
      {
        StubAt(target, before, stubs, j);
        StubAgain(target, before, plt, p, stubs[j]);
        LinkX86(plt, p, pltAddr, gotAddr, stubs[j], x);
        ghost var was := plt;
        plt := Write(plt, p + 2, Read(plt, p + 2) + x - p);
        WriteFrame(was, p + 2, Read(was, p + 2) + x - p, p);
        TailKept(was, p + 2, Read(was, p + 2) + x - p, p + 16);
        assert plt[p + 16..] == was[p..][16..] == before[p + 16..];
        FirstKept(was, plt, p, pltAddr, gotAddr);
        forall m | 0 <= m < j ensures LinkedX86(plt, StubOffset(target, m), pltAddr, gotAddr, stubs[m]) {
          PrefixSlice(was, plt, p, StubOffset(target, m));
          LinkedX86Kept(was, plt, StubOffset(target, m), pltAddr, gotAddr, stubs[m]);
        }
        p := p + 16;
        j := j + 1;
      }
    }

    /** relocate_plt on AArch64; not ok is the diagnostic that ends the link. */
    method RelocateArm(pltAddr: nat, gotAddr: nat) returns (ok: bool)
      requires Valid() && target.Arm64? && pltAddr + |plt| < UINT64 && gotAddr + |got| < UINT64
      modifies this`plt
      ensures |plt| == |old(plt)|
      ensures ok <==> stubs == [] || (PagesInReach(pltAddr, gotAddr) && StubsInReach(pltAddr, gotAddr, stubs, |stubs|))
      ensures ok && stubs != [] && pltAddr % 8 == 0 ==> |plt| >= 32 && FirstLinkedArm(plt, pltAddr, gotAddr)
      ensures ok ==> forall j :: 0 <= j < |stubs| ==>
        StubOffset(target, j) + STUB <= |plt| && LinkedArm(plt, StubOffset(target, j), pltAddr, gotAddr, stubs[j])
    {
      hide AttrsHold, RelocsHold, LinkedArm, Unlinked, Header, Write, Read, FourWords, PagesInReach, TooFar, PageOffset, AdrpWord, LdrWord, AddWord;
      hide OwnersHold, StubsHold, SlotOffset, FirstLinkedArm, ArmProgress, StubsInReach;
      StubCount(target, plt, stubs);
      if |plt| == 0 { return true; }
      TooFarIs(pltAddr, gotAddr);
      var off := PageOffset(pltAddr, gotAddr);
      if TooFar(off) { return false; }
      ghost var before := plt;
      plt := FourWords(plt, 0, 0xa9bf_7bf0, AdrpWord(off), LdrWord(gotAddr), AddWord(gotAddr));
      plt := FourWords(plt, 16, BR_X17, 0xd503_201f, 0xd503_201f, 0xd503_201f);
      HeaderTail(before, off, gotAddr);
      if pltAddr % 8 == 0 { LinkFirstArm(before, pltAddr, gotAddr); }
      ArmBegins(before, plt, stubs, pltAddr, gotAddr);
      var p := 32;
      ghost var j := 0;
      while p < |plt|
        invariant ArmProgress(before, plt, stubs, j, pltAddr, gotAddr)
        invariant |plt| == |before| == StubOffset(target, |stubs|) && j <= |stubs| && p == StubOffset(target, j)
      {
        StubAt(target, before, stubs, j);
        ArmRest(before, plt, stubs, j, pltAddr, gotAddr);
        StubAgain(target, before, plt, p, stubs[j]);
        SlotInGot(owners, stubs, gotSlot, pltStub, j);
        var pc := pltAddr + p;
        var addr := gotAddr + Read(plt, p) + WORD * Read(plt, p + 4);
        ArmWords(plt, p, stubs[j]);
        off := PageOffset(pc, addr);
        TooFarIs(pc, addr);
        if TooFar(off) {
          NotAllInReach(pltAddr, gotAddr, stubs, j);
          return false;
        }
        ArmStep(before, plt, stubs, j, pltAddr, gotAddr);
        plt := FourWords(plt, p, AdrpWord(off), LdrWord(addr), AddWord(addr), BR_X17);
        p := p + 16;
        j := j + 1;
      }
      ArmEnds(before, plt, stubs, j, pltAddr, gotAddr);
      ok := true;
    }
  }

  const FAR_GOT := 0x1_0050_0000

  /** A GOT 4 GB above its PLT: nothing is reported, and the stub jumps through an address 4 GB below its slot. */
  method FarGotExample() returns (l: Linker)
    ensures l.owners == [Owner(0, true)] && l.stubs == [0] && |l.plt| == StubOffset(X86_64, 1)
    ensures JumpSlot(l.plt, StubOffset(X86_64, 0), 0x40_0000) == FAR_GOT + SlotOffset(0) - WORD
  {
    hide OwnersHold, AttrsHold, RelocsHold, StubsHold, LinkedX86, FirstLinked, Stays, At, JumpSlot, SlotOffset;
    l := new Linker(X86_64, [LinkSym("f", 0, SHN_UNDEF)], true);
    var offset := l.PutGotEntry(true, 0, 0, 0);
    OneStub(l.owners, l.stubs, l.gotSlot, l.pltStub);
    l.RelocateX86(0x40_0000, FAR_GOT);
    assert LinkedX86(l.plt, StubOffset(X86_64, 0), 0x40_0000, FAR_GOT, l.stubs[0]);
    FarSlot(l.plt, 0x40_0000);
  }

  lemma FarSlot(plt: seq<Byte>, pltAddr: nat)
    requires |plt| == StubOffset(X86_64, 1) && pltAddr == 0x40_0000
    requires LinkedX86(plt, StubOffset(X86_64, 0), pltAddr, FAR_GOT, 0)
    ensures JumpSlot(plt, StubOffset(X86_64, 0), pltAddr) == FAR_GOT + SlotOffset(0) - WORD
  {
    hide JumpSlot, IsJump, PushesAndReturns;
    var o := StubOffset(X86_64, 0);
    NearestOnce(pltAddr + o + 6, FAR_GOT + SlotOffset(0), JumpSlot(plt, o, pltAddr), FAR_GOT + SlotOffset(0) - WORD);
  }

  lemma OneStub(owners: seq<Owner>, stubs: seq<nat>, gotSlot: map<nat, nat>, pltStub: map<nat, nat>)
    requires OwnersHold(owners, stubs, gotSlot, pltStub) && owners == [Owner(0, true)]
    ensures stubs == [0]
  {
    assert owners[0].plt && owners[0].sym == 0 && pltStub[0] < |stubs|;
    forall j | 0 <= j < |stubs| ensures stubs[j] == 0 && pltStub[0] == j {
      assert stubs[j] < |owners| && owners[stubs[j]].sym == 0;
    }
    assert stubs[0] == stubs[|stubs| - 1] == 0;
  }

  /** An offset once given to a symbol is never changed. */
  predicate Stays(a: Attr, b: Attr) { (a.got != 0 ==> b.got == a.got) && (a.plt != 0 ==> b.plt == a.plt) }

  lemma AttrsGrow(t: Target, attrs: seq<Attr>, gotSlot: map<nat, nat>, pltStub: map<nat, nat>,
                  attrs': seq<Attr>, gotSlot': map<nat, nat>, pltStub': map<nat, nat>)
    requires AttrsHold(t, attrs, gotSlot, pltStub) && AttrsHold(t, attrs', gotSlot', pltStub')
    requires forall s :: s in gotSlot ==> s in gotSlot' && gotSlot'[s] == gotSlot[s]
    requires forall s :: s in pltStub ==> s in pltStub' && pltStub'[s] == pltStub[s]
    ensures forall s: nat :: Stays(At(attrs, s), At(attrs', s))
  {
    forall s: nat ensures Stays(At(attrs, s), At(attrs', s)) {
      AttrIs(t, attrs, gotSlot, pltStub, s);
      AttrIs(t, attrs', gotSlot', pltStub', s);
    }
  }

  lemma WriteFrame(data: seq<Byte>, t: nat, v: int, n: nat)
    requires t + 4 <= |data| && n <= t
    ensures Write(data, t, v)[..n] == data[..n]
  {}

  lemma TailKept(data: seq<Byte>, t: nat, v: int, n: nat)
    requires t + 4 <= n <= |data|
    ensures Write(data, t, v)[n..] == data[n..]
  {}

  lemma FourWordsFrame(plt: seq<Byte>, o: nat, a: nat, b: nat, c: nat, d: nat)
    requires o + STUB <= |plt|
    ensures var p := FourWords(plt, o, a, b, c, d); p[..o] == plt[..o] && p[o + STUB..] == plt[o + STUB..]
  {
    hide Write;
    var p1 := Write(plt, o, a);
    var p2 := Write(p1, o + 4, b);
    var p3 := Write(p2, o + 8, c);
    WriteFrame(plt, o, a, o);
    WriteFrame(p1, o + 4, b, o);
    WriteFrame(p2, o + 8, c, o);
    WriteFrame(p3, o + 12, d, o);
    TailKept(plt, o, a, o + STUB);
    TailKept(p1, o + 4, b, o + STUB);
    TailKept(p2, o + 8, c, o + STUB);
    TailKept(p3, o + 12, d, o + STUB);
  }

  lemma HeaderTail(plt: seq<Byte>, off: nat, gotAddr: nat)
    requires |plt| >= 32
    ensures var p := FourWords(plt, 0, 0xa9bf_7bf0, AdrpWord(off), LdrWord(gotAddr), AddWord(gotAddr));
      FourWords(p, 16, BR_X17, 0xd503_201f, 0xd503_201f, 0xd503_201f)[32..] == plt[32..]
  {
    hide FourWords, AdrpWord, LdrWord, AddWord;
    var p := FourWords(plt, 0, 0xa9bf_7bf0, AdrpWord(off), LdrWord(gotAddr), AddWord(gotAddr));
    FourWordsFrame(plt, 0, 0xa9bf_7bf0, AdrpWord(off), LdrWord(gotAddr), AddWord(gotAddr));
    FourWordsFrame(p, 16, BR_X17, 0xd503_201f, 0xd503_201f, 0xd503_201f);
    assert p[32..] == p[16..][16..] == plt[16..][16..] == plt[32..];
  }

  lemma StubAgain(t: Target, plt: seq<Byte>, plt': seq<Byte>, o: nat, slot: nat)
    requires |plt| == |plt'| && o + STUB <= |plt| && plt[o..] == plt'[o..] && Unlinked(t, plt, o, slot)
    ensures Unlinked(t, plt', o, slot)
  {
    hide Unlinked;
    assert plt[o..o + STUB] == plt[o..][..STUB] == plt'[o..][..STUB] == plt'[o..o + STUB];
    SameStub(t, plt, plt', o, slot);
  }

  lemma PrefixSlice(plt: seq<Byte>, plt': seq<Byte>, n: nat, o: nat)
    requires n <= |plt| && n <= |plt'| && plt[..n] == plt'[..n] && o + STUB <= n
    ensures plt[o..o + STUB] == plt'[o..o + STUB]
  {
    assert plt[o..o + STUB] == plt[..n][o..o + STUB] == plt'[..n][o..o + STUB] == plt'[o..o + STUB];
  }

  lemma FirstKept(plt: seq<Byte>, plt': seq<Byte>, n: nat, pltAddr: nat, gotAddr: nat)
    requires 16 <= n <= |plt| && n <= |plt'| && plt[..n] == plt'[..n] && FirstLinked(plt, pltAddr, gotAddr)
    ensures FirstLinked(plt', pltAddr, gotAddr)
  {
    hide ReadBytes, Signed, InInt32;
    forall i | 0 <= i < n ensures plt[i] == plt'[i] { assert plt[..n][i] == plt'[..n][i]; }
  }

  lemma SlotInGot(owners: seq<Owner>, stubs: seq<nat>, gotSlot: map<nat, nat>, pltStub: map<nat, nat>, j: nat)
    requires OwnersHold(owners, stubs, gotSlot, pltStub) && j < |stubs|
    ensures SlotOffset(stubs[j]) + 8 <= SlotOffset(|owners|)
  {}

  lemma ArmWords(plt: seq<Byte>, o: nat, slot: nat)
    requires o + STUB <= |plt| && Unlinked(Arm64, plt, o, slot) && SlotOffset(slot) < UINT64
    ensures Read(plt, o) + WORD * Read(plt, o + 4) == SlotOffset(slot)
  {
    SmallMod(SlotOffset(slot));
  }

  /** relocate_plt on AArch64 has linked the first j stubs. */
  predicate ArmProgress(before: seq<Byte>, plt: seq<Byte>, stubs: seq<nat>, j: nat, pltAddr: nat, gotAddr: nat)
  {
    |plt| == |before| && |plt| >= 32 && j <= |stubs| && StubOffset(Arm64, j) <= |plt| &&
    plt[StubOffset(Arm64, j)..] == before[StubOffset(Arm64, j)..] && (pltAddr % 8 == 0 ==> FirstLinkedArm(plt, pltAddr, gotAddr)) &&
    StubsInReach(pltAddr, gotAddr, stubs, j) &&
    forall m :: 0 <= m < j ==> StubOffset(Arm64, m) + STUB <= |plt| && LinkedArm(plt, StubOffset(Arm64, m), pltAddr, gotAddr, stubs[m])
  }

  lemma ArmBegins(before: seq<Byte>, plt: seq<Byte>, stubs: seq<nat>, pltAddr: nat, gotAddr: nat)
    requires |plt| == |before| && |plt| >= 32 && plt[32..] == before[32..] && (pltAddr % 8 == 0 ==> FirstLinkedArm(plt, pltAddr, gotAddr))
    ensures ArmProgress(before, plt, stubs, 0, pltAddr, gotAddr)
  {
    hide FirstLinkedArm;
  }

  lemma ArmRest(before: seq<Byte>, plt: seq<Byte>, stubs: seq<nat>, j: nat, pltAddr: nat, gotAddr: nat)
    requires ArmProgress(before, plt, stubs, j, pltAddr, gotAddr)
    ensures |plt| == |before| && StubOffset(Arm64, j) <= |plt| && plt[StubOffset(Arm64, j)..] == before[StubOffset(Arm64, j)..]
  {
    hide FirstLinkedArm, LinkedArm, StubsInReach;
  }

  lemma ArmStep(before: seq<Byte>, plt: seq<Byte>, stubs: seq<nat>, j: nat, pltAddr: nat, gotAddr: nat)
    requires ArmProgress(before, plt, stubs, j, pltAddr, gotAddr) && j < |stubs| && StubOffset(Arm64, j) + STUB <= |plt|
    requires pltAddr + StubOffset(Arm64, j) < UINT64 && gotAddr + SlotOffset(stubs[j]) < UINT64
    requires PagesInReach(pltAddr + StubOffset(Arm64, j), gotAddr + SlotOffset(stubs[j]))
    ensures var o, pc, addr := StubOffset(Arm64, j), pltAddr + StubOffset(Arm64, j), gotAddr + SlotOffset(stubs[j]);
      ArmProgress(before, FourWords(plt, o, AdrpWord(PageOffset(pc, addr)), LdrWord(addr), AddWord(addr), BR_X17), stubs, j + 1, pltAddr, gotAddr)
  {
    hide FirstLinkedArm, LinkedArm, FourWords, AdrpWord, LdrWord, AddWord, PageOffset, SlotOffset, PagesInReach;
    var o, pc, addr := StubOffset(Arm64, j), pltAddr + StubOffset(Arm64, j), gotAddr + SlotOffset(stubs[j]);
    var plt' := FourWords(plt, o, AdrpWord(PageOffset(pc, addr)), LdrWord(addr), AddWord(addr), BR_X17);
    LinkArm(plt, o, pltAddr, gotAddr, stubs[j]);
    FourWordsFrame(plt, o, AdrpWord(PageOffset(pc, addr)), LdrWord(addr), AddWord(addr), BR_X17);
    assert plt'[o + STUB..] == plt[o..][STUB..] == before[o..][STUB..] == before[o + STUB..];
    if pltAddr % 8 == 0 { FirstArmKept(plt, plt', o, pltAddr, gotAddr); }
    forall m | 0 <= m < j ensures LinkedArm(plt', StubOffset(Arm64, m), pltAddr, gotAddr, stubs[m]) {
      PrefixSlice(plt, plt', o, StubOffset(Arm64, m));
      LinkedArmKept(plt, plt', StubOffset(Arm64, m), pltAddr, gotAddr, stubs[m]);
    }
  }

  lemma ArmEnds(before: seq<Byte>, plt: seq<Byte>, stubs: seq<nat>, j: nat, pltAddr: nat, gotAddr: nat)
    requires ArmProgress(before, plt, stubs, j, pltAddr, gotAddr) && j == |stubs|
    ensures |plt| >= 32 && (pltAddr % 8 == 0 ==> FirstLinkedArm(plt, pltAddr, gotAddr)) && StubsInReach(pltAddr, gotAddr, stubs, |stubs|)
    ensures forall m :: 0 <= m < |stubs| ==>
      StubOffset(Arm64, m) + STUB <= |plt| && LinkedArm(plt, StubOffset(Arm64, m), pltAddr, gotAddr, stubs[m])
  {
    hide FirstLinkedArm, LinkedArm, StubsInReach;
  }

  lemma NotAllInReach(pltAddr: nat, gotAddr: nat, stubs: seq<nat>, j: nat)
    requires j < |stubs| && !PagesInReach(pltAddr + StubOffset(Arm64, j), gotAddr + SlotOffset(stubs[j]))
    ensures !StubsInReach(pltAddr, gotAddr, stubs, |stubs|)
  {}

  lemma AttrsKept(t: Target, attrs: seq<Attr>, attrs': seq<Attr>, gotSlot: map<nat, nat>, pltStub: map<nat, nat>)
    requires AttrsHold(t, attrs, gotSlot, pltStub) && forall s: nat :: At(attrs', s) == At(attrs, s)
    ensures AttrsHold(t, attrs', gotSlot, pltStub)
  {}

  lemma OwnerCount(t: Target, syms: seq<LinkSym>, dyn: bool, dynsym: seq<DynSym>, relocs: seq<GotRel>, owners: seq<Owner>, pltStub: map<nat, nat>)
    requires RelocsHold(t, syms, dyn, dynsym, relocs, owners, pltStub)
    ensures |relocs| == |owners|
  {}

  lemma HeaderThere(t: Target, plt: seq<Byte>, stubs: seq<nat>)
    requires StubsHold(t, plt, stubs) && plt != []
    ensures |plt| >= PltHeader(t) && plt[..PltHeader(t)] == Header(t)
  {}

  lemma StubAt(t: Target, plt: seq<Byte>, stubs: seq<nat>, j: nat)
    requires StubsHold(t, plt, stubs) && j < |stubs|
    ensures StubOffset(t, j) + STUB <= |plt| && Unlinked(t, plt, StubOffset(t, j), stubs[j])
  {
    assert STUB * j + STUB <= STUB * |stubs|;
  }

  lemma StubCount(t: Target, plt: seq<Byte>, stubs: seq<nat>)
    requires StubsHold(t, plt, stubs)
    ensures |plt| == if stubs == [] then 0 else StubOffset(t, |stubs|)
  {}

  lemma StubsKept(owners: seq<Owner>, stubs: seq<nat>, gotSlot: map<nat, nat>, pltStub: map<nat, nat>, s: nat, newStub: map<nat, nat>)
    requires OwnersHold(owners, stubs, gotSlot, pltStub)
    requires newStub == pltStub || (s !in pltStub && newStub == pltStub[s := |stubs|])
    ensures forall k :: 0 <= k < |owners| && owners[k].plt ==>
      owners[k].sym in pltStub && owners[k].sym in newStub && newStub[owners[k].sym] == pltStub[owners[k].sym]
  {}

  lemma AttrIs(t: Target, attrs: seq<Attr>, gotSlot: map<nat, nat>, pltStub: map<nat, nat>, s: nat)
    requires AttrsHold(t, attrs, gotSlot, pltStub)
    ensures At(attrs, s) == Attr(if s in gotSlot then SlotOffset(gotSlot[s]) else 0,
                                 if s in pltStub then StubOffset(t, pltStub[s]) else 0)
    ensures (s in gotSlot <==> At(attrs, s).got != 0) && (s in pltStub <==> At(attrs, s).plt != 0)
  {}
}
