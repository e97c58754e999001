/** layout_sections: the order, addresses and file offsets of the sections of an ELF file, and its two loaded segments. */
module Layout {
  import opened Arith
  import opened Bytes
  import opened Wrappers

  datatype SecType = Dynsym | Strtab | HashTable | Relx | Nobits | OtherType

  /** What the layout reads of a section, and the two fields it fills in. */
  datatype Section = Section(kind: SecType, alloc: bool, write: bool, interp: bool, align: nat, size: nat,
                             offset: nat, addr: nat)

  /** A PT_LOAD program header. */
  datatype Segment = Segment(offset: nat, vaddr: nat, filesz: nat, memsz: nat)

  function FileSize(s: Section): nat { if s.kind.Nobits? then 0 else s.size }

  /** The same section, placed or not. */
  predicate SameButPlace(s: Section, t: Section) { t == s.(offset := t.offset, addr := t.addr) }

  // ----- the order -----

  /** Which of the eleven passes places a section: five for the read-only segment, five for the writable one, one for the rest. */
  function Pass(s: Section, segments: bool): nat
  {
    if !segments || !s.alloc then 10
    else (if s.write then 5 else 0) +
         if s.interp then 0
         else if s.kind.Dynsym? || s.kind.Strtab? || s.kind.HashTable? then 1
         else if s.kind.Relx? then 2
         else if s.kind.Nobits? then 4
         else 3
  }

  /** Section i comes before section j: earlier pass, or same pass and smaller number. */
  predicate Precedes(secs: seq<Section>, segments: bool, i: nat, j: nat)
    requires i < |secs| && j < |secs|
  {
    Pass(secs[i], segments) < Pass(secs[j], segments) || (Pass(secs[i], segments) == Pass(secs[j], segments) && i < j)
  }

  /** Section i has been placed once pass `pass` has looked at the sections below n. */
  predicate Done(secs: seq<Section>, segments: bool, pass: nat, n: nat, i: nat)
    requires i < |secs|
  {
    1 <= i && (Pass(secs[i], segments) < pass || (Pass(secs[i], segments) == pass && i < n))
  }

  /** The order so far: exactly the sections done, by pass and number. */
  predicate InOrder(secs: seq<Section>, segments: bool, order: seq<nat>, pass: nat, n: nat)
  {
    (forall a :: 0 <= a < |order| ==> order[a] < |secs| && Done(secs, segments, pass, n, order[a])) &&
    (forall a, b :: 0 <= a < b < |order| ==> Precedes(secs, segments, order[a], order[b])) &&
    (forall i :: 0 <= i < |secs| && Done(secs, segments, pass, n, i) ==> i in order)
  }

  /** Every section but the null one, once, by pass and number. */
  predicate IsOrder(secs: seq<Section>, segments: bool, order: seq<nat>)
  {
    (forall a :: 0 <= a < |order| ==> 1 <= order[a] < |secs|) &&
    (forall a, b :: 0 <= a < b < |order| ==> Precedes(secs, segments, order[a], order[b])) &&
    (forall i :: 1 <= i < |secs| ==> i in order)
  }

  /** IsOrder leaves no choice, and it is a permutation: no number occurs twice. */
  lemma OrderDistinct(secs: seq<Section>, segments: bool, order: seq<nat>, a: nat, b: nat)
    requires IsOrder(secs, segments, order) && a < |order| && b < |order| && order[a] == order[b]
    ensures a == b
  {}

  lemma {:induction false} SameUpTo(secs: seq<Section>, segments: bool, o: seq<nat>, p: seq<nat>, k: nat)
    requires IsOrder(secs, segments, o) && IsOrder(secs, segments, p) && k <= |o| && k <= |p|
    ensures o[..k] == p[..k]
  {
    if k > 0 {
      SameUpTo(secs, segments, o, p, k - 1);
      var n := k - 1;
      assert forall i :: 0 <= i < n ==> o[i] == o[..n][i] == p[..n][i] == p[i];
      assert o[n] in p && p[n] in o;
      var b :| 0 <= b < |p| && p[b] == o[n];
      var a :| 0 <= a < |o| && o[a] == p[n];
      assert o[..k] == o[..n] + [o[n]] && p[..k] == p[..n] + [p[n]];
    }
  }

  /** There is only one order. */
  lemma OrderUnique(secs: seq<Section>, segments: bool, o: seq<nat>, p: seq<nat>)
    requires IsOrder(secs, segments, o) && IsOrder(secs, segments, p) && |o| <= |p|
    ensures o == p
  {
    SameUpTo(secs, segments, o, p, |o|);
    assert forall i :: 0 <= i < |o| ==> o[i] == o[..|o|][i] == p[..|o|][i] == p[i];
    if p != [] {
      assert p[|p| - 1] in o;
      var a :| 0 <= a < |o| && o[a] == p[|p| - 1];
      OrderDistinct(secs, segments, p, a, |p| - 1);
    }
  }

  lemma Skipped(secs: seq<Section>, segments: bool, order: seq<nat>, pass: nat, n: nat)
    requires InOrder(secs, segments, order, pass, n) && n < |secs| && (Pass(secs[n], segments) != pass || n == 0)
    ensures InOrder(secs, segments, order, pass, n + 1)
  {}

  lemma Added(secs: seq<Section>, segments: bool, order: seq<nat>, pass: nat, n: nat)
    requires InOrder(secs, segments, order, pass, n) && 1 <= n < |secs| && Pass(secs[n], segments) == pass
    ensures InOrder(secs, segments, order + [n], pass, n + 1) && n !in order
  {}

  lemma NextPass(secs: seq<Section>, segments: bool, order: seq<nat>, pass: nat)
    requires InOrder(secs, segments, order, pass, |secs|)
    ensures InOrder(secs, segments, order, pass + 1, 1)
  {}

  lemma AllPasses(secs: seq<Section>, segments: bool, order: seq<nat>)
    requires InOrder(secs, segments, order, 10, |secs|)
    ensures IsOrder(secs, segments, order)
  {}

  lemma OrderSame(secs: seq<Section>, secs': seq<Section>, segments: bool, order: seq<nat>, pass: nat, n: nat)
    requires InOrder(secs, segments, order, pass, n) && |secs'| == |secs|
    requires forall i :: 0 <= i < |secs| ==> SameButPlace(secs[i], secs'[i])
    ensures InOrder(secs', segments, order, pass, n)
  {
    assert forall i :: 0 <= i < |secs| ==> Pass(secs'[i], segments) == Pass(secs[i], segments);
  }

  // ----- places -----

  /** s lies wholly before t, in memory and in the file. */
  predicate Before(s: Section, t: Section) { s.addr + s.size <= t.addr && s.offset + FileSize(s) <= t.offset }

  /** A loaded section is placed below the cursors, on its alignment, after the headers. */
  predicate Fits(s: Section, addr: nat, off: nat, hdr: nat)
  {
    s.align > 0 && s.addr % s.align == 0 && hdr <= s.offset && s.addr + s.size <= addr && s.offset + FileSize(s) <= off
  }

  predicate Placed(secs: seq<Section>, order: seq<nat>, addr: nat, off: nat, hdr: nat)
  {
    (forall a :: 0 <= a < |order| ==> order[a] < |secs| && Fits(secs[order[a]], addr, off, hdr)) &&
    (forall a, b :: 0 <= a < b < |order| ==> Before(secs[order[a]], secs[order[b]]))
  }

  /** Address and file offset differ by r modulo the page size, in every section with file contents. */
  predicate Congruent(secs: seq<Section>, order: seq<nat>, lo: nat, hi: nat, page: nat, r: int)
    requires page > 0 && forall a :: 0 <= a < |order| ==> order[a] < |secs|
  {
    forall a :: lo <= a < hi && a < |order| && !secs[order[a]].kind.Nobits? ==>
      (secs[order[a]].addr - secs[order[a]].offset) % page == r
  }

  /** Bytes of memory without bytes in the file, in the sections of the order from lo on. */
  function NobitsSize(secs: seq<Section>, order: seq<nat>, lo: nat): nat
  {
    if |order| <= lo then 0
    else
      var i := order[|order| - 1];
      NobitsSize(secs, order[..|order| - 1], lo) + if i < |secs| then secs[i].size - FileSize(secs[i]) else 0
  }

  lemma NobitsMore(secs: seq<Section>, order: seq<nat>, lo: nat, i: nat)
    requires lo <= |order| && i < |secs|
    ensures NobitsSize(secs, order + [i], lo) == NobitsSize(secs, order, lo) + secs[i].size - FileSize(secs[i])
  {
    assert (order + [i])[..|order|] == order;
  }

  lemma {:induction false} NobitsSame(secs: seq<Section>, secs': seq<Section>, order: seq<nat>, lo: nat)
    requires SameSections(secs, secs')
    ensures NobitsSize(secs', order, lo) == NobitsSize(secs, order, lo)
    decreases |order|
  {
    if |order| > lo {
      NobitsSame(secs, secs', order[..|order| - 1], lo);
      var i := order[|order| - 1];
      if i < |secs| { assert SameButPlace(secs[i], secs'[i]); }
    }
  }

  /** Where a segment starts: cursors and number of sections placed before it. */
  datatype Base = Base(count: nat, addr: nat, off: nat)

  /** The sections of the segment, from its base on. */
  predicate Within(secs: seq<Section>, order: seq<nat>, b: Base, vaddr: nat, offset: nat)
    requires forall a :: 0 <= a < |order| ==> order[a] < |secs|
  {
    forall a :: b.count <= a < |order| ==> vaddr <= secs[order[a]].addr && offset <= secs[order[a]].offset
  }

  /** The section at position k of the order is the first at or after addr, on its alignment. */
  predicate StartsAt(secs: seq<Section>, order: seq<nat>, k: nat, addr: nat)
  {
    k < |order| && order[k] < |secs| && secs[order[k]].align > 0 && secs[order[k]].addr == RoundUp(addr, secs[order[k]].align)
  }

  /** The segment under construction: unset while it has no section, else it starts at its first one. */
  predicate SegmentHolds(secs: seq<Section>, order: seq<nat>, b: Base, ph: Segment, addr: nat, off: nat)
    requires forall a :: 0 <= a < |order| ==> order[a] < |secs|
  {
    b.count <= |order| && b.addr <= addr && b.off <= off &&
    if b.count == |order| then ph.offset == 0 && ph.vaddr == 0 && addr == b.addr && off == b.off
    else ph.offset > 0 && b.addr <= ph.vaddr <= addr && b.off <= ph.offset <= off &&
         off - ph.offset <= addr - ph.vaddr && Within(secs, order, b, ph.vaddr, ph.offset) && StartsAt(secs, order, b.count, b.addr) &&
         ph.vaddr == secs[order[b.count]].addr && ph.offset == secs[order[b.count]].offset &&
         ph.vaddr - ph.offset == b.addr - b.off
  }

  /** What stays fixed while sections are placed. */
  datatype Frame = Frame(page: nat, r: int, hdr: nat, start: nat, startOff: nat)

  predicate Laid(secs: seq<Section>, order: seq<nat>, addr: nat, off: nat, b: Base, ph: Segment, f: Frame)
  {
    Placed(secs, order, addr, off, f.hdr) && f.page > 0 && 0 < f.hdr <= off && Congruent(secs, order, b.count, |order|, f.page, f.r) &&
    SegmentHolds(secs, order, b, ph, addr, off) && (ph.offset > 0 ==> (ph.vaddr - ph.offset) % f.page == f.r)
  }

  function PlaceAddr(s: Section, addr: nat): nat
    requires s.align > 0
  {
    RoundUp(addr, s.align)
  }

  function PlaceOff(s: Section, addr: nat, off: nat): nat
    requires s.align > 0
  {
    RoundUpBounds(addr, s.align);
    off + (RoundUp(addr, s.align) - addr)
  }

  lemma PlacedMore(secs: seq<Section>, order: seq<nat>, addr: nat, off: nat, hdr: nat, i: nat)
    requires Placed(secs, order, addr, off, hdr) && hdr <= off && i < |secs| && i !in order && secs[i].align > 0
    ensures PlaceAddr(secs[i], addr) >= addr && PlaceOff(secs[i], addr, off) >= off
    ensures var s := secs[i].(offset := PlaceOff(secs[i], addr, off), addr := PlaceAddr(secs[i], addr));
      Placed(secs[i := s], order + [i], s.addr + s.size, s.offset + FileSize(s), hdr)
  {
    RoundUpBounds(addr, secs[i].align);
    RoundedMultiple(addr, secs[i].align);
    hide RoundUp;
    var s := secs[i].(offset := PlaceOff(secs[i], addr, off), addr := PlaceAddr(secs[i], addr));
    var secs', order' := secs[i := s], order + [i];
    assert forall a :: 0 <= a < |order| ==> order'[a] == order[a] && order[a] in order && secs'[order[a]] == secs[order[a]];
  }

  /** One section more, at the cursors. */
  lemma OneMore(secs: seq<Section>, order: seq<nat>, addr: nat, off: nat, b: Base, ph: Segment, f: Frame, i: nat)
    requires Laid(secs, order, addr, off, b, ph, f) && i < |secs| && i !in order && secs[i].align > 0
    requires (addr - off) % f.page == f.r || (secs[i].kind.Nobits? && b.count < |order|)
    ensures var addr', off' := PlaceAddr(secs[i], addr), PlaceOff(secs[i], addr, off);
      var s := secs[i].(offset := off', addr := addr');
      var ph' := if ph.offset == 0 then ph.(offset := off', vaddr := addr') else ph;
      Laid(secs[i := s], order + [i], addr' + s.size, off' + FileSize(s), b, ph', f) &&
      ((addr - off) % f.page == f.r && !s.kind.Nobits? ==> (addr' + s.size - (off' + FileSize(s))) % f.page == f.r) &&
      addr' - off' == addr - off
  {
    PlacedMore(secs, order, addr, off, f.hdr, i);
    var addr', off' := PlaceAddr(secs[i], addr), PlaceOff(secs[i], addr, off);
    var s := secs[i].(offset := off', addr := addr');
    var secs', order' := secs[i := s], order + [i];
    assert forall a :: 0 <= a < |order| ==> order[a] < |secs| && secs'[order[a]] == secs[order[a]];
    hide Placed, RoundUp;
    var d: int := addr - off;
    assert addr' == off' + d;
  }

  /** The continue statements of the placing loop: is a section left for segment j, round k. */
  predicate Chosen(s: Section, j: nat, k: nat)
  {
    (if j == 0 then s.alloc && !s.write else s.alloc && s.write) &&
    if s.interp then k == 0
    else if s.kind.Dynsym? || s.kind.Strtab? || s.kind.HashTable? then k == 1
    else if s.kind.Relx? then k == 2
    else if s.kind.Nobits? then k == 4
    else k == 3
  }

  lemma ChosenIs(s: Section, j: nat, k: nat)
    requires j < 2 && k < 5
    ensures Chosen(s, j, k) <==> Pass(s, true) == 5 * j + k
    ensures Chosen(s, j, k) && (s.interp ==> s.kind.OtherType?) ==> (s.kind.Nobits? <==> k == 4)
  {}

  /** Alignments are positive, and the section naming the interpreter has contents. */
  predicate Sane(secs: seq<Section>)
  {
    forall i :: 0 <= i < |secs| ==> secs[i].align > 0 && (secs[i].interp ==> secs[i].kind.OtherType?)
  }

  /** Nothing but places has changed. */
  predicate SameSections(secs: seq<Section>, secs': seq<Section>)
  {
    |secs'| == |secs| && forall i :: 0 <= i < |secs| ==> SameButPlace(secs[i], secs'[i])
  }

  lemma ChosenSame(secs: seq<Section>, secs': seq<Section>, j: nat, k: nat)
    requires SameSections(secs, secs')
    ensures forall i :: 0 <= i < |secs| ==> (Chosen(secs[i], j, k) <==> Chosen(secs'[i], j, k))
  {}

  /** The cursors while sections are placed. */
  datatype Cursor = Cursor(order: seq<nat>, addr: nat, off: nat, ph: Segment)

  /** Addresses run ahead of file offsets by just the sections without contents. */
  predicate InStep(secs: seq<Section>, c: Cursor, b: Base)
  {
    c.addr - c.off == b.addr - b.off + NobitsSize(secs, c.order, b.count)
  }

  /** The section at position a of a segment from lo on is the first aligned one behind the section before it. Addresses run ahead of
      file offsets by d, and by the sections without contents before it, of which there are none before one with contents. */
  predicate Straight(secs: seq<Section>, order: seq<nat>, lo: nat, a: nat, d: int)
  {
    lo <= a < |order| && order[a] < |secs| && secs[order[a]].align > 0 &&
    secs[order[a]].addr - secs[order[a]].offset == d + NobitsSize(secs, order[..a], lo) &&
    (!secs[order[a]].kind.Nobits? ==> secs[order[a]].addr - secs[order[a]].offset == d) &&
    (a > lo ==> order[a - 1] < |secs| && secs[order[a]].addr == RoundUp(secs[order[a - 1]].addr + secs[order[a - 1]].size, secs[order[a]].align))
  }

  predicate AllStraight(secs: seq<Section>, order: seq<nat>, lo: nat, hi: nat, d: int)
  {
    forall a :: lo <= a < hi ==> Straight(secs, order, lo, a, d)
  }

  lemma {:induction false} NobitsAgree(secs: seq<Section>, secs': seq<Section>, order: seq<nat>, lo: nat)
    requires |secs'| == |secs| && forall i :: 0 <= i < |secs| && i in order ==> secs'[i] == secs[i]
    ensures NobitsSize(secs', order, lo) == NobitsSize(secs, order, lo)
    decreases |order|
  {
    if |order| > lo {
      forall i | 0 <= i < |secs| && i in order[..|order| - 1] ensures secs'[i] == secs[i] { assert i in order; }
      NobitsAgree(secs, secs', order[..|order| - 1], lo);
      assert order[|order| - 1] in order;
    }
  }

  /** The sections placed are still straight in a longer order. */
  lemma StraightKept(secs: seq<Section>, order: seq<nat>, lo: nat, a: nat, d: int, secs': seq<Section>, order': seq<nat>)
    requires Straight(secs, order, lo, a, d) && a < |order'| && order'[..a + 1] == order[..a + 1] && |secs'| == |secs|
    requires forall i :: 0 <= i < |secs| && i in order[..a + 1] ==> secs'[i] == secs[i]
    ensures Straight(secs', order', lo, a, d)
  {
    hide RoundUp, NobitsSize;
    var o := order[..a + 1];
    assert order'[a] == order'[..a + 1][a] == o[a] == order[a] && o[a] in o;
    assert order'[..a] == order'[..a + 1][..a] == o[..a] == order[..a];
    if a > lo { assert order'[a - 1] == order'[..a + 1][a - 1] == o[a - 1] == order[a - 1] && o[a - 1] in o; }
    NobitsAgree(secs, secs', order[..a], lo);
  }

  predicate EndsAt(s: Section, addr: int, off: int) { addr == s.addr + s.size && off == s.offset + FileSize(s) }

  /** The sections of the segment are straight, and the cursors are at the end of the last one. */
  predicate Steady(secs: seq<Section>, c: Cursor, b: Base)
  {
    b.count <= |c.order| && c.addr - c.off >= b.addr - b.off &&
    AllStraight(secs, c.order, b.count, |c.order|, b.addr - b.off) &&
    (b.count < |c.order| ==> c.order[|c.order| - 1] < |secs| && EndsAt(secs[c.order[|c.order| - 1]], c.addr, c.off))
  }

  /** Pass 5 * j + k, started at c0, has looked at the sections below n. */
  predicate PassHolds(secs0: seq<Section>, secs: seq<Section>, c0: Cursor, c: Cursor, b: Base, f: Frame, j: nat, k: nat, n: nat)
  {
    SameSections(secs0, secs) && InOrder(secs, true, c.order, 5 * j + k, n) && Laid(secs, c.order, c.addr, c.off, b, c.ph, f) &&
    (k != 4 || c.order == c0.order ==> (c.addr - c.off) % f.page == f.r && c.addr - c.off == b.addr - b.off) && Steady(secs, c, b) &&
    (c.order == c0.order ==> c == c0) && b.count <= |c0.order| && c0.order <= c.order && InStep(secs, c, b) &&
    forall a :: |c0.order| <= a < |c.order| ==> c.order[a] < |secs| && Chosen(secs[c.order[a]], j, k)
  }

  /** The cursor after placing s as section i. */
  function Advance(c: Cursor, i: nat, s: Section): Cursor
    requires s.align > 0
  {
    var addr, off := PlaceAddr(s, c.addr), PlaceOff(s, c.addr, c.off);
    Cursor(c.order + [i], addr + s.size, off + FileSize(s), if c.ph.offset == 0 then c.ph.(offset := off, vaddr := addr) else c.ph)
  }

  function PlaceAt(c: Cursor, s: Section): Section
    requires s.align > 0
  {
    s.(offset := PlaceOff(s, c.addr, c.off), addr := PlaceAddr(s, c.addr))
  }

  lemma InStepMore(secs: seq<Section>, c: Cursor, b: Base, n: nat)
    requires InStep(secs, c, b) && b.count <= |c.order| && n < |secs| && secs[n].align > 0
    ensures InStep(secs[n := PlaceAt(c, secs[n])], Advance(c, n, secs[n]), b)
  {
    hide RoundUp;
    var secs' := secs[n := PlaceAt(c, secs[n])];
    NobitsMore(secs, c.order, b.count, n);
    NobitsSame(secs, secs', c.order + [n], b.count);
  }

  lemma SteadyMore(secs: seq<Section>, c: Cursor, b: Base, n: nat)
    requires Steady(secs, c, b) && InStep(secs, c, b) && n < |secs| && n !in c.order && secs[n].align > 0
    requires secs[n].kind.Nobits? || c.addr - c.off == b.addr - b.off
    ensures var c' := Advance(c, n, secs[n]);
      Steady(secs[n := PlaceAt(c, secs[n])], c', b) && (!secs[n].kind.Nobits? ==> c'.addr - c'.off == c.addr - c.off)
  {
    hide RoundUp, NobitsSize;
    RoundUpBounds(c.addr, secs[n].align);
    var secs', c', lo, d := secs[n := PlaceAt(c, secs[n])], Advance(c, n, secs[n]), b.count, b.addr - b.off;
    var order' := c'.order;
    assert order'[..|c.order|] == c.order;
    NobitsAgree(secs, secs', c.order, lo);
    forall a | lo <= a < |order'| ensures Straight(secs', order', lo, a, d) {
      if a < |c.order| {
        assert order'[..a + 1] == c.order[..a + 1];
        StraightKept(secs, c.order, lo, a, d, secs', order');
      } else if a > lo {
        assert order'[a - 1] == c.order[a - 1] && c.order[a - 1] in c.order;
      }
    }
  }

  lemma PassAdds(secs0: seq<Section>, secs: seq<Section>, c0: Cursor, c: Cursor, b: Base, f: Frame, j: nat, k: nat, n: nat)
    requires PassHolds(secs0, secs, c0, c, b, f, j, k, n) && j < 2 && k < 5 && Sane(secs0)
    requires 1 <= n < |secs| && Chosen(secs[n], j, k)
    ensures secs[n].align > 0 && n !in c0.order
    ensures PassHolds(secs0, secs[n := PlaceAt(c, secs[n])], c0, Advance(c, n, secs[n]), b, f, j, k, n + 1)
  {
    hide InOrder, Laid, Chosen, Pass, RoundUp, PlaceAddr, PlaceOff, InStep, Steady;
    assert SameButPlace(secs0[n], secs[n]);
    var secs', c' := secs[n := PlaceAt(c, secs[n])], Advance(c, n, secs[n]);
    ChosenIs(secs[n], j, k);
    Added(secs, true, c.order, 5 * j + k, n);
    assert k == 4 && c.order != c0.order ==> b.count < |c.order|;
    OneMore(secs, c.order, c.addr, c.off, b, c.ph, f, n);
    OrderSame(secs, secs', true, c'.order, 5 * j + k, n + 1);
    ChosenSame(secs, secs', j, k);
    InStepMore(secs, c, b, n);
    SteadyMore(secs, c, b, n);
    assert |c'.order| == |c.order| + 1 && SameSections(secs0, secs');
  }

  lemma PassSkips(secs0: seq<Section>, secs: seq<Section>, c0: Cursor, c: Cursor, b: Base, f: Frame, j: nat, k: nat, n: nat)
    requires PassHolds(secs0, secs, c0, c, b, f, j, k, n) && j < 2 && k < 5 && 1 <= n < |secs| && !Chosen(secs[n], j, k)
    ensures PassHolds(secs0, secs, c0, c, b, f, j, k, n + 1)
  {
    hide Laid, Chosen, InOrder;
    ChosenIs(secs[n], j, k);
    Skipped(secs, true, c.order, 5 * j + k, n);
  }

  /** Pass 5 * j + k: every section chosen for it, in order of number. */
  method PlacePass(sections: array<Section>, j: nat, k: nat, c0: Cursor, ghost secs0: seq<Section>, ghost b: Base, ghost f: Frame)
    returns (c: Cursor)
    requires j < 2 && k < 5 && Sane(secs0) && sections.Length > 0 && f.page > 0
    requires PassHolds(secs0, sections[..], c0, c0, b, f, j, k, 1)
    modifies sections
    ensures PassHolds(secs0, sections[..], c0, c, b, f, j, k, sections.Length) && c0.order <= c.order
    ensures forall i :: 0 <= i < sections.Length && i in c0.order ==> sections[i] == old(sections[i])
  {
    hide PassHolds, Chosen;
    var order: seq<nat> := c0.order;
    var addr: nat, off: nat, ph := c0.addr, c0.off, c0.ph;
    var i := 1;
    while i < sections.Length
      invariant 1 <= i <= sections.Length
      invariant PassHolds(secs0, sections[..], c0, Cursor(order, addr, off, ph), b, f, j, k, i) && c0.order <= order
      invariant forall m :: 0 <= m < sections.Length && m in c0.order ==> sections[m] == old(sections[m])
    {
      ghost var secs := sections[..];
      if Chosen(sections[i], j, k) {
        PassAdds(secs0, secs, c0, Cursor(order, addr, off, ph), b, f, j, k, i);
        order := order + [i];
        var tmp := addr;
        RoundUpBounds(addr, sections[i].align);
        addr := RoundUp(addr, sections[i].align);
        off := off + (addr - tmp);
        sections[i] := sections[i].(offset := off, addr := addr);
        if ph.offset == 0 { ph := ph.(offset := off, vaddr := addr); }
        addr := addr + sections[i].size;
        if !sections[i].kind.Nobits? { off := off + sections[i].size; }
        assert sections[..] == secs[i := sections[i]];
      } else {
        PassSkips(secs0, secs, c0, Cursor(order, addr, off, ph), b, f, j, k, i);
      }
      i := i + 1;
    }
    c := Cursor(order, addr, off, ph);
  }

  const UNSET := Segment(0, 0, 0, 0)

  /** Sections of segment j, and no others, from position lo on. */
  predicate OfSegment(secs: seq<Section>, order: seq<nat>, lo: nat, j: nat)
  {
    forall a :: lo <= a < |order| ==> order[a] < |secs| && secs[order[a]].alloc && secs[order[a]].write == (j == 1)
  }

  /** Segment j after its first k passes. */
  predicate SegmentSoFar(secs0: seq<Section>, secs: seq<Section>, c: Cursor, b: Base, f: Frame, j: nat, k: nat)
  {
    SameSections(secs0, secs) && InOrder(secs, true, c.order, 5 * j + k, 1) && Laid(secs, c.order, c.addr, c.off, b, c.ph, f) &&
    (k <= 4 ==> (c.addr - c.off) % f.page == f.r && c.addr - c.off == b.addr - b.off) && b.count <= |c.order| &&
    OfSegment(secs, c.order, b.count, j) && InStep(secs, c, b) && Steady(secs, c, b)
  }

  lemma PassBegins(secs0: seq<Section>, secs: seq<Section>, c: Cursor, b: Base, f: Frame, j: nat, k: nat)
    requires SegmentSoFar(secs0, secs, c, b, f, j, k) && k < 5
    ensures PassHolds(secs0, secs, c, c, b, f, j, k, 1)
  {
    hide InOrder, Laid;
  }

  lemma PassEnds(secs0: seq<Section>, before: seq<Section>, secs: seq<Section>, c0: Cursor, c: Cursor, b: Base, f: Frame, j: nat, k: nat)
    requires SegmentSoFar(secs0, before, c0, b, f, j, k) && PassHolds(secs0, secs, c0, c, b, f, j, k, |secs|)
    requires j < 2 && k < 5 && Sane(secs0)
    ensures SegmentSoFar(secs0, secs, c, b, f, j, k + 1)
  {
    hide InOrder, Laid;
    NextPass(secs, true, c.order, 5 * j + k);
    assert forall i :: 0 <= i < |secs| ==> SameButPlace(secs0[i], before[i]) && SameButPlace(secs0[i], secs[i]);
    assert |c.order| > |c0.order| ==> c.order[|c0.order|] < |secs| && Chosen(secs[c.order[|c0.order|]], j, k);
    if |c.order| == |c0.order| { assert c.order == c0.order; }
  }

  /** One turn of the outer loop of layout_sections: five passes. */
  method PlaceSegment(sections: array<Section>, j: nat, c0: Cursor, ghost secs0: seq<Section>, ghost f: Frame) returns (c: Cursor)
    requires j < 2 && Sane(secs0) && sections.Length > 0 && f.page > 0 && c0.ph == UNSET
    requires SegmentSoFar(secs0, sections[..], c0, Base(|c0.order|, c0.addr, c0.off), f, j, 0)
    modifies sections
    ensures SegmentSoFar(secs0, sections[..], c, Base(|c0.order|, c0.addr, c0.off), f, j, 5) && c0.order <= c.order
    ensures forall i :: 0 <= i < sections.Length && i in c0.order ==> sections[i] == old(sections[i])
  {
    hide PassHolds, SegmentSoFar, Sane;
    ghost var b := Base(|c0.order|, c0.addr, c0.off);
    c := c0;
    for k := 0 to 5
      invariant SegmentSoFar(secs0, sections[..], c, b, f, j, k) && c0.order <= c.order
      invariant forall i :: 0 <= i < sections.Length && i in c0.order ==> sections[i] == old(sections[i])
    {
      ghost var before, c1 := sections[..], c;
      PassBegins(secs0, before, c, b, f, j, k);
      c := PlacePass(sections, j, k, c, secs0, b, f);
      PassEnds(secs0, before, sections[..], c1, c, b, f, j, k);
    }
  }

  // ----- the whole layout -----

  /** What the file offers and where it is to be loaded. */
  datatype Request = Request(segments: bool, hdr: nat, page: nat, textAddr: Option<nat>, startAddr: nat)

  predicate ValidRequest(q: Request) { q.hdr > 0 && q.page > 0 }

  /** Address and file offset start out equal modulo the page size. */
  predicate PageAlignedStart(q: Request)
    requires q.page > 0
  {
    q.textAddr.Some? || q.startAddr % q.page == 0
  }

  /** Where the user wants the program, or behind the headers in memory. */
  function FirstAddr(q: Request): nat
    requires q.page > 0
  {
    if q.textAddr.Some? then q.textAddr.value else q.startAddr + q.hdr % q.page
  }

  /** Behind the headers, and at the place in its page that a wanted address has. */
  function FirstOff(q: Request): nat
    requires q.page > 0
  {
    if q.textAddr.None? then q.hdr
    else
      var a, p := q.textAddr.value % q.page, q.hdr % q.page;
      q.hdr + (if a < p then a + q.page - p else a - p)
  }

  /** The first address and file offset. */
  method StartCursor(q: Request) returns (addr: nat, off: nat, ghost r: int)
    requires ValidRequest(q)
    ensures off >= q.hdr && Ahead(addr, off, q.page) == r && (r == 0 <==> PageAlignedStart(q))
    ensures addr == FirstAddr(q) && off == FirstOff(q)
  {
    off := q.hdr;
    if q.textAddr.Some? {
      addr := q.textAddr.value;
      var aOffset, pOffset := addr % q.page, off % q.page;
      if aOffset < pOffset { aOffset := aOffset + q.page; }
      off := off + (aOffset - pOffset);
      TextStart(addr, q.hdr, q.page, off);
    } else {
      addr := q.startAddr + off % q.page;
      DefaultStart(q.startAddr, off, q.page);
    }
    r := (addr - off) % q.page;
  }

  lemma TextStart(addr: nat, hdr: nat, page: nat, off: nat)
    requires page > 0
    requires off == hdr + (if addr % page < hdr % page then addr % page + page else addr % page) - hdr % page
    ensures (addr - off) % page == 0
  {
    var k := addr / page - hdr / page - (if addr % page < hdr % page then 1 else 0);
    assert addr == addr / page * page + addr % page && hdr == hdr / page * page + hdr % page;
    assert addr - off == k * page by {
      assert (addr / page - hdr / page) * page == addr / page * page - hdr / page * page;
      assert (addr / page - hdr / page - 1) * page == (addr / page - hdr / page) * page - page;
    }
    DivModUnique(addr - off, page, k, 0);
  }

  lemma DefaultStart(start: nat, off: nat, page: nat)
    requires page > 0
    ensures (start + off % page - off) % page == 0 <==> start % page == 0
  {
    assert off == off / page * page + off % page;
    assert start + off % page - off == start + (-(off / page)) * page;
    ModAddMultiple(start, -(off / page), page);
  }

  /** The first segment is extended down to its page, so as to take in the headers. */
  function PageStart(x: nat, page: nat): nat
    requires page > 0
  {
    x - x % page
  }

  lemma PageStartFacts(x: nat, page: nat)
    requires page > 0
    ensures PageStart(x, page) <= x < PageStart(x, page) + page && PageStart(x, page) == x / page * page
  {}

  lemma SameRemainder(a: nat, b: nat, page: nat)
    requires page > 0 && (a - b) % page == 0
    ensures a % page == b % page
  {
    var k := (a - b) / page;
    assert a == b + k * page;
    ModAddMultiple(b, k, page);
  }

  lemma SameRemainderExactly(a: int, b: int, page: nat)
    requires page > 0
    ensures (a - b) % page == 0 <==> a % page == b % page
  {
    assert a == a / page * page + a % page && b == b / page * page + b % page;
    if (a - b) % page == 0 {
      ModAddMultiple(b, (a - b) / page, page);
    } else if a % page == b % page {
      assert a - b == (a / page - b / page) * page;
      DivModUnique(a - b, page, a / page - b / page, 0);
    }
  }

  /** A finished segment holds its sections, in memory and in the file. */
  predicate Holds(ph: Segment, s: Section)
  {
    ph.vaddr <= s.addr && s.addr + s.size <= ph.vaddr + ph.memsz &&
    ph.offset <= s.offset && s.offset + FileSize(s) <= ph.offset + ph.filesz
  }

  predicate HoldsAll(secs: seq<Section>, order: seq<nat>, lo: nat, hi: nat, ph: Segment)
  {
    lo <= hi <= |order| && forall a :: lo <= a < hi ==> order[a] < |secs| && Holds(ph, secs[order[a]])
  }

  /** The segment ends with its last section, in memory and in the file, and its sections follow each other without needless gaps. */
  predicate Filled(secs: seq<Section>, order: seq<nat>, lo: nat, hi: nat, ph: Segment, d: int)
  {
    lo < hi <= |order| && AllStraight(secs, order, lo, hi, d) && order[hi - 1] < |secs| &&
    EndsAt(secs[order[hi - 1]], ph.vaddr + ph.memsz, ph.offset + ph.filesz)
  }

  /** Nothing below addr is on the page of vaddr. */
  predicate PageAfter(addr: nat, vaddr: nat, page: nat)
    requires page > 0
  {
    addr <= vaddr / page * page
  }

  predicate OnPage(vaddr: nat, offset: nat, page: nat)
    requires page > 0
  {
    vaddr % page == 0 == offset % page
  }

  /** Address minus offset, modulo the page. */
  function Ahead(addr: nat, off: nat, page: nat): int
    requires page > 0
  {
    (addr - off) % page
  }

  /** Where the second segment may start: the page is duplicated when the first one ends in the middle of it. */
  function NextStart(addr: nat, page: nat): (next: nat)
    requires page > 0
    ensures addr <= next
  {
    if addr % page != 0 then addr + page else addr
  }

  /** The two segments of a finished layout; one without sections is left unset, and so starts at zero. */
  predicate SegmentsHold(secs: seq<Section>, order: seq<nat>, mid: nat, addr: nat, off: nat, ph0: Segment, ph1: Segment, f: Frame)
    requires f.page > 0
  {
    mid <= |order| && OnPage(ph0.vaddr, ph0.offset, f.page) && ph1.offset + ph1.filesz == off && ph1.vaddr + ph1.memsz == addr &&
    (if mid > 0 then
       HoldsAll(secs, order, 0, mid, ph0) && FirstHolds(secs, order, mid, ph0, f) && Filled(secs, order, 0, mid, ph0, f.start - f.startOff)
     else ph0 == Segment(0, 0, f.startOff, f.start)) &&
    if mid < |order| then
      HoldsAll(secs, order, mid, |order|, ph1) && SecondHolds(secs, order, mid, ph1) &&
      Filled(secs, order, mid, |order|, ph1, ph1.vaddr - ph1.offset) && Follows(secs, order, mid, ph0, ph1, f.page) &&
      Ahead(ph1.vaddr, ph1.offset, f.page) == LaterRemainder(secs, order, mid, f) &&
      PageAfter(ph0.vaddr + ph0.memsz, ph1.vaddr, f.page)
    else ph1 == Segment(0, 0, off, addr) && ph0.vaddr + ph0.memsz <= addr
  }

  /** The first section is where the program was wanted, the segment starts on its page, and keeps the distance exactly when the start
      suits its offset; its file size is at most its memory size exactly
      when the part of the page before the section is no larger in the file, read-only sections without contents helping. */
  predicate FirstHolds(secs: seq<Section>, order: seq<nat>, mid: nat, ph: Segment, f: Frame)
    requires f.page > 0 && mid <= |order|
  {
    StartsAt(secs, order, 0, f.start) && secs[order[0]].addr - secs[order[0]].offset == f.start - f.startOff &&
    ph.vaddr <= secs[order[0]].addr < ph.vaddr + f.page && ph.offset <= secs[order[0]].offset < ph.offset + f.page &&
    (ph.vaddr - ph.offset == f.start - f.startOff <==> Ahead(f.start, f.startOff, f.page) == 0) &&
    (ph.filesz <= ph.memsz <==> FileFits(secs[order[0]], NobitsSize(secs, order[..mid], 0), f))
  }

  /** The condition, from the alignment of the first section and the place wanted for it. */
  predicate FileFits(first: Section, nobits: nat, f: Frame)
    requires f.page > 0 && first.align > 0
  {
    PlaceOff(first, f.start, f.startOff) % f.page <= PlaceAddr(first, f.start) % f.page + nobits
  }

  /** The second segment starts with its first section. */
  predicate SecondHolds(secs: seq<Section>, order: seq<nat>, mid: nat, ph: Segment)
  {
    ph.filesz <= ph.memsz && mid < |order| && order[mid] < |secs| &&
    ph.vaddr == secs[order[mid]].addr && ph.offset == secs[order[mid]].offset
  }

  /** In memory it follows on the next page if the first ends within one, in the file directly, each on the alignment of its section. */
  predicate Follows(secs: seq<Section>, order: seq<nat>, mid: nat, ph0: Segment, ph1: Segment, page: nat)
    requires page > 0
  {
    var next := NextStart(ph0.vaddr + ph0.memsz, page);
    StartsAt(secs, order, mid, next) && ph1.vaddr - ph1.offset == next - (ph0.offset + ph0.filesz)
  }

  /** By what addresses and offsets of the second segment differ: read-only sections without contents have been added. */
  function LaterRemainder(secs: seq<Section>, order: seq<nat>, mid: nat, f: Frame): int
    requires f.page > 0 && mid <= |order|
  {
    (f.r + NobitsSize(secs, order[..mid], 0)) % f.page
  }

  lemma FirstSegment(secs0: seq<Section>, secs: seq<Section>, c: Cursor, start: Cursor, f: Frame)
    requires SegmentSoFar(secs0, secs, c, Base(0, start.addr, start.off), f, 0, 5) && f.page > 0 && f.start == start.addr && f.startOff == start.off
    ensures PageStart(c.ph.offset, f.page) <= c.off && PageStart(c.ph.vaddr, f.page) <= c.addr
    ensures c.order == [] ==>
      PageStart(c.ph.offset, f.page) == 0 && PageStart(c.ph.vaddr, f.page) == 0 && c.addr == f.start && c.off == f.startOff
    ensures var o, v := PageStart(c.ph.offset, f.page), PageStart(c.ph.vaddr, f.page);
      OnPage(v, o, f.page) &&
      (c.order != [] ==>
        var ph := Segment(o, v, c.off - o, c.addr - v);
        HoldsAll(secs, c.order, 0, |c.order|, ph) && FirstHolds(secs, c.order, |c.order|, ph, f))
  {
    hide InOrder, Congruent, OfSegment, SameSections, RoundUp;
    PageStartFacts(c.ph.offset, f.page);
    PageStartFacts(c.ph.vaddr, f.page);
    DivModUnique(PageStart(c.ph.offset, f.page), f.page, c.ph.offset / f.page, 0);
    DivModUnique(PageStart(c.ph.vaddr, f.page), f.page, c.ph.vaddr / f.page, 0);
    assert c.order[..|c.order|] == c.order;
    if c.order != [] { SameRemainderExactly(c.ph.vaddr, c.ph.offset, f.page); }
  }

  lemma SegmentFilled(secs0: seq<Section>, secs: seq<Section>, c: Cursor, b: Base, f: Frame, j: nat, ph: Segment)
    requires SegmentSoFar(secs0, secs, c, b, f, j, 5) && |c.order| > b.count
    requires ph.offset + ph.filesz == c.off && ph.vaddr + ph.memsz == c.addr
    ensures Filled(secs, c.order, b.count, |c.order|, ph, b.addr - b.off)
    ensures c.ph.vaddr - c.ph.offset == b.addr - b.off
  {
    hide InOrder, Congruent, OfSegment, SameSections, InStep, Straight, Placed, Within, StartsAt;
  }

  /** Every start on the page that suits its offset fits. */
  lemma AlignedFits(first: Section, nobits: nat, f: Frame)
    requires f.page > 0 && first.align > 0 && Ahead(f.start, f.startOff, f.page) == 0
    ensures FileFits(first, nobits, f)
  {
    SameRemainder(PlaceAddr(first, f.start), PlaceOff(first, f.start, f.startOff), f.page);
  }

  lemma SecondSegment(secs0: seq<Section>, secs: seq<Section>, c: Cursor, b: Base, f: Frame)
    requires SegmentSoFar(secs0, secs, c, b, f, 1, 5) && |c.order| > b.count && f.page > 0
    ensures c.ph.offset <= c.off && b.addr <= c.ph.vaddr <= c.addr && Ahead(c.ph.vaddr, c.ph.offset, f.page) == f.r
    ensures var ph := c.ph.(filesz := c.off - c.ph.offset, memsz := c.addr - c.ph.vaddr);
      HoldsAll(secs, c.order, b.count, |c.order|, ph) && SecondHolds(secs, c.order, b.count, ph)
    ensures StartsAt(secs, c.order, b.count, b.addr)
  {
    hide InOrder, Congruent, OfSegment, SameSections, InStep;
  }

  /** The gap left between the segments puts them on different pages and keeps the offsets in step. */
  lemma NextPage(addr: nat, off: nat, next: nat, vaddr: nat, page: nat)
    requires page > 0 && next == NextStart(addr, page) && next <= vaddr
    ensures PageAfter(addr, vaddr, page) && Ahead(next, off, page) == Ahead(addr, off, page)
  {
    assert addr == addr / page * page + addr % page;
    var q := addr / page + (if addr % page != 0 then 1 else 0);
    if addr % page != 0 { ModAddMultiple(addr, 1, page); assert (addr / page + 1) * page == addr / page * page + page; }
    assert next / page == q;
    FloorMono(next, vaddr, page);
    assert addr <= q * page;
    MulMono(q, vaddr / page, page);
    ModAddMultiple(addr - off, 1, page);
  }

  lemma FloorMono(a: nat, b: nat, page: nat)
    requires page > 0 && a <= b
    ensures a / page <= b / page
  {
    if a / page > b / page { MulMono(b / page + 1, a / page, page); }
  }

  lemma SegmentStarts(secs0: seq<Section>, addr: nat, off: nat, f: Frame)
    requires f.page > 0 && 0 < f.hdr <= off && Ahead(addr, off, f.page) == f.r
    ensures SegmentSoFar(secs0, secs0, Cursor([], addr, off, UNSET), Base(0, addr, off), f, 0, 0)
  {}

  lemma SegmentFollows(secs0: seq<Section>, secs: seq<Section>, c: Cursor, b: Base, f: Frame, next: nat, r: int)
    requires SegmentSoFar(secs0, secs, c, b, f, 0, 5) && f.page > 0 && c.addr <= next && Ahead(next, c.off, f.page) == r
    ensures SegmentSoFar(secs0, secs, Cursor(c.order, next, c.off, UNSET), Base(|c.order|, next, c.off), f.(r := r), 1, 0)
  {
    hide InOrder, SameSections;
  }

  /** The remainder kept by the first segment, and the one it leaves to the second. */
  lemma RemainderAfter(secs0: seq<Section>, secs: seq<Section>, c: Cursor, addr: nat, off: nat, f: Frame)
    requires SegmentSoFar(secs0, secs, c, Base(0, addr, off), f, 0, 5) && f.page > 0 && Ahead(addr, off, f.page) == f.r
    ensures Ahead(c.addr, c.off, f.page) == LaterRemainder(secs, c.order, |c.order|, f)
  {
    hide SegmentSoFar, NobitsSize;
    StillInStep(secs0, secs, c, Base(0, addr, off), f);
    assert c.order[..|c.order|] == c.order;
    ModOfSum(addr - off, NobitsSize(secs, c.order, 0), f.page);
  }

  lemma StillInStep(secs0: seq<Section>, secs: seq<Section>, c: Cursor, b: Base, f: Frame)
    requires SegmentSoFar(secs0, secs, c, b, f, 0, 5)
    ensures c.addr - c.off == b.addr - b.off + NobitsSize(secs, c.order, b.count)
  {
    hide Laid, InOrder, SameSections, OfSegment;
  }

  lemma ModOfSum(a: int, t: nat, page: nat)
    requires page > 0
    ensures (a + t) % page == (a % page + t) % page
  {
    assert a == a / page * page + a % page;
    assert a + t == a % page + t + a / page * page;
    ModAddMultiple(a % page + t, a / page, page);
  }

  /** What is known of the loaded sections and of the two segments. */
  predicate LoadedHold(secs: seq<Section>, order: seq<nat>, mid: nat, addr: nat, off: nat, ph0: Segment, ph1: Segment, f: Frame)
  {
    f.page > 0 && Placed(secs, order, addr, off, f.hdr) && mid <= |order| &&
    Congruent(secs, order, 0, mid, f.page, f.r) && Congruent(secs, order, mid, |order|, f.page, LaterRemainder(secs, order, mid, f)) &&
    (forall a :: 0 <= a < |order| ==> (a < mid <==> !secs[order[a]].write)) &&
    SegmentsHold(secs, order, mid, addr, off, ph0, ph1, f)
  }

  /** The part of layout_sections for sections loaded in memory. */
  method PlaceLoaded(sections: array<Section>, q: Request)
    returns (order: seq<nat>, off: nat, ph0: Segment, ph1: Segment, ghost mid: nat, ghost end: nat, ghost f: Frame)
    requires ValidRequest(q) && sections.Length > 0 && Sane(sections[..])
    modifies sections
    ensures SameSections(old(sections[..]), sections[..]) && InOrder(sections[..], true, order, 10, 1)
    ensures f.page == q.page && f.hdr == q.hdr && f.start == FirstAddr(q) && f.startOff == FirstOff(q) && (f.r == 0 <==> PageAlignedStart(q))
    ensures LoadedHold(sections[..], order, mid, end, off, ph0, ph1, f) && off >= q.hdr
  {
    hide SegmentSoFar, Sane, HoldsAll, PageStart, PageAlignedStart, LaterRemainder, LoadedHold, InOrder, SameSections,
         PageAfter, OnPage, Ahead, NextStart, FirstHolds, SecondHolds, Filled, StartsAt;
    ghost var secs0 := sections[..];
    var addr, off0; ghost var r;
    addr, off0, r := StartCursor(q);
    f := Frame(q.page, r, q.hdr, addr, off0);
    var c0 := Cursor([], addr, off0, UNSET);
    SegmentStarts(secs0, addr, off0, f);
    var c := PlaceSegment(sections, 0, c0, secs0, f);
    ghost var secs1 := sections[..];
    mid := |c.order|;
    FirstSegment(secs0, secs1, c, c0, f);
    RemainderAfter(secs0, secs1, c, addr, off0, f);
    UnsetStart(secs0, secs1, c, Base(0, addr, off0), f, 0);
    var o, v := PageStart(c.ph.offset, q.page), PageStart(c.ph.vaddr, q.page);
    ph0 := Segment(o, v, c.off - o, c.addr - v);
    if mid > 0 { SegmentFilled(secs0, secs1, c, Base(0, addr, off0), f, 0, ph0); }
    var next := NextStart(c.addr, q.page);
    NextPage(c.addr, c.off, next, next, q.page);
    ghost var r1 := Ahead(c.addr, c.off, q.page);
    SegmentFollows(secs0, secs1, c, Base(0, addr, off0), f, next, r1);
    ghost var f1, b1 := f.(r := r1), Base(mid, next, c.off);
    var c2 := PlaceSegment(sections, 1, Cursor(c.order, next, c.off, UNSET), secs0, f1);
    UnsetStart(secs0, sections[..], c2, b1, f1, 1);
    ph1 := c2.ph.(filesz := c2.off - c2.ph.offset, memsz := c2.addr - c2.ph.vaddr);
    if |c2.order| > mid {
      SecondSegment(secs0, sections[..], c2, b1, f1);
      SegmentFilled(secs0, sections[..], c2, b1, f1, 1, ph1);
      NextPage(c.addr, c.off, next, ph1.vaddr, q.page);
    }
    order, off, end := c2.order, c2.off, c2.addr;
    BothHold(secs0, secs1, c, Base(0, addr, off0), f, sections[..], c2, b1, f1, ph0, ph1);
  }

  /** The start of a segment that has sections is among them; an unset one starts at zero. */
  lemma UnsetStart(secs0: seq<Section>, secs: seq<Section>, c: Cursor, b: Base, f: Frame, j: nat)
    requires SegmentSoFar(secs0, secs, c, b, f, j, 5) && f.page > 0
    ensures |c.order| >= b.count && c.ph.offset <= c.off && f.hdr <= c.off && b.addr <= c.addr
    ensures if |c.order| > b.count then c.ph.vaddr <= c.addr else c.ph.vaddr == c.ph.offset == 0
  {
    hide InOrder, Placed, Congruent, OfSegment, SameSections, InStep;
  }

  /** The first segment as placed is untouched by the second, and both are as promised. */
  lemma BothHold(secs0: seq<Section>, secs1: seq<Section>, c: Cursor, b0: Base, f: Frame, secs: seq<Section>, c2: Cursor, b1: Base, f1: Frame,
                 ph0: Segment, ph1: Segment)
    requires SegmentSoFar(secs0, secs1, c, b0, f, 0, 5) && SegmentSoFar(secs0, secs, c2, b1, f1, 1, 5) && f.page > 0 && b0.count == 0
    requires c.order <= c2.order && b1.count == |c.order| && forall i :: 0 <= i < |secs| && i in c.order ==> secs[i] == secs1[i]
    requires f1 == f.(r := LaterRemainder(secs1, c.order, |c.order|, f))
    requires OnPage(ph0.vaddr, ph0.offset, f.page)
    requires if c.order != [] then
               HoldsAll(secs1, c.order, 0, |c.order|, ph0) && FirstHolds(secs1, c.order, |c.order|, ph0, f) &&
               Filled(secs1, c.order, 0, |c.order|, ph0, f.start - f.startOff)
             else ph0 == Segment(0, 0, f.startOff, f.start)
    requires ph1.offset + ph1.filesz == c2.off && ph1.vaddr + ph1.memsz == c2.addr
    requires if |c2.order| > |c.order| then
               HoldsAll(secs, c2.order, |c.order|, |c2.order|, ph1) && SecondHolds(secs, c2.order, |c.order|, ph1) &&
               Filled(secs, c2.order, |c.order|, |c2.order|, ph1, ph1.vaddr - ph1.offset) &&
               Follows(secs, c2.order, |c.order|, ph0, ph1, f.page) && Ahead(ph1.vaddr, ph1.offset, f.page) == f1.r &&
               PageAfter(ph0.vaddr + ph0.memsz, ph1.vaddr, f.page)
             else ph1 == Segment(0, 0, c2.off, c2.addr) && ph0.vaddr + ph0.memsz <= c2.addr
    ensures SameSections(secs0, secs) && InOrder(secs, true, c2.order, 10, 1)
    ensures LoadedHold(secs, c2.order, |c.order|, c2.addr, c2.off, ph0, ph1, f)
  {
    hide InOrder, Placed, InStep, Steady, HoldsAll, SegmentHolds, FirstHolds, SecondHolds, NobitsSize, Filled;
    var mid := |c.order|;
    assert c2.order[..mid] == c.order;
    LaterSame(secs0, secs1, c.order, secs, c2.order, f);
    FirstKept(secs1, c.order, secs, c2.order, f);
    if mid > 0 {
      HoldsKept(secs1, c.order, 0, mid, secs, c2.order, ph0);
      FilledKept(secs1, c.order, 0, mid, secs, c2.order, ph0, f.start - f.startOff);
      FirstHoldsKept(secs0, secs1, c.order, secs, c2.order, ph0, f);
    }
  }

  lemma FirstHoldsKept(secs0: seq<Section>, secs1: seq<Section>, order: seq<nat>, secs: seq<Section>, order': seq<nat>, ph: Segment, f: Frame)
    requires SameSections(secs0, secs1) && SameSections(secs0, secs) && f.page > 0 && order <= order' && order != []
    requires forall i :: 0 <= i < |secs| && i in order ==> secs[i] == secs1[i]
    requires FirstHolds(secs1, order, |order|, ph, f)
    ensures FirstHolds(secs, order', |order|, ph, f)
  {
    hide NobitsSize, RoundUp;
    assert order'[..|order|] == order == order[..|order|] && order'[0] == order[0] && order[0] in order;
    NobitsSame(secs0, secs1, order, 0);
    NobitsSame(secs0, secs, order, 0);
  }

  lemma LaterSame(secs0: seq<Section>, secs1: seq<Section>, order: seq<nat>, secs: seq<Section>, order': seq<nat>, f: Frame)
    requires SameSections(secs0, secs1) && SameSections(secs0, secs) && f.page > 0 && order <= order'
    ensures LaterRemainder(secs, order', |order|, f) == LaterRemainder(secs1, order, |order|, f)
  {
    assert order'[..|order|] == order == order[..|order|];
    NobitsSame(secs0, secs1, order, 0);
    NobitsSame(secs0, secs, order, 0);
  }

  lemma FirstKept(secs1: seq<Section>, order: seq<nat>, secs: seq<Section>, order': seq<nat>, f: Frame)
    requires f.page > 0 && |secs| == |secs1| && order <= order' && forall i :: 0 <= i < |secs| && i in order ==> secs[i] == secs1[i]
    requires forall a :: 0 <= a < |order'| ==> order'[a] < |secs|
    requires forall a :: 0 <= a < |order| ==> order[a] < |secs1|
    requires Congruent(secs1, order, 0, |order|, f.page, f.r) && OfSegment(secs1, order, 0, 0)
    ensures Congruent(secs, order', 0, |order|, f.page, f.r) && forall a :: 0 <= a < |order| ==> !secs[order'[a]].write
  {
    assert forall a :: 0 <= a < |order| ==> order'[a] == order[a] && order[a] in order;
  }

  lemma HoldsKept(secs: seq<Section>, order: seq<nat>, lo: nat, hi: nat, secs': seq<Section>, order': seq<nat>, ph: Segment)
    requires HoldsAll(secs, order, lo, hi, ph) && order <= order' && |secs'| == |secs|
    requires forall i :: 0 <= i < |secs| && i in order ==> secs'[i] == secs[i]
    ensures HoldsAll(secs', order', lo, hi, ph)
  {
    forall a | lo <= a < hi ensures order'[a] < |secs'| && Holds(ph, secs'[order'[a]]) { assert order'[a] == order[a]; }
  }

  lemma FilledKept(secs: seq<Section>, order: seq<nat>, lo: nat, hi: nat, secs': seq<Section>, order': seq<nat>, ph: Segment, d: int)
    requires Filled(secs, order, lo, hi, ph, d) && order <= order' && |secs'| == |secs|
    requires forall i :: 0 <= i < |secs| && i in order ==> secs'[i] == secs[i]
    ensures Filled(secs', order', lo, hi, ph, d)
  {
    hide Straight;
    forall a | lo <= a < hi ensures Straight(secs', order', lo, a, d) {
      assert order'[..a + 1] == order[..a + 1];
      StraightKept(secs, order, lo, a, d, secs', order');
    }
    assert order'[hi - 1] == order[hi - 1] && order[hi - 1] in order;
  }

  /** File offsets: every section after the headers and the sections before it, the unloaded ones at the first aligned place. */
  predicate FileHolds(secs: seq<Section>, order: seq<nat>, loaded: nat, off: nat, hdr: nat)
  {
    loaded <= |order| && hdr <= off &&
    (forall a :: 0 <= a < |order| ==> order[a] < |secs| && hdr <= secs[order[a]].offset &&
                                      secs[order[a]].offset + FileSize(secs[order[a]]) <= off) &&
    (forall a, b :: 0 <= a < b < |order| ==> secs[order[a]].offset + FileSize(secs[order[a]]) <= secs[order[b]].offset) &&
    (forall a :: loaded <= a < |order| ==> secs[order[a]].align > 0 && secs[order[a]].offset % secs[order[a]].align == 0) &&
    Packed(secs, order, loaded, off)
  }

  /** No unloaded section could be closer to the one before it, and the file ends with the last. */
  predicate Packed(secs: seq<Section>, order: seq<nat>, loaded: nat, off: nat)
    requires forall a :: 0 <= a < |order| ==> order[a] < |secs|
    requires forall a :: loaded <= a < |order| ==> secs[order[a]].align > 0
  {
    (forall a :: loaded < a < |order| ==>
      secs[order[a]].offset == RoundUp(secs[order[a - 1]].offset + FileSize(secs[order[a - 1]]), secs[order[a]].align)) &&
    (loaded < |order| ==> off == secs[order[|order| - 1]].offset + FileSize(secs[order[|order| - 1]]))
  }

  lemma PackedMore(secs: seq<Section>, order: seq<nat>, loaded: nat, off: nat, i: nat, o: nat)
    requires forall a :: 0 <= a < |order| ==> order[a] < |secs|
    requires forall a :: loaded <= a < |order| ==> secs[order[a]].align > 0
    requires Packed(secs, order, loaded, off) && i < |secs| && i !in order && secs[i].align > 0 && loaded <= |order|
    requires o == RoundUp(off, secs[i].align)
    ensures var secs', order' := secs[i := secs[i].(offset := o)], order + [i];
      (forall a :: 0 <= a < |order'| ==> order'[a] < |secs'|) &&
      (forall a :: loaded <= a < |order'| ==> secs'[order'[a]].align > 0) &&
      Packed(secs', order', loaded, o + FileSize(secs[i]))
  {
    hide RoundUp;
    var secs', order' := secs[i := secs[i].(offset := o)], order + [i];
    assert forall a :: 0 <= a < |order| ==> order'[a] == order[a] && order[a] in order && secs'[order[a]] == secs[order[a]];
    forall a | loaded < a < |order'|
      ensures secs'[order'[a]].offset == RoundUp(secs'[order'[a - 1]].offset + FileSize(secs'[order'[a - 1]]), secs'[order'[a]].align)
    {
      assert order'[a - 1] == order[a - 1] && secs'[order[a - 1]] == secs[order[a - 1]];
    }
  }

  /** The first unloaded section is at the first aligned offset from off0 on, where the file ends if there is none. */
  predicate RestFrom(secs: seq<Section>, order: seq<nat>, loaded: nat, off0: nat, off: nat)
  {
    if |order| <= loaded then off == off0
    else order[loaded] < |secs| && secs[order[loaded]].align > 0 && secs[order[loaded]].offset == RoundUp(off0, secs[order[loaded]].align)
  }

  lemma FileMore(secs: seq<Section>, order: seq<nat>, loaded: nat, off: nat, hdr: nat, i: nat)
    requires FileHolds(secs, order, loaded, off, hdr) && i < |secs| && i !in order && secs[i].align > 0
    ensures RoundUp(off, secs[i].align) >= off
    ensures var o := RoundUp(off, secs[i].align);
      FileHolds(secs[i := secs[i].(offset := o)], order + [i], loaded, o + FileSize(secs[i]), hdr)
  {
    RoundUpBounds(off, secs[i].align);
    RoundedMultiple(off, secs[i].align);
    hide RoundUp, Packed;
    var o := RoundUp(off, secs[i].align);
    PackedMore(secs, order, loaded, off, i, o);
    var secs', order' := secs[i := secs[i].(offset := o)], order + [i];
    assert forall a :: 0 <= a < |order| ==> order'[a] == order[a] && order[a] in order && secs'[order[a]] == secs[order[a]];
  }

  /** All other sections come after: the last loop of layout_sections. */
  method PlaceRest(sections: array<Section>, segments: bool, order0: seq<nat>, off0: nat, hdr: nat)
    returns (order: seq<nat>, off: nat)
    requires sections.Length > 0 && Sane(sections[..]) && InOrder(sections[..], segments, order0, 10, 1)
    requires FileHolds(sections[..], order0, |order0|, off0, hdr)
    modifies sections
    ensures SameSections(old(sections[..]), sections[..]) && IsOrder(sections[..], segments, order) && order0 <= order
    ensures FileHolds(sections[..], order, |order0|, off, hdr) && off >= off0
    ensures RestFrom(sections[..], order, |order0|, off0, off)
    ensures forall i :: 0 <= i < sections.Length && i in order0 ==> sections[i] == old(sections[i])
    ensures forall a :: |order0| <= a < |order| ==> order[a] < sections.Length && !(segments && sections[order[a]].alloc)
  {
    hide InOrder, FileHolds, RoundUp;
    order, off := order0, off0;
    var i := 1;
    while i < sections.Length
      invariant 1 <= i <= sections.Length && SameSections(old(sections[..]), sections[..]) && order0 <= order
      invariant InOrder(sections[..], segments, order, 10, i) && FileHolds(sections[..], order, |order0|, off, hdr) && off >= off0
      invariant RestFrom(sections[..], order, |order0|, off0, off)
      invariant forall m :: 0 <= m < sections.Length && m in order0 ==> sections[m] == old(sections[m])
      invariant forall a :: |order0| <= a < |order| ==> order[a] < sections.Length && !(segments && sections[order[a]].alloc)
    {
      ghost var secs := sections[..];
      assert SameButPlace(old(sections[..])[i], secs[i]);
      if !(segments && sections[i].alloc) {
        Added(secs, segments, order, 10, i);
        FileMore(secs, order, |order0|, off, hdr, i);
        order := order + [i];
        off := RoundUp(off, sections[i].align);
        sections[i] := sections[i].(offset := off);
        if !sections[i].kind.Nobits? { off := off + sections[i].size; }
        assert sections[..] == secs[i := sections[i]];
        OrderSame(secs, sections[..], segments, order, 10, i + 1);
      } else {
        Skipped(secs, segments, order, 10, i);
      }
      i := i + 1;
    }
    AllPasses(sections[..], segments, order);
  }

  /** The loaded sections stay as they are while the others are placed. */
  lemma LoadedKept(secs: seq<Section>, order: seq<nat>, mid: nat, addr: nat, off: nat, ph0: Segment, ph1: Segment, f: Frame, secs': seq<Section>)
    requires LoadedHold(secs, order, mid, addr, off, ph0, ph1, f) && SameSections(secs, secs')
    requires forall i :: 0 <= i < |secs| && i in order ==> secs'[i] == secs[i]
    ensures LoadedHold(secs', order, mid, addr, off, ph0, ph1, f)
  {
    hide NobitsSize, SegmentsHold;
    NobitsSame(secs, secs', order[..mid], 0);
    SegmentsKept(secs, order, mid, addr, off, ph0, ph1, f, secs');
    assert forall a :: 0 <= a < |order| ==> order[a] < |secs| && secs'[order[a]] == secs[order[a]];
  }

  lemma FirstSame(secs: seq<Section>, order: seq<nat>, mid: nat, secs': seq<Section>, ph: Segment, f: Frame)
    requires f.page > 0 && mid <= |order| && FirstHolds(secs, order, mid, ph, f) && SameSections(secs, secs') && secs'[order[0]] == secs[order[0]]
    ensures FirstHolds(secs', order, mid, ph, f)
  {
    hide NobitsSize, Ahead, FileFits, RoundUp;
    NobitsSame(secs, secs', order[..mid], 0);
  }

  lemma SegmentsKept(secs: seq<Section>, order: seq<nat>, mid: nat, addr: nat, off: nat, ph0: Segment, ph1: Segment, f: Frame, secs': seq<Section>)
    requires f.page > 0 && SegmentsHold(secs, order, mid, addr, off, ph0, ph1, f) && SameSections(secs, secs')
    requires forall i :: 0 <= i < |secs| && i in order ==> secs'[i] == secs[i]
    ensures SegmentsHold(secs', order, mid, addr, off, ph0, ph1, f)
  {
    assert |secs| == |secs'|;
    hide NobitsSize, Filled, HoldsAll, SameSections, Ahead, FirstHolds, LaterRemainder;
    LaterSame(secs, secs, order[..mid], secs', order, f);
    NobitsSame(secs, secs', order[..mid], 0);
    if mid > 0 {
      HoldsKept(secs, order, 0, mid, secs', order, ph0);
      FilledKept(secs, order, 0, mid, secs', order, ph0, f.start - f.startOff);
      FirstSame(secs, order, mid, secs', ph0, f);
    }
    if mid < |order| {
      HoldsKept(secs, order, mid, |order|, secs', order, ph1);
      FilledKept(secs, order, mid, |order|, secs', order, ph1, ph1.vaddr - ph1.offset);
      assert order[mid] in order;
    }
  }

  lemma LoadedAreAlloc(secs: seq<Section>, secs': seq<Section>, segments: bool, order: seq<nat>)
    requires InOrder(secs, segments, order, 10, 1) && SameSections(secs, secs')
    ensures forall a :: 0 <= a < |order| ==> order[a] < |secs'| && segments && secs'[order[a]].alloc
  {
    forall a | 0 <= a < |order| ensures order[a] < |secs'| && segments && secs'[order[a]].alloc {
      assert Done(secs, segments, 10, 1, order[a]);
      assert SameButPlace(secs[order[a]], secs'[order[a]]);
    }
  }

  /** layout_sections. The first `loaded` sections of the order are those of the segments; f.r tells whether they are congruent. */
  method LayoutSections(sections: array<Section>, q: Request)
    returns (order: seq<nat>, fileSize: nat, ph0: Segment, ph1: Segment,
             ghost loaded: nat, ghost mid: nat, ghost end: nat, ghost loadedSize: nat, ghost f: Frame)
    requires ValidRequest(q) && sections.Length > 0 && Sane(sections[..])
    modifies sections
    ensures SameSections(old(sections[..]), sections[..]) && IsOrder(sections[..], q.segments, order)
    ensures FileHolds(sections[..], order, loaded, fileSize, q.hdr) && loaded <= |order|
    ensures forall a :: 0 <= a < |order| ==> order[a] < sections.Length && (a < loaded <==> q.segments && sections[order[a]].alloc)
    ensures f.page == q.page && f.hdr == q.hdr &&
      (q.segments ==> f.start == FirstAddr(q) && f.startOff == FirstOff(q) && (f.r == 0 <==> PageAlignedStart(q)))
    ensures q.segments ==> LoadedHold(sections[..], order[..loaded], mid, end, loadedSize, ph0, ph1, f) && loadedSize <= fileSize
    ensures !q.segments ==> ph0 == ph1 == UNSET && loadedSize == q.hdr
    ensures RestFrom(sections[..], order, loaded, loadedSize, fileSize)
  {
    hide InOrder, FileHolds, LoadedHold, PageAlignedStart, IsOrder;
    order, fileSize, ph0, ph1, loaded, mid, end, f := [], q.hdr, UNSET, UNSET, 0, 0, 0, Frame(q.page, 0, q.hdr, 0, 0);
    ghost var secs0 := sections[..];
    if q.segments {
      order, fileSize, ph0, ph1, mid, end, f := PlaceLoaded(sections, q);
      LoadedInFile(sections[..], order, mid, end, fileSize, ph0, ph1, f);
      SaneSame(secs0, sections[..]);
    } else {
      NothingPlaced(sections[..], q.hdr);
    }
    loaded := |order|;
    ghost var secs1, order1 := sections[..], order;
    loadedSize := fileSize;
    order, fileSize := PlaceRest(sections, q.segments, order, fileSize, q.hdr);
    assert order[..loaded] == order1;
    LoadedAreAlloc(secs1, sections[..], q.segments, order1);
    assert forall a :: 0 <= a < loaded ==> order[a] == order1[a];
    if q.segments { LoadedKept(secs1, order1, mid, end, loadedSize, ph0, ph1, f, sections[..]); }
  }

  lemma LoadedInFile(secs: seq<Section>, order: seq<nat>, mid: nat, addr: nat, off: nat, ph0: Segment, ph1: Segment, f: Frame)
    requires LoadedHold(secs, order, mid, addr, off, ph0, ph1, f) && f.hdr <= off
    ensures FileHolds(secs, order, |order|, off, f.hdr)
  {
  }

  lemma SaneSame(secs: seq<Section>, secs': seq<Section>)
    requires Sane(secs) && SameSections(secs, secs')
    ensures Sane(secs')
  {
    assert forall i :: 0 <= i < |secs| ==> SameButPlace(secs[i], secs'[i]);
  }

  lemma NothingPlaced(secs: seq<Section>, hdr: nat)
    ensures InOrder(secs, false, [], 10, 1) && FileHolds(secs, [], 0, hdr, hdr)
  {}

  /** Two loaded sections share no byte of memory, and no byte of the file. */
  lemma LoadedDisjoint(secs: seq<Section>, order: seq<nat>, addr: nat, off: nat, hdr: nat, a: nat, b: nat)
    requires Placed(secs, order, addr, off, hdr) && a < |order| && b < |order| && a != b
    ensures Before(secs[order[a]], secs[order[b]]) || Before(secs[order[b]], secs[order[a]])
  {
    if a < b { assert Before(secs[order[a]], secs[order[b]]); } else { assert Before(secs[order[b]], secs[order[a]]); }
  }

  /** A loaded section with contents is congruent in the read-only segment exactly for a page-aligned start; in the writable one exactly
      when the start and the read-only sections without contents together are. */
  lemma CongruentExactly(secs: seq<Section>, order: seq<nat>, mid: nat, addr: nat, off: nat, ph0: Segment, ph1: Segment, f: Frame, a: nat)
    requires LoadedHold(secs, order, mid, addr, off, ph0, ph1, f) && a < |order|
    requires !secs[order[a]].kind.Nobits?
    ensures secs[order[a]].addr % f.page == secs[order[a]].offset % f.page <==>
      (if secs[order[a]].write then LaterRemainder(secs, order, mid, f) == 0 else f.r == 0)
  {
    hide SegmentsHold, LaterRemainder;
    assert Fits(secs[order[a]], addr, off, f.hdr);
    SameRemainderExactly(secs[order[a]].addr, secs[order[a]].offset, f.page);
  }

  lemma PageBefore(addr: nat, vaddr: nat, x: nat, y: nat, page: nat)
    requires page > 0 && PageAfter(addr, vaddr, page) && x < addr && vaddr <= y
    ensures x / page < y / page
  {
    FloorMono(vaddr, y, page);
    assert x / page * page <= x;
    if x / page >= vaddr / page { MulMono(vaddr / page, x / page, page); }
  }

  predicate InSegment(ph: Segment, x: int) { ph.vaddr <= x < ph.vaddr + ph.memsz }

  ghost predicate SharePage(a: Segment, b: Segment, page: nat)
    requires page > 0
  {
    exists x, y :: InSegment(a, x) && InSegment(b, y) && x / page == y / page
  }

  /** A page of memory belongs to both segments exactly when the second has no sections, and so starts at zero, and the first is not empty. */
  lemma PagesApart(secs: seq<Section>, order: seq<nat>, mid: nat, addr: nat, off: nat, ph0: Segment, ph1: Segment, f: Frame)
    requires LoadedHold(secs, order, mid, addr, off, ph0, ph1, f)
    ensures SharePage(ph0, ph1, f.page) <==> mid == |order| && ph0.memsz > 0
    ensures mid < |order| ==> forall x, y :: InSegment(ph0, x) && InSegment(ph1, y) ==> x / f.page < y / f.page
  {
    hide Placed, Congruent, HoldsAll, LaterRemainder, FirstHolds, SecondHolds, PageAfter;
    if mid < |order| {
      forall x, y | InSegment(ph0, x) && InSegment(ph1, y) ensures x / f.page < y / f.page {
        PageBefore(ph0.vaddr + ph0.memsz, ph1.vaddr, x, y, f.page);
      }
    } else if ph0.memsz > 0 {
      assert InSegment(ph0, ph0.vaddr) && InSegment(ph1, ph0.vaddr);
    }
  }

  lemma BeyondFile(secs: seq<Section>, order: seq<nat>, lo: nat, hi: nat, ph: Segment, d: int)
    requires Filled(secs, order, lo, hi, ph, d) && ph.vaddr - ph.offset == d
    ensures ph.memsz - ph.filesz == NobitsSize(secs, order[..hi], lo)
  {
    hide RoundUp;
    assert Straight(secs, order, lo, hi - 1, d);
    assert order[..hi][..hi - 1] == order[..hi - 1];
  }

  /** p_filesz is at most p_memsz exactly when: the first segment has sections and fits, or is unset and starts in memory no lower than in
      the file; and the second has sections, or the layout ends in memory no lower than in the file. What the second segment has in
      memory beyond its file part is as large as its sections without contents. */
  lemma FileInMemory(secs: seq<Section>, order: seq<nat>, mid: nat, addr: nat, off: nat, ph0: Segment, ph1: Segment, f: Frame)
    requires LoadedHold(secs, order, mid, addr, off, ph0, ph1, f)
    ensures ph0.filesz <= ph0.memsz <==>
      if mid > 0 then secs[order[0]].align > 0 && FileFits(secs[order[0]], NobitsSize(secs, order[..mid], 0), f) else f.startOff <= f.start
    ensures ph1.filesz <= ph1.memsz <==> mid < |order| || off <= addr
    ensures mid < |order| ==> ph1.memsz - ph1.filesz == NobitsSize(secs, order, mid)
    ensures mid > 0 && Ahead(f.start, f.startOff, f.page) == 0 ==> ph0.filesz <= ph0.memsz
  {
    hide Placed, Congruent, HoldsAll, LaterRemainder, NobitsSize, FileFits;
    if mid > 0 && Ahead(f.start, f.startOff, f.page) == 0 { AlignedFits(secs[order[0]], NobitsSize(secs, order[..mid], 0), f); }
    if mid < |order| {
      BeyondFile(secs, order, mid, |order|, ph1, ph1.vaddr - ph1.offset);
      assert order[..|order|] == order;
    }
  }

  /** A writable section without contents starts behind the file part of its segment exactly when the file part goes no further past
      the section's offset than by the sections without contents before it. The last section always does. */
  lemma NobitsBehind(secs: seq<Section>, order: seq<nat>, mid: nat, addr: nat, off: nat, ph0: Segment, ph1: Segment, f: Frame, a: nat)
    requires LoadedHold(secs, order, mid, addr, off, ph0, ph1, f) && mid <= a < |order| && secs[order[a]].kind.Nobits?
    ensures secs[order[a]].addr >= ph1.vaddr + ph1.filesz <==>
      ph1.offset + ph1.filesz - secs[order[a]].offset <= NobitsSize(secs, order[..a], mid)
    ensures a == |order| - 1 ==> secs[order[a]].addr >= ph1.vaddr + ph1.filesz
  {
    hide Placed, Congruent, HoldsAll, LaterRemainder, FirstHolds, SecondHolds, PageAfter, Follows, NobitsSize, OnPage, Ahead, RoundUp;
    assert Straight(secs, order, mid, a, ph1.vaddr - ph1.offset);
  }

  const NULL_SECTION := Section(OtherType, false, false, false, 1, 0, 0, 0)
  const DATA := Section(OtherType, true, true, false, 1, 8, 0, 0)
  const WITH_READ_ONLY_NOBITS :=
    [NULL_SECTION, Section(OtherType, true, false, false, 4, 8, 0, 0), Section(Nobits, true, false, false, 1, 1, 0, 0), DATA]

  lemma ThreeInOrder(secs: seq<Section>, order: seq<nat>)
    requires SameSections(WITH_READ_ONLY_NOBITS, secs) && IsOrder(secs, true, order)
    ensures order == [1, 2, 3]
  {
    assert SameButPlace(WITH_READ_ONLY_NOBITS[1], secs[1]) && SameButPlace(WITH_READ_ONLY_NOBITS[2], secs[2]) &&
           SameButPlace(WITH_READ_ONLY_NOBITS[3], secs[3]);
    assert IsOrder(secs, true, [1, 2, 3]) by {
      assert [1, 2, 3][0] == 1 && [1, 2, 3][1] == 2 && [1, 2, 3][2] == 3;
    }
    if |order| <= 3 { OrderUnique(secs, true, order, [1, 2, 3]); } else { OrderUnique(secs, true, [1, 2, 3], order); }
  }

  lemma OneNobits(secs: seq<Section>)
    requires SameSections(WITH_READ_ONLY_NOBITS, secs)
    ensures NobitsSize(secs, [1, 2], 0) == 1
  {
    assert SameButPlace(WITH_READ_ONLY_NOBITS[1], secs[1]) && SameButPlace(WITH_READ_ONLY_NOBITS[2], secs[2]);
    assert [1, 2][..1] == [1] && [1][..0] == [];
    assert NobitsSize(secs, [], 0) == 0;
    assert NobitsSize(secs, [1], 0) == 0;
  }

  /** One byte of read-only memory without contents, and the data behind it is at a wrong place in its page. */
  method ReadOnlyNobitsExample() returns (secs: seq<Section>)
    ensures SameSections(WITH_READ_ONLY_NOBITS, secs) && secs[3].addr % 0x1000 != secs[3].offset % 0x1000
  {
    var sections := new Section[4](i requires 0 <= i < 4 => WITH_READ_ONLY_NOBITS[i]);
    assert sections[..] == WITH_READ_ONLY_NOBITS;
    var q := Request(true, 176, 0x1000, None, 0x40_0000);
    var order, size, ph0, ph1; ghost var loaded, mid, end, loadedSize, f;
    hide LoadedHold, IsOrder, FileHolds, SameSections;
    order, size, ph0, ph1, loaded, mid, end, loadedSize, f := LayoutSections(sections, q);
    secs := sections[..];
    ThreeInOrder(secs, order);
    ExampleKinds(secs);
    assert order[2] == 3 && order[1] == 2 && order[0] == 1;
    assert order[..loaded] == order;
    ShiftedByOne(secs, mid, end, loadedSize, ph0, ph1, f);
  }

  lemma ExampleKinds(secs: seq<Section>)
    requires SameSections(WITH_READ_ONLY_NOBITS, secs)
    ensures |secs| == 4 && secs[1].alloc && secs[2].alloc && secs[3].alloc && !secs[2].write && secs[3].write && !secs[3].kind.Nobits?
  {
    assert SameButPlace(WITH_READ_ONLY_NOBITS[1], secs[1]) && SameButPlace(WITH_READ_ONLY_NOBITS[2], secs[2]) &&
           SameButPlace(WITH_READ_ONLY_NOBITS[3], secs[3]);
  }

  lemma ShiftedByOne(secs: seq<Section>, mid: nat, addr: nat, off: nat, ph0: Segment, ph1: Segment, f: Frame)
    requires SameSections(WITH_READ_ONLY_NOBITS, secs) && f.page > 1 && f.r == 0
    requires LoadedHold(secs, [1, 2, 3], mid, addr, off, ph0, ph1, f)
    ensures secs[3].addr % f.page != secs[3].offset % f.page
  {
    hide SegmentsHold, Placed, NobitsSize, Congruent;
    ExampleKinds(secs);
    assert !secs[[1, 2, 3][1]].write && secs[[1, 2, 3][2]].write;
    assert [1, 2, 3][..mid] == [1, 2];
    OneNobits(secs);
    CongruentExactly(secs, [1, 2, 3], mid, addr, off, ph0, ph1, f, 2);
  }

  const WITH_ALIGNED_TEXT := [NULL_SECTION, Section(OtherType, true, false, false, 0x80_0000, 8, 0, 0), DATA]

  lemma TwoInOrder(secs: seq<Section>, order: seq<nat>)
    requires SameSections(WITH_ALIGNED_TEXT, secs) && IsOrder(secs, true, order)
    ensures order == [1, 2]
  {
    assert SameButPlace(WITH_ALIGNED_TEXT[1], secs[1]) && SameButPlace(WITH_ALIGNED_TEXT[2], secs[2]);
    assert IsOrder(secs, true, [1, 2]) by {
      assert [1, 2][0] == 1 && [1, 2][1] == 2;
    }
    if |order| <= 2 { OrderUnique(secs, true, order, [1, 2]); } else { OrderUnique(secs, true, [1, 2], order); }
  }

  /** A section alignment above the start address, and code as much aligned: the first segment has more bytes in the file than in memory. */
  method FileLargerExample() returns (ph0: Segment)
    ensures ph0.filesz > ph0.memsz
  {
    var sections := new Section[3](i requires 0 <= i < 3 => WITH_ALIGNED_TEXT[i]);
    assert sections[..] == WITH_ALIGNED_TEXT;
    var q := Request(true, 176, 0x80_0000, None, 0x40_0000);
    var order, size, ph1; ghost var loaded, mid, end, loadedSize, f;
    hide LoadedHold, IsOrder, FileHolds, SameSections;
    order, size, ph0, ph1, loaded, mid, end, loadedSize, f := LayoutSections(sections, q);
    ghost var secs := sections[..];
    TwoInOrder(secs, order);
    AlignedKinds(secs);
    assert order[1] == 2 && order[0] == 1;
    assert order[..loaded] == order;
    TextTooFar(secs, mid, end, loadedSize, ph0, ph1, f);
  }

  lemma AlignedKinds(secs: seq<Section>)
    requires SameSections(WITH_ALIGNED_TEXT, secs)
    ensures |secs| == 3 && secs[1].alloc && secs[2].alloc && !secs[1].write && secs[2].write && secs[1].align == 0x80_0000
    ensures NobitsSize(secs, [1], 0) == 0
  {
    assert SameButPlace(WITH_ALIGNED_TEXT[1], secs[1]) && SameButPlace(WITH_ALIGNED_TEXT[2], secs[2]);
    assert [1][..0] == [] && NobitsSize(secs, [], 0) == 0;
  }

  lemma TextTooFar(secs: seq<Section>, mid: nat, addr: nat, off: nat, ph0: Segment, ph1: Segment, f: Frame)
    requires SameSections(WITH_ALIGNED_TEXT, secs) && LoadedHold(secs, [1, 2], mid, addr, off, ph0, ph1, f)
    requires f.page == 0x80_0000 && f.start == 0x40_00b0 && f.startOff == 176
    ensures ph0.filesz > ph0.memsz
  {
    hide SegmentsHold, Placed, NobitsSize, Congruent;
    AlignedKinds(secs);
    assert !secs[[1, 2][0]].write && secs[[1, 2][1]].write;
    assert [1, 2][..mid] == [1];
    FileInMemory(secs, [1, 2], mid, addr, off, ph0, ph1, f);
  }

  const WITH_ALIGNED_BSS :=
    [NULL_SECTION, Section(OtherType, true, false, false, 1, 8, 0, 0), DATA,
     Section(Nobits, true, true, false, 1, 1, 0, 0), Section(Nobits, true, true, false, 32, 8, 0, 0)]

  lemma BssKinds(secs: seq<Section>)
    requires SameSections(WITH_ALIGNED_BSS, secs)
    ensures |secs| == 5 && secs[1].alloc && secs[2].alloc && secs[3].alloc && secs[4].alloc
    ensures !secs[1].write && secs[2].write && secs[3].write && secs[4].write
    ensures secs[1].align == secs[2].align == secs[3].align == 1 && secs[4].align == 32
    ensures secs[1].size == secs[2].size == 8 && secs[3].size == 1 && secs[4].size == 8
    ensures secs[1].kind.OtherType? && secs[2].kind.OtherType? && secs[3].kind.Nobits? && secs[4].kind.Nobits?
    ensures !secs[1].interp && !secs[2].interp && !secs[3].interp && !secs[4].interp
  {
    assert SameButPlace(WITH_ALIGNED_BSS[1], secs[1]) && SameButPlace(WITH_ALIGNED_BSS[2], secs[2]) &&
           SameButPlace(WITH_ALIGNED_BSS[3], secs[3]) && SameButPlace(WITH_ALIGNED_BSS[4], secs[4]);
  }

  lemma BssInOrder(secs: seq<Section>, order: seq<nat>)
    requires SameSections(WITH_ALIGNED_BSS, secs) && IsOrder(secs, true, order)
    ensures order == [1, 2, 3, 4]
  {
    BssKinds(secs);
    var o := [1, 2, 3, 4];
    assert IsOrder(secs, true, o) by {
      assert o[0] == 1 && o[1] == 2 && o[2] == 3 && o[3] == 4;
    }
    if |order| <= 4 { OrderUnique(secs, true, order, o); } else { OrderUnique(secs, true, o, order); }
  }

  lemma BssSizes(secs: seq<Section>)
    requires SameSections(WITH_ALIGNED_BSS, secs)
    ensures NobitsSize(secs, [1], 1) == NobitsSize(secs, [1, 2], 1) == 0 && NobitsSize(secs, [1, 2, 3], 1) == 1
  {
    BssKinds(secs);
    assert [1, 2][..1] == [1] && [1, 2, 3][..2] == [1, 2];
  }

  lemma RoundingsOfBss()
    ensures RoundUp(0x40_00b0, 1) == 0x40_00b0 && RoundUp(0x40_10b8, 1) == 0x40_10b8 && RoundUp(0x40_10c0, 1) == 0x40_10c0
    ensures RoundUp(0x40_10c1, 32) == 0x40_10e0
  {}

  lemma BssInFilePart(secs: seq<Section>, mid: nat, addr: nat, off: nat, ph0: Segment, ph1: Segment, f: Frame)
    requires SameSections(WITH_ALIGNED_BSS, secs) && LoadedHold(secs, [1, 2, 3, 4], mid, addr, off, ph0, ph1, f)
    requires f.page == 0x1000 && f.start == 0x40_00b0
    ensures secs[3].addr < ph1.vaddr + ph1.filesz
  {
    BssKinds(secs);
    var o := [1, 2, 3, 4];
    hide Placed, Congruent, HoldsAll, LaterRemainder, SecondHolds, PageAfter, NobitsSize, OnPage, Ahead, RoundUp, FileFits, SameSections;
    assert o[0] == 1 && o[1] == 2 && o[2] == 3 && o[3] == 4 && mid == 1;
    RoundingsOfBss();
    BssSizes(secs);
    assert o[..1] == [1] && o[..2] == [1, 2] && o[..3] == [1, 2, 3];
    assert secs[1].addr == 0x40_00b0 && secs[2].addr == 0x40_10b8;
    assert Straight(secs, o, 1, 2, ph1.vaddr - ph1.offset) && Straight(secs, o, 1, 3, ph1.vaddr - ph1.offset);
  }

  /** A second section without contents that is aligned: the padding before it is in the file part, and so is the first one's address. */
  method NobitsInFileExample() returns (secs: seq<Section>, ph1: Segment)
    ensures SameSections(WITH_ALIGNED_BSS, secs) && secs[3].addr < ph1.vaddr + ph1.filesz
  {
    var sections := new Section[5](i requires 0 <= i < 5 => WITH_ALIGNED_BSS[i]);
    assert sections[..] == WITH_ALIGNED_BSS;
    var q := Request(true, 176, 0x1000, None, 0x40_0000);
    var order, size, ph0; ghost var loaded, mid, end, loadedSize, f;
    hide LoadedHold, IsOrder, FileHolds, SameSections;
    order, size, ph0, ph1, loaded, mid, end, loadedSize, f := LayoutSections(sections, q);
    secs := sections[..];
    BssInOrder(secs, order);
    BssKinds(secs);
    assert order[0] == 1 && order[1] == 2 && order[2] == 3 && order[3] == 4;
    assert order[..loaded] == order;
    BssInFilePart(secs, mid, end, loadedSize, ph0, ph1, f);
  }

  // ----- the file -----

  /** Byte x belongs to the contents of one of the first n sections of the order. */
  predicate InSection(secs: seq<Section>, order: seq<nat>, n: nat, x: nat)
  {
    exists a :: 0 <= a < n && n <= |order| && order[a] < |secs| &&
      secs[order[a]].offset <= x < secs[order[a]].offset + FileSize(secs[order[a]])
  }

  /** The file holds the contents of section s at its offset. */
  predicate HasContents(file: seq<Byte>, s: Section, data: seq<Byte>)
  {
    s.kind.Nobits? ||
    (s.size <= |data| && s.offset + s.size <= |file| && file[s.offset..s.offset + s.size] == data[..s.size])
  }

  /** Headers, then the contents of the first n sections at their offsets, and zeros between. */
  predicate Written(file: seq<Byte>, headers: seq<Byte>, secs: seq<Section>, order: seq<nat>, data: seq<seq<Byte>>, n: nat)
    requires |data| == |secs|
  {
    headers <= file && n <= |order| &&
    (forall a :: 0 <= a < n ==> order[a] < |secs| && HasContents(file, secs[order[a]], data[order[a]])) &&
    forall x :: |headers| <= x < |file| && !InSection(secs, order, n, x) ==> file[x] == 0
  }

  lemma Padded(file: seq<Byte>, headers: seq<Byte>, secs: seq<Section>, order: seq<nat>, data: seq<seq<Byte>>, n: nat)
    requires |data| == |secs| && Written(file, headers, secs, order, data, n)
    ensures Written(file + [0], headers, secs, order, data, n)
  {
    hide InSection;
    var file' := file + [0];
    forall a | 0 <= a < n ensures HasContents(file', secs[order[a]], data[order[a]]) {
      var s := secs[order[a]];
      assert HasContents(file, s, data[order[a]]);
      if !s.kind.Nobits? { assert file'[s.offset..s.offset + s.size] == file[s.offset..s.offset + s.size]; }
    }
  }

  lemma SectionWritten(file: seq<Byte>, headers: seq<Byte>, secs: seq<Section>, order: seq<nat>, data: seq<seq<Byte>>, n: nat)
    requires |data| == |secs| && Written(file, headers, secs, order, data, n) && n < |order| && order[n] < |secs|
    requires var s := secs[order[n]]; !s.kind.Nobits? && |file| == s.offset && s.size <= |data[order[n]]|
    ensures Written(file + data[order[n]][..secs[order[n]].size], headers, secs, order, data, n + 1)
  {
    var t := secs[order[n]];
    var file' := file + data[order[n]][..t.size];
    forall a | 0 <= a < n + 1 ensures order[a] < |secs| && HasContents(file', secs[order[a]], data[order[a]]) {
      var s := secs[order[a]];
      if a < n && !s.kind.Nobits? {
        assert HasContents(file, s, data[order[a]]);
        assert file'[s.offset..s.offset + s.size] == file[s.offset..s.offset + s.size];
      }
    }
    forall x | |headers| <= x < |file'| ensures InSection(secs, order, n + 1, x) || file'[x] == 0 {
      if x >= |file| { assert t.offset <= x < t.offset + FileSize(t); }
      if x < |file| && InSection(secs, order, n, x) { InMore(secs, order, n, x); }
    }
  }

  lemma InMore(secs: seq<Section>, order: seq<nat>, n: nat, x: nat)
    requires InSection(secs, order, n, x) && n < |order|
    ensures InSection(secs, order, n + 1, x)
  {}

  lemma NobitsSkipped(file: seq<Byte>, headers: seq<Byte>, secs: seq<Section>, order: seq<nat>, data: seq<seq<Byte>>, n: nat)
    requires |data| == |secs| && Written(file, headers, secs, order, data, n) && n < |order| && order[n] < |secs|
    requires secs[order[n]].kind.Nobits?
    ensures Written(file, headers, secs, order, data, n + 1)
  {
    forall x | |headers| <= x < |file| ensures InSection(secs, order, n + 1, x) || file[x] == 0 {
      if InSection(secs, order, n, x) { InMore(secs, order, n, x); }
    }
  }

  /** The writing loop of mkcc_output_elf, up to the section headers. */
  method WriteFile(headers: seq<Byte>, secs: seq<Section>, order: seq<nat>, data: seq<seq<Byte>>, ghost loaded: nat, fileSize: nat)
    returns (file: seq<Byte>)
    requires FileHolds(secs, order, loaded, fileSize, |headers|) && |data| == |secs|
    requires forall i :: 0 <= i < |secs| && !secs[i].kind.Nobits? ==> secs[i].size <= |data[i]|
    ensures |file| == (fileSize + 3) / 4 * 4 && Written(file, headers, secs, order, data, |order|)
  {
    hide Written;
    file := headers;
    WrittenHeaders(headers, secs, order, data);
    var i := 0;
    while i < |order|
      invariant i <= |order| && Written(file, headers, secs, order, data, i)
      invariant |file| <= fileSize && forall a :: i <= a < |order| ==> |file| <= secs[order[a]].offset
    {
      var s := secs[order[i]];
      if !s.kind.Nobits? {
        while |file| < s.offset
          invariant |file| <= s.offset && Written(file, headers, secs, order, data, i)
        {
          Padded(file, headers, secs, order, data, i);
          file := file + [0];
        }
        SectionWritten(file, headers, secs, order, data, i);
        file := file + data[order[i]][..s.size];
      } else {
        NobitsSkipped(file, headers, secs, order, data, i);
      }
      i := i + 1;
    }
    while |file| < (fileSize + 3) / 4 * 4
      invariant |file| <= (fileSize + 3) / 4 * 4 && Written(file, headers, secs, order, data, |order|)
    {
      Padded(file, headers, secs, order, data, |order|);
      file := file + [0];
    }
  }

  lemma WrittenHeaders(headers: seq<Byte>, secs: seq<Section>, order: seq<nat>, data: seq<seq<Byte>>)
    requires |data| == |secs|
    ensures Written(headers, headers, secs, order, data, 0)
  {}

  // ----- the loaded program -----

  /** The byte at address x once the segment is loaded: from the file as far as p_filesz goes, zero behind. */
  function MemoryAt(file: seq<Byte>, ph: Segment, x: int): Byte
  {
    var y := ph.offset + (x - ph.vaddr);
    if x < ph.vaddr + ph.filesz && 0 <= y < |file| then file[y] else 0
  }

  /** What the program must find at address x of section s. */
  function Expected(s: Section, data: seq<Byte>, x: int): Byte
  {
    if !s.kind.Nobits? && 0 <= x - s.addr < |data| then data[x - s.addr] else 0
  }

  /** The file offset mapped to an address of a section without contents belongs to no section: there is only padding. */
  lemma GapBelow(secs: seq<Section>, order: seq<nat>, loaded: nat, fileSize: nat, addr: nat, off: nat, hdr: nat,
                 lo: nat, hi: nat, ph: Segment, a: nat, x: int)
    requires FileHolds(secs, order, loaded, fileSize, hdr) && hi <= loaded <= |order| && Placed(secs, order[..loaded], addr, off, hdr)
    requires Filled(secs, order, lo, hi, ph, ph.vaddr - ph.offset) && lo <= a < hi && secs[order[a]].kind.Nobits?
    requires secs[order[a]].addr <= x < secs[order[a]].addr + secs[order[a]].size && x < ph.vaddr + ph.filesz
    ensures var y := ph.offset + (x - ph.vaddr); hdr <= y < fileSize && !InSection(secs, order, |order|, y)
  {
    var y, l := ph.offset + (x - ph.vaddr), order[..loaded];
    assert Straight(secs, order, lo, lo, ph.vaddr - ph.offset);
    if lo < a { assert Before(secs[l[lo]], secs[l[a]]); }
    forall t | 0 <= t < |order| ensures !(secs[order[t]].offset <= y < secs[order[t]].offset + FileSize(secs[order[t]])) {
      if t < lo {
        assert secs[order[t]].offset + FileSize(secs[order[t]]) <= secs[order[lo]].offset;
      } else if t < a {
        assert Before(secs[l[t]], secs[l[a]]) && Straight(secs, order, lo, t, ph.vaddr - ph.offset);
      } else if a < t < hi {
        assert Before(secs[l[a]], secs[l[t]]) && Straight(secs, order, lo, t, ph.vaddr - ph.offset);
      } else if hi <= t {
        assert secs[order[hi - 1]].offset + FileSize(secs[order[hi - 1]]) <= secs[order[t]].offset;
      }
    }
  }

  /** A segment that keeps the distance of its contents gives every section its contents, or zeros. */
  lemma SegmentImage(secs: seq<Section>, order: seq<nat>, loaded: nat, fileSize: nat, addr: nat, off: nat, headers: seq<Byte>,
                     data: seq<seq<Byte>>, file: seq<Byte>, lo: nat, hi: nat, ph: Segment, a: nat, x: int)
    requires FileHolds(secs, order, loaded, fileSize, |headers|) && hi <= loaded <= |order| && Placed(secs, order[..loaded], addr, off, |headers|)
    requires Filled(secs, order, lo, hi, ph, ph.vaddr - ph.offset) && HoldsAll(secs, order[..loaded], lo, hi, ph) && lo <= a < hi
    requires |data| == |secs| && Written(file, headers, secs, order, data, |order|) && |file| >= fileSize
    requires secs[order[a]].addr <= x < secs[order[a]].addr + secs[order[a]].size
    ensures InSegment(ph, x) && MemoryAt(file, ph, x) == Expected(secs[order[a]], data[order[a]], x)
  {
    hide InSection;
    var s, l := secs[order[a]], order[..loaded];
    assert l[a] == order[a] && Holds(ph, secs[l[a]]) && Straight(secs, order, lo, a, ph.vaddr - ph.offset);
    if s.kind.Nobits? {
      if x < ph.vaddr + ph.filesz { GapBelow(secs, order, loaded, fileSize, addr, off, |headers|, lo, hi, ph, a, x); }
    } else {
      assert HasContents(file, s, data[order[a]]);
      var k := x - s.addr;
      assert file[s.offset + k] == file[s.offset..s.offset + s.size][k] == data[order[a]][k];
    }
  }

  /** Once the file is written and its segments are loaded, every writable section has its contents in memory, or zeros if it has none;
      so have the read-only ones when the program was wanted at a place that suits its file offset. */
  lemma ProgramImage(secs: seq<Section>, order: seq<nat>, loaded: nat, fileSize: nat, mid: nat, addr: nat, off: nat, ph0: Segment, ph1: Segment,
                     f: Frame, headers: seq<Byte>, data: seq<seq<Byte>>, file: seq<Byte>, a: nat, x: int)
    requires FileHolds(secs, order, loaded, fileSize, |headers|) && loaded <= |order| && f.hdr == |headers|
    requires LoadedHold(secs, order[..loaded], mid, addr, off, ph0, ph1, f)
    requires |data| == |secs| && Written(file, headers, secs, order, data, |order|) && |file| >= fileSize
    requires a < loaded && secs[order[a]].addr <= x < secs[order[a]].addr + secs[order[a]].size
    requires secs[order[a]].write || Ahead(f.start, f.startOff, f.page) == 0
    ensures var ph := if secs[order[a]].write then ph1 else ph0;
      InSegment(ph, x) && MemoryAt(file, ph, x) == Expected(secs[order[a]], data[order[a]], x)
  {
    hide FileHolds, LoadedHold, Placed, Written, HoldsAll, MemoryAt, Expected, InSegment, Filled, Ahead;
    assert order[..loaded][a] == order[a];
    LoadedFacts(secs, order[..loaded], mid, addr, off, ph0, ph1, f, a);
    if secs[order[a]].write {
      FilledWhole(secs, order, loaded, mid, loaded, ph1, ph1.vaddr - ph1.offset);
      SegmentImage(secs, order, loaded, fileSize, addr, off, headers, data, file, mid, loaded, ph1, a, x);
    } else {
      FilledWhole(secs, order, loaded, 0, mid, ph0, f.start - f.startOff);
      SegmentImage(secs, order, loaded, fileSize, addr, off, headers, data, file, 0, mid, ph0, a, x);
    }
  }

  lemma LoadedFacts(secs: seq<Section>, order: seq<nat>, mid: nat, addr: nat, off: nat, ph0: Segment, ph1: Segment, f: Frame, a: nat)
    requires LoadedHold(secs, order, mid, addr, off, ph0, ph1, f) && a < |order|
    ensures f.page > 0 && mid <= |order| && Placed(secs, order, addr, off, f.hdr) && order[a] < |secs| && (a < mid <==> !secs[order[a]].write)
    ensures a < mid ==> Filled(secs, order, 0, mid, ph0, f.start - f.startOff) && HoldsAll(secs, order, 0, mid, ph0)
    ensures a < mid && Ahead(f.start, f.startOff, f.page) == 0 ==> ph0.vaddr - ph0.offset == f.start - f.startOff
    ensures a >= mid ==> Filled(secs, order, mid, |order|, ph1, ph1.vaddr - ph1.offset) && HoldsAll(secs, order, mid, |order|, ph1)
  {
    hide Congruent, HoldsAll, LaterRemainder, SecondHolds, Filled, Ahead, FileFits, NobitsSize, StartsAt;
  }

  lemma FilledWhole(secs: seq<Section>, order: seq<nat>, loaded: nat, lo: nat, hi: nat, ph: Segment, d: int)
    requires loaded <= |order| && Filled(secs, order[..loaded], lo, hi, ph, d)
    ensures Filled(secs, order, lo, hi, ph, d)
  {
    hide Straight;
    var l := order[..loaded];
    forall a | lo <= a < hi ensures Straight(secs, order, lo, a, d) {
      assert order[..a + 1] == l[..a + 1];
      StraightKept(secs, l, lo, a, d, secs, order);
    }
    assert order[hi - 1] == l[hi - 1];
  }
}
