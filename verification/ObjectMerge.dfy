/** mkcc_load_object_file: the sections, symbols and relocations of an object file join those already loaded. */
module ObjectMerge {
  import opened Arith
  import opened Bytes
  import opened Wrappers
  import opened SymbolTable
  import opened Resolve
  import opened SortSyms

  datatype Kind = Contents(type_: nat) | NoBits | Relx

  /** A section of the output: bytes, or a size without bytes, or relocation records. */
  datatype Section = Section(name: string, kind: Kind, align: nat, data: seq<Byte>, size: nat, rels: seq<Rel>, info: nat)

  /** A section of an object file; other kinds than these are not merged. */
  datatype ObjSection = ObjSection(name: string, kind: Option<Kind>, align: nat, data: seq<Byte>, size: nat, rels: seq<Rel>, info: nat)

  datatype ObjSym = ObjSym(name: string, decl: Decl)

  /** Section 0 and symbol 0 are the null entries. */
  datatype Object = Object(sections: seq<ObjSection>, syms: seq<ObjSym>, symtabs: nat)

  /** Bytes, or relocation records, already in a section: data_offset. */
  function End(s: Section): nat
  {
    match s.kind case Contents(_) => |s.data| case NoBits => s.size case Relx => |s.rels|
  }

  function Length(s: ObjSection): nat
    requires s.kind.Some?
  {
    match s.kind.value case Contents(_) => |s.data| case NoBits => s.size case Relx => |s.rels|
  }

  /** The name of the section that holds the relocations of another. */
  function RelName(name: string): string { ".rela" + name }

  lemma RelNameInjective(a: string, b: string)
    requires RelName(a) == RelName(b)
    ensures a == b
  {
    assert RelName(a)[5..] == a && RelName(b)[5..] == b;
  }

  // ----- what the linker keeps -----

  predicate DistinctNames(secs: seq<Section>)
  {
    forall i, j :: 1 <= i < j < |secs| ==> secs[i].name != secs[j].name
  }

  /** A relocation section is named after the section it patches. */
  predicate Targets(secs: seq<Section>, k: nat)
    requires k < |secs|
  {
    secs[k].kind.Relx? ==> 1 <= secs[k].info < |secs| && !secs[secs[k].info].kind.Relx? && secs[k].name == RelName(secs[secs[k].info].name)
  }

  predicate ValidSections(secs: seq<Section>)
  {
    secs != [] && DistinctNames(secs) && forall k :: 1 <= k < |secs| ==> Targets(secs, k)
  }

  /** What is asked of an object: distinct section names, relocation sections that patch merged sections and are named after them. */
  predicate ValidObject(obj: Object)
  {
    obj.sections != [] && obj.syms != [] && obj.sections[0].kind.None? &&
    (forall i, j :: 0 <= i < j < |obj.sections| && obj.sections[i].kind.Some? && obj.sections[j].kind.Some? ==>
      obj.sections[i].name != obj.sections[j].name) &&
    (forall i :: 0 <= i < |obj.sections| && obj.sections[i].kind == Some(Relx) ==> ValidTarget(obj, i)) &&
    (forall i :: 0 <= i < |obj.syms| ==> ValidSym(obj, obj.syms[i]))
  }

  predicate ValidTarget(obj: Object, i: nat)
    requires i < |obj.sections|
  {
    obj.sections[i].info < |obj.sections| && obj.sections[obj.sections[i].info].kind.Some? &&
    obj.sections[obj.sections[i].info].kind != Some(Relx) &&
    obj.sections[i].name == RelName(obj.sections[obj.sections[i].info].name)
  }

  predicate ValidSym(obj: Object, s: ObjSym)
  {
    IsName(s.name) && (s.decl.shndx < SHN_LORESERVE ==> s.decl.shndx < |obj.sections|)
  }

  // ----- first pass: section contents -----

  /** Where an input section went. */
  datatype Place = Dropped | Placed(sec: nat, offset: nat, isNew: bool)

  /** s' is s with more at its end. */
  predicate Extended(s: Section, s': Section)
  {
    s'.name == s.name && s'.kind == s.kind && s'.info == s.info && s.align <= s'.align &&
    s.data <= s'.data && s.size <= s'.size && s.rels <= s'.rels
  }

  predicate AllExtended(secs: seq<Section>, secs': seq<Section>)
  {
    |secs| <= |secs'| && forall k :: 0 <= k < |secs| ==> Extended(secs[k], secs'[k])
  }

  /** The end of section s is the input section, on its alignment. */
  predicate HasAtEnd(s: Section, os: ObjSection, offset: nat)
    requires os.kind.Some?
  {
    s.name == os.name && s.kind == os.kind.value && Align(os.align) <= s.align && offset + Length(os) == End(s) &&
    match s.kind
    case Contents(_) => offset <= |s.data| && s.data[offset..] == os.data && AlignedTo(offset, os.align)
    case NoBits => AlignedTo(offset, os.align)
    case Relx => offset <= |s.rels| && s.rels[offset..] == os.rels
  }

  function Align(a: nat): nat { if a < 1 then 1 else a }

  predicate AlignedTo(offset: nat, align: nat) { offset % Align(align) == 0 }

  /** The section after `os` is put at its end: padding with zeros up to the alignment. */
  function Append(s: Section, os: ObjSection): Section
    requires os.kind == Some(s.kind)
  {
    var al := Align(os.align);
    var s1 := s.(align := if al > s.align then al else s.align);
    match s.kind
    case Contents(_) => s1.(data := s.data + Zeros(RoundUp(|s.data|, al) - |s.data|) + os.data)
    case NoBits => s1.(size := RoundUp(s.size, al) + os.size)
    case Relx => s1.(rels := s.rels + os.rels)
  }

  function Zeros(n: int): (z: seq<Byte>)
    ensures |z| == (if n < 0 then 0 else n) && forall x :: 0 <= x < |z| ==> z[x] == 0
  {
    if n <= 0 then [] else Zeros(n - 1) + [0]
  }

  function AppendOffset(s: Section, os: ObjSection): nat
    requires os.kind == Some(s.kind)
  {
    if s.kind.Relx? then |s.rels| else RoundUp(End(s), Align(os.align))
  }

  lemma Appended(s: Section, os: ObjSection)
    requires os.kind == Some(s.kind)
    ensures Extended(s, Append(s, os)) && HasAtEnd(Append(s, os), os.(name := s.name), AppendOffset(s, os))
    ensures Grown(s, Append(s, os), os, AppendOffset(s, os))
  {
    var al := Align(os.align);
    RoundUpBounds(End(s), al);
    DivModUnique(RoundUp(End(s), al), al, CeilDiv(End(s), al), 0);
    var z := Zeros(RoundUp(|s.data|, al) - |s.data|);
    assert (s.data + z + os.data)[|s.data + z|..] == os.data;
  }

  /** The record kept for one input section. */
  predicate PlaceHolds(secs0: seq<Section>, secs: seq<Section>, os: ObjSection, p: Place)
  {
    if os.kind.None? then p.Dropped?
    else p.Placed? && 1 <= p.sec < |secs| && HasAtEnd(secs[p.sec], os, p.offset) && (p.isNew <==> p.sec >= |secs0|) &&
         PlacedNext(secs0, secs, os, p)
  }

  /** The place is the first aligned one after what the section held before. */
  predicate PlacedNext(secs0: seq<Section>, secs: seq<Section>, os: ObjSection, p: Place)
    requires p.Placed? && os.kind.Some?
  {
    p.sec < |secs| &&
    if p.sec >= |secs0| then p.offset == 0 && secs[p.sec].align == Align(os.align)
    else os.kind.value == secs0[p.sec].kind && p.offset == AppendOffset(secs0[p.sec], os) && Grown(secs0[p.sec], secs[p.sec], os, p.offset)
  }

  /** A section that was there gets the larger of the two alignments, and zeros up to the place. */
  predicate Grown(s: Section, s': Section, os: ObjSection, offset: nat)
  {
    s'.align == (if Align(os.align) > s.align then Align(os.align) else s.align) &&
    (s.kind.Contents? ==> offset <= |s'.data| && forall x :: |s.data| <= x < offset ==> s'.data[x] == 0)
  }

  /** Some input section went to output section k. */
  predicate MadeFor(sm: seq<Place>, k: nat) { exists i :: 0 <= i < |sm| && sm[i].Placed? && sm[i].sec == k }

  /** Only sections that input sections went to are new, or have changed. */
  predicate NothingElse(secs0: seq<Section>, secs: seq<Section>, sm: seq<Place>)
    requires |secs0| <= |secs|
  {
    (forall k :: 0 <= k < |secs0| && !MadeFor(sm, k) ==> secs[k] == secs0[k]) &&
    forall k :: |secs0| <= k < |secs| ==> MadeFor(sm, k)
  }

  /** The first n input sections have been merged. */
  predicate MergedSoFar(secs0: seq<Section>, secs: seq<Section>, obj: Object, sm: seq<Place>, n: nat)
  {
    |sm| == n <= |obj.sections| && secs0 != [] && AllExtended(secs0, secs) && DistinctNames(secs) &&
    (forall i :: 0 <= i < n ==> PlaceHolds(secs0, secs, obj.sections[i], sm[i])) && NothingElse(secs0, secs, sm)
  }

  lemma SkippedSection(secs0: seq<Section>, secs: seq<Section>, obj: Object, sm: seq<Place>, n: nat)
    requires MergedSoFar(secs0, secs, obj, sm, n) && n < |obj.sections| && obj.sections[n].kind.None?
    ensures MergedSoFar(secs0, secs, obj, sm + [Dropped], n + 1)
  {
    MadeForMore(sm, Dropped);
    forall k: nat ensures MadeFor(sm + [Dropped], k) <==> MadeFor(sm, k) { MadeForLess(sm, Dropped, k); }
  }

  lemma MadeForMore(sm: seq<Place>, p: Place)
    ensures forall k: nat :: MadeFor(sm, k) ==> MadeFor(sm + [p], k)
    ensures p.Placed? ==> MadeFor(sm + [p], p.sec)
  {
    var sm' := sm + [p];
    forall k: nat | MadeFor(sm, k) ensures MadeFor(sm', k) {
      var i :| 0 <= i < |sm| && sm[i].Placed? && sm[i].sec == k;
      assert sm'[i] == sm[i];
    }
    assert sm'[|sm|] == p;
  }

  lemma MadeForLess(sm: seq<Place>, p: Place, k: nat)
    ensures MadeFor(sm + [p], k) <==> MadeFor(sm, k) || (p.Placed? && p.sec == k)
  {
    MadeForMore(sm, p);
  }

  /** An input section of another name has left the section as it was. */
  lemma NotMadeFor(secs0: seq<Section>, secs: seq<Section>, obj: Object, sm: seq<Place>, n: nat, k: nat)
    requires MergedSoFar(secs0, secs, obj, sm, n) && ValidObject(obj) && n < |obj.sections| && 1 <= k < |secs0|
    requires k < |secs| && secs[k].name == obj.sections[n].name && obj.sections[n].kind.Some?
    ensures secs[k] == secs0[k]
  {
    hide HasAtEnd, PlacedNext;
    if MadeFor(sm, k) {
      var i :| 0 <= i < |sm| && sm[i].Placed? && sm[i].sec == k;
      assert PlaceHolds(secs0, secs, obj.sections[i], sm[i]);
      PlaceName(secs0, secs, obj.sections[i], sm[i]);
    }
  }

  /** A place recorded before is untouched when a section of another name grows. */
  lemma OtherPlace(secs0: seq<Section>, secs: seq<Section>, secs': seq<Section>, os: ObjSection, p: Place, name: string)
    requires PlaceHolds(secs0, secs, os, p) && |secs| <= |secs'| && (os.kind.Some? ==> os.name != name)
    requires forall k :: 0 <= k < |secs| && secs[k].name != name ==> secs'[k] == secs[k]
    ensures PlaceHolds(secs0, secs', os, p)
  {}

  lemma FoundSection(secs0: seq<Section>, secs: seq<Section>, obj: Object, sm: seq<Place>, n: nat, k: nat)
    requires MergedSoFar(secs0, secs, obj, sm, n) && ValidObject(obj) && n < |obj.sections| && 1 <= k < |secs0|
    requires k < |secs| && secs[k].name == obj.sections[n].name && obj.sections[n].kind == Some(secs[k].kind)
    ensures var os := obj.sections[n];
      MergedSoFar(secs0, secs[k := Append(secs[k], os)], obj, sm + [Placed(k, AppendOffset(secs[k], os), false)], n + 1)
  {
    hide HasAtEnd, Append, AppendOffset, MadeFor;
    var os := obj.sections[n];
    var secs', p := secs[k := Append(secs[k], os)], Placed(k, AppendOffset(secs[k], os), false);
    NotMadeFor(secs0, secs, obj, sm, n, k);
    Appended(secs[k], os);
    assert os.(name := secs[k].name) == os;
    forall i | 0 <= i < n ensures PlaceHolds(secs0, secs', obj.sections[i], sm[i]) {
      OtherPlace(secs0, secs, secs', obj.sections[i], sm[i], os.name);
    }
    forall m: nat ensures MadeFor(sm + [p], m) <==> MadeFor(sm, m) || m == k { MadeForLess(sm, p, m); }
  }

  lemma OffsetAfter(s: Section, os: ObjSection)
    requires os.kind == Some(s.kind)
    ensures End(s) <= AppendOffset(s, os)
  {
    RoundUpBounds(End(s), Align(os.align));
  }

  function EmptySection(os: ObjSection): Section
    requires os.kind.Some?
  {
    Section(os.name, os.kind.value, Align(os.align), [], 0, [], 0)
  }

  lemma NewSection(secs0: seq<Section>, secs: seq<Section>, obj: Object, sm: seq<Place>, n: nat)
    requires MergedSoFar(secs0, secs, obj, sm, n) && ValidObject(obj) && n < |obj.sections| && obj.sections[n].kind.Some?
    requires forall k :: 1 <= k < |secs| ==> secs[k].name != obj.sections[n].name
    ensures var os := obj.sections[n];
      MergedSoFar(secs0, secs + [Append(EmptySection(os), os)], obj, sm + [Placed(|secs|, AppendOffset(EmptySection(os), os), true)], n + 1)
  {
    hide HasAtEnd, Append, AppendOffset, MadeFor;
    var os := obj.sections[n];
    var s := Append(EmptySection(os), os);
    var secs', p := secs + [s], Placed(|secs|, AppendOffset(EmptySection(os), os), true);
    Appended(EmptySection(os), os);
    assert os.(name := EmptySection(os).name) == os;
    forall i | 0 <= i < n ensures PlaceHolds(secs0, secs', obj.sections[i], sm[i]) {
      OtherPlace(secs0, secs, secs', obj.sections[i], sm[i], os.name);
    }
    NewOffset(os);
    forall m: nat ensures MadeFor(sm + [p], m) <==> MadeFor(sm, m) || m == |secs| { MadeForLess(sm, p, m); }
  }

  lemma NewOffset(os: ObjSection)
    requires os.kind.Some?
    ensures AppendOffset(EmptySection(os), os) == 0
  {
    RoundUpBounds(0, Align(os.align));
    DivModUnique(RoundUp(0, Align(os.align)), Align(os.align), CeilDiv(0, Align(os.align)), 0);
  }

  /** Sections of the object appended to those already there; not ok when a name is there with another type. */
  method MergeSections(secs0: seq<Section>, obj: Object) returns (ok: bool, secs: seq<Section>, sm: seq<Place>)
    requires ValidObject(obj) && secs0 != [] && DistinctNames(secs0)
    ensures ok ==> MergedSoFar(secs0, secs, obj, sm, |obj.sections|)
    ensures ok <==> TypesMatch(secs0, obj)
  {
    assert MergedSoFar(secs0, secs0, obj, [Dropped], 1);
    assert obj.sections != [] && obj.sections[0].kind.None?;
    hide HasAtEnd, Append, AppendOffset, ValidObject, MergedSoFar;
    secs, sm := secs0, [Dropped];
    var i := 1;
    while i < |obj.sections|
      invariant 1 <= i <= |obj.sections| && MergedSoFar(secs0, secs, obj, sm, i)
      invariant forall m, k :: 0 <= m < i && 1 <= k < |secs0| ==> TypesAgree(secs0[k], obj.sections[m])
    {
      var os := obj.sections[i];
      if os.kind.None? {
        SkippedSection(secs0, secs, obj, sm, i);
        sm := sm + [Dropped];
      } else {
        var j := 1;
        while j < |secs| && secs[j].name != os.name
          invariant 1 <= j && forall k :: 1 <= k < j && k < |secs| ==> secs[k].name != os.name
        {
          j := j + 1;
        }
        MergedFacts(secs0, secs, obj, sm, i, j);
        var isNew := j >= |secs|;
        ghost var before := secs;
        if isNew {
          j := |secs|;
          NewSection(secs0, secs, obj, sm, i);
          secs := secs + [EmptySection(os)];
        } else if secs[j].kind != os.kind.value {
          return false, secs, sm;
        } else {
          FoundSection(secs0, secs, obj, sm, i, j);
        }
        sm := sm + [Placed(j, AppendOffset(secs[j], os), isNew)];
        secs := secs[j := Append(secs[j], os)];
        assert isNew ==> secs == before + [Append(EmptySection(os), os)];
      }
      i := i + 1;
    }
    ok := true;
  }

  /** A section of the same name has the same type. */
  predicate TypesAgree(s: Section, os: ObjSection)
  {
    os.kind.Some? && s.name == os.name ==> os.kind.value == s.kind
  }

  predicate TypesMatch(secs: seq<Section>, obj: Object)
  {
    forall i, k :: 0 <= i < |obj.sections| && 1 <= k < |secs| ==> TypesAgree(secs[k], obj.sections[i])
  }

  /** The search for a section of the name finds an old one or none. */
  lemma MergedFacts(secs0: seq<Section>, secs: seq<Section>, obj: Object, sm: seq<Place>, n: nat, j: nat)
    requires MergedSoFar(secs0, secs, obj, sm, n) && ValidObject(obj) && n < |obj.sections| && obj.sections[n].kind.Some?
    requires 1 <= j && forall k :: 1 <= k < j && k < |secs| ==> secs[k].name != obj.sections[n].name
    ensures j < |secs| && secs[j].name == obj.sections[n].name ==>
      j < |secs0| && secs0[j].name == secs[j].name && secs0[j].kind == secs[j].kind
    ensures forall k :: 1 <= k < |secs0| ==> k < |secs| && secs0[k].name == secs[k].name
    ensures DistinctNames(secs)
  {
    if j < |secs| && j >= |secs0| {
      assert MadeFor(sm, j);
      var i :| 0 <= i < |sm| && sm[i].Placed? && sm[i].sec == j;
      assert PlaceHolds(secs0, secs, obj.sections[i], sm[i]);
    }
    forall k | 1 <= k < |secs0| ensures k < |secs| && secs0[k].name == secs[k].name { assert Extended(secs0[k], secs[k]); }
  }

  // ----- second pass: links of the new sections -----

  /** The target of a merged relocation section is where its own target went. */
  predicate LinkHolds(secs: seq<Section>, obj: Object, sm: seq<Place>, i: nat)
    requires i < |obj.sections| && |sm| == |obj.sections|
  {
    obj.sections[i].kind == Some(Relx) ==>
      sm[i].Placed? && sm[i].sec < |secs| && obj.sections[i].info < |sm| && sm[obj.sections[i].info].Placed? &&
      secs[sm[i].sec].info == sm[obj.sections[i].info].sec
  }

  predicate TargetsLinked(secs: seq<Section>, obj: Object, sm: seq<Place>)
    requires |sm| == |obj.sections|
  {
    forall i :: 0 <= i < |obj.sections| ==> LinkHolds(secs, obj, sm, i)
  }

  /** Sections that differ at most in the link of section k. */
  lemma InfoChanged(secs0: seq<Section>, secs: seq<Section>, obj: Object, sm: seq<Place>, k: nat, info: nat)
    requires MergedSoFar(secs0, secs, obj, sm, |obj.sections|) && |secs0| <= k < |secs|
    ensures MergedSoFar(secs0, secs[k := secs[k].(info := info)], obj, sm, |obj.sections|)
  {
    hide MadeFor;
    var secs' := secs[k := secs[k].(info := info)];
    forall i | 0 <= i < |obj.sections| ensures PlaceHolds(secs0, secs', obj.sections[i], sm[i]) {
      assert PlaceHolds(secs0, secs, obj.sections[i], sm[i]);
    }
  }

  /** A relocation section found under its name already patches the right section. */
  lemma FoundLink(secs0: seq<Section>, secs: seq<Section>, obj: Object, sm: seq<Place>, i: nat)
    requires MergedSoFar(secs0, secs, obj, sm, |obj.sections|) && ValidObject(obj) && ValidSections(secs0)
    requires i < |obj.sections| && obj.sections[i].kind == Some(Relx) && !sm[i].isNew
    ensures sm[i].sec < |secs0| && secs[sm[i].sec].info == secs0[sm[i].sec].info
    ensures obj.sections[i].info < |sm| && sm[obj.sections[i].info].Placed? && secs0[sm[i].sec].info == sm[obj.sections[i].info].sec
  {
    hide HasAtEnd, MadeFor;
    var os, k := obj.sections[i], sm[i].sec;
    var target := obj.sections[os.info];
    PlaceName(secs0, secs, os, sm[i]);
    assert ValidTarget(obj, i);
    PlaceName(secs0, secs, target, sm[os.info]);
    assert Extended(secs0[k], secs[k]) && Targets(secs0, k);
    RelNameInjective(target.name, secs0[secs0[k].info].name);
    assert Extended(secs0[secs0[k].info], secs[secs0[k].info]);
  }

  lemma PlaceName(secs0: seq<Section>, secs: seq<Section>, os: ObjSection, p: Place)
    requires PlaceHolds(secs0, secs, os, p) && os.kind.Some?
    ensures p.Placed? && 1 <= p.sec < |secs| && secs[p.sec].name == os.name && secs[p.sec].kind == os.kind.value
  {}

  /** Two input sections never share an output section. */
  lemma PlacesApart(secs0: seq<Section>, secs: seq<Section>, obj: Object, sm: seq<Place>, i: nat, j: nat)
    requires MergedSoFar(secs0, secs, obj, sm, |obj.sections|) && ValidObject(obj) && i < |sm| && j < |sm| && i != j
    ensures sm[i].Placed? && sm[j].Placed? ==> sm[i].sec != sm[j].sec
  {
    hide HasAtEnd, MadeFor;
    assert PlaceHolds(secs0, secs, obj.sections[i], sm[i]) && PlaceHolds(secs0, secs, obj.sections[j], sm[j]);
    if sm[i].Placed? && sm[j].Placed? {
      PlaceName(secs0, secs, obj.sections[i], sm[i]);
      PlaceName(secs0, secs, obj.sections[j], sm[j]);
    }
  }

  method UpdateLinks(ghost secs0: seq<Section>, secs1: seq<Section>, obj: Object, sm: seq<Place>) returns (secs: seq<Section>)
    requires ValidObject(obj) && ValidSections(secs0) && MergedSoFar(secs0, secs1, obj, sm, |obj.sections|)
    ensures MergedSoFar(secs0, secs, obj, sm, |obj.sections|) && TargetsLinked(secs, obj, sm)
  {
    hide MergedSoFar, ValidObject, ValidSections;
    secs := secs1;
    var i := 0;
    MergedSize(secs0, secs1, obj, sm);
    while i < |obj.sections|
      invariant i <= |obj.sections| && MergedSoFar(secs0, secs, obj, sm, |obj.sections|)
      invariant forall m :: 0 <= m < i ==> LinkHolds(secs, obj, sm, m)
    {
      var os := obj.sections[i];
      LinkFacts(secs0, secs, obj, sm, i);
      if os.kind == Some(Relx) && sm[i].isNew {
        ghost var before := secs;
        InfoChanged(secs0, secs, obj, sm, sm[i].sec, sm[os.info].sec);
        forall m | 0 <= m < i ensures m < |sm| && (sm[m].Placed? ==> sm[m].sec != sm[i].sec) {
          PlacesApart(secs0, before, obj, sm, m, i);
        }
        secs := secs[sm[i].sec := secs[sm[i].sec].(info := sm[os.info].sec)];
        assert forall m :: 0 <= m < i ==> LinkHolds(before, obj, sm, m) ==> LinkHolds(secs, obj, sm, m);
      } else if os.kind == Some(Relx) {
        FoundLink(secs0, secs, obj, sm, i);
      }
      i := i + 1;
    }
  }

  lemma MergedSize(secs0: seq<Section>, secs: seq<Section>, obj: Object, sm: seq<Place>)
    requires MergedSoFar(secs0, secs, obj, sm, |obj.sections|)
    ensures |sm| == |obj.sections|
  {}

  lemma LinkFacts(secs0: seq<Section>, secs: seq<Section>, obj: Object, sm: seq<Place>, i: nat)
    requires MergedSoFar(secs0, secs, obj, sm, |obj.sections|) && ValidObject(obj) && i < |obj.sections|
    ensures obj.sections[i].kind == Some(Relx) ==>
      sm[i].Placed? && 1 <= sm[i].sec < |secs| && (sm[i].isNew <==> |secs0| <= sm[i].sec) &&
      obj.sections[i].info < |sm| && sm[obj.sections[i].info].Placed?
  {
    hide HasAtEnd, MadeFor;
    assert PlaceHolds(secs0, secs, obj.sections[i], sm[i]);
    if obj.sections[i].kind == Some(Relx) {
      assert ValidTarget(obj, i);
      assert PlaceHolds(secs0, secs, obj.sections[obj.sections[i].info], sm[obj.sections[i].info]);
    }
  }

  // ----- symbols -----

  /** A symbol of the object in terms of the output, or none when its section was dropped. */
  function Converted(sm: seq<Place>, d: Decl): Option<Decl>
    requires d.shndx < SHN_LORESERVE ==> d.shndx < |sm|
  {
    if d.shndx == SHN_UNDEF || d.shndx >= SHN_LORESERVE then Some(d)
    else match sm[d.shndx]
         case Dropped => None
         case Placed(sec, offset, _) => Some(d.(shndx := sec, value := d.value + offset))
  }

  /** Conversion leaves everything but section and value alone, and symbols without a section of the object altogether. */
  lemma ConvertedKeeps(sm: seq<Place>, d: Decl)
    requires d.shndx < SHN_LORESERVE ==> d.shndx < |sm|
    ensures d.shndx == SHN_UNDEF || d.shndx >= SHN_LORESERVE ==> Converted(sm, d) == Some(d)
    ensures match Converted(sm, d) case None => true case Some(c) => c.size == d.size && c.info == d.info && c.other == d.other
  {}

  predicate SymsFit(obj: Object, sm: seq<Place>)
  {
    |sm| == |obj.sections| && obj.syms != [] && forall i :: 0 <= i < |obj.syms| ==> ValidSym(obj, obj.syms[i])
  }

  /** The global and weak declarations of one name among the first n symbols, converted, in order. */
  function DeclsOf(obj: Object, sm: seq<Place>, n: nat, name: string): seq<Decl>
    requires SymsFit(obj, sm) && n <= |obj.syms|
  {
    if n <= 1 then []
    else
      var s := obj.syms[n - 1];
      DeclsOf(obj, sm, n - 1, name) +
      if s.name == name && Bind(s.decl.info) != STB_LOCAL && Converted(sm, s.decl).Some? then [Converted(sm, s.decl).value] else []
  }

  /** Declarations on top of what the table already holds for the name. */
  function FoldFrom(e: Option<Decl>, ds: seq<Decl>): Option<Decl>
  {
    if ds == [] then e else Step(FoldFrom(e, ds[..|ds| - 1]), ds[|ds| - 1], false)
  }

  lemma FoldFromSnoc(e: Option<Decl>, ds: seq<Decl>, d: Decl)
    ensures FoldFrom(e, ds + [d]) == Step(FoldFrom(e, ds), d, false)
  {
    assert (ds + [d])[..|ds|] == ds;
  }

  /** Objects loaded one after the other declare what one object with all their symbols would. */
  lemma {:induction false} FoldInTurn(ds: seq<Decl>, es: seq<Decl>)
    ensures FoldFrom(Fold(ds), es) == Fold(ds + es)
    decreases |es|
  {
    if es == [] {
      assert ds + es == ds;
    } else {
      FoldInTurn(ds, es[..|es| - 1]);
      assert (ds + es)[..|ds + es| - 1] == ds + es[..|es| - 1];
    }
  }

  /** Symbol number o of the table stands for symbol s of the object. */
  predicate Stands(syms: seq<Sym>, strtab: string, sm: seq<Place>, s: ObjSym, o: nat)
    requires s.decl.shndx < SHN_LORESERVE ==> s.decl.shndx < |sm|
  {
    match Converted(sm, s.decl)
    case None => o == 0
    case Some(d) =>
      0 < o < |syms| &&
      if Bind(d.info) == STB_LOCAL then
        Keys(syms, strtab)[o] == Key(false, s.name) && DeclOf(syms[o]) == d.(info := Info(STB_LOCAL, Type(d.info)))
      else Keys(syms, strtab)[o] == Key(true, s.name)
  }

  lemma StandsStill(syms: seq<Sym>, strtab: string, syms': seq<Sym>, strtab': string, sm: seq<Place>, s: ObjSym, o: nat, changed: nat)
    requires s.decl.shndx < SHN_LORESERVE ==> s.decl.shndx < |sm|
    requires Stands(syms, strtab, sm, s, o) && Keys(syms, strtab) <= Keys(syms', strtab')
    requires changed < |syms'| && forall m :: 0 <= m < |syms| && m != changed ==> syms'[m] == syms[m]
    requires changed >= |syms| || Keys(syms', strtab')[changed].hashed
    ensures Stands(syms', strtab', sm, s, o)
  {
    hide KeyOf;
    if o < |syms| { assert Keys(syms', strtab')[o] == Keys(syms, strtab)[o]; }
  }

  /** What the table holds of every name after n symbols of the object. */
  ghost predicate SymsDone(syms0: seq<Sym>, strtab0: string, syms: seq<Sym>, strtab: string, obj: Object, sm: seq<Place>, oldToNew: seq<nat>, n: nat)
    requires SymsFit(obj, sm)
  {
    1 <= n <= |obj.syms| && |oldToNew| == n && oldToNew[0] == 0 &&
    (forall i :: 1 <= i < n ==> StandsAt(syms, strtab, obj, sm, oldToNew, i)) &&
    forall name :: EntryAt(syms, strtab, name) == FoldFrom(EntryAt(syms0, strtab0, name), DeclsOf(obj, sm, n, name))
  }

  /** Symbols there before keep their number and name, local ones everything; every new symbol stands for one of the object. */
  ghost predicate SymsKept(syms0: seq<Sym>, strtab0: string, syms: seq<Sym>, strtab: string, oldToNew: seq<nat>)
  {
    |syms0| <= |syms| && Keys(syms0, strtab0) <= Keys(syms, strtab) &&
    (forall m :: 0 <= m < |syms0| && !Keys(syms0, strtab0)[m].hashed ==> syms[m] == syms0[m]) &&
    forall o :: |syms0| <= o < |syms| ==> o in oldToNew
  }

  lemma SymsKeptStep(syms0: seq<Sym>, strtab0: string, syms: seq<Sym>, strtab: string, oldToNew: seq<nat>, syms': seq<Sym>, strtab': string, o: nat)
    requires SymsKept(syms0, strtab0, syms, strtab, oldToNew) && Keys(syms, strtab) <= Keys(syms', strtab')
    requires o < |syms'| == |syms| + (if o < |syms| then 0 else 1) && forall m :: 0 <= m < |syms| && m != o ==> syms'[m] == syms[m]
    requires o >= |syms| || Keys(syms', strtab')[o].hashed
    ensures SymsKept(syms0, strtab0, syms', strtab', oldToNew + [o])
  {
    hide KeyOf;
    var otn := oldToNew + [o];
    assert otn[|oldToNew|] == o;
    forall n | |syms0| <= n < |syms'| ensures n in otn {
      if n != o {
        assert n in oldToNew;
        var i :| 0 <= i < |oldToNew| && oldToNew[i] == n;
        assert otn[i] == n;
      }
    }
    if o < |syms0| { assert Keys(syms0, strtab0)[o] == Keys(syms, strtab)[o] == Keys(syms', strtab')[o]; }
  }

  lemma SymsKeptMore(syms0: seq<Sym>, strtab0: string, syms: seq<Sym>, strtab: string, oldToNew: seq<nat>, o: nat)
    requires SymsKept(syms0, strtab0, syms, strtab, oldToNew)
    ensures SymsKept(syms0, strtab0, syms, strtab, oldToNew + [o])
  {
    hide Keys;
    forall n | |syms0| <= n < |syms| ensures n in oldToNew + [o] {
      assert n in oldToNew;
      var i :| 0 <= i < |oldToNew| && oldToNew[i] == n;
      assert (oldToNew + [o])[i] == n;
    }
  }

  /** No declaration is refused as a second definition. */
  predicate CleanFrom(e: Option<Decl>, ds: seq<Decl>)
  {
    ds == [] || (CleanFrom(e, ds[..|ds| - 1]) && !Refused(FoldFrom(e, ds[..|ds| - 1]), ds[|ds| - 1]))
  }

  lemma CleanFromSnoc(e: Option<Decl>, ds: seq<Decl>, d: Decl)
    ensures CleanFrom(e, ds + [d]) <==> CleanFrom(e, ds) && !Refused(FoldFrom(e, ds), d)
  {
    assert (ds + [d])[..|ds|] == ds;
  }

  /** So that the errors of two objects loaded in turn are those of one object with all their symbols. */
  lemma {:induction false} CleanInTurn(ds: seq<Decl>, es: seq<Decl>)
    ensures Clean(ds) && CleanFrom(Fold(ds), es) <==> Clean(ds + es)
    decreases |es|
  {
    hide Clean, Decide, Fold, FoldFrom;
    if es == [] {
      assert ds + es == ds;
    } else {
      var init, d := es[..|es| - 1], es[|es| - 1];
      assert es == init + [d] && ds + es == (ds + init) + [d];
      CleanInTurn(ds, init);
      FoldInTurn(ds, init);
      CleanSnoc(ds + init, d);
      CleanFromSnoc(Fold(ds), init, d);
    }
  }

  /** Errors are counted exactly when some name is defined twice. */
  ghost predicate ErrorsHold(errors: nat, syms0: seq<Sym>, strtab0: string, obj: Object, sm: seq<Place>, n: nat)
    requires SymsFit(obj, sm) && n <= |obj.syms|
  {
    errors == 0 <==> forall name :: CleanFrom(EntryAt(syms0, strtab0, name), DeclsOf(obj, sm, n, name))
  }

  lemma ErrorsStep(errors: nat, syms0: seq<Sym>, strtab0: string, syms: seq<Sym>, strtab: string, obj: Object, sm: seq<Place>, oldToNew: seq<nat>,
                   n: nat, twice: bool)
    requires SymsFit(obj, sm) && n < |obj.syms| && SymsDone(syms0, strtab0, syms, strtab, obj, sm, oldToNew, n)
    requires ErrorsHold(errors, syms0, strtab0, obj, sm, n) && ValidSym(obj, obj.syms[n])
    requires var s := obj.syms[n];
      twice <==> Converted(sm, s.decl).Some? && Bind(s.decl.info) != STB_LOCAL &&
                 Refused(EntryAt(syms, strtab, s.name), Converted(sm, s.decl).value)
    ensures ErrorsHold(errors + if twice then 1 else 0, syms0, strtab0, obj, sm, n + 1)
  {
    hide Keys, EntryAt, FoldFrom, Step, StandsAt, Decide, Refused, CleanFrom;
    var s := obj.syms[n];
    forall name
      ensures CleanFrom(EntryAt(syms0, strtab0, name), DeclsOf(obj, sm, n + 1, name)) <==>
        CleanFrom(EntryAt(syms0, strtab0, name), DeclsOf(obj, sm, n, name)) && !(twice && name == s.name)
    {
      DeclsStep(obj, sm, n, name);
      if s.name == name && Bind(s.decl.info) != STB_LOCAL && Converted(sm, s.decl).Some? {
        CleanFromSnoc(EntryAt(syms0, strtab0, name), DeclsOf(obj, sm, n, name), Converted(sm, s.decl).value);
      }
    }
  }

  predicate StandsAt(syms: seq<Sym>, strtab: string, obj: Object, sm: seq<Place>, oldToNew: seq<nat>, i: nat)
    requires SymsFit(obj, sm) && i < |obj.syms| && i < |oldToNew|
  {
    assert ValidSym(obj, obj.syms[i]);
    Stands(syms, strtab, sm, obj.syms[i], oldToNew[i])
  }

  /** One symbol more, given what add_elf_sym did. */
  lemma SymAdded(syms0: seq<Sym>, strtab0: string, syms: seq<Sym>, strtab: string, syms': seq<Sym>, strtab': string,
                 obj: Object, sm: seq<Place>, oldToNew: seq<nat>, n: nat, o: nat)
    requires SymsFit(obj, sm) && SymsDone(syms0, strtab0, syms, strtab, obj, sm, oldToNew, n) && n < |obj.syms|
    requires ValidSym(obj, obj.syms[n]) && Converted(sm, obj.syms[n].decl).Some?
    requires 0 < o < |syms'| && |syms| <= |syms'| && forall m :: 0 <= m < |syms| && m != o ==> syms'[m] == syms[m]
    requires var d, name := Converted(sm, obj.syms[n].decl).value, obj.syms[n].name;
      if Bind(d.info) == STB_LOCAL then
        o == |syms| && Extends(syms, strtab, syms', strtab', None) && Keys(syms', strtab')[o] == Key(false, name) &&
        DeclOf(syms'[o]) == d.(info := Info(STB_LOCAL, Type(d.info)))
      else
        Extends(syms, strtab, syms', strtab', Some(name)) && Keys(syms', strtab')[o] == Key(true, name) &&
        EntryAt(syms', strtab', name) == Step(EntryAt(syms, strtab, name), d, false)
    ensures SymsDone(syms0, strtab0, syms', strtab', obj, sm, oldToNew + [o], n + 1)
  {
    hide Keys, EntryAt, FoldFrom, Step, Stands;
    var s, d := obj.syms[n], Converted(sm, obj.syms[n].decl).value;
    var otn := oldToNew + [o];
    forall i | 1 <= i < n + 1 ensures StandsAt(syms', strtab', obj, sm, otn, i) {
      assert ValidSym(obj, obj.syms[i]);
      if i < n {
        assert StandsAt(syms, strtab, obj, sm, oldToNew, i);
        StandsStill(syms, strtab, syms', strtab', sm, obj.syms[i], oldToNew[i], o);
      } else {
        StandsNow(syms', strtab', sm, s, o);
      }
    }
    forall name
      ensures EntryAt(syms', strtab', name) == FoldFrom(EntryAt(syms0, strtab0, name), DeclsOf(obj, sm, n + 1, name))
    {
      DeclsStep(obj, sm, n, name);
      if Bind(d.info) != STB_LOCAL && name == s.name {
        FoldFromSnoc(EntryAt(syms0, strtab0, name), DeclsOf(obj, sm, n, name), d);
      }
    }
  }

  lemma StandsNow(syms: seq<Sym>, strtab: string, sm: seq<Place>, s: ObjSym, o: nat)
    requires s.decl.shndx < SHN_LORESERVE ==> s.decl.shndx < |sm|
    requires Converted(sm, s.decl).Some? && 0 < o < |syms|
    requires var d := Converted(sm, s.decl).value;
      if Bind(d.info) == STB_LOCAL then
        Keys(syms, strtab)[o] == Key(false, s.name) && DeclOf(syms[o]) == d.(info := Info(STB_LOCAL, Type(d.info)))
      else Keys(syms, strtab)[o] == Key(true, s.name)
    ensures Stands(syms, strtab, sm, s, o)
  {
    hide Keys;
  }

  lemma DeclsStep(obj: Object, sm: seq<Place>, n: nat, name: string)
    requires SymsFit(obj, sm) && 1 <= n < |obj.syms| && ValidSym(obj, obj.syms[n])
    ensures var s := obj.syms[n];
      DeclsOf(obj, sm, n + 1, name) ==
      (if s.name == name && Bind(s.decl.info) != STB_LOCAL && Converted(sm, s.decl).Some?
       then DeclsOf(obj, sm, n, name) + [Converted(sm, s.decl).value] else DeclsOf(obj, sm, n, name))
  {}

  lemma SymDropped(syms0: seq<Sym>, strtab0: string, syms: seq<Sym>, strtab: string, obj: Object, sm: seq<Place>, oldToNew: seq<nat>, n: nat)
    requires SymsFit(obj, sm) && SymsDone(syms0, strtab0, syms, strtab, obj, sm, oldToNew, n) && n < |obj.syms|
    requires ValidSym(obj, obj.syms[n]) && Converted(sm, obj.syms[n].decl).None?
    ensures SymsDone(syms0, strtab0, syms, strtab, obj, sm, oldToNew + [0], n + 1)
  {
    hide Keys, EntryAt, FoldFrom;
    var otn := oldToNew + [0];
    forall i | 1 <= i < n + 1 ensures StandsAt(syms, strtab, obj, sm, otn, i) {
      if i < n { assert StandsAt(syms, strtab, obj, sm, oldToNew, i); }
    }
    forall name ensures DeclsOf(obj, sm, n + 1, name) == DeclsOf(obj, sm, n, name) { DeclsStep(obj, sm, n, name); }
  }

  /** The symbol loop: every kept symbol of the object gets its number in the table. */
  method AddSymbols(t: Symtab, obj: Object, sm: seq<Place>) returns (oldToNew: seq<nat>, errors: nat)
    requires Resolved(t) && SymsFit(obj, sm)
    modifies t
    ensures Resolved(t)
    ensures SymsDone(old(t.syms), old(t.strtab), t.syms, t.strtab, obj, sm, oldToNew, |obj.syms|)
    ensures SymsKept(old(t.syms), old(t.strtab), t.syms, t.strtab, oldToNew)
    ensures ErrorsHold(errors, old(t.syms), old(t.strtab), obj, sm, |obj.syms|)
  {
    hide Resolved, SymsDone, Extends, EntryAt, Keys, Step, FoldFrom, Decide, SymsKept, ErrorsHold;
    oldToNew, errors := [0], 0;
    SymsBegin(t.syms, t.strtab, obj, sm);
    var i := 1;
    while i < |obj.syms|
      invariant 1 <= i <= |obj.syms| && Resolved(t)
      invariant SymsDone(old(t.syms), old(t.strtab), t.syms, t.strtab, obj, sm, oldToNew, i)
      invariant SymsKept(old(t.syms), old(t.strtab), t.syms, t.strtab, oldToNew)
      invariant ErrorsHold(errors, old(t.syms), old(t.strtab), obj, sm, i)
    {
      var s := obj.syms[i];
      assert ValidSym(obj, s);
      var d := s.decl;
      var keep := true;
      if d.shndx != SHN_UNDEF && d.shndx < SHN_LORESERVE {
        match sm[d.shndx] {
          case Dropped => keep := false;
          case Placed(sec, offset, _) => d := d.(shndx := sec, value := d.value + offset);
        }
      }
      if keep {
        ghost var syms, strtab := t.syms, t.strtab;
        var symIndex, twice := AddElfSym(t, d, Some(s.name), false);
        ExtendsKeys(syms, strtab, t.syms, t.strtab, if Bind(d.info) == STB_LOCAL then None else Some(s.name));
        SymAdded(old(t.syms), old(t.strtab), syms, strtab, t.syms, t.strtab, obj, sm, oldToNew, i, symIndex);
        SymsKeptStep(old(t.syms), old(t.strtab), syms, strtab, oldToNew, t.syms, t.strtab, symIndex);
        ErrorsStep(errors, old(t.syms), old(t.strtab), syms, strtab, obj, sm, oldToNew, i, twice);
        oldToNew := oldToNew + [symIndex];
        if twice { errors := errors + 1; }
      } else {
        SymDropped(old(t.syms), old(t.strtab), t.syms, t.strtab, obj, sm, oldToNew, i);
        SymsKeptMore(old(t.syms), old(t.strtab), t.syms, t.strtab, oldToNew, 0);
        ErrorsStep(errors, old(t.syms), old(t.strtab), t.syms, t.strtab, obj, sm, oldToNew, i, false);
        oldToNew := oldToNew + [0];
      }
      i := i + 1;
    }
  }

  lemma SymsBegin(syms: seq<Sym>, strtab: string, obj: Object, sm: seq<Place>)
    requires SymsFit(obj, sm)
    ensures SymsDone(syms, strtab, syms, strtab, obj, sm, [0], 1) && SymsKept(syms, strtab, syms, strtab, [0])
    ensures ErrorsHold(0, syms, strtab, obj, sm, 1)
  {}

  lemma ExtendsKeys(syms: seq<Sym>, strtab: string, syms': seq<Sym>, strtab': string, except: Option<string>)
    requires Extends(syms, strtab, syms', strtab', except)
    ensures Keys(syms, strtab) <= Keys(syms', strtab')
  {
    hide Keys;
  }

  // ----- third pass: relocations -----

  /** A relocation in terms of the output, or none when its symbol is out of range or was dropped. */
  function Relocated(radix: nat, oldToNew: seq<nat>, offset: nat, r: Rel): Option<Rel>
    requires IsRadix(radix)
  {
    var sym := RSym(radix, r.info);
    if sym >= |oldToNew| || oldToNew[sym] == 0 then None
    else Some(Rel(r.offset + offset, RInfo(radix, oldToNew[sym], RType(radix, r.info)), r.addend))
  }

  predicate AllRelocatable(radix: nat, oldToNew: seq<nat>, rels: seq<Rel>)
    requires IsRadix(radix)
  {
    forall k :: 0 <= k < |rels| ==> Relocated(radix, oldToNew, 0, rels[k]).Some?
  }

  /** The records from `from` on are those of the input section, relocated. */
  predicate RelocatedFrom(radix: nat, oldToNew: seq<nat>, offset: nat, rels: seq<Rel>, from: nat, input: seq<Rel>)
    requires IsRadix(radix)
  {
    |rels| == from + |input| &&
    forall k :: 0 <= k < |input| ==> Relocated(radix, oldToNew, offset, input[k]) == Some(rels[from + k])
  }

  /** The loop over the records of one relocation section, from the merged ones to its end. */
  method RelocateRecords(radix: nat, oldToNew: seq<nat>, offset: nat, rels: seq<Rel>, from: nat) returns (ok: bool, out: seq<Rel>)
    requires IsRadix(radix) && from <= |rels|
    ensures ok <==> AllRelocatable(radix, oldToNew, rels[from..])
    ensures ok ==> from <= |out| && out[..from] == rels[..from] && RelocatedFrom(radix, oldToNew, offset, out, from, rels[from..])
  {
    hide RSym, RType, RInfo;
    out := rels;
    ghost var input := rels[from..];
    var k := from;
    while k < |out|
      invariant from <= k <= |out| == |rels| && out[..from] == rels[..from] && out[k..] == rels[k..]
      invariant forall m :: 0 <= m < k - from ==> Relocated(radix, oldToNew, offset, input[m]) == Some(out[from + m])
      invariant forall m :: 0 <= m < k - from ==> Relocated(radix, oldToNew, 0, input[m]).Some?
    {
      var r := out[k];
      assert r == out[k..][0] == rels[k] == input[k - from];
      var type_, symIndex := RType(radix, r.info), RSym(radix, r.info);
      if symIndex >= |oldToNew| || oldToNew[symIndex] == 0 { return false, out; }
      symIndex := oldToNew[symIndex];
      out := out[k := Rel(r.offset + offset, RInfo(radix, symIndex, type_), r.addend)];
      k := k + 1;
    }
    ok := true;
  }

  /** Input section i, when it holds relocations, has all of them relocated at its place. */
  predicate RelsHold(radix: nat, secs: seq<Section>, obj: Object, sm: seq<Place>, oldToNew: seq<nat>, i: nat)
    requires IsRadix(radix) && i < |obj.sections| && |sm| == |obj.sections|
  {
    obj.sections[i].kind == Some(Relx) ==>
      sm[i].Placed? && sm[i].sec < |secs| && obj.sections[i].info < |sm| && sm[obj.sections[i].info].Placed? &&
      RelocatedFrom(radix, oldToNew, sm[obj.sections[i].info].offset, secs[sm[i].sec].rels, sm[i].offset, obj.sections[i].rels)
  }

  predicate SectionRelocatable(radix: nat, oldToNew: seq<nat>, os: ObjSection)
    requires IsRadix(radix)
  {
    os.kind == Some(Relx) ==> AllRelocatable(radix, oldToNew, os.rels)
  }

  predicate AllSectionsRelocatable(radix: nat, oldToNew: seq<nat>, obj: Object)
    requires IsRadix(radix)
  {
    forall i :: 0 <= i < |obj.sections| ==> SectionRelocatable(radix, oldToNew, obj.sections[i])
  }

  /** In terms of the object alone: every relocation is for a symbol in range, other than the null symbol, whose section is kept. */
  predicate Relocatable(radix: nat, obj: Object)
    requires IsRadix(radix)
  {
    forall i :: 0 <= i < |obj.sections| && obj.sections[i].kind == Some(Relx) ==> RecordsKept(radix, obj, obj.sections[i].rels)
  }

  predicate RecordsKept(radix: nat, obj: Object, rels: seq<Rel>)
    requires IsRadix(radix)
  {
    forall k :: 0 <= k < |rels| ==>
      0 < RSym(radix, rels[k].info) < |obj.syms| && KeptSym(obj, obj.syms[RSym(radix, rels[k].info)])
  }

  predicate KeptSym(obj: Object, s: ObjSym)
  {
    s.decl.shndx == SHN_UNDEF || s.decl.shndx >= SHN_LORESERVE ||
    (s.decl.shndx < |obj.sections| && obj.sections[s.decl.shndx].kind.Some?)
  }

  lemma KeptExactly(radix: nat, secs0: seq<Section>, secs: seq<Section>, syms0: seq<Sym>, strtab0: string, syms: seq<Sym>, strtab: string,
                    obj: Object, sm: seq<Place>, oldToNew: seq<nat>)
    requires IsRadix(radix) && MergedSoFar(secs0, secs, obj, sm, |obj.sections|) && SymsFit(obj, sm)
    requires SymsDone(syms0, strtab0, syms, strtab, obj, sm, oldToNew, |obj.syms|)
    ensures AllSectionsRelocatable(radix, oldToNew, obj) <==> Relocatable(radix, obj)
  {
    hide Keys, EntryAt, FoldFrom, RSym, HasAtEnd, PlacedNext, MadeFor;
    forall n | 1 <= n < |obj.syms| ensures oldToNew[n] > 0 <==> KeptSym(obj, obj.syms[n]) {
      assert ValidSym(obj, obj.syms[n]) && StandsAt(syms, strtab, obj, sm, oldToNew, n);
      var d := obj.syms[n].decl;
      if d.shndx < SHN_LORESERVE { assert PlaceHolds(secs0, secs, obj.sections[d.shndx], sm[d.shndx]); }
    }
    forall i | 0 <= i < |obj.sections| && obj.sections[i].kind == Some(Relx)
      ensures AllRelocatable(radix, oldToNew, obj.sections[i].rels) <==> RecordsKept(radix, obj, obj.sections[i].rels)
    {
      RecordsExactly(radix, obj, oldToNew, obj.sections[i].rels);
    }
  }

  lemma RecordsExactly(radix: nat, obj: Object, oldToNew: seq<nat>, rels: seq<Rel>)
    requires IsRadix(radix) && 1 <= |oldToNew| == |obj.syms| && oldToNew[0] == 0
    requires forall n :: 1 <= n < |obj.syms| ==> (oldToNew[n] > 0 <==> KeptSym(obj, obj.syms[n]))
    ensures AllRelocatable(radix, oldToNew, rels) <==> RecordsKept(radix, obj, rels)
  {
    hide RSym, RInfo, RType, KeptSym;
    forall k | 0 <= k < |rels|
      ensures Relocated(radix, oldToNew, 0, rels[k]).Some? <==>
        0 < RSym(radix, rels[k].info) < |obj.syms| && KeptSym(obj, obj.syms[RSym(radix, rels[k].info)])
    {}
  }

  /** Between the sections as merged and the sections after n turns of the third pass. */
  predicate ThirdPass(radix: nat, secs0: seq<Section>, merged: seq<Section>, secs: seq<Section>, obj: Object, sm: seq<Place>, oldToNew: seq<nat>, n: nat)
    requires IsRadix(radix)
  {
    |sm| == |obj.sections| && n <= |sm| && |secs| == |merged| && AllExtended(secs0, secs) &&
    (forall k :: 0 <= k < |secs| ==> secs[k] == merged[k].(rels := secs[k].rels)) &&
    (forall i :: 0 <= i < n ==> RelsHold(radix, secs, obj, sm, oldToNew, i)) &&
    (forall i :: n <= i < |sm| && sm[i].Placed? && sm[i].sec < |secs| ==> secs[sm[i].sec] == merged[sm[i].sec]) &&
    forall k :: 0 <= k < |secs| && !MadeFor(sm, k) ==> secs[k] == merged[k]
  }

  lemma ThirdPassBegins(radix: nat, secs0: seq<Section>, secs: seq<Section>, obj: Object, sm: seq<Place>, oldToNew: seq<nat>)
    requires IsRadix(radix) && MergedSoFar(secs0, secs, obj, sm, |obj.sections|)
    ensures ThirdPass(radix, secs0, secs, secs, obj, sm, oldToNew, 0)
  {}

  /** One relocation section done. */
  lemma ThirdPassStep(radix: nat, secs0: seq<Section>, merged: seq<Section>, secs: seq<Section>, obj: Object, sm: seq<Place>, oldToNew: seq<nat>,
                      n: nat, out: seq<Rel>)
    requires IsRadix(radix) && ThirdPass(radix, secs0, merged, secs, obj, sm, oldToNew, n) && n < |sm|
    requires MergedSoFar(secs0, merged, obj, sm, |obj.sections|) && ValidObject(obj) && obj.sections[n].kind == Some(Relx)
    requires sm[n].Placed? && sm[n].sec < |secs| && obj.sections[n].info < |sm| && sm[obj.sections[n].info].Placed?
    requires sm[n].offset <= |out| && sm[n].offset <= |secs[sm[n].sec].rels| && out[..sm[n].offset] == secs[sm[n].sec].rels[..sm[n].offset]
    requires RelocatedFrom(radix, oldToNew, sm[obj.sections[n].info].offset, out, sm[n].offset, obj.sections[n].rels)
    ensures ThirdPass(radix, secs0, merged, secs[sm[n].sec := secs[sm[n].sec].(rels := out)], obj, sm, oldToNew, n + 1)
  {
    assert MadeFor(sm, sm[n].sec);
    hide HasAtEnd, MadeFor, RelocatedFrom, ValidObject;
    var k := sm[n].sec;
    var secs' := secs[k := secs[k].(rels := out)];
    forall i | 0 <= i < |sm| && i != n ensures sm[i].Placed? ==> sm[i].sec != k { PlacesApart(secs0, merged, obj, sm, i, n); }
    assert PlaceHolds(secs0, merged, obj.sections[n], sm[n]);
    PlaceName(secs0, merged, obj.sections[n], sm[n]);
    if k < |secs0| {
      assert Extended(secs0[k], secs[k]);
      PrefixKept(secs0[k], secs[k], out, sm[n].offset);
    }
    forall i | 0 <= i < n ensures RelsHold(radix, secs', obj, sm, oldToNew, i) {
      assert RelsHold(radix, secs, obj, sm, oldToNew, i);
    }
  }

  lemma PrefixKept(s: Section, t: Section, out: seq<Rel>, from: nat)
    requires Extended(s, t) && (t.kind.Relx? ==> |s.rels| <= from) && t.kind.Relx? && from <= |out| && from <= |t.rels| && out[..from] == t.rels[..from]
    ensures Extended(s, t.(rels := out))
  {
    assert out[..|s.rels|] == out[..from][..|s.rels|] == t.rels[..from][..|s.rels|] == t.rels[..|s.rels|] == s.rels;
  }

  /** A relocation section as merged ends with the records of its input section. */
  lemma MergedRecords(secs0: seq<Section>, secs: seq<Section>, obj: Object, sm: seq<Place>, i: nat)
    requires MergedSoFar(secs0, secs, obj, sm, |obj.sections|) && i < |obj.sections| && obj.sections[i].kind.Some?
    ensures sm[i].Placed? && sm[i].sec < |secs| && secs[sm[i].sec].kind == obj.sections[i].kind.value
    ensures obj.sections[i].kind == Some(Relx) ==>
      sm[i].offset <= |secs[sm[i].sec].rels| && secs[sm[i].sec].rels[sm[i].offset..] == obj.sections[i].rels
  {
    assert PlaceHolds(secs0, secs, obj.sections[i], sm[i]);
  }

  method RelocateAll(radix: nat, ghost secs0: seq<Section>, merged: seq<Section>, obj: Object, sm: seq<Place>, oldToNew: seq<nat>)
    returns (ok: bool, secs: seq<Section>)
    requires IsRadix(radix) && MergedSoFar(secs0, merged, obj, sm, |obj.sections|) && ValidObject(obj)
    ensures ok <==> AllSectionsRelocatable(radix, oldToNew, obj)
    ensures ok ==> ThirdPass(radix, secs0, merged, secs, obj, sm, oldToNew, |obj.sections|)
  {
    hide MergedSoFar, ValidObject, ThirdPass, RelocatedFrom, AllRelocatable;
    secs := merged;
    ThirdPassBegins(radix, secs0, merged, obj, sm, oldToNew);
    MergedSize(secs0, merged, obj, sm);
    var i := 0;
    while i < |obj.sections|
      invariant i <= |obj.sections| && ThirdPass(radix, secs0, merged, secs, obj, sm, oldToNew, i)
      invariant forall m :: 0 <= m < i ==> SectionRelocatable(radix, oldToNew, obj.sections[m])
    {
      var os := obj.sections[i];
      if os.kind.Some? { MergedRecords(secs0, merged, obj, sm, i); }
      ThirdPassAt(radix, secs0, merged, secs, obj, sm, oldToNew, i);
      if sm[i].Placed? && os.kind == Some(Relx) {
        LinkFacts(secs0, merged, obj, sm, i);
        var out;
        ok, out := RelocateRecords(radix, oldToNew, sm[os.info].offset, secs[sm[i].sec].rels, sm[i].offset);
        if !ok { assert !SectionRelocatable(radix, oldToNew, os); return; }
        assert sm[i].offset <= |out|;
        ThirdPassStep(radix, secs0, merged, secs, obj, sm, oldToNew, i, out);
        secs := secs[sm[i].sec := secs[sm[i].sec].(rels := out)];
      }
      i := i + 1;
    }
    ok := true;
  }

  lemma ThirdPassAt(radix: nat, secs0: seq<Section>, merged: seq<Section>, secs: seq<Section>, obj: Object, sm: seq<Place>, oldToNew: seq<nat>, n: nat)
    requires IsRadix(radix) && ThirdPass(radix, secs0, merged, secs, obj, sm, oldToNew, n) && n < |sm|
    ensures |secs| == |merged| && (sm[n].Placed? && sm[n].sec < |secs| ==> secs[sm[n].sec] == merged[sm[n].sec])
    ensures obj.sections[n].kind != Some(Relx) ==> ThirdPass(radix, secs0, merged, secs, obj, sm, oldToNew, n + 1)
  {
    hide RelocatedFrom;
  }

  // ----- the whole load -----

  /** After a successful load, input section i is at its place, with its bytes or its relocations, and earlier contents are intact. */
  predicate SectionLoaded(radix: nat, secs: seq<Section>, obj: Object, sm: seq<Place>, oldToNew: seq<nat>, i: nat)
    requires IsRadix(radix) && i < |obj.sections| && |sm| == |obj.sections|
  {
    if obj.sections[i].kind.None? then sm[i].Dropped?
    else if obj.sections[i].kind == Some(Relx) then
      RelsHold(radix, secs, obj, sm, oldToNew, i) && LinkHolds(secs, obj, sm, i)
    else sm[i].Placed? && 1 <= sm[i].sec < |secs| && HasAtEnd(secs[sm[i].sec], obj.sections[i], sm[i].offset)
  }

  predicate Loaded(radix: nat, secs0: seq<Section>, secs: seq<Section>, obj: Object, sm: seq<Place>, oldToNew: seq<nat>)
    requires IsRadix(radix)
  {
    |sm| == |obj.sections| && AllExtended(secs0, secs) && ValidSections(secs) &&
    (forall i :: 0 <= i < |sm| ==> SectionLoaded(radix, secs, obj, sm, oldToNew, i)) &&
    (forall i :: 0 <= i < |sm| && sm[i].Placed? ==> obj.sections[i].kind.Some? && PlacedNext(secs0, secs, obj.sections[i], sm[i])) &&
    NothingElse(secs0, secs, sm)
  }

  /** Nothing is put before the end of what a section held. */
  lemma PlacedAfter(radix: nat, secs0: seq<Section>, secs: seq<Section>, obj: Object, sm: seq<Place>, oldToNew: seq<nat>, i: nat)
    requires IsRadix(radix) && Loaded(radix, secs0, secs, obj, sm, oldToNew) && i < |sm| && sm[i].Placed? && sm[i].sec < |secs0|
    ensures End(secs0[sm[i].sec]) <= sm[i].offset
  {
    OffsetAfter(secs0[sm[i].sec], obj.sections[i]);
  }

  lemma LoadFinished(radix: nat, secs0: seq<Section>, merged: seq<Section>, secs: seq<Section>, obj: Object, sm: seq<Place>, oldToNew: seq<nat>)
    requires IsRadix(radix) && MergedSoFar(secs0, merged, obj, sm, |obj.sections|) && TargetsLinked(merged, obj, sm)
    requires ValidObject(obj) && ValidSections(secs0) && ThirdPass(radix, secs0, merged, secs, obj, sm, oldToNew, |obj.sections|)
    ensures Loaded(radix, secs0, secs, obj, sm, oldToNew)
  {
    hide HasAtEnd, MadeFor, RelocatedFrom, ValidObject, Targets;
    forall i | 0 <= i < |sm|
      ensures SectionLoaded(radix, secs, obj, sm, oldToNew, i)
      ensures sm[i].Placed? ==> obj.sections[i].kind.Some? && PlacedNext(secs0, secs, obj.sections[i], sm[i])
    {
      assert PlaceHolds(secs0, merged, obj.sections[i], sm[i]);
      assert RelsHold(radix, secs, obj, sm, oldToNew, i);
      assert LinkHolds(merged, obj, sm, i);
      if obj.sections[i].kind.Some? && obj.sections[i].kind != Some(Relx) {
        PlaceName(secs0, merged, obj.sections[i], sm[i]);
        StillAtEnd(merged[sm[i].sec], secs[sm[i].sec], obj.sections[i], sm[i].offset);
      }
    }
    forall k | 1 <= k < |secs| ensures Targets(secs, k) { TargetsAgain(secs0, merged, obj, sm, secs, k); }
    assert DistinctNames(secs);
  }

  lemma StillAtEnd(s: Section, t: Section, os: ObjSection, offset: nat)
    requires os.kind.Some? && HasAtEnd(s, os, offset) && t == s.(rels := t.rels) && !s.kind.Relx?
    ensures HasAtEnd(t, os, offset)
  {}

  lemma TargetsAgain(secs0: seq<Section>, merged: seq<Section>, obj: Object, sm: seq<Place>, secs: seq<Section>, k: nat)
    requires MergedSoFar(secs0, merged, obj, sm, |obj.sections|) && TargetsLinked(merged, obj, sm) && ValidObject(obj) && ValidSections(secs0)
    requires 1 <= k < |secs| && |secs| == |merged| && forall m :: 0 <= m < |secs| ==> secs[m] == merged[m].(rels := secs[m].rels)
    ensures Targets(secs, k)
  {
    hide HasAtEnd;
    if k < |secs0| {
      assert Targets(secs0, k) && Extended(secs0[k], merged[k]);
      if secs0[k].kind.Relx? { assert Extended(secs0[secs0[k].info], merged[secs0[k].info]); }
    } else {
      assert MadeFor(sm, k);
      var i :| 0 <= i < |sm| && sm[i].Placed? && sm[i].sec == k;
      var os := obj.sections[i];
      assert PlaceHolds(secs0, merged, os, sm[i]);
      PlaceName(secs0, merged, os, sm[i]);
      if os.kind == Some(Relx) {
        assert LinkHolds(merged, obj, sm, i) && ValidTarget(obj, i);
        assert PlaceHolds(secs0, merged, obj.sections[os.info], sm[os.info]);
        PlaceName(secs0, merged, obj.sections[os.info], sm[os.info]);
      }
    }
  }

  /** What an object file must be to be loaded after these sections. */
  predicate Loadable(radix: nat, secs: seq<Section>, obj: Object)
    requires IsRadix(radix)
  {
    obj.symtabs <= 1 && TypesMatch(secs, obj) && Relocatable(radix, obj)
  }

  /** mkcc_load_object_file, on sections and symbol table. */
  class Output {
    var secs: seq<Section>
    const table: Symtab

    constructor (t: Symtab)
      ensures table == t && ValidSections(secs)
    {
      table := t;
      secs := [Section("", NoBits, 1, [], 0, [], 0)];
    }

    method LoadObject(obj: Object, radix: nat)
      returns (ok: bool, ghost sm: seq<Place>, ghost oldToNew: seq<nat>, errors: nat)
      requires IsRadix(radix) && ValidObject(obj) && ValidSections(secs) && Resolved(table)
      modifies this, table
      ensures Resolved(table)
      ensures ok ==> Loaded(radix, old(secs), secs, obj, sm, oldToNew)
      ensures ok ==> SymsFit(obj, sm)
      ensures ok ==> SymsDone(old(table.syms), old(table.strtab), table.syms, table.strtab, obj, sm, oldToNew, |obj.syms|)
      ensures ok ==> SymsKept(old(table.syms), old(table.strtab), table.syms, table.strtab, oldToNew)
      ensures ok ==> ErrorsHold(errors, old(table.syms), old(table.strtab), obj, sm, |obj.syms|)
      ensures ok <==> Loadable(radix, old(secs), obj)
    {
      hide MergedSoFar, TargetsLinked, ThirdPass, SymsDone, Resolved, Loaded, TypesMatch, AllSectionsRelocatable, Relocatable, SymsKept, ErrorsHold;
      ok, sm, oldToNew, errors := false, [], [], 0;
      if obj.symtabs > 1 { return; }
      ghost var secs0 := secs;
      var merged, places;
      ok, merged, places := MergeSections(secs, obj);
      secs := merged;
      sm := places;
      if !ok { return; }
      var linked := UpdateLinks(secs0, merged, obj, places);
      secs := linked;
      MergedSize(secs0, linked, obj, places);
      var otn;
      ghost var syms0, strtab0 := table.syms, table.strtab;
      otn, errors := AddSymbols(table, obj, places);
      oldToNew := otn;
      KeptExactly(radix, secs0, linked, syms0, strtab0, table.syms, table.strtab, obj, places, otn);
      var done;
      ok, done := RelocateAll(radix, secs0, linked, obj, places, otn);
      secs := done;
      if ok { LoadFinished(radix, secs0, linked, done, obj, places, otn); }
    }
  }

  // ----- what a load preserves -----

  /** Byte x of an input section is byte x past the place of the section in the output. */
  lemma SameByte(radix: nat, secs0: seq<Section>, secs: seq<Section>, obj: Object, sm: seq<Place>, oldToNew: seq<nat>, i: nat, x: nat)
    requires IsRadix(radix) && Loaded(radix, secs0, secs, obj, sm, oldToNew)
    requires i < |obj.sections| && obj.sections[i].kind.Some? && obj.sections[i].kind.value.Contents? && x < |obj.sections[i].data|
    ensures sm[i].Placed? && sm[i].sec < |secs| && sm[i].offset + x < |secs[sm[i].sec].data|
    ensures secs[sm[i].sec].data[sm[i].offset + x] == obj.sections[i].data[x]
  {
    hide RelsHold, LinkHolds, AllExtended, ValidSections;
    assert SectionLoaded(radix, secs, obj, sm, oldToNew, i);
    assert secs[sm[i].sec].data[sm[i].offset..][x] == obj.sections[i].data[x];
  }

  /** Record k of a merged relocation section patches the same byte, with the same type, for the symbol that stands for its own. */
  lemma SameRelocation(radix: nat, secs0: seq<Section>, secs: seq<Section>, obj: Object, sm: seq<Place>, oldToNew: seq<nat>, i: nat, k: nat)
    requires IsRadix(radix) && Loaded(radix, secs0, secs, obj, sm, oldToNew) && ValidObject(obj)
    requires i < |obj.sections| && obj.sections[i].kind == Some(Relx) && k < |obj.sections[i].rels|
    ensures sm[i].Placed? && sm[i].sec < |secs| && sm[i].offset + k < |secs[sm[i].sec].rels| && secs[sm[i].sec].info < |secs|
    ensures var r, r' := obj.sections[i].rels[k], secs[sm[i].sec].rels[sm[i].offset + k];
      RSym(radix, r.info) < |oldToNew| && RSym(radix, r'.info) == oldToNew[RSym(radix, r.info)] &&
      RType(radix, r'.info) == RType(radix, r.info) && r'.addend == r.addend
    ensures obj.sections[i].info < |obj.sections|
    ensures var r, r' := obj.sections[i].rels[k], secs[sm[i].sec].rels[sm[i].offset + k];
      var from, to := obj.sections[obj.sections[i].info], secs[secs[sm[i].sec].info];
      from.kind == Some(to.kind) && from.name == to.name &&
      (to.kind.Contents? && r.offset < |from.data| ==> r'.offset < |to.data| && to.data[r'.offset] == from.data[r.offset])
  {
    hide AllExtended, ValidSections, HasAtEnd, RSym, RType, RInfo;
    var os := obj.sections[i];
    assert ValidTarget(obj, i);
    assert SectionLoaded(radix, secs, obj, sm, oldToNew, i) && SectionLoaded(radix, secs, obj, sm, oldToNew, os.info);
    var r := os.rels[k];
    assert Relocated(radix, oldToNew, sm[os.info].offset, r) == Some(secs[sm[i].sec].rels[sm[i].offset + k]);
    RInfoFields(radix, oldToNew[RSym(radix, r.info)], RType(radix, r.info));
    TypeFits(radix, r.info);
    AtEndNames(secs[sm[os.info].sec], obj.sections[os.info], sm[os.info].offset);
    if secs[sm[os.info].sec].kind.Contents? && r.offset < |obj.sections[os.info].data| {
      SameByte(radix, secs0, secs, obj, sm, oldToNew, os.info, r.offset);
    }
  }

  lemma AtEndNames(s: Section, os: ObjSection, offset: nat)
    requires os.kind.Some? && HasAtEnd(s, os, offset)
    ensures s.name == os.name && os.kind == Some(s.kind)
  {}

  /** A local symbol that denotes a byte of a section with contents. */
  predicate LocalAtByte(obj: Object, d: Decl)
  {
    Bind(d.info) == STB_LOCAL && d.shndx != SHN_UNDEF && d.shndx < SHN_LORESERVE && d.shndx < |obj.sections| &&
    obj.sections[d.shndx].kind.Some? && obj.sections[d.shndx].kind.value.Contents? && d.value < |obj.sections[d.shndx].data|
  }

  /** Later loads move nothing: the bytes and records already in a section stay where they are. */
  lemma LaterLoadsKeep(secs: seq<Section>, secs': seq<Section>, secs'': seq<Section>, k: nat, x: nat)
    requires AllExtended(secs, secs') && AllExtended(secs', secs'') && k < |secs|
    ensures AllExtended(secs, secs'')
    ensures x < |secs[k].data| ==> x < |secs''[k].data| && secs''[k].data[x] == secs[k].data[x]
    ensures x < |secs[k].rels| ==> x < |secs''[k].rels| && secs''[k].rels[x] == secs[k].rels[x]
  {
    forall m | 0 <= m < |secs| ensures Extended(secs[m], secs''[m]) {}
  }

  /** A local symbol of a merged section denotes its old byte, and is otherwise as it was. */
  lemma SameDefinition(radix: nat, secs0: seq<Section>, secs: seq<Section>, obj: Object, sm: seq<Place>, oldToNew: seq<nat>,
                       syms: seq<Sym>, strtab: string, n: nat)
    requires IsRadix(radix) && Loaded(radix, secs0, secs, obj, sm, oldToNew) && SymsFit(obj, sm)
    requires n < |obj.syms| && n < |oldToNew| && StandsAt(syms, strtab, obj, sm, oldToNew, n)
    requires LocalAtByte(obj, obj.syms[n].decl)
    ensures var o, d := oldToNew[n], obj.syms[n].decl;
      0 < o < |syms| && syms[o].shndx < |secs| && syms[o].value < |secs[syms[o].shndx].data| &&
      secs[syms[o].shndx].data[syms[o].value] == obj.sections[d.shndx].data[d.value]
    ensures var o, d := oldToNew[n], obj.syms[n].decl;
      syms[o].size == d.size && syms[o].other == d.other && Bind(syms[o].info) == STB_LOCAL && Type(syms[o].info) == Type(d.info)
  {
    hide Loaded, Keys;
    BindKept(obj.syms[n].decl.info);
    assert ValidSym(obj, obj.syms[n]);
    var d := obj.syms[n].decl;
    SameByte(radix, secs0, secs, obj, sm, oldToNew, d.shndx, d.value);
  }

  // ----- global definitions -----

  predicate Strong(d: Decl) { GlobalDef(d) && d.shndx != SHN_COMMON }

  /** Hidden and internal definitions give way to an earlier global one without a report. */
  predicate Visible(d: Decl) { Visibility(d.other) != STV_HIDDEN && Visibility(d.other) != STV_INTERNAL }

  /** One more declaration that is not refused leaves a definition in its place, or is itself a definition that takes its place. */
  lemma StrongStep(e: Option<Decl>, g: Decl, d: Decl)
    requires !Refused(e, d)
    ensures e.Some? && Same(e.value, g) && Strong(g) ==> Same(Step(e, d, false).value, g)
    ensures Strong(d) && Visible(d) ==> Same(Step(e, d, false).value, d)
  {
    hide Bind, Type, Info;
    BindKept(d.info);
  }

  /** A visible global definition, not refused, is what the name stands for after all later declarations. */
  lemma {:induction false} StrongWins(e: Option<Decl>, ds: seq<Decl>, k: nat)
    requires CleanFrom(e, ds) && k < |ds| && Strong(ds[k]) && Visible(ds[k])
    ensures FoldFrom(e, ds).Some? && Same(FoldFrom(e, ds).value, ds[k])
    decreases |ds|
  {
    hide Strong, Visible, Same, Refused, Step;
    var init, d := ds[..|ds| - 1], ds[|ds| - 1];
    if k < |init| { StrongWins(e, init, k); }
    StepSome(FoldFrom(e, init), d);
    StrongStep(FoldFrom(e, init), ds[k], d);
  }

  lemma StepSome(e: Option<Decl>, d: Decl)
    ensures Step(e, d, false).Some?
  {}

  /** The same for a definition that the table already holds: later loads without a report leave it. */
  lemma {:induction false} StrongStays(e: Decl, ds: seq<Decl>)
    requires Strong(e) && CleanFrom(Some(e), ds)
    ensures FoldFrom(Some(e), ds).Some? && Same(FoldFrom(Some(e), ds).value, e)
    decreases |ds|
  {
    assert Same(e, e);
    hide Strong, Same, Refused, Step;
    if ds == [] {
    } else {
      var init, d := ds[..|ds| - 1], ds[|ds| - 1];
      StrongStays(e, init);
      StepSome(FoldFrom(Some(e), init), d);
      StrongStep(FoldFrom(Some(e), init), e, d);
    }
  }

  /** Every kept global declaration of the object is among those of its name. */
  lemma {:induction false} DeclIsThere(obj: Object, sm: seq<Place>, n: nat, i: nat) returns (k: nat)
    requires SymsFit(obj, sm) && 1 <= i < n <= |obj.syms| && ValidSym(obj, obj.syms[i])
    requires Bind(obj.syms[i].decl.info) != STB_LOCAL && Converted(sm, obj.syms[i].decl).Some?
    ensures var ds := DeclsOf(obj, sm, n, obj.syms[i].name); k < |ds| && ds[k] == Converted(sm, obj.syms[i].decl).value
    decreases n
  {
    hide Converted, DeclsOf;
    assert ValidSym(obj, obj.syms[n - 1]);
    var name := obj.syms[i].name;
    DeclsStep(obj, sm, n - 1, name);
    assert DeclsOf(obj, sm, n - 1, name) <= DeclsOf(obj, sm, n, name);
    if i < n - 1 {
      k := DeclIsThere(obj, sm, n - 1, i);
    } else {
      k := |DeclsOf(obj, sm, n - 1, name)|;
    }
  }

  /** A visible global definition of a byte of a section with contents. */
  predicate GlobalAtByte(obj: Object, d: Decl)
  {
    IsGlobal(d) && Visible(d) && d.shndx != SHN_UNDEF && d.shndx < SHN_LORESERVE && d.shndx < |obj.sections| &&
    obj.sections[d.shndx].kind.Some? && obj.sections[d.shndx].kind.value.Contents? && d.value < |obj.sections[d.shndx].data|
  }

  /** Where the entry of a name points, when it points at a byte. */
  predicate EntryPointsAt(secs: seq<Section>, e: Option<Decl>, b: Byte)
  {
    e.Some? && Strong(e.value) && e.value.shndx < |secs| && e.value.value < |secs[e.value.shndx].data| &&
    secs[e.value.shndx].data[e.value.value] == b
  }

  /** Size, binding and type are the same. */
  predicate SameKind(d: Decl, e: Decl) { d.size == e.size && Bind(d.info) == Bind(e.info) && Type(d.info) == Type(e.info) }

  /** A load that reports nothing makes the name of a global definition stand for the byte the object defined it at. */
  lemma SameGlobal(radix: nat, secs0: seq<Section>, secs: seq<Section>, obj: Object, sm: seq<Place>, oldToNew: seq<nat>,
                   syms0: seq<Sym>, strtab0: string, syms: seq<Sym>, strtab: string, errors: nat, n: nat)
    requires IsRadix(radix) && Loaded(radix, secs0, secs, obj, sm, oldToNew) && SymsFit(obj, sm) && |secs| <= SHN_LORESERVE
    requires SymsDone(syms0, strtab0, syms, strtab, obj, sm, oldToNew, |obj.syms|)
    requires ErrorsHold(errors, syms0, strtab0, obj, sm, |obj.syms|) && errors == 0
    requires 1 <= n < |obj.syms| && GlobalAtByte(obj, obj.syms[n].decl)
    ensures var d := obj.syms[n].decl;
      EntryPointsAt(secs, EntryAt(syms, strtab, obj.syms[n].name), obj.sections[d.shndx].data[d.value]) &&
      SameKind(EntryAt(syms, strtab, obj.syms[n].name).value, d)
  {
    hide Loaded, Keys, EntryAt, StandsAt, CleanFrom, FoldFrom, DeclsOf;
    assert ValidSym(obj, obj.syms[n]);
    var d, name := obj.syms[n].decl, obj.syms[n].name;
    SameByte(radix, secs0, secs, obj, sm, oldToNew, d.shndx, d.value);
    PlaceNotNull(radix, secs0, secs, obj, sm, oldToNew, d.shndx);
    var k := DeclIsThere(obj, sm, |obj.syms|, n);
    StrongWins(EntryAt(syms0, strtab0, name), DeclsOf(obj, sm, |obj.syms|, name), k);
  }

  lemma PlaceNotNull(radix: nat, secs0: seq<Section>, secs: seq<Section>, obj: Object, sm: seq<Place>, oldToNew: seq<nat>, i: nat)
    requires IsRadix(radix) && Loaded(radix, secs0, secs, obj, sm, oldToNew)
    requires i < |sm| && obj.sections[i].kind.Some? && obj.sections[i].kind.value.Contents?
    ensures sm[i].Placed? && sm[i].sec != SHN_UNDEF
  {
    hide RelsHold, LinkHolds, AllExtended, ValidSections, HasAtEnd;
    assert SectionLoaded(radix, secs, obj, sm, oldToNew, i);
  }

  /** And it does so after every later load that reports nothing. */
  lemma GlobalStays(secs: seq<Section>, secs': seq<Section>, syms: seq<Sym>, strtab: string, syms': seq<Sym>, strtab': string,
                    obj: Object, sm: seq<Place>, oldToNew: seq<nat>, errors: nat, name: string, b: Byte)
    requires AllExtended(secs, secs') && SymsFit(obj, sm) && SymsDone(syms, strtab, syms', strtab', obj, sm, oldToNew, |obj.syms|)
    requires ErrorsHold(errors, syms, strtab, obj, sm, |obj.syms|) && errors == 0
    requires EntryPointsAt(secs, EntryAt(syms, strtab, name), b)
    ensures EntryPointsAt(secs', EntryAt(syms', strtab', name), b)
    ensures SameKind(EntryAt(syms', strtab', name).value, EntryAt(syms, strtab, name).value)
  {
    hide Keys, EntryAt, StandsAt, CleanFrom, FoldFrom, DeclsOf;
    var e := EntryAt(syms, strtab, name).value;
    StrongStays(e, DeclsOf(obj, sm, |obj.syms|, name));
    assert Extended(secs[e.shndx], secs'[e.shndx]);
  }
}
