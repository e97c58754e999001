/** sort_syms: local symbols first, and every relocation follows its symbol. */
module SortSyms {
  import opened SymbolTable

  /** A relocation: byte patched, symbol number and type packed into one word, addend. */
  datatype Rel = Rel(offset: nat, info: nat, addend: int)

  /** The types of a relocation word: 256 of them in 32-bit ELF, 2^32 in 64-bit ELF. */
  predicate IsRadix(radix: nat) { radix == 0x100 || radix == 0x1_0000_0000 }

  function RSym(radix: nat, info: nat): nat
    requires IsRadix(radix)
  {
    info / radix
  }

  function RType(radix: nat, info: nat): nat
    requires IsRadix(radix)
  {
    info % radix
  }

  function RInfo(radix: nat, sym: nat, type_: nat): nat
    requires IsRadix(radix)
  {
    sym * radix + type_ % radix
  }

  lemma RInfoFields(radix: nat, sym: nat, type_: nat)
    requires IsRadix(radix)
    ensures RSym(radix, RInfo(radix, sym, type_)) == sym && RType(radix, RInfo(radix, sym, type_)) == type_ % radix
  {}

  /** A section as sort_syms sees it: whether it holds relocations, and of which symbol table. */
  datatype RelSection = RelSection(relocs: bool, link: nat, rels: seq<Rel>)

  predicate Local(s: Sym) { Bind(s.info) == STB_LOCAL }

  /** The local, or the other, symbols in order. */
  function Pick(syms: seq<Sym>, local: bool): seq<Sym>
  {
    if syms == [] then []
    else Pick(syms[..|syms| - 1], local) + if Local(syms[|syms| - 1]) == local then [syms[|syms| - 1]] else []
  }

  /** The table in its new order. */
  function Sorted(syms: seq<Sym>): seq<Sym> { Pick(syms, true) + Pick(syms, false) }

  /** The new number of symbol i. */
  function NewIndex(syms: seq<Sym>, i: nat): nat
    requires i < |syms|
  {
    if Local(syms[i]) then |Pick(syms[..i], true)| else |Pick(syms, true)| + |Pick(syms[..i], false)|
  }

  lemma PickStep(syms: seq<Sym>, i: nat, local: bool)
    requires i < |syms|
    ensures Pick(syms[..i + 1], local) == Pick(syms[..i], local) + if Local(syms[i]) == local then [syms[i]] else []
  {
    assert syms[..i + 1][..i] == syms[..i];
  }

  lemma {:induction false} PickPrefix(syms: seq<Sym>, i: nat, j: nat, local: bool)
    requires i <= j <= |syms|
    ensures Pick(syms[..i], local) <= Pick(syms[..j], local)
    decreases j - i
  {
    if i < j {
      PickPrefix(syms, i, j - 1, local);
      PickStep(syms, j - 1, local);
    }
  }

  lemma {:induction false} PickKind(syms: seq<Sym>, local: bool)
    ensures forall s :: s in Pick(syms, local) ==> Local(s) == local
    ensures |Pick(syms, true)| + |Pick(syms, false)| == |syms|
    decreases |syms|
  {
    if syms != [] { PickKind(syms[..|syms| - 1], local); }
  }

  /** Every symbol is found, unchanged, at its new number. */
  lemma SameRecord(syms: seq<Sym>, i: nat)
    requires i < |syms|
    ensures |Sorted(syms)| == |syms| && NewIndex(syms, i) < |syms| && Sorted(syms)[NewIndex(syms, i)] == syms[i]
  {
    var local := Local(syms[i]);
    PickStep(syms, i, local);
    PickPrefix(syms, i + 1, |syms|, local);
    assert syms[..|syms|] == syms;
    PickKind(syms, local);
    var all, upto := Pick(syms, local), Pick(syms[..i + 1], local);
    assert all[|upto| - 1] == upto[|upto| - 1];
  }

  /** The order within each group is kept, and local symbols come first. */
  lemma Stable(syms: seq<Sym>, i: nat, j: nat)
    requires i < |syms| && j < |syms| && i != j
    ensures Local(syms[i]) == Local(syms[j]) ==> (i < j <==> NewIndex(syms, i) < NewIndex(syms, j))
    ensures Local(syms[i]) && !Local(syms[j]) ==> NewIndex(syms, i) < NewIndex(syms, j)
  {
    if Local(syms[i]) == Local(syms[j]) {
      if i < j { GroupOrder(syms, i, j); } else { GroupOrder(syms, j, i); }
    } else if Local(syms[i]) {
      PickStep(syms, i, true);
      PickPrefix(syms, i + 1, |syms|, true);
      assert syms[..|syms|] == syms;
    }
  }

  lemma GroupOrder(syms: seq<Sym>, i: nat, j: nat)
    requires i < j < |syms| && Local(syms[i]) == Local(syms[j])
    ensures NewIndex(syms, i) < NewIndex(syms, j)
  {
    PickStep(syms, i, Local(syms[i]));
    PickPrefix(syms, i + 1, j, Local(syms[i]));
  }

  /** No two symbols share a number, so the new order is a permutation. */
  lemma Injective(syms: seq<Sym>, i: nat, j: nat)
    requires i < |syms| && j < |syms| && NewIndex(syms, i) == NewIndex(syms, j)
    ensures i == j
  {
    if i != j {
      Stable(syms, i, j);
      Stable(syms, j, i);
    }
  }

  /** sh_info separates the two groups. */
  lemma LocalsFirst(syms: seq<Sym>, k: nat)
    requires k < |Sorted(syms)|
    ensures Local(Sorted(syms)[k]) <==> k < |Pick(syms, true)|
  {
    PickKind(syms, true);
    PickKind(syms, false);
    if k < |Pick(syms, true)| {
      assert Sorted(syms)[k] in Pick(syms, true);
    } else {
      assert Sorted(syms)[k] in Pick(syms, false);
    }
  }

  /** The same relocation of the same symbol record. */
  predicate Follows(radix: nat, syms: seq<Sym>, r: Rel, r': Rel)
    requires IsRadix(radix) && RSym(radix, r.info) < |syms|
  {
    r'.offset == r.offset && r'.addend == r.addend && RType(radix, r'.info) == RType(radix, r.info) &&
    RSym(radix, r'.info) == NewIndex(syms, RSym(radix, r.info))
  }

  predicate InTable(radix: nat, n: nat, rels: seq<Rel>)
    requires IsRadix(radix)
  {
    forall k :: 0 <= k < |rels| ==> RSym(radix, rels[k].info) < n
  }

  /** A section after the sort: the relocations of this table follow their symbols, any other section is as before. */
  predicate SectionFollows(radix: nat, link: nat, syms: seq<Sym>, s: RelSection, s': RelSection)
    requires IsRadix(radix) && (s.relocs && s.link == link ==> InTable(radix, |syms|, s.rels))
  {
    if s.relocs && s.link == link then
      s'.relocs && s'.link == link && |s'.rels| == |s.rels| &&
      forall k :: 0 <= k < |s.rels| ==> Follows(radix, syms, s.rels[k], s'.rels[k])
    else s' == s
  }

  /** A relocation that follows its symbol names the record it named before. */
  lemma FollowsRecord(radix: nat, syms: seq<Sym>, r: Rel, r': Rel)
    requires IsRadix(radix) && RSym(radix, r.info) < |syms| && Follows(radix, syms, r, r')
    ensures RSym(radix, r'.info) < |Sorted(syms)| && Sorted(syms)[RSym(radix, r'.info)] == syms[RSym(radix, r.info)]
  {
    SameRecord(syms, RSym(radix, r.info));
  }

  /** The relocation loop of sort_syms over one section. */
  method RemapSection(radix: nat, ghost syms: seq<Sym>, rels: seq<Rel>, oldToNew: array<nat>) returns (out: seq<Rel>)
    requires IsRadix(radix) && InTable(radix, |syms|, rels) && oldToNew.Length == |syms|
    requires forall j :: 0 <= j < |syms| ==> oldToNew[j] == NewIndex(syms, j)
    ensures |out| == |rels|
    ensures forall k :: 0 <= k < |rels| ==> Follows(radix, syms, rels[k], out[k])
  {
    hide NewIndex, RSym, RType, RInfo;
    out := rels;
    for k := 0 to |rels|
      invariant |out| == |rels| && out[k..] == rels[k..]
      invariant forall m :: 0 <= m < k ==> Follows(radix, syms, rels[m], out[m])
    {
      assert out[k] == out[k..][0] == rels[k];
      var symIndex, type_ := RSym(radix, out[k].info), RType(radix, out[k].info);
      symIndex := oldToNew[symIndex];
      RInfoFields(radix, symIndex, type_);
      TypeFits(radix, rels[k].info);
      out := out[k := out[k].(info := RInfo(radix, symIndex, type_))];
    }
  }

  lemma TypeFits(radix: nat, info: nat)
    requires IsRadix(radix)
    ensures RType(radix, info) % radix == RType(radix, info)
  {}

  /** One pass over the symbols: those of one group go, in order, to the buffer from start on. */
  method CopyGroup(syms: seq<Sym>, local: bool, start: nat, newSyms: array<Sym>, oldToNew: array<nat>) returns (q: nat)
    requires newSyms.Length == |syms| == oldToNew.Length
    requires start == if local then 0 else |Pick(syms, true)|
    modifies newSyms, oldToNew
    ensures q == start + |Pick(syms, local)| <= |syms|
    ensures newSyms[..start] == old(newSyms[..start]) && newSyms[start..q] == Pick(syms, local)
    ensures forall j :: 0 <= j < |syms| ==> oldToNew[j] == if Local(syms[j]) == local then NewIndex(syms, j) else old(oldToNew[j])
  {
    hide NewIndex, Local, Pick;
    PickTotal(syms);
    assert syms[..|syms|] == syms;
    q := start;
    ghost var was := newSyms[..start];
    EmptyPick(syms, local);
    for i := 0 to |syms|
      invariant q == start + |Pick(syms[..i], local)| <= |syms|
      invariant newSyms[..start] == was && newSyms[start..q] == Pick(syms[..i], local)
      invariant forall j :: 0 <= j < |syms| ==>
        oldToNew[j] == if j < i && Local(syms[j]) == local then NewIndex(syms, j) else old(oldToNew[j])
    {
      PickStep(syms, i, local);
      PickPrefix(syms, i + 1, |syms|, local);
      if Local(syms[i]) == local {
        IndexIs(syms, i);
        oldToNew[i] := q;
        newSyms[q] := syms[i];
        q := q + 1;
        assert newSyms[start..q] == newSyms[start..q - 1] + [syms[i]];
      }
    }
  }

  lemma PickTotal(syms: seq<Sym>)
    ensures |Pick(syms, true)| + |Pick(syms, false)| == |syms|
  {
    PickKind(syms, true);
  }

  lemma EmptyPick(syms: seq<Sym>, local: bool)
    ensures Pick(syms[..0], local) == []
  {}

  lemma IndexIs(syms: seq<Sym>, i: nat)
    requires i < |syms|
    ensures NewIndex(syms, i) == (if Local(syms[i]) then 0 else |Pick(syms, true)|) + |Pick(syms[..i], Local(syms[i]))|
  {}

  /** The relocation loop of sort_syms over all sections but the first. */
  method RemapAll(radix: nat, link: nat, ghost syms: seq<Sym>, sections: array<RelSection>, oldToNew: array<nat>)
    requires IsRadix(radix) && oldToNew.Length == |syms|
    requires forall j :: 0 <= j < |syms| ==> oldToNew[j] == NewIndex(syms, j)
    requires forall i :: 0 <= i < sections.Length && sections[i].relocs && sections[i].link == link ==>
      InTable(radix, |syms|, sections[i].rels)
    requires sections.Length > 0 ==> !(sections[0].relocs && sections[0].link == link)
    modifies sections
    ensures forall i :: 0 <= i < sections.Length ==>
      SectionFollows(radix, link, syms, old(sections[i]), sections[i])
  {
    hide Follows, NewIndex, InTable;
    var i := 1;
    while i < sections.Length
      invariant 1 <= i && forall j :: i <= j < sections.Length ==> sections[j] == old(sections[j])
      invariant forall j :: 0 <= j < i && j < sections.Length ==> SectionFollows(radix, link, syms, old(sections[j]), sections[j])
    {
      if sections[i].relocs && sections[i].link == link {
        var rels := RemapSection(radix, syms, sections[i].rels, oldToNew);
        sections[i] := sections[i].(rels := rels);
      }
      i := i + 1;
    }
  }

  /** sort_syms on the symbol table numbered link, and all sections of the output. */
  method Sort(t: Symtab, radix: nat, link: nat, sections: array<RelSection>) returns (shInfo: nat)
    requires IsRadix(radix)
    requires forall i :: 0 <= i < sections.Length && sections[i].relocs && sections[i].link == link ==>
      InTable(radix, |t.syms|, sections[i].rels)
    requires sections.Length > 0 ==> !(sections[0].relocs && sections[0].link == link)
    modifies t`syms, sections
    ensures t.syms == Sorted(old(t.syms)) && shInfo == |Pick(old(t.syms), true)|
    ensures forall i :: 0 <= i < sections.Length ==>
      SectionFollows(radix, link, old(t.syms), old(sections[i]), sections[i])
  {
    hide Follows, NewIndex, InTable, SectionFollows;
    ghost var syms := t.syms;
    PickTotal(syms);
    var newSyms := new Sym[|t.syms|];
    var oldToNew := new nat[|t.syms|];
    shInfo := CopyGroup(t.syms, true, 0, newSyms, oldToNew);
    var end := CopyGroup(t.syms, false, shInfo, newSyms, oldToNew);
    assert newSyms[..] == newSyms[..shInfo] + newSyms[shInfo..end];
    t.syms := newSyms[..];
    RemapAll(radix, link, syms, sections, oldToNew);
  }
}
