/** add_elf_sym: what becomes of a name that is declared several times. */
module Resolve {
  import opened Wrappers
  import opened SymbolTable

  const SHN_UNDEF := 0
  const SHN_LORESERVE := 0xff00
  const SHN_COMMON := 0xfff2

  const STV_DEFAULT := 0
  const STV_INTERNAL := 1
  const STV_HIDDEN := 2

  /** A global or weak symbol as one object file declares it, and as the table holds it. */
  datatype Decl = Decl(value: nat, size: nat, info: nat, other: nat, shndx: nat)

  function Visibility(other: nat): nat { other % 4 }

  predicate Defined(d: Decl) { d.shndx != SHN_UNDEF }
  predicate IsGlobal(d: Decl) { Bind(d.info) == STB_GLOBAL }
  predicate IsWeak(d: Decl) { Bind(d.info) == STB_WEAK }

  function DeclOf(s: Sym): Decl { Decl(s.value, s.size, s.info, s.other, s.shndx) }

  /** From least to most constraining: default, protected, hidden, internal. */
  function Constraint(vis: nat): nat { if vis == STV_DEFAULT then 0 else 4 - vis % 4 }

  /** The more constraining of two visibilities. */
  function NewVisibility(old_: nat, new_: nat): (v: nat)
    requires old_ < 4 && new_ < 4
    ensures v == old_ || v == new_
    ensures Constraint(v) >= Constraint(old_) && Constraint(v) >= Constraint(new_)
  {
    if old_ == STV_DEFAULT then new_ else if new_ == STV_DEFAULT then old_ else if old_ < new_ then old_ else new_
  }

  function WithVisibility(other: nat, vis: nat): nat { other / 4 * 4 + vis }

  /** Packing binding and type again keeps both. */
  lemma BindKept(info: nat)
    ensures Bind(Info(Bind(info), Type(info))) == Bind(info) && Type(Info(Bind(info), Type(info))) == Type(info)
  {
    FieldRange(info);
    hide Bind, Type, Info;
    InfoFields(Bind(info), Type(info));
  }

  lemma FieldRange(info: nat)
    ensures Bind(info) < 16 && Type(info) % 16 == Type(info)
  {}

  // ----- one declaration against the entry -----

  datatype Outcome = Keep | Patch | Twice

  predicate MayReplaceCommon(shndx: nat) { shndx < SHN_LORESERVE || shndx == SHN_COMMON }

  /** The decision for a name already in the table; dll marks the table of symbols exported by shared libraries. */
  function Decide(e: Decl, d: Decl, dll: bool): Outcome
  {
    if !Defined(e) then Patch
    else if !Defined(d) then Keep
    else if IsGlobal(d) && IsWeak(e) then Patch
    else if IsWeak(d) && (IsGlobal(e) || IsWeak(e)) then Keep
    else if Visibility(d.other) == STV_HIDDEN || Visibility(d.other) == STV_INTERNAL then Keep
    else if e.shndx == SHN_COMMON && MayReplaceCommon(d.shndx) then Patch
    else if dll then Keep
    else Twice
  }

  /** The st_other byte left in the entry. */
  function NewOther(e: Decl, d: Decl): nat
  {
    if Defined(e) then WithVisibility(e.other, NewVisibility(Visibility(e.other), Visibility(d.other))) else d.other
  }

  function Next(e: Decl, d: Decl, dll: bool): Decl
  {
    if Decide(e, d, dll) == Patch then Decl(d.value, d.size, Info(Bind(d.info), Type(d.info)), NewOther(e, d), d.shndx)
    else e.(other := NewOther(e, d))
  }

  function Step(e: Option<Decl>, d: Decl, dll: bool): Option<Decl>
  {
    match e
    case None => Some(d.(info := Info(Bind(d.info), Type(d.info))))
    case Some(x) => Some(Next(x, d, dll))
  }

  /** A defined symbol never becomes undefined again. */
  lemma NeverUndefines(e: Option<Decl>, d: Decl, dll: bool)
    requires e.Some? && Defined(e.value)
    ensures Defined(Step(e, d, dll).value)
  {}

  // ----- the table -----

  /** No two global or weak entries have the same name. */
  ghost predicate Unique(ks: seq<Key>)
  {
    forall i, j :: 0 <= i < j < |ks| && ks[i].hashed && ks[j].hashed ==> ks[i].name != ks[j].name
  }

  /** The entry of a name. */
  function EntryAt(syms: seq<Sym>, strtab: string, name: string): Option<Decl>
  {
    var i := LastNamed(Keys(syms, strtab), name, |syms|);
    if i == 0 then None else Some(DeclOf(syms[i]))
  }

  /** Patching the entry of one name leaves the entries of the others. */
  lemma PatchedEntries(syms: seq<Sym>, strtab: string, i: nat, s: Sym, name: string, other: string)
    requires 0 < i < |syms| && i == LastNamed(Keys(syms, strtab), name, |syms|)
    requires KeyOf(s, strtab) == KeyOf(syms[i], strtab)
    ensures Keys(syms[i := s], strtab) == Keys(syms, strtab)
    ensures EntryAt(syms[i := s], strtab, other) == if other == name then Some(DeclOf(s)) else EntryAt(syms, strtab, other)
  {
    hide KeyOf;
    KeysPatched(syms, strtab, i, s);
    LastNamedIs(Keys(syms, strtab), name, |syms|);
    LastNamedIs(Keys(syms, strtab), other, |syms|);
  }

  lemma {:induction false} LastNamedSnoc(ks: seq<Key>, k: Key, name: string, n: nat)
    requires n <= |ks|
    ensures LastNamed(ks + [k], name, n) == LastNamed(ks, name, n)
    decreases n
  {
    if n > 1 { LastNamedSnoc(ks, k, name, n - 1); }
  }

  /** A new symbol is the entry of its name if it is global or weak, and nobody else's. */
  lemma AppendedEntries(syms: seq<Sym>, strtab: string, syms': seq<Sym>, strtab': string, k: Key, other: string)
    requires syms != [] && |syms'| == |syms| + 1 && syms'[..|syms|] == syms
    requires Keys(syms', strtab') == Keys(syms, strtab) + [k]
    ensures EntryAt(syms', strtab', other) ==
            if k == Key(true, other) then Some(DeclOf(syms'[|syms|])) else EntryAt(syms, strtab, other)
  {
    hide KeyOf, Keys;
    var ks := Keys(syms, strtab);
    LastNamedSnoc(ks, k, other, |syms|);
    var i := LastNamed(ks, other, |syms|);
    assert syms'[..|syms|][i] == syms'[i];
  }

  lemma UniqueSnoc(ks: seq<Key>, k: Key)
    requires Unique(ks) && (k.hashed ==> LastNamed(ks, k.name, |ks|) == 0) && (|ks| > 0 ==> !ks[0].hashed)
    ensures Unique(ks + [k])
  {
    if k.hashed {
      LastNamedIs(ks, k.name, |ks|);
      assert forall i :: 0 < i < |ks| ==> ks[i] != Key(true, k.name);
      assert forall i :: 0 <= i < |ks| ==> ks[i].hashed ==> ks[i] == Key(true, ks[i].name);
    }
  }

  /** The entry already in the table against a new declaration: the branches of add_elf_sym. */
  method PatchEntry(entry: Sym, d: Decl, dll: bool) returns (esym: Sym, twice: bool)
    ensures DeclOf(esym) == Next(DeclOf(entry), d, dll) && esym.name == entry.name
    ensures twice <==> Decide(DeclOf(entry), d, dll) == Twice
  {
    esym, twice := entry, false;
    var symBind, symType := Bind(d.info), Type(d.info);
    var other, patch := d.other, false;
    if esym.shndx != SHN_UNDEF {
      var esymBind := Bind(esym.info);
      other := WithVisibility(esym.other, NewVisibility(Visibility(esym.other), Visibility(other)));
      esym := esym.(other := other);
      if d.shndx == SHN_UNDEF {
      } else if symBind == STB_GLOBAL && esymBind == STB_WEAK {
        patch := true;
      } else if symBind == STB_WEAK && esymBind == STB_GLOBAL {
      } else if symBind == STB_WEAK && esymBind == STB_WEAK {
      } else if Visibility(d.other) == STV_HIDDEN || Visibility(d.other) == STV_INTERNAL {
      } else if esym.shndx == SHN_COMMON && (d.shndx < SHN_LORESERVE || d.shndx == SHN_COMMON) {
        patch := true;
      } else if dll {
      } else {
        twice := true;
      }
    } else {
      patch := true;
    }
    if patch {
      esym := esym.(info := Info(symBind, symType), shndx := d.shndx, value := d.value, size := d.size, other := other);
    }
  }

  /** Old entries keep their place and name; the entries of all names but one are as before. */
  ghost predicate Extends(syms: seq<Sym>, strtab: string, syms': seq<Sym>, strtab': string, except: Option<string>)
  {
    Keys(syms, strtab) <= Keys(syms', strtab') &&
    forall other :: except != Some(other) ==> EntryAt(syms', strtab', other) == EntryAt(syms, strtab, other)
  }

  lemma PatchExtends(syms: seq<Sym>, strtab: string, i: nat, s: Sym, name: string)
    requires 0 < i < |syms| && i == LastNamed(Keys(syms, strtab), name, |syms|)
    requires Bind(s.info) != STB_LOCAL && s.name == syms[i].name
    ensures Keys(syms[i := s], strtab) == Keys(syms, strtab)
    ensures EntryAt(syms[i := s], strtab, name) == Some(DeclOf(s)) && EntryAt(syms, strtab, name) == Some(DeclOf(syms[i]))
    ensures Extends(syms, strtab, syms[i := s], strtab, Some(name))
  {
    hide EntryAt;
    EntryIs(syms, strtab, name);
    LastNamedIs(Keys(syms, strtab), name, |syms|);
    assert KeyOf(syms[i], strtab).hashed;
    forall other ensures EntryAt(syms[i := s], strtab, other) == if other == name then Some(DeclOf(s)) else EntryAt(syms, strtab, other) {
      PatchedEntries(syms, strtab, i, s, name, other);
    }
    KeysPatched(syms, strtab, i, s);
  }

  lemma EntryIs(syms: seq<Sym>, strtab: string, name: string)
    ensures var i := LastNamed(Keys(syms, strtab), name, |syms|);
      EntryAt(syms, strtab, name) == if i == 0 then None else Some(DeclOf(syms[i]))
  {}

  lemma PutExtends(syms: seq<Sym>, strtab: string, syms': seq<Sym>, strtab': string, k: Key)
    requires syms != [] && |syms'| == |syms| + 1 && syms'[..|syms|] == syms
    requires Keys(syms', strtab') == Keys(syms, strtab) + [k]
    ensures Extends(syms, strtab, syms', strtab', if k.hashed then Some(k.name) else None)
    ensures k.hashed ==> EntryAt(syms', strtab', k.name) == Some(DeclOf(syms'[|syms|]))
  {
    hide EntryAt, Keys;
    forall other ensures EntryAt(syms', strtab', other) ==
      if k == Key(true, other) then Some(DeclOf(syms'[|syms|])) else EntryAt(syms, strtab, other)
    {
      AppendedEntries(syms, strtab, syms', strtab', k, other);
    }
  }

  /** What the table holds besides its own invariant: at most one global or weak entry per name. */
  ghost predicate Resolved(t: Symtab)
    reads t
  {
    t.Valid() && Unique(t.Ks())
  }

  /** add_elf_sym; twice reports the duplicate definition, which leaves the entry's definition as it was. */
  method AddElfSym(t: Symtab, d: Decl, name: Option<string>, dll: bool) returns (symIndex: nat, twice: bool)
    requires Resolved(t) && (name.Some? ==> IsName(name.value)) && (Bind(d.info) != STB_LOCAL ==> name.Some?)
    modifies t
    ensures Resolved(t) && 0 < symIndex < |t.syms|
    ensures |t.syms| == |old(t.syms)| + if symIndex < |old(t.syms)| then 0 else 1
    ensures forall m :: 0 <= m < |old(t.syms)| && m != symIndex ==> t.syms[m] == old(t.syms[m])
    ensures Bind(d.info) == STB_LOCAL ==>
      symIndex == |old(t.syms)| && !twice && DeclOf(t.syms[symIndex]) == d.(info := Info(STB_LOCAL, Type(d.info))) &&
      t.Ks()[symIndex] == Key(false, if name.Some? then name.value else []) &&
      Extends(old(t.syms), old(t.strtab), t.syms, t.strtab, None)
    ensures Bind(d.info) != STB_LOCAL ==>
      t.Ks()[symIndex] == Key(true, name.value) &&
      EntryAt(t.syms, t.strtab, name.value) == Step(old(EntryAt(t.syms, t.strtab, name.value)), d, dll) &&
      Extends(old(t.syms), old(t.strtab), t.syms, t.strtab, name) &&
      (twice <==> match old(EntryAt(t.syms, t.strtab, name.value)) case None => false case Some(e) => Decide(e, d, dll) == Twice)
  {
    hide EntryAt, Keys, LastNamed, Unique, Decide, Next, Extends, TableHolds, Bind, Type, Info;
    twice := false;
    symIndex := 0;
    TableFacts(t.syms, t.strtab, t.hash, t.nbHashed, t.hashOf);
    BindKept(d.info);
    if Bind(d.info) != STB_LOCAL {
      symIndex := t.FindElfSym(name.value);
      EntryIs(t.syms, t.strtab, name.value);
    }
    if symIndex == 0 {
      symIndex := t.PutElfSym(d.value, d.size, Info(Bind(d.info), Type(d.info)), d.other, d.shndx, name);
      ghost var k := Key(Bind(d.info) != STB_LOCAL, if name.Some? then name.value else []);
      assert t.Ks() == old(t.Ks()) + [k];
      PutExtends(old(t.syms), old(t.strtab), t.syms, t.strtab, k);
      UniqueSnoc(old(t.Ks()), k);
      StoredInfo(d, t.syms[symIndex]);
    } else {
      var esym;
      esym, twice := PatchEntry(t.syms[symIndex], d, dll);
      KeysAt(t.syms, t.strtab, symIndex);
      NextBind(DeclOf(t.syms[symIndex]), d, dll);
      PatchExtends(t.syms, t.strtab, symIndex, esym, name.value);
      PatchTable(t.syms, t.strtab, t.hash, t.nbHashed, t.hashOf, symIndex, esym);
      t.syms := t.syms[symIndex := esym];
    }
  }

  /** The record put for a new symbol is its declaration, with st_info packed from binding and type. */
  lemma StoredInfo(d: Decl, s: Sym)
    requires s == Sym(s.name, d.value, d.size, Info(Bind(d.info), Type(d.info)) % 256, d.other, d.shndx)
    ensures DeclOf(s) == d.(info := Info(Bind(d.info), Type(d.info)))
  {}

  lemma TableFacts(syms: seq<Sym>, strtab: string, h: seq<nat>, nbHashed: nat, hash: Hash)
    requires TableHolds(syms, strtab, h, nbHashed, hash)
    ensures syms != [] && !Keys(syms, strtab)[0].hashed
  {}

  lemma NextBind(e: Decl, d: Decl, dll: bool)
    requires Bind(e.info) != STB_LOCAL && Bind(d.info) != STB_LOCAL
    ensures Bind(Next(e, d, dll).info) != STB_LOCAL
  {}

  lemma PatchTable(syms: seq<Sym>, strtab: string, h: seq<nat>, nbHashed: nat, hash: Hash, i: nat, s: Sym)
    requires TableHolds(syms, strtab, h, nbHashed, hash) && 0 < i < |syms| && s.name == syms[i].name
    requires Keys(syms[i := s], strtab) == Keys(syms, strtab)
    ensures TableHolds(syms[i := s], strtab, h, nbHashed, hash)
  {
    hide IndexHolds, Keys, Hashed;
  }

  // ----- all declarations of one name -----

  /** Declared in order, outside the table of shared-library symbols. */
  function Fold(ds: seq<Decl>): (e: Option<Decl>)
    ensures e.Some? <==> ds != []
  {
    if ds == [] then None else Step(Fold(ds[..|ds| - 1]), ds[|ds| - 1], false)
  }

  /** The declaration is refused as a second definition. */
  predicate Refused(e: Option<Decl>, d: Decl) { e.Some? && Decide(e.value, d, false) == Twice }

  /** None of the declarations is. */
  predicate Clean(ds: seq<Decl>)
  {
    ds == [] || (Clean(ds[..|ds| - 1]) && !Refused(Fold(ds[..|ds| - 1]), ds[|ds| - 1]))
  }

  /** Global or weak, with default visibility. */
  predicate Ordinary(d: Decl) { (IsGlobal(d) || IsWeak(d)) && Visibility(d.other) == STV_DEFAULT }

  predicate AllOrdinary(ds: seq<Decl>) { forall i :: 0 <= i < |ds| ==> Ordinary(ds[i]) }

  predicate GlobalDef(d: Decl) { IsGlobal(d) && Defined(d) }
  predicate WeakDef(d: Decl) { IsWeak(d) && Defined(d) }

  function Filter<T>(p: T -> bool, ds: seq<T>): (r: seq<T>)
  {
    if ds == [] then []
    else Filter(p, ds[..|ds| - 1]) + if p(ds[|ds| - 1]) then [ds[|ds| - 1]] else []
  }

  lemma FilterSnoc<T>(p: T -> bool, ds: seq<T>, d: T)
    ensures Filter(p, ds + [d]) == Filter(p, ds) + if p(d) then [d] else []
  {
    assert (ds + [d])[..|ds|] == ds;
  }

  lemma FilterNone<T>(p: T -> bool)
    ensures Filter(p, []) == []
  {}

  function GlobalDefs(ds: seq<Decl>): seq<Decl> { Filter(GlobalDef, ds) }
  function WeakDefs(ds: seq<Decl>): seq<Decl> { Filter(WeakDef, ds) }

  /** The rule: the last global definition, else the first weak one, else the last reference. */
  function Winner(ds: seq<Decl>): Option<Decl>
  {
    if GlobalDefs(ds) != [] then Some(GlobalDefs(ds)[|GlobalDefs(ds)| - 1])
    else if WeakDefs(ds) != [] then Some(WeakDefs(ds)[0])
    else if ds != [] then Some(ds[|ds| - 1])
    else None
  }

  /** The same definition, leaving visibility aside. */
  predicate Same(d: Decl, e: Decl)
  {
    d.value == e.value && d.size == e.size && d.shndx == e.shndx && Bind(d.info) == Bind(e.info) && Type(d.info) == Type(e.info)
  }

  predicate IsEntry(e: Option<Decl>, w: Option<Decl>)
  {
    if e.None? then w.None? else w.Some? && Same(e.value, w.value) && Visibility(e.value.other) == STV_DEFAULT
  }

  /** What the winner is tells which kinds of declarations there are. */
  lemma {:induction false} WinnerKind(ds: seq<Decl>)
    requires AllOrdinary(ds)
    ensures forall g :: g in GlobalDefs(ds) ==> GlobalDef(g) && Ordinary(g)
    ensures forall w :: w in WeakDefs(ds) ==> WeakDef(w) && Ordinary(w)
    ensures GlobalDefs(ds) == [] && WeakDefs(ds) == [] && ds != [] ==> !Defined(ds[|ds| - 1])
    decreases |ds|
  {
    if ds != [] {
      assert Ordinary(ds[|ds| - 1]);
      WinnerKind(ds[..|ds| - 1]);
    }
  }

  lemma StepOrdinary(e: Decl, w: Decl, d: Decl)
    requires Same(e, w) && Ordinary(w) && Ordinary(d) && Visibility(e.other) == STV_DEFAULT && Decide(e, d, false) != Twice
    ensures IsEntry(Step(Some(e), d, false), Some(if GlobalDef(d) then d else if Defined(w) then w else d))
    ensures GlobalDef(d) && GlobalDef(w) ==> w.shndx == SHN_COMMON && MayReplaceCommon(d.shndx)
  {
    hide Bind, Type, Info;
    BindKept(d.info);
  }

  lemma TwiceOrdinary(e: Decl, w: Decl, d: Decl)
    requires Same(e, w) && Ordinary(w) && Ordinary(d) && Visibility(e.other) == STV_DEFAULT
    ensures Decide(e, d, false) == Twice <==>
      GlobalDef(w) && GlobalDef(d) && !(w.shndx == SHN_COMMON && MayReplaceCommon(d.shndx))
  {}

  /** With no duplicate reported, the entry is the winner. */
  lemma {:induction false} FoldIsWinner(ds: seq<Decl>)
    requires AllOrdinary(ds) && Clean(ds)
    ensures IsEntry(Fold(ds), Winner(ds))
    ensures Winner(ds).Some? ==> Ordinary(Winner(ds).value)
    decreases |ds|
  {
    hide Same, Ordinary, Decide, Next, Visibility, MayReplaceCommon;
    if ds != [] {
      var init, d := ds[..|ds| - 1], ds[|ds| - 1];
      assert ds == init + [d];
      FoldIsWinner(init);
      WinnerKind(init);
      WinnerSnoc(init, d);
      if init == [] { FirstEntry(d); } else { StepOrdinary(Fold(init).value, Winner(init).value, d); }
    }
  }

  lemma FirstEntry(d: Decl)
    requires Ordinary(d)
    ensures IsEntry(Step(None, d, false), Some(d))
  {
    hide Bind, Type, Info;
    BindKept(d.info);
  }

  lemma WinnerSnoc(ds: seq<Decl>, d: Decl)
    requires AllOrdinary(ds) && Ordinary(d)
    ensures Winner(ds + [d]) == if ds == [] || GlobalDef(d) || !Defined(Winner(ds).value) then Some(d) else Winner(ds)
    ensures ds != [] ==> Winner(ds).Some? && Ordinary(Winner(ds).value)
    ensures ds != [] ==> (GlobalDef(Winner(ds).value) <==> GlobalDefs(ds) != [])
  {
    hide Filter;
    assert ds == [] ==> GlobalDefs(ds) == [] && WeakDefs(ds) == [] by { FilterNone(GlobalDef); FilterNone(WeakDef); }
    WinnerKind(ds);
    FilterSnoc(GlobalDef, ds, d);
    FilterSnoc(WeakDef, ds, d);
    var g, w := GlobalDefs(ds), WeakDefs(ds);
    assert GlobalDefs(ds + [d]) == g + (if GlobalDef(d) then [d] else []);
    assert WeakDefs(ds + [d]) == w + (if WeakDef(d) then [d] else []);
    if g != [] { assert g[|g| - 1] in g; }
    if w != [] { assert w[0] in w; }
    if ds != [] { assert Ordinary(ds[|ds| - 1]); }
  }

  /** Every global definition but the last is a common that the last may replace. */
  predicate AtMostOneDefinition(g: seq<Decl>)
  {
    |g| >= 2 ==> MayReplaceCommon(g[|g| - 1].shndx) && forall i :: 0 <= i < |g| - 1 ==> g[i].shndx == SHN_COMMON
  }

  lemma OneMoreDefinition(g: seq<Decl>, d: Decl)
    ensures AtMostOneDefinition(g + [d]) <==>
      AtMostOneDefinition(g) && (g != [] ==> g[|g| - 1].shndx == SHN_COMMON && MayReplaceCommon(d.shndx))
  {
    var h := g + [d];
    assert forall i :: 0 <= i < |g| ==> h[i] == g[i];
  }

  /** No error exactly when there is at most one definition besides replaceable commons. */
  lemma {:induction false} CleanExactly(ds: seq<Decl>)
    requires AllOrdinary(ds)
    ensures Clean(ds) <==> AtMostOneDefinition(GlobalDefs(ds))
    decreases |ds|
  {
    hide Filter, Decide, Next, Ordinary, Winner, Fold, Clean, AtMostOneDefinition;
    if ds == [] {
      FilterNone(GlobalDef);
      NothingClean();
    } else {
      var init, d := ds[..|ds| - 1], ds[|ds| - 1];
      assert ds == init + [d];
      CleanExactly(init);
      CleanSnoc(init, d);
      FilterSnoc(GlobalDef, init, d);
      var g := GlobalDefs(init);
      assert g + [] == g;
      OneMoreDefinition(g, d);
      if Clean(init) {
        FoldIsWinner(init);
        WinnerSnoc(init, d);
        LastGlobal(init);
        if init == [] {
          FilterNone(GlobalDef);
        } else {
          TwiceOrdinary(Fold(init).value, Winner(init).value, d);
        }
      }
    }
  }

  lemma NothingClean()
    ensures Clean([]) && AtMostOneDefinition([]) && Fold([]) == None
  {}

  lemma LastGlobal(ds: seq<Decl>)
    ensures GlobalDefs(ds) != [] ==> Winner(ds) == Some(GlobalDefs(ds)[|GlobalDefs(ds)| - 1])
  {}

  /** A global definition that is not common wins, whatever the order. */
  lemma DefinitionWins(ds: seq<Decl>, g: Decl)
    requires AllOrdinary(ds) && Clean(ds) && g in GlobalDefs(ds) && g.shndx != SHN_COMMON
    ensures Fold(ds).Some? && Same(Fold(ds).value, g)
  {
    hide Filter, Fold, Same;
    CleanExactly(ds);
    FoldIsWinner(ds);
    var i :| 0 <= i < |GlobalDefs(ds)| && GlobalDefs(ds)[i] == g;
    LastGlobal(ds);
  }

  // ----- the table of shared-library symbols -----

  /** Declared in order in that table. */
  function DllFold(ds: seq<Decl>): (e: Option<Decl>)
    ensures e.Some? <==> ds != []
  {
    if ds == [] then None else Step(DllFold(ds[..|ds| - 1]), ds[|ds| - 1], true)
  }

  /** The definition that stands among global ones: the first, unless it is a common that a later one may replace. */
  function Standing(g: seq<Decl>): Decl
    requires g != []
  {
    var last := g[|g| - 1];
    if |g| == 1 then last
    else
      var w := Standing(g[..|g| - 1]);
      if w.shndx == SHN_COMMON && MayReplaceCommon(last.shndx) then last else w
  }

  function DllWinner(ds: seq<Decl>): Option<Decl>
  {
    if GlobalDefs(ds) != [] then Some(Standing(GlobalDefs(ds))) else Winner(ds)
  }

  lemma {:induction false} StandingIn(g: seq<Decl>)
    requires g != []
    ensures Standing(g) in g && (g[0].shndx != SHN_COMMON ==> Standing(g) == g[0])
  {
    if |g| > 1 { StandingIn(g[..|g| - 1]); }
  }

  lemma StepDll(e: Decl, w: Decl, d: Decl)
    requires Same(e, w) && Ordinary(w) && Ordinary(d) && Visibility(e.other) == STV_DEFAULT
    ensures Decide(e, d, true) != Twice
    ensures IsEntry(Step(Some(e), d, true),
                    Some(if GlobalDef(d) && GlobalDef(w) then (if w.shndx == SHN_COMMON && MayReplaceCommon(d.shndx) then d else w)
                         else if GlobalDef(d) || !Defined(w) then d else w))
  {
    hide Bind, Type, Info;
    BindKept(d.info);
  }

  lemma DllWinnerSnoc(ds: seq<Decl>, d: Decl)
    requires AllOrdinary(ds) && Ordinary(d) && ds != []
    ensures DllWinner(ds).Some? && Ordinary(DllWinner(ds).value)
    ensures DllWinner(ds + [d]) == var w := DllWinner(ds).value;
      Some(if GlobalDef(d) && GlobalDef(w) then (if w.shndx == SHN_COMMON && MayReplaceCommon(d.shndx) then d else w)
           else if GlobalDef(d) || !Defined(w) then d else w)
  {
    hide Filter, Ordinary, MayReplaceCommon, Winner;
    WinnerKind(ds);
    WinnerSnoc(ds, d);
    FilterSnoc(GlobalDef, ds, d);
    var g := GlobalDefs(ds);
    assert (g + [d])[..|g|] == g;
    assert g + [] == g;
    if g != [] { StandingIn(g); }
  }

  lemma DllFirst(d: Decl)
    requires Ordinary(d)
    ensures IsEntry(Step(None, d, true), DllWinner([d]))
  {
    assert DllWinner([d]) == Some(d) by {
      hide Filter, Ordinary;
      assert [] + [d] == [d];
      WinnerSnoc([], d);
      FilterSnoc(GlobalDef, [], d);
      FilterNone(GlobalDef);
      StandingIn([d]);
    }
    hide DllWinner, Bind, Type, Info;
    BindKept(d.info);
  }

  /** For ordinary declarations the entry there is the definition that stands; with no global one, the winner as elsewhere. */
  lemma {:induction false} DllFoldIsWinner(ds: seq<Decl>)
    requires AllOrdinary(ds)
    ensures IsEntry(DllFold(ds), DllWinner(ds))
    decreases |ds|
  {
    if ds == [] {
      FilterNone(GlobalDef);
    } else {
      var init, d := ds[..|ds| - 1], ds[|ds| - 1];
      assert ds == init + [d] && Ordinary(d);
      DllFoldIsWinner(init);
      hide Same, Ordinary, Decide, Next, MayReplaceCommon, DllWinner;
      if init == [] {
        DllFirst(d);
      } else {
        DllWinnerSnoc(init, d);
        StepDll(DllFold(init).value, DllWinner(init).value, d);
      }
    }
  }

  predicate IsHidden(d: Decl) { Visibility(d.other) == STV_HIDDEN || Visibility(d.other) == STV_INTERNAL }

  /** A later declaration leaves a global definition that is not common as it is, in both tables, but for a visibility at least as
      constraining as both; a hidden definition, and any definition by another shared library, is not an error. */
  lemma DefinitionStays(e: Decl, d: Decl, dll: bool)
    requires GlobalDef(e) && e.shndx != SHN_COMMON
    ensures Same(Next(e, d, dll), e)
    ensures Constraint(Visibility(Next(e, d, dll).other)) >= Constraint(Visibility(e.other))
    ensures Constraint(Visibility(Next(e, d, dll).other)) >= Constraint(Visibility(d.other))
    ensures Decide(e, d, dll) == Twice <==> Defined(d) && !IsWeak(d) && !IsHidden(d) && !dll
  {
    hide Bind, Type, Info;
    var v := NewVisibility(Visibility(e.other), Visibility(d.other));
    assert WithVisibility(e.other, v) % 4 == v;
  }

  /** With shared libraries the first such definition stays, whatever is declared after it. */
  lemma {:induction false} FirstDllStays(ds: seq<Decl>, k: nat)
    requires k < |ds|
    requires var e := DllFold(ds[..k + 1]).value; GlobalDef(e) && e.shndx != SHN_COMMON
    ensures Same(DllFold(ds).value, DllFold(ds[..k + 1]).value)
    decreases |ds|
  {
    hide Decide, Next, Bind, Type, Visibility;
    if k + 1 == |ds| {
      assert ds[..k + 1] == ds;
    } else {
      var init := ds[..|ds| - 1];
      assert init[..k + 1] == ds[..k + 1];
      FirstDllStays(init, k);
      DefinitionStays(DllFold(init).value, ds[|ds| - 1], true);
    }
  }

  // ----- all declarations of all names -----

  datatype Named = Named(name: string, decl: Decl)

  /** The declarations of one name, in order. */
  function Of(ds: seq<Named>, name: string): seq<Decl>
  {
    if ds == [] then []
    else Of(ds[..|ds| - 1], name) + if ds[|ds| - 1].name == name then [ds[|ds| - 1].decl] else []
  }

  lemma OfSnoc(ds: seq<Named>, i: nat, name: string)
    requires i < |ds|
    ensures Of(ds[..i + 1], name) == Of(ds[..i], name) + if ds[i].name == name then [ds[i].decl] else []
  {
    assert ds[..i + 1][..i] == ds[..i];
  }

  lemma FoldSnoc(ds: seq<Decl>, d: Decl)
    ensures Fold(ds + [d]) == Step(Fold(ds), d, false)
  {
    assert (ds + [d])[..|ds|] == ds;
  }

  lemma CleanSnoc(ds: seq<Decl>, d: Decl)
    ensures Clean(ds + [d]) <==> Clean(ds) && !Refused(Fold(ds), d)
  {
    assert (ds + [d])[..|ds|] == ds;
  }

  predicate ValidDecl(d: Named) { IsName(d.name) && Ordinary(d.decl) }

  ghost predicate Clash(ds: seq<Named>, name: string) { !Clean(Of(ds, name)) }

  /** Declaring everything in a new table: each name ends with the winner of its own declarations, or there is an error. */
  method DeclareAll(t: Symtab, ds: seq<Named>) returns (errors: nat)
    requires Resolved(t) && |t.syms| == 1 && forall i :: 0 <= i < |ds| ==> ValidDecl(ds[i])
    modifies t
    ensures Resolved(t)
    ensures forall name :: EntryAt(t.syms, t.strtab, name) == Fold(Of(ds, name))
    ensures errors == 0 <==> forall name :: AtMostOneDefinition(GlobalDefs(Of(ds, name)))
    ensures errors == 0 ==> forall name :: IsEntry(EntryAt(t.syms, t.strtab, name), Winner(Of(ds, name)))
  {
    hide AtMostOneDefinition, GlobalDefs, IsEntry, Winner;
    hide EntryAt, Fold, Step, Decide, Resolved, Extends, Ordinary;
    errors := 0;
    NothingDeclared(t.syms, t.strtab);
    for i := 0 to |ds|
      invariant Resolved(t)
      invariant forall name :: EntryAt(t.syms, t.strtab, name) == Fold(Of(ds[..i], name))
      invariant errors == 0 <==> forall name :: !Clash(ds[..i], name)
    {
      var d := ds[i];
      assert ValidDecl(d);
      OrdinaryBind(d.decl);
      ghost var syms, strtab := t.syms, t.strtab;
      var symIndex, twice := AddElfSym(t, d.decl, Some(d.name), false);
      forall name
        ensures EntryAt(t.syms, t.strtab, name) == Fold(Of(ds[..i + 1], name))
        ensures Clash(ds[..i + 1], name) <==> Clash(ds[..i], name) || (name == d.name && twice)
      {
        OfSnoc(ds, i, name);
        if name != d.name {
          assert Of(ds[..i], name) + [] == Of(ds[..i], name);
          ExtendsEntry(syms, strtab, t.syms, t.strtab, d.name, name);
        } else {
          FoldSnoc(Of(ds[..i], name), d.decl);
          CleanSnoc(Of(ds[..i], name), d.decl);
        }
      }
      if twice { errors := errors + 1; assert Clash(ds[..i + 1], d.name); }
    }
    assert ds[..|ds|] == ds;
    forall name
      ensures Clash(ds, name) <==> !AtMostOneDefinition(GlobalDefs(Of(ds, name)))
      ensures !Clash(ds, name) ==> IsEntry(Fold(Of(ds, name)), Winner(Of(ds, name)))
    {
      OfOrdinary(ds, name);
      CleanExactly(Of(ds, name));
      if !Clash(ds, name) { FoldIsWinner(Of(ds, name)); }
    }
  }

  lemma {:induction false} OfOrdinary(ds: seq<Named>, name: string)
    requires forall i :: 0 <= i < |ds| ==> ValidDecl(ds[i])
    ensures AllOrdinary(Of(ds, name))
    decreases |ds|
  {
    if ds != [] {
      OfOrdinary(ds[..|ds| - 1], name);
      assert ValidDecl(ds[|ds| - 1]);
    }
  }

  lemma NothingDeclared(syms: seq<Sym>, strtab: string)
    requires |syms| == 1
    ensures forall name: string :: EntryAt(syms, strtab, name) == None
    ensures forall name: string :: Of([], name) == [] && !Clash([], name) && Fold([]) == None
  {}

  lemma OrdinaryBind(d: Decl)
    requires Ordinary(d)
    ensures Bind(d.info) != STB_LOCAL
  {}

  lemma ExtendsEntry(syms: seq<Sym>, strtab: string, syms': seq<Sym>, strtab': string, name: string, other: string)
    requires Extends(syms, strtab, syms', strtab', Some(name)) && other != name
    ensures EntryAt(syms', strtab', other) == EntryAt(syms, strtab, other)
  {
    hide EntryAt;
  }
}
