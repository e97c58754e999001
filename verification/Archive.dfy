/** mkcc_load_alacarte: loading the members of an archive that define symbols still undefined. */
module Archive {
  import opened Wrappers
  import opened SymbolTable
  import opened Resolve
  import opened SortSyms
  import opened ObjectMerge

  /** An entry of the archive's symbol index: a name and the member that defines it. */
  datatype IndexEntry = IndexEntry(name: string, member: nat)

  /** The object defines the name as a global or weak symbol, absolutely or in a section that is merged. */
  predicate Defines(obj: Object, name: string)
  {
    exists j :: 1 <= j < |obj.syms| && DefinesAt(obj, name, obj.syms[j])
  }

  predicate DefinesAt(obj: Object, name: string, s: ObjSym)
  {
    s.name == name && Bind(s.decl.info) != STB_LOCAL && Defined(s.decl) &&
    (s.decl.shndx >= SHN_LORESERVE || (s.decl.shndx < |obj.sections| && InContents(obj.sections[s.decl.shndx])))
  }

  predicate InContents(os: ObjSection) { os.kind.Some? && os.kind != Some(Relx) }

  predicate ValidArchive(index: seq<IndexEntry>, members: seq<Object>)
  {
    (forall m :: 0 <= m < |members| ==> ValidObject(members[m])) &&
    forall i :: 0 <= i < |index| ==> ValidEntry(index[i], members)
  }

  /** A member defines the names the index lists for it. */
  predicate ValidEntry(e: IndexEntry, members: seq<Object>)
  {
    e.member < |members| && Defines(members[e.member], e.name)
  }

  predicate IsDefined(e: Option<Decl>) { e.Some? && Defined(e.value) }

  // ----- loading a member defines its names and undefines none -----

  predicate SomeDefined(ds: seq<Decl>) { exists k :: 0 <= k < |ds| && Defined(ds[k]) }

  lemma {:induction false} FoldDefines(e: Option<Decl>, ds: seq<Decl>)
    requires IsDefined(e) || SomeDefined(ds)
    ensures IsDefined(FoldFrom(e, ds))
    decreases |ds|
  {
    if ds != [] {
      var init, d := ds[..|ds| - 1], ds[|ds| - 1];
      var f := FoldFrom(e, init);
      if IsDefined(e) || SomeDefined(init) {
        FoldDefines(e, init);
        NeverUndefines(f, d, false);
      } else {
        forall k | 0 <= k < |init| ensures !Defined(ds[k]) { assert ds[k] == init[k]; }
        assert Defined(d);
        StepDefines(f, d);
      }
    }
  }

  lemma StepDefines(e: Option<Decl>, d: Decl)
    requires Defined(d)
    ensures IsDefined(Step(e, d, false))
  {}

  lemma ConvertedDefined(obj: Object, sm: seq<Place>, s: ObjSym, name: string)
    requires |sm| == |obj.sections| && ValidSym(obj, s) && DefinesAt(obj, name, s)
    requires forall i :: 0 <= i < |sm| && InContents(obj.sections[i]) ==> sm[i].Placed? && sm[i].sec >= 1
    ensures s.name == name && Bind(s.decl.info) != STB_LOCAL
    ensures Converted(sm, s.decl).Some? && Defined(Converted(sm, s.decl).value)
  {}

  lemma DefinedPrefix(ds: seq<Decl>, es: seq<Decl>)
    requires SomeDefined(ds) && ds <= es
    ensures SomeDefined(es)
  {
    var k :| 0 <= k < |ds| && Defined(ds[k]);
    assert es[k] == ds[k];
  }

  lemma DefinedLast(ds: seq<Decl>, d: Decl)
    requires Defined(d)
    ensures SomeDefined(ds + [d])
  {
    assert (ds + [d])[|ds|] == d;
  }

  lemma {:induction false} DeclIsThere(obj: Object, sm: seq<Place>, n: nat, j: nat, name: string)
    requires SymsFit(obj, sm) && 1 <= j < n <= |obj.syms| && DefinesAt(obj, name, obj.syms[j])
    requires forall i :: 0 <= i < |sm| && InContents(obj.sections[i]) ==> sm[i].Placed? && sm[i].sec >= 1
    ensures SomeDefined(DeclsOf(obj, sm, n, name))
    decreases n
  {
    hide Converted, DefinesAt, DeclsOf, InContents;
    assert ValidSym(obj, obj.syms[n - 1]);
    DeclsStep(obj, sm, n - 1, name);
    if n - 1 == j {
      ConvertedDefined(obj, sm, obj.syms[j], name);
      DefinedLast(DeclsOf(obj, sm, n - 1, name), Converted(sm, obj.syms[j].decl).value);
    } else {
      DeclIsThere(obj, sm, n - 1, j, name);
      DefinedPrefix(DeclsOf(obj, sm, n - 1, name), DeclsOf(obj, sm, n, name));
    }
  }

  /** After a load every name defined before still is, and every name the object defines is too. */
  lemma LoadDefines(radix: nat, secs0: seq<Section>, secs: seq<Section>, obj: Object, sm: seq<Place>, oldToNew: seq<nat>,
                    syms0: seq<Sym>, strtab0: string, syms: seq<Sym>, strtab: string, name: string)
    requires IsRadix(radix) && Loaded(radix, secs0, secs, obj, sm, oldToNew) && SymsFit(obj, sm)
    requires SymsDone(syms0, strtab0, syms, strtab, obj, sm, oldToNew, |obj.syms|)
    requires IsDefined(EntryAt(syms0, strtab0, name)) || Defines(obj, name)
    ensures IsDefined(EntryAt(syms, strtab, name))
  {
    hide EntryAt, FoldFrom, RelsHold, TargetsLinked, AllExtended, ValidSections, HasAtEnd;
    if Defines(obj, name) {
      var j :| 1 <= j < |obj.syms| && DefinesAt(obj, name, obj.syms[j]);
      forall i | 0 <= i < |sm| && InContents(obj.sections[i]) ensures sm[i].Placed? && sm[i].sec >= 1 {
        assert SectionLoaded(radix, secs, obj, sm, oldToNew, i);
      }
      DeclIsThere(obj, sm, |obj.syms|, j, name);
    }
    FoldDefines(EntryAt(syms0, strtab0, name), DeclsOf(obj, sm, |obj.syms|, name));
  }

  // ----- the measure -----

  function Names(index: seq<IndexEntry>): set<string> { set i | 0 <= i < |index| :: index[i].name }

  /** Index names that the table does not define yet. */
  function Missing(syms: seq<Sym>, strtab: string, index: seq<IndexEntry>): set<string>
  {
    set name | name in Names(index) && !IsDefined(EntryAt(syms, strtab, name))
  }

  lemma MissingShrinks(syms0: seq<Sym>, strtab0: string, syms: seq<Sym>, strtab: string, index: seq<IndexEntry>, i: nat)
    requires i < |index| && !IsDefined(EntryAt(syms0, strtab0, index[i].name)) && IsDefined(EntryAt(syms, strtab, index[i].name))
    requires forall name :: IsDefined(EntryAt(syms0, strtab0, name)) ==> IsDefined(EntryAt(syms, strtab, name))
    ensures |Missing(syms, strtab, index)| < |Missing(syms0, strtab0, index)|
  {
    hide EntryAt, IsDefined;
    var a, b := Missing(syms, strtab, index), Missing(syms0, strtab0, index);
    assert a <= b;
    assert index[i].name in b && index[i].name !in a;
    ProperSubset(a, b, index[i].name);
  }

  lemma ProperSubset(a: set<string>, b: set<string>, x: string)
    requires a <= b && x in b && x !in a
    ensures |a| < |b|
  {
    var c := b - {x};
    assert a <= c;
    Subset(a, c);
  }

  lemma {:induction false} Subset(a: set<string>, b: set<string>)
    requires a <= b
    ensures |a| <= |b|
    decreases |a|
  {
    if x :| x in a { Subset(a - {x}, b - {x}); }
  }

  /** The sections and symbols loaded so far. */
  datatype State = State(secs: seq<Section>, syms: seq<Sym>, strtab: string)

  ghost function StateOf(o: Output): State
    reads o, o.table
  {
    State(o.secs, o.table.syms, o.table.strtab)
  }

  function Entry(s: State, name: string): Option<Decl> { EntryAt(s.syms, s.strtab, name) }

  /** One load: which entry asked for it, and the state before and after. */
  datatype Load = Load(entry: nat, before: State, after: State)

  /** Nothing in the index is left undefined, and with whole_archive nothing is left out. */
  predicate Satisfied(e: Option<Decl>, wholeArchive: bool)
  {
    if e.Some? then Defined(e.value) else !wholeArchive
  }

  /** The name of the entry was undefined, or with whole_archive unknown. */
  predicate Asked(index: seq<IndexEntry>, wholeArchive: bool, entry: nat, before: State)
  {
    entry < |index| && !Satisfied(Entry(before, index[entry].name), wholeArchive)
  }

  /** A load of the object takes one state to the other. */
  ghost predicate LoadStep(radix: nat, before: State, after: State, obj: Object)
    requires IsRadix(radix)
  {
    exists sm, oldToNew :: LoadedBy(radix, before, after, obj, sm, oldToNew)
  }

  ghost predicate LoadedBy(radix: nat, before: State, after: State, obj: Object, sm: seq<Place>, oldToNew: seq<nat>)
    requires IsRadix(radix)
  {
    Loaded(radix, before.secs, after.secs, obj, sm, oldToNew) && SymsFit(obj, sm) &&
    SymsDone(before.syms, before.strtab, after.syms, after.strtab, obj, sm, oldToNew, |obj.syms|) &&
    SymsKept(before.syms, before.strtab, after.syms, after.strtab, oldToNew)
  }

  /** A run: each load was asked for in the state the one before it left, and nothing else happened. */
  ghost predicate Run(radix: nat, index: seq<IndexEntry>, members: seq<Object>, wholeArchive: bool, from: State, loads: seq<Load>, to: State)
    requires IsRadix(radix) && ValidArchive(index, members)
  {
    if loads == [] then from == to
    else
      var l := loads[|loads| - 1];
      Run(radix, index, members, wholeArchive, from, loads[..|loads| - 1], l.before) && l.after == to &&
      Asked(index, wholeArchive, l.entry, l.before) && ValidEntry(index[l.entry], members) &&
      LoadStep(radix, l.before, l.after, members[index[l.entry].member])
  }

  lemma RunMore(radix: nat, index: seq<IndexEntry>, members: seq<Object>, wholeArchive: bool, from: State, loads: seq<Load>, l: Load)
    requires IsRadix(radix) && ValidArchive(index, members) && Run(radix, index, members, wholeArchive, from, loads, l.before)
    requires Asked(index, wholeArchive, l.entry, l.before) && LoadStep(radix, l.before, l.after, members[EntryMember(index, members, l.entry)])
    ensures Run(radix, index, members, wholeArchive, from, loads + [l], l.after)
  {
    hide LoadStep, Asked, ValidEntry;
    AskedIn(index, wholeArchive, l.entry, l.before);
    assert (loads + [l])[..|loads|] == loads;
  }

  lemma AskedIn(index: seq<IndexEntry>, wholeArchive: bool, entry: nat, before: State)
    requires Asked(index, wholeArchive, entry, before)
    ensures entry < |index|
  {}

  function EntryMember(index: seq<IndexEntry>, members: seq<Object>, i: nat): (m: nat)
    requires ValidArchive(index, members)
    ensures i < |index| ==> m == index[i].member
    ensures i < |index| ==> m < |members|
  {
    if i < |index| then (assert ValidEntry(index[i], members); index[i].member) else 0
  }

  /** No load of a run makes a defined name undefined. */
  lemma {:induction false} RunKeeps(radix: nat, index: seq<IndexEntry>, members: seq<Object>, wholeArchive: bool, from: State, loads: seq<Load>, to: State,
                                    name: string)
    requires IsRadix(radix) && ValidArchive(index, members) && Run(radix, index, members, wholeArchive, from, loads, to)
    requires IsDefined(Entry(from, name))
    ensures IsDefined(Entry(to, name))
    decreases |loads|
  {
    hide ValidArchive, Defines, EntryAt, IsDefined, Loaded, SymsDone, SymsFit, SymsKept, Asked;
    if loads != [] {
      var l := loads[|loads| - 1];
      AskedIn(index, wholeArchive, l.entry, l.before);
      RunKeeps(radix, index, members, wholeArchive, from, loads[..|loads| - 1], l.before, name);
      var obj := members[index[l.entry].member];
      var sm, otn :| LoadedBy(radix, l.before, l.after, obj, sm, otn);
      LoadDefines(radix, l.before.secs, l.after.secs, obj, sm, otn, l.before.syms, l.before.strtab, l.after.syms, l.after.strtab, name);
    }
  }

  /** No index name is asked for twice: once loaded it stays defined. */
  lemma AskedOnce(radix: nat, index: seq<IndexEntry>, members: seq<Object>, wholeArchive: bool, from: State, loads: seq<Load>, l: Load, more: seq<Load>,
                  to: State, entry: nat)
    requires IsRadix(radix) && ValidArchive(index, members) && Run(radix, index, members, wholeArchive, l.after, more, to)
    requires Asked(index, wholeArchive, l.entry, l.before) && LoadStep(radix, l.before, l.after, members[EntryMember(index, members, l.entry)])
    requires entry < |index| && index[entry].name == index[l.entry].name
    ensures !Asked(index, wholeArchive, entry, to)
  {
    hide EntryAt, Loaded, SymsDone, SymsFit, SymsKept, Defines;
    var obj := members[index[l.entry].member];
    assert ValidEntry(index[l.entry], members);
    var sm, otn :| LoadedBy(radix, l.before, l.after, obj, sm, otn);
    LoadDefines(radix, l.before.secs, l.after.secs, obj, sm, otn, l.before.syms, l.before.strtab, l.after.syms, l.after.strtab, index[l.entry].name);
    RunKeeps(radix, index, members, wholeArchive, l.after, more, to, index[l.entry].name);
  }

  /** One look at an index entry: its member is loaded when the name is undefined, or unknown with whole_archive. */
  method LookAt(o: Output, radix: nat, index: seq<IndexEntry>, members: seq<Object>, wholeArchive: bool, i: nat)
    returns (ok: bool, loaded: bool)
    requires IsRadix(radix) && ValidArchive(index, members) && i < |index| && IsName(index[i].name)
    requires ValidSections(o.secs) && Resolved(o.table)
    modifies o, o.table
    ensures Resolved(o.table) && (ok ==> ValidSections(o.secs))
    ensures loaded <==> Asked(index, wholeArchive, i, old(StateOf(o)))
    ensures !loaded ==> ok && StateOf(o) == old(StateOf(o))
    ensures loaded ==> (ok <==> Loadable(radix, old(o.secs), members[EntryMember(index, members, i)]))
    ensures ok && loaded ==> LoadStep(radix, old(StateOf(o)), StateOf(o), members[EntryMember(index, members, i)])
    ensures ok && loaded ==> IsDefined(Entry(StateOf(o), index[i].name))
    ensures ok && loaded ==> forall name :: IsDefined(Entry(old(StateOf(o)), name)) ==> IsDefined(Entry(StateOf(o), name))
  {
    hide ValidSections, Loaded, SymsDone, SymsFit, ValidObject, Keys, LastNamed, TableHolds, Unique, Loadable, SymsKept;
    ok, loaded := true, false;
    var p := index[i].name;
    ghost var m := EntryMember(index, members, i);
    var symIndex := o.table.FindElfSym(p);
    EntryIs(o.table.syms, o.table.strtab, p);
    if symIndex != 0 {
      if o.table.syms[symIndex].shndx == SHN_UNDEF { loaded := true; }
    } else if wholeArchive {
      loaded := true;
    }
    if loaded {
      ghost var sm; ghost var otn; var errors;
      ghost var before := StateOf(o);
      assert ValidEntry(index[i], members);
      var obj := members[index[i].member];
      ok, sm, otn, errors := o.LoadObject(obj, radix);
      if ok {
        assert LoadedBy(radix, before, StateOf(o), obj, sm, otn);
        LoadKeeps(radix, before.secs, o.secs, obj, sm, otn, before.syms, before.strtab, o.table.syms, o.table.strtab, p);
        LoadedValid(radix, before.secs, o.secs, obj, sm, otn);
      }
    }
  }

  lemma LoadKeeps(radix: nat, secs0: seq<Section>, secs: seq<Section>, obj: Object, sm: seq<Place>, oldToNew: seq<nat>,
                  syms0: seq<Sym>, strtab0: string, syms: seq<Sym>, strtab: string, p: string)
    requires IsRadix(radix) && Loaded(radix, secs0, secs, obj, sm, oldToNew) && SymsFit(obj, sm) && Defines(obj, p)
    requires SymsDone(syms0, strtab0, syms, strtab, obj, sm, oldToNew, |obj.syms|)
    ensures IsDefined(EntryAt(syms, strtab, p))
    ensures forall name :: IsDefined(EntryAt(syms0, strtab0, name)) ==> IsDefined(EntryAt(syms, strtab, name))
  {
    hide Loaded, SymsDone, SymsFit, EntryAt, IsDefined, Defines;
    LoadDefines(radix, secs0, secs, obj, sm, oldToNew, syms0, strtab0, syms, strtab, p);
    forall name | IsDefined(EntryAt(syms0, strtab0, name)) ensures IsDefined(EntryAt(syms, strtab, name)) {
      LoadDefines(radix, secs0, secs, obj, sm, oldToNew, syms0, strtab0, syms, strtab, name);
    }
  }

  lemma LoadedValid(radix: nat, secs0: seq<Section>, secs: seq<Section>, obj: Object, sm: seq<Place>, oldToNew: seq<nat>)
    requires IsRadix(radix) && Loaded(radix, secs0, secs, obj, sm, oldToNew)
    ensures ValidSections(secs)
  {}

  /** mkcc_load_alacarte: passes over the index until one loads nothing; it fails where the entry `failed` asks for an object that cannot be loaded. */
  method LoadAlacarte(o: Output, radix: nat, index: seq<IndexEntry>, members: seq<Object>, wholeArchive: bool)
    returns (ok: bool, ghost loads: seq<Load>, ghost failed: nat, ghost last: State)
    requires IsRadix(radix) && ValidArchive(index, members) && forall i :: 0 <= i < |index| ==> IsName(index[i].name)
    requires ValidSections(o.secs) && Resolved(o.table)
    modifies o, o.table
    ensures Resolved(o.table) && (ok ==> ValidSections(o.secs))
    ensures ok ==> last == StateOf(o) && forall i :: 0 <= i < |index| ==> Satisfied(Entry(last, index[i].name), wholeArchive)
    ensures Run(radix, index, members, wholeArchive, old(StateOf(o)), loads, last)
    ensures !ok ==> Asked(index, wholeArchive, failed, last) && !Loadable(radix, last.secs, members[EntryMember(index, members, failed)])
  {
    hide ValidSections, ValidArchive, Resolved, EntryAt, Missing, Names, Loadable, LoadStep;
    loads, failed, last := [], 0, StateOf(o);
    ghost var from := last;
    var bound := 1;
    while bound != 0
      invariant Resolved(o.table) && ValidSections(o.secs) && last == StateOf(o)
      invariant Run(radix, index, members, wholeArchive, from, loads, last)
      invariant bound == 0 ==> forall i :: 0 <= i < |index| ==> Satisfied(Entry(last, index[i].name), wholeArchive)
      decreases |Missing(o.table.syms, o.table.strtab, index)|, bound
    {
      ghost var before := |Missing(o.table.syms, o.table.strtab, index)|;
      bound := 0;
      for i := 0 to |index|
        invariant Resolved(o.table) && ValidSections(o.secs) && last == StateOf(o)
        invariant Run(radix, index, members, wholeArchive, from, loads, last)
        invariant |Missing(o.table.syms, o.table.strtab, index)| <= before
        invariant bound > 0 ==> |Missing(o.table.syms, o.table.strtab, index)| < before
        invariant bound == 0 ==> forall k :: 0 <= k < i ==> Satisfied(Entry(last, index[k].name), wholeArchive)
      {
        var loaded;
        ok, loaded := LookAt(o, radix, index, members, wholeArchive, i);
        if loaded {
          if !ok {
            failed := i;
            return;
          }
          bound := bound + 1;
          forall name | IsDefined(EntryAt(last.syms, last.strtab, name)) ensures IsDefined(EntryAt(o.table.syms, o.table.strtab, name)) {
            assert IsDefined(Entry(last, name));
          }
          MissingShrinks(last.syms, last.strtab, o.table.syms, o.table.strtab, index, i);
          RunMore(radix, index, members, wholeArchive, from, loads, Load(i, last, StateOf(o)));
          loads := loads + [Load(i, last, StateOf(o))];
          last := StateOf(o);
        }
      }
    }
    ok := true;
  }
}
