/** The ELF symbol table with its string table and the hash index kept inside the hash section. */
module SymbolTable {
  import opened Wrappers

  type Hash = string -> nat

  const NUL := '\0'

  predicate IsName(s: string) { NUL !in s }

  // ----- the string table -----

  /** The C string at an offset. */
  function StrAt(strtab: string, off: nat): string
    decreases |strtab| - off
  {
    if off >= |strtab| || strtab[off] == NUL then [] else [strtab[off]] + StrAt(strtab, off + 1)
  }

  predicate Terminated(strtab: string) { strtab != [] && strtab[|strtab| - 1] == NUL }

  /** Appending to the table changes no string already in it. */
  lemma {:induction false} StrKept(strtab: string, more: string, off: nat)
    requires Terminated(strtab) && off < |strtab|
    ensures StrAt(strtab + more, off) == StrAt(strtab, off)
    decreases |strtab| - off
  {
    if strtab[off] != NUL { StrKept(strtab, more, off + 1); }
  }

  /** put_elf_str then reading at the returned offset gives the string back. */
  lemma {:induction false} StrAdded(strtab: string, done: string, name: string)
    requires IsName(name)
    ensures StrAt(strtab + done + name + [NUL], |strtab| + |done|) == name
    decreases |name|
  {
    var all := strtab + done + name + [NUL];
    if name == [] {
      assert all[|strtab| + |done|] == NUL;
    } else {
      assert all[|strtab| + |done|] == name[0];
      assert all == strtab + (done + [name[0]]) + name[1..] + [NUL];
      StrAdded(strtab, done + [name[0]], name[1..]);
    }
  }

  // ----- symbols -----

  const STB_LOCAL := 0
  const STB_GLOBAL := 1
  const STB_WEAK := 2

  datatype Sym = Sym(name: nat, value: nat, size: nat, info: nat, other: nat, shndx: nat)

  function Bind(info: nat): nat { info % 256 / 16 }
  function Type(info: nat): nat { info % 16 }
  function Info(bind: nat, type_: nat): nat { 16 * bind + type_ % 16 }

  lemma InfoFields(bind: nat, type_: nat)
    requires bind < 16
    ensures Bind(Info(bind, type_)) == bind && Type(Info(bind, type_)) == type_ % 16 && Info(bind, type_) < 256
  {}

  /** What the index sees of a symbol: whether it is global or weak, and its name. */
  datatype Key = Key(hashed: bool, name: string)

  function KeyOf(s: Sym, strtab: string): Key { Key(Bind(s.info) != STB_LOCAL, StrAt(strtab, s.name)) }

  function Keys(syms: seq<Sym>, strtab: string): (ks: seq<Key>)
    ensures |ks| == |syms|
  {
    seq(|syms|, i requires 0 <= i < |syms| => KeyOf(syms[i], strtab))
  }

  // ----- linear scans: what the index must agree with -----

  /** The last global or weak symbol of that name before n, or 0: symbol 0 is the null symbol. */
  function LastNamed(ks: seq<Key>, name: string, n: nat): (r: nat)
    requires n <= |ks|
    ensures r < n || r == 0
    decreases n
  {
    if n <= 1 then 0 else if ks[n - 1] == Key(true, name) then n - 1 else LastNamed(ks, name, n - 1)
  }

  /** The last global or weak symbol before n whose name falls in the bucket, or 0. */
  function LastIn(ks: seq<Key>, hash: Hash, nb: nat, bucket: nat, n: nat): (r: nat)
    requires n <= |ks| && nb > 0
    ensures r < n || r == 0
    decreases n
  {
    if n <= 1 then 0
    else if ks[n - 1].hashed && hash(ks[n - 1].name) % nb == bucket then n - 1
    else LastIn(ks, hash, nb, bucket, n - 1)
  }

  /** LastNamed is the last match, and 0 exactly when there is none. */
  lemma {:induction false} LastNamedIs(ks: seq<Key>, name: string, n: nat)
    requires n <= |ks|
    ensures var r := LastNamed(ks, name, n);
      (r != 0 ==> r < n && ks[r] == Key(true, name)) && forall i :: r < i < n ==> ks[i] != Key(true, name)
    decreases n
  {
    if n > 1 && ks[n - 1] != Key(true, name) { LastNamedIs(ks, name, n - 1); }
  }

  /** A symbol of that name is the last of its bucket or lies before it. */
  lemma {:induction false} NamedInBucket(ks: seq<Key>, hash: Hash, nb: nat, name: string, n: nat)
    requires n <= |ks| && nb > 0
    ensures var i := LastIn(ks, hash, nb, hash(name) % nb, n);
      LastNamed(ks, name, n) == if i == 0 then 0 else if ks[i] == Key(true, name) then i else LastNamed(ks, name, i)
    ensures var i := LastIn(ks, hash, nb, hash(name) % nb, n); i != 0 ==> i < n && ks[i].hashed
    ensures var i := LastIn(ks, hash, nb, hash(name) % nb, n); i != 0 ==> hash(ks[i].name) % nb == hash(name) % nb
    decreases n
  {
    if n > 1 && !(ks[n - 1].hashed && hash(ks[n - 1].name) % nb == hash(name) % nb) {
      NamedInBucket(ks, hash, nb, name, n - 1);
    }
  }

  lemma {:induction false} ScanKept(ks: seq<Key>, k: Key, hash: Hash, nb: nat, bucket: nat, n: nat)
    requires n <= |ks| && nb > 0
    ensures LastIn(ks + [k], hash, nb, bucket, n) == LastIn(ks, hash, nb, bucket, n)
    decreases n
  {
    if n > 1 { ScanKept(ks, k, hash, nb, bucket, n - 1); }
  }

  // ----- the index: nb_buckets, nb_syms, the buckets, then one link per symbol -----

  predicate Shape(h: seq<nat>, n: nat) { |h| >= 2 && h[0] >= 1 && h[1] == n && |h| == 2 + h[0] + n }

  function Link(h: seq<nat>, i: nat): nat
    requires |h| >= 2 && |h| > 2 + h[0] + i
  {
    h[2 + h[0] + i]
  }

  /** The symbol a link must lead to: the previous one of the same bucket. */
  function Previous(ks: seq<Key>, hash: Hash, nb: nat, i: nat): nat
    requires i < |ks| && nb > 0
  {
    if i > 0 && ks[i].hashed then LastIn(ks, hash, nb, hash(ks[i].name) % nb, i) else 0
  }

  predicate BucketsHold(ks: seq<Key>, hash: Hash, h: seq<nat>, nb: nat, n: nat)
    requires n <= |ks| && nb > 0 && |h| >= 2 + nb
  {
    forall b :: 0 <= b < nb ==> h[2 + b] == LastIn(ks, hash, nb, b, n)
  }

  predicate LinksHold(ks: seq<Key>, hash: Hash, h: seq<nat>, nb: nat, n: nat)
    requires n <= |ks| && nb > 0 && |h| >= 2 + nb + n
  {
    forall i :: 0 <= i < n ==> h[2 + nb + i] == Previous(ks, hash, nb, i)
  }

  predicate IndexHolds(ks: seq<Key>, hash: Hash, h: seq<nat>)
  {
    Shape(h, |ks|) && BucketsHold(ks, hash, h, h[0], |ks|) && LinksHold(ks, hash, h, h[0], |ks|)
  }

  /** Number of hashed symbols. */
  function Hashed(ks: seq<Key>): nat
  {
    if ks == [] then 0 else Hashed(ks[..|ks| - 1]) + if ks[|ks| - 1].hashed then 1 else 0
  }

  /** Along any chain the symbol numbers fall. */
  lemma ChainsFall(ks: seq<Key>, hash: Hash, h: seq<nat>, i: nat)
    requires IndexHolds(ks, hash, h) && 0 < i < |ks|
    ensures Link(h, i) < i
  {
    assert h[2 + h[0] + i] == Previous(ks, hash, h[0], i);
  }

  /** Adding a symbol in front of its bucket, with its link at the end, keeps the index. */
  lemma IndexExtended(ks: seq<Key>, hash: Hash, h: seq<nat>, k: Key)
    requires IndexHolds(ks, hash, h) && ks != []
    ensures hash(k.name) % h[0] < h[0]
    ensures var b := hash(k.name) % h[0];
      IndexHolds(ks + [k], hash, IndexWith(h, k.hashed, b, |ks|))
  {
    var nb := h[0];
    var b := hash(k.name) % nb;
    var h' := IndexWith(h, k.hashed, b, |ks|);
    var ks' := ks + [k];
    forall c | 0 <= c < nb ensures h'[2 + c] == LastIn(ks', hash, nb, c, |ks'|) {
      ScanKept(ks, k, hash, nb, c, |ks|);
    }
    forall i | 0 <= i < |ks'| ensures h'[2 + nb + i] == Previous(ks', hash, nb, i) {
      if i < |ks| {
        assert h[2 + nb + i] == Previous(ks, hash, nb, i);
        if ks[i].hashed { ScanKept(ks, k, hash, nb, hash(ks[i].name) % nb, i); }
      } else {
        assert h[2 + b] == LastIn(ks, hash, nb, b, |ks|); ScanKept(ks, k, hash, nb, b, |ks|); }
    }
  }

  lemma HashedSnoc(ks: seq<Key>, k: Key)
    ensures Hashed(ks + [k]) == Hashed(ks) + if k.hashed then 1 else 0
  {
    assert (ks + [k])[..|ks|] == ks;
  }

  /** Adding a symbol whose name is already at name, or just put at the end of the string table. */
  lemma KeysSnoc(syms: seq<Sym>, strtab: string, s: Sym, more: string)
    requires Terminated(strtab) && (forall i :: 0 <= i < |syms| ==> syms[i].name < |strtab|)
    ensures Keys(syms + [s], strtab + more) == Keys(syms, strtab) + [KeyOf(s, strtab + more)]
  {
    forall i | 0 <= i < |syms| ensures KeyOf(syms[i], strtab + more) == KeyOf(syms[i], strtab) {
      StrKept(strtab, more, syms[i].name);
    }
  }

  /** One turn of rebuild_hash. */
  lemma RebuildStep(ks: seq<Key>, hash: Hash, h: seq<nat>, nb: nat, i: nat)
    requires 1 <= i < |ks| && nb > 0 && Shape(h, |ks|) && h[0] == nb
    requires BucketsHold(ks, hash, h, nb, i) && LinksHold(ks, hash, h, nb, i)
    ensures var b := hash(ks[i].name) % nb; b < nb
    ensures var b := hash(ks[i].name) % nb;
      var h' := if ks[i].hashed then h[2 + nb + i := h[2 + b]][2 + b := i] else h[2 + nb + i := 0];
      Shape(h', |ks|) && h'[0] == nb && BucketsHold(ks, hash, h', nb, i + 1) && LinksHold(ks, hash, h', nb, i + 1)
  {
    var b := hash(ks[i].name) % nb;
    var h' := if ks[i].hashed then h[2 + nb + i := h[2 + b]][2 + b := i] else h[2 + nb + i := 0];
    var n := i + 1;
    forall c | 0 <= c < nb ensures h'[2 + c] == LastIn(ks, hash, nb, c, n) {
      assert h[2 + c] == LastIn(ks, hash, nb, c, i);
    }
    forall j | 0 <= j < i + 1 ensures h'[2 + nb + j] == Previous(ks, hash, nb, j) {
      assert j < i ==> h[2 + nb + j] == Previous(ks, hash, nb, j);
      assert h[2 + b] == LastIn(ks, hash, nb, b, i);
    }
  }

  lemma RebuildStarts(ks: seq<Key>, hash: Hash, nb: nat)
    requires nb > 0 && ks != []
    ensures var h := [nb, |ks|] + seq(nb, _ => 0) + seq(|ks|, _ => 0);
      Shape(h, |ks|) && BucketsHold(ks, hash, h, nb, 1) && LinksHold(ks, hash, h, nb, 1)
  {}

  /** The whole state of the table: every name is in the string table, the index is complete, at most two per bucket. */
  predicate TableHolds(syms: seq<Sym>, strtab: string, h: seq<nat>, nbHashed: nat, hash: Hash)
  {
    syms != [] && Bind(syms[0].info) == STB_LOCAL && Terminated(strtab) && strtab[0] == NUL &&
    (forall i :: 0 <= i < |syms| ==> syms[i].name < |strtab|) &&
    IndexHolds(Keys(syms, strtab), hash, h) && nbHashed == Hashed(Keys(syms, strtab)) && nbHashed <= 2 * h[0]
  }

  /** The index once symbol n has been put in front of bucket b, or left out. */
  function IndexWith(h: seq<nat>, hashed: bool, b: nat, n: nat): seq<nat>
    requires Shape(h, n) && b < h[0]
  {
    if hashed then (h + [h[2 + b]])[2 + b := n][1 := n + 1] else (h + [0])[1 := n + 1]
  }

  /** A symbol appended to symbols, names and index; only the load may be too high by one. */
  lemma PutHolds(syms: seq<Sym>, strtab: string, h: seq<nat>, nbHashed: nat, hash: Hash, s: Sym, more: string)
    requires TableHolds(syms, strtab, h, nbHashed, hash) && s.name < |strtab + more| && Terminated(strtab + more)
    ensures Shape(h, |syms|)
    ensures var k := KeyOf(s, strtab + more);
      Keys(syms + [s], strtab + more) == Keys(syms, strtab) + [k] &&
      hash(k.name) % h[0] < h[0] && nbHashed <= 2 * h[0] &&
      IndexHolds(Keys(syms, strtab) + [k], hash, IndexWith(h, k.hashed, hash(k.name) % h[0], |syms|)) &&
      Hashed(Keys(syms, strtab) + [k]) == nbHashed + (if k.hashed then 1 else 0)
  {
    hide LastIn, StrAt, Hashed, BucketsHold, LinksHold;
    var ks, k := Keys(syms, strtab), KeyOf(s, strtab + more);
    KeysSnoc(syms, strtab, s, more);
    IndexExtended(ks, hash, h, k);
    HashedSnoc(ks, k);
  }

  lemma PutBases(syms: seq<Sym>, strtab: string, s: Sym, more: string)
    requires syms != [] && Bind(syms[0].info) == STB_LOCAL && strtab != [] && strtab[0] == NUL
    requires (forall i :: 0 <= i < |syms| ==> syms[i].name < |strtab|) && s.name < |strtab + more|
    ensures Bind((syms + [s])[0].info) == STB_LOCAL && (strtab + more)[0] == NUL
    ensures forall i :: 0 <= i < |syms + [s]| ==> (syms + [s])[i].name < |strtab + more|
  {}

  /** Only binding and name matter to the index. */
  lemma KeysPatched(syms: seq<Sym>, strtab: string, i: nat, s: Sym)
    requires i < |syms| && KeyOf(s, strtab) == KeyOf(syms[i], strtab)
    ensures Keys(syms[i := s], strtab) == Keys(syms, strtab)
  {}

  class Symtab {
    var syms: seq<Sym>
    var strtab: string
    var hash: seq<nat>
    var nbHashed: nat
    const hashOf: Hash

    function Ks(): (ks: seq<Key>)
      reads this
    {
      Keys(syms, strtab)
    }

    ghost predicate Valid()
      reads this
    {
      TableHolds(syms, strtab, hash, nbHashed, hashOf)
    }

    /** new_symtab: the null symbol, one bucket, no hashed symbol. */
    constructor (h: Hash)
      ensures Valid() && syms == [Sym(0, 0, 0, 0, 0, 0)] && hashOf == h
    {
      syms, strtab, hash, nbHashed, hashOf := [Sym(0, 0, 0, 0, 0, 0)], [NUL], [1, 1, 0, 0], 0, h;
      new;
      assert Ks() == [Key(false, [])];
    }

    /** put_elf_str */
    method PutElfStr(name: string) returns (offset: nat)
      requires IsName(name) && Terminated(strtab)
      modifies this`strtab
      ensures offset == |old(strtab)| && strtab == old(strtab) + name + [NUL]
      ensures Terminated(strtab) && StrAt(strtab, offset) == name
    {
      offset := |strtab|;
      strtab := strtab + name + [NUL];
      StrAdded(old(strtab), [], name);
      assert old(strtab) + [] + name == old(strtab) + name;
    }

    /** rebuild_hash: the index written afresh with nb buckets. */
    method RebuildHash(nb: nat)
      requires nb > 0 && syms != []
      modifies this`hash
      ensures IndexHolds(Ks(), hashOf, hash) && hash[0] == nb
    {
      hide KeyOf, Keys, BucketsHold, LinksHold;
      ghost var ks := Ks();
      var n := |syms|;
      var h: seq<nat> := [nb, n] + seq(nb, _ => 0) + seq(n, _ => 0);
      RebuildStarts(ks, hashOf, nb);
      var symIndex := 1;
      while symIndex < n
        invariant 1 <= symIndex <= n && Shape(h, n) && h[0] == nb
        invariant BucketsHold(ks, hashOf, h, nb, symIndex) && LinksHold(ks, hashOf, h, nb, symIndex)
      {
        KeysAt(syms, strtab, symIndex);
        RebuildStep(ks, hashOf, h, nb, symIndex);
        if Bind(syms[symIndex].info) != STB_LOCAL {
          var b := hashOf(StrAt(strtab, syms[symIndex].name)) % nb;
          h := h[2 + nb + symIndex := h[2 + b]];
          h := h[2 + b := symIndex];
        } else {
          h := h[2 + nb + symIndex := 0];
        }
        symIndex := symIndex + 1;
      }
      hash := h;
    }

    /** put_elf_sym */
    method PutElfSym(value: nat, size: nat, info: nat, other: nat, shndx: nat, name: Option<string>) returns (symIndex: nat)
      requires Valid() && (name.Some? ==> IsName(name.value)) && (Bind(info) != STB_LOCAL ==> name.Some?)
      modifies this
      ensures Valid() && symIndex == |old(syms)| && |syms| == symIndex + 1
      ensures syms == old(syms) + [Sym(syms[symIndex].name, value, size, info % 256, other, shndx)]
      ensures Ks() == old(Ks()) + [Key(Bind(info) != STB_LOCAL, if name.Some? then name.value else [])]
    {
      hide IndexHolds, Keys, Hashed, StrAt, Shape;
      symIndex := |syms|;
      var offset := 0;
      if name.Some? { offset := PutElfStr(name.value); }
      ghost var more := strtab[|old(strtab)|..];
      assert strtab == old(strtab) + more;
      var sym := Sym(offset, value, size, info % 256, other, shndx);
      NullName(strtab);
      PutHolds(syms, old(strtab), hash, nbHashed, hashOf, sym, more);
      PutBases(syms, old(strtab), sym, more);
      syms := syms + [sym];
      assert Ks() == old(Ks()) + [KeyOf(sym, strtab)];
      ShapeFacts(hash, symIndex);
      var nb := hash[0];
      if Bind(info) != STB_LOCAL {
        var b := hashOf(name.value) % nb;
        hash := (hash + [hash[2 + b]])[2 + b := symIndex][1 := hash[1] + 1];
        nbHashed := nbHashed + 1;
        if nbHashed > 2 * nb { RebuildHash(2 * nb); }
      } else {
        hash := (hash + [0])[1 := hash[1] + 1];
      }
    }

    /** find_elf_sym: the last global or weak symbol of that name, 0 exactly when a scan finds none. */
    method FindElfSym(name: string) returns (symIndex: nat)
      requires Valid()
      ensures symIndex == LastNamed(Ks(), name, |syms|)
      ensures symIndex != 0 ==> symIndex < |syms| && Ks()[symIndex] == Key(true, name)
      ensures forall i :: symIndex < i < |syms| ==> Ks()[i] != Key(true, name)
    {
      hide IndexHolds, Keys, LastNamed, LastIn, StrAt;
      ghost var ks := Ks();
      LastNamedIs(ks, name, |ks|);
      IndexShape(ks, hashOf, hash);
      NamedInBucket(ks, hashOf, hash[0], name, |ks|);
      var nb := hash[0];
      var h := hashOf(name) % nb;
      IndexReads(ks, hashOf, hash, h);
      symIndex := hash[2 + h];
      while symIndex != 0
        invariant symIndex < |ks|
        invariant LastNamed(ks, name, |ks|) ==
          if symIndex == 0 then 0 else if ks[symIndex] == Key(true, name) then symIndex else LastNamed(ks, name, symIndex)
        invariant symIndex != 0 ==> ks[symIndex].hashed && hashOf(ks[symIndex].name) % nb == h
        decreases symIndex
      {
        KeysAt(syms, strtab, symIndex);
        if StrAt(strtab, syms[symIndex].name) == name { return; }
        NamedInBucket(ks, hashOf, nb, name, symIndex);
        IndexLinks(ks, hashOf, hash, symIndex);
        symIndex := hash[2 + nb + symIndex];
      }
    }
  }

  lemma NullName(strtab: string)
    ensures strtab != [] && strtab[0] == NUL ==> StrAt(strtab, 0) == []
  {}

  lemma ShapeFacts(h: seq<nat>, n: nat)
    requires Shape(h, n)
    ensures |h| >= 2 && h[0] >= 1 && h[1] == n && |h| == 2 + h[0] + n
  {}

  lemma KeysAt(syms: seq<Sym>, strtab: string, i: nat)
    requires i < |syms|
    ensures Keys(syms, strtab)[i] == Key(Bind(syms[i].info) != STB_LOCAL, StrAt(strtab, syms[i].name))
  {}

  lemma IndexShape(ks: seq<Key>, hash: Hash, h: seq<nat>)
    requires IndexHolds(ks, hash, h)
    ensures Shape(h, |ks|)
  {}

  lemma IndexReads(ks: seq<Key>, hash: Hash, h: seq<nat>, b: nat)
    requires IndexHolds(ks, hash, h) && b < h[0]
    ensures h[2 + b] == LastIn(ks, hash, h[0], b, |ks|)
  {}

  lemma IndexLinks(ks: seq<Key>, hash: Hash, h: seq<nat>, i: nat)
    requires IndexHolds(ks, hash, h) && i < |ks|
    ensures h[2 + h[0] + i] == Previous(ks, hash, h[0], i)
  {}
}
