/** Forward jumps of the i386 generator: lists threaded through the displacement fields of the code being emitted. */
module JumpLists {
  import opened Bytes

  // ----- lists -----

  /** The cells of the zero-terminated list that starts at t, in order. */
  predicate IsList(data: seq<Byte>, t: nat, cells: seq<nat>)
    decreases |cells|
  {
    if t == 0 then cells == []
    else cells != [] && cells[0] == t && t + 4 <= |data| && IsList(data, Read(data, t), cells[1..])
  }

  predicate InBounds(cells: seq<nat>, n: nat) { forall i :: 0 <= i < |cells| ==> 0 < cells[i] && cells[i] + 4 <= n }

  /** No two cells of the list overlap; in particular it never comes back to one. */
  predicate Distinct(cells: seq<nat>) { forall i, j :: 0 <= i < j < |cells| ==> Apart(cells[i], cells[j]) }

  predicate AllApart(c: seq<nat>, d: seq<nat>) { forall i, j :: 0 <= i < |c| && 0 <= j < |d| ==> Apart(c[i], d[j]) }

  /** The buffers read the same in every cell. */
  predicate SameCells(data: seq<Byte>, data': seq<Byte>, cells: seq<nat>)
  {
    forall i :: 0 <= i < |cells| ==>
      cells[i] + 4 <= |data| && cells[i] + 4 <= |data'| && Read(data, cells[i]) == Read(data', cells[i])
  }

  lemma {:induction false} ListKept(data: seq<Byte>, data': seq<Byte>, t: nat, cells: seq<nat>)
    requires IsList(data, t, cells) && SameCells(data, data', cells)
    ensures IsList(data', t, cells)
    decreases |cells|
  {
    if t != 0 {
      assert forall i :: 0 <= i < |cells[1..]| ==> cells[1..][i] == cells[i + 1];
      ListKept(data, data', Read(data, t), cells[1..]);
      assert cells[0] == t;
    }
  }

  /** Writing at the end of a list appends the list written there. */
  lemma {:induction false} ListJoined(data: seq<Byte>, n: nat, c: seq<nat>, t: nat, d: seq<nat>)
    requires IsList(data, n, c) && IsList(data, t, d) && n != 0 && t < WORD
    requires InBounds(c, |data|) && Distinct(c) && AllApart(c, d)
    ensures IsList(Write(data, c[|c| - 1], t), n, c + d)
    decreases |c|
  {
    hide Read, Write;
    var last := c[|c| - 1];
    var data' := Write(data, last, t);
    if |c| == 1 {
      ReadWritten(data, last, t);
      forall i | 0 <= i < |d| ensures d[i] + 4 <= |data| && Apart(last, d[i]) { ListInBounds(data, t, d, i); }
      CellsUntouched(data, last, t, d);
      ListKept(data, data', t, d);
      assert (c + d)[1..] == d;
    } else {
      var n' := Read(data, n);
      assert c[1..][|c[1..]| - 1] == last;
      assert n' != 0;
      forall i, j | 0 <= i < |c[1..]| && 0 <= j < |d| ensures Apart(c[1..][i], d[j]) { assert c[1..][i] == c[i + 1]; }
      ListJoined(data, n', c[1..], t, d);
      assert Apart(c[0], c[|c| - 1]);
      ReadElsewhere(data, last, t, n);
      assert (c + d)[1..] == c[1..] + d;
    }
  }

  /** The buffer determines a list: following the links finds these cells and no others. */
  lemma {:induction false} ListUnique(data: seq<Byte>, t: nat, c: seq<nat>, d: seq<nat>)
    requires IsList(data, t, c) && IsList(data, t, d)
    ensures c == d
    decreases |c|
  {
    if t != 0 {
      ListUnique(data, Read(data, t), c[1..], d[1..]);
      assert c == [t] + c[1..] && d == [t] + d[1..];
    }
  }

  lemma CellsUntouched(data: seq<Byte>, t: nat, v: int, cells: seq<nat>)
    requires t + 4 <= |data|
    requires forall i :: 0 <= i < |cells| ==> cells[i] + 4 <= |data| && Apart(t, cells[i])
    ensures SameCells(data, Write(data, t, v), cells)
  {
    forall i | 0 <= i < |cells| ensures Read(data, cells[i]) == Read(Write(data, t, v), cells[i]) {
      ReadElsewhere(data, t, v, cells[i]);
    }
  }

  lemma {:induction false} ListInBounds(data: seq<Byte>, t: nat, cells: seq<nat>, i: nat)
    requires IsList(data, t, cells) && i < |cells|
    ensures 0 < cells[i] && cells[i] + 4 <= |data|
    ensures IsList(data, cells[i], cells[i..])
    ensures IsList(data, Read(data, cells[i]), cells[i + 1..])
    decreases |cells|
  {
    if i == 0 {
      assert cells[0..] == cells;
    } else {
      ListInBounds(data, Read(data, t), cells[1..], i - 1);
      assert cells[1..][i - 1..] == cells[i..] && cells[1..][i..] == cells[i + 1..];
    }
  }

  // ----- jumps -----

  /** Where the jump whose displacement is at c goes: relative to the byte after the displacement. */
  function Target(data: seq<Byte>, c: nat): nat
    requires c + 4 <= |data|
  {
    (c + 4 + Read(data, c)) % WORD
  }

  lemma PatchedTarget(data: seq<Byte>, c: nat, a: nat)
    requires c + 4 <= |data| && a < WORD
    ensures Target(Write(data, c, a - c - 4), c) == a
  {
    hide Read, Write;
    var d := a - c - 4;
    ReadWritten(data, c, d);
    assert d == d / WORD * WORD + d % WORD;
    assert c + 4 + d % WORD == a + (-(d / WORD)) * WORD;
    WrapsTo(a, -(d / WORD));
  }

  lemma WrapsTo(a: nat, k: int)
    requires a < WORD
    ensures (a + k * WORD) % WORD == a
  {}

  /** o(): the bytes of an opcode, low byte first, up to its last non-zero byte. */
  function OpcodeBytes(c: nat): seq<Byte>
  {
    if c == 0 then [] else [c % 256] + OpcodeBytes(c / 256)
  }

  /** What gtst finds on the value stack: flags set by a comparison, or a pending jump list taken on false (0) or true (1). */
  datatype Test = Flags(op: nat) | Jumps(taken: nat, list: nat) | OtherValue

  /** Condition code xor inv. */
  function Inverted(op: nat, inv: nat): nat
    requires inv <= 1
  {
    if inv == 0 then op else if op % 2 == 0 then op + 1 else op - 1
  }

  /** The processor flags a conditional jump looks at: overflow, carry, zero, sign and parity. */
  datatype Eflags = Eflags(o: bool, c: bool, z: bool, s: bool, p: bool)

  /** Whether a conditional jump with the given condition code is taken (table B-1, "Condition Codes", of the Intel 64 and IA-32
      Architectures Software Developer's Manual, volume 1). */
  predicate Taken(cc: nat, f: Eflags)
    requires cc < 16
  {
    match cc
    case 0 => f.o       case 1 => !f.o
    case 2 => f.c       case 3 => !f.c
    case 4 => f.z       case 5 => !f.z
    case 6 => f.c || f.z
    case 7 => !f.c && !f.z
    case 8 => f.s       case 9 => !f.s
    case 10 => f.p      case 11 => !f.p
    case 12 => f.s != f.o
    case 13 => f.s == f.o
    case 14 => f.z || f.s != f.o
    case _ => !f.z && f.s == f.o
  }

  /** The second byte of a conditional jump, 0x80 and the condition code: inverted, the jump is taken exactly when it was not. */
  lemma InvertedJumps(cc: nat, inv: nat, f: Eflags)
    requires cc < 16 && inv <= 1
    ensures 0x80 <= Inverted(0x80 + cc, inv) < 0x90
    ensures Taken(Inverted(0x80 + cc, inv) - 0x80, f) <==> (Taken(cc, f) <==> inv == 0)
    ensures Inverted(Inverted(0x80 + cc, inv), inv) == 0x80 + cc
  {}

  lemma JoinedDistinct(c: seq<nat>, d: seq<nat>)
    requires Distinct(c) && Distinct(d) && AllApart(c, d)
    ensures Distinct(c + d)
  {}

  // ----- the whole code buffer -----

  /** The largest offset a 32-bit code position may reach. */
  const LIMIT := 0x8000_0000

  /** The open lists, by first cell, are what the buffer holds, below n, each without overlaps. */
  predicate ListsHold(data: seq<Byte>, n: nat, lists: map<nat, seq<nat>>)
  {
    forall h :: h in lists ==> IsOpenList(data, n, h, lists[h])
  }

  predicate IsOpenList(data: seq<Byte>, n: nat, h: nat, cells: seq<nat>)
  {
    0 < |cells| && cells[0] == h && n <= |data| && IsList(data, h, cells) && InBounds(cells, n) && Distinct(cells)
  }

  predicate ListsApart(lists: map<nat, seq<nat>>)
  {
    forall h, k :: h in lists && k in lists && h != k ==> AllApart(lists[h], lists[k])
  }

  predicate LandedHold(data: seq<Byte>, n: nat, landed: map<nat, nat>)
  {
    n <= |data| && forall c :: c in landed ==> 0 < c && c + 4 <= n && Target(data, c) == landed[c]
  }

  predicate LandedApart(landed: map<nat, nat>, lists: map<nat, seq<nat>>)
  {
    forall h :: h in lists ==> ClearOf(landed, lists[h])
  }

  predicate ClearOf(landed: map<nat, nat>, cells: seq<nat>)
  {
    forall c, i :: c in landed && 0 <= i < |cells| ==> Apart(c, cells[i])
  }

  predicate WellThreaded(data: seq<Byte>, n: nat, lists: map<nat, seq<nat>>, landed: map<nat, nat>)
  {
    n <= |data| && ListsHold(data, n, lists) && ListsApart(lists) && LandedHold(data, n, landed) && LandedApart(landed, lists)
  }

  /** Emitting more code disturbs nothing. */
  lemma Grown(data: seq<Byte>, n: nat, data': seq<Byte>, n': nat, lists: map<nat, seq<nat>>, landed: map<nat, nat>)
    requires WellThreaded(data, n, lists, landed) && n <= n' <= |data'| && data[..n] == data'[..n]
    ensures WellThreaded(data', n', lists, landed)
  {
    hide ReadBytes, IsList, Distinct, ListsApart, LandedApart;
    PrefixRead(data, data', n);
    forall h | h in lists ensures IsOpenList(data', n', h, lists[h]) {
      assert IsOpenList(data, n, h, lists[h]);
      ListKept(data, data', h, lists[h]);
    }
  }

  lemma PrefixRead(data: seq<Byte>, data': seq<Byte>, n: nat)
    requires n <= |data| && n <= |data'| && data[..n] == data'[..n]
    ensures forall c: nat :: c + 4 <= n ==> Read(data, c) == Read(data', c)
  {
    hide ReadBytes;
    assert forall k :: 0 <= k < n ==> data[k] == data[..n][k] == data'[k];
  }

  type Lists = map<nat, seq<nat>>

  predicate Open(lists: Lists, t: nat) { t == 0 || t in lists }

  function CellsOf(lists: Lists, t: nat): seq<nat>
    requires Open(lists, t)
  {
    if t == 0 then [] else lists[t]
  }

  /** The other lists. */
  function Without(lists: Lists, t: nat): Lists { lists - {t} }

  lemma OpenListFacts(data: seq<Byte>, n: nat, lists: Lists, landed: map<nat, nat>, t: nat)
    requires WellThreaded(data, n, lists, landed) && Open(lists, t)
    ensures IsList(data, t, CellsOf(lists, t)) && InBounds(CellsOf(lists, t), n) && Distinct(CellsOf(lists, t))
    ensures forall h :: h in Without(lists, t) ==> AllApart(CellsOf(lists, t), lists[h]) && AllApart(lists[h], CellsOf(lists, t))
    ensures ClearOf(landed, CellsOf(lists, t)) && 0 !in lists && Without(lists, 0) == lists
  {
    hide Target;
    forall h | h in lists ensures h != 0 { assert IsOpenList(data, n, h, lists[h]); }
    if t != 0 {
      assert IsOpenList(data, n, t, lists[t]);
      forall h | h in Without(lists, t) ensures AllApart(CellsOf(lists, t), lists[h]) { assert h != t; }
    }
  }

  /** Replacing list t by one whose cells are its own or new keeps all lists apart. */
  lemma ListReplaced(data: seq<Byte>, n: nat, lists: Lists, landed: map<nat, nat>, t: nat, h: nat, cells: seq<nat>)
    requires WellThreaded(data, n, Without(lists, t), landed) && IsOpenList(data, n, h, cells)
    requires ClearOf(landed, cells)
    requires forall k :: k in Without(lists, t) ==> AllApart(cells, lists[k]) && AllApart(lists[k], cells)
    ensures WellThreaded(data, n, Without(lists, t)[h := cells], landed)
  {
    hide IsOpenList, AllApart, ClearOf, LandedHold;
  }

  lemma FewerLists(data: seq<Byte>, n: nat, lists: Lists, landed: map<nat, nat>, t: nat)
    requires WellThreaded(data, n, lists, landed)
    ensures WellThreaded(data, n, Without(lists, t), landed)
  {
    hide IsOpenList, AllApart, ClearOf, LandedHold;
  }

  /** Lists once a jump at r has been put in front of list t. */
  function Pushed(lists: Lists, t: nat, r: nat): Lists
    requires Open(lists, t)
  {
    Without(lists, t)[r := [r] + CellsOf(lists, t)]
  }

  lemma PushedHolds(data: seq<Byte>, r: nat, lists: Lists, landed: map<nat, nat>, t: nat)
    requires WellThreaded(data, r, lists, landed) && Open(lists, t)
    requires 0 < r && r + 4 <= |data| && Read(data, r) == t
    ensures WellThreaded(data, r + 4, Pushed(lists, t, r), landed)
  {
    hide Read, Target, IsList, Distinct, AllApart, ClearOf, InBounds, ListsApart, LandedHold, LandedApart;
    var cells := CellsOf(lists, t);
    OpenListFacts(data, r, lists, landed, t);
    FewerLists(data, r, lists, landed, t);
    Grown(data, r, data, r + 4, Without(lists, t), landed);
    PushedCells(data, r, landed, t, cells);
    forall k | k in Without(lists, t) ensures AllApart([r] + cells, lists[k]) && AllApart(lists[k], [r] + cells) {
      assert IsOpenList(data, r, k, lists[k]);
      NewApart(r, lists[k]);
      JoinApart([r], cells, lists[k]);
    }
    ListReplaced(data, r + 4, lists, landed, t, r, [r] + cells);
  }

  lemma NewApart(r: nat, e: seq<nat>)
    requires InBounds(e, r)
    ensures AllApart([r], e) && AllApart(e, [r])
  {}

  lemma PushedCells(data: seq<Byte>, r: nat, landed: map<nat, nat>, t: nat, cells: seq<nat>)
    requires IsList(data, t, cells) && InBounds(cells, r) && Distinct(cells) && ClearOf(landed, cells)
    requires 0 < r && r + 4 <= |data| && Read(data, r) == t && LandedHold(data, r, landed)
    ensures IsOpenList(data, r + 4, r, [r] + cells) && ClearOf(landed, [r] + cells)
  {
    hide Read, Target;
    assert ([r] + cells)[1..] == cells;
  }

  /** Lists once list t has been appended to list m. */
  function Merged(lists: Lists, m: nat, t: nat): Lists
    requires m in lists && Open(lists, t)
  {
    Without(lists, t)[m := lists[m] + CellsOf(lists, t)]
  }

  lemma MergedHolds(data: seq<Byte>, n: nat, lists: Lists, landed: map<nat, nat>, m: nat, t: nat, data': seq<Byte>)
    requires WellThreaded(data, n, lists, landed) && m in lists && m != 0 && Open(lists, t) && t != m && t < WORD
    requires |lists[m]| > 0 && lists[m][|lists[m]| - 1] + 4 <= |data| && data' == Write(data, lists[m][|lists[m]| - 1], t)
    ensures WellThreaded(data', n, Merged(lists, m, t), landed)
  {
    hide Read, Write, Target, IsList, Distinct, AllApart, ClearOf, InBounds, IsOpenList, CellsOf, Merged, WellThreaded;
    var c, d := lists[m], CellsOf(lists, t);
    var rest := Without(Without(lists, t), m);
    MergedCells(data, n, lists, landed, m, t);
    FewerLists(data, n, lists, landed, t);
    FewerLists(data, n, Without(lists, t), landed, m);
    LastApart(c, rest, landed);
    Untouched(data, n, rest, landed, c[|c| - 1], t);
    ListReplaced(data', n, Without(lists, t), landed, m, m, c + d);
    MergedIs(lists, m, t);
  }

  lemma MergedIs(lists: Lists, m: nat, t: nat)
    requires m in lists && Open(lists, t)
    ensures Merged(lists, m, t) == Without(Without(lists, t), m)[m := lists[m] + CellsOf(lists, t)]
  {}

  lemma LastApart(c: seq<nat>, lists: Lists, landed: map<nat, nat>)
    requires c != [] && ClearOf(landed, c) && forall k :: k in lists ==> AllApart(c, lists[k])
    ensures forall h, i :: h in lists && 0 <= i < |lists[h]| ==> Apart(c[|c| - 1], lists[h][i])
    ensures forall e :: e in landed ==> Apart(e, c[|c| - 1])
  {}

  /** The joined cells are one open list, apart from every other. */
  lemma MergedCells(data: seq<Byte>, n: nat, lists: Lists, landed: map<nat, nat>, m: nat, t: nat)
    requires WellThreaded(data, n, lists, landed) && m in lists && m != 0 && Open(lists, t) && t != m && t < WORD
    ensures var c, d := lists[m], CellsOf(lists, t);
      0 < |c| && c[|c| - 1] + 4 <= |data| && IsOpenList(Write(data, c[|c| - 1], t), n, m, c + d) && ClearOf(landed, c + d) &&
      ClearOf(landed, c) && n <= |data| &&
      forall k :: k in Without(Without(lists, t), m) ==>
        k in lists && AllApart(c, lists[k]) && AllApart(c + d, lists[k]) && AllApart(lists[k], c + d)
  {
    hide Read, Write, Target, IsList, Distinct, AllApart, ClearOf, InBounds;
    var c, d := lists[m], CellsOf(lists, t);
    OpenListFacts(data, n, lists, landed, m);
    OpenListFacts(data, n, lists, landed, t);
    ListHead(data, m, c);
    InBoundsAt(c, n, |c| - 1);
    InBoundsWiden(c, n, |data|);
    assert t != 0 ==> t in Without(lists, m);
    assert m in Without(lists, t);
    JoinFacts(c, d, n, landed);
    ListJoined(data, m, c, t, d);
    JoinedDistinct(c, d);
    forall k | k in Without(Without(lists, t), m) ensures AllApart(c + d, lists[k]) && AllApart(lists[k], c + d) {
      assert k in Without(lists, t) && k in Without(lists, m);
      JoinApart(c, d, lists[k]);
    }
  }

  lemma ListHead(data: seq<Byte>, t: nat, cells: seq<nat>)
    requires IsList(data, t, cells) && t != 0
    ensures 0 < |cells| && cells[0] == t
  {}

  lemma InBoundsAt(cells: seq<nat>, n: nat, i: nat)
    requires InBounds(cells, n) && i < |cells|
    ensures 0 < cells[i] && cells[i] + 4 <= n
  {}

  lemma InBoundsWiden(cells: seq<nat>, n: nat, m: nat)
    requires InBounds(cells, n) && n <= m
    ensures InBounds(cells, m)
  {}

  lemma JoinFacts(c: seq<nat>, d: seq<nat>, n: nat, landed: map<nat, nat>)
    requires InBounds(c, n) && InBounds(d, n) && ClearOf(landed, c) && ClearOf(landed, d) && c != []
    ensures InBounds(c + d, n) && ClearOf(landed, c + d) && (c + d)[0] == c[0]
  {}

  lemma JoinApart(c: seq<nat>, d: seq<nat>, e: seq<nat>)
    requires AllApart(c, e) && AllApart(d, e) && AllApart(e, c) && AllApart(e, d)
    ensures AllApart(c + d, e) && AllApart(e, c + d)
  {}

  /** A write in a cell that belongs to no list and to no resolved jump disturbs nothing. */
  lemma Untouched(data: seq<Byte>, n: nat, lists: Lists, landed: map<nat, nat>, t: nat, v: int)
    requires WellThreaded(data, n, lists, landed) && t + 4 <= |data|
    requires forall h, i :: h in lists && 0 <= i < |lists[h]| ==> Apart(t, lists[h][i])
    requires forall c :: c in landed ==> Apart(c, t)
    ensures WellThreaded(Write(data, t, v), n, lists, landed)
  {
    hide Read, Write, IsList, Distinct, ListsApart, LandedApart;
    var data' := Write(data, t, v);
    forall h | h in lists ensures IsOpenList(data', n, h, lists[h]) {
      assert IsOpenList(data, n, h, lists[h]);
      CellsUntouched(data, t, v, lists[h]);
      ListKept(data, data', h, lists[h]);
    }
    forall c | c in landed ensures Target(data', c) == landed[c] { ReadElsewhere(data, t, v, c); }
  }

  /** Lists once the first jump of list t has been resolved. */
  function Popped(lists: Lists, t: nat, next: nat): Lists
    requires t in lists && |lists[t]| > 0
  {
    if next == 0 then Without(lists, t) else Without(lists, t)[next := lists[t][1..]]
  }

  lemma PoppedHolds(data: seq<Byte>, n: nat, lists: Lists, landed: map<nat, nat>, t: nat, a: nat)
    requires WellThreaded(data, n, lists, landed) && t in lists && t != 0 && a < WORD
    ensures t + 4 <= |data| && |lists[t]| > 0
    ensures WellThreaded(Write(data, t, a - t - 4), n, Popped(lists, t, Read(data, t)), landed[t := a])
  {
    hide Read, Write, Target, IsList, Distinct, AllApart, InBounds, ListsApart;
    OpenListFacts(data, n, lists, landed, t);
    var cells := lists[t];
    ListHead(data, t, cells);
    InBoundsAt(cells, n, 0);
    var rest, data', next := Without(lists, t), Write(data, t, a - t - 4), Read(data, t);
    FewerLists(data, n, lists, landed, t);
    FirstApart(cells, rest, landed);
    Untouched(data, n, rest, landed, t, a - t - 4);
    PatchedTarget(data, t, a);
    LandedMore(data', n, rest, landed, t, a);
    if next != 0 {
      TailHolds(data, n, lists, landed, t, a);
      TailApart(cells, rest, landed, a);
      ListReplaced(data', n, lists, landed[t := a], t, next, cells[1..]);
    }
  }

  lemma FirstApart(c: seq<nat>, lists: Lists, landed: map<nat, nat>)
    requires c != [] && ClearOf(landed, c) && forall k :: k in lists ==> AllApart(c, lists[k])
    ensures forall h, i :: h in lists && 0 <= i < |lists[h]| ==> Apart(c[0], lists[h][i])
    ensures forall e :: e in landed ==> Apart(e, c[0])
  {}

  lemma TailApart(c: seq<nat>, lists: Lists, landed: map<nat, nat>, a: nat)
    requires c != [] && ClearOf(landed, c) && Distinct(c)
    requires forall k :: k in lists ==> AllApart(c, lists[k]) && AllApart(lists[k], c)
    ensures ClearOf(landed[c[0] := a], c[1..])
    ensures forall k :: k in lists ==> AllApart(c[1..], lists[k]) && AllApart(lists[k], c[1..])
  {
    assert forall i :: 0 <= i < |c[1..]| ==> c[1..][i] == c[i + 1];
  }

  lemma LandedMore(data: seq<Byte>, n: nat, lists: Lists, landed: map<nat, nat>, t: nat, a: nat)
    requires WellThreaded(data, n, lists, landed) && 0 < t && t + 4 <= n && Target(data, t) == a
    requires forall h, i :: h in lists && 0 <= i < |lists[h]| ==> Apart(t, lists[h][i])
    ensures WellThreaded(data, n, lists, landed[t := a])
  {
    hide IsOpenList, AllApart, Target;
  }

  lemma TailHolds(data: seq<Byte>, n: nat, lists: Lists, landed: map<nat, nat>, t: nat, a: int)
    requires WellThreaded(data, n, lists, landed) && t in lists && t != 0 && t + 4 <= |data| && Read(data, t) != 0
    ensures |lists[t]| > 0 && IsOpenList(Write(data, t, a - t - 4), n, Read(data, t), lists[t][1..])
  {
    hide Read, Write;
    OpenListFacts(data, n, lists, landed, t);
    var cells := lists[t];
    var tail := cells[1..];
    assert forall i :: 0 <= i < |tail| ==> tail[i] == cells[i + 1];
    CellsUntouched(data, t, a - t - 4, tail);
    ListKept(data, Write(data, t, a - t - 4), Read(data, t), tail);
  }

  /** Every byte outside the cells is the same in both buffers. */
  predicate OnlyCells(data: seq<Byte>, data': seq<Byte>, cells: seq<nat>)
  {
    |data| == |data'| &&
    forall k :: 0 <= k < |data| && (forall i :: 0 <= i < |cells| ==> !(cells[i] <= k < cells[i] + 4)) ==> data[k] == data'[k]
  }

  /** The jumps of a list, all landing on a. */
  function Landing(cells: seq<nat>, a: nat): map<nat, nat> { map c | c in cells :: a }

  lemma OnlyCellsStep(data: seq<Byte>, data': seq<Byte>, cells: seq<nat>, i: nat, v: int)
    requires i < |cells| && cells[i] + 4 <= |data'| && OnlyCells(data, data', cells)
    ensures OnlyCells(data, Write(data', cells[i], v), cells)
  {
    hide Split;
  }

  lemma LandingNone(a: nat, landed: map<nat, nat>)
    ensures landed + Landing([], a) == landed
  {}

  lemma LandingStep(cells: seq<nat>, i: nat, a: nat, landed: map<nat, nat>)
    requires i < |cells|
    ensures (landed + Landing(cells[..i], a))[cells[i] := a] == landed + Landing(cells[..i + 1], a)
  {
    assert cells[..i + 1] == cells[..i] + [cells[i]];
  }

  lemma AllSame(data: seq<Byte>, cells: seq<nat>)
    ensures OnlyCells(data, data, cells)
  {}

  lemma HeadBelow(data: seq<Byte>, n: nat, lists: Lists, landed: map<nat, nat>, t: nat)
    requires WellThreaded(data, n, lists, landed) && Open(lists, t)
    ensures t == 0 || t + 4 <= n
  {
    if t != 0 { assert IsOpenList(data, n, t, lists[t]); }
  }

  /** What is left of a list after its first jump is the list that jump linked to. */
  lemma PoppedIs(data: seq<Byte>, n: nat, lists: Lists, landed: map<nat, nat>, t: nat, cells: seq<nat>)
    requires WellThreaded(data, n, lists, landed) && t in lists && t != 0 && lists[t] == cells && cells != [] && t + 4 <= |data|
    ensures var next, popped := Read(data, t), Popped(lists, t, Read(data, t));
      Open(popped, next) && CellsOf(popped, next) == cells[1..] && Without(popped, next) == Without(lists, t)
  {
    hide Read;
    OpenListFacts(data, n, lists, landed, t);
    var next := Read(data, t);
    if next != 0 {
      assert cells[1..][0] == next == cells[1];
      forall h | h in Without(lists, t) ensures h != next {
        assert IsOpenList(data, n, h, lists[h]);
        assert AllApart(cells, lists[h]);
        assert Apart(cells[1], lists[h][0]);
      }
    }
  }

  datatype Buffer = Buffer(data: seq<Byte>, lists: Lists, landed: map<nat, nat>)

  /** gsym_addr after i jumps of list t: n is the next one to resolve. */
  predicate Resolving(before: Buffer, t: nat, a: nat, now: Buffer, n: nat, i: nat)
    requires Open(before.lists, t)
  {
    var cells := CellsOf(before.lists, t);
    Open(now.lists, n) && i <= |cells| && CellsOf(now.lists, n) == cells[i..] &&
    Without(now.lists, n) == Without(before.lists, t) &&
    now.landed == before.landed + Landing(cells[..i], a) &&
    OnlyCells(before.data, now.data, cells)
  }

  lemma ResolvingStarts(before: Buffer, ind: nat, t: nat, a: nat)
    requires WellThreaded(before.data, ind, before.lists, before.landed) && Open(before.lists, t)
    ensures Resolving(before, t, a, before, t, 0)
  {
    LandingNone(a, before.landed);
    AllSame(before.data, CellsOf(before.lists, t));
  }

  lemma ResolvingStep(before: Buffer, t: nat, a: nat, now: Buffer, ind: nat, n: nat, i: nat)
    requires Open(before.lists, t) && Resolving(before, t, a, now, n, i) && n != 0 && a < WORD
    requires WellThreaded(now.data, ind, now.lists, now.landed)
    ensures n + 4 <= |now.data| && |now.lists[n]| > 0 && i < |CellsOf(before.lists, t)|
    ensures var next := Read(now.data, n);
      var after := Buffer(Write(now.data, n, a - n - 4), Popped(now.lists, n, next), now.landed[n := a]);
      WellThreaded(after.data, ind, after.lists, after.landed) && Resolving(before, t, a, after, next, i + 1) &&
      Open(after.lists, next)
  {
    hide WellThreaded, Read, Write, OnlyCells, Landing, Popped, Without;
    var cells := CellsOf(before.lists, t);
    PoppedHolds(now.data, ind, now.lists, now.landed, n, a);
    OpenListFacts(now.data, ind, now.lists, now.landed, n);
    ListHead(now.data, n, cells[i..]);
    PoppedIs(now.data, ind, now.lists, now.landed, n, cells[i..]);
    OnlyCellsStep(before.data, now.data, cells, i, a - n - 4);
    LandingStep(cells, i, a, before.landed);
  }

  lemma ResolvingEnds(before: Buffer, t: nat, a: nat, now: Buffer, ind: nat, i: nat)
    requires Open(before.lists, t) && Resolving(before, t, a, now, 0, i)
    requires WellThreaded(now.data, ind, now.lists, now.landed)
    ensures now.lists == Without(before.lists, t) && OnlyCells(before.data, now.data, CellsOf(before.lists, t))
    ensures now.landed == before.landed + Landing(CellsOf(before.lists, t), a)
  {
    hide WellThreaded, OnlyCells, Landing;
    OpenListFacts(now.data, ind, now.lists, now.landed, 0);
    assert CellsOf(before.lists, t)[..i] == CellsOf(before.lists, t);
  }

  lemma OnlyCellsPrefix(data: seq<Byte>, data': seq<Byte>, cells: seq<nat>, n: nat)
    requires OnlyCells(data, data', cells) && n <= |data|
    ensures OnlyCells(data[..n], data'[..n], cells)
  {}

  class Code {
    var data: seq<Byte>
    var ind: nat
    // the lists of jumps still to be resolved, by first cell
    ghost var lists: Lists
    // the displacement fields already resolved, with the address they jump to
    ghost var landed: map<nat, nat>

    ghost predicate Valid()
      reads this
    {
      ind < LIMIT && ind <= |data| && WellThreaded(data, ind, lists, landed)
    }

    constructor ()
      ensures Valid() && ind == 0 && lists == map[] && landed == map[]
    {
      data, ind, lists, landed := [], 0, map[], map[];
    }

    /** section_realloc, when needed: the buffer gets room for end bytes. */
    method Reserve(end: nat)
      requires Valid()
      modifies this`data
      ensures Valid() && |data| >= end && data[..ind] == old(data)[..ind]
    {
      hide WellThreaded;
      if end > |data| {
        data := data + seq(end - |data|, _ => 0);
        Grown(old(data), ind, data, ind, lists, landed);
      }
    }

    /** g: one byte. */
    method G(c: Byte)
      requires Valid() && ind + 1 < LIMIT
      modifies this`data, this`ind
      ensures Valid() && ind == old(ind) + 1
      ensures data[..ind] == old(data)[..old(ind)] + [c]
    {
      hide WellThreaded;
      var ind1 := ind + 1;
      Reserve(ind1);
      assert data[..ind] == old(data)[..ind];
      ghost var was := data;
      data := data[ind := c];
      assert was[..ind] == data[..ind];
      Grown(was, ind, data, ind1, lists, landed);
      ind := ind1;
    }

    /** o: the bytes of an opcode. */
    method O(c: nat)
      requires Valid() && ind + |OpcodeBytes(c)| < LIMIT
      modifies this`data, this`ind
      ensures Valid() && ind == old(ind) + |OpcodeBytes(c)|
      ensures data[..ind] == old(data)[..old(ind)] + OpcodeBytes(c)
    {
      var rest := c;
      ghost var done: seq<Byte> := [];
      hide WellThreaded;
      while rest != 0
        invariant Valid() && ind == old(ind) + |done| && OpcodeBytes(c) == done + OpcodeBytes(rest)
        invariant data[..ind] == old(data)[..old(ind)] + done
      {
        done := done + [rest % 256];
        G(rest % 256);
        rest := rest / 256;
      }
    }

    /** oad, alias psym: an opcode and a displacement field that holds the next jump of the list. */
    method Oad(c: nat, t: nat) returns (r: nat)
      requires Valid() && 0 < |OpcodeBytes(c)| && ind + |OpcodeBytes(c)| + 4 < LIMIT && Open(lists, t)
      modifies this
      ensures Valid() && landed == old(landed)
      ensures r == old(ind) + |OpcodeBytes(c)| && ind == r + 4
      ensures data[..r] == old(data)[..old(ind)] + OpcodeBytes(c)
      ensures lists == Pushed(old(lists), t, r)
    {
      hide WellThreaded, Write, Read, Pushed, Open, OpcodeBytes;
      O(c);
      var ind1 := ind + 4;
      Reserve(ind1);
      ghost var was := data;
      HeadBelow(was, ind, lists, landed, t);
      data := Write(data, ind, t);
      r := ind;
      ReadWritten(was, r, t);
      WritePrefix(was, r, t);
      Grown(was, r, data, r, lists, landed);
      PushedHolds(data, r, lists, landed, t);
      ind := ind1;
      lists := Pushed(lists, t, r);
    }

    /** gjmp: a jump put in front of list t. */
    method Gjmp(t: nat) returns (r: nat)
      requires Valid() && ind + 5 < LIMIT && Open(lists, t)
      modifies this
      ensures Valid() && landed == old(landed)
      ensures r == old(ind) + 1 && ind == r + 4 && data[..r] == old(data)[..old(ind)] + [0xe9]
      ensures lists == Pushed(old(lists), t, r)
    {
      assert OpcodeBytes(0xe9) == [0xe9];
      r := Oad(0xe9, t);
    }

    /** gsym_addr: every jump of list t lands on a; no byte outside its cells and no other list changes. */
    method GsymAddr(t: nat, a: nat)
      requires Valid() && Open(lists, t) && a < WORD
      modifies this`data, this`lists, this`landed
      ensures Valid() && lists == Without(old(lists), t)
      ensures landed == old(landed) + Landing(CellsOf(old(lists), t), a)
      ensures OnlyCells(old(data), data, CellsOf(old(lists), t))
    {
      hide WellThreaded, Read, Write, OnlyCells, Landing, Popped, Resolving, Without;
      ghost var cells := CellsOf(lists, t);
      ghost var before := Buffer(data, lists, landed);
      ghost var i := 0;
      var n := t;
      ResolvingStarts(before, ind, t, a);
      while n != 0
        invariant Valid() && i <= |cells| && Open(lists, n)
        invariant Resolving(before, t, a, Buffer(data, lists, landed), n, i)
        decreases |cells| - i
      {
        ResolvingStep(before, t, a, Buffer(data, lists, landed), ind, n, i);
        var next := Read(data, n);
        data := Write(data, n, a - n - 4);
        lists := Popped(lists, n, next);
        landed := landed[n := a];
        i := i + 1;
        n := next;
      }
      ResolvingEnds(before, t, a, Buffer(data, lists, landed), ind, i);
    }

    /** gsym: the list lands on the next instruction. */
    method Gsym(t: nat)
      requires Valid() && Open(lists, t)
      modifies this`data, this`lists, this`landed
      ensures Valid() && lists == Without(old(lists), t)
      ensures landed == old(landed) + Landing(CellsOf(old(lists), t), ind)
      ensures OnlyCells(old(data), data, CellsOf(old(lists), t))
    {
      GsymAddr(t, ind);
    }

    /** The merge loop of gtst: from the first jump of a list to its last. */
    method LastCell(m: nat) returns (n: nat)
      requires Valid() && m in lists
      ensures |lists[m]| > 0 && n == lists[m][|lists[m]| - 1] && n + 4 <= |data|
    {
      hide WellThreaded, Read;
      ghost var cells := lists[m];
      OpenListFacts(data, ind, lists, landed, m);
      ghost var i := 0;
      n := m;
      ListHead(data, m, cells);
      ListInBounds(data, m, cells, 0);
      var n1 := Read(data, n);
      while n1 != 0
        invariant i < |cells| && n == cells[i] && n + 4 <= |data| && n1 == Read(data, n)
        decreases |cells| - i
      {
        ListInBounds(data, m, cells, i);
        ListHead(data, n1, cells[i + 1..]);
        ListInBounds(data, m, cells, i + 1);
        n, i := n1, i + 1;
        n1 := Read(data, n);
      }
      ListInBounds(data, m, cells, i);
    }

    /** gtst: a conditional jump put in front of list t, or the pending jumps joined to it, or made to fall through. */
    method Gtst(inv: nat, t: nat, test: Test) returns (r: nat)
      requires Valid() && ind + 6 < LIMIT && inv <= 1 && Open(lists, t)
      requires test.Flags? ==> 0x92 <= test.op < 0xa0
      requires test.Jumps? ==> test.taken <= 1 && Open(lists, test.list) && (test.list != 0 ==> test.list != t)
      modifies this
      ensures Valid() && Open(lists, r) && old(ind) <= ind
      ensures test.Flags? ==>
        r == old(ind) + 2 && ind == r + 4 && lists == Pushed(old(lists), t, r) && landed == old(landed) &&
        data[..r] == old(data)[..old(ind)] + [0x0f, Inverted(test.op - 16, inv)]
      ensures test.Jumps? && test.taken == inv && test.list == 0 ==> r == t && lists == old(lists)
      ensures test.Jumps? && test.taken == inv && test.list != 0 ==>
        r == test.list && lists == Merged(old(lists), r, t)
      ensures test.Jumps? && test.taken == inv ==>
        ind == old(ind) && landed == old(landed) && OnlyCells(old(data), data, CellsOf(old(lists), test.list))
      ensures test.Jumps? && test.taken != inv ==>
        r == old(ind) + 1 && ind == r + 4 &&
        OnlyCells(old(data)[..old(ind)] + [0xe9], data[..r], CellsOf(old(lists), test.list)) &&
        lists == Without(Pushed(old(lists), t, r), test.list) &&
        landed == old(landed) + Landing(CellsOf(old(lists), test.list), ind)
      ensures test.OtherValue? ==> r == t && lists == old(lists) && landed == old(landed) && data == old(data)
    {
      hide WellThreaded, Read, Write, OnlyCells, Landing, OpcodeBytes;
      r := t;
      match test {
        case Flags(op) =>
          ConditionByte(op, inv);
          G(0x0f);
          r := Oad(Inverted(op - 16, inv), t);
        case Jumps(taken, list) =>
          if taken == inv {
            AllSame(data, CellsOf(lists, list));
            if list != 0 {
              var n := LastCell(list);
              HeadBelow(data, ind, lists, landed, t);
              MergedHolds(data, ind, lists, landed, list, t, Write(data, n, t));
              OnlyCellsStep(data, data, lists[list], |lists[list]| - 1, t);
              data := Write(data, n, t);
              lists := Merged(lists, list, t);
              r := list;
            }
          } else {
            PushedKeeps(data, ind, lists, landed, t, list, ind + 1);
            HeadBelow(data, ind, lists, landed, list);
            r := Gjmp(t);
            ghost var was := data;
            Gsym(list);
            OnlyCellsPrefix(was, data, CellsOf(old(lists), list), r);
          }
        case OtherValue =>
      }
    }
  }

  lemma ConditionByte(op: nat, inv: nat)
    requires 0x92 <= op < 0xa0 && inv <= 1
    ensures OpcodeBytes(Inverted(op - 16, inv)) == [Inverted(op - 16, inv)]
  {}

  /** A second open list stays as it is when a jump is put in front of the first. */
  lemma PushedKeeps(data: seq<Byte>, n: nat, lists: Lists, landed: map<nat, nat>, t: nat, m: nat, r: nat)
    requires WellThreaded(data, n, lists, landed) && Open(lists, t) && Open(lists, m) && (m != 0 ==> m != t) && r >= n
    ensures Open(Pushed(lists, t, r), m) && CellsOf(Pushed(lists, t, r), m) == CellsOf(lists, m)
    ensures r != 0 && m != r ==> Open(Without(Pushed(lists, t, r), m), r)
  {
    HeadBelow(data, n, lists, landed, m);
  }
}
