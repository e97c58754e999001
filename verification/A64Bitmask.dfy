/** The A64 logical-immediate encoder, against DecodeBitMasks of the Arm architecture. */
module A64Bitmask {
  import opened Arith
  import opened Wrappers

  /** A 64-bit word, least significant bit first. */
  type Word64 = b: seq<bool> | |b| == 64 witness seq(64, _ => false)

  predicate ElementSize(n: int) { n == 2 || n == 4 || n == 8 || n == 16 || n == 32 || n == 64 }

  // ----- the architecture's definition -----

  function Ones(s: nat, n: nat): (w: seq<bool>)
    requires s <= n
    ensures |w| == n && forall i | 0 <= i < n :: w[i] == (i < s)
  {
    seq(n, i => i < s)
  }

  function RotateRight(w: seq<bool>, r: nat): (v: seq<bool>)
    requires r < |w|
    ensures |v| == |w|
  {
    w[r..] + w[..r]
  }

  function Replicate(w: seq<bool>): Word64
    requires ElementSize(|w|)
  {
    seq(64, i requires 0 <= i => w[i % |w|])
  }

  /** 2 to the power HighestSetBit(v), when that bit is at position 1 or above. */
  function HighestElement(v: nat): Option<nat>
  {
    if v >= 64 then Some(64)
    else if v >= 32 then Some(32)
    else if v >= 16 then Some(16)
    else if v >= 8 then Some(8)
    else if v >= 4 then Some(4)
    else if v >= 2 then Some(2)
    else None
  }

  /** DecodeBitMasks(immN, imms, immr, TRUE) on e = immN:immr:imms; None is UNDEFINED. */
  function DecodeBitMasks(e: nat): Option<Word64>
    requires e < 0x2000
  {
    var immN, immr, imms := e / 4096, e / 64 % 64, e % 64;
    match HighestElement(immN * 64 + (63 - imms))
    case None => None
    case Some(n) =>
      var S, R := imms % n, immr % n;
      if S == n - 1 then None else Some(Replicate(RotateRight(Ones(S + 1, n), R)))
  }

  // ----- words -----

  function Not(x: Word64): Word64 { seq(64, i requires 0 <= i < 64 => !x[i]) }
  function Shr(x: Word64, k: nat): Word64 requires k <= 64 { x[k..] + seq(k, _ => false) }
  function Low(x: Word64, k: nat): Word64 requires k <= 64 { x[..k] + seq(64 - k, _ => false) }
  predicate IsZero(x: Word64) { forall i | 0 <= i < 64 :: !x[i] }

  // ----- patterns -----

  /** Bit i of a cyclic run of s ones in elements of n bits, rotated right by r. */
  predicate RunBit(n: int, s: int, r: int, i: int)
    requires n > 0
  {
    (i + r) % n < s
  }

  predicate IsRun(x: Word64, n: int, s: int, r: int)
  {
    ElementSize(n) && 1 <= s < n && 0 <= r < n && forall i | 0 <= i < 64 :: x[i] == RunBit(n, s, r, i)
  }

  lemma ModAdd(i: int, r: int, n: int)
    requires n > 0
    ensures (i % n + r) % n == (i + r) % n
  {
    ModAddMultiple(i % n + r, i / n, n);
  }

  lemma RotatedOnes(n: nat, s: nat, r: nat)
    requires ElementSize(n) && 1 <= s < n && r < n
    ensures IsRun(Replicate(RotateRight(Ones(s, n), r)), n, s, r)
  {
    var w := RotateRight(Ones(s, n), r);
    var x := Replicate(w);
    forall i | 0 <= i < 64 ensures x[i] == RunBit(n, s, r, i) {
      var j := i % n;
      Unwrap(n, j + r);
      assert w[j] == if j + r < n then Ones(s, n)[j + r] else Ones(s, n)[j + r - n];
      ModAdd(i, r, n);
    }
  }

  lemma DecodeIsRun(e: nat) returns (n: nat, s: nat, r: nat)
    requires e < 0x2000 && DecodeBitMasks(e).Some?
    ensures IsRun(DecodeBitMasks(e).value, n, s, r)
    ensures n == HighestElement(e / 4096 * 64 + (63 - e % 64)).value && s == e % 64 % n + 1 && r == e / 64 % 64 % n
  {
    n := HighestElement(e / 4096 * 64 + (63 - e % 64)).value;
    s, r := e % 64 % n + 1, e / 64 % 64 % n;
    RotatedOnes(n, s, r);
  }

  predicate Periodic(x: Word64, m: int)
    requires ElementSize(m)
  {
    forall i | 0 <= i < 64 :: x[i] == x[i % m]
  }

  /** Comparing x >> m with the low bits of x tests for period m. */
  lemma PeriodTest(x: Word64, m: int)
    requires ElementSize(m)
    ensures Shr(x, m) == Low(x, 64 - m) <==> Periodic(x, m)
  {
    if Shr(x, m) == Low(x, 64 - m) {
      forall i | 0 <= i < 64 ensures x[i] == x[i % m] { StepDown(x, m, i); }
    }
    if Periodic(x, m) { PeriodicPasses(x, m); }
  }

  lemma PeriodicPasses(x: Word64, m: int)
    requires ElementSize(m) && Periodic(x, m)
    ensures Shr(x, m) == Low(x, 64 - m)
  {
    forall i | 0 <= i < 64 - m ensures x[i + m] == x[i] {
      ModAddMultiple(i, 1, m);
      assert x[i + m] == x[(i + m) % m] && x[i] == x[i % m];
    }
  }

  lemma {:induction false} StepDown(x: Word64, m: int, i: int)
    requires ElementSize(m) && Shr(x, m) == Low(x, 64 - m) && 0 <= i < 64
    ensures x[i] == x[i % m]
    decreases i
  {
    if i >= m {
      ShrAt(x, m, i - m);
      LowAt(x, 64 - m, i - m);
      hide Shr, Low;
      StepDown(x, m, i - m);
      ModAddMultiple(i - m, 1, m);
    }
  }

  lemma LowAt(z: Word64, k: nat, t: int)
    requires k <= 64 && 0 <= t < 64
    ensures Low(z, k)[t] <==> t < k && z[t]
  {}

  /** Smaller element sizes divide larger ones. */
  lemma SizesDivide(n: int, m: int) returns (k: nat)
    requires ElementSize(n) && ElementSize(m) && m <= n
    ensures n == k * m
  {
    k := n / m;
  }

  lemma Unwrap(n: int, i: int)
    requires n > 0 && 0 <= i < 2 * n
    ensures i % n == if i < n then i else i - n
  {}

  /** Two positions m apart around the element where a run differs. */
  lemma ApartByPeriod(n: int, s: int, r: int, m: int) returns (i: int, j: int)
    requires 1 <= s < n && 0 <= r < n && 0 < m < n
    ensures 0 <= i < n && 0 <= j < n && (j == i + m || j == i + m - n)
    ensures RunBit(n, s, r, i) != RunBit(n, s, r, j)
  {
    var phase := if s - 1 + m < n then s - 1 else s;
    i := if phase >= r then phase - r else phase - r + n;
    j := if i + m < n then i + m else i + m - n;
    Unwrap(n, i + r);
    Unwrap(n, j + r);
  }

  /** A run has no shorter power-of-two period than its element. */
  lemma RunNotPeriodic(x: Word64, n: int, s: int, r: int, m: int)
    requires IsRun(x, n, s, r) && ElementSize(m) && m < n
    ensures !Periodic(x, m)
  {
    var i, j := ApartByPeriod(n, s, r, m);
    assert x[i] != x[j];
    var k := SizesDivide(n, m);
    if j == i + m { ModAddMultiple(i, 1, m); } else { ModAddMultiple(j, k - 1, m); }
    assert i % m == j % m;
  }

  lemma RunPeriodic(x: Word64, n: int, s: int, r: int)
    requires IsRun(x, n, s, r)
    ensures Periodic(x, n)
  {
    forall i | 0 <= i < 64 ensures x[i] == x[i % n] { ModAdd(i, r, n); }
  }

  /** A cyclic run changes value at most twice around its element. */
  lemma RunTwoChanges(n: int, s: int, r: int, p: int, q: int, t: int)
    requires ElementSize(n) && 1 <= s < n && 0 <= r < n && 0 < p < q < t < n
    ensures !(RunBit(n, s, r, p) != RunBit(n, s, r, 0) && RunBit(n, s, r, q) == RunBit(n, s, r, 0) &&
              RunBit(n, s, r, t) != RunBit(n, s, r, 0))
  {
    Unwrap(n, r);
    Unwrap(n, p + r);
    Unwrap(n, q + r);
    Unwrap(n, t + r);
  }

  // ----- the encoder -----

  lemma LowIsZero(x: Word64, k: nat)
    requires k <= 64
    ensures IsZero(Low(x, k)) <==> forall j | 0 <= j < k :: !x[j]
    ensures IsZero(Low(Not(x), k)) <==> forall j | 0 <= j < k :: x[j]
  {
    forall j | 0 <= j < k ensures Low(x, k)[j] == x[j] && Low(Not(x), k)[j] == !x[j] {}
  }

  /** x is z shifted right by pos zeros, and has a one among its w low bits. */
  predicate AfterZeros(z: Word64, x: Word64, pos: int, w: int)
  {
    0 <= pos && 0 < w && pos + w <= 64 && (forall i | 0 <= i < pos :: !z[i]) &&
    x == Shr(z, pos) && exists i :: 0 <= i < w && x[i]
  }

  /** One line of the trailing-zero count: drop k zeros if there are that many. */
  method SkipZeros(ghost z: Word64, x: Word64, pos: int, k: nat) returns (x': Word64, pos': int)
    requires AfterZeros(z, x, pos, 2 * k)
    ensures AfterZeros(z, x', pos', k)
  {
    x', pos' := x, pos;
    ghost var i :| 0 <= i < 2 * k && x[i];
    LowIsZero(x, k);
    if IsZero(Low(x, k)) {
      x', pos' := Shr(x, k), pos + k;
      assert x'[i - k];
      forall j | 0 <= j < pos' ensures !z[j] { if j >= pos { assert x[j - pos] == z[j]; } }
    }
  }

  /** From bit start on, z has len ones; x is the rest, with a zero among its w low bits. */
  predicate AfterOnes(z: Word64, start: int, x: Word64, len: int, w: int)
  {
    0 < w && 0 <= start && 0 <= len && start + len + w <= 64 + start && start + len <= 64 &&
    (forall i | start <= i < start + len :: z[i]) &&
    x == Shr(z, start + len) && exists i :: 0 <= i < w && !x[i]
  }

  /** One line of the count of ones: drop k ones if there are that many. */
  method SkipOnes(ghost z: Word64, ghost start: int, x: Word64, len: int, k: nat) returns (x': Word64, len': int)
    requires AfterOnes(z, start, x, len, 2 * k)
    ensures AfterOnes(z, start, x', len', k)
  {
    x', len' := x, len;
    ghost var i :| 0 <= i < 2 * k && !x[i];
    LowIsZero(x, k);
    if IsZero(Low(Not(x), k)) {
      assert x[k - 1] && start + len + k <= 64;
      x', len' := Shr(x, k), len + k;
      assert !x'[i - k];
      forall j | start <= j < start + len' ensures z[j] {
        if j >= start + len { assert x[j - start - len] == z[j]; }
      }
    }
  }

  ghost predicate ShortestPeriod(y: Word64, rep: int)
  {
    ElementSize(rep) && Periodic(y, rep) && forall m | ElementSize(m) && m < rep :: !Periodic(y, m)
  }

  /** The tests of the encoder find the shortest period. */
  method FindPeriod(y: Word64) returns (rep: int)
    ensures ShortestPeriod(y, rep)
  {
    PeriodTest(y, 2); PeriodTest(y, 4); PeriodTest(y, 8); PeriodTest(y, 16); PeriodTest(y, 32);
    if Shr(y, 2) == Low(y, 62) { rep := 2; }
    else if Shr(y, 4) == Low(y, 60) { rep := 4; }
    else if Shr(y, 8) == Low(y, 56) { rep := 8; }
    else if Shr(y, 16) == Low(y, 48) { rep := 16; }
    else if Shr(y, 32) == Low(y, 32) { rep := 32; }
    else { rep := 64; }
  }

  /** y is word or its complement. */
  predicate UpTo(word: Word64, neg: bool, y: Word64)
  {
    forall i | 0 <= i < 64 :: y[i] == (word[i] != neg)
  }

  lemma PeriodicUpTo(word: Word64, neg: bool, y: Word64, m: int)
    requires UpTo(word, neg, y) && ElementSize(m)
    ensures Periodic(y, m) <==> Periodic(word, m)
  {
    assert forall i | 0 <= i < 64 :: y[i] == y[i % m] <==> word[i] == word[i % m];
  }

  lemma ShortestPeriodIsElement(word: Word64, neg: bool, y: Word64, rep: int, n: int, s: int, r: int)
    requires UpTo(word, neg, y) && ShortestPeriod(y, rep) && IsRun(word, n, s, r)
    ensures rep == n
  {
    RunPeriodic(word, n, s, r);
    PeriodicUpTo(word, neg, y, n);
    PeriodicUpTo(word, neg, y, rep);
    if rep < n { RunNotPeriodic(word, n, s, r, rep); }
  }

  /** Three changes of value inside one period: no run. */
  lemma ManyChangesNoRun(word: Word64, neg: bool, y: Word64, rep: int, p: int, q: int, t: int)
    requires UpTo(word, neg, y) && ShortestPeriod(y, rep) && 0 < p < q < t < rep
    requires !y[0] && y[p] && !y[q] && y[t]
    ensures forall n, s, r :: !IsRun(word, n, s, r)
  {
    forall n, s, r ensures !IsRun(word, n, s, r) {
      if IsRun(word, n, s, r) {
        ShortestPeriodIsElement(word, neg, y, rep, n, s, r);
        RunTwoChanges(n, s, r, p, q, t);
        assert false;
      }
    }
  }

  lemma ConstantNoRun(x: Word64)
    requires forall i, j | 0 <= i < 64 && 0 <= j < 64 :: x[i] == x[j]
    ensures forall n, s, r :: !IsRun(x, n, s, r)
  {
    forall n, s, r ensures !IsRun(x, n, s, r) {
      if ElementSize(n) && 1 <= s < n && 0 <= r < n {
        var i, j := if r == 0 then 0 else n - r, if s >= r then s - r else s - r + n;
        Unwrap(n, i + r);
        Unwrap(n, j + r);
        assert x[i] == x[0] && x[j] == x[0];
        assert RunBit(n, s, r, i) != RunBit(n, s, r, j);
      }
    }
  }

  lemma NoCode(x: Word64)
    requires forall n, s, r :: !IsRun(x, n, s, r)
    ensures forall c: nat | c < 0x2000 :: DecodeBitMasks(c) != Some(x)
  {
    forall c: nat | c < 0x2000 ensures DecodeBitMasks(c) != Some(x) {
      if DecodeBitMasks(c).Some? {
        var n, s, r := DecodeIsRun(c);
      }
    }
  }

  function Code(rep: int, pos: int, len: int): int
    requires rep > 0
  {
    (if rep == 64 then 0x1000 else 0) + (64 - 2 * rep) % 64 + (rep - pos) % rep * 64 + (len - 1)
  }

  lemma SizeField(rep: int, len: int)
    requires ElementSize(rep) && 1 <= len < rep
    ensures var imms := (64 - 2 * rep) % 64 + (len - 1);
            0 <= imms < 64 && imms % rep == len - 1 &&
            HighestElement((if rep == 64 then 1 else 0) * 64 + (63 - imms)) == Some(rep)
  {
    if rep == 64 {
    } else if rep == 32 {
    } else if rep == 16 {
    } else if rep == 8 {
    } else if rep == 4 {
    } else {
      assert rep == 2;
    }
  }

  lemma Fields(immN: int, immr: int, imms: int)
    requires 0 <= immN < 2 && 0 <= immr < 64 && 0 <= imms < 64
    ensures var e := immN * 4096 + immr * 64 + imms;
            e / 4096 == immN && e / 64 % 64 == immr && e % 64 == imms
  {
    var e := immN * 4096 + immr * 64 + imms;
    DivModUnique(e, 4096, immN, immr * 64 + imms);
    DivModUnique(e, 64, immN * 64 + immr, imms);
    DivModUnique(immN * 64 + immr, 64, immN, immr);
  }

  lemma DecodeFields(immN: int, immr: int, imms: int, n: nat)
    requires 0 <= immN < 2 && 0 <= immr < n && 0 <= imms < 64 && ElementSize(n)
    requires HighestElement(immN * 64 + (63 - imms)) == Some(n) && imms % n != n - 1
    ensures DecodeBitMasks(immN * 4096 + immr * 64 + imms)
         == Some(Replicate(RotateRight(Ones(imms % n + 1, n), immr)))
  {
    Fields(immN, immr, imms);
    DivModUnique(immr, n, 0, immr);
  }

  lemma CodeFields(rep: int, pos: int, len: int)
    requires ElementSize(rep) && 0 <= pos < rep && 1 <= len < rep
    ensures 0 <= Code(rep, pos, len) < 0x2000
    ensures DecodeBitMasks(Code(rep, pos, len)) == Some(Replicate(RotateRight(Ones(len, rep), (rep - pos) % rep)))
  {
    SizeField(rep, len);
    DecodeFields(if rep == 64 then 1 else 0, (rep - pos) % rep, (64 - 2 * rep) % 64 + (len - 1), rep);
  }

  lemma RunStart(rep: int, pos: int)
    requires rep > 0 && 0 <= pos < rep
    ensures (rep - pos) % rep == if pos == 0 then 0 else rep - pos
  {
    Unwrap(rep, rep - pos);
  }

  /** A word whose period holds one block of ones at bit pos is the run with that start. */
  lemma BlockIsRun(word: Word64, rep: int, pos: int, len: int)
    requires ElementSize(rep) && 0 <= pos < rep && 1 <= len < rep
    requires forall i | 0 <= i < 64 :: word[i] == (pos <= i % rep < pos + len || i % rep < pos + len - rep)
    ensures IsRun(word, rep, len, (rep - pos) % rep)
  {
    var r := (rep - pos) % rep;
    forall i | 0 <= i < 64 ensures word[i] == RunBit(rep, len, r, i) {
      ModAdd(i, r, rep);
      Unwrap(rep, i % rep + r);
      RunStart(rep, pos);
    }
  }

  lemma RunsEqual(x: Word64, y: Word64, n: int, s: int, r: int)
    requires IsRun(x, n, s, r) && IsRun(y, n, s, r)
    ensures x == y
  {}

  /** Undoing the complement turns the block [pos, pos + len) into the rest of the period. */
  lemma BlockOfWord(word: Word64, neg: bool, y: Word64, rep: int, pos: int, len: int, p: int, l: int)
    requires UpTo(word, neg, y) && ShortestPeriod(y, rep)
    requires 1 <= pos && 1 <= len && pos + len <= rep
    requires forall i | 0 <= i < rep :: y[i] == (pos <= i < pos + len)
    requires p == (if neg then (pos + len) % rep else pos) && l == (if neg then rep - len else len)
    ensures IsRun(word, rep, l, (rep - p) % rep)
  {
    Unwrap(rep, pos + len);
    forall i | 0 <= i < 64
      ensures word[i] == (p <= i % rep < p + l || i % rep < p + l - rep)
    {
      assert y[i] == y[i % rep];
    }
    BlockIsRun(word, rep, p, l);
  }

  lemma RunHasCode(word: Word64, rep: int, p: int, l: int)
    requires 0 <= p < rep && IsRun(word, rep, l, (rep - p) % rep)
    ensures 0 <= Code(rep, p, l) < 0x2000 && DecodeBitMasks(Code(rep, p, l)) == Some(word)
  {
    CodeFields(rep, p, l);
    RotatedOnes(rep, l, (rep - p) % rep);
    RunsEqual(word, Replicate(RotateRight(Ones(l, rep), (rep - p) % rep)), rep, l, (rep - p) % rep);
  }

  /** The trailing-zero count of a period y of a word. */
  method CountZeros(z: Word64) returns (x: Word64, pos: int)
    requires AfterZeros(z, z, 0, 64)
    ensures AfterZeros(z, x, pos, 1)
  {
    x, pos := SkipZeros(z, z, 0, 32);
    x, pos := SkipZeros(z, x, pos, 16);
    x, pos := SkipZeros(z, x, pos, 8);
    x, pos := SkipZeros(z, x, pos, 4);
    x, pos := SkipZeros(z, x, pos, 2);
    x, pos := SkipZeros(z, x, pos, 1);
  }

  /** The count of ones that follow. */
  method CountOnes(ghost z: Word64, ghost start: int, x: Word64) returns (x': Word64, len: int)
    requires AfterOnes(z, start, x, 0, 64)
    ensures AfterOnes(z, start, x', len, 1)
  {
    x', len := SkipOnes(z, start, x, 0, 32);
    x', len := SkipOnes(z, start, x', len, 16);
    x', len := SkipOnes(z, start, x', len, 8);
    x', len := SkipOnes(z, start, x', len, 4);
    x', len := SkipOnes(z, start, x', len, 2);
    x', len := SkipOnes(z, start, x', len, 1);
  }

  /** Arm64's encoder of a 64-bit logical immediate: immN:immr:imms, or -1. */
  method EncodeBimm64(word: Word64) returns (e: int)
    ensures -1 <= e < 0x2000
    ensures e >= 0 ==> DecodeBitMasks(e) == Some(word)
    ensures e == -1 ==> forall c: nat | c < 0x2000 :: DecodeBitMasks(c) != Some(word)
  {
    hide *;
    var x := word;
    var neg := x[0];
    if neg { x := Not(x); }
    ghost var y := x;
    ComplementIfOdd(word, y);
    if IsZero(x) {
      ZeroNoCode(word, neg, y);
      return -1;
    }

    var rep := FindPeriod(x);
    FirstPeriodNonZero(y, rep);
    x := Low(x, rep);
    ghost var z := x;
    var pos, len;
    x, pos := CountZeros(x);
    ZerosCounted(y, z, x, pos, rep);
    x, len := CountOnes(z, pos, x);

    if !IsZero(x) {
      RestIsNoCode(word, neg, y, rep, pos, x, len);
      return -1;
    }
    ghost var (pos0, len0) := (pos, len);
    if neg {
      pos := (pos + len) % rep;
      len := rep - len;
    }
    BlockFound(y, rep, pos0, x, len0);
    BlockOfWord(word, neg, y, rep, pos0, len0, pos, len);
    RunHasCode(word, rep, pos, len);
    return Code(rep, pos, len);
  }

  /** Once the ones at start are dropped, the next bit is zero, and any one left lies beyond it. */
  lemma AfterOnesGap(z: Word64, start: int, x: Word64, len: int, t: int)
    requires AfterOnes(z, start, x, len, 1) && 0 <= t < 64 && x[t]
    ensures 0 < t && start + len + t < 64 && !z[start + len] && z[start + len + t]
  {
    var i :| 0 <= i < 1 && !x[i];
    assert i == 0;
    ShrAt(z, start + len, 0);
    ShrAt(z, start + len, t);
  }

  lemma ShrAt(z: Word64, k: nat, t: int)
    requires k <= 64 && 0 <= t < 64
    ensures Shr(z, k)[t] <==> k + t < 64 && z[k + t]
  {}

  lemma RestIsNoCode(word: Word64, neg: bool, y: Word64, rep: int, pos: int, x: Word64, len: int)
    requires UpTo(word, neg, y) && ShortestPeriod(y, rep) && !y[0] && 1 <= pos < 64
    requires Low(y, rep)[pos] && AfterOnes(Low(y, rep), pos, x, len, 1) && !IsZero(x)
    ensures forall c: nat | c < 0x2000 :: DecodeBitMasks(c) != Some(word)
  {
    var t :| 0 <= t < 64 && x[t];
    var z := Low(y, rep);
    AfterOnesGap(z, pos, x, len, t);
    assert y[pos + len + t] && !y[pos + len];
    ManyChangesNoRun(word, neg, y, rep, pos, pos + len, pos + len + t);
    NoCode(word);
  }

  lemma BlockFound(y: Word64, rep: int, pos: int, x: Word64, len: int)
    requires ShortestPeriod(y, rep) && 1 <= pos < 64 && Low(y, rep)[pos]
    requires forall i | 0 <= i < pos :: !Low(y, rep)[i]
    requires AfterOnes(Low(y, rep), pos, x, len, 1) && IsZero(x)
    ensures len >= 1 && pos + len <= rep && forall i | 0 <= i < rep :: y[i] == (pos <= i < pos + len)
  {
    var z := Low(y, rep);
    forall i | 0 <= i < 64 ensures z[i] == (pos <= i < pos + len) {
      if i >= pos + len { assert x[i - pos - len] == z[i]; }
    }
    assert len >= 1;
    assert z[pos + len - 1];
    assert forall i | 0 <= i < rep :: y[i] == z[i];
  }

  lemma ComplementIfOdd(word: Word64, y: Word64)
    requires y == if word[0] then Not(word) else word
    ensures UpTo(word, word[0], y) && !y[0]
  {}

  lemma ZeroNoCode(word: Word64, neg: bool, y: Word64)
    requires UpTo(word, neg, y) && IsZero(y)
    ensures forall c: nat | c < 0x2000 :: DecodeBitMasks(c) != Some(word)
  {
    ConstantNoRun(word);
    NoCode(word);
  }

  lemma ZerosCounted(y: Word64, z: Word64, x: Word64, pos: int, rep: int)
    requires ElementSize(rep) && z == Low(y, rep) && !y[0] && AfterZeros(z, x, pos, 1)
    ensures 1 <= pos < 64 && z[pos] && AfterOnes(z, pos, x, 0, 64) && forall i | 0 <= i < pos :: !z[i]
  {
    assert x[0] && !z[0];
    assert pos >= 1;
    assert !x[63];
  }

  lemma FirstPeriodNonZero(y: Word64, rep: int)
    requires ShortestPeriod(y, rep) && !IsZero(y)
    ensures ElementSize(rep) && AfterZeros(Low(y, rep), Low(y, rep), 0, 64)
  {
    var i :| 0 <= i < 64 && y[i];
    assert y[i % rep];
    assert Low(y, rep)[i % rep];
  }
}
