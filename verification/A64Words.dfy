/** Bit vectors as strings of bits, least significant first, and as numbers. */
module A64Words {
  import opened A64Bitmask

  function LowSet(x: bv64): bool { x & 1 == 1 }
  function Pop(x: bv64): bv64 { x >> 1 }
  function Push(x: bv64, b: bool): bv64 { (x << 1) | (if b then 1 else 0) }
  function And(x: bv64, m: bv64): bv64 { x & m }

  /** The n low bits of x. */
  function BitsOf(x: bv64, n: nat): (b: seq<bool>)
    ensures |b| == n
  {
    if n == 0 then [] else [LowSet(x)] + BitsOf(Pop(x), n - 1)
  }

  function WordOf(b: seq<bool>): bv64
  {
    if b == [] then 0 else Push(WordOf(b[1..]), b[0])
  }

  function Word64Of(x: bv64): Word64 { BitsOf(x, 64) }

  function LowOnes(n: nat): bv64
  {
    if n == 0 then 0 else Push(LowOnes(n - 1), true)
  }

  lemma MaskStep(x: bv64, m: bv64, w: bv64)
    requires w == And(Pop(x), m)
    ensures Push(w, LowSet(x)) == And(x, Push(m, true))
  {}

  lemma {:induction false} WordOfBits(x: bv64, n: nat)
    ensures WordOf(BitsOf(x, n)) == And(x, LowOnes(n))
    decreases n
  {
    hide LowSet, Pop, Push, And;
    if n == 0 {
      assert And(x, 0) == 0 by { AndZero(x); }
    } else {
      WordOfBits(Pop(x), n - 1);
      assert BitsOf(x, n)[1..] == BitsOf(Pop(x), n - 1);
      MaskStep(x, LowOnes(n - 1), WordOf(BitsOf(Pop(x), n - 1)));
    }
  }

  lemma AndZero(x: bv64)
    ensures And(x, 0) == 0 && And(x, 0xffff_ffff_ffff_ffff) == x
  {}

  lemma FourPushes(m: bv64)
    ensures Push(Push(Push(Push(m, true), true), true), true) == (m << 4) | 0xf
  {}

  lemma FourOnes(n: nat)
    ensures LowOnes(n + 4) == (LowOnes(n) << 4) | 0xf
  {
    hide Push;
    FourPushes(LowOnes(n));
    assert LowOnes(n + 2) == Push(Push(LowOnes(n), true), true);
    assert LowOnes(n + 4) == Push(Push(LowOnes(n + 2), true), true);
  }

  lemma AllOnes()
    ensures LowOnes(64) == 0xffff_ffff_ffff_ffff
  {
    FourOnes(0); FourOnes(4); FourOnes(8); FourOnes(12); FourOnes(16); FourOnes(20); FourOnes(24); FourOnes(28);
    FourOnes(32); FourOnes(36); FourOnes(40); FourOnes(44); FourOnes(48); FourOnes(52); FourOnes(56); FourOnes(60);
  }

  lemma WordRoundTrip(x: bv64)
    ensures WordOf(Word64Of(x)) == x
  {
    WordOfBits(x, 64);
    AllOnes();
  }

  // ----- from bit strings back to the word -----

  lemma LowSetPush(w: bv64, b: bool)
    ensures LowSet(Push(w, b)) == b
  {}

  lemma AndPush(w: bv64, v: bv64, u: bv64, b: bool)
    requires u == And(w, v)
    ensures And(Push(w, b), Push(v, true)) == Push(u, b)
  {
    hide And, Push;
    if b { AndPushOne(w, v, u); } else { AndPushZero(w, v, u); }
  }

  lemma AndPushOne(w: bv64, v: bv64, u: bv64)
    requires u == And(w, v)
    ensures And(Push(w, true), Push(v, true)) == Push(u, true)
  {}

  lemma AndPushZero(w: bv64, v: bv64, u: bv64)
    requires u == And(w, v)
    ensures And(Push(w, false), Push(v, true)) == Push(u, false)
  {}

  lemma PopPush(w: bv64, b: bool)
    requires And(w, 0x7fff_ffff_ffff_ffff) == w
    ensures Pop(Push(w, b)) == w
  {}

  lemma AndAssoc(u: bv64, v: bv64, w: bv64)
    ensures And(And(u, v), w) == And(u, And(v, w))
  {}

  lemma {:induction false} OnesGrow(n: nat, m: nat)
    requires n <= m
    ensures And(LowOnes(n), LowOnes(m)) == LowOnes(n)
    decreases n
  {
    hide Push, And;
    if n == 0 {
      assert And(0, LowOnes(m)) == 0 by { ZeroAnd(LowOnes(m)); }
    } else {
      OnesGrow(n - 1, m - 1);
      AndPush(LowOnes(n - 1), LowOnes(m - 1), LowOnes(n - 1), true);
    }
  }

  lemma ZeroAnd(x: bv64)
    ensures And(0, x) == 0
  {}

  lemma SixtyThreeOnes()
    ensures LowOnes(63) == 0x7fff_ffff_ffff_ffff
  {
    assert LowOnes(3) == 7 by { assert LowOnes(1) == 1; assert LowOnes(2) == 3; }
    FourOnes(3); FourOnes(7); FourOnes(11); FourOnes(15); FourOnes(19); FourOnes(23); FourOnes(27); FourOnes(31);
    FourOnes(35); FourOnes(39); FourOnes(43); FourOnes(47); FourOnes(51); FourOnes(55); FourOnes(59);
  }

  /** A word has no bits beyond its string. */
  lemma {:induction false} WordFits(b: seq<bool>)
    ensures And(WordOf(b), LowOnes(|b|)) == WordOf(b)
  {
    hide Push, And;
    if b == [] {
      ZeroAnd(0);
    } else {
      WordFits(b[1..]);
      AndPush(WordOf(b[1..]), LowOnes(|b| - 1), WordOf(b[1..]), b[0]);
    }
  }

  lemma {:induction false} BitsOfWord(b: seq<bool>)
    requires |b| <= 64
    ensures BitsOf(WordOf(b), |b|) == b
  {
    hide Push, And, Pop, LowSet;
    if b == [] {
    } else {
      var w := WordOf(b[1..]);
      WordFits(b[1..]);
      OnesGrow(|b| - 1, 63);
      SixtyThreeOnes();
      AndAssoc(w, LowOnes(|b| - 1), LowOnes(63));
      PopPush(w, b[0]);
      LowSetPush(w, b[0]);
      BitsOfWord(b[1..]);
      assert b == [b[0]] + b[1..];
    }
  }

  // ----- halves -----

  function PopN(x: bv64, n: nat): bv64
    decreases n
  {
    if n == 0 then x else PopN(Pop(x), n - 1)
  }

  lemma {:induction false} BitsConcat(x: bv64, n: nat, m: nat)
    ensures BitsOf(x, n + m) == BitsOf(x, n) + BitsOf(PopN(x, n), m)
    decreases n
  {
    hide Pop, LowSet;
    if n == 0 {
    } else {
      BitsConcat(Pop(x), n - 1, m);
    }
  }

  lemma FourPops(x: bv64, n: nat)
    ensures PopN(x, n + 4) == PopN(Pop(Pop(Pop(Pop(x)))), n)
  {
    hide Pop;
    assert PopN(x, n + 4) == PopN(Pop(x), n + 3);
    assert PopN(Pop(x), n + 3) == PopN(Pop(Pop(x)), n + 2);
    assert PopN(Pop(Pop(x)), n + 2) == PopN(Pop(Pop(Pop(x))), n + 1);
  }

  function Shift4(x: bv64): bv64 { x >> 4 }

  lemma PopFour(x: bv64, n: nat)
    ensures PopN(x, n + 4) == PopN(Shift4(x), n)
  {
    hide PopN;
    FourPops(x, n);
    FourIsShift(x);
  }

  lemma FourIsShift(x: bv64)
    ensures Pop(Pop(Pop(Pop(x)))) == Shift4(x)
  {}

  lemma EightShifts(x: bv64)
    ensures Shift4(Shift4(Shift4(Shift4(Shift4(Shift4(Shift4(Shift4(x)))))))) == x >> 32
  {}

  lemma PopHalf(x: bv64)
    ensures PopN(x, 32) == x >> 32
  {
    EightShifts(x);
    hide Pop, Shift4;
    var a := Shift4(x);
    var b := Shift4(a);
    var c := Shift4(b);
    var d := Shift4(c);
    var e := Shift4(d);
    var f := Shift4(e);
    var g := Shift4(f);
    PopFour(x, 28); PopFour(a, 24); PopFour(b, 20); PopFour(c, 16);
    PopFour(d, 12); PopFour(e, 8); PopFour(f, 4); PopFour(g, 0);
  }

  lemma ThirtyTwoOnes()
    ensures LowOnes(32) == 0xffff_ffff
  {
    FourOnes(0); FourOnes(4); FourOnes(8); FourOnes(12); FourOnes(16); FourOnes(20); FourOnes(24); FourOnes(28);
  }

  /** The strings of two words agree on their low half when the low halves do. */
  lemma LowHalf(x: bv64, y: bv64)
    ensures And(x, 0xffff_ffff) == And(y, 0xffff_ffff) <==> BitsOf(x, 32) == BitsOf(y, 32)
  {
    hide And;
    ThirtyTwoOnes();
    WordOfBits(x, 32);
    WordOfBits(y, 32);
    BitsOfWord(BitsOf(x, 32));
    BitsOfWord(BitsOf(y, 32));
  }

  /** A word whose halves are equal has period 32, and conversely. */
  lemma EqualHalves(y: bv64)
    ensures And(y, 0xffff_ffff) == And(y >> 32, 0xffff_ffff) <==> Periodic(Word64Of(y), 32)
  {
    hide And;
    BitsConcat(y, 32, 32);
    PopHalf(y);
    LowHalf(y, y >> 32);
    hide BitsOf, Word64Of, Periodic;
    HalvesPeriodic(Word64Of(y), BitsOf(y, 32), BitsOf(y >> 32, 32));
  }

  lemma HalvesPeriodic(w: Word64, lo: seq<bool>, hi: seq<bool>)
    requires w == lo + hi && |lo| == 32 && |hi| == 32
    ensures lo == hi <==> Periodic(w, 32)
  {
    if lo == hi {
      assert forall i | 0 <= i < 64 :: w[i] == w[i % 32];
    }
    if Periodic(w, 32) {
      forall i | 0 <= i < 32 ensures lo[i] == hi[i] {
        assert w[i + 32] == w[(i + 32) % 32];
      }
    }
  }

  // ----- numbers in 13-bit instruction fields -----

  function Flag(on: bool, b: bv32): bv32 { if on then b else 0 }

  function Digit(k: nat): bv32
    requires k < 16
  {
    Flag(k % 2 == 1, 1) | Flag(k / 2 % 2 == 1, 2) | Flag(k / 4 % 2 == 1, 4) | Flag(k >= 8, 8)
  }

  function DigitNat(c: bv32): (k: nat)
  {
    (if c & 1 != 0 then 1 else 0) + (if c & 2 != 0 then 2 else 0) +
    (if c & 4 != 0 then 4 else 0) + (if c & 8 != 0 then 8 else 0)
  }

  lemma DigitRoundTrip(k: nat)
    requires k < 16
    ensures DigitNat(Digit(k)) == k && Digit(k) <= 15 && (Digit(k) & 1 != 0 <==> k % 2 == 1)
  {}

  /** The number in a 13-bit field, and the field holding a number. */
  function FieldNat(c: bv32): (n: nat)
  {
    DigitNat(c & 15) + 16 * DigitNat((c >> 4) & 15) + 256 * DigitNat((c >> 8) & 15) + 4096 * (if c & 0x1000 != 0 then 1 else 0)
  }

  function Field(n: nat): bv32
    requires n < 0x2000
  {
    Digit(n % 16) | (Digit(n / 16 % 16) << 4) | (Digit(n / 256 % 16) << 8) | Flag(n >= 4096, 0x1000)
  }

  lemma DigitsApart(a: bv32, b: bv32, c: bv32, d: bool)
    requires a <= 15 && b <= 15 && c <= 15
    ensures var w := a | (b << 4) | (c << 8) | Flag(d, 0x1000);
            w & 15 == a && (w >> 4) & 15 == b && (w >> 8) & 15 == c && (w & 0x1000 != 0 <==> d) &&
            w & 0x1fff == w && (w & 0x1000 == 0 <==> w < 0x1000)
  {}

  lemma FieldNatParts(w: bv32, a: bv32, b: bv32, c: bv32, d: bool)
    requires a <= 15 && b <= 15 && c <= 15 && w == a | (b << 4) | (c << 8) | Flag(d, 0x1000)
    ensures FieldNat(w) == DigitNat(a) + 16 * DigitNat(b) + 256 * DigitNat(c) + (if d then 4096 else 0)
  {
    hide DigitNat, Flag;
    DigitsApart(a, b, c, d);
  }

  lemma HexDigits(n: nat)
    requires n < 0x2000
    ensures n == n % 16 + 16 * (n / 16 % 16) + 256 * (n / 256 % 16) + (if n >= 4096 then 4096 else 0)
  {}

  lemma FieldRoundTrip(n: nat)
    requires n < 0x2000
    ensures FieldNat(Field(n)) == n && Field(n) & 0x1fff == Field(n)
    ensures Field(n) < 0x1000 <==> n < 0x1000
  {
    hide Digit, DigitNat, Flag, FieldNat;
    var a, b, c := n % 16, n / 16 % 16, n / 256 % 16;
    DigitRoundTrip(a);
    DigitRoundTrip(b);
    DigitRoundTrip(c);
    DigitsApart(Digit(a), Digit(b), Digit(c), n >= 4096);
    FieldNatParts(Field(n), Digit(a), Digit(b), Digit(c), n >= 4096);
    HexDigits(n);
  }

  lemma DigitIsNumber(k: nat)
    requires k < 16
    ensures Digit(k) as nat == k && Digit(k) <= 15
  {}

  lemma DigitNatIsNumber(c: bv32)
    requires c <= 15
    ensures DigitNat(c) == c as nat
  {}

  lemma AppendDigit(h: bv32, c: bv32)
    requires h < 0x200 && c <= 15
    ensures ((h << 4) | c) as nat == 16 * (h as nat) + (c as nat) && (h < 0x20 ==> (h << 4) | c < 0x200)
  {}

  lemma DigitsInTurn(a: bv32, b: bv32, c: bv32, d: bool)
    requires a <= 15 && b <= 15 && c <= 15
    ensures a | (b << 4) | (c << 8) | Flag(d, 0x1000) == (((((Flag(d, 1) << 4) | c) << 4) | b) << 4) | a
  {}

  /** A word of three hexadecimal digits and a leading bit is the number with these digits. */
  lemma HexValue(w: bv32, a: bv32, b: bv32, c: bv32, d: bool)
    requires a <= 15 && b <= 15 && c <= 15 && w == a | (b << 4) | (c << 8) | Flag(d, 0x1000)
    ensures w as nat == (a as nat) + 16 * (b as nat) + 256 * (c as nat) + (if d then 4096 else 0)
  {
    DigitsInTurn(a, b, c, d);
    var p := Flag(d, 1);
    var q := (p << 4) | c;
    AppendDigit(p, c);
    AppendDigit(q, b);
    AppendDigit((q << 4) | b, a);
  }

  /** The field written for a number is that number in binary. */
  lemma FieldIsNumber(n: nat)
    requires n < 0x2000
    ensures Field(n) as nat == n
  {
    hide Digit, Flag;
    var a, b, c := n % 16, n / 16 % 16, n / 256 % 16;
    DigitIsNumber(a);
    DigitIsNumber(b);
    DigitIsNumber(c);
    HexValue(Field(n), Digit(a), Digit(b), Digit(c), n >= 4096);
    HexDigits(n);
  }

  lemma DigitsOf(w: bv32) returns (a: bv32, b: bv32, c: bv32, d: bool)
    requires w & 0x1fff == w
    ensures a <= 15 && b <= 15 && c <= 15 && w == a | (b << 4) | (c << 8) | Flag(d, 0x1000)
  {
    a, b, c, d := w & 15, (w >> 4) & 15, (w >> 8) & 15, w & 0x1000 != 0;
  }

  lemma DigitsValue(w: bv32, a: bv32, b: bv32, c: bv32, d: bool)
    requires a <= 15 && b <= 15 && c <= 15 && w == a | (b << 4) | (c << 8) | Flag(d, 0x1000)
    ensures FieldNat(w) == w as nat
  {
    hide FieldNat, DigitNat, Flag;
    FieldNatParts(w, a, b, c, d);
    HexValue(w, a, b, c, d);
    DigitNatIsNumber(a);
    DigitNatIsNumber(b);
    DigitNatIsNumber(c);
  }

  /** The number read from a field is the field's value. */
  lemma FieldNatIsNumber(w: bv32)
    requires w & 0x1fff == w
    ensures FieldNat(w) == w as nat
  {
    hide FieldNat, Flag;
    var a, b, c, d := DigitsOf(w);
    DigitsValue(w, a, b, c, d);
  }

  lemma {:induction false} DigitBound(c: bv32)
    ensures DigitNat(c) < 16
  {}

  lemma FieldNatBound(c: bv32)
    requires c & 0x1fff == c
    ensures FieldNat(c) < 0x2000 && (FieldNat(c) < 0x1000 <==> c & 0x1000 == 0)
  {
    DigitBound(c & 15); DigitBound((c >> 4) & 15); DigitBound((c >> 8) & 15);
  }
}
