/** asm_expr: assembler expressions over 64-bit numbers and labels, parsed and evaluated in one pass. */
module AsmExpr {
  import opened Wrappers
  import opened Arith

  const M := 0x1_0000_0000_0000_0000

  const SHN_ABS := 0xfff1

  // ----- tokens and syntax -----

  datatype Op = Mul | Div | Mod | Shl | Sar | And | Or | Xor | Add | Sub

  /** A number token ends in nothing, b, f, or something else. */
  datatype Token = Number(n: nat) | Backward(num: nat) | Forward(num: nat) | BadNumber | Character(n: nat)
                 | Operator(op: Op) | Tilde | Open | Close | Dot | Ident(name: string) | End | OtherToken

  /** Labels by name: identifiers, and numbered local labels. */
  datatype Name = Global(name: string) | Local(num: nat)

  /** Syntax trees; a label leaf carries the symbol it was resolved to. */
  datatype Expr =
    | Const(n: nat) | Char(n: nat) | Here | Label(name: string, id: nat) | Back(num: nat, id: nat) | Fwd(num: nat, id: nat)
    | Paren(e: Expr) | Pos(e: Expr) | Neg(e: Expr) | Not(e: Expr) | Bin(op: Op, l: Expr, r: Expr)

  /** Binding strength: products and shifts, then logic, then sums. */
  function Level(op: Op): nat
  {
    match op
    case Mul => 1 case Div => 1 case Mod => 1 case Shl => 1 case Sar => 1
    case And => 2 case Or => 2 case Xor => 2
    case Add => 3 case Sub => 3
  }

  function LevelOf(e: Expr): nat { if e.Bin? then Level(e.op) else 0 }

  /** The tree respects the levels, and operators of one level associate to the left. */
  predicate Wf(e: Expr)
  {
    match e
    case Paren(d) => Wf(d)
    case Pos(d) => Wf(d) && LevelOf(d) == 0
    case Neg(d) => Wf(d) && LevelOf(d) == 0
    case Not(d) => Wf(d) && LevelOf(d) == 0
    case Bin(op, l, r) => Wf(l) && Wf(r) && LevelOf(l) <= Level(op) && LevelOf(r) < Level(op)
    case _ => true
  }

  /** The tokens of a tree. */
  function Toks(e: Expr): (ts: seq<Token>)
    ensures ts != []
  {
    match e
    case Const(n) => [Number(n)]
    case Char(n) => [Character(n)]
    case Here => [Dot]
    case Label(s, _) => [Ident(s)]
    case Back(n, _) => [Backward(n)]
    case Fwd(n, _) => [Forward(n)]
    case Paren(d) => [Open] + Toks(d) + [Close]
    case Pos(d) => [Operator(Add)] + Toks(d)
    case Neg(d) => [Operator(Sub)] + Toks(d)
    case Not(d) => [Tilde] + Toks(d)
    case Bin(op, l, r) => Toks(l) + [Operator(op)] + Toks(r)
  }

  // ----- meaning -----

  /** A label symbol: section (0 while undefined) and offset in it. */
  datatype Symbol = Symbol(section: nat, offset: int)

  /** What is not known yet: where sections will be, and where undefined labels will turn out to be. */
  datatype Env = Env(base: nat -> int, later: nat -> int)

  /** The place being assembled. */
  datatype Place = Place(section: nat, offset: int)

  function SymbolAddr(s: Symbol, id: nat, env: Env): int
  {
    if s.section == 0 then env.later(id) else if s.section == SHN_ABS then s.offset else env.base(s.section) + s.offset
  }

  function PlaceAddr(here: Place, env: Env): int { env.base(here.section) + here.offset }

  predicate IsLogic(op: Op) { op.And? || op.Or? || op.Xor? }

  /** What a logic operator makes of two bits. */
  predicate Together(op: Op, p: bool, q: bool)
    requires IsLogic(op)
  {
    if op.And? then p && q else if op.Or? then p || q else p != q
  }

  /** A logic operator on the n low bits of two numbers. */
  function Bitwise(op: Op, a: nat, b: nat, n: nat): (v: nat)
    requires IsLogic(op)
    ensures v < Pow2(n)
    decreases n
  {
    if n == 0 then 0
    else 2 * Bitwise(op, a / 2, b / 2, n - 1) + if Together(op, a % 2 == 1, b % 2 == 1) then 1 else 0
  }

  lemma ModulusIs()
    ensures Pow2(64) == M
  {
    Pow2Values();
    Pow2Add(16, 16);
    Pow2Add(32, 32);
  }

  /** Unsigned 64-bit operations; the shift count is taken modulo 64. */
  function Apply(op: Op, a: nat, b: nat): (v: nat)
    requires a < M && b < M
    ensures v < M
  {
    match op
    case Mul => Product(a, b)
    case Div => if b == 0 then 0 else Quotient(a, b)
    case Mod => if b == 0 then 0 else Remainder(a, b)
    case Shl => Product(a, Pow2(b % 64))
    case Sar => Quotient(a, Pow2(b % 64))
    case And => ModulusIs(); Bitwise(op, a, b, 64)
    case Or => ModulusIs(); Bitwise(op, a, b, 64)
    case Xor => ModulusIs(); Bitwise(op, a, b, 64)
    case Add => (a + b) % M
    case Sub => (a + M - b) % M
  }

  function Product(a: nat, b: nat): (v: nat)
    ensures v < M
  {
    a * b % M
  }

  function Quotient(a: nat, b: nat): (q: nat)
    requires b > 0
    ensures q <= a
  {
    assert a == a / b * b + a % b;
    MulMono(1, b, a / b);
    a / b
  }

  function Remainder(a: nat, b: nat): (r: nat)
    requires b > 0
    ensures r <= a
  {
    assert a == a / b * b + a % b;
    MulMono(0, b, a / b);
    a % b
  }

  /** Bit k of a number. */
  predicate Bit(v: nat, k: nat)
  {
    if k == 0 then v % 2 == 1 else Bit(v / 2, k - 1)
  }

  lemma {:induction false} BitsTogether(op: Op, a: nat, b: nat, n: nat, k: nat)
    requires IsLogic(op) && k < n
    ensures Bit(Bitwise(op, a, b, n), k) <==> Together(op, Bit(a, k), Bit(b, k))
    decreases k
  {
    if k > 0 { BitsTogether(op, a / 2, b / 2, n - 1, k - 1); }
  }

  lemma {:induction false} NoBitsBeyond(v: nat, n: nat, k: nat)
    requires v < Pow2(n) && n <= k
    ensures !Bit(v, k)
    decreases k
  {
    if k > 0 { NoBitsBeyond(v / 2, if n == 0 then 0 else n - 1, k - 1); }
  }

  /** The logic operators work bit by bit. */
  lemma LogicBits(op: Op, a: nat, b: nat, k: nat)
    requires a < M && b < M && IsLogic(op)
    ensures Bit(Apply(op, a, b), k) <==> Together(op, Bit(a, k), Bit(b, k))
  {
    hide Bitwise, Bit, Pow2;
    ModulusIs();
    if k < 64 {
      BitsTogether(op, a, b, 64, k);
    } else {
      NoBitsBeyond(a, 64, k);
      NoBitsBeyond(b, 64, k);
      NoBitsBeyond(Apply(op, a, b), 64, k);
    }
  }

  lemma {:induction false} BitsShifted(v: nat, s: nat, k: nat)
    ensures Bit(v * Pow2(s), k) <==> k >= s && Bit(v, k - s)
    decreases k
  {
    if s > 0 {
      assert v * Pow2(s) == 2 * (v * Pow2(s - 1));
      if k > 0 { BitsShifted(v, s - 1, k - 1); }
    }
  }

  lemma {:induction false} BitsKept(v: nat, n: nat, k: nat)
    requires k < n
    ensures Bit(v % Pow2(n), k) <==> Bit(v, k)
    decreases k
  {
    var p := Pow2(n - 1);
    assert v == v / 2 * 2 + v % 2 && v / 2 == v / 2 / p * p + v / 2 % p;
    assert v / 2 / p * p * 2 == v / 2 / p * (2 * p);
    DivModUnique(v, 2 * p, v / 2 / p, v / 2 % p * 2 + v % 2);
    if k > 0 { BitsKept(v / 2, n - 1, k - 1); }
  }

  lemma {:induction false} BitsAbove(v: nat, s: nat, k: nat)
    ensures Bit(Quotient(v, Pow2(s)), k) <==> Bit(v, k + s)
    decreases s
  {
    if s > 0 {
      var p := Pow2(s - 1);
      assert v == v / 2 * 2 + v % 2 && v / 2 == v / 2 / p * p + v / 2 % p;
      assert v / 2 / p * p * 2 == v / 2 / p * (2 * p);
      DivModUnique(v, 2 * p, v / 2 / p, v / 2 % p * 2 + v % 2);
      BitsAbove(v / 2, s - 1, k);
    }
  }

  /** A shift moves the bits by the count modulo 64; zeros come in. */
  lemma ShiftBits(a: nat, b: nat, k: nat)
    requires a < M && b < M && k < 64
    ensures Bit(Apply(Shl, a, b), k) <==> k >= b % 64 && Bit(a, k - b % 64)
    ensures Bit(Apply(Sar, a, b), k) <==> k + b % 64 < 64 && Bit(a, k + b % 64)
  {
    hide Bit, Pow2;
    ModulusIs();
    BitsShifted(a, b % 64, k);
    BitsKept(a * Pow2(b % 64), 64, k);
    BitsAbove(a, b % 64, k);
    if k + b % 64 >= 64 { NoBitsBeyond(a, 64, k + b % 64); }
  }

  /** Quotient and remainder belong together. */
  lemma DivisionLaw(a: nat, b: nat)
    requires a < M && 0 < b < M
    ensures Apply(Div, a, b) * b + Apply(Mod, a, b) == a && Apply(Mod, a, b) < b
  {
    assert a == a / b * b + a % b;
  }

  /** Addition wraps, and subtraction undoes it. */
  lemma SumLaw(a: nat, b: nat)
    requires a < M && b < M
    ensures Apply(Add, a, b) == (if a + b < M then a + b else a + b - M) && Apply(Sub, Apply(Add, a, b), b) == a
  {}

  lemma NextMultiple(a: nat, b: nat, c: nat)
    requires b < M && c == (b + 1) % M
    ensures exists k :: a * c == a * b + a - k * M
  {
    if b + 1 < M {
      assert a * c == a * b + a - 0 * M;
    } else {
      assert a * c == 0;
      assert a * b + a == a * M;
      assert a * c == a * b + a - a * M;
    }
  }

  /** Multiplication is repeated addition. */
  lemma RepeatedAddition(a: nat, b: nat)
    requires a < M && b < M
    ensures Apply(Mul, a, 0) == 0 && Apply(Mul, a, Apply(Add, b, 1)) == Apply(Add, Apply(Mul, a, b), a)
  {
    var c := Apply(Add, b, 1);
    NextMultiple(a, b, c);
    var k :| a * c == a * b + a - k * M;
    var q, r := a * b / M, a * b % M;
    assert a * b == q * M + r;
    MultiplesLeftOut(r + a, q - k, a * c);
  }

  lemma MultiplesLeftOut(v: int, k: int, w: int)
    requires w == v + k * M
    ensures w % M == v % M
  {
    ModAddMultiple(v, k, M);
  }

  /** The value of an expression, modulo 2^64, once everything is known. */
  function Eval(e: Expr, syms: seq<Symbol>, here: Place, env: Env): (v: nat)
    ensures v < M
  {
    match e
    case Const(n) => n % M
    case Char(n) => n % M
    case Here => PlaceAddr(here, env) % M
    case Label(_, id) => if id < |syms| then SymbolAddr(syms[id], id, env) % M else 0
    case Back(_, id) => if id < |syms| then SymbolAddr(syms[id], id, env) % M else 0
    case Fwd(_, id) => if id < |syms| then SymbolAddr(syms[id], id, env) % M else 0
    case Paren(d) => Eval(d, syms, here, env)
    case Pos(d) => Eval(d, syms, here, env)
    case Neg(d) => (M - Eval(d, syms, here, env)) % M
    case Not(d) => M - 1 - Eval(d, syms, here, env)
    case Bin(op, l, r) => Apply(op, Eval(l, syms, here, env), Eval(r, syms, here, env))
  }

  /** No divisor of the expression is zero. */
  predicate Divides(e: Expr, syms: seq<Symbol>, here: Place, env: Env)
  {
    match e
    case Paren(d) => Divides(d, syms, here, env)
    case Pos(d) => Divides(d, syms, here, env)
    case Neg(d) => Divides(d, syms, here, env)
    case Not(d) => Divides(d, syms, here, env)
    case Bin(op, l, r) => Divides(l, syms, here, env) && Divides(r, syms, here, env) && (op.Div? || op.Mod? ==> Eval(r, syms, here, env) != 0)
    case _ => true
  }

  // ----- labels -----

  /** The symbols made for each name, oldest first: several for a local label that is defined again. */
  type Chains = map<Name, seq<nat>>

  /** Symbols exist, belong to one name each, and only the newest of a chain may be undefined. */
  predicate ChainsHold(chains: Chains, syms: seq<Symbol>)
  {
    (forall n :: n in chains ==> chains[n] != [] && (forall i :: 0 <= i < |chains[n]| ==> chains[n][i] < |syms|)) &&
    (forall n, i :: n in chains && 0 <= i < |chains[n]| - 1 ==> syms[chains[n][i]].section != 0) &&
    (forall n, m, i, j :: n in chains && m in chains && 0 <= i < |chains[n]| && 0 <= j < |chains[m]| && chains[n][i] == chains[m][j] ==> n == m && i == j)
  }

  /** label_find: the newest symbol of a name. */
  function Find(chains: Chains, n: Name): Option<nat>
  {
    if n in chains && chains[n] != [] then Some(chains[n][|chains[n]| - 1]) else None
  }

  /** The last definition of a name: its newest symbol, or the one before when that is still undefined. */
  function LastDefined(chains: Chains, syms: seq<Symbol>, n: Name): Option<nat>
    requires ChainsHold(chains, syms)
  {
    if n !in chains then None
    else
      var c := chains[n];
      if syms[c[|c| - 1]].section != 0 then Some(c[|c| - 1]) else if |c| >= 2 then Some(c[|c| - 2]) else None
  }

  /** Every label of the expression is resolved: identifiers to their symbol, b to the last definition, f to the next one. */
  predicate Resolved(e: Expr, chains: Chains, syms: seq<Symbol>)
    requires ChainsHold(chains, syms)
  {
    match e
    case Label(s, id) => id < |syms| && Find(chains, Global(s)) == Some(id)
    case Back(n, id) => id < |syms| && LastDefined(chains, syms, Local(n)) == Some(id)
    case Fwd(n, id) => id < |syms| && Find(chains, Local(n)) == Some(id) && syms[id].section == 0
    case Paren(d) => Resolved(d, chains, syms)
    case Pos(d) => Resolved(d, chains, syms)
    case Neg(d) => Resolved(d, chains, syms)
    case Not(d) => Resolved(d, chains, syms)
    case Bin(_, l, r) => Resolved(l, chains, syms) && Resolved(r, chains, syms)
    case _ => true
  }

  /** label_push, when nothing forbids it: no symbol yet, or a local label whose newest symbol is defined. */
  predicate MayPush(chains: Chains, syms: seq<Symbol>, n: Name)
    requires ChainsHold(chains, syms)
  {
    n !in chains || (n.Local? && syms[chains[n][|chains[n]| - 1]].section != 0)
  }

  function Pushed(chains: Chains, n: Name, id: nat): Chains
  {
    chains[n := (if n in chains then chains[n] else []) + [id]]
  }

  const UNDEFINED := Symbol(0, 0)

  lemma PushFinds(chains: Chains, n: Name, id: nat, m: Name)
    ensures Find(Pushed(chains, n, id), m) == if m == n then Some(id) else Find(chains, m)
  {}

  /** Position i of a chain after the push: an old one, or the new symbol at the end of its own chain. */
  lemma PushedAt(chains: Chains, syms: seq<Symbol>, n: Name, m: Name, i: nat)
    requires ChainsHold(chains, syms) && m in Pushed(chains, n, |syms|) && i < |Pushed(chains, n, |syms|)[m]|
    ensures var c := Pushed(chains, n, |syms|)[m];
      if m == n && i == |c| - 1 then c[i] == |syms|
      else m in chains && i < |chains[m]| && c[i] == chains[m][i] < |syms|
  {}

  lemma PushHolds(chains: Chains, syms: seq<Symbol>, n: Name)
    requires ChainsHold(chains, syms) && MayPush(chains, syms, n)
    ensures ChainsHold(Pushed(chains, n, |syms|), syms + [UNDEFINED])
  {
    var chains', syms' := Pushed(chains, n, |syms|), syms + [UNDEFINED];
    forall m, i | m in chains' && 0 <= i < |chains'[m]| - 1 ensures syms'[chains'[m][i]].section != 0 {
      PushedAt(chains, syms, n, m, i);
    }
    forall m, k, i, j | m in chains' && k in chains' && 0 <= i < |chains'[m]| && 0 <= j < |chains'[k]| && chains'[m][i] == chains'[k][j]
      ensures m == k && i == j
    {
      PushedAt(chains, syms, n, m, i);
      PushedAt(chains, syms, n, k, j);
    }
  }

  lemma PushDefines(chains: Chains, syms: seq<Symbol>, n: Name, m: Name)
    requires ChainsHold(chains, syms) && MayPush(chains, syms, n)
    requires ChainsHold(Pushed(chains, n, |syms|), syms + [UNDEFINED])
    ensures LastDefined(Pushed(chains, n, |syms|), syms + [UNDEFINED], m) == LastDefined(chains, syms, m)
  {}

  /** A new undefined symbol resolves nothing differently. */
  lemma {:induction false} PushKeepsResolved(e: Expr, chains: Chains, syms: seq<Symbol>, n: Name)
    requires ChainsHold(chains, syms) && MayPush(chains, syms, n) && Resolved(e, chains, syms)
    ensures ChainsHold(Pushed(chains, n, |syms|), syms + [UNDEFINED])
    ensures Resolved(e, Pushed(chains, n, |syms|), syms + [UNDEFINED])
  {
    hide ChainsHold, LastDefined, Pushed, MayPush, Find;
    PushHolds(chains, syms, n);
    match e
    case Paren(d) => PushKeepsResolved(d, chains, syms, n);
    case Pos(d) => PushKeepsResolved(d, chains, syms, n);
    case Neg(d) => PushKeepsResolved(d, chains, syms, n);
    case Not(d) => PushKeepsResolved(d, chains, syms, n);
    case Bin(_, l, r) => PushKeepsResolved(l, chains, syms, n); PushKeepsResolved(r, chains, syms, n);
    case Fwd(m, id) => FindPushable(chains, syms, n, Local(m)); PushFinds(chains, n, |syms|, Local(m));
    case Label(s, id) => FindPushable(chains, syms, n, Global(s)); PushFinds(chains, n, |syms|, Global(s));
    case Back(m, id) => PushDefines(chains, syms, n, Local(m));
    case _ =>
  }

  /** A name that has a symbol cannot be pushed while that symbol is undefined, nor at all if it is an identifier. */
  lemma FindPushable(chains: Chains, syms: seq<Symbol>, n: Name, m: Name)
    requires ChainsHold(chains, syms) && MayPush(chains, syms, n) && Find(chains, m).Some?
    ensures Find(chains, m).value < |syms|
    ensures n == m ==> n.Local? && syms[Find(chains, m).value].section != 0
  {}

  // ----- one-pass results -----

  /** The symbol of a result: none, the place being assembled, or a label. */
  datatype Ref = NoRef | DotRef | LabelRef(id: nat)

  predicate RefOk(ref: Ref, syms: seq<Symbol>) { ref.LabelRef? ==> ref.id < |syms| }

  function RefAddr(ref: Ref, syms: seq<Symbol>, here: Place, env: Env): int
    requires RefOk(ref, syms)
  {
    match ref case NoRef => 0 case DotRef => PlaceAddr(here, env) case LabelRef(id) => SymbolAddr(syms[id], id, env)
  }

  /** Under this environment, v plus the address of ref is the value of e. */
  predicate MeansIn(v: nat, ref: Ref, e: Expr, syms: seq<Symbol>, here: Place, env: Env)
    requires RefOk(ref, syms)
  {
    (v + RefAddr(ref, syms, here, env)) % M == Eval(e, syms, here, env) && Divides(e, syms, here, env)
  }

  /** So it is wherever the sections and the undefined labels end up. */
  ghost predicate Means(v: nat, ref: Ref, e: Expr, syms: seq<Symbol>, here: Place)
  {
    v < M && RefOk(ref, syms) && forall env: Env :: MeansIn(v, ref, e, syms, here, env)
  }

  // ----- a label defined later is one of the environments -----

  predicate IdsBelow(e: Expr, n: nat)
  {
    match e
    case Label(_, id) => id < n
    case Back(_, id) => id < n
    case Fwd(_, id) => id < n
    case Paren(d) => IdsBelow(d, n)
    case Pos(d) => IdsBelow(d, n)
    case Neg(d) => IdsBelow(d, n)
    case Not(d) => IdsBelow(d, n)
    case Bin(_, l, r) => IdsBelow(l, n) && IdsBelow(r, n)
    case _ => true
  }

  /** The symbols as one environment sees them are the same under another. */
  ghost predicate SameAddrs(syms: seq<Symbol>, env: Env, syms': seq<Symbol>, env': Env)
  {
    (forall k :: env.base(k) == env'.base(k)) && |syms| <= |syms'| &&
    forall id :: 0 <= id < |syms| ==> SymbolAddr(syms[id], id, env) == SymbolAddr(syms'[id], id, env')
  }

  lemma {:induction false} SameEval(e: Expr, syms: seq<Symbol>, env: Env, syms': seq<Symbol>, env': Env, here: Place)
    requires IdsBelow(e, |syms|) && SameAddrs(syms, env, syms', env')
    ensures Eval(e, syms, here, env) == Eval(e, syms', here, env') && (Divides(e, syms, here, env) <==> Divides(e, syms', here, env'))
  {
    hide SymbolAddr, Apply;
    match e
    case Paren(d) => SameEval(d, syms, env, syms', env', here);
    case Pos(d) => SameEval(d, syms, env, syms', env', here);
    case Neg(d) => SameEval(d, syms, env, syms', env', here);
    case Not(d) => SameEval(d, syms, env, syms', env', here);
    case Bin(_, l, r) => SameEval(l, syms, env, syms', env', here); SameEval(r, syms, env, syms', env', here);
    case _ =>
  }

  /** Defining a label that was undefined keeps the meaning of every result. */
  lemma MeansAfterDefinition(v: nat, ref: Ref, e: Expr, syms: seq<Symbol>, here: Place, id: nat, s: Symbol)
    requires Means(v, ref, e, syms, here) && IdsBelow(e, |syms|) && id < |syms| && syms[id].section == 0
    ensures Means(v, ref, e, syms[id := s], here)
  {
    hide Eval, Divides;
    var syms' := syms[id := s];
    forall env: Env ensures MeansIn(v, ref, e, syms', here, env) {
      var known := SymbolAddr(s, id, env);
      var env' := Env(env.base, (k: nat) => if k == id then known else env.later(k));
      SameEval(e, syms, env', syms', env, here);
      assert MeansIn(v, ref, e, syms, here, env');
    }
  }

  /** New symbols change no result. */
  lemma MeansAfterPush(v: nat, ref: Ref, e: Expr, syms: seq<Symbol>, syms': seq<Symbol>, here: Place)
    requires Means(v, ref, e, syms, here) && IdsBelow(e, |syms|) && syms <= syms'
    ensures Means(v, ref, e, syms', here)
  {
    hide Eval, Divides;
    forall env: Env ensures MeansIn(v, ref, e, syms', here, env) {
      assert forall k :: 0 <= k < |syms| ==> syms'[k] == syms[k];
      SameEval(e, syms, env, syms', env, here);
      assert MeansIn(v, ref, e, syms, here, env);
    }
  }

  lemma {:induction false} ResolvedBelow(e: Expr, chains: Chains, syms: seq<Symbol>)
    requires ChainsHold(chains, syms) && Resolved(e, chains, syms)
    ensures IdsBelow(e, |syms|)
  {
    match e
    case Paren(d) => ResolvedBelow(d, chains, syms);
    case Pos(d) => ResolvedBelow(d, chains, syms);
    case Neg(d) => ResolvedBelow(d, chains, syms);
    case Not(d) => ResolvedBelow(d, chains, syms);
    case Bin(_, l, r) => ResolvedBelow(l, chains, syms); ResolvedBelow(r, chains, syms);
    case _ =>
  }

  // ----- operators on results -----

  lemma ConstantIs(v: nat, e: Expr, syms: seq<Symbol>, here: Place, env: Env)
    requires Means(v, NoRef, e, syms, here)
    ensures Eval(e, syms, here, env) == v && Divides(e, syms, here, env)
  {
    assert MeansIn(v, NoRef, e, syms, here, env);
  }

  lemma MeansConstants(op: Op, v: nat, e: Expr, w: nat, f: Expr, syms: seq<Symbol>, here: Place)
    requires Means(v, NoRef, e, syms, here) && Means(w, NoRef, f, syms, here) && (op.Div? || op.Mod? ==> w != 0)
    ensures Means(Apply(op, v, w), NoRef, Bin(op, e, f), syms, here)
  {
    hide Apply, Means;
    MeansBound(v, NoRef, e, syms, here);
    MeansBound(w, NoRef, f, syms, here);
    forall env: Env ensures MeansIn(Apply(op, v, w), NoRef, Bin(op, e, f), syms, here, env) {
      ConstantIs(v, e, syms, here, env);
      ConstantIs(w, f, syms, here, env);
    }
    MeansIntro(Apply(op, v, w), NoRef, Bin(op, e, f), syms, here);
  }

  lemma MeansBound(v: nat, ref: Ref, e: Expr, syms: seq<Symbol>, here: Place)
    requires Means(v, ref, e, syms, here)
    ensures v < M && RefOk(ref, syms)
  {}

  lemma MeansIntro(v: nat, ref: Ref, e: Expr, syms: seq<Symbol>, here: Place)
    requires v < M && RefOk(ref, syms) && forall env: Env :: MeansIn(v, ref, e, syms, here, env)
    ensures Means(v, ref, e, syms, here)
  {}

  lemma MeansElim(v: nat, ref: Ref, e: Expr, syms: seq<Symbol>, here: Place, env: Env)
    requires Means(v, ref, e, syms, here)
    ensures RefOk(ref, syms) && (v + RefAddr(ref, syms, here, env)) % M == Eval(e, syms, here, env) && Divides(e, syms, here, env)
  {
    assert MeansIn(v, ref, e, syms, here, env);
  }

  /** The sum of two results, of which at most one has a symbol. */
  lemma MeansSum(v: nat, a: Ref, e: Expr, w: nat, b: Ref, f: Expr, syms: seq<Symbol>, here: Place)
    requires Means(v, a, e, syms, here) && Means(w, b, f, syms, here) && (a.NoRef? || b.NoRef?)
    ensures Means((v + w) % M, if a.NoRef? then b else a, Bin(Add, e, f), syms, here)
  {
    hide Means, RefAddr;
    MeansBound(v, a, e, syms, here);
    MeansBound(w, b, f, syms, here);
    var r, total, sum := if a.NoRef? then b else a, (v + w) % M, Bin(Add, e, f);
    forall env: Env ensures MeansIn(total, r, sum, syms, here, env) {
      MeansElim(v, a, e, syms, here, env);
      MeansElim(w, b, f, syms, here, env);
      NoRefAddr(syms, here, env);
      AddMods(v, RefAddr(a, syms, here, env), w, RefAddr(b, syms, here, env));
    }
    MeansIntro(total, r, sum, syms, here);
  }

  lemma NoRefAddr(syms: seq<Symbol>, here: Place, env: Env)
    ensures RefAddr(NoRef, syms, here, env) == 0
  {}

  lemma ModShift(x: int, y: int, k: int)
    requires x == y + k * M
    ensures x % M == y % M
  {}

  lemma AddMods(v: nat, x: int, w: nat, y: int)
    ensures ((v + w) % M + (x + y)) % M == ((v + x) % M + (w + y) % M) % M
  {
    var k, l, m := (v + w) / M, (v + x) / M, (w + y) / M;
    assert v + w == k * M + (v + w) % M && v + x == l * M + (v + x) % M && w + y == m * M + (w + y) % M;
    assert (v + w) % M + (x + y) == (v + x) % M + (w + y) % M + (l + m - k) * M;
    ModShift((v + w) % M + (x + y), (v + x) % M + (w + y) % M, l + m - k);
  }

  lemma SubMods(v: nat, x: int, w: nat, y: int, u: int)
    requires v < M && w < M
    ensures ((v + M - w + u) % M + (x - y - u)) % M == ((v + x) % M + M - (w + y) % M) % M
  {
    var k, l, m := (v + M - w + u) / M, (v + x) / M, (w + y) / M;
    assert v + M - w + u == k * M + (v + M - w + u) % M && v + x == l * M + (v + x) % M && w + y == m * M + (w + y) % M;
    assert (v + M - w + u) % M + (x - y - u) == (v + x) % M + M - (w + y) % M + (l - m - k) * M;
    ModShift((v + M - w + u) % M + (x - y - u), (v + x) % M + M - (w + y) % M, l - m - k);
  }

  /** The difference of two results, when what is left of their symbols is a symbol or a constant u. */
  lemma MeansDifference(v: nat, a: Ref, e: Expr, w: nat, b: Ref, f: Expr, syms: seq<Symbol>, here: Place, c: Ref, u: int)
    requires Means(v, a, e, syms, here) && Means(w, b, f, syms, here) && RefOk(a, syms) && RefOk(b, syms) && RefOk(c, syms)
    requires forall env: Env :: RefAddr(c, syms, here, env) + u == RefAddr(a, syms, here, env) - RefAddr(b, syms, here, env)
    ensures Means((v + M - w + u) % M, c, Bin(Sub, e, f), syms, here)
  {
    hide Means, RefAddr;
    MeansBound(v, a, e, syms, here);
    MeansBound(w, b, f, syms, here);
    var total, difference := (v + M - w + u) % M, Bin(Sub, e, f);
    forall env: Env ensures MeansIn(total, c, difference, syms, here, env) {
      MeansElim(v, a, e, syms, here, env);
      MeansElim(w, b, f, syms, here, env);
      SubMods(v, RefAddr(a, syms, here, env), w, RefAddr(b, syms, here, env), u);
    }
    MeansIntro(total, c, difference, syms, here);
  }

  // ----- the tokens determine the tree -----

  /** The tree without the symbols its labels were resolved to. */
  function Shape(e: Expr): Expr
  {
    match e
    case Label(s, _) => Label(s, 0)
    case Back(n, _) => Back(n, 0)
    case Fwd(n, _) => Fwd(n, 0)
    case Paren(d) => Paren(Shape(d))
    case Pos(d) => Pos(Shape(d))
    case Neg(d) => Neg(Shape(d))
    case Not(d) => Not(Shape(d))
    case Bin(op, l, r) => Bin(op, Shape(l), Shape(r))
    case _ => e
  }

  /** Nothing that would extend an expression of this level. */
  predicate Stops(x: seq<Token>, level: nat) { x != [] && x[0].Operator? ==> Level(x[0].op) > level }

  /** Leftmost operand below the level, and the operators of the level with their right operands. */
  function First(e: Expr, level: nat): Expr { if e.Bin? && Level(e.op) == level then First(e.l, level) else e }

  datatype Step = Step(op: Op, operand: Expr)

  function Steps(e: Expr, level: nat): seq<Step>
  {
    if e.Bin? && Level(e.op) == level then Steps(e.l, level) + [Step(e.op, e.r)] else []
  }

  function StepToks(ss: seq<Step>): seq<Token>
  {
    if ss == [] then [] else [Operator(ss[0].op)] + Toks(ss[0].operand) + StepToks(ss[1..])
  }

  predicate StepsWf(ss: seq<Step>, level: nat)
  {
    forall i :: 0 <= i < |ss| ==> Level(ss[i].op) == level && Wf(ss[i].operand) && LevelOf(ss[i].operand) < level
  }

  lemma {:induction false} StepToksSnoc(ss: seq<Step>, s: Step)
    ensures StepToks(ss + [s]) == StepToks(ss) + [Operator(s.op)] + Toks(s.operand)
  {
    if ss == [] {
      assert ss + [s] == [s] && [s][1..] == [];
    } else {
      assert (ss + [s])[0] == ss[0] && (ss + [s])[1..] == ss[1..] + [s];
      StepToksSnoc(ss[1..], s);
    }
  }

  /** One more operator of the level at the end of a spine. */
  lemma SpineStep(e: Expr, level: nat)
    requires e.Bin? && Level(e.op) == level
    ensures First(e, level) == First(e.l, level) && Steps(e, level) == Steps(e.l, level) + [Step(e.op, e.r)]
    ensures Wf(e) ==> Wf(e.l) && LevelOf(e.l) <= level && Wf(e.r) && LevelOf(e.r) < level
    ensures Toks(e) == Toks(e.l) + [Operator(e.op)] + Toks(e.r)
  {}

  lemma SpineBase(e: Expr, level: nat)
    requires !(e.Bin? && Level(e.op) == level)
    ensures First(e, level) == e && Steps(e, level) == [] && (LevelOf(e) <= level && level >= 1 ==> LevelOf(e) < level)
  {}

  lemma {:induction false} Spine(e: Expr, level: nat)
    requires Wf(e) && LevelOf(e) <= level && level >= 1
    ensures Wf(First(e, level)) && LevelOf(First(e, level)) < level && StepsWf(Steps(e, level), level)
    ensures Toks(e) == Toks(First(e, level)) + StepToks(Steps(e, level))
  {
    hide Wf, First, Steps, Toks, LevelOf;
    if e.Bin? && Level(e.op) == level {
      SpineStep(e, level);
      Spine(e.l, level);
      StepToksSnoc(Steps(e.l, level), Step(e.op, e.r));
    } else {
      SpineBase(e, level);
    }
  }

  /** Spines of the same shape come from trees of the same shape. */
  predicate SameSteps(ss: seq<Step>, ts: seq<Step>)
  {
    |ss| == |ts| && forall i :: 0 <= i < |ss| ==> ss[i].op == ts[i].op && Shape(ss[i].operand) == Shape(ts[i].operand)
  }

  lemma SameStepsSplit(ss: seq<Step>, s: Step, ts: seq<Step>, t: Step)
    requires SameSteps(ss + [s], ts + [t])
    ensures SameSteps(ss, ts) && s.op == t.op && Shape(s.operand) == Shape(t.operand)
  {
    hide Shape;
    assert (ss + [s])[|ss|] == s && (ts + [t])[|ts|] == t;
    forall i | 0 <= i < |ss| ensures ss[i].op == ts[i].op && Shape(ss[i].operand) == Shape(ts[i].operand) {
      assert (ss + [s])[i] == ss[i] && (ts + [t])[i] == ts[i];
    }
  }

  lemma {:induction false} SpineDetermines(e: Expr, f: Expr, level: nat)
    requires Shape(First(e, level)) == Shape(First(f, level)) && SameSteps(Steps(e, level), Steps(f, level))
    ensures Shape(e) == Shape(f)
  {
    hide First, Steps;
    if e.Bin? && Level(e.op) == level {
      SpineStep(e, level);
      if f.Bin? && Level(f.op) == level {
        SpineStep(f, level);
        SameStepsSplit(Steps(e.l, level), Step(e.op, e.r), Steps(f.l, level), Step(f.op, f.r));
        SpineDetermines(e.l, f.l, level);
      } else {
        SpineBase(f, level);
      }
    } else {
      SpineBase(e, level);
      if f.Bin? && Level(f.op) == level { SpineStep(f, level); } else { SpineBase(f, level); }
    }
  }

  /** Two expressions that begin the same tokens, and stop where they must, are the same up to the symbols of their labels. */
  lemma {:induction false} SameStart(e: Expr, x: seq<Token>, f: Expr, y: seq<Token>, level: nat)
    requires Wf(e) && Wf(f) && LevelOf(e) <= level && LevelOf(f) <= level
    requires Toks(e) + x == Toks(f) + y && Stops(x, level) && Stops(y, level)
    ensures Shape(e) == Shape(f) && x == y
    decreases |Toks(e)|, level, 1
  {
    if level == 0 {
      SameUnary(e, x, f, y);
    } else {
      Spine(e, level);
      Spine(f, level);
      var e1, f1 := First(e, level), First(f, level);
      var ss, ts := Steps(e, level), Steps(f, level);
      Regroup(Toks(e1), StepToks(ss), x);
      Regroup(Toks(f1), StepToks(ts), y);
      StepsStop(ss, x, level);
      StepsStop(ts, y, level);
      SameStart(e1, StepToks(ss) + x, f1, StepToks(ts) + y, level - 1);
      SameRest(e, ss, x, ts, y, level);
      SpineDetermines(e, f, level);
    }
  }

  lemma StepsStop(ss: seq<Step>, x: seq<Token>, level: nat)
    requires StepsWf(ss, level) && Stops(x, level) && level >= 1
    ensures Stops(StepToks(ss) + x, level - 1)
  {
    if ss == [] { assert StepToks(ss) + x == x; }
  }

  lemma Regroup(a: seq<Token>, b: seq<Token>, c: seq<Token>)
    ensures (a + b) + c == a + (b + c)
  {}

  lemma SameHead(a: Token, u: seq<Token>, b: Token, v: seq<Token>)
    requires [a] + u == [b] + v
    ensures a == b && u == v
  {
    assert ([a] + u)[0] == ([b] + v)[0];
    assert ([a] + u)[1..] == ([b] + v)[1..] && ([a] + u)[1..] == u && ([b] + v)[1..] == v;
  }

  /** The first step, and what follows it. */
  lemma StepHead(ss: seq<Step>, x: seq<Token>)
    requires ss != []
    ensures StepToks(ss) + x == [Operator(ss[0].op)] + (Toks(ss[0].operand) + (StepToks(ss[1..]) + x))
    ensures |StepToks(ss)| == 1 + |Toks(ss[0].operand)| + |StepToks(ss[1..])|
  {
    hide Toks;
  }

  /** A step goes on: its operator is of the level. */
  lemma StepGoesOn(ss: seq<Step>, y: seq<Token>, level: nat)
    requires StepsWf(ss, level)
    ensures ss != [] ==> !Stops(StepToks(ss) + y, level)
  {
    if ss != [] {
      StepHead(ss, y);
      assert (StepToks(ss) + y)[0] == Operator(ss[0].op);
    }
  }

  /** The operators and right operands of two spines, one after the other; e is only there for the measure. */
  lemma {:induction false} SameRest(e: Expr, ss: seq<Step>, x: seq<Token>, ts: seq<Step>, y: seq<Token>, level: nat)
    requires level >= 1 && StepsWf(ss, level) && StepsWf(ts, level) && Stops(x, level) && Stops(y, level)
    requires StepToks(ss) + x == StepToks(ts) + y && |StepToks(ss)| < |Toks(e)|
    ensures SameSteps(ss, ts) && x == y
    decreases |Toks(e)|, level, 0, |ss|
  {
    hide Toks, Wf, Stops, Shape;
    if ss == [] {
      assert StepToks([]) + x == x;
      StepGoesOn(ts, y, level);
      assert StepToks([]) + y == y;
    } else if ts == [] {
      assert StepToks([]) + y == y;
      StepGoesOn(ss, x, level);
    } else {
      var s, t := ss[0], ts[0];
      var rs, rt := StepToks(ss[1..]) + x, StepToks(ts[1..]) + y;
      StepHead(ss, x);
      StepHead(ts, y);
      SameHead(Operator(s.op), Toks(s.operand) + rs, Operator(t.op), Toks(t.operand) + rt);
      StepsStop(ss[1..], x, level);
      StepsStop(ts[1..], y, level);
      SameStart(s.operand, rs, t.operand, rt, level - 1);
      SameRest(e, ss[1..], x, ts[1..], y, level);
      assert ss == [s] + ss[1..] && ts == [t] + ts[1..];
    }
  }

  function Head(e: Expr): Token
    requires LevelOf(e) == 0
  {
    Toks(e)[0]
  }

  /** What follows the first token of a unary expression. */
  function Body(e: Expr): seq<Token>
    requires LevelOf(e) == 0
  {
    match e
    case Paren(d) => Toks(d) + [Close]
    case Pos(d) => Toks(d)
    case Neg(d) => Toks(d)
    case Not(d) => Toks(d)
    case _ => []
  }

  lemma UnaryToks(e: Expr)
    requires LevelOf(e) == 0
    ensures Toks(e) == [Head(e)] + Body(e)
  {}

  /** The first token tells the kind of a unary expression, and a leaf entirely. */
  lemma HeadKind(e: Expr, f: Expr)
    requires LevelOf(e) == 0 && LevelOf(f) == 0 && Head(e) == Head(f)
    ensures (e.Paren? <==> f.Paren?) && (e.Pos? <==> f.Pos?) && (e.Neg? <==> f.Neg?) && (e.Not? <==> f.Not?)
    ensures !e.Paren? && !e.Pos? && !e.Neg? && !e.Not? ==> Shape(e) == Shape(f)
  {}

  /** Unary expressions: the first token tells which, the rest follows. */
  lemma {:induction false} SameUnary(e: Expr, x: seq<Token>, f: Expr, y: seq<Token>)
    requires Wf(e) && Wf(f) && LevelOf(e) == 0 && LevelOf(f) == 0
    requires Toks(e) + x == Toks(f) + y && Stops(x, 0) && Stops(y, 0)
    ensures Shape(e) == Shape(f) && x == y
    decreases |Toks(e)|, 0, 0
  {
    hide Toks, Head, Stops;
    UnaryToks(e);
    UnaryToks(f);
    Regroup([Head(e)], Body(e), x);
    Regroup([Head(f)], Body(f), y);
    SameHead(Head(e), Body(e) + x, Head(f), Body(f) + y);
    HeadKind(e, f);
    if e.Paren? {
      Regroup(Toks(e.e), [Close], x);
      Regroup(Toks(f.e), [Close], y);
      CloseStops(x);
      CloseStops(y);
      SameStart(e.e, [Close] + x, f.e, [Close] + y, 3);
      SameHead(Close, x, Close, y);
    } else if e.Pos? || e.Neg? || e.Not? {
      SameStart(e.e, x, f.e, y, 0);
    } else {
      assert [] + x == x && [] + y == y;
    }
  }

  lemma CloseStops(x: seq<Token>)
    ensures Stops([Close] + x, 3)
  {}

  /** The tokens from p to q are the tree e, and what follows does not extend it. */
  predicate Took(toks: seq<Token>, p: nat, q: nat, e: Expr, level: nat)
  {
    p < q <= |toks| && toks[p..q] == Toks(e) && Wf(e) && LevelOf(e) <= level && Stops(toks[q..], level)
  }

  /** Whatever tree begins at p: it is the only one, and ends where it ends. */
  lemma OneTree(toks: seq<Token>, p: nat, q: nat, e: Expr, q': nat, f: Expr, level: nat)
    requires Took(toks, p, q, e, level) && Took(toks, p, q', f, level)
    ensures q == q' && Shape(e) == Shape(f)
  {
    hide Toks, Wf, Stops, Shape;
    assert Toks(e) + toks[q..] == toks[p..] == Toks(f) + toks[q'..];
    SameStart(e, toks[q..], f, toks[q'..], level);
    assert |toks[q..]| == |toks| - q && |toks[q'..]| == |toks| - q';
  }

  // ----- the value of a tree with one symbol -----

  /** The symbols have only grown, and whatever was resolved still is. */
  ghost predicate Grown(chains: Chains, syms: seq<Symbol>, chains': Chains, syms': seq<Symbol>)
    requires ChainsHold(chains, syms) && ChainsHold(chains', syms')
  {
    syms <= syms' && forall e :: Resolved(e, chains, syms) ==> Resolved(e, chains', syms')
  }

  lemma GrownByPush(chains: Chains, syms: seq<Symbol>, n: Name)
    requires ChainsHold(chains, syms) && MayPush(chains, syms, n)
    ensures ChainsHold(Pushed(chains, n, |syms|), syms + [UNDEFINED])
    ensures Grown(chains, syms, Pushed(chains, n, |syms|), syms + [UNDEFINED])
  {
    hide ChainsHold, Pushed;
    PushHolds(chains, syms, n);
    forall e | Resolved(e, chains, syms) ensures Resolved(e, Pushed(chains, n, |syms|), syms + [UNDEFINED]) {
      PushKeepsResolved(e, chains, syms, n);
    }
  }

  lemma GrownSelf(chains: Chains, syms: seq<Symbol>)
    requires ChainsHold(chains, syms)
    ensures Grown(chains, syms, chains, syms)
  {}

  lemma ConstMeans(n: nat, syms: seq<Symbol>, here: Place)
    ensures Means(n % M, NoRef, Const(n), syms, here) && Means(n % M, NoRef, Char(n), syms, here)
  {}

  lemma HereMeans(syms: seq<Symbol>, here: Place)
    ensures Means(0, DotRef, Here, syms, here)
  {}

  /** A label leaf means its symbol; an absolute one means its value. */
  lemma LabelMeans(e: Expr, id: nat, syms: seq<Symbol>, here: Place)
    requires id < |syms| && ((e.Label? && e.id == id) || (e.Back? && e.id == id) || (e.Fwd? && e.id == id))
    ensures Means(0, LabelRef(id), e, syms, here)
    ensures syms[id].section == SHN_ABS ==> Means(syms[id].offset % M, NoRef, e, syms, here)
  {}

  /** A result of the one-pass evaluation: the tree with its labels resolved, its value and symbol, and the labels made so far. */
  datatype State = State(tree: Expr, v: nat, ref: Ref, chains: Chains, syms: seq<Symbol>)

  /** The section and offset that differences compare. */
  function Where(ref: Ref, syms: seq<Symbol>, here: Place): Place
  {
    match ref
    case NoRef => Place(0, 0)
    case DotRef => here
    case LabelRef(id) => if id < |syms| then Place(syms[id].section, syms[id].offset) else Place(0, 0)
  }

  /** An operator on two results; none when the result would need more than one symbol, or an address in a product. */
  function Combine(op: Op, v: nat, a: Ref, w: nat, b: Ref, syms: seq<Symbol>, here: Place): (r: Option<(nat, Ref)>)
    requires v < M && w < M
    ensures r.Some? ==> r.value.0 < M
  {
    if Level(op) < 3 then
      if a.NoRef? && b.NoRef? && !((op.Div? || op.Mod?) && w == 0) then Some((Apply(op, v, w), NoRef)) else None
    else if op.Add? then
      if a.NoRef? || b.NoRef? then Some(((v + w) % M, if a.NoRef? then b else a)) else None
    else if b.NoRef? then Some(((v + M - w) % M, a))
    else if a.NoRef? then None
    else if a == b then Some(((v + M - w) % M, NoRef))
    else
      var x, y := Where(a, syms, here), Where(b, syms, here);
      if x.section == y.section && x.section != 0 then Some(((v + M - w + (x.offset - y.offset)) % M, NoRef)) else None
  }

  ghost function Join(op: Op, a: State, b: Option<State>, here: Place): (r: Option<State>)
    requires a.v < M && (b.Some? ==> b.value.v < M)
    ensures r.Some? ==> r.value.v < M
  {
    if b.None? then None
    else
      match Combine(op, a.v, a.ref, b.value.v, b.value.ref, b.value.syms, here)
      case None => None
      case Some(c) => Some(State(Bin(op, a.tree, b.value.tree), c.0, c.1, b.value.chains, b.value.syms))
  }

  /** A label leaf with its symbol: its value when it is an absolute identifier. */
  function LabelState(e: Expr, id: nat, chains: Chains, syms: seq<Symbol>): (r: State)
    ensures r.v < M
  {
    if e.Label? && id < |syms| && syms[id].section == SHN_ABS then State(e, syms[id].offset % M, NoRef, chains, syms)
    else State(e, 0, LabelRef(id), chains, syms)
  }

  /** Is there an undefined symbol of that name, waiting for its definition? */
  predicate Pending(chains: Chains, syms: seq<Symbol>, n: Name)
  {
    Find(chains, n).Some? && Find(chains, n).value < |syms| && syms[Find(chains, n).value].section == 0
  }

  ghost function RunLabel(e: Expr, chains: Chains, syms: seq<Symbol>): (r: Option<State>)
    requires e.Label? || e.Back? || e.Fwd?
    ensures r.Some? ==> r.value.v < M
  {
    match e
    case Back(n, _) =>
      if ChainsHold(chains, syms) && LastDefined(chains, syms, Local(n)).Some? then
        var id := LastDefined(chains, syms, Local(n)).value;
        Some(LabelState(Back(n, id), id, chains, syms))
      else None
    case Fwd(n, _) =>
      if Pending(chains, syms, Local(n)) then
        var id := Find(chains, Local(n)).value;
        Some(LabelState(Fwd(n, id), id, chains, syms))
      else Some(LabelState(Fwd(n, |syms|), |syms|, Pushed(chains, Local(n), |syms|), syms + [UNDEFINED]))
    case Label(s, _) =>
      if Find(chains, Global(s)).Some? then
        var id := Find(chains, Global(s)).value;
        Some(LabelState(Label(s, id), id, chains, syms))
      else Some(LabelState(Label(s, |syms|), |syms|, Pushed(chains, Global(s), |syms|), syms + [UNDEFINED]))
  }

  /** Evaluation of a tree from left to right, resolving its labels: none where the assembler has to report an error. */
  ghost function Run(e: Expr, chains: Chains, syms: seq<Symbol>, here: Place): (r: Option<State>)
    ensures r.Some? ==> r.value.v < M
  {
    match e
    case Const(n) => Some(State(e, n % M, NoRef, chains, syms))
    case Char(n) => Some(State(e, n % M, NoRef, chains, syms))
    case Here => Some(State(e, 0, DotRef, chains, syms))
    case Label(_, _) => RunLabel(e, chains, syms)
    case Back(_, _) => RunLabel(e, chains, syms)
    case Fwd(_, _) => RunLabel(e, chains, syms)
    case Paren(d) => var r := Run(d, chains, syms, here); if r.Some? then Some(r.value.(tree := Paren(r.value.tree))) else None
    case Pos(d) => var r := Run(d, chains, syms, here); if r.Some? then Some(r.value.(tree := Pos(r.value.tree))) else None
    case Neg(d) =>
      var r := Run(d, chains, syms, here);
      if r.Some? && r.value.ref.NoRef? then Some(r.value.(tree := Neg(r.value.tree), v := (M - r.value.v) % M)) else None
    case Not(d) =>
      var r := Run(d, chains, syms, here);
      if r.Some? && r.value.ref.NoRef? then Some(r.value.(tree := Not(r.value.tree), v := M - 1 - r.value.v)) else None
    case Bin(op, l, r) =>
      var a := Run(l, chains, syms, here);
      if a.None? then None else Join(op, a.value, Run(r, a.value.chains, a.value.syms, here), here)
  }

  /** What a result must satisfy: labels resolved, old ones unchanged, and the value of the tree wherever everything ends up. */
  ghost predicate Good(chains: Chains, syms: seq<Symbol>, t: State, here: Place)
    requires ChainsHold(chains, syms)
  {
    ChainsHold(t.chains, t.syms) && Grown(chains, syms, t.chains, t.syms) && Resolved(t.tree, t.chains, t.syms) &&
    Means(t.v, t.ref, t.tree, t.syms, here)
  }

  lemma DifferenceOfNone(a: Ref, syms: seq<Symbol>, here: Place)
    requires RefOk(a, syms)
    ensures forall env: Env :: RefAddr(a, syms, here, env) + 0 == RefAddr(a, syms, here, env) - RefAddr(NoRef, syms, here, env)
  {}

  /** Two symbols of one section are a known distance apart, wherever the section is. */
  lemma DifferenceInSection(a: Ref, b: Ref, syms: seq<Symbol>, here: Place, x: Place, y: Place, u: int)
    requires RefOk(a, syms) && RefOk(b, syms) && here.section != 0 && here.section != SHN_ABS && !a.NoRef? && !b.NoRef?
    requires x == (if a.DotRef? then here else Place(syms[a.id].section, syms[a.id].offset))
    requires y == (if b.DotRef? then here else Place(syms[b.id].section, syms[b.id].offset))
    requires (a == b && u == 0) || (x.section == y.section && x.section != 0 && u == x.offset - y.offset)
    ensures forall env: Env :: RefAddr(NoRef, syms, here, env) + u == RefAddr(a, syms, here, env) - RefAddr(b, syms, here, env)
  {}

  /** Parentheses and a plus sign change nothing. */
  lemma SameMeaning(v: nat, ref: Ref, e: Expr, f: Expr, syms: seq<Symbol>, here: Place)
    requires Means(v, ref, e, syms, here) && (f == Paren(e) || f == Pos(e))
    ensures Means(v, ref, f, syms, here)
  {
    forall env: Env ensures MeansIn(v, ref, f, syms, here, env) { assert MeansIn(v, ref, e, syms, here, env); }
  }

  lemma JoinMeans(op: Op, v: nat, a: Ref, e: Expr, w: nat, b: Ref, f: Expr, syms: seq<Symbol>, here: Place)
    requires Means(v, a, e, syms, here) && Means(w, b, f, syms, here) && here.section != 0 && here.section != SHN_ABS
    requires v < M && w < M && Combine(op, v, a, w, b, syms, here).Some?
    ensures var r := Combine(op, v, a, w, b, syms, here).value; Means(r.0, r.1, Bin(op, e, f), syms, here)
  {
    hide Means, Apply, RefAddr;
    MeansBound(v, a, e, syms, here);
    MeansBound(w, b, f, syms, here);
    if Level(op) < 3 {
      MeansConstants(op, v, e, w, f, syms, here);
    } else if op.Add? {
      MeansSum(v, a, e, w, b, f, syms, here);
    } else if b.NoRef? {
      DifferenceOfNone(a, syms, here);
      MeansDifference(v, a, e, w, b, f, syms, here, a, 0);
    } else {
      var x, y := Where(a, syms, here), Where(b, syms, here);
      var u := if a == b then 0 else x.offset - y.offset;
      DifferenceInSection(a, b, syms, here, x, y, u);
      MeansDifference(v, a, e, w, b, f, syms, here, NoRef, u);
    }
  }

  lemma FindFacts(chains: Chains, syms: seq<Symbol>, n: Name)
    requires ChainsHold(chains, syms)
    ensures match Find(chains, n)
      case None => n !in chains
      case Some(id) => n in chains && chains[n] != [] && id < |syms| && id == chains[n][|chains[n]| - 1]
    ensures n in chains && |chains[n]| >= 2 ==> chains[n][|chains[n]| - 2] < |syms|
  {}

  /** A leaf whose symbol is known. */
  lemma LabelGood(e: Expr, id: nat, chains: Chains, syms: seq<Symbol>, here: Place)
    requires ChainsHold(chains, syms) && (e.Label? || e.Back? || e.Fwd?) && e.id == id && Resolved(e, chains, syms)
    ensures Good(chains, syms, LabelState(e, id, chains, syms), here)
  {
    hide ChainsHold, Grown, Means, LastDefined, Find;
    GrownSelf(chains, syms);
    LabelMeans(e, id, syms, here);
  }

  lemma PushGood(e: Expr, n: Name, chains: Chains, syms: seq<Symbol>, here: Place)
    requires ChainsHold(chains, syms) && MayPush(chains, syms, n)
    requires if n.Local? then e == Fwd(n.num, |syms|) else e == Label(n.name, |syms|)
    ensures Good(chains, syms, LabelState(e, |syms|, Pushed(chains, n, |syms|), syms + [UNDEFINED]), here)
  {
    hide ChainsHold, Grown, Means, LastDefined, Pushed;
    GrownByPush(chains, syms, n);
    PushFinds(chains, n, |syms|, n);
    LabelGood(e, |syms|, Pushed(chains, n, |syms|), syms + [UNDEFINED], here);
  }

  lemma LabelRunMeans(e: Expr, chains: Chains, syms: seq<Symbol>, here: Place)
    requires ChainsHold(chains, syms) && (e.Label? || e.Back? || e.Fwd?) && RunLabel(e, chains, syms).Some?
    ensures Good(chains, syms, RunLabel(e, chains, syms).value, here)
  {
    hide Good, Means, Grown;
    match e
    case Back(n, _) =>
      FindFacts(chains, syms, Local(n));
      var id := LastDefined(chains, syms, Local(n)).value;
      LabelGood(Back(n, id), id, chains, syms, here);
    case Fwd(n, _) =>
      FindFacts(chains, syms, Local(n));
      if Pending(chains, syms, Local(n)) {
        var id := Find(chains, Local(n)).value;
        LabelGood(Fwd(n, id), id, chains, syms, here);
      } else {
        PushGood(Fwd(n, |syms|), Local(n), chains, syms, here);
      }
    case Label(s, _) =>
      FindFacts(chains, syms, Global(s));
      if Find(chains, Global(s)).Some? {
        var id := Find(chains, Global(s)).value;
        LabelGood(Label(s, id), id, chains, syms, here);
      } else {
        PushGood(Label(s, |syms|), Global(s), chains, syms, here);
      }
  }

  lemma ConstGood(e: Expr, v: nat, ref: Ref, chains: Chains, syms: seq<Symbol>, here: Place)
    requires ChainsHold(chains, syms) && (e.Const? || e.Char? || e.Here?) && Means(v, ref, e, syms, here)
    ensures Good(chains, syms, State(e, v, ref, chains, syms), here)
  {
    hide ChainsHold, Grown, Means;
    GrownSelf(chains, syms);
  }

  lemma UnaryGood(e: Expr, d: State, v: nat, chains: Chains, syms: seq<Symbol>, here: Place)
    requires ChainsHold(chains, syms) && Good(chains, syms, d, here) && Means(v, d.ref, e, d.syms, here)
    requires e == Paren(d.tree) || e == Pos(d.tree) || e == Neg(d.tree) || e == Not(d.tree)
    ensures Good(chains, syms, d.(tree := e, v := v), here)
  {
    hide ChainsHold, Grown, Means;
  }

  lemma NegMeans(v: nat, e: Expr, syms: seq<Symbol>, here: Place)
    requires Means(v, NoRef, e, syms, here)
    ensures v < M && Means((M - v) % M, NoRef, Neg(e), syms, here) && Means(M - 1 - v, NoRef, Not(e), syms, here)
  {
    MeansBound(v, NoRef, e, syms, here);
    var w, x, f, g := (M - v) % M, M - 1 - v, Neg(e), Not(e);
    forall env: Env ensures MeansIn(w, NoRef, f, syms, here, env) { ConstantIs(v, e, syms, here, env); }
    forall env: Env ensures MeansIn(x, NoRef, g, syms, here, env) { ConstantIs(v, e, syms, here, env); }
  }

  lemma BinGood(op: Op, a: State, b: State, chains: Chains, syms: seq<Symbol>, here: Place)
    requires ChainsHold(chains, syms) && Good(chains, syms, a, here) && Good(a.chains, a.syms, b, here)
    requires here.section != 0 && here.section != SHN_ABS && a.v < M && b.v < M && Join(op, a, Some(b), here).Some?
    ensures Good(chains, syms, Join(op, a, Some(b), here).value, here)
  {
    hide ChainsHold, Means, Combine;
    ResolvedBelow(a.tree, a.chains, a.syms);
    MeansAfterPush(a.v, a.ref, a.tree, a.syms, b.syms, here);
    JoinMeans(op, a.v, a.ref, a.tree, b.v, b.ref, b.tree, b.syms, here);
  }

  /** Evaluation with one symbol gives the value of the tree, wherever sections and undefined labels end up. */
  lemma {:induction false} RunMeans(e: Expr, chains: Chains, syms: seq<Symbol>, here: Place)
    requires ChainsHold(chains, syms) && here.section != 0 && here.section != SHN_ABS && Run(e, chains, syms, here).Some?
    ensures Good(chains, syms, Run(e, chains, syms, here).value, here)
  {
    hide ChainsHold, Good, Means, RunLabel, Join;
    match e
    case Const(n) => ConstMeans(n, syms, here); ConstGood(e, n % M, NoRef, chains, syms, here);
    case Char(n) => ConstMeans(n, syms, here); ConstGood(e, n % M, NoRef, chains, syms, here);
    case Here => HereMeans(syms, here); ConstGood(e, 0, DotRef, chains, syms, here);
    case Label(_, _) => LabelRunMeans(e, chains, syms, here);
    case Back(_, _) => LabelRunMeans(e, chains, syms, here);
    case Fwd(_, _) => LabelRunMeans(e, chains, syms, here);
    case Bin(op, l, r) =>
      RunMeans(l, chains, syms, here);
      var a := Run(l, chains, syms, here).value;
      GoodHolds(chains, syms, a, here);
      JoinNeeds(op, a, Run(r, a.chains, a.syms, here), here);
      RunMeans(r, a.chains, a.syms, here);
      BinGood(op, a, Run(r, a.chains, a.syms, here).value, chains, syms, here);
    case _ =>
      var d := e.e;
      RunMeans(d, chains, syms, here);
      var t := Run(d, chains, syms, here).value;
      GoodHolds(chains, syms, t, here);
      if e.Paren? || e.Pos? {
        SameMeaning(t.v, t.ref, t.tree, if e.Paren? then Paren(t.tree) else Pos(t.tree), t.syms, here);
      } else {
        NegMeans(t.v, t.tree, t.syms, here);
      }
      var u := Run(e, chains, syms, here).value;
      UnaryGood(u.tree, t, u.v, chains, syms, here);
  }

  lemma GoodHolds(chains: Chains, syms: seq<Symbol>, t: State, here: Place)
    requires ChainsHold(chains, syms) && Good(chains, syms, t, here)
    ensures ChainsHold(t.chains, t.syms) && Means(t.v, t.ref, t.tree, t.syms, here)
  {
    hide ChainsHold, Means;
  }

  lemma JoinNeeds(op: Op, a: State, b: Option<State>, here: Place)
    requires a.v < M && (b.Some? ==> b.value.v < M) && Join(op, a, b, here).Some?
    ensures b.Some?
  {}

  lemma RunLabelShape(e: Expr, f: Expr, chains: Chains, syms: seq<Symbol>)
    requires Shape(e) == Shape(f) && (e.Label? || e.Back? || e.Fwd?)
    ensures RunLabel(e, chains, syms) == RunLabel(f, chains, syms)
  {
    hide ChainsHold, LastDefined, Find, Pending, LabelState, Pushed;
  }

  lemma ShapeKind(e: Expr, f: Expr)
    requires Shape(e) == Shape(f)
    ensures match e
      case Paren(d) => f.Paren? && Shape(d) == Shape(f.e)
      case Pos(d) => f.Pos? && Shape(d) == Shape(f.e)
      case Neg(d) => f.Neg? && Shape(d) == Shape(f.e)
      case Not(d) => f.Not? && Shape(d) == Shape(f.e)
      case Bin(op, l, r) => f.Bin? && f.op == op && Shape(l) == Shape(f.l) && Shape(r) == Shape(f.r)
      case Label(_, _) => f.Label?
      case Back(_, _) => f.Back?
      case Fwd(_, _) => f.Fwd?
      case _ => f == e
  {}

  /** Symbols already in the leaves do not matter. */
  lemma {:induction false} RunShape(e: Expr, f: Expr, chains: Chains, syms: seq<Symbol>, here: Place)
    requires Shape(e) == Shape(f)
    ensures Run(e, chains, syms, here) == Run(f, chains, syms, here)
  {
    hide RunLabel, Join, Shape;
    ShapeKind(e, f);
    match e
    case Paren(d) => RunShape(d, f.e, chains, syms, here);
    case Pos(d) => RunShape(d, f.e, chains, syms, here);
    case Neg(d) => RunShape(d, f.e, chains, syms, here);
    case Not(d) => RunShape(d, f.e, chains, syms, here);
    case Label(_, _) => RunLabelShape(e, f, chains, syms);
    case Back(_, _) => RunLabelShape(e, f, chains, syms);
    case Fwd(_, _) => RunLabelShape(e, f, chains, syms);
    case Bin(_, l, r) =>
      RunShape(l, f.l, chains, syms, here);
      var a := Run(l, chains, syms, here);
      if a.Some? { RunShape(r, f.r, a.value.chains, a.value.syms, here); }
    case _ =>
  }

  // ----- the operators of one level, from left to right -----

  ghost function RunSteps(a: Option<State>, ss: seq<Step>, here: Place): (r: Option<State>)
    requires a.Some? ==> a.value.v < M
    ensures r.Some? ==> r.value.v < M
    decreases |ss|
  {
    if a.None? || ss == [] then a
    else RunSteps(Join(ss[0].op, a.value, Run(ss[0].operand, a.value.chains, a.value.syms, here), here), ss[1..], here)
  }

  lemma {:induction false} RunStepsSnoc(a: Option<State>, ss: seq<Step>, s: Step, here: Place)
    requires a.Some? ==> a.value.v < M
    ensures RunSteps(a, ss + [s], here) ==
      var b := RunSteps(a, ss, here);
      if b.None? then None else Join(s.op, b.value, Run(s.operand, b.value.chains, b.value.syms, here), here)
    decreases |ss|
  {
    hide Run, Join;
    if a.None? {
    } else if ss == [] {
      assert ss + [s] == [s] && [s][1..] == [];
    } else {
      assert (ss + [s])[0] == ss[0] && (ss + [s])[1..] == ss[1..] + [s];
      RunStepsSnoc(Join(ss[0].op, a.value, Run(ss[0].operand, a.value.chains, a.value.syms, here), here), ss[1..], s, here);
    }
  }

  lemma {:induction false} RunSpine(e: Expr, level: nat, chains: Chains, syms: seq<Symbol>, here: Place)
    ensures Run(e, chains, syms, here) == RunSteps(Run(First(e, level), chains, syms, here), Steps(e, level), here)
  {
    hide First, Steps;
    if e.Bin? && Level(e.op) == level {
      SpineStep(e, level);
      RunSpine(e.l, level, chains, syms, here);
      RunStepsSnoc(Run(First(e.l, level), chains, syms, here), Steps(e.l, level), Step(e.op, e.r), here);
    } else {
      SpineBase(e, level);
    }
  }

  // ----- the parser -----

  /** No tree that the tokens from p begin with can be evaluated. */
  ghost predicate Rejected(toks: seq<Token>, p: nat, level: nat, chains: Chains, syms: seq<Symbol>, here: Place)
  {
    forall f, q :: Took(toks, p, q, f, level) ==> Run(f, chains, syms, here).None?
  }

  /** The tree found, and its evaluation. */
  ghost predicate Accepted(toks: seq<Token>, p: nat, q: nat, level: nat, chains: Chains, syms: seq<Symbol>, here: Place, t: State)
  {
    Took(toks, p, q, t.tree, level) && Run(t.tree, chains, syms, here) == Some(t)
  }

  /** The part of a tree still to be read after some operators of its level: what it adds to the result so far. */
  ghost predicate Rest(toks: seq<Token>, p: nat, f: Expr, q: nat, level: nat, ss: seq<Step>)
  {
    StepsWf(ss, level) && p <= q <= |toks| && toks[p..q] == StepToks(ss) && Stops(toks[q..], level)
  }

  /** Every tree the tokens begin with evaluates to the result so far, continued with the rest of the tree. */
  ghost predicate Remaining(toks: seq<Token>, p: nat, level: nat, chains: Chains, syms: seq<Symbol>, here: Place, pos: nat, t: State)
    requires t.v < M
  {
    forall f, q :: Took(toks, p, q, f, level) ==>
      exists ss :: Rest(toks, pos, f, q, level, ss) && Run(f, chains, syms, here) == RunSteps(Some(t), ss, here)
  }

  /** Whatever tree begins at p has this evaluation. */
  lemma RunAlike(toks: seq<Token>, p: nat, q: nat, e: Expr, q': nat, f: Expr, level: nat, chains: Chains, syms: seq<Symbol>, here: Place)
    requires Took(toks, p, q, e, level) && Took(toks, p, q', f, level)
    ensures q == q' && Run(e, chains, syms, here) == Run(f, chains, syms, here)
  {
    hide Took, Run, Shape;
    OneTree(toks, p, q, e, q', f, level);
    RunShape(e, f, chains, syms, here);
  }

  lemma TookAt(toks: seq<Token>, p: nat, q: nat, e: Expr, level: nat, x: seq<Token>)
    requires p <= |toks| && toks[p..] == Toks(e) + x && q == p + |Toks(e)| && Wf(e) && LevelOf(e) <= level && Stops(x, level)
    ensures Took(toks, p, q, e, level) && toks[q..] == x
  {
    hide Toks, Wf, Stops;
    assert toks[q..] == toks[p..][|Toks(e)|..];
    assert toks[p..q] == toks[p..][..|Toks(e)|];
  }

  /** The leftmost operand of a tree, and what comes after it. */
  lemma FirstTook(toks: seq<Token>, p: nat, q: nat, f: Expr, level: nat) returns (m: nat)
    requires Took(toks, p, q, f, level) && level >= 1
    ensures Took(toks, p, m, First(f, level), level - 1) && Rest(toks, m, f, q, level, Steps(f, level))
  {
    hide Toks, Wf, Stops, StepToks, StepsWf, First, Steps;
    Spine(f, level);
    var e1, ss := First(f, level), Steps(f, level);
    assert toks[p..] == toks[p..q] + toks[q..];
    Regroup(Toks(e1), StepToks(ss), toks[q..]);
    StepsStop(ss, toks[q..], level);
    m := p + |Toks(e1)|;
    TookAt(toks, p, m, e1, level - 1, StepToks(ss) + toks[q..]);
    assert toks[m..q] == toks[m..][..q - m];
  }

  /** After the first operand of a level. */
  lemma LoopBegins(toks: seq<Token>, p: nat, level: nat, chains: Chains, syms: seq<Symbol>, here: Place, pos: nat, t: State)
    requires level >= 1 && Accepted(toks, p, pos, level - 1, chains, syms, here, t) && t.v < M
    ensures Remaining(toks, p, level, chains, syms, here, pos, t)
  {
    hide Took, Rest, Run, First, Steps, RunSteps;
    forall f, q | Took(toks, p, q, f, level)
      ensures exists ss :: Rest(toks, pos, f, q, level, ss) && Run(f, chains, syms, here) == RunSteps(Some(t), ss, here)
    {
      var m := FirstTook(toks, p, q, f, level);
      RunAlike(toks, p, pos, t.tree, m, First(f, level), level - 1, chains, syms, here);
      RunSpine(f, level, chains, syms, here);
    }
  }

  lemma FirstRejected(toks: seq<Token>, p: nat, level: nat, chains: Chains, syms: seq<Symbol>, here: Place)
    requires level >= 1 && Rejected(toks, p, level - 1, chains, syms, here)
    ensures Rejected(toks, p, level, chains, syms, here)
  {
    hide Took, Rest, Run, First, Steps;
    forall f, q | Took(toks, p, q, f, level) ensures Run(f, chains, syms, here).None? {
      var m := FirstTook(toks, p, q, f, level);
      RunSpine(f, level, chains, syms, here);
    }
  }

  /** What follows an operator of a level: its operand, and the rest. */
  lemma RestHead(toks: seq<Token>, pos: nat, f: Expr, q: nat, level: nat, ss: seq<Step>)
    requires Rest(toks, pos, f, q, level, ss) && ss != []
    ensures pos < |toks| && toks[pos] == Operator(ss[0].op)
    ensures toks[pos + 1..] == Toks(ss[0].operand) + (StepToks(ss[1..]) + toks[q..])
  {
    hide Toks, Wf, Stops, StepToks, StepsWf;
    StepHead(ss, toks[q..]);
    assert toks[pos..] == toks[pos..q] + toks[q..];
    assert toks[pos..][0] == toks[pos] && toks[pos + 1..] == toks[pos..][1..];
  }

  /** The next operator, if one of the level comes next. */
  lemma NextStep(toks: seq<Token>, pos: nat, f: Expr, q: nat, level: nat, ss: seq<Step>, op: Op) returns (m: nat)
    requires Rest(toks, pos, f, q, level, ss) && pos < |toks| && toks[pos] == Operator(op) && Level(op) == level && level >= 1
    ensures ss != [] && ss[0].op == op && Took(toks, pos + 1, m, ss[0].operand, level - 1) && Rest(toks, m, f, q, level, ss[1..])
  {
    hide Toks, Wf;
    assert q < |toks| ==> toks[q..][0] == toks[q];
    RestHead(toks, pos, f, q, level, ss);
    m := pos + 1 + |Toks(ss[0].operand)|;
    StepTook(toks, pos + 1, m, q, ss[0].operand, level, ss[1..]);
  }

  lemma StepTook(toks: seq<Token>, p: nat, m: nat, q: nat, d: Expr, level: nat, ss: seq<Step>)
    requires p <= |toks| && q <= |toks| && toks[p..] == Toks(d) + (StepToks(ss) + toks[q..]) && m == p + |Toks(d)|
    requires level >= 1 && Wf(d) && LevelOf(d) < level && StepsWf(ss, level) && Stops(toks[q..], level)
    ensures Took(toks, p, m, d, level - 1) && m <= q && toks[m..q] == StepToks(ss)
  {
    hide Toks, Wf, Stops, StepToks, StepsWf;
    StepsStop(ss, toks[q..], level);
    TookAt(toks, p, m, d, level - 1, StepToks(ss) + toks[q..]);
    assert |toks[m..]| == |toks| - m && |toks[q..]| == |toks| - q;
    assert toks[m..q] == toks[m..][..q - m];
  }

  /** The next operand has been read. */
  lemma LoopStep(toks: seq<Token>, p: nat, level: nat, chains: Chains, syms: seq<Symbol>, here: Place, pos: nat, t: State,
                 op: Op, pos': nat, d: State)
    requires t.v < M && Remaining(toks, p, level, chains, syms, here, pos, t) && level >= 1 && d.v < M
    requires pos < |toks| && toks[pos] == Operator(op) && Level(op) == level
    requires Accepted(toks, pos + 1, pos', level - 1, t.chains, t.syms, here, d)
    ensures match Join(op, t, Some(d), here)
      case None => Rejected(toks, p, level, chains, syms, here)
      case Some(t') => Remaining(toks, p, level, chains, syms, here, pos', t')
  {
    hide Took, Rest, Run, Join;
    var t' := Join(op, t, Some(d), here);
    forall f, q | Took(toks, p, q, f, level)
      ensures exists ss :: Rest(toks, pos', f, q, level, ss) && Run(f, chains, syms, here) == RunSteps(t', ss, here)
    {
      var ss: seq<Step> :| Rest(toks, pos, f, q, level, ss) && Run(f, chains, syms, here) == RunSteps(Some(t), ss, here);
      var m := NextStep(toks, pos, f, q, level, ss, op);
      RunAlike(toks, pos + 1, pos', d.tree, m, ss[0].operand, level - 1, t.chains, t.syms, here);
      assert Rest(toks, pos', f, q, level, ss[1..]);
    }
  }

  /** The next operand cannot be read. */
  lemma LoopFails(toks: seq<Token>, p: nat, level: nat, chains: Chains, syms: seq<Symbol>, here: Place, pos: nat, t: State, op: Op)
    requires t.v < M && Remaining(toks, p, level, chains, syms, here, pos, t) && level >= 1
    requires pos < |toks| && toks[pos] == Operator(op) && Level(op) == level
    requires Rejected(toks, pos + 1, level - 1, t.chains, t.syms, here)
    ensures Rejected(toks, p, level, chains, syms, here)
  {
    hide Took, Rest, Run;
    forall f, q | Took(toks, p, q, f, level) ensures Run(f, chains, syms, here).None? {
      var ss: seq<Step> :| Rest(toks, pos, f, q, level, ss) && Run(f, chains, syms, here) == RunSteps(Some(t), ss, here);
      var m := NextStep(toks, pos, f, q, level, ss, op);
      assert Run(ss[0].operand, t.chains, t.syms, here).None?;
      assert RunSteps(None, ss[1..], here) == None;
    }
  }

  /** A tree of a level grows by an operator and an operand of a lower level. */
  predicate Tree(toks: seq<Token>, p: nat, q: nat, e: Expr, level: nat)
    requires level >= 1
  {
    p < q <= |toks| && toks[p..q] == Toks(e) && Wf(e) && LevelOf(e) <= level && Stops(toks[q..], level - 1)
  }

  lemma TreeGrows(toks: seq<Token>, p: nat, m: nat, q: nat, op: Op, e: Expr, f: Expr)
    requires Level(op) >= 1 && Tree(toks, p, m, e, Level(op)) && m < |toks| && toks[m] == Operator(op)
    requires Took(toks, m + 1, q, f, Level(op) - 1)
    ensures Tree(toks, p, q, Bin(op, e, f), Level(op))
  {
    assert toks[p..q] == toks[p..m] + [toks[m]] + toks[m + 1..q];
  }

  lemma TreeEnds(toks: seq<Token>, p: nat, q: nat, e: Expr, level: nat)
    requires level >= 1 && Tree(toks, p, q, e, level)
    requires !(q < |toks| && toks[q].Operator? && Level(toks[q].op) == level)
    ensures Took(toks, p, q, e, level)
  {
    hide Toks, Wf;
    assert q < |toks| ==> toks[q..][0] == toks[q];
  }

  // ----- unary expressions -----

  lemma Within(s: seq<Token>, p: nat, q: nat)
    requires p + 2 <= q <= |s|
    ensures s[p + 1..q - 1] == s[p..q][1..q - p - 1]
  {
    var t, u := s[p + 1..q - 1], s[p..q][1..q - p - 1];
    forall k | 0 <= k < |t| ensures t[k] == u[k] { assert t[k] == s[p + k + 1]; }
    assert t == u;
  }

  /** A unary tree begins with this token. */
  lemma UnaryTook(toks: seq<Token>, p: nat, q: nat, f: Expr)
    requires Took(toks, p, q, f, 0)
    ensures LevelOf(f) == 0 && Head(f) == toks[p]
    ensures f.Pos? || f.Neg? || f.Not? ==> Took(toks, p + 1, q, f.e, 0)
    ensures f.Paren? ==> q >= p + 2 && toks[q - 1] == Close && Took(toks, p + 1, q - 1, f.e, 3)
    ensures !f.Pos? && !f.Neg? && !f.Not? && !f.Paren? ==> q == p + 1
  {
    assert toks[p..q][0] == toks[p];
    if f.Pos? || f.Neg? || f.Not? {
      assert toks[p + 1..q] == toks[p..q][1..] == Toks(f.e);
    } else if f.Paren? {
      assert |toks[p..q]| == |Toks(f.e)| + 2;
      assert toks[p..q][q - p - 1] == Close;
      Within(toks, p, q);
      assert toks[q - 1..][0] == Close;
    }
  }

  lemma UnaryGrows(toks: seq<Token>, p: nat, q: nat, e: Expr, f: Expr)
    requires p < |toks| && Took(toks, p + 1, q, e, 0) && LevelOf(f) == 0 && Head(f) == toks[p] && (f == Pos(e) || f == Neg(e) || f == Not(e))
    ensures Took(toks, p, q, f, 0)
  {
    assert toks[p..q] == [toks[p]] + toks[p + 1..q];
  }

  lemma Bracketed(toks: seq<Token>, p: nat, q: nat)
    requires p < q < |toks|
    ensures toks[p..q + 1] == [toks[p]] + toks[p + 1..q] + [toks[q]]
  {}

  lemma ParenGrows(toks: seq<Token>, p: nat, q: nat, e: Expr)
    requires p < |toks| && toks[p] == Open && Took(toks, p + 1, q, e, 3) && q < |toks| && toks[q] == Close
    ensures Took(toks, p, q + 1, Paren(e), 0)
  {
    Bracketed(toks, p, q);
  }

  lemma LeafTook(toks: seq<Token>, p: nat, e: Expr)
    requires p < |toks| && Toks(e) == [toks[p]] && Wf(e) && LevelOf(e) == 0
    ensures Took(toks, p, p + 1, e, 0)
  {}

  /** The first token tells the kind of a unary tree. */
  lemma HeadIs(f: Expr)
    requires LevelOf(f) == 0
    ensures match Head(f)
      case Number(n) => f == Const(n)
      case Character(n) => f == Char(n)
      case Dot => f == Here
      case Operator(op) => if op.Add? then f.Pos? else op.Sub? && f.Neg?
      case Tilde => f.Not?
      case Open => f.Paren?
      case Backward(n) => f.Back? && f.num == n
      case Forward(n) => f.Fwd? && f.num == n
      case Ident(s) => f.Label? && f.name == s
      case _ => false
  {}

  predicate Begins(tok: Token)
  {
    match tok
    case Operator(op) => op.Add? || op.Sub?
    case BadNumber => false case Close => false case End => false case OtherToken => false
    case _ => true
  }

  lemma NothingBegins(toks: seq<Token>, p: nat, chains: Chains, syms: seq<Symbol>, here: Place)
    requires p >= |toks| || !Begins(toks[p])
    ensures Rejected(toks, p, 0, chains, syms, here)
  {
    hide Took, Run;
    forall f, q ensures !Took(toks, p, q, f, 0) {
      if Took(toks, p, q, f, 0) {
        TookIn(toks, p, q, f, 0);
        UnaryTook(toks, p, q, f);
        HeadIs(f);
      }
    }
  }

  lemma TookIn(toks: seq<Token>, p: nat, q: nat, f: Expr, level: nat)
    requires Took(toks, p, q, f, level)
    ensures p < q <= |toks|
  {}

  /** A sign whose operand cannot be read, or has a symbol it must not have. */
  lemma SignRejected(toks: seq<Token>, p: nat, chains: Chains, syms: seq<Symbol>, here: Place)
    requires p < |toks| && (toks[p] == Operator(Add) || toks[p] == Operator(Sub) || toks[p] == Tilde)
    requires Rejected(toks, p + 1, 0, chains, syms, here)
    ensures Rejected(toks, p, 0, chains, syms, here)
  {
    hide Took;
    forall f, q | Took(toks, p, q, f, 0) ensures Run(f, chains, syms, here).None? {
      UnaryTook(toks, p, q, f);
      HeadIs(f);
    }
  }

  lemma SymbolRejected(toks: seq<Token>, p: nat, m: nat, chains: Chains, syms: seq<Symbol>, here: Place, t: State)
    requires p < |toks| && (toks[p] == Operator(Sub) || toks[p] == Tilde)
    requires Accepted(toks, p + 1, m, 0, chains, syms, here, t) && !t.ref.NoRef?
    ensures Rejected(toks, p, 0, chains, syms, here)
  {
    hide Took;
    forall f, q | Took(toks, p, q, f, 0) ensures Run(f, chains, syms, here).None? {
      UnaryTook(toks, p, q, f);
      HeadIs(f);
      RunAlike(toks, p + 1, m, t.tree, q, f.e, 0, chains, syms, here);
    }
  }

  /** A parenthesis with nothing readable in it, or not closed behind it. */
  lemma ParenRejected(toks: seq<Token>, p: nat, chains: Chains, syms: seq<Symbol>, here: Place)
    requires p < |toks| && toks[p] == Open && Rejected(toks, p + 1, 3, chains, syms, here)
    ensures Rejected(toks, p, 0, chains, syms, here)
  {
    hide Took;
    forall f, q | Took(toks, p, q, f, 0) ensures Run(f, chains, syms, here).None? {
      UnaryTook(toks, p, q, f);
      HeadIs(f);
    }
  }

  lemma NotClosed(toks: seq<Token>, p: nat, m: nat, chains: Chains, syms: seq<Symbol>, here: Place, t: State)
    requires p < |toks| && toks[p] == Open && Accepted(toks, p + 1, m, 3, chains, syms, here, t)
    requires m >= |toks| || toks[m] != Close
    ensures Rejected(toks, p, 0, chains, syms, here)
  {
    hide Took, Run;
    forall f, q: nat ensures !Took(toks, p, q, f, 0) {
      if Took(toks, p, q, f, 0) {
        UnaryTook(toks, p, q, f);
        HeadIs(f);
        TookIn(toks, p, q, f, 0);
        OneTree(toks, p + 1, m, t.tree, q - 1, f.e, 3);
      }
    }
  }

  lemma LabelRejected(toks: seq<Token>, p: nat, e: Expr, chains: Chains, syms: seq<Symbol>, here: Place)
    requires p < |toks| && (e.Back? || e.Fwd? || e.Label?) && Head(e) == toks[p] && RunLabel(e, chains, syms).None?
    ensures Rejected(toks, p, 0, chains, syms, here)
  {
    hide Took, RunLabel;
    forall f, q | Took(toks, p, q, f, 0) ensures Run(f, chains, syms, here).None? {
      UnaryTook(toks, p, q, f);
      HeadIs(f);
      RunLabelShape(e, f, chains, syms);
    }
  }

  /** A number, a character or the current place. */
  lemma LeafAccepted(toks: seq<Token>, p: nat, e: Expr, chains: Chains, syms: seq<Symbol>, here: Place)
    requires p < |toks| && Toks(e) == [toks[p]] && (e.Const? || e.Char? || e.Here?)
    ensures Accepted(toks, p, p + 1, 0, chains, syms, here,
      State(e, if e.Here? then 0 else e.n % M, if e.Here? then DotRef else NoRef, chains, syms))
  {}

  lemma RunSign(e: Expr, chains: Chains, syms: seq<Symbol>, here: Place, t: State)
    requires Run(e, chains, syms, here) == Some(t) && t.v < M && t.tree == e
    ensures Run(Pos(e), chains, syms, here) == Some(t.(tree := Pos(e)))
    ensures t.ref.NoRef? ==> Run(Neg(e), chains, syms, here) == Some(t.(tree := Neg(e), v := (M - t.v) % M))
    ensures t.ref.NoRef? ==> Run(Not(e), chains, syms, here) == Some(t.(tree := Not(e), v := M - 1 - t.v))
  {
    hide RunLabel, Join, ChainsHold;
  }

  lemma SignAccepted(toks: seq<Token>, p: nat, q: nat, chains: Chains, syms: seq<Symbol>, here: Place, t: State)
    requires p < |toks| && Accepted(toks, p + 1, q, 0, chains, syms, here, t) && t.v < M
    ensures toks[p] == Operator(Add) ==> Accepted(toks, p, q, 0, chains, syms, here, t.(tree := Pos(t.tree)))
    ensures toks[p] == Operator(Sub) && t.ref.NoRef? ==>
      Accepted(toks, p, q, 0, chains, syms, here, t.(tree := Neg(t.tree), v := (M - t.v) % M))
    ensures toks[p] == Tilde && t.ref.NoRef? ==>
      Accepted(toks, p, q, 0, chains, syms, here, t.(tree := Not(t.tree), v := M - 1 - t.v))
  {
    hide Took, Run;
    RunSign(t.tree, chains, syms, here, t);
    if toks[p] == Operator(Add) {
      UnaryGrows(toks, p, q, t.tree, Pos(t.tree));
    } else if toks[p] == Operator(Sub) && t.ref.NoRef? {
      UnaryGrows(toks, p, q, t.tree, Neg(t.tree));
    } else if toks[p] == Tilde && t.ref.NoRef? {
      UnaryGrows(toks, p, q, t.tree, Not(t.tree));
    }
  }

  lemma ParenAccepted(toks: seq<Token>, p: nat, q: nat, chains: Chains, syms: seq<Symbol>, here: Place, t: State)
    requires p < |toks| && toks[p] == Open && Accepted(toks, p + 1, q, 3, chains, syms, here, t) && q < |toks| && toks[q] == Close
    ensures Accepted(toks, p, q + 1, 0, chains, syms, here, t.(tree := Paren(t.tree)))
  {
    hide Took;
    ParenGrows(toks, p, q, t.tree);
  }

  /** The leaf a label token becomes. */
  function Leaf(tok: Token, id: nat): Expr
    requires tok.Backward? || tok.Forward? || tok.Ident?
  {
    match tok case Backward(n) => Back(n, id) case Forward(n) => Fwd(n, id) case Ident(s) => Label(s, id)
  }

  predicate IsDefined(chains: Chains, syms: seq<Symbol>, n: Name)
  {
    Find(chains, n).Some? && Find(chains, n).value < |syms| && syms[Find(chains, n).value].section != 0
  }

  lemma DefineHolds(chains: Chains, syms: seq<Symbol>, n: Name, id: nat, s: Symbol)
    requires ChainsHold(chains, syms) && Find(chains, n) == Some(id) && s.section != 0
    ensures id < |syms| && ChainsHold(chains, syms[id := s]) && LastDefined(chains, syms[id := s], n) == Some(id)
  {}

  class Assembler {
    const toks: seq<Token>
    const here: Place
    var pos: nat
    var chains: Chains
    var syms: seq<Symbol>

    constructor (tokens: seq<Token>, place: Place)
      requires place.section != 0 && place.section != SHN_ABS
      ensures toks == tokens && here == place && pos == 0 && Valid() && syms == []
    {
      toks, here, pos, chains, syms := tokens, place, 0, map[], [];
    }

    predicate Valid()
      reads this
    {
      pos <= |toks| && ChainsHold(chains, syms) && here.section != 0 && here.section != SHN_ABS
    }

    function Tok(): Token
      reads this
    {
      if pos < |toks| then toks[pos] else End
    }

    /** The outcome of a parser routine that began at p: the tree the tokens begin with, evaluated, or an error when there is none. */
    ghost predicate Outcome(p: nat, level: nat, chains0: Chains, syms0: seq<Symbol>, ok: bool, v: nat, ref: Ref, e: Expr)
      reads this
    {
      if ok then Accepted(toks, p, pos, level, chains0, syms0, here, State(e, v, ref, chains, syms)) && v < M
      else Rejected(toks, p, level, chains0, syms0, here)
    }

    /** label_push */
    method Push(n: Name) returns (id: nat)
      requires Valid() && MayPush(chains, syms, n)
      modifies this`chains, this`syms
      ensures Valid() && id == |old(syms)| && syms == old(syms) + [UNDEFINED] && chains == Pushed(old(chains), n, id) && Find(chains, n) == Some(id)
      ensures Grown(old(chains), old(syms), chains, syms)
    {
      hide ChainsHold, Grown, MayPush;
      GrownByPush(chains, syms, n);
      PushFinds(chains, n, |syms|, n);
      id := |syms|;
      chains := Pushed(chains, n, id);
      syms := syms + [UNDEFINED];
    }

    /** The label cases of asm_expr_unary: which symbol a name stands for, made if need be; none when 1b has no definition. */
    method Resolve(tok: Token) returns (id: Option<nat>)
      requires Valid() && (tok.Backward? || tok.Forward? || tok.Ident?)
      modifies this`chains, this`syms
      ensures Valid() && Grown(old(chains), old(syms), chains, syms)
      ensures id.Some? ==> id.value < |syms| && Resolved(Leaf(tok, id.value), chains, syms)
      ensures id.None? ==> tok.Backward? && LastDefined(chains, syms, Local(tok.num)) == None
      ensures RunLabel(Leaf(tok, 0), old(chains), old(syms)) ==
        if id.None? then None else Some(LabelState(Leaf(tok, id.value), id.value, chains, syms))
    {
      var name := if tok.Ident? then Global(tok.name) else Local(tok.num);
      var sym := Find(chains, name);
      FindFacts(chains, syms, name);
      GrownSelf(chains, syms);
      if tok.Backward? {
        if sym.Some? && syms[sym.value].section == 0 {
          var c := chains[name];
          sym := if |c| >= 2 then Some(c[|c| - 2]) else None;
        }
        return sym;
      }
      if sym.None? || (tok.Forward? && syms[sym.value].section != 0) {
        var id1 := Push(name);
        sym := Some(id1);
      }
      return sym;
    }

    /** asm_expr_unary */
    method Unary() returns (ok: bool, v: nat, ref: Ref, ghost e: Expr)
      requires Valid()
      modifies this`pos, this`chains, this`syms
      ensures Valid() && old(pos) <= pos && (ok ==> old(pos) < pos)
      ensures Outcome(old(pos), 0, old(chains), old(syms), ok, v, ref, e)
      decreases |toks| - pos, 0
    {
      hide ChainsHold, Rejected, Accepted;
      ok, v, ref, e := false, 0, NoRef, Here;
      ghost var p, chains0, syms0 := pos, chains, syms;
      var tok := Tok();
      match tok
      case Number(n) =>
        LeafAccepted(toks, p, Const(n), chains, syms, here);
        e, v, ok, pos := Const(n), n % M, true, pos + 1;
      case Character(n) =>
        LeafAccepted(toks, p, Char(n), chains, syms, here);
        e, v, ok, pos := Char(n), n % M, true, pos + 1;
      case Dot =>
        LeafAccepted(toks, p, Here, chains, syms, here);
        ref, e, ok, pos := DotRef, Here, true, pos + 1;
      case Operator(op) =>
        if op.Add? {
          pos := pos + 1;
          ok, v, ref, e := Unary();
          if !ok { SignRejected(toks, p, chains0, syms0, here); return; }
          SignAccepted(toks, p, pos, chains0, syms0, here, State(e, v, ref, chains, syms));
          e := Pos(e);
        } else if op.Sub? {
          pos := pos + 1;
          ok, v, ref, e := Unary();
          if !ok { SignRejected(toks, p, chains0, syms0, here); return; }
          if !ref.NoRef? { SymbolRejected(toks, p, pos, chains0, syms0, here, State(e, v, ref, chains, syms)); return false, v, ref, e; }
          SignAccepted(toks, p, pos, chains0, syms0, here, State(e, v, ref, chains, syms));
          v, e := (M - v) % M, Neg(e);
        } else {
          NothingBegins(toks, p, chains0, syms0, here);
        }
      case Tilde =>
        pos := pos + 1;
        ok, v, ref, e := Unary();
        if !ok { SignRejected(toks, p, chains0, syms0, here); return; }
        if !ref.NoRef? { SymbolRejected(toks, p, pos, chains0, syms0, here, State(e, v, ref, chains, syms)); return false, v, ref, e; }
        SignAccepted(toks, p, pos, chains0, syms0, here, State(e, v, ref, chains, syms));
        v, e := M - 1 - v, Not(e);
      case Open =>
        pos := pos + 1;
        ok, v, ref, e := Sum();
        if !ok { ParenRejected(toks, p, chains0, syms0, here); return; }
        if Tok() != Close { NotClosed(toks, p, pos, chains0, syms0, here, State(e, v, ref, chains, syms)); return false, v, ref, e; }
        ParenAccepted(toks, p, pos, chains0, syms0, here, State(e, v, ref, chains, syms));
        e, pos := Paren(e), pos + 1;
      case Backward(_) => ok, v, ref, e := LabelOperand(tok);
      case Forward(_) => ok, v, ref, e := LabelOperand(tok);
      case Ident(_) => ok, v, ref, e := LabelOperand(tok);
      case _ => NothingBegins(toks, p, chains0, syms0, here);
    }

    /** A label as an operand: its symbol, or its value when it is an absolute identifier. */
    method LabelOperand(tok: Token) returns (ok: bool, v: nat, ref: Ref, ghost e: Expr)
      requires Valid() && pos < |toks| && tok == toks[pos] && (tok.Backward? || tok.Forward? || tok.Ident?)
      modifies this`pos, this`chains, this`syms
      ensures Valid() && old(pos) <= pos && (ok ==> old(pos) < pos)
      ensures Outcome(old(pos), 0, old(chains), old(syms), ok, v, ref, e)
    {
      hide ChainsHold, Grown, Resolved, RunLabel, Took, Rejected;
      ok, v, ref, e := false, 0, NoRef, Here;
      ghost var chains0, syms0 := chains, syms;
      var id := Resolve(tok);
      if id.None? {
        LabelRejected(toks, pos, Leaf(tok, 0), chains0, syms0, here);
        return;
      }
      e := Leaf(tok, id.value);
      RunLabelShape(Leaf(tok, 0), e, chains0, syms0);
      LeafTook(toks, pos, e);
      if tok.Ident? && syms[id.value].section == SHN_ABS {
        v := syms[id.value].offset % M;
      } else {
        ref := LabelRef(id.value);
      }
      pos := pos + 1;
      ok := true;
    }

    /** Between two operators of a level: the tree read so far, its evaluation, and what is left to read. */
    ghost predicate Going(p: nat, level: nat, chains0: Chains, syms0: seq<Symbol>, v: nat, ref: Ref, e: Expr)
      requires v < M && level >= 1
      reads this
    {
      Tree(toks, p, pos, e, level) && Run(e, chains0, syms0, here) == Some(State(e, v, ref, chains, syms)) &&
      Remaining(toks, p, level, chains0, syms0, here, pos, State(e, v, ref, chains, syms))
    }

    /** asm_expr_prod */
    method Prod() returns (ok: bool, v: nat, ref: Ref, ghost e: Expr)
      requires Valid()
      modifies this`pos, this`chains, this`syms
      ensures Valid() && old(pos) <= pos && (ok ==> old(pos) < pos)
      ensures Outcome(old(pos), 1, old(chains), old(syms), ok, v, ref, e)
      decreases |toks| - pos, 1
    {
      hide ChainsHold, Rejected, Took, Run, Tree, Remaining, Apply;
      ghost var p, chains0, syms0 := pos, chains, syms;
      ok, v, ref, e := Unary();
      if !ok {
        FirstRejected(toks, p, 1, chains0, syms0, here);
        return;
      }
      TookTree(toks, p, pos, e, 1);
      LoopBegins(toks, p, 1, chains0, syms0, here, pos, State(e, v, ref, chains, syms));
      while Tok().Operator? && Level(Tok().op) == 1
        invariant Valid() && p < pos && v < M && Going(p, 1, chains0, syms0, v, ref, e)
        decreases |toks| - pos
      {
        var op := Tok().op;
        ghost var m, t := pos, State(e, v, ref, chains, syms);
        pos := pos + 1;
        var v2, ref2; ghost var e2;
        ok, v2, ref2, e2 := Unary();
        if !ok {
          LoopFails(toks, p, 1, chains0, syms0, here, m, t, op);
          return;
        }
        ghost var d := State(e2, v2, ref2, chains, syms);
        LoopStep(toks, p, 1, chains0, syms0, here, m, t, op, pos, d);
        if !ref.NoRef? || !ref2.NoRef? { return false, v, ref, e; }
        if (op.Div? || op.Mod?) && v2 == 0 { return false, v, ref, e; }
        v := Apply(op, v, v2);
        TreeGrows(toks, p, m, pos, op, e, e2);
        RunBin(op, e, e2, chains0, syms0, here, t, d);
        e := Bin(op, e, e2);
      }
      TreeEnds(toks, p, pos, e, 1);
    }

    /** asm_expr_logic */
    method Logic() returns (ok: bool, v: nat, ref: Ref, ghost e: Expr)
      requires Valid()
      modifies this`pos, this`chains, this`syms
      ensures Valid() && old(pos) <= pos && (ok ==> old(pos) < pos)
      ensures Outcome(old(pos), 2, old(chains), old(syms), ok, v, ref, e)
      decreases |toks| - pos, 2
    {
      hide ChainsHold, Rejected, Took, Run, Tree, Remaining, Apply;
      ghost var p, chains0, syms0 := pos, chains, syms;
      ok, v, ref, e := Prod();
      if !ok {
        FirstRejected(toks, p, 2, chains0, syms0, here);
        return;
      }
      TookTree(toks, p, pos, e, 2);
      LoopBegins(toks, p, 2, chains0, syms0, here, pos, State(e, v, ref, chains, syms));
      while Tok().Operator? && Level(Tok().op) == 2
        invariant Valid() && p < pos && v < M && Going(p, 2, chains0, syms0, v, ref, e)
        decreases |toks| - pos
      {
        var op := Tok().op;
        ghost var m, t := pos, State(e, v, ref, chains, syms);
        pos := pos + 1;
        var v2, ref2; ghost var e2;
        ok, v2, ref2, e2 := Prod();
        if !ok {
          LoopFails(toks, p, 2, chains0, syms0, here, m, t, op);
          return;
        }
        ghost var d := State(e2, v2, ref2, chains, syms);
        LoopStep(toks, p, 2, chains0, syms0, here, m, t, op, pos, d);
        if !ref.NoRef? || !ref2.NoRef? { return false, v, ref, e; }
        v := Apply(op, v, v2);
        TreeGrows(toks, p, m, pos, op, e, e2);
        RunBin(op, e, e2, chains0, syms0, here, t, d);
        e := Bin(op, e, e2);
      }
      TreeEnds(toks, p, pos, e, 2);
    }

    /** asm_expr_sum */
    method Sum() returns (ok: bool, v: nat, ref: Ref, ghost e: Expr)
      requires Valid()
      modifies this`pos, this`chains, this`syms
      ensures Valid() && old(pos) <= pos && (ok ==> old(pos) < pos)
      ensures Outcome(old(pos), 3, old(chains), old(syms), ok, v, ref, e)
      decreases |toks| - pos, 3
    {
      hide ChainsHold, Rejected, Took, Run, Tree, Remaining, Apply;
      ghost var p, chains0, syms0 := pos, chains, syms;
      ok, v, ref, e := Logic();
      if !ok {
        FirstRejected(toks, p, 3, chains0, syms0, here);
        return;
      }
      TookTree(toks, p, pos, e, 3);
      LoopBegins(toks, p, 3, chains0, syms0, here, pos, State(e, v, ref, chains, syms));
      while Tok().Operator? && Level(Tok().op) == 3
        invariant Valid() && p < pos && v < M && Going(p, 3, chains0, syms0, v, ref, e)
        decreases |toks| - pos
      {
        var op := Tok().op;
        ghost var m, t := pos, State(e, v, ref, chains, syms);
        pos := pos + 1;
        var v2, ref2; ghost var e2;
        ok, v2, ref2, e2 := Logic();
        if !ok {
          LoopFails(toks, p, 3, chains0, syms0, here, m, t, op);
          return;
        }
        ghost var d := State(e2, v2, ref2, chains, syms);
        LoopStep(toks, p, 3, chains0, syms0, here, m, t, op, pos, d);
        if op.Add? {
          if !ref.NoRef? && !ref2.NoRef? { return false, v, ref, e; }
          v := (v + v2) % M;
          if ref.NoRef? && !ref2.NoRef? { ref := ref2; }
        } else {
          v := v + M - v2;
          if !ref2.NoRef? {
            if ref.NoRef? { return false, v, ref, e; }
            if ref != ref2 {
              var x, y := Where(ref, syms, here), Where(ref2, syms, here);
              if x.section != y.section || x.section == 0 { return false, v, ref, e; }
              v := (v + x.offset - y.offset) % M;
            }
            ref := NoRef;
          }
          v := v % M;
        }
        TreeGrows(toks, p, m, pos, op, e, e2);
        RunBin(op, e, e2, chains0, syms0, here, t, d);
        e := Bin(op, e, e2);
      }
      TreeEnds(toks, p, pos, e, 3);
    }

    /** asm_expr: accepted exactly when the tokens begin with a tree that has an evaluation; then v plus the address of ref is its value. */
    method Expr() returns (ok: bool, v: nat, ref: Ref, ghost e: Expr)
      requires Valid()
      modifies this`pos, this`chains, this`syms
      ensures Valid() && old(pos) <= pos
      ensures ok ==> Took(toks, old(pos), pos, e, 3) && Good(old(chains), old(syms), State(e, v, ref, chains, syms), here)
      ensures ok <==> exists f, q :: Took(toks, old(pos), q, f, 3) && Run(f, old(chains), old(syms), here).Some?
    {
      hide ChainsHold, Took, Run, Good;
      ok, v, ref, e := Sum();
      if ok { RunMeans(e, old(chains), old(syms), here); }
    }

    /** asm_new_label1: the pending forward references of a name, if any, get this definition; a local label may be defined again. */
    method NewLabel(name: Name, section: nat, value: int) returns (ok: bool)
      requires Valid() && section != 0
      modifies this`chains, this`syms
      ensures Valid()
      ensures ok <==> name.Local? || !IsDefined(old(chains), old(syms), name)
      ensures ok ==> Find(chains, name).Some? && Find(chains, name).value < |syms| && syms[Find(chains, name).value] == Symbol(section, value)
      ensures ok ==> LastDefined(chains, syms, name) == Find(chains, name)
      ensures ok ==>
        if old(Find(chains, name)).Some? && !IsDefined(old(chains), old(syms), name) then
          chains == old(chains) && syms == old(syms)[old(Find(chains, name)).value := Symbol(section, value)]
        else chains == Pushed(old(chains), name, |old(syms)|) && syms == old(syms) + [Symbol(section, value)]
      ensures !ok ==> chains == old(chains) && syms == old(syms)
    {
      hide ChainsHold, Grown, Pushed;
      var sym := Find(chains, name);
      FindFacts(chains, syms, name);
      if sym.Some? && syms[sym.value].section != 0 && !name.Local? { return false; }
      if sym.None? || syms[sym.value].section != 0 {
        var id := Push(name);
        sym := Some(id);
      }
      DefineHolds(chains, syms, name, sym.value, Symbol(section, value));
      syms := syms[sym.value := Symbol(section, value)];
      ok := true;
    }
  }

  lemma TookTree(toks: seq<Token>, p: nat, q: nat, e: Expr, level: nat)
    requires level >= 1 && Took(toks, p, q, e, level - 1)
    ensures Tree(toks, p, q, e, level)
  {}

  lemma RunBin(op: Op, e: Expr, f: Expr, chains: Chains, syms: seq<Symbol>, here: Place, t: State, d: State)
    requires t.v < M && d.v < M && Run(e, chains, syms, here) == Some(t) && Run(f, t.chains, t.syms, here) == Some(d)
    ensures Run(Bin(op, e, f), chains, syms, here) == Join(op, t, Some(d), here)
  {
    hide Apply, Join;
  }
}
