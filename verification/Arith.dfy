/** Division, remainder and rounding facts shared by the other modules. */
module Arith {

  lemma MulAtLeast(k: int, m: int)
    requires k >= 1 && m > 0
    ensures k * m >= m
  {}

  /** Quotient and remainder are unique. */
  lemma DivModUnique(a: int, m: int, q: int, r: int)
    requires m > 0 && a == q * m + r && 0 <= r < m
    ensures a / m == q && a % m == r
  {
    var d := a / m - q;
    assert d * m == r - a % m by {
      assert a == (a / m) * m + a % m;
      assert (a / m - q) * m == (a / m) * m - q * m;
    }
    if d >= 1 { MulAtLeast(d, m); }
    if d <= -1 { MulAtLeast(-d, m); }
    assert d == 0;
  }

  lemma ModAddMultiple(a: int, k: int, m: int)
    requires m > 0
    ensures (a + k * m) % m == a % m && (a + k * m) / m == a / m + k
  {
    assert a + k * m == (a / m + k) * m + a % m by { assert (a / m + k) * m == (a / m) * m + k * m; }
    DivModUnique(a + k * m, m, a / m + k, a % m);
  }

  function Pow2(n: nat): (p: nat)
    ensures p > 0
  {
    if n == 0 then 1 else 2 * Pow2(n - 1)
  }

  lemma {:induction false} Pow2Add(a: nat, b: nat)
    ensures Pow2(a + b) == Pow2(a) * Pow2(b)
  {
    if a == 0 {
    } else {
      Pow2Add(a - 1, b);
      assert 2 * (Pow2(a - 1) * Pow2(b)) == 2 * Pow2(a - 1) * Pow2(b);
    }
  }

  lemma Pow2Values()
    ensures Pow2(0) == 1 && Pow2(1) == 2 && Pow2(4) == 16 && Pow2(5) == 32 && Pow2(16) == 0x1_0000
  {
    assert Pow2(8) == 256;
    Pow2Add(8, 8);
  }

  /** The least number of units u that covers d. */
  function CeilDiv(d: nat, u: nat): nat
    requires u > 0
  {
    (d + u - 1) / u
  }

  lemma CeilBounds(d: nat, u: nat)
    requires u > 0
    ensures d <= CeilDiv(d, u) * u < d + u
  {
    var q := CeilDiv(d, u);
    assert d + u - 1 == q * u + (d + u - 1) % u;
  }

  lemma CeilUnique(d: nat, u: nat, q: nat)
    requires u > 0 && d <= q * u < d + u
    ensures CeilDiv(d, u) == q
  {
    DivModUnique(d + u - 1, u, q, d + u - 1 - q * u);
  }

  /** Rounding up twice is rounding up once. */
  lemma CeilCompose(d: nat, u: nat, v: nat)
    requires u > 0 && v > 0
    ensures u * v > 0 && CeilDiv(CeilDiv(d, u), v) == CeilDiv(d, u * v)
  {
    MulAtLeast(u, v);
    var c := CeilDiv(d, u);
    var q := CeilDiv(c, v);
    CeilBounds(d, u);
    CeilBounds(c, v);
    // d <= c*u <= q*v*u, and q*v <= c + v - 1 gives q*v*u <= (c - 1)*u + v*u < d + u*v
    assert c * u <= q * v * u by { MulMono(c, q * v, u); }
    assert q * v * u <= (c + v - 1) * u by { MulMono(q * v, c + v - 1, u); }
    assert (c + v - 1) * u == c * u - u + v * u;
    assert q * v * u == q * (u * v);
    assert v * u == u * v;
    CeilUnique(d, u * v, q);
  }

  lemma MulMono(a: int, b: int, u: int)
    requires a <= b && u >= 0
    ensures a * u <= b * u
  {}

  lemma CeilMono(c: nat, d: nat, u: nat)
    requires u > 0 && c <= d
    ensures CeilDiv(c, u) <= CeilDiv(d, u)
  {
    CeilBounds(c, u);
    CeilBounds(d, u);
    if CeilDiv(c, u) > CeilDiv(d, u) { MulMono(CeilDiv(d, u) + 1, CeilDiv(c, u), u); }
  }

  /** The least multiple of u from n on. */
  function RoundUp(n: nat, u: nat): nat
    requires u > 0
  {
    CeilDiv(n, u) * u
  }

  lemma RoundUpBounds(n: nat, u: nat)
    requires u > 0
    ensures n <= RoundUp(n, u) < n + u
    ensures n % u == 0 ==> RoundUp(n, u) == n
    ensures 0 < n <= u ==> RoundUp(n, u) == u
  {
    CeilBounds(n, u);
    if n % u == 0 {
      assert n == (n / u) * u;
      CeilUnique(n, u, n / u);
    }
    if 0 < n <= u { CeilUnique(n, u, 1); }
  }

  lemma RoundedMultiple(n: nat, u: nat)
    requires u > 0
    ensures RoundUp(n, u) % u == 0
  {
    DivModUnique(CeilDiv(n, u) * u, u, CeilDiv(n, u), 0);
  }
}
