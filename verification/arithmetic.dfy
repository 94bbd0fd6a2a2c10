/** Facts about products and quotients that the verifier does not find by itself. */
module Arithmetic {

  function Min(a: nat, b: nat): nat {
    if a <= b then a else b
  }

  /** A real power. */
  function Pow(x: real, n: nat): real {
    if n == 0 then 1.0 else x * Pow(x, n - 1)
  }

  lemma Product(a: nat, b: nat)
    ensures a * b >= 0
  {
  }

  lemma Distribute(a: int, b: int, c: int)
    ensures (a + b) * c == a * c + b * c
    ensures c * (a + b) == c * a + c * b
  {
  }

  lemma Swap(a: int, b: int, c: int)
    ensures a * b * c == a * c * b
  {
  }

  lemma Monotone(a: nat, b: nat, c: nat)
    requires a <= b
    ensures a * c <= b * c && c * a <= c * b
  {
    Distribute(a, b - a, c);
    Product(b - a, c);
  }

  lemma Cancel(a: nat, b: nat, c: nat)
    requires c > 0 && a * c <= b * c
    ensures a <= b
  {
    if b < a {
      Distribute(b, a - b, c);
      Monotone(1, a - b, c);
      assert false;
    }
  }

  lemma Quotient(x: nat, d: nat)
    requires d > 0
    ensures 0 <= x / d
  {
  }

  /** A quotient and a remainder below the divisor determine the division. */
  lemma DivUnique(x: nat, d: nat, q: nat, r: nat)
    requires d > 0 && x == q * d + r && r < d
    ensures x / d == q && x % d == r
  {
    var p := x / d;
    assert x == p * d + x % d;
    if p < q {
      Monotone(p + 1, q, d);
      Distribute(p, 1, d);
      assert false;
    } else if p > q {
      Monotone(q + 1, p, d);
      Distribute(q, 1, d);
      assert false;
    }
  }

  lemma ExactQuotient(x: nat, d: nat, q: nat)
    requires d > 0 && x == q * d
    ensures x / d == q
  {
    DivUnique(x, d, q, 0);
  }

  lemma QuotientBelow(x: nat, d: nat)
    requires d > 0
    ensures 0 <= x / d <= x && x % d <= x
  {
    var q := x / d;
    assert x == q * d + x % d;
    if q >= 0 {
      Monotone(1, d, q);
    }
  }
}
