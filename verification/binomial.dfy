/** The binomial coefficient: its definition, and the 64-bit loop that computes it. */
module Binomial {
  import opened Arithmetic

  /** Pascal's triangle. */
  function Choose(n: nat, k: nat): nat {
    if k == 0 then 1
    else if n == 0 then 0
    else Choose(n - 1, k - 1) + Choose(n - 1, k)
  }

  const U64: nat := 0x1_0000_0000_0000_0000

  lemma {:induction false} ChooseBeyond(n: nat, k: nat)
    requires k > n
    ensures Choose(n, k) == 0
  {
    if n > 0 {
      ChooseBeyond(n - 1, k - 1);
      ChooseBeyond(n - 1, k);
    }
  }

  lemma {:induction false} ChooseSymmetric(n: nat, k: nat)
    requires k <= n
    ensures Choose(n, k) == Choose(n, n - k)
  {
    if k == 0 {
      ChooseAll(n);
    } else if k == n {
      ChooseAll(n);
    } else {
      ChooseSymmetric(n - 1, k - 1);
      ChooseSymmetric(n - 1, k);
    }
  }

  lemma {:induction false} ChooseAll(n: nat)
    ensures Choose(n, n) == 1
  {
    if n > 0 {
      ChooseAll(n - 1);
      ChooseBeyond(n - 1, n);
    }
  }

  // ---------------------------------------------------------------- rows of the triangle

  lemma {:induction false} ChooseOne(n: nat)
    ensures Choose(n, 1) == n
  {
    if n > 0 {
      ChooseOne(n - 1);
    }
  }

  /** Going one step along a row: C(n, i) (n - i) = C(n, i + 1) (i + 1). */
  lemma {:induction false} ChooseStep(n: nat, i: nat)
    requires i < n
    ensures Choose(n, i) * (n - i) == Choose(n, i + 1) * (i + 1)
  {
    if i == 0 {
      ChooseOne(n);
    } else if i == n - 1 {
      ChooseAll(n);
      ChooseSymmetric(n, 1);
      ChooseOne(n);
    } else {
      ChooseStep(n - 1, i - 1);
      ChooseStep(n - 1, i);
      PascalStep(n, i, Choose(n - 1, i - 1), Choose(n - 1, i), Choose(n - 1, i + 1));
    }
  }

  lemma PascalStep(n: nat, i: nat, a: nat, b: nat, c: nat)
    requires 0 < i < n - 1 && a * (n - i) == b * i && b * (n - 1 - i) == c * (i + 1)
    ensures (a + b) * (n - i) == (b + c) * (i + 1)
  {
    Distribute(a, b, n - i);
    Distribute(b, c, i + 1);
    Distribute(n - 1 - i, 1, b);
    Distribute(i, 1, b);
  }

  /** Rows rise towards their middle. */
  lemma {:induction false} ChooseRises(n: nat, i: nat, m: nat)
    requires i <= m && 2 * m <= n
    ensures Choose(n, i) <= Choose(n, m)
    decreases m - i
  {
    if i < m {
      ChooseStep(n, i);
      Monotone(i + 1, n - i, Choose(n, i));
      Cancel(Choose(n, i), Choose(n, i + 1), i + 1);
      ChooseRises(n, i + 1, m);
    }
  }

  // ---------------------------------------------------------------- the loop body

  /** What the loop body computes from `r`, in unbounded integers. */
  function BinomStep(n: nat, i: nat, r: nat): nat
    requires i < n
  {
    var d, f := i + 1, n - i;
    Product(r / d, f);
    Product(r % d, f);
    Quotient(r % d * f, d);
    r / d * f + r % d * f / d
  }

  /** Dividing before multiplying loses nothing: the step is exact. */
  lemma BinomStepExact(n: nat, i: nat)
    requires i < n
    ensures BinomStep(n, i, Choose(n, i)) == Choose(n, i + 1)
  {
    var r, d, c := Choose(n, i), i + 1, Choose(n, i + 1);
    ChooseStep(n, i);
    SplitDivision(r / d, r % d, d, n - i, c);
  }

  lemma SplitDivision(q: nat, m: nat, d: nat, f: nat, c: nat)
    requires d > 0 && (q * d + m) * f == c * d
    ensures q * f + (m * f) / d == c
  {
    Distribute(q * d, m, f);
    Swap(q, d, f);
    Distribute(c, -(q * f), d);
    assert m * f == (c - q * f) * d;
    Product(m, f);
    if c < q * f {
      Monotone(1, q * f - c, d);
      Distribute(c, q * f - c, d);
      assert false;
    }
    ExactQuotient(m * f, d, c - q * f);
  }

  // ---------------------------------------------------------------- sixty-four bits

  type u64 = x: int | 0 <= x < U64

  function Mul64(a: u64, b: u64): (c: u64) {
    Product(a, b);
    (a * b) % U64
  }

  function Add64(a: u64, b: u64): (c: u64) {
    (a + b) % U64
  }

  /** The loop body in wrapping 64-bit arithmetic. */
  function BinomStep64(n: u64, i: u64, r: u64): (s: u64)
    requires i < n
  {
    var d, f := i + 1, n - i;
    Quotient(r, d);
    QuotientBelow(r, d);
    QuotientBelow(Mul64(r % d, f), d);
    Add64(Mul64(r / d, f), Mul64(r % d, f) / d)
  }

  lemma RowIsLarge(n: nat, i: nat)
    requires i >= 1 && 2 * (i + 1) <= n
    ensures i * (i + 1) <= Choose(n, i)
  {
    ChooseOne(n);
    if i > 1 {
      ChooseStep(n, 1);
      ChooseRises(n, 2, i);
      HalfProduct(i, n, Choose(n, 2));
    }
  }

  lemma HalfProduct(i: nat, n: nat, c: nat)
    requires 2 * (i + 1) <= n && n * (n - 1) == c * 2
    ensures i * (i + 1) <= c
  {
    Monotone(2 * (i + 1), n, n - 1);
    Monotone(i, n - 1, 2 * (i + 1));
    assert i * (2 * (i + 1)) == 2 * (i * (i + 1));
  }

  /** The product that is formed before its division is no larger than the next coefficient. */
  lemma RemainderProduct(n: nat, i: nat)
    requires 2 * (i + 1) <= n
    ensures 0 <= Choose(n, i) % (i + 1) * (n - i) <= Choose(n, i + 1)
  {
    var m, f := Choose(n, i) % (i + 1), n - i;
    Product(m, f);
    if i > 0 {
      RowIsLarge(n, i);
      ChooseStep(n, i);
      Monotone(i * (i + 1), Choose(n, i), f);
      Swap(i, i + 1, f);
      Cancel(i * f, Choose(n, i + 1), i + 1);
      Monotone(m, i, f);
    }
  }

  lemma NextFits(n: nat, k: nat, i: nat)
    requires k <= n && i < k && i < n - k
    ensures Choose(n, i) <= Choose(n, k) && Choose(n, i + 1) <= Choose(n, k)
  {
    var low := if k <= n - k then k else n - k;
    ChooseSymmetric(n, k);
    ChooseRises(n, i, low);
    ChooseRises(n, i + 1, low);
  }

  /** When C(n, k) fits in 64 bits, no product and no sum the loop forms leaves 64 bits. */
  lemma BinomStepFits(n: nat, k: nat, i: nat)
    requires k <= n && i < k && i < n - k && Choose(n, k) < U64
    ensures var r, d, f := Choose(n, i), i + 1, n - i;
            r < U64 && r / d * f < U64 && r % d * f < U64 && r / d * f + r % d * f / d < U64
  {
    var r, d, f := Choose(n, i), i + 1, n - i;
    NextFits(n, k, i);
    RemainderProduct(n, i);
    BinomStepExact(n, i);
    Quotient(r % d * f, d);
  }

  function Min64(a: u64, b: u64): u64 {
    if a <= b then a else b
  }

  /** The loop's variable after t rounds. */
  function Loop64(n: u64, t: nat): (r: u64)
    requires t <= n
  {
    if t == 0 then 1 else BinomStep64(n, t - 1, Loop64(n, t - 1))
  }

  /** What the code computes for C(n, k), wrapping at 64 bits. */
  function Binom64(n: u64, k: u64): (r: u64) {
    if k > n then 0 else Loop64(n, Min64(k, n - k))
  }

  method Binom(n: u64, k: u64) returns (r: u64)
    ensures r == Binom64(n, k)
  {
    if k > n {
      return 0;
    }
    var low := Min64(k, n - k);
    r := 1;
    for i := 0 to low
      invariant r == Loop64(n, i)
    {
      var d, f := i + 1, n - i;
      QuotientBelow(r, d);
      QuotientBelow(Mul64(r % d, f), d);
      r := Add64(Mul64(r / d, f), Mul64(r % d, f) / d);
    }
  }

  lemma {:induction false} LoopExact(n: u64, k: u64, t: nat)
    requires k <= n && t <= k && t <= n - k && Choose(n, k) < U64
    ensures Loop64(n, t) == Choose(n, t)
  {
    if t > 0 {
      LoopExact(n, k, t - 1);
      BinomStepFits(n, k, t - 1);
      BinomStepExact(n, t - 1);
      StepsAgree(n, t - 1, Loop64(n, t - 1));
    }
  }

  /** The 64-bit loop gives the coefficient exactly when the coefficient fits. */
  lemma Binom64Exact(n: u64, k: u64)
    ensures Binom64(n, k) == Choose(n, k) <==> Choose(n, k) < U64
  {
    if k > n {
      ChooseBeyond(n, k);
    } else if Choose(n, k) < U64 {
      LoopExact(n, k, Min64(k, n - k));
      ChooseSymmetric(n, k);
    }
  }

  lemma Mul64Exact(a: u64, b: u64)
    requires a * b < U64
    ensures Mul64(a, b) == a * b
  {
    Product(a, b);
  }

  lemma StepsAgree(n: u64, i: u64, r: u64)
    requires i < n && r / (i + 1) * (n - i) < U64 && r % (i + 1) * (n - i) < U64
    requires BinomStep(n, i, r) < U64
    ensures BinomStep64(n, i, r) == BinomStep(n, i, r)
  {
    hide Mul64;
    var d, f := i + 1, n - i;
    Quotient(r, d);
    QuotientBelow(r, d);
    var q, m: u64 := r / d, r % d;
    Mul64Exact(q, f);
    Mul64Exact(m, f);
  }
}
