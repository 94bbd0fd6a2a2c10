/** What one more parity packet does to the native loss formula. */
module FecNativeParity {
  import opened Arithmetic
  import opened Wrappers
  import opened Binomial
  import opened BinomialRange
  import opened FecLoss
  import opened FecNativeLoss
  import opened FecNativeExact

  /** Both are finite and in order. */
  predicate AtMost(a: Option<real>, b: Option<real>) {
    a.Some? && b.Some? && a.value <= b.value
  }

  /** When every coefficient fits, one more parity packet never raises the native formula. */
  lemma MoreParityHelpsNative(k: u64, r: u64, p: real)
    requires k >= 1 && (r >= 1 || k == 1) && k + r + 1 < I32_LIMIT && Fits(k + r, r + 1)
    ensures AtMost(NativeLoss(p, k, r + 1), NativeLoss(p, k, r))
  {
    hide NativeSum, NativeTail, TailSum, Fits;
    MoreParityHelps(p, k, r);
    NativeIsLowerBound([], k, r + 1, p);
    if r > 0 {
      NativeIsTail(p, k, r);
      TailBelow(Clamp(p), k + r, r + 1);
    }
  }

  // ---------------------------------------------------------------- the first parity packet

  lemma CoefficientOneBelow(n: u64)
    requires 1 <= n
    ensures Binom64(n, n - 1) == n
  {
    ChooseOne(n);
    ChooseSymmetric(n, n - 1);
    hide Binom64, Choose;
    Binom64Exact(n, n - 1);
  }

  lemma OneBelowLast(p: real, n: u64)
    requires 1 <= n
    ensures NativeAt(p, n, n - 1) == n as real * Pow(p, n - 1) * (1.0 - p)
  {
    CoefficientOneBelow(n);
    PowersOf(1.0 - p);
    hide Pow, Binom64;
    assert NativeAt(p, n, n - 1) == Product3(n, Pow(p, n - 1), 1.0 - p);
  }

  lemma {:induction false} TailFromTwoLast(p: real, n: u64, i: nat)
    requires 0.0 <= p <= 1.0 && i + 1 <= n
    ensures NativeTail(p, n, i) >= n as real * Pow(p, n - 1) * (1.0 - p) + Pow(p, n)
    decreases n - i
  {
    hide NativeAt, Pow;
    TermBelow(p, n, i);
    if i + 1 < n {
      TailFromTwoLast(p, n, i + 1);
    } else {
      OneBelowLast(p, n);
      LastTerm(p, n);
      assert NativeTail(p, n, n) == NativeAt(p, n, n) + NativeTail(p, n, n + 1);
    }
  }

  /** Bernoulli's inequality. */
  lemma {:induction false} Bernoulli(q: real, m: nat)
    requires 0.0 <= q <= 1.0
    ensures Pow(1.0 - q, m) >= 1.0 - m as real * q
  {
    if m > 0 {
      var before, x := Pow(1.0 - q, m - 1), (m - 1) as real;
      Bernoulli(q, m - 1);
      assert Pow(1.0 - q, m) == (1.0 - q) * before;
      BernoulliStep(q, x, before);
    }
  }

  lemma BernoulliStep(q: real, x: real, before: real)
    requires 0.0 <= q <= 1.0 && x >= 0.0 && before >= 1.0 - x * q
    ensures (1.0 - q) * before >= 1.0 - (x + 1.0) * q
  {
    NonNegative(1.0 - q, before - (1.0 - x * q), (1.0 - q) * (before - (1.0 - x * q)));
    NonNegative(x, q * q, x * q * q);
  }

  lemma SquareReciprocal(n: real, nn: real, q: real)
    requires n >= 3.0 && nn == n * n && q == 1.0 / nn
    ensures 0.0 < q < 1.0 && q * nn == 1.0
  {
    assert nn >= 9.0;
    Reciprocal(nn);
    if q >= 1.0 {
      NonNegative(q - 1.0, nn, (q - 1.0) * nn);
      assert false;
    }
  }

  lemma HighRateArithmetic(n: real, nn: real, q: real, b: real, p: real)
    requires n >= 3.0 && nn == n * n && q * nn == 1.0 && 0.0 < q < 1.0
    requires p == 1.0 - q && b >= 1.0 - (n - 1.0) * q
    ensures n * b * q + p * b > p
  {
    var s := (n - 1.0) * q;
    NonNegative(n - 1.0, q, s);
    TwoTerms(n, b, q, s);
    Conjugates(b, s);
    SmallSquare(n, nn, q, s);
  }

  lemma Conjugates(b: real, s: real)
    requires s >= 0.0 && b >= 1.0 - s
    ensures b * (1.0 + s) >= 1.0 - s * s
  {
    var e := b - (1.0 - s);
    NonNegative(e, 1.0 + s, e * (1.0 + s));
    assert b * (1.0 + s) == (1.0 - s) * (1.0 + s) + e * (1.0 + s);
  }

  lemma SmallSquare(n: real, nn: real, q: real, s: real)
    requires n >= 3.0 && nn == n * n && q * nn == 1.0 && 0.0 < q && s == (n - 1.0) * q
    ensures s * s < q
  {
    var mm, t := (n - 1.0) * (n - 1.0), 2.0 * n - 1.0;
    Positive(t, q, t * q);
    assert mm == nn - t;
    assert mm * q == 1.0 - t * q;
    Positive(t * q, q, t * q * q);
    assert s * s == mm * q * q;
  }

  lemma TwoTerms(n: real, b: real, q: real, s: real)
    requires s == (n - 1.0) * q
    ensures n * b * q + (1.0 - q) * b == b * (1.0 + s)
  {
    assert n * b * q == b * (n * q);
    assert b * s == b * (n * q) - b * q;
  }

  lemma LastPower(p: real, n: nat)
    requires n >= 1
    ensures Pow(p, n) == p * Pow(p, n - 1)
  {
  }

  /** At the loss rate 1 - 1 / n^2 the first parity packet raises the native formula. */
  lemma HighRateRaises(k: u64, q: real, p: real)
    requires k >= 2 && k + 1 < I32_LIMIT
    requires q == 1.0 / ((k + 1) as real * (k + 1) as real) && p == 1.0 - q
    ensures 0.0 < p < 1.0 && !AtMost(NativeLoss(p, k, 1), NativeLoss(p, k, 0))
  {
    hide Pow, NativeSum, NativeTail;
    var n: u64 := k + 1;
    var x := n as real;
    SquareReciprocal(x, x * x, q);
    HighTail(n, x, x * x, q, p);
    NativeIsTail(p, k, 1);
    NativeUnprotected(p, k);
    hide NativeLoss;
  }

  lemma HighTail(n: u64, x: real, xx: real, q: real, p: real)
    requires n >= 3 && x == n as real && xx == x * x && q * xx == 1.0 && 0.0 < q < 1.0 && p == 1.0 - q
    ensures NativeTail(p, n, 2) > p
  {
    hide Pow, NativeTail;
    var b := Pow(p, n - 1);
    Bernoulli(q, n - 1);
    assert (n - 1) as real == x - 1.0;
    HighRateArithmetic(x, xx, q, b, p);
    LastPower(p, n);
    TailFromTwoLast(p, n, 2);
    SameEnd(x, b, q, p);
  }

  lemma SameEnd(x: real, b: real, q: real, p: real)
    requires p == 1.0 - q
    ensures x * b * (1.0 - p) == x * b * q
  {
  }

  /** One parity packet helps the native formula at every loss rate only when the data travels whole. */
  lemma FirstParityHelpsNativeIff(k: u64)
    requires 1 <= k && k + 1 < TWO_32
    ensures (forall p: real :: 0.0 <= p <= 1.0 ==> AtMost(NativeLoss(p, k, 1), NativeLoss(p, k, 0))) <==> k == 1
  {
    hide NativeSum;
    if k == 1 {
      SmallRowFits(1, 1);
      forall p: real | 0.0 <= p <= 1.0
        ensures AtMost(NativeLoss(p, 1, 1), NativeLoss(p, 1, 0))
      {
        MoreParityHelpsNative(1, 0, p);
      }
    } else if k + 1 < I32_LIMIT {
      var q := 1.0 / ((k + 1) as real * (k + 1) as real);
      HighRateRaises(k, q, 1.0 - q);
    } else {
      NativeAboveOne(k, 1, 0.5);
    }
  }
}
