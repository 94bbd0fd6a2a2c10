/** The loss formula as the native code sums it, with 64-bit coefficients and 32-bit exponents, against the exact sum
    and against the decoder. Arithmetic on the summands is over the reals. */
module FecNativeLoss {
  import opened Arithmetic
  import opened Wrappers
  import opened Bytes
  import opened Binomial
  import opened BinomialRange
  import opened FecLoss

  // ---------------------------------------------------------------- the code

  const I32_LIMIT: nat := 0x8000_0000
  const TWO_32: nat := 0x1_0000_0000

  /** A cast to a signed 32-bit integer. */
  function AsI32(x: nat): (e: int)
    ensures x < I32_LIMIT ==> e == x
    ensures I32_LIMIT <= x < TWO_32 ==> e < 0
  {
    var low := x % TWO_32;
    if low < I32_LIMIT then low else low - TWO_32
  }

  lemma {:induction false} PowNonZero(x: real, n: nat)
    requires x != 0.0
    ensures Pow(x, n) != 0.0
  {
    if n > 0 {
      PowNonZero(x, n - 1);
    }
  }

  /** A power with an integer exponent; None where the float is infinite. */
  function Powi(x: real, e: int): Option<real> {
    if e >= 0 then Some(Pow(x, e))
    else if x == 0.0 then None
    else
      PowNonZero(x, -e);
      Some(1.0 / Pow(x, -e))
  }

  function Product3(coefficient: u64, lost: real, kept: real): real {
    coefficient as real * lost * kept
  }

  function NativeTerm(p: real, n: u64, i: u64): Option<real>
    requires i <= n
  {
    var lost :- Powi(p, AsI32(i));
    var kept :- Powi(1.0 - p, AsI32(n - i));
    Some(Product3(Binom64(n, i), lost, kept))
  }

  function NativeSum(p: real, n: u64, i: nat): Option<real>
    decreases n + 1 - i
  {
    if i > n then Some(0.0)
    else
      var term :- NativeTerm(p, n, i);
      var rest :- NativeSum(p, n, i + 1);
      Some(term + rest)
  }

  function NativeLoss(p: real, k: u64, r: u64): Option<real> {
    if r == 0 then Some(Clamp(p)) else NativeSum(Clamp(p), Add64(k, r), Add64(r, 1))
  }

  function Plus(sum: real, rest: Option<real>): Option<real> {
    if rest.None? then None else Some(sum + rest.value)
  }

  lemma NativeUnprotected(p: real, k: u64)
    ensures NativeLoss(p, k, 0) == Some(Clamp(p))
  {
  }

  lemma NativeProtected(p: real, k: u64, r: u64)
    requires r >= 1
    ensures NativeLoss(p, k, r) == NativeSum(Clamp(p), Add64(k, r), Add64(r, 1))
  {
  }

  lemma NativeEnd(p: real, n: u64, i: nat)
    requires i > n
    ensures NativeSum(p, n, i) == Some(0.0)
  {
  }

  /** One round of the loop. */
  lemma NativeStep(p: real, n: u64, i: u64, sum: real)
    requires i <= n
    ensures var lost, kept := Powi(p, AsI32(i)), Powi(1.0 - p, AsI32(n - i));
            Plus(sum, NativeSum(p, n, i)) ==
            if lost.None? || kept.None? then None
            else Plus(sum + Product3(Binom64(n, i), lost.value, kept.value), NativeSum(p, n, i + 1))
  {
    hide Binom64, Powi, AsI32, Product3;
    var lost, kept := Powi(p, AsI32(i)), Powi(1.0 - p, AsI32(n - i));
    NativeTermIs(p, n, i);
    hide NativeTerm;
    NativeSumIs(p, n, i);
  }

  lemma NativeTermIs(p: real, n: u64, i: u64)
    requires i <= n
    ensures var lost, kept := Powi(p, AsI32(i)), Powi(1.0 - p, AsI32(n - i));
            NativeTerm(p, n, i) ==
            if lost.None? || kept.None? then None else Some(Product3(Binom64(n, i), lost.value, kept.value))
  {
    hide Binom64, Powi, AsI32, Product3;
  }

  lemma NativeSumIs(p: real, n: u64, i: u64)
    requires i <= n
    ensures NativeSum(p, n, i) ==
            if NativeTerm(p, n, i).None? then None
            else Plus(NativeTerm(p, n, i).value, NativeSum(p, n, i + 1))
  {
    hide NativeTerm;
  }

  /** The native code. */
  method FecEffectiveLoss(rate: real, k: u64, r: u64) returns (loss: Option<real>)
    ensures loss == NativeLoss(rate, k, r)
  {
    hide Binom64, Powi, AsI32, Product3, Add64, NativeSum, NativeTerm;
    if r == 0 {
      NativeUnprotected(rate, k);
      return Some(Clamp(rate));
    }
    var n, start := Add64(k, r), Add64(r, 1);
    NativeProtected(rate, k, r);
    var p := Clamp(rate);
    var sum := 0.0;
    var i: nat := start;
    while i <= n
      invariant NativeSum(p, n, start) == Plus(sum, NativeSum(p, n, i))
      decreases n + 1 - i
    {
      NativeStep(p, n, i, sum);
      var coefficient := Binom(n, i);
      var lost, kept := Powi(p, AsI32(i)), Powi(1.0 - p, AsI32(n - i));
      if lost.None? || kept.None? {
        return None;
      }
      sum := sum + Product3(coefficient, lost.value, kept.value);
      i := i + 1;
    }
    NativeEnd(p, n, i);
    return Some(sum);
  }

  lemma TermIs(p: real, n: nat, i: nat, d: real, a: real, b: real)
    requires i <= n && d == Choose(n, i) as real && a == Pow(p, i) && b == Pow(1.0 - p, n - i)
    ensures Term(p, n, i) == d * a * b
  {
    hide Choose, Pow;
  }

  lemma TailSumFirst(p: real, n: nat, i: nat, d: real, a: real, b: real)
    requires i <= n && d == Choose(n, i) as real && a == Pow(p, i) && b == Pow(1.0 - p, n - i)
    ensures TailSum(p, n, i) == d * a * b + TailSum(p, n, i + 1)
  {
    hide Choose, Pow;
    TermIs(p, n, i, d, a, b);
    hide Term;
  }

  /** The second implementation: coefficients and exponents are unbounded integers. */
  method FallbackEffectiveLoss(rate: real, k: nat, r: nat) returns (loss: real)
    ensures loss == EffectiveLoss(rate, k, r)
  {
    hide TailSum, Choose, Pow;
    if r == 0 {
      return Clamp(rate);
    }
    var n, p := k + r, Clamp(rate);
    loss := 0.0;
    var i := r + 1;
    while i <= n
      invariant TailSum(p, n, r + 1) == loss + TailSum(p, n, i)
      decreases n + 1 - i
    {
      TailSumFirst(p, n, i, Choose(n, i) as real, Pow(p, i), Pow(1.0 - p, n - i));
      loss := loss + Choose(n, i) as real * Pow(p, i) * Pow(1.0 - p, n - i);
      i := i + 1;
    }
    TailSumEnd(p, n, i);
  }

  lemma TailSumEnd(p: real, n: nat, i: nat)
    requires i > n
    ensures TailSum(p, n, i) == 0.0
  {
  }

  // ---------------------------------------------------------------- small exponents

  function NativeAt(p: real, n: u64, i: u64): real
    requires i <= n
  {
    Product3(Binom64(n, i), Pow(p, i), Pow(1.0 - p, n - i))
  }

  function NativeTail(p: real, n: u64, i: nat): real
    decreases n + 1 - i
  {
    if i > n then 0.0 else NativeAt(p, n, i) + NativeTail(p, n, i + 1)
  }

  lemma {:induction false} SmallExponents(p: real, n: u64, i: nat)
    requires n < I32_LIMIT
    ensures NativeSum(p, n, i) == Some(NativeTail(p, n, i))
    decreases n + 1 - i
  {
    if i > n {
      NativeEnd(p, n, i);
    } else {
      SmallExponents(p, n, i + 1);
      NativeTermAt(p, n, i);
      NativeSumIs(p, n, i);
      hide NativeTerm, NativeAt, NativeSum;
    }
  }

  lemma NativeTermAt(p: real, n: u64, i: u64)
    requires i <= n < I32_LIMIT
    ensures NativeTerm(p, n, i) == Some(NativeAt(p, n, i))
  {
    hide Pow, Binom64, Product3;
  }

  lemma NativeIsTail(p: real, k: u64, r: u64)
    requires r >= 1 && k + r < I32_LIMIT
    ensures NativeLoss(p, k, r) == Some(NativeTail(Clamp(p), k + r, r + 1))
  {
    hide NativeSum, NativeTail, Clamp;
    assert Add64(k, r) == k + r && Add64(r, 1) == r + 1;
    SmallExponents(Clamp(p), k + r, r + 1);
  }

  lemma ScaleBelow(c: real, d: real, a: real, b: real)
    requires c <= d && a >= 0.0 && b >= 0.0
    ensures c * a * b <= d * a * b
    ensures c >= 0.0 ==> c * a * b >= 0.0
    ensures c < d && a > 0.0 && b > 0.0 ==> c * a * b < d * a * b
  {
    var w, e := a * b, d - c;
    NonNegative(a, b, w);
    NonNegative(e, w, e * w);
    assert c * a * b == c * w && d * a * b == d * w && d * w == c * w + e * w;
    if c >= 0.0 {
      NonNegative(c, w, c * w);
    }
    if c < d && a > 0.0 && b > 0.0 {
      Positive(a, b, w);
      Positive(e, w, e * w);
    }
  }

  lemma TermBelow(p: real, n: u64, i: u64)
    requires i <= n && 0.0 <= p <= 1.0
    ensures 0.0 <= NativeAt(p, n, i) <= Term(p, n, i)
    ensures Choose(n, i) < U64 ==> NativeAt(p, n, i) == Term(p, n, i)
    ensures Choose(n, i) >= U64 && 0.0 < p < 1.0 ==> NativeAt(p, n, i) < Term(p, n, i)
  {
    hide Binom64, Choose, Pow;
    Binom64Exact(n, i);
    PowSign(p, i);
    PowSign(1.0 - p, n - i);
    var c, d, a, b := Binom64(n, i), Choose(n, i), Pow(p, i), Pow(1.0 - p, n - i);
    assert if d < U64 then c == d else c < d;
    ScaleBelow(c as real, d as real, a, b);
    TermIs(p, n, i, d as real, a, b);
  }

  /** The native sum is never above the exact one; strictly inside the unit interval it is equal exactly when every
      coefficient fits. */
  lemma {:induction false} TailBelow(p: real, n: u64, i: nat)
    requires 0.0 <= p <= 1.0
    ensures 0.0 <= NativeTail(p, n, i) <= TailSum(p, n, i)
    ensures Fits(n, i) ==> NativeTail(p, n, i) == TailSum(p, n, i)
    ensures !Fits(n, i) && 0.0 < p < 1.0 ==> NativeTail(p, n, i) < TailSum(p, n, i)
    decreases n + 1 - i
  {
    hide NativeAt, Term, Choose;
    if i <= n {
      TermBelow(p, n, i);
      TailBelow(p, n, i + 1);
      FitsFirst(n, i);
    }
  }
}
