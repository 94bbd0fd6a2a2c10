/** The native loss formula against the decoder, against the second implementation, and as parity is added. */
module FecNativeExact {
  import opened Arithmetic
  import opened Wrappers
  import opened Bytes
  import Fec
  import opened Binomial
  import opened BinomialRange
  import opened FecLoss
  import opened FecExactLoss
  import opened FecNativeLoss

  // ---------------------------------------------------------------- nothing lost, everything lost

  lemma {:induction false} NativeTailAtZero(n: u64, i: nat)
    requires i >= 1
    ensures NativeTail(0.0, n, i) == 0.0 == TailSum(0.0, n, i)
    decreases n + 1 - i
  {
    if i <= n {
      NativeTailAtZero(n, i + 1);
      assert Pow(0.0, i) == 0.0 * Pow(0.0, i - 1);
      hide Pow, Binom64, Choose;
      ZeroFactor(Binom64(n, i), Choose(n, i), Pow(1.0, n - i));
      assert NativeAt(0.0, n, i) == Product3(Binom64(n, i), 0.0, Pow(1.0, n - i));
    }
  }

  lemma ZeroFactor(c: u64, d: nat, x: real)
    ensures Product3(c, 0.0, x) == 0.0 == Product3(c, x, 0.0)
    ensures d as real * 0.0 * x == 0.0 == d as real * x * 0.0
  {
  }

  /** The last term: all packets lost. */
  lemma LastTerm(p: real, n: u64)
    ensures NativeAt(p, n, n) == Pow(p, n)
  {
    assert Binom64(n, n) == 1;
    assert Pow(1.0 - p, 0) == 1.0;
    hide Pow, Binom64;
  }

  lemma {:induction false} NativeTailAtOne(n: u64, i: nat)
    requires i <= n
    ensures NativeTail(1.0, n, i) == 1.0
    decreases n - i
  {
    if i == n {
      LastTerm(1.0, n);
      OneToThe(n);
    } else {
      NativeTailAtOne(n, i + 1);
      assert Pow(0.0, n - i) == 0.0 * Pow(0.0, n - i - 1);
      hide Pow, Binom64;
      ZeroFactor(Binom64(n, i), 0, Pow(1.0, i));
      assert NativeAt(1.0, n, i) == Product3(Binom64(n, i), Pow(1.0, i), 0.0);
    }
  }

  // ---------------------------------------------------------------- small exponents

  /** While the exponents fit in 32 bits, the native formula is a number in [0, 1], never above the exact sum and so
      never above the decoder's failure probability. */
  lemma NativeIsLowerBound(data: seq<byte>, k: u64, r: u64, p: real)
    requires k >= 1 && (r == 0 || k + r < I32_LIMIT)
    ensures NativeLoss(p, k, r).Some?
    ensures 0.0 <= NativeLoss(p, k, r).value <= EffectiveLoss(p, k, r) <= 1.0
    ensures NativeLoss(p, k, r).value <= FailureProbability(data, k, r, Clamp(p))
  {
    hide FailureProbability, NativeTail, NativeSum, TailSum;
    FormulaIsLowerBound(data, k, r, p);
    EffectiveLossInUnit(p, k, r);
    if r > 0 {
      NativeIsTail(p, k, r);
      TailBelow(Clamp(p), k + r, r + 1);
    }
  }

  /** The native code and the second implementation agree exactly when every coefficient fits. */
  lemma ImplementationsAgreeSmall(k: u64, r: u64, p: real)
    requires 0.0 < p < 1.0 && k + r < I32_LIMIT
    ensures NativeLoss(p, k, r) == Some(EffectiveLoss(p, k, r)) <==> r == 0 || Fits(k + r, r + 1)
  {
    if r > 0 {
      NativeIsTail(p, k, r);
      TailBelow(p, k + r, r + 1);
    }
  }

  /** The coefficient of "every packet lost" fits. */
  lemma LastFits(n: nat)
    ensures Fits(n, n)
  {
    ChooseAll(n);
  }

  lemma NativeAtTheEnds(data: seq<byte>, k: u64, r: u64, p: real)
    requires k >= 1 && (r == 0 || k + r < I32_LIMIT) && (p <= 0.0 || p >= 1.0)
    ensures NativeLoss(p, k, r) == Some(FailureProbability(data, k, r, Clamp(p)))
  {
    hide FailureProbability, NativeTail, NativeSum, TailSum;
    FormulaIsExactAt(data, k, r, p);
    if r > 0 {
      NativeIsTail(p, k, r);
      hide NativeLoss;
      if p <= 0.0 {
        NativeTailAtZero(k + r, r + 1);
      } else {
        NativeTailAtOne(k + r, r + 1);
        TailBelow(1.0, k + r, r + 1);
        EffectiveLossInUnit(p, k, r);
      }
    }
  }

  lemma NativeInside(data: seq<byte>, k: u64, r: u64, p: real)
    requires k >= 1 && (r == 0 || k + r < I32_LIMIT) && 0.0 < p < 1.0
    ensures NativeLoss(p, k, r) == Some(FailureProbability(data, k, r, p)) <==>
            r == 0 || k == 1 || (r == 1 && k <= 66)
  {
    hide FailureProbability, NativeSum;
    FormulaIsExactIff(data, k, r, p);
    if r > 0 {
      NativeIsLowerBound(data, k, r, p);
      ImplementationsAgreeSmall(k, r, p);
      LastFits(k + r);
      FitsExactly(k + r, 2);
    }
  }

  /** For every loss rate, while the exponents fit in 32 bits: the native formula is the decoder's failure probability
      exactly when nothing or everything is lost, r = 0, k = 1, or r = 1 and k <= 66. */
  lemma NativeIsExactAt(data: seq<byte>, k: u64, r: u64, p: real)
    requires k >= 1 && (r == 0 || k + r < I32_LIMIT)
    ensures NativeLoss(p, k, r) == Some(FailureProbability(data, k, r, Clamp(p))) <==>
            p <= 0.0 || p >= 1.0 || r == 0 || k == 1 || (r == 1 && k <= 66)
  {
    if p <= 0.0 || p >= 1.0 {
      NativeAtTheEnds(data, k, r, p);
    } else {
      NativeInside(data, k, r, p);
    }
  }

  // ---------------------------------------------------------------- large exponents

  lemma {:induction false} PowBelowOne(x: real, n: nat)
    requires 0.0 < x < 1.0
    ensures 0.0 < Pow(x, n) <= 1.0 && (n > 0 ==> Pow(x, n) < 1.0)
  {
    if n > 0 {
      PowBelowOne(x, n - 1);
      Shrinks(x, Pow(x, n - 1));
    }
  }

  lemma Shrinks(x: real, y: real)
    requires 0.0 < x < 1.0 && y > 0.0
    ensures 0.0 < x * y < y
  {
    Positive(x, y, x * y);
    Positive(1.0 - x, y, (1.0 - x) * y);
  }

  lemma {:induction false} PowFalls(x: real, low: nat, high: nat)
    requires 0.0 < x < 1.0 && low < high
    ensures Pow(x, high) < Pow(x, low)
  {
    if low == 0 {
      PowBelowOne(x, high);
    } else {
      PowFalls(x, low - 1, high - 1);
      Grows(x, Pow(x, high - 1), Pow(x, low - 1));
    }
  }

  lemma Grows(x: real, a: real, b: real)
    requires x > 0.0 && a < b
    ensures x * a < x * b
  {
    Positive(x, b - a, x * (b - a));
  }

  lemma Reciprocal(y: real)
    requires 0.0 < y
    ensures 1.0 / y > 0.0 && (y < 1.0 ==> 1.0 / y > 1.0)
  {
    var z := 1.0 / y;
    assert z * y == 1.0;
    if z <= 0.0 {
      NonNegative(-z, y, -z * y);
      assert false;
    }
    if y < 1.0 && z <= 1.0 {
      NonNegative(1.0 - z, y, (1.0 - z) * y);
      assert false;
    }
  }

  /** A power of a number strictly between 0 and 1, with any integer exponent. */
  lemma PowiSign(x: real, e: int)
    requires 0.0 < x < 1.0
    ensures Powi(x, e).Some? && Powi(x, e).value > 0.0
    ensures e < 0 ==> Powi(x, e).value > 1.0 && Powi(x, e).value * Pow(x, -e) == 1.0
    ensures e >= 0 ==> Powi(x, e) == Some(Pow(x, e))
  {
    PowBelowOne(x, if e < 0 then -e else e);
    if e < 0 {
      Reciprocal(Pow(x, -e));
    }
  }

  lemma LastNativeTerm(p: real, n: u64)
    requires 0.0 < p < 1.0
    ensures NativeTerm(p, n, n) == Powi(p, AsI32(n))
    ensures NativeSum(p, n, n) == Powi(p, AsI32(n))
  {
    assert Binom64(n, n) == 1;
    assert Pow(1.0 - p, 0) == 1.0 && AsI32(0) == 0;
    PowiSign(p, AsI32(n));
    hide Pow, Binom64, AsI32;
    NativeTermIs(p, n, n);
    hide NativeTerm;
    NativeSumIs(p, n, n);
    NativeEnd(p, n, n + 1);
  }

  lemma NativeTermSign(p: real, n: u64, i: u64)
    requires 0.0 < p < 1.0 && i <= n
    ensures NativeTerm(p, n, i).Some? && NativeTerm(p, n, i).value >= 0.0
  {
    hide Binom64, Powi, AsI32;
    PowiSign(p, AsI32(i));
    PowiSign(1.0 - p, AsI32(n - i));
    NativeTermIs(p, n, i);
    var a, b := Powi(p, AsI32(i)).value, Powi(1.0 - p, AsI32(n - i)).value;
    ScaleBelow(Binom64(n, i) as real, Binom64(n, i) as real, a, b);
  }

  /** No summand is negative, and the last one is p to the number of packets, as cast. */
  lemma {:induction false} SumAboveLast(p: real, n: u64, i: nat)
    requires 0.0 < p < 1.0 && i <= n
    ensures NativeSum(p, n, i).Some? && NativeSum(p, n, i).value >= Powi(p, AsI32(n)).value
    decreases n - i
  {
    hide AsI32, Powi, NativeTerm, NativeSum;
    PowiSign(p, AsI32(n));
    if i == n {
      LastNativeTerm(p, n);
    } else {
      SumAboveLast(p, n, i + 1);
      NativeTermSign(p, n, i);
      NativeSumIs(p, n, i);
    }
  }

  /** From 2^31 packets on the exponent of the last term is negative, and the result no probability. */
  lemma NativeAboveOne(k: u64, r: u64, p: real)
    requires k >= 1 && r >= 1 && 0.0 < p < 1.0 && I32_LIMIT <= k + r < TWO_32
    ensures NativeLoss(p, k, r).Some? && NativeLoss(p, k, r).value > 1.0
  {
    hide NativeSum;
    var n := k + r;
    assert Add64(k, r) == n && Add64(r, 1) == r + 1;
    SumAboveLast(p, n, r + 1);
    PowiSign(p, AsI32(n));
  }

  /** With the data in one chunk the sum is its last term, whatever wraps. */
  lemma NativeAlone(r: u64, p: real)
    requires r >= 1 && 0.0 < p < 1.0
    ensures NativeLoss(p, 1, r) == Powi(p, AsI32(Add64(1, r)))
  {
    hide NativeSum, AsI32;
    assert Add64(1, r) == Add64(r, 1);
    LastNativeTerm(p, Add64(1, r));
  }

  lemma CastIsSmaller(x: nat)
    ensures AsI32(x % U64) <= x && (AsI32(x % U64) == x <==> x < I32_LIMIT)
  {
  }

  lemma CopyProbability(data: seq<byte>, r: nat, p: real)
    requires r >= 1 && 0.0 <= p <= 1.0
    ensures FailureProbability(data, 1, r, p) == Pow(p, r + 1)
  {
    FormulaIsExact(data, 1, r, p);
    ChooseAll(r + 1);
    assert Pow(1.0 - p, 0) == 1.0;
    assert TailSum(p, r + 1, r + 1) == Term(p, r + 1, r + 1) + TailSum(p, r + 1, r + 2);
  }

  lemma NativeCopiesExactIff(data: seq<byte>, r: u64, p: real)
    requires r >= 1 && 0.0 < p < 1.0
    ensures NativeLoss(p, 1, r) == Some(FailureProbability(data, 1, r, p)) <==> r + 1 < I32_LIMIT
  {
    hide AsI32, FailureProbability, NativeLoss;
    NativeAlone(r, p);
    CopyProbability(data, r, p);
    CastIsSmaller(r + 1);
    var e := AsI32(Add64(1, r));
    PowiSign(p, e);
    if e < 0 {
      PowBelowOne(p, r + 1);
    } else if e < r + 1 {
      PowFalls(p, e, r + 1);
    }
  }

  lemma FailureAtMostOne(data: seq<byte>, k: nat, r: nat, p: real)
    requires k >= 1 && 0.0 <= p <= 1.0
    ensures FailureProbability(data, k, r, p) <= 1.0
  {
    var n := |Fec.Encode(data, k, r)|;
    MassIncludes(DecoderFails(data, k, r), lost => true, p, [], n);
    MassOfAll(p, [], n);
    assert Weight([], p) == 1.0;
  }

  /** For 0 < p < 1 the native formula is the decoder's failure probability exactly when r = 0, or fewer than 2^31
      packets are sent and k = 1, or r = 1 and k <= 66. */
  lemma NativeIsExactIff(data: seq<byte>, k: u64, r: u64, p: real)
    requires k >= 1 && 0.0 < p < 1.0 && (r == 0 || k == 1 || k + r < TWO_32)
    ensures NativeLoss(p, k, r) == Some(FailureProbability(data, k, r, p)) <==>
            r == 0 || (k + r < I32_LIMIT && (k == 1 || (r == 1 && k <= 66)))
  {
    hide NativeLoss, FailureProbability;
    if r == 0 || k + r < I32_LIMIT {
      NativeInside(data, k, r, p);
    } else if k == 1 {
      NativeCopiesExactIff(data, r, p);
    } else {
      NativeAboveOne(k, r, p);
      FailureAtMostOne(data, k, r, p);
    }
  }

  /** For 0 < p < 1 the result is a probability exactly when fewer than 2^31 packets are sent. */
  lemma NativeInUnitIff(k: u64, r: u64, p: real)
    requires k >= 1 && r >= 1 && 0.0 < p < 1.0 && k + r < TWO_32
    ensures NativeLoss(p, k, r).Some?
    ensures 0.0 <= NativeLoss(p, k, r).value <= 1.0 <==> k + r < I32_LIMIT
  {
    if k + r < I32_LIMIT {
      NativeIsLowerBound([], k, r, p);
    } else {
      NativeAboveOne(k, r, p);
    }
  }

  /** The two implementations give the same number exactly when r = 0, or exponents and coefficients all fit. */
  lemma ImplementationsAgreeIff(k: u64, r: u64, p: real)
    requires k >= 1 && 0.0 < p < 1.0 && (r == 0 || k + r < TWO_32)
    ensures NativeLoss(p, k, r) == Some(EffectiveLoss(p, k, r)) <==>
            r == 0 || (k + r < I32_LIMIT && Fits(k + r, r + 1))
  {
    hide Fits, NativeSum;
    if r > 0 {
      if k + r < I32_LIMIT {
        ImplementationsAgreeSmall(k, r, p);
      } else {
        NativeAboveOne(k, r, p);
        EffectiveLossInUnit(p, k, r);
      }
    }
  }

  /** Of the selectable profiles, the native formula is right for all but the one chosen for ordinary traffic at a loss
      rate of 20% or more. */
  lemma SelectedProfileNative(lossRate: real, isEmergency: bool, maxOverhead: real, data: seq<byte>, p: real)
    requires 0.0 < p < 1.0
    ensures var profile := SelectProfile(lossRate, isEmergency, maxOverhead);
            NativeLoss(p, profile.K(), profile.R()) == Some(FailureProbability(data, profile.K(), profile.R(), p))
            <==> isEmergency || lossRate < 0.20
  {
    hide NativeLoss, FailureProbability;
    var profile := SelectProfile(lossRate, isEmergency, maxOverhead);
    NativeIsExactIff(data, profile.K(), profile.R(), p);
  }
}
