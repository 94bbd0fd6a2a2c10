/** What one more parity packet does to the decoder's true failure probability. */
module FecMoreParity {
  import opened Arithmetic
  import opened Bytes
  import Fec
  import opened FecLoss
  import opened FecExactLoss

  // ---------------------------------------------------------------- how large the stripes are

  lemma NextIndex(n: nat, r: nat)
    requires r > 0
    ensures n % r + 1 < r ==> (n + 1) / r == n / r && (n + 1) % r == n % r + 1
    ensures n % r + 1 == r ==> (n + 1) / r == n / r + 1 && (n + 1) % r == 0
  {
    var q, m := n / r, n % r;
    assert n == q * r + m;
    if m + 1 < r {
      DivUnique(n + 1, r, q, m + 1);
    } else {
      Distribute(q, 1, r);
      Quotient(n, r);
      DivUnique(n + 1, r, q + 1, 0);
    }
  }

  /** The stripes are balanced: the first n % r of them hold one packet more than the others. */
  lemma {:induction false} StripeSize(n: nat, r: nat, j: nat)
    requires r > 0 && j < r
    ensures |Fec.Stripe(n, r, j)| == n / r + if j < n % r then 1 else 0
  {
    if n == 0 {
      NoStripeYet(r, j);
    } else {
      StripeNext(n - 1, r, j);
      hide Fec.Stripe;
      StripeSize(n - 1, r, j);
      NextIndex(n - 1, r);
    }
  }

  lemma StripeNext(n: nat, r: nat, j: nat)
    requires r > 0
    ensures |Fec.Stripe(n + 1, r, j)| == |Fec.Stripe(n, r, j)| + if n % r == j then 1 else 0
  {
  }

  lemma QuotientFalls(k: nat, r: nat)
    requires r > 0
    ensures 0 <= k / (r + 1) <= k / r
  {
    var a, b := k / (r + 1), k / r;
    Quotient(k, r + 1);
    Quotient(k, r);
    assert k == a * (r + 1) + k % (r + 1) && k == b * r + k % r;
    Distribute(r, 1, a);
    if a > b {
      Monotone(b + 1, a, r);
      Distribute(b, 1, r);
      assert false;
    }
  }

  // ---------------------------------------------------------------- one data packet more

  /** How much a stripe of m packets gains, apart from the factor 1 - p, with one packet more. */
  function Growth(m: nat, p: real): real
    requires p >= 0.0
  {
    var x := m as real;
    NonNegative(x, p, x * p);
    (1.0 + (x + 1.0) * p) / (1.0 + x * p)
  }

  lemma GrowthFalls(a: nat, b: nat, p: real)
    requires b <= a && p >= 0.0
    ensures 0.0 <= Growth(a, p) <= Growth(b, p)
  {
    var x, y := a as real, b as real;
    NonNegative(x, p, x * p);
    NonNegative(y, p, y * p);
    Fractions(x * p, y * p, p);
    NonNegative(x - y, p, x * p - y * p);
    assert (x + 1.0) * p == x * p + p && (y + 1.0) * p == y * p + p;
  }

  lemma Fractions(s: real, t: real, p: real)
    requires s >= 0.0 && t >= 0.0 && p >= 0.0
    ensures 0.0 <= (1.0 + s + p) / (1.0 + s)
    ensures t <= s ==> (1.0 + s + p) / (1.0 + s) <= (1.0 + t + p) / (1.0 + t)
  {
    var u, v := (1.0 + s + p) / (1.0 + s), (1.0 + t + p) / (1.0 + t);
    assert u * (1.0 + s) == 1.0 + s + p && v * (1.0 + t) == 1.0 + t + p;
    var g, h := u - 1.0, v - 1.0;
    assert g * (1.0 + s) == p && h * (1.0 + t) == p;
    if g < 0.0 {
      Positive(-g, 1.0 + s, -p);
      assert false;
    }
    if t <= s && g > h {
      NonNegative(g, s - t, g * (s - t));
      Positive(g - h, 1.0 + t, (g - h) * (1.0 + t));
      assert false;
    }
  }

  lemma SurvivalGrows(m: nat, p: real)
    requires 0.0 <= p
    ensures StripeSurvival(m + 1, p) == (1.0 - p) * Growth(m, p) * StripeSurvival(m, p)
  {
    var q, x := 1.0 - p, m as real;
    NonNegative(x, p, x * p);
    var d, e, t := 1.0 + x * p, 1.0 + (x + 1.0) * p, Pow(q, m);
    assert (m + 1) as real == x + 1.0;
    assert Pow(q, m + 1) == q * t;
    hide Pow;
    var g := e / d;
    assert g * d == e;
    Rearrange(q, g, t, d, e);
  }

  lemma Rearrange(q: real, g: real, t: real, d: real, e: real)
    requires g * d == e
    ensures (q * t) * e == q * g * (t * d)
  {
  }

  lemma SurvivalsGrow(k: nat, r: nat, p: real)
    requires r >= 1 && p >= 0.0
    ensures ProductOf(StripeSurvivals(k + 1, r, p)) ==
            (1.0 - p) * Growth(k / r, p) * ProductOf(StripeSurvivals(k, r, p))
  {
    hide ProductOf, Growth, StripeSurvival, Fec.Stripe;
    var s, t, j := StripeSurvivals(k + 1, r, p), StripeSurvivals(k, r, p), k % r;
    forall m | 0 <= m < r && m != j
      ensures s[m] == t[m]
    {
      StripeNext(k, r, m);
    }
    StripeNext(k, r, j);
    StripeSize(k, r, j);
    SurvivalGrows(k / r, p);
    var a := (1.0 - p) * Growth(k / r, p);
    assert s[j] == a * t[j] + 0.0 * t[j];
    ProductLinear(s, t, t, j, a, 0.0);
  }

  lemma NoDataSurvives(r: nat, p: real)
    requires r >= 1
    ensures ProductOf(StripeSurvivals(0, r, p)) == 1.0
  {
    var s := StripeSurvivals(0, r, p);
    forall j | 0 <= j < r
      ensures s[j] == 1.0
    {
      NoStripeYet(r, j);
      assert StripeSurvival(0, p) == 1.0;
    }
    ProductOfBits(s);
  }

  lemma InOrder(q: real, g: real, h: real, x: real, y: real)
    requires 0.0 <= q && 0.0 <= g <= h && 0.0 <= x <= y
    ensures 0.0 <= q * g * x <= q * h * y
  {
    NonNegative(g, x, g * x);
    NonNegative(h - g, x, (h - g) * x);
    NonNegative(h, y - x, h * (y - x));
    assert (h - g) * x == h * x - g * x && h * (y - x) == h * y - h * x;
    NonNegative(q, g * x, q * (g * x));
    NonNegative(q, h * y - g * x, q * (h * y - g * x));
    Regroup(q, g, x);
    Regroup(q, h, y);
  }

  /** Spreading the data over one stripe more makes its survival no less likely. */
  lemma {:induction false} MoreStripesSurvive(k: nat, r: nat, p: real)
    requires r >= 1 && 0.0 <= p <= 1.0
    ensures 0.0 <= ProductOf(StripeSurvivals(k, r, p)) <= ProductOf(StripeSurvivals(k, r + 1, p))
  {
    hide ProductOf, StripeSurvivals, Growth;
    if k == 0 {
      NoDataSurvives(r, p);
      NoDataSurvives(r + 1, p);
    } else {
      MoreStripesSurvive(k - 1, r, p);
      SurvivalsGrow(k - 1, r, p);
      SurvivalsGrow(k - 1, r + 1, p);
      QuotientFalls(k - 1, r);
      GrowthFalls((k - 1) / r, (k - 1) / (r + 1), p);
      InOrder(1.0 - p, Growth((k - 1) / r, p), Growth((k - 1) / (r + 1), p),
              ProductOf(StripeSurvivals(k - 1, r, p)), ProductOf(StripeSurvivals(k - 1, r + 1, p)));
    }
  }

  /** One more parity packet, after the first, never makes the decoder fail more often. */
  lemma FailureNeverRises(data: seq<byte>, k: nat, r: nat, p: real)
    requires k >= 1 && r >= 1 && 0.0 <= p <= 1.0
    ensures FailureProbability(data, k, r + 1, p) <= FailureProbability(data, k, r, p)
  {
    if k == 1 {
      FormulaIsExact(data, 1, r, p);
      FormulaIsExact(data, 1, r + 1, p);
      MoreParityHelps(p, 1, r);
    } else {
      FailureClosedForm(data, k, r, p);
      FailureClosedForm(data, k, r + 1, p);
      MoreStripesSurvive(k, r, p);
    }
  }

  /** The first one does so at every loss rate exactly when the data travels whole. */
  lemma FirstParityNeverHurtsIff(data: seq<byte>, k: nat)
    requires k >= 1
    ensures (forall p :: 0.0 <= p <= 1.0 ==> FailureProbability(data, k, 1, p) <= FailureProbability(data, k, 0, p))
            <==> k == 1
  {
    FirstParityHelpsIff(k);
    forall p | 0.0 <= p <= 1.0
      ensures FailureProbability(data, k, 1, p) == EffectiveLoss(p, k, 1)
      ensures FailureProbability(data, k, 0, p) == EffectiveLoss(p, k, 0)
    {
      FormulaIsExact(data, k, 0, p);
      FormulaIsExact(data, k, 1, p);
    }
  }
}
