/** The decoder's true failure probability in closed form: stripes fail independently. */
module FecExactLoss {
  import opened Arithmetic
  import opened Bytes
  import Fec
  import opened FecRecovery
  import opened FecLoss

  // ---------------------------------------------------------------- products

  function ProductOf(s: seq<real>): real {
    if s == [] then 1.0 else ProductOf(s[..|s| - 1]) * s[|s| - 1]
  }

  lemma ProductSnoc(s: seq<real>)
    requires s != []
    ensures ProductOf(s) == ProductOf(s[..|s| - 1]) * s[|s| - 1]
  {
  }

  lemma LinearLast(h: real, a: real, x: real, b: real, y: real)
    ensures h * (a * x + b * y) == a * (h * x) + b * (h * y)
  {
  }

  lemma LinearFront(a: real, x: real, b: real, y: real, t: real)
    ensures (a * x + b * y) * t == a * (x * t) + b * (y * t)
  {
  }

  predicate SameBut(s: seq<real>, t: seq<real>, j: nat) {
    |s| == |t| && forall m :: 0 <= m < |s| && m != j ==> s[m] == t[m]
  }

  lemma SameFront(s: seq<real>, t: seq<real>, j: nat)
    requires s != [] && SameBut(s, t, j)
    ensures SameBut(s[..|s| - 1], t[..|s| - 1], j)
    ensures |s| == |t| && (if j >= |s| - 1 then s[..|s| - 1] == t[..|s| - 1] else s[|s| - 1] == t[|s| - 1])
  {
  }

  /** A product is linear in each factor. */
  lemma {:induction false} ProductLinear(s: seq<real>, t: seq<real>, f: seq<real>, j: nat, a: real, b: real)
    requires j < |s| && SameBut(s, t, j) && SameBut(s, f, j) && s[j] == a * t[j] + b * f[j]
    ensures ProductOf(s) == a * ProductOf(t) + b * ProductOf(f)
  {
    hide ProductOf, SameBut;
    var n := |s| - 1;
    SameFront(s, t, j);
    SameFront(s, f, j);
    ProductSnoc(s);
    ProductSnoc(t);
    ProductSnoc(f);
    if j == n {
      LinearLast(ProductOf(s[..n]), a, t[n], b, f[n]);
    } else {
      ProductLinear(s[..n], t[..n], f[..n], j, a, b);
      LinearFront(a, ProductOf(t[..n]), b, ProductOf(f[..n]), s[n]);
    }
  }

  lemma {:induction false} ProductOfBits(s: seq<real>)
    requires forall j :: 0 <= j < |s| ==> s[j] == 0.0 || s[j] == 1.0
    ensures ProductOf(s) == if forall j :: 0 <= j < |s| ==> s[j] == 1.0 then 1.0 else 0.0
  {
    if s != [] {
      ProductOfBits(s[..|s| - 1]);
    }
  }

  lemma {:induction false} ProductWithZero(s: seq<real>, j: nat)
    requires j < |s| && s[j] == 0.0
    ensures ProductOf(s) == 0.0
  {
    if j < |s| - 1 {
      ProductWithZero(s[..|s| - 1], j);
    }
  }

  // ---------------------------------------------------------------- one stripe

  /** How many data packets of stripe `j` the prefix has lost. */
  function LostIn(prefix: seq<bool>, k: nat, r: nat, j: nat): nat
    requires r > 0
  {
    if prefix == [] then 0
    else
      var i := |prefix| - 1;
      LostIn(prefix[..i], k, r, j) + if i < k && i % r == j && prefix[i] then 1 else 0
  }

  /** How many data packets of stripe `j` stand from index `i` on. */
  function OpenIn(i: nat, k: nat, r: nat, j: nat): nat
    requires r > 0
    decreases k - i
  {
    if i >= k then 0 else OpenIn(i + 1, k, r, j) + if i % r == j then 1 else 0
  }

  /** The chance of a stripe with `c` data packets lost, `m` still open, and its parity still open. */
  function ChanceOpen(c: nat, m: nat, p: real): real {
    if c == 0 then Pow(1.0 - p, m) * (1.0 + m as real * p)
    else if c == 1 then Pow(1.0 - p, m + 1)
    else 0.0
  }

  /** The chance that stripe `j` is recoverable, given how the packets of the prefix fared. */
  function Chance(prefix: seq<bool>, k: nat, r: nat, j: nat, p: real): real
    requires r > 0
  {
    var c := LostIn(prefix, k, r, j);
    if |prefix| <= k + j then ChanceOpen(c, OpenIn(|prefix|, k, r, j), p)
    else if c == 0 || (c == 1 && !prefix[k + j]) then 1.0 else 0.0
  }

  lemma StepOnData(m: nat, p: real, t: real)
    requires m > 0 && t == Pow(1.0 - p, m - 1)
    ensures ChanceOpen(0, m, p) == p * ChanceOpen(1, m - 1, p) + (1.0 - p) * ChanceOpen(0, m - 1, p)
    ensures ChanceOpen(1, m, p) == (1.0 - p) * ChanceOpen(1, m - 1, p)
  {
    var q, x := 1.0 - p, (m - 1) as real;
    assert Pow(q, m) == q * t && Pow(q, m + 1) == q * (q * t);
    assert m as real == x + 1.0;
    calc {
      p * (q * t) + q * (t * (1.0 + x * p));
      { Spread(p, q, t, x); }
      (q * t) * (1.0 + (x + 1.0) * p);
    }
  }

  lemma Spread(p: real, q: real, t: real, x: real)
    ensures p * (q * t) + q * (t * (1.0 + x * p)) == (q * t) * (1.0 + (x + 1.0) * p)
  {
    var u, v := q * t, 1.0 + x * p;
    assert q * (t * v) == u * v;
    assert (x + 1.0) * p == x * p + p;
    assert u * (v + p) == u * v + u * p;
  }

  lemma LostInSnoc(prefix: seq<bool>, b: bool, k: nat, r: nat, j: nat)
    requires r > 0
    ensures var i := |prefix|;
            LostIn(prefix + [b], k, r, j) == LostIn(prefix, k, r, j) + if i < k && i % r == j && b then 1 else 0
  {
    assert (prefix + [b])[..|prefix|] == prefix;
  }

  lemma OtherStripeKeeps(prefix: seq<bool>, b: bool, k: nat, r: nat, j: nat, p: real)
    requires r > 0 && j < r && |prefix| < k + r && j != StripeOf(k, r, |prefix|)
    ensures Chance(prefix + [b], k, r, j, p) == Chance(prefix, k, r, j, p)
  {
    LostInSnoc(prefix, b, k, r, j);
  }

  lemma OwnStripeSplits(prefix: seq<bool>, k: nat, r: nat, p: real)
    requires r > 0 && |prefix| < k + r
    ensures var j := StripeOf(k, r, |prefix|);
            Chance(prefix, k, r, j, p) ==
            p * Chance(prefix + [true], k, r, j, p) + (1.0 - p) * Chance(prefix + [false], k, r, j, p)
  {
    var i, j := |prefix|, StripeOf(k, r, |prefix|);
    LostInSnoc(prefix, true, k, r, j);
    LostInSnoc(prefix, false, k, r, j);
    var c := LostIn(prefix, k, r, j);
    if i < k {
      var m := OpenIn(i, k, r, j);
      StepOnData(m, p, Pow(1.0 - p, m - 1));
      SplitOnData(c, m, p);
    } else {
      assert Pow(1.0 - p, 1) == (1.0 - p) * Pow(1.0 - p, 0);
    }
  }

  lemma SplitOnData(c: nat, m: nat, p: real)
    requires m > 0
    ensures ChanceOpen(c, m, p) == p * ChanceOpen(c + 1, m - 1, p) + (1.0 - p) * ChanceOpen(c, m - 1, p)
  {
    StepOnData(m, p, Pow(1.0 - p, m - 1));
  }

  ghost function LostOf(prefix: seq<bool>, k: nat, r: nat, j: nat): set<nat>
    requires r > 0
  {
    set i: nat | i < |prefix| && i < k && i % r == j && prefix[i]
  }

  lemma LostOfSnoc(prefix: seq<bool>, k: nat, r: nat, j: nat)
    requires r > 0 && prefix != []
    ensures var i := |prefix| - 1;
            i !in LostOf(prefix[..i], k, r, j) &&
            LostOf(prefix, k, r, j) ==
            LostOf(prefix[..i], k, r, j) + if i < k && i % r == j && prefix[i] then {i} else {}
  {
  }

  lemma {:induction false} LostInCounts(prefix: seq<bool>, k: nat, r: nat, j: nat)
    requires r > 0
    ensures LostIn(prefix, k, r, j) == |LostOf(prefix, k, r, j)|
  {
    if prefix == [] {
      assert LostOf(prefix, k, r, j) == {};
    } else {
      hide LostOf;
      LostInCounts(prefix[..|prefix| - 1], k, r, j);
      LostOfSnoc(prefix, k, r, j);
    }
  }

  lemma OneElement(s: set<nat>)
    ensures |s| == 1 <==> exists x :: x in s && s == {x}
  {
    if |s| == 1 {
      var x :| x in s;
      assert |s - {x}| == 0;
      assert s == {x};
    }
  }

  /** The losses of a stripe number one exactly when it has an only loss. */
  lemma OneLost(lost: seq<bool>, k: nat, r: nat, j: nat)
    requires r > 0 && |lost| == k + r
    ensures |LostOf(lost, k, r, j)| == 1 <==> exists i :: OnlyLoss(lost, k, r, j, i)
  {
    var s := LostOf(lost, k, r, j);
    OneElement(s);
    if x :| x in s && s == {x} {
      forall m | 0 <= m < k && m % r == j && m != x
        ensures !lost[m]
      {
        assert m !in s;
      }
      assert OnlyLoss(lost, k, r, j, x);
    }
    if i: nat :| OnlyLoss(lost, k, r, j, i) {
      assert s == {i};
    }
  }

  /** With every packet's fate known, the chance is 1 or 0. */
  lemma ChanceKnown(lost: seq<bool>, k: nat, r: nat, j: nat, p: real)
    requires r > 0 && j < r && |lost| == k + r
    ensures Chance(lost, k, r, j, p) == if StripeRecoverable(lost, k, r, j) then 1.0 else 0.0
  {
    LostInCounts(lost, k, r, j);
    OneLost(lost, k, r, j);
    NoneLost(lost, k, r, j);
  }

  lemma NoneLost(lost: seq<bool>, k: nat, r: nat, j: nat)
    requires r > 0 && |lost| == k + r
    ensures |LostOf(lost, k, r, j)| == 0 <==> forall i :: 0 <= i < k && i % r == j ==> !lost[i]
  {
    if i :| 0 <= i < k && i % r == j && lost[i] {
      assert i in LostOf(lost, k, r, j);
    } else {
      assert LostOf(lost, k, r, j) == {};
    }
  }

  // ---------------------------------------------------------------- all stripes

  function Chances(prefix: seq<bool>, k: nat, r: nat, p: real): (s: seq<real>)
    requires r > 0
    ensures |s| == r && forall j :: 0 <= j < r ==> s[j] == Chance(prefix, k, r, j, p)
  {
    seq(r, j requires 0 <= j < r => Chance(prefix, k, r, j, p))
  }

  lemma ChancesSplit(prefix: seq<bool>, k: nat, r: nat, p: real)
    requires r > 0 && |prefix| < k + r
    ensures ProductOf(Chances(prefix, k, r, p)) ==
            p * ProductOf(Chances(prefix + [true], k, r, p)) + (1.0 - p) * ProductOf(Chances(prefix + [false], k, r, p))
  {
    hide ProductOf, Chance;
    var s, t, f := Chances(prefix, k, r, p), Chances(prefix + [true], k, r, p), Chances(prefix + [false], k, r, p);
    var j := StripeOf(k, r, |prefix|);
    forall m | 0 <= m < r && m != j
      ensures t[m] == s[m] && f[m] == s[m]
    {
      OtherStripeKeeps(prefix, true, k, r, m, p);
      OtherStripeKeeps(prefix, false, k, r, m, p);
    }
    OwnStripeSplits(prefix, k, r, p);
    ProductLinear(s, t, f, j, p, 1.0 - p);
  }

  ghost function Recovers(k: nat, r: nat): Event
    requires r > 0
  {
    lost => |lost| == k + r && Recoverable(lost, k, r)
  }

  lemma RecoversKnown(lost: seq<bool>, k: nat, r: nat, p: real)
    requires r > 0 && |lost| == k + r
    ensures ProductOf(Chances(lost, k, r, p)) == if Recovers(k, r)(lost) then 1.0 else 0.0
  {
    var s := Chances(lost, k, r, p);
    forall j | 0 <= j < r
      ensures s[j] == if StripeRecoverable(lost, k, r, j) then 1.0 else 0.0
    {
      ChanceKnown(lost, k, r, j, p);
    }
    ProductOfBits(s);
  }

  lemma Combine(w: real, p: real, wt: real, wf: real, ct: real, cf: real, c: real)
    requires wt == p * w && wf == (1.0 - p) * w && c == p * ct + (1.0 - p) * cf
    ensures wt * ct + wf * cf == w * c
  {
    assert (p * w) * ct == w * (p * ct);
    assert ((1.0 - p) * w) * cf == w * ((1.0 - p) * cf);
  }

  /** What the prefix weighs times its stripes' chances. */
  function Expected(prefix: seq<bool>, k: nat, r: nat, p: real): real
    requires r > 0
  {
    Weight(prefix, p) * ProductOf(Chances(prefix, k, r, p))
  }

  lemma ExpectedSplits(prefix: seq<bool>, k: nat, r: nat, p: real)
    requires r > 0 && |prefix| < k + r
    ensures Expected(prefix, k, r, p) == Expected(prefix + [true], k, r, p) + Expected(prefix + [false], k, r, p)
  {
    hide ProductOf, Weight, Chances;
    WeightSnoc(prefix, p);
    ChancesSplit(prefix, k, r, p);
    Combine(Weight(prefix, p), p, Weight(prefix + [true], p), Weight(prefix + [false], p),
            ProductOf(Chances(prefix + [true], k, r, p)), ProductOf(Chances(prefix + [false], k, r, p)),
            ProductOf(Chances(prefix, k, r, p)));
  }

  lemma ExpectedKnown(lost: seq<bool>, k: nat, r: nat, p: real)
    requires r > 0 && |lost| == k + r
    ensures Expected(lost, k, r, p) == if Recovers(k, r)(lost) then Weight(lost, p) else 0.0
  {
    RecoversKnown(lost, k, r, p);
  }

  /** The recoverable patterns that extend a prefix weigh as much as the prefix times its stripes' chances. */
  lemma {:induction false} RecoverableMass(prefix: seq<bool>, k: nat, r: nat, p: real)
    requires r > 0 && |prefix| <= k + r
    ensures MassFrom(Recovers(k, r), p, prefix, k + r) == Expected(prefix, k, r, p)
    decreases k + r - |prefix|
  {
    if |prefix| == k + r {
      ExpectedKnown(prefix, k, r, p);
    } else {
      RecoverableMass(prefix + [true], k, r, p);
      RecoverableMass(prefix + [false], k, r, p);
      ExpectedSplits(prefix, k, r, p);
    }
  }

  // ---------------------------------------------------------------- the closed form

  /** A stripe of n data packets survives when none is lost, or one is and the parity arrives. */
  function StripeSurvival(n: nat, p: real): real {
    Pow(1.0 - p, n) * (1.0 + n as real * p)
  }

  function StripeSurvivals(k: nat, r: nat, p: real): (s: seq<real>)
    requires r > 0
    ensures |s| == r && forall j :: 0 <= j < r ==> s[j] == StripeSurvival(|Fec.Stripe(k, r, j)|, p)
  {
    seq(r, j requires 0 <= j < r => StripeSurvival(|Fec.Stripe(k, r, j)|, p))
  }

  lemma {:induction false} OpenIsStripe(i: nat, k: nat, r: nat, j: nat)
    requires r > 0 && i <= k
    ensures |Fec.Stripe(i, r, j)| + OpenIn(i, k, r, j) == |Fec.Stripe(k, r, j)|
    decreases k - i
  {
    if i < k {
      OpenIsStripe(i + 1, k, r, j);
    }
  }

  lemma StripeAtStart(k: nat, r: nat, j: nat, p: real)
    requires r >= 1
    ensures Chance([], k, r, j, p) == StripeSurvival(|Fec.Stripe(k, r, j)|, p)
  {
    hide Pow, Fec.Stripe;
    OpenIsStripe(0, k, r, j);
    NoStripeYet(r, j);
    assert OpenIn(0, k, r, j) == |Fec.Stripe(k, r, j)|;
  }

  lemma NoStripeYet(r: nat, j: nat)
    requires r >= 1
    ensures |Fec.Stripe(0, r, j)| == 0
  {
  }

  lemma ChancesAtStart(k: nat, r: nat, p: real)
    requires r >= 1
    ensures Chances([], k, r, p) == StripeSurvivals(k, r, p)
  {
    hide *;
    forall j | 0 <= j < r
      ensures Chance([], k, r, j, p) == StripeSurvival(|Fec.Stripe(k, r, j)|, p)
    {
      StripeAtStart(k, r, j, p);
    }
  }

  lemma WeightOfNothing(p: real)
    ensures Weight([], p) == 1.0
  {
  }

  lemma RecoveryProbability(k: nat, r: nat, p: real)
    requires r >= 1
    ensures Probability(Recovers(k, r), p, k + r) == ProductOf(StripeSurvivals(k, r, p))
  {
    hide ProductOf, Weight, Chances, StripeSurvivals, MassFrom;
    RecoverableMass([], k, r, p);
    ChancesAtStart(k, r, p);
    WeightOfNothing(p);
  }

  lemma FailureIsComplement(data: seq<byte>, k: nat, r: nat, p: real)
    requires k >= 2 && r >= 1
    ensures FailureProbability(data, k, r, p) == 1.0 - Probability(Recovers(k, r), p, k + r)
  {
    var n, fails, recovers := k + r, DecoderFails(data, k, r), Recovers(k, r);
    forall lost: seq<bool> | |lost| == n
      ensures fails(lost) == !recovers(lost)
    {
      RecoveryExact(data, k, r, lost);
    }
    MassSplits(lost => true, fails, recovers, p, [], n);
    MassOfAll(p, [], n);
    assert Weight([], p) == 1.0;
  }

  /** For all data, k >= 2, r >= 1 and p: the decoder fails with probability one minus the product, over the
      stripes, of (1 - p)^n (1 + n p) for a stripe of n data packets. */
  lemma FailureClosedForm(data: seq<byte>, k: nat, r: nat, p: real)
    requires k >= 2 && r >= 1
    ensures FailureProbability(data, k, r, p) == 1.0 - ProductOf(StripeSurvivals(k, r, p))
  {
    FailureIsComplement(data, k, r, p);
    RecoveryProbability(k, r, p);
  }

  lemma StripesOfTwo(p: real)
    ensures StripeSurvivals(2, 2, p) == [1.0 - p * p, 1.0 - p * p]
  {
    assert Fec.Stripe(1, 2, 0) == [0] && Fec.Stripe(1, 2, 1) == [];
    assert Fec.Stripe(2, 2, 0) == [0] && Fec.Stripe(2, 2, 1) == [1];
    PowersOf(1.0 - p);
    assert StripeSurvival(1, p) == (1.0 - p) * (1.0 + p) == 1.0 - p * p;
  }

  lemma ProductOfTwo(a: real, b: real)
    ensures ProductOf([a, b]) == a * b
  {
    assert [a, b][..1] == [a] && [a][..0] == [];
    assert ProductOf([a]) == a;
  }

  /** The BALANCED profile fails with probability 2 p^2 - p^4. */
  lemma BalancedFailure(data: seq<byte>, p: real)
    ensures FailureProbability(data, 2, 2, p) == p * p * (2.0 - p * p)
  {
    FailureClosedForm(data, 2, 2, p);
    StripesOfTwo(p);
    ProductOfTwo(1.0 - p * p, 1.0 - p * p);
    Square(p * p, 1.0 - p * p);
  }

  lemma Square(x: real, h: real)
    requires h == 1.0 - x
    ensures 1.0 - h * h == x * (2.0 - x)
  {
  }

  // ---------------------------------------------------------------- the formula at every loss rate

  lemma NothingLost(data: seq<byte>, k: nat, r: nat)
    requires k >= 2 && r >= 1
    ensures FailureProbability(data, k, r, 0.0) == 0.0
  {
    FailureClosedForm(data, k, r, 0.0);
    var s := StripeSurvivals(k, r, 0.0);
    forall j | 0 <= j < r
      ensures s[j] == 1.0
    {
      OneToThe(|Fec.Stripe(k, r, j)|);
    }
    ProductOfBits(s);
  }

  lemma {:induction false} OneToThe(n: nat)
    ensures Pow(1.0, n) == 1.0
  {
    if n > 0 {
      OneToThe(n - 1);
    }
  }

  lemma EverythingLost(data: seq<byte>, k: nat, r: nat)
    requires k >= 2 && r >= 1
    ensures FailureProbability(data, k, r, 1.0) == 1.0 == EffectiveLoss(1.0, k, r)
  {
    FailureClosedForm(data, k, r, 1.0);
    assert 0 in Fec.Stripe(k, r, 0);
    var n := |Fec.Stripe(k, r, 0)|;
    assert Pow(0.0, n) == 0.0 * Pow(0.0, n - 1);
    ProductWithZero(StripeSurvivals(k, r, 1.0), 0);
    AllLostWeighsOne(k + r);
    EffectiveIsTail(1.0, k, r);
    AllLost(AllTrue(k + r));
    MassOfMember(AtLeast(r + 1), 1.0, [], AllTrue(k + r));
    EffectiveLossInUnit(1.0, k, r);
  }

  function AllTrue(n: nat): (s: seq<bool>)
    ensures |s| == n && forall i :: 0 <= i < n ==> s[i]
  {
    seq(n, _ => true)
  }

  lemma AllLostWeighsOne(n: nat)
    ensures Weight(AllTrue(n), 1.0) == 1.0
  {
    AllLost(AllTrue(n));
    OneToThe(n);
    assert Pow(0.0, 0) == 1.0;
  }

  /** For every loss rate the code accepts, the exact sum is the decoder's failure probability exactly when k = 1,
      r <= 1, nothing is lost, or everything is. */
  lemma FormulaIsExactAt(data: seq<byte>, k: nat, r: nat, p: real)
    requires k >= 1
    ensures EffectiveLoss(p, k, r) == FailureProbability(data, k, r, Clamp(p)) <==>
            k == 1 || r <= 1 || p <= 0.0 || p >= 1.0
  {
    if k == 1 || r <= 1 {
      FormulaIsExact(data, k, r, Clamp(p));
    } else if p <= 0.0 {
      NothingLost(data, k, r);
      EffectiveLossInUnit(p, k, r);
      FormulaIsLowerBound(data, k, r, p);
    } else if p >= 1.0 {
      EverythingLost(data, k, r);
    } else {
      FormulaIsExactIff(data, k, r, p);
    }
  }
}
