/** The closed formula for the loss left after error correction, summed with unbounded coefficients as the second
    implementation does, compared with the probability, over all loss patterns, that the decoder really returns
    nothing. Arithmetic is over the reals. */
module FecLoss {
  import opened Arithmetic
  import opened Wrappers
  import opened Bytes
  import opened Binomial
  import Fec
  import opened FecRecovery

  // ---------------------------------------------------------------- the formula with exact coefficients

  function Clamp(p: real): real {
    if p < 0.0 then 0.0 else if p > 1.0 then 1.0 else p
  }

  /** One term of the binomial tail. */
  function Term(p: real, n: nat, i: nat): real
    requires i <= n
  {
    Choose(n, i) as real * Pow(p, i) * Pow(1.0 - p, n - i)
  }

  function TailSum(p: real, n: nat, i: nat): real
    decreases n - i
  {
    if i > n then 0.0 else Term(p, n, i) + TailSum(p, n, i + 1)
  }

  function EffectiveLoss(p: real, k: nat, r: nat): real {
    if r == 0 then Clamp(p) else TailSum(Clamp(p), k + r, r + 1)
  }

  // ---------------------------------------------------------------- probability over loss patterns

  /** Each packet is lost independently with probability `p`. */
  function Weight(lost: seq<bool>, p: real): real {
    CountTrueAtMost(lost);
    Pow(p, CountTrue(lost)) * Pow(1.0 - p, |lost| - CountTrue(lost))
  }

  lemma {:induction false} CountTrueAtMost(lost: seq<bool>)
    ensures CountTrue(lost) <= |lost|
  {
    if lost != [] {
      CountTrueAtMost(lost[..|lost| - 1]);
    }
  }

  type Event = seq<bool> -> bool

  /** The summed weight of the patterns of length `n` that extend `prefix` and lie in the event. */
  ghost function MassFrom(event: Event, p: real, prefix: seq<bool>, n: nat): real
    requires |prefix| <= n
    decreases n - |prefix|
  {
    if |prefix| == n then (if event(prefix) then Weight(prefix, p) else 0.0)
    else MassFrom(event, p, prefix + [true], n) + MassFrom(event, p, prefix + [false], n)
  }

  ghost function Probability(event: Event, p: real, n: nat): real {
    MassFrom(event, p, [], n)
  }

  /** The probability that `data`, sent with (k, r), is not given back. */
  ghost function FailureProbability(data: seq<byte>, k: nat, r: nat, p: real): real
    requires k > 0
  {
    Probability(DecoderFails(data, k, r), p, |Fec.Encode(data, k, r)|)
  }

  ghost function DecoderFails(data: seq<byte>, k: nat, r: nat): Event
    requires k > 0
  {
    lost => |lost| == |Fec.Encode(data, k, r)| && Transmit(data, k, r, lost) == None
  }

  // ---------------------------------------------------------------- weights

  lemma {:induction false} PowSign(x: real, n: nat)
    requires x >= 0.0
    ensures Pow(x, n) >= 0.0 && (x > 0.0 ==> Pow(x, n) > 0.0)
  {
    if n > 0 {
      PowSign(x, n - 1);
    }
  }

  lemma NonNegative(a: real, b: real, c: real)
    requires a >= 0.0 && b >= 0.0 && c == a * b
    ensures c >= 0.0
  {
  }

  lemma Positive(a: real, b: real, c: real)
    requires a > 0.0 && b > 0.0 && c == a * b
    ensures c > 0.0
  {
  }

  lemma WeightSign(lost: seq<bool>, p: real)
    requires 0.0 <= p <= 1.0
    ensures Weight(lost, p) >= 0.0 && (0.0 < p < 1.0 ==> Weight(lost, p) > 0.0)
  {
    CountTrueAtMost(lost);
    PowSign(p, CountTrue(lost));
    PowSign(1.0 - p, |lost| - CountTrue(lost));
    var a, b := Pow(p, CountTrue(lost)), Pow(1.0 - p, |lost| - CountTrue(lost));
    NonNegative(a, b, Weight(lost, p));
    if 0.0 < p < 1.0 {
      Positive(a, b, Weight(lost, p));
    }
  }

  lemma CountTrueSnoc(lost: seq<bool>, b: bool)
    ensures CountTrue(lost + [b]) == CountTrue(lost) + if b then 1 else 0
  {
    assert (lost + [b])[..|lost|] == lost;
  }

  lemma WeightSnoc(lost: seq<bool>, p: real)
    ensures Weight(lost + [true], p) == p * Weight(lost, p)
    ensures Weight(lost + [false], p) == (1.0 - p) * Weight(lost, p)
  {
    CountTrueSnoc(lost, true);
    CountTrueSnoc(lost, false);
    CountTrueAtMost(lost);
    var a, b := Pow(p, CountTrue(lost)), Pow(1.0 - p, |lost| - CountTrue(lost));
    Regroup(p, a, b);
    Regroup(1.0 - p, b, a);
  }

  lemma Regroup(x: real, a: real, b: real)
    ensures (x * a) * b == x * (a * b) && b * (x * a) == x * (b * a) && a * b == b * a
  {
  }

  // ---------------------------------------------------------------- laws of the mass

  /** An event split into two disjoint ones. */
  ghost predicate Splits(event: Event, left: Event, right: Event, n: nat) {
    forall lost :: |lost| == n ==> event(lost) == (left(lost) || right(lost)) && !(left(lost) && right(lost))
  }

  lemma {:induction false} MassSplits(event: Event, left: Event, right: Event, p: real, prefix: seq<bool>, n: nat)
    requires |prefix| <= n && Splits(event, left, right, n)
    ensures MassFrom(event, p, prefix, n) == MassFrom(left, p, prefix, n) + MassFrom(right, p, prefix, n)
    decreases n - |prefix|
  {
    if |prefix| < n {
      MassSplits(event, left, right, p, prefix + [true], n);
      MassSplits(event, left, right, p, prefix + [false], n);
    }
  }

  lemma {:induction false} MassIncludes(small: Event, large: Event, p: real, prefix: seq<bool>, n: nat)
    requires |prefix| <= n && 0.0 <= p <= 1.0
    requires forall lost :: |lost| == n && small(lost) ==> large(lost)
    ensures 0.0 <= MassFrom(small, p, prefix, n) <= MassFrom(large, p, prefix, n)
    decreases n - |prefix|
  {
    if |prefix| < n {
      MassIncludes(small, large, p, prefix + [true], n);
      MassIncludes(small, large, p, prefix + [false], n);
    } else {
      WeightSign(prefix, p);
    }
  }

  lemma {:induction false} MassEqual(a: Event, b: Event, p: real, prefix: seq<bool>, n: nat)
    requires |prefix| <= n
    requires forall lost :: |lost| == n ==> a(lost) == b(lost)
    ensures MassFrom(a, p, prefix, n) == MassFrom(b, p, prefix, n)
    decreases n - |prefix|
  {
    if |prefix| < n {
      MassEqual(a, b, p, prefix + [true], n);
      MassEqual(a, b, p, prefix + [false], n);
    }
  }

  lemma {:induction false} MassOfAll(p: real, prefix: seq<bool>, n: nat)
    requires |prefix| <= n
    ensures MassFrom(lost => true, p, prefix, n) == Weight(prefix, p)
    decreases n - |prefix|
  {
    if |prefix| < n {
      MassOfAll(p, prefix + [true], n);
      MassOfAll(p, prefix + [false], n);
      WeightSnoc(prefix, p);
    }
  }

  lemma {:induction false} MassOfMember(event: Event, p: real, prefix: seq<bool>, member: seq<bool>)
    requires prefix <= member && event(member) && 0.0 <= p <= 1.0
    ensures MassFrom(event, p, prefix, |member|) >= Weight(member, p)
    decreases |member| - |prefix|
  {
    var n := |member|;
    if |prefix| < n {
      var b := member[|prefix|];
      assert member[..|prefix| + 1] == prefix + [b];
      MassOfMember(event, p, prefix + [b], member);
      MassIncludes(event, event, p, prefix + [!b], n);
    } else {
      assert prefix == member;
    }
  }

  // ---------------------------------------------------------------- the binomial tail

  ghost function Exactly(i: nat): Event {
    lost => CountTrue(lost) == i
  }

  ghost function AtLeast(i: nat): Event {
    lost => CountTrue(lost) >= i
  }

  /** The weight of any one pattern of length `n` with `i` losses. */
  function PatternWeight(p: real, n: nat, i: nat): real
    requires i <= n
  {
    Pow(p, i) * Pow(1.0 - p, n - i)
  }

  /** The mass of "`i` losses in all" when `c` are known and `m` packets are still open. */
  function OpenMass(m: nat, c: nat, i: nat, w: real): real {
    if i < c then 0.0 else Choose(m, i - c) as real * w
  }

  lemma OpenMassLeaf(c: nat, i: nat, w: real)
    ensures OpenMass(0, c, i, w) == if i == c then w else 0.0
  {
    if i > c {
      var none := Choose(0, i - c);
      assert none == 0 && none as real == 0.0;
    } else if i == c {
      var one := Choose(0, 0);
      assert one == 1 && one as real == 1.0;
    }
  }

  lemma OpenMassStep(m: nat, c: nat, i: nat, w: real)
    requires m > 0
    ensures OpenMass(m, c, i, w) == OpenMass(m - 1, c + 1, i, w) + OpenMass(m - 1, c, i, w)
  {
    if i > c {
      var a, b := Choose(m - 1, i - c - 1), Choose(m - 1, i - c);
      assert Choose(m, i - c) == a + b;
      assert (a + b) as real == a as real + b as real;
    }
  }

  lemma ExactWeight(lost: seq<bool>, p: real, i: nat)
    requires i <= |lost|
    ensures CountTrue(lost) == i ==> Weight(lost, p) == PatternWeight(p, |lost|, i)
  {
  }

  /** The patterns with `i` losses are counted by a binomial coefficient. */
  lemma {:induction false} MassExactly(i: nat, p: real, prefix: seq<bool>, n: nat, w: real)
    requires |prefix| <= n && i <= n && w == PatternWeight(p, n, i)
    ensures MassFrom(Exactly(i), p, prefix, n) == OpenMass(n - |prefix|, CountTrue(prefix), i, w)
    decreases n - |prefix|
  {
    hide OpenMass, PatternWeight;
    if |prefix| == n {
      assert Weight(prefix, p) == w || CountTrue(prefix) != i by { ExactWeight(prefix, p, i); }
      OpenMassLeaf(CountTrue(prefix), i, w);
    } else {
      MassExactly(i, p, prefix + [true], n, w);
      MassExactly(i, p, prefix + [false], n, w);
      CountTrueSnoc(prefix, true);
      CountTrueSnoc(prefix, false);
      OpenMassStep(n - |prefix|, CountTrue(prefix), i, w);
    }
  }

  lemma {:induction false} TailIsAtLeast(p: real, n: nat, i: nat)
    ensures TailSum(p, n, i) == Probability(AtLeast(i), p, n)
    decreases n + 1 - i
  {
    if i > n {
      forall lost: seq<bool> | |lost| == n
        ensures !AtLeast(i)(lost)
      {
        CountTrueAtMost(lost);
      }
      MassOfNone(AtLeast(i), p, [], n);
    } else {
      TailIsAtLeast(p, n, i + 1);
      MassSplits(AtLeast(i), Exactly(i), AtLeast(i + 1), p, [], n);
      TermIsExactly(p, n, i);
    }
  }

  lemma TermIsExactly(p: real, n: nat, i: nat)
    requires i <= n
    ensures Term(p, n, i) == Probability(Exactly(i), p, n)
  {
    TermIsOpenMass(p, n, i);
    MassExactly(i, p, [], n, PatternWeight(p, n, i));
  }

  lemma TermIsOpenMass(p: real, n: nat, i: nat)
    requires i <= n
    ensures Term(p, n, i) == OpenMass(n, 0, i, PatternWeight(p, n, i))
  {
    Associate(Choose(n, i) as real, Pow(p, i), Pow(1.0 - p, n - i));
  }

  lemma Associate(c: real, a: real, b: real)
    ensures c * a * b == c * (a * b)
  {
  }

  lemma {:induction false} MassOfNone(event: Event, p: real, prefix: seq<bool>, n: nat)
    requires |prefix| <= n
    requires forall lost :: |lost| == n ==> !event(lost)
    ensures MassFrom(event, p, prefix, n) == 0.0
    decreases n - |prefix|
  {
    if |prefix| < n {
      MassOfNone(event, p, prefix + [true], n);
      MassOfNone(event, p, prefix + [false], n);
    }
  }

  // ---------------------------------------------------------------- the formula as a probability

  /** The formula is the probability that more than `r` of the k + r packets are lost. */
  lemma EffectiveIsTail(p: real, k: nat, r: nat)
    requires r > 0 && 0.0 <= p <= 1.0
    ensures EffectiveLoss(p, k, r) == Probability(AtLeast(r + 1), p, k + r)
  {
    TailIsAtLeast(p, k + r, r + 1);
  }

  lemma EffectiveLossInUnit(p: real, k: nat, r: nat)
    ensures 0.0 <= EffectiveLoss(p, k, r) <= 1.0
  {
    if r > 0 {
      var c := Clamp(p);
      TailIsAtLeast(c, k + r, r + 1);
      MassIncludes(AtLeast(r + 1), lost => true, c, [], k + r);
      MassOfAll(c, [], k + r);
      assert Weight([], c) == 1.0;
    }
  }

  /** An event on n + 1 packets that forces another on the first n has no larger mass. */
  lemma {:induction false} MassDropsLast(longer: Event, event: Event, p: real, prefix: seq<bool>, n: nat)
    requires |prefix| <= n && 0.0 <= p <= 1.0
    requires forall lost, b :: |lost| == n && longer(lost + [b]) ==> event(lost)
    ensures MassFrom(longer, p, prefix, n + 1) <= MassFrom(event, p, prefix, n)
    decreases n - |prefix|
  {
    if |prefix| < n {
      MassDropsLast(longer, event, p, prefix + [true], n);
      MassDropsLast(longer, event, p, prefix + [false], n);
    } else {
      WeightSnoc(prefix, p);
      WeightSign(prefix, p);
      WeightSign(prefix + [true], p);
      WeightSign(prefix + [false], p);
    }
  }

  lemma PowersOf(x: real)
    ensures Pow(x, 0) == 1.0 && Pow(x, 1) == x && Pow(x, 2) == x * x && Pow(x, 3) == x * (x * x)
  {
    assert Pow(x, 1) == x * Pow(x, 0);
    assert Pow(x, 2) == x * Pow(x, 1);
    assert Pow(x, 3) == x * Pow(x, 2);
  }

  lemma MoreParityTail(p: real, k: nat, r: nat)
    requires r >= 1 && 0.0 <= p <= 1.0
    ensures EffectiveLoss(p, k, r + 1) <= EffectiveLoss(p, k, r)
  {
    EffectiveIsTail(p, k, r + 1);
    EffectiveIsTail(p, k, r);
    forall lost: seq<bool>, b | |lost| == k + r && AtLeast(r + 2)(lost + [b])
      ensures AtLeast(r + 1)(lost)
    {
      CountTrueSnoc(lost, b);
    }
    MassDropsLast(AtLeast(r + 2), AtLeast(r + 1), p, [], k + r);
  }

  lemma CopyFormula(p: real)
    requires 0.0 <= p <= 1.0
    ensures EffectiveLoss(p, 1, 1) == p * p
  {
    PowersOf(p);
    PowersOf(1.0 - p);
    ChooseAll(2);
    assert TailSum(p, 2, 2) == Term(p, 2, 2) + TailSum(p, 2, 3);
  }

  /** One more parity packet never raises the formula's loss, once there is one (or k is 1). */
  lemma MoreParityHelps(p: real, k: nat, r: nat)
    requires k >= 1 && (r >= 1 || k == 1)
    ensures EffectiveLoss(p, k, r + 1) <= EffectiveLoss(p, k, r)
  {
    var c := Clamp(p);
    if r >= 1 {
      MoreParityTail(c, k, r);
    } else {
      CopyFormula(c);
      NonNegative(c, 1.0 - c, c - c * c);
    }
  }

  /** An event that survives a further packet has no smaller mass with one. */
  lemma {:induction false} MassKeepsLast(longer: Event, event: Event, p: real, prefix: seq<bool>, n: nat)
    requires |prefix| <= n && 0.0 <= p <= 1.0
    requires forall lost, b :: |lost| == n && event(lost) ==> longer(lost + [b])
    ensures MassFrom(event, p, prefix, n) <= MassFrom(longer, p, prefix, n + 1)
    decreases n - |prefix|
  {
    if |prefix| < n {
      MassKeepsLast(longer, event, p, prefix + [true], n);
      MassKeepsLast(longer, event, p, prefix + [false], n);
    } else {
      WeightSnoc(prefix, p);
      WeightSign(prefix + [true], p);
      WeightSign(prefix + [false], p);
    }
  }

  lemma {:induction false} MorePacketsLoseTwo(p: real, k: nat)
    requires k >= 2 && 0.0 <= p <= 1.0
    ensures EffectiveLoss(p, 2, 1) <= EffectiveLoss(p, k, 1)
  {
    if k > 2 {
      MorePacketsLoseTwo(p, k - 1);
      EffectiveIsTail(p, k - 1, 1);
      EffectiveIsTail(p, k, 1);
      forall lost: seq<bool>, b | |lost| == k && AtLeast(2)(lost)
        ensures AtLeast(2)(lost + [b])
      {
        CountTrueSnoc(lost, b);
      }
      MassKeepsLast(AtLeast(2), AtLeast(2), p, [], k);
    }
  }

  function PairLoss(p: real): real {
    3.0 * (p * p) * (1.0 - p) + p * (p * p)
  }

  lemma PairFormula(p: real)
    requires 0.0 <= p <= 1.0
    ensures EffectiveLoss(p, 2, 1) == PairLoss(p)
  {
    PowersOf(p);
    PowersOf(1.0 - p);
    ChooseAll(3);
    ChooseSymmetric(3, 2);
    ChooseOne(3);
    assert TailSum(p, 3, 2) == Term(p, 3, 2) + (Term(p, 3, 3) + TailSum(p, 3, 4));
    assert Term(p, 3, 2) == 3.0 * (p * p) * (1.0 - p);
    assert Term(p, 3, 3) == p * (p * p);
  }

  lemma PairGain(p: real)
    requires 0.0 <= p <= 1.0
    ensures PairLoss(p) <= p <==> p <= 0.5 || p == 1.0
  {
    if p == 1.0 {
    } else if p <= 0.5 {
      var t := (1.0 - 2.0 * p) * (1.0 - p);
      NonNegative(1.0 - 2.0 * p, 1.0 - p, t);
      NonNegative(p, t, p - PairLoss(p));
    } else {
      var t := (2.0 * p - 1.0) * (1.0 - p);
      Positive(2.0 * p - 1.0, 1.0 - p, t);
      Positive(p, t, PairLoss(p) - p);
    }
  }

  /** With data in two chunks, the first parity packet lowers the formula's loss up to p = 1/2 only. */
  lemma FirstParityForTwo(p: real)
    requires 0.0 <= p <= 1.0
    ensures EffectiveLoss(p, 2, 1) <= EffectiveLoss(p, 2, 0) <==> p <= 0.5 || p == 1.0
  {
    PairFormula(p);
    PairGain(p);
  }

  /** The first parity packet helps at every loss rate only when the data travels whole. */
  lemma FirstParityHelpsIff(k: nat)
    requires k >= 1
    ensures (forall p :: 0.0 <= p <= 1.0 ==> EffectiveLoss(p, k, 1) <= EffectiveLoss(p, k, 0)) <==> k == 1
  {
    if k == 1 {
      forall p | 0.0 <= p <= 1.0
        ensures EffectiveLoss(p, 1, 1) <= EffectiveLoss(p, 1, 0)
      {
        MoreParityHelps(p, 1, 0);
      }
    } else {
      FirstParityForTwo(0.75);
      MorePacketsLoseTwo(0.75, k);
      assert !(EffectiveLoss(0.75, k, 1) <= EffectiveLoss(0.75, k, 0));
    }
  }

  // ---------------------------------------------------------------- the formula against the decoder

  lemma TwoLost(lost: seq<bool>, i: nat, m: nat)
    requires i < |lost| && m < |lost| && i != m && lost[i] && lost[m]
    ensures CountTrue(lost) >= 2
  {
    CountTrueIsCardinality(lost);
    assert {i, m} <= LostSet(lost);
    SubsetCard({i, m}, LostSet(lost));
  }

  lemma {:induction false} SubsetCard(a: set<nat>, b: set<nat>)
    requires a <= b
    ensures |a| <= |b|
  {
    if x :| x in a {
      SubsetCard(a - {x}, b - {x});
    }
  }

  lemma {:induction false} AllLost(lost: seq<bool>)
    ensures CountTrue(lost) == |lost| <==> forall i :: 0 <= i < |lost| ==> lost[i]
  {
    if lost != [] {
      AllLost(lost[..|lost| - 1]);
      CountTrueAtMost(lost[..|lost| - 1]);
    }
  }

  /** More than `r` losses always defeat the decoder. */
  lemma TooManyLosses(data: seq<byte>, k: nat, r: nat, lost: seq<bool>)
    requires k >= 1 && r >= 1 && |lost| == k + r && AtLeast(r + 1)(lost)
    ensures DecoderFails(data, k, r)(lost)
  {
    CountTrueAtMost(lost);
    if k == 1 {
      AllLost(lost);
      CopiesExact(data, r, lost);
    } else {
      RecoveryExact(data, k, r, lost);
      if Recoverable(lost, k, r) {
        RecoverableLosesAtMostR(lost, k, r);
        assert false;
      }
    }
  }

  /** With one copy of the data or one stripe, the decoder fails only on more than `r` losses. */
  lemma OnlyTooManyLosses(data: seq<byte>, k: nat, r: nat, lost: seq<bool>)
    requires k >= 1 && r >= 1 && (k == 1 || r == 1) && |lost| == k + r && DecoderFails(data, k, r)(lost)
    ensures AtLeast(r + 1)(lost)
  {
    if k == 1 {
      AllLost(lost);
      CopiesExact(data, r, lost);
    } else {
      RecoveryExact(data, k, r, lost);
      assert !StripeRecoverable(lost, k, r, 0);
      var i :| 0 <= i < k && i % r == 0 && lost[i];
      if lost[k] {
        TwoLost(lost, i, k);
      } else {
        assert !OnlyLoss(lost, k, r, 0, i);
        var m :| 0 <= m < k && m % r == 0 && m != i && lost[m];
        TwoLost(lost, i, m);
      }
    }
  }

  lemma UnprotectedProbability(data: seq<byte>, k: nat, p: real)
    requires k >= 1 && 0.0 <= p <= 1.0
    ensures EffectiveLoss(p, k, 0) == FailureProbability(data, k, 0, p)
  {
    var fails := DecoderFails(data, k, 0);
    UnprotectedExact(data, k, [true]);
    UnprotectedExact(data, k, [false]);
    assert [] + [true] == [true] && [] + [false] == [false];
    WeightSnoc([], p);
    assert Weight([], p) == 1.0;
    calc {
      Probability(fails, p, 1);
      MassFrom(fails, p, [true], 1) + MassFrom(fails, p, [false], 1);
      Weight([true], p);
      p;
    }
  }

  lemma ProtectedProbability(data: seq<byte>, k: nat, r: nat, p: real)
    requires k >= 1 && r >= 1 && (k == 1 || r == 1) && 0.0 <= p <= 1.0
    ensures EffectiveLoss(p, k, r) == FailureProbability(data, k, r, p)
  {
    hide DecoderFails, AtLeast, MassFrom, EffectiveLoss;
    EffectiveIsTail(p, k, r);
    forall lost: seq<bool> | |lost| == k + r
      ensures AtLeast(r + 1)(lost) == DecoderFails(data, k, r)(lost)
    {
      if AtLeast(r + 1)(lost) {
        TooManyLosses(data, k, r, lost);
      } else if DecoderFails(data, k, r)(lost) {
        OnlyTooManyLosses(data, k, r, lost);
      }
    }
    MassEqual(AtLeast(r + 1), DecoderFails(data, k, r), p, [], k + r);
  }

  lemma FormulaIsExact(data: seq<byte>, k: nat, r: nat, p: real)
    requires k >= 1 && (k == 1 || r <= 1) && 0.0 <= p <= 1.0
    ensures EffectiveLoss(p, k, r) == FailureProbability(data, k, r, p)
  {
    if r == 0 {
      UnprotectedProbability(data, k, p);
    } else {
      ProtectedProbability(data, k, r, p);
    }
  }

  /** The formula never overstates the probability that the decoder fails, at any loss rate the code accepts. */
  lemma FormulaIsLowerBound(data: seq<byte>, k: nat, r: nat, p: real)
    requires k >= 1
    ensures EffectiveLoss(p, k, r) <= FailureProbability(data, k, r, Clamp(p))
  {
    var c := Clamp(p);
    if r == 0 {
      FormulaIsExact(data, k, r, c);
    } else {
      EffectiveIsTail(c, k, r);
      forall lost: seq<bool> | |lost| == k + r && AtLeast(r + 1)(lost)
        ensures DecoderFails(data, k, r)(lost)
      {
        TooManyLosses(data, k, r, lost);
      }
      MassIncludes(AtLeast(r + 1), DecoderFails(data, k, r), c, [], k + r);
    }
  }

  /** The pattern the formula misses: data packet 0 and its stripe's parity. */
  function MissedPattern(k: nat, r: nat): (lost: seq<bool>)
    requires k >= 2 && r >= 1
    ensures |lost| == k + r
  {
    seq(k + r, i requires 0 <= i < k + r => i == 0 || i == k)
  }

  lemma MissedPatternFails(data: seq<byte>, k: nat, r: nat)
    requires k >= 2 && r >= 1
    ensures DecoderFails(data, k, r)(MissedPattern(k, r)) && CountTrue(MissedPattern(k, r)) == 2
  {
    var lost := MissedPattern(k, r);
    RecoveryExact(data, k, r, lost);
    assert lost[0] && 0 % r == 0 && lost[k + 0];
    assert !StripeRecoverable(lost, k, r, 0);
    CountTrueIsCardinality(lost);
    assert LostSet(lost) == {0, k};
  }

  /** For 0 < p < 1 the exact sum is the decoder's failure probability exactly when k = 1 or r <= 1; in every
      other configuration the decoder fails more often than the sum says. */
  lemma FormulaIsExactIff(data: seq<byte>, k: nat, r: nat, p: real)
    requires k >= 1 && 0.0 < p < 1.0
    ensures EffectiveLoss(p, k, r) == FailureProbability(data, k, r, p) <==> k == 1 || r <= 1
    ensures EffectiveLoss(p, k, r) <= FailureProbability(data, k, r, p)
  {
    if k == 1 || r <= 1 {
      FormulaIsExact(data, k, r, p);
    } else {
      EffectiveIsTail(p, k, r);
      var n, fails, many := k + r, DecoderFails(data, k, r), AtLeast(r + 1);
      var missed: Event := lost => fails(lost) && !many(lost);
      forall lost: seq<bool> | |lost| == n
        ensures many(lost) ==> fails(lost)
      {
        if many(lost) {
          TooManyLosses(data, k, r, lost);
        }
      }
      MassSplits(fails, many, missed, p, [], n);
      MissedPatternFails(data, k, r);
      MassOfMember(missed, p, [], MissedPattern(k, r));
      WeightSign(MissedPattern(k, r), p);
    }
  }

  /** Every pattern with at most `m` losses gives the data back. */
  ghost predicate SurvivesAny(data: seq<byte>, k: nat, r: nat, m: nat)
    requires k > 0
  {
    forall lost: seq<bool> :: |lost| == |Fec.Encode(data, k, r)| && CountTrue(lost) <= m ==>
      Transmit(data, k, r, lost) == Some(data)
  }

  lemma FewLossesSurvived(data: seq<byte>, k: nat, r: nat, lost: seq<bool>)
    requires k >= 1 && (k == 1 || r <= 1) && |lost| == |Fec.Encode(data, k, r)| && CountTrue(lost) <= r
    ensures Transmit(data, k, r, lost) == Some(data)
  {
    if r == 0 {
      AllLost(lost);
      UnprotectedExact(data, k, lost);
    } else {
      if DecoderFails(data, k, r)(lost) {
        OnlyTooManyLosses(data, k, r, lost);
        assert false;
      }
      if k == 1 {
        CopiesExact(data, r, lost);
      } else {
        RecoveryExact(data, k, r, lost);
      }
    }
  }

  /** One loss alone is always survived. */
  lemma OneLossSurvived(data: seq<byte>, k: nat, r: nat, lost: seq<bool>)
    requires k >= 2 && r >= 2 && |lost| == k + r && CountTrue(lost) <= 1
    ensures Transmit(data, k, r, lost) == Some(data)
  {
    forall j | 0 <= j < r
      ensures StripeRecoverable(lost, k, r, j)
    {
      if i: nat :| i < k && i % r == j && lost[i] {
        if m: nat :| m < |lost| && m != i && lost[m] {
          TwoLost(lost, i, m);
          assert false;
        }
        assert OnlyLoss(lost, k, r, j, i);
      }
    }
    RecoveryExact(data, k, r, lost);
  }

  /** A pattern with one loss too many. */
  lemma OneTooMany(data: seq<byte>, k: nat, r: nat) returns (lost: seq<bool>)
    requires k >= 1
    ensures |lost| == |Fec.Encode(data, k, r)| && Transmit(data, k, r, lost) != Some(data)
    ensures CountTrue(lost) == (if k == 1 || r <= 1 then r else 1) + 1
  {
    if r == 0 {
      lost := [true];
      UnprotectedExact(data, k, lost);
      AllLost(lost);
    } else if k == 1 {
      lost := seq(1 + r, _ => true);
      AllLost(lost);
      CopiesExact(data, r, lost);
    } else {
      lost := MissedPattern(k, r);
      MissedPatternFails(data, k, r);
    }
  }

  /** Any m losses are survived exactly for m up to r when k = 1 or r <= 1, and for m up to one otherwise. */
  lemma ToleranceExactly(data: seq<byte>, k: nat, r: nat, m: nat)
    requires k >= 1
    ensures SurvivesAny(data, k, r, m) <==> m <= if k == 1 || r <= 1 then r else 1
  {
    if m <= if k == 1 || r <= 1 then r else 1 {
      forall lost: seq<bool> | |lost| == |Fec.Encode(data, k, r)| && CountTrue(lost) <= m
        ensures Transmit(data, k, r, lost) == Some(data)
      {
        if k == 1 || r <= 1 {
          FewLossesSurvived(data, k, r, lost);
        } else {
          OneLossSurvived(data, k, r, lost);
        }
      }
    } else {
      var lost := OneTooMany(data, k, r);
      assert CountTrue(lost) <= m && Transmit(data, k, r, lost) != Some(data);
    }
  }

  /** "Any k of k + r packets are enough" holds of the code exactly when k = 1 or r <= 1. */
  lemma SurvivesAnyRIff(data: seq<byte>, k: nat, r: nat)
    requires k >= 1
    ensures SurvivesAny(data, k, r, r) <==> k == 1 || r <= 1
  {
    ToleranceExactly(data, k, r, r);
  }

  // ---------------------------------------------------------------- profiles

  datatype Profile = Emergency | Aggressive | Balanced | Reliable | NoFec {
    function K(): nat {
      if Balanced? || Reliable? then 2 else 1
    }

    function R(): nat {
      match this
      case Emergency => 2
      case Aggressive => 1
      case Balanced => 2
      case Reliable => 1
      case NoFec => 0
    }
  }

  function SelectProfile(lossRate: real, isEmergency: bool, maxOverhead: real): Profile {
    if isEmergency then (if maxOverhead >= 3.0 then Emergency else Aggressive)
    else if lossRate >= 0.20 then Balanced
    else if lossRate >= 0.05 then Reliable
    else NoFec
  }

  /** How many packets each profile sends, and how many of them, any of them, may be lost: BALANCED survives one loss
      of four, where its documentation says two. */
  lemma ProfileTolerance(profile: Profile, data: seq<byte>, m: nat)
    ensures |Fec.Encode(data, profile.K(), profile.R())| == match profile
              case Emergency => 3
              case Aggressive => 2
              case Balanced => 4
              case Reliable => 3
              case NoFec => 1
    ensures SurvivesAny(data, profile.K(), profile.R(), m) <==> m <= match profile
              case Emergency => 2
              case Aggressive => 1
              case Balanced => 1
              case Reliable => 1
              case NoFec => 0
  {
    ToleranceExactly(data, profile.K(), profile.R(), m);
  }

  /** Which (k, r) is selected, and that an emergency never costs more packets than the overhead allows, if it allows
      two for one. */
  lemma SelectedExactly(lossRate: real, isEmergency: bool, maxOverhead: real)
    ensures var profile := SelectProfile(lossRate, isEmergency, maxOverhead);
            var k, r := profile.K(), profile.R();
            && ((k, r) == (1, 2) <==> isEmergency && maxOverhead >= 3.0)
            && ((k, r) == (1, 1) <==> isEmergency && maxOverhead < 3.0)
            && ((k, r) == (2, 2) <==> !isEmergency && 0.20 <= lossRate)
            && ((k, r) == (2, 1) <==> !isEmergency && 0.05 <= lossRate < 0.20)
            && ((k, r) == (1, 0) <==> !isEmergency && lossRate < 0.05)
            && (isEmergency && maxOverhead >= 2.0 ==> (k + r) as real <= maxOverhead * k as real)
  {
  }

  /** Of the selectable profiles, the exact sum is right for all but the one chosen for ordinary
      traffic at a loss rate of 20% or more. */
  lemma SelectedProfileExact(lossRate: real, isEmergency: bool, maxOverhead: real, data: seq<byte>, p: real)
    requires 0.0 < p < 1.0
    ensures var profile := SelectProfile(lossRate, isEmergency, maxOverhead);
            EffectiveLoss(p, profile.K(), profile.R()) == FailureProbability(data, profile.K(), profile.R(), p)
            <==> isEmergency || lossRate < 0.20
  {
    var profile := SelectProfile(lossRate, isEmergency, maxOverhead);
    FormulaIsExactIff(data, profile.K(), profile.R(), p);
  }
}
