/** For which numbers of data packets the native loss formula never rises with one more parity packet, although
    its coefficients wrap: up to four, and no more. */
module FecNativeWrap {
  import opened Arithmetic
  import opened Wrappers
  import opened Binomial
  import opened BinomialRange
  import opened FecLoss
  import opened FecNativeLoss
  import opened FecNativeExact
  import opened FecNativeParity

  // ---------------------------------------------------------------- one term, by packets that arrive

  /** The term with j packets arriving. */
  lemma TermFromEnd(p: real, n: u64, j: u64)
    requires 2 * j <= n
    ensures NativeAt(p, n, n - j) == Product3(Loop64(n, j), Pow(p, n - j), Pow(1.0 - p, j))
  {
    hide Pow, Loop64, Product3;
  }

  lemma TailStep(p: real, n: u64, j: u64, c: real, v: real)
    requires 1 <= j && 2 * j <= n && c == Loop64(n, j) as real && v == Pow(p, n - j) * Pow(1.0 - p, j)
    ensures NativeTail(p, n, n - j) == c * v + NativeTail(p, n, n - (j - 1))
  {
    hide Pow, Loop64, NativeTail;
    TailStepOf(p, n, j, Pow(p, n - j), Pow(1.0 - p, j), c, v);
  }

  lemma TailStepOf(p: real, n: u64, j: u64, x: real, y: real, c: real, v: real)
    requires 1 <= j && 2 * j <= n && x == Pow(p, n - j) && y == Pow(1.0 - p, j)
    requires c == Loop64(n, j) as real && v == x * y
    ensures NativeTail(p, n, n - j) == c * v + NativeTail(p, n, n - (j - 1))
  {
    TermFromEnd(p, n, j);
    TailFirst(p, n, n - j);
    hide NativeAt, Pow, Loop64, NativeTail;
    ProductIs(Loop64(n, j), x, y, c, v);
    hide Product3;
  }

  lemma ProductIs(coefficient: u64, x: real, y: real, c: real, v: real)
    requires c == coefficient as real && v == x * y
    ensures Product3(coefficient, x, y) == c * v
  {
    Associate(c, x, y);
  }

  lemma TailFirst(p: real, n: u64, i: u64)
    requires i <= n
    ensures NativeTail(p, n, i) == NativeAt(p, n, i) + NativeTail(p, n, i + 1)
  {
  }

  lemma TailEnd(p: real, n: u64)
    ensures NativeTail(p, n, n) == Pow(p, n)
  {
    LastTerm(p, n);
    hide NativeAt, Pow;
    assert NativeTail(p, n, n + 1) == 0.0;
  }

  // ---------------------------------------------------------------- up to four data packets

  lemma RowStart(n: u64)
    requires 4 <= n < I32_LIMIT
    ensures Loop64(n, 1) == n && Loop64(n, 2) == Choose(n, 2) < 0x2000_0000_0000_0000
  {
    ChooseOne(n);
    ChooseStep(n, 1);
    hide Choose, Loop64;
    Monotone(n, I32_LIMIT, n - 1);
    Monotone(n - 1, I32_LIMIT, I32_LIMIT);
    LoopExact(n, 2, 1);
    LoopExact(n, 2, 2);
  }

  /** The fourth coefficient wraps, and nothing worse. */
  lemma ThirdWraps(n: u64)
    requires 4 <= n < I32_LIMIT
    ensures Loop64(n, 3) == Choose(n, 3) % U64
  {
    RowStart(n);
    BinomStepExact(n, 2);
    hide Choose, Loop64;
    var r: u64 := Choose(n, 2);
    assert Loop64(n, 3) == BinomStep64(n, 2, r) by { LastRound(n, 3); }
    ThirdStep(n, r);
  }

  lemma LastRound(n: u64, t: nat)
    requires 1 <= t <= n
    ensures Loop64(n, t) == BinomStep64(n, t - 1, Loop64(n, t - 1))
  {
  }

  lemma ThirdStep(n: u64, r: u64)
    requires 4 <= n < I32_LIMIT
    ensures BinomStep64(n, 2, r) == BinomStep(n, 2, r) % U64
  {
    hide Mul64, Add64;
    var f, q, m: u64 := n - 2, r / 3, r % 3;
    Monotone(m, 2, f);
    Product(q, f);
    Product(m, f);
    Quotient(m * f, 3);
    QuotientBelow(m * f, 3);
    Mul64Exact(m, f);
    WrapsOnce(q, f, m * f / 3);
  }

  lemma WrapsOnce(a: u64, b: u64, c: u64)
    ensures Add64(Mul64(a, b), c) == (a * b + c) % U64
  {
    Product(a, b);
    ModSum(a * b, c);
  }

  lemma ModSum(a: nat, b: nat)
    ensures (a % U64 + b) % U64 == (a + b) % U64
    ensures (a + b) % U64 <= a % U64 + b
  {
    var m := a % U64;
    var wraps, rest := (m + b) / U64, (m + b) % U64;
    assert a == a / U64 * U64 + m && m + b == wraps * U64 + rest;
    Quotient(a, U64);
    Quotient(m + b, U64);
    DivUnique(a + b, U64, a / U64 + wraps, rest);
    QuotientBelow(m + b, U64);
  }

  lemma ThirdGrows(n: u64)
    requires 4 <= n && n + 1 < I32_LIMIT
    ensures Loop64(n + 1, 3) <= Loop64(n, 3) + Loop64(n, 2)
  {
    ThirdWraps(n);
    ThirdWraps(n + 1);
    RowStart(n);
    PascalAt(n, 2);
    hide Choose, Loop64;
    WrapGrows(Choose(n, 3), Choose(n, 2), Choose(n + 1, 3), Loop64(n, 3), Loop64(n + 1, 3));
  }

  lemma WrapGrows(x: nat, y: nat, z: nat, a: nat, b: nat)
    requires z == x + y && a == x % U64 && b == z % U64
    ensures b <= a + y
  {
    ModSum(x, y);
  }

  /** What one pattern weighs with j = 0, 1, 2, 3 packets arriving, y the weight of the other losses. */
  function Patterns(p: real, q: real, y: real): (v: (real, real, real, real)) {
    (p * (p * (p * y)), p * (p * y) * q, p * y * (q * q), y * (q * (q * q)))
  }

  function Weigh(v: (real, real, real, real), a1: real, a2: real, a3: real): real {
    v.0 + (a1 * v.1 + (a2 * v.2 + a3 * v.3))
  }

  lemma PatternsStep(p: real, q: real, y: real, v: (real, real, real, real), w: (real, real, real, real))
    requires v == Patterns(p, q, y) && w == Patterns(p, q, p * y)
    ensures w.0 == p * v.0 && w.1 == p * v.1 && w.2 == p * v.2 && w.3 == p * v.3
    ensures q * v.0 == w.1 && q * v.1 == w.2 && q * v.2 == w.3
  {
    var (v0, v1, v2, v3) := v;
    var (w0, w1, w2, w3) := w;
    MoreLost(p, q, y, v0, v1, v2, v3, w0, w1, w2, w3);
  }

  lemma MoreLost(p: real, q: real, y: real, v0: real, v1: real, v2: real, v3: real,
                 w0: real, w1: real, w2: real, w3: real)
    requires v0 == p * (p * (p * y)) && v1 == p * (p * y) * q && v2 == p * y * (q * q) && v3 == y * (q * (q * q))
    requires w0 == p * (p * (p * (p * y))) && w1 == p * (p * (p * y)) * q
    requires w2 == p * (p * y) * (q * q) && w3 == p * y * (q * (q * q))
    ensures w0 == p * v0 && w1 == p * v1 && w2 == p * v2 && w3 == p * v3
    ensures q * v0 == w1 && q * v1 == w2 && q * v2 == w3
  {
  }

  lemma PatternsSign(p: real, q: real, y: real)
    requires p >= 0.0 && q >= 0.0 && y >= 0.0
    ensures var v := Patterns(p, q, y);
            v.0 >= 0.0 && v.1 >= 0.0 && v.2 >= 0.0 && v.3 >= 0.0
  {
    var py, qq := p * y, q * q;
    NonNegative(p, y, py);
    NonNegative(p, py, p * py);
    NonNegative(p, p * py, p * (p * py));
    NonNegative(p * py, q, p * py * q);
    NonNegative(q, q, qq);
    NonNegative(q, qq, q * qq);
    NonNegative(py, qq, py * qq);
    NonNegative(y, q * qq, y * (q * qq));
  }

  lemma SplitShare(p: real, q: real, a: real, x: real, px: real, qx: real)
    requires p + q == 1.0 && px == p * x && qx == q * x
    ensures a * px + a * qx == a * x
  {
    assert px + qx == x;
  }

  /** Telescoping along Pascal's rule; only the last coefficient is cut short. */
  lemma WeighFalls(p: real, q: real, v: (real, real, real, real), w: (real, real, real, real),
                   a1: real, a2: real, a3: real, b3: real)
    requires 0.0 <= p <= 1.0 && q == 1.0 - p && a3 >= 0.0 && 0.0 <= b3 <= a3 + a2
    requires v.0 >= 0.0 && v.1 >= 0.0 && v.2 >= 0.0 && v.3 >= 0.0
    requires w.0 == p * v.0 && w.1 == p * v.1 && w.2 == p * v.2 && w.3 == p * v.3
    requires q * v.0 == w.1 && q * v.1 == w.2 && q * v.2 == w.3
    ensures Weigh(w, a1 + 1.0, a2 + a1, b3) <= Weigh(v, a1, a2, a3)
  {
    SplitShare(p, q, 1.0, v.0, w.0, w.1);
    SplitShare(p, q, a1, v.1, w.1, w.2);
    SplitShare(p, q, a2, v.2, w.2, w.3);
    LastShare(p, a2, a3, b3, v.3, w.3);
    SplitCoefficients(a1, a2, w.1, w.2);
  }

  lemma LastShare(p: real, a2: real, a3: real, b3: real, x: real, px: real)
    requires 0.0 <= p <= 1.0 && a3 >= 0.0 && 0.0 <= b3 <= a3 + a2 && x >= 0.0 && px == p * x
    ensures b3 * px <= a2 * px + a3 * x
  {
    NonNegative(p, x, px);
    NonNegative(1.0 - p, x, x - px);
    NonNegative(a3, x - px, a3 * x - a3 * px);
    NonNegative(a3 + a2 - b3, px, a3 * px + a2 * px - b3 * px);
  }

  lemma SplitCoefficients(a1: real, a2: real, x: real, y: real)
    ensures (a1 + 1.0) * x == a1 * x + x && (a2 + a1) * y == a2 * y + a1 * y
  {
  }

  predicate IsCoefficient(n: u64, j: u64, c: real)
    requires j <= n
  {
    c == Loop64(n, j) as real
  }

  /** The last four terms, from the powers and the coefficients they are made of. */
  lemma FourTail(p: real, n: u64, v: (real, real, real, real), a2: real, a3: real)
    requires 6 <= n < I32_LIMIT && v == Patterns(p, 1.0 - p, Pow(p, n - 3))
    ensures IsCoefficient(n, 2, a2) && IsCoefficient(n, 3, a3) ==>
            NativeTail(p, n, n - 3) == Weigh(v, n as real, a2, a3)
  {
    hide Pow, Loop64, NativeTail, Choose, Patterns;
    PatternsFromPowers(p, n, v);
    RowStart(n);
    TailEnd(p, n);
    FourSteps(p, n, v.1, v.2, v.3, a2, a3);
  }

  lemma PatternsFromPowers(p: real, n: nat, v: (real, real, real, real))
    requires n >= 3 && v == Patterns(p, 1.0 - p, Pow(p, n - 3))
    ensures v.0 == Pow(p, n)
    ensures v.1 == Pow(p, n - 1) * Pow(1.0 - p, 1)
    ensures v.2 == Pow(p, n - 2) * Pow(1.0 - p, 2)
    ensures v.3 == Pow(p, n - 3) * Pow(1.0 - p, 3)
  {
    hide Pow, Patterns;
    var q := 1.0 - p;
    var x0, x1, x2, x3 := Pow(p, n), Pow(p, n - 1), Pow(p, n - 2), Pow(p, n - 3);
    LastPower(p, n);
    LastPower(p, n - 1);
    LastPower(p, n - 2);
    PowersOf(q);
    PatternsAre(p, q, x0, x1, x2, x3, Pow(q, 1), Pow(q, 2), Pow(q, 3), v);
  }

  lemma PatternsAre(p: real, q: real, x0: real, x1: real, x2: real, x3: real, q1: real, q2: real, q3: real,
                    v: (real, real, real, real))
    requires v == Patterns(p, q, x3) && x2 == p * x3 && x1 == p * x2 && x0 == p * x1
    requires q1 == q && q2 == q * q && q3 == q * (q * q)
    ensures v.0 == x0 && v.1 == x1 * q1 && v.2 == x2 * q2 && v.3 == x3 * q3
  {
  }

  lemma FourSteps(p: real, n: u64, v1: real, v2: real, v3: real, a2: real, a3: real)
    requires 6 <= n < I32_LIMIT
    requires v1 == Pow(p, n - 1) * Pow(1.0 - p, 1)
    requires v2 == Pow(p, n - 2) * Pow(1.0 - p, 2)
    requires v3 == Pow(p, n - 3) * Pow(1.0 - p, 3)
    ensures IsCoefficient(n, 1, n as real) && IsCoefficient(n, 2, a2) && IsCoefficient(n, 3, a3) ==>
            NativeTail(p, n, n - 3) == NativeTail(p, n, n) + (n as real * v1 + (a2 * v2 + a3 * v3))
  {
    hide Pow, Loop64, NativeTail;
    if IsCoefficient(n, 1, n as real) && IsCoefficient(n, 2, a2) && IsCoefficient(n, 3, a3) {
      TailStep(p, n, 1, n as real, v1);
      TailStep(p, n, 2, a2, v2);
      TailStep(p, n, 3, a3, v3);
    }
  }

  lemma PatternsFall(p: real, q: real, y: real, z: real, a1: real, a2: real, a3: real, b3: real)
    requires 0.0 <= p <= 1.0 && q == 1.0 - p && y >= 0.0 && a3 >= 0.0 && 0.0 <= b3 <= a3 + a2
    requires z == p * y
    ensures Weigh(Patterns(p, q, z), a1 + 1.0, a2 + a1, b3) <= Weigh(Patterns(p, q, y), a1, a2, a3)
  {
    hide Patterns, Weigh;
    var v, w := Patterns(p, q, y), Patterns(p, q, z);
    PatternsStep(p, q, y, v, w);
    PatternsSign(p, q, y);
    WeighFalls(p, q, v, w, a1, a2, a3, b3);
  }

  lemma FourHelps(r: u64, p: real)
    requires r >= 2 && 5 + r < I32_LIMIT && 0.0 <= p <= 1.0
    ensures NativeTail(p, 5 + r, r + 2) <= NativeTail(p, 4 + r, r + 1)
  {
    hide Pow, NativeTail, Loop64, Patterns, Weigh, Choose;
    var n: u64 := 4 + r;
    var q, y, z := 1.0 - p, Pow(p, n - 3), Pow(p, n - 2);
    var a2, a3, b2, b3 := Loop64(n, 2), Loop64(n, 3), Loop64(n + 1, 2), Loop64(n + 1, 3);
    FourTail(p, n, Patterns(p, q, y), a2 as real, a3 as real);
    FourTail(p, n + 1, Patterns(p, q, z), b2 as real, b3 as real);
    SecondGrows(n);
    ThirdGrows(n);
    PowSign(p, n - 3);
    assert z == p * y by {
      LastPower(p, n - 2);
      assert n - 2 - 1 == n - 3;
    }
    PatternsFall(p, q, y, z, n as real, a2 as real, a3 as real, b3 as real);
  }

  lemma SecondGrows(n: u64)
    requires 4 <= n && n + 1 < I32_LIMIT
    ensures Loop64(n + 1, 2) == Loop64(n, 2) + n
  {
    RowStart(n);
    RowStart(n + 1);
    PascalAt(n, 1);
    ChooseOne(n);
    hide Choose, Loop64;
  }

  /** With up to three data packets every coefficient of the sum fits. */
  lemma ThreeFit(k: u64, r: u64)
    requires k <= 3 && k + r < I32_LIMIT
    ensures Fits(k + r, r + 1)
  {
    hide Choose, Loop64;
    var n: u64 := k + r;
    if n <= 67 {
      SmallRowFits(n, r + 1);
    } else {
      forall j | r + 1 <= j <= n
        ensures Choose(n, j) < U64
      {
        ChooseSymmetric(n, j);
        ChooseRises(n, n - j, 2);
        RowStart(n);
      }
    }
  }

  lemma FewHelp(k: u64, r: u64, p: real)
    requires 1 <= k <= 4 && r >= 1 && k + r + 1 < I32_LIMIT
    ensures AtMost(NativeLoss(p, k, r + 1), NativeLoss(p, k, r))
  {
    hide NativeTail, NativeSum;
    if k == 4 && r >= 2 {
      NativeIsTail(p, k, r);
      NativeIsTail(p, k, r + 1);
      FourHelps(r, Clamp(p));
    } else {
      if k == 4 {
        SmallRowFits(5, 2);
      } else {
        ThreeFit(k, r);
      }
      MoreParityHelpsNative(k, r, p);
    }
  }

  // ---------------------------------------------------------------- five and more data packets

  /** The row where one more parity packet hurts, whatever the number of data packets. */
  const ROW: u64 := 2147483623

  lemma LoopStart(n: u64)
    ensures Loop64(n, 0) == 1
  {
  }

  /** One round of the loop, from its quotients and from how often its product and its sum wrap. */
  lemma Round(n: u64, i: u64, r: u64, q: nat, product: nat, b: nat, sum: nat, s: u64)
    requires i < n && 0 <= r - q * (i + 1) < i + 1
    requires 0 <= q * (n - i) - product * U64 < U64
    requires (r - q * (i + 1)) * (n - i) < U64
    requires 0 <= (r - q * (i + 1)) * (n - i) - b * (i + 1) < i + 1
    requires s == q * (n - i) - product * U64 + b - sum * U64
    ensures BinomStep64(n, i, r) == s
  {
    var d, f := i + 1, n - i;
    var m := r - q * d;
    DivUnique(r, d, q, m);
    Product(q, f);
    Product(m, f);
    DivUnique(q * f, U64, product, q * f - product * U64);
    Mul64Exact(m, f);
    DivUnique(m * f, d, b, m * f - b * d);
    DivUnique(q * f - product * U64 + b, U64, sum, s);
  }

  lemma RowRounds()
    ensures BinomStep64(2147483623, 0, 1) == 2147483623
    ensures BinomStep64(2147483623, 1, 2147483623) == 2305842954452861253
    ensures BinomStep64(2147483623, 2, 2305842954452861253) == 1537229398300685459
    ensures BinomStep64(2147483623, 3, 1537229398300685459) == 3650911449133371387
  {
    hide BinomStep64;
    Round(2147483623, 0, 1, 1, 0, 0, 0, 2147483623);
    Round(2147483623, 1, 2147483623, 1073741811, 0, 1073741811, 0, 2305842954452861253);
    Round(2147483623, 2, 2305842954452861253, 768614318150953751, 89478482, 0, 0, 1537229398300685459);
    Round(2147483623, 3, 1537229398300685459, 384307349575171364, 44739263, 1610612715, 0, 3650911449133371387);
  }

  lemma RowValues()
    ensures Loop64(ROW, 1) == 2147483623 && Loop64(ROW, 2) == 2305842954452861253
    ensures Loop64(ROW, 3) == 1537229398300685459 && Loop64(ROW, 4) == 3650911449133371387
  {
    hide Loop64, BinomStep64;
    RowRounds();
    LoopStart(2147483623);
    LastRound(2147483623, 1);
    LastRound(2147483623, 2);
    LastRound(2147483623, 3);
    LastRound(2147483623, 4);
  }

  lemma NextRowRounds()
    ensures BinomStep64(2147483624, 0, 1) == 2147483624
    ensures BinomStep64(2147483624, 1, 2147483624) == 2305842956600344876
    ensures BinomStep64(2147483624, 2, 2305842956600344876) == 3843072352753546712
    ensures BinomStep64(2147483624, 3, 3843072352753546712) == 14411512884288832654
  {
    hide BinomStep64;
    Round(2147483624, 0, 1, 1, 0, 0, 0, 2147483624);
    Round(2147483624, 1, 2147483624, 1073741812, 0, 0, 0, 2305842956600344876);
    Round(2147483624, 2, 2305842956600344876, 768614318866781625, 89478482, 715827874, 0, 3843072352753546712);
    Round(2147483624, 3, 3843072352753546712, 960768088188386678, 111848124, 0, 0, 14411512884288832654);
  }

  lemma NextRowValues()
    ensures Loop64(ROW + 1, 1) == 2147483624 && Loop64(ROW + 1, 2) == 2305842956600344876
    ensures Loop64(ROW + 1, 3) == 3843072352753546712 && Loop64(ROW + 1, 4) == 14411512884288832654
  {
    hide Loop64, BinomStep64;
    NextRowRounds();
    LoopStart(2147483624);
    LastRound(2147483624, 1);
    LastRound(2147483624, 2);
    LastRound(2147483624, 3);
    LastRound(2147483624, 4);
  }

  /** What one pattern weighs with j of n packets arriving, at a loss rate of 7/8. */
  function Share(n: nat, j: nat): real
    requires j <= n
  {
    Pow(0.875, n - j) * Pow(0.125, j)
  }

  lemma ShareSteps(n: nat, j: nat)
    requires j <= n
    ensures Share(n, j) > 0.0 && Share(n + 1, j) == 0.875 * Share(n, j)
    ensures j < n ==> Share(n, j) == 7.0 * Share(n, j + 1)
  {
    PowSign(0.875, n - j);
    PowSign(0.125, j);
    LastPower(0.875, n + 1 - j);
    LastPower(0.125, j + 1);
    if j < n {
      LastPower(0.875, n - j);
    }
    hide Pow;
    Positive(Pow(0.875, n - j), Pow(0.125, j), Share(n, j));
  }

  lemma FiveTail(n: u64, a1: real, a2: real, a3: real, a4: real)
    requires 8 <= n
    ensures IsCoefficient(n, 1, a1) && IsCoefficient(n, 2, a2) && IsCoefficient(n, 3, a3) && IsCoefficient(n, 4, a4) ==>
            NativeTail(0.875, n, n - 4) ==
            Share(n, 0) + a1 * Share(n, 1) + a2 * Share(n, 2) + a3 * Share(n, 3) + a4 * Share(n, 4)
  {
    hide Loop64, NativeTail, Share;
    if IsCoefficient(n, 1, a1) && IsCoefficient(n, 2, a2) && IsCoefficient(n, 3, a3) && IsCoefficient(n, 4, a4) {
      ShareEnd(n);
      var i1, i2, i3, i4 := n - 1, n - 2, n - 3, n - 4;
      ShareTail(n, 1, i1, n, a1);
      ShareTail(n, 2, i2, i1, a2);
      ShareTail(n, 3, i3, i2, a3);
      ShareTail(n, 4, i4, i3, a4);
    }
  }

  lemma ShareEnd(n: u64)
    ensures NativeTail(0.875, n, n) == Share(n, 0)
  {
    TailEnd(0.875, n);
    assert Pow(0.125, 0) == 1.0;
    hide Pow, NativeTail;
  }

  lemma ShareStep(n: u64, j: u64, c: real)
    requires 1 <= j && 2 * j <= n && c == Loop64(n, j) as real
    ensures NativeTail(0.875, n, n - j) == c * Share(n, j) + NativeTail(0.875, n, n - (j - 1))
  {
    hide Pow, Loop64, NativeTail;
    TailStep(0.875, n, j, c, Share(n, j));
  }

  lemma ShareTail(n: u64, j: u64, i: nat, next: nat, c: real)
    requires 1 <= j && 2 * j <= n && i == n - j && next == i + 1 && c == Loop64(n, j) as real
    ensures NativeTail(0.875, n, i) == c * Share(n, j) + NativeTail(0.875, n, next)
  {
    hide *;
    assert next == n - (j - 1);
    ShareStep(n, j, c);
  }

  lemma TermBelowShare(n: u64, j: nat)
    requires j <= n
    ensures 0.0 <= NativeAt(0.875, n, n - j) <= U64 as real * Share(n, j)
  {
    hide Pow, Binom64, Product3;
    var c, v := Binom64(n, n - j) as real, Share(n, j);
    TermIsShare(n, j);
    ShareSteps(n, j);
    ProductIs(Binom64(n, n - j), Pow(0.875, n - j), Pow(0.125, j), c, v);
    hide Share, NativeAt;
    NonNegative(c, v, c * v);
    NonNegative(U64 as real - c, v, (U64 as real - c) * v);
  }

  lemma TermIsShare(n: u64, j: nat)
    requires j <= n
    ensures NativeAt(0.875, n, n - j) == Product3(Binom64(n, n - j), Pow(0.875, n - j), Pow(0.125, j))
  {
    hide Pow, Binom64, Product3;
  }

  /** However its coefficients wrap, the rest of the sum is a geometric series at most. */
  lemma {:induction false} FrontBelow(n: u64, j: nat)
    requires 4 <= j <= n
    ensures 0.0 <= NativeTail(0.875, n, n - j) - NativeTail(0.875, n, n - 4)
    ensures 6.0 * (NativeTail(0.875, n, n - j) - NativeTail(0.875, n, n - 4)) <=
            U64 as real * (Share(n, 4) - Share(n, j))
  {
    hide NativeTail, NativeAt, Share;
    if j > 4 {
      FrontBelow(n, j - 1);
      TermBelowShare(n, j);
      TailFirst(0.875, n, n - j);
      ShareSteps(n, j - 1);
    }
  }

  lemma RowTail()
    ensures NativeTail(0.875, ROW + 1, ROW - 3) > NativeTail(0.875, ROW, ROW - 4) + U64 as real * Share(ROW, 4) / 6.0
  {
    hide Loop64, NativeTail, Share;
    var n := ROW;
    RowValues();
    NextRowValues();
    FiveTail(n, 2147483623.0, 2305842954452861253.0, 1537229398300685459.0, 3650911449133371387.0);
    FiveTail(n + 1, 2147483624.0, 2305842956600344876.0, 3843072352753546712.0, 14411512884288832654.0);
    ShareSteps(n, 0);
    ShareSteps(n, 1);
    ShareSteps(n, 2);
    ShareSteps(n, 3);
    ShareSteps(n, 4);
  }

  /** For every number of data packets from five on: r + 1 parity packets are worse than r at a loss rate of 7/8, with
      2147483623 packets in all before the new one. */
  lemma FiveAreHurt(k: u64, r: u64)
    requires k >= 5 && r >= 1 && k + r == ROW
    ensures !AtMost(NativeLoss(0.875, k, r + 1), NativeLoss(0.875, k, r))
  {
    hide NativeTail, Share, NativeSum;
    NativeIsTail(0.875, k, r);
    NativeIsTail(0.875, k, r + 1);
    FrontBelow(ROW, k - 1);
    FrontBelow(ROW + 1, k - 1);
    ShareSteps(ROW, k - 1);
    RowTail();
  }

  /** One more parity packet never raises the native formula, for any r >= 1 and any loss rate, exactly when there are
      at most four data packets. */
  lemma MoreParityHelpsNativeIff(k: u64)
    requires 1 <= k < ROW
    ensures (forall r: u64, p: real :: r >= 1 && k + r + 1 < I32_LIMIT ==>
               AtMost(NativeLoss(p, k, r + 1), NativeLoss(p, k, r))) <==> k <= 4
  {
    hide NativeLoss;
    if k <= 4 {
      forall r: u64, p: real | r >= 1 && k + r + 1 < I32_LIMIT
        ensures AtMost(NativeLoss(p, k, r + 1), NativeLoss(p, k, r))
      {
        FewHelp(k, r, p);
      }
    } else {
      FiveAreHurt(k, ROW - k);
    }
  }
}
