/** Which binomial coefficients fit in 64 bits, by bounds on the central ones. */
module BinomialRange {
  import opened Arithmetic
  import opened Binomial

  /** Every coefficient of row n from index i on fits in 64 bits. */
  predicate Fits(n: nat, i: nat) {
    forall j :: i <= j <= n ==> Choose(n, j) < U64
  }

  lemma FitsFirst(n: nat, i: nat)
    requires i <= n
    ensures Fits(n, i) <==> Choose(n, i) < U64 && Fits(n, i + 1)
  {
    hide Choose;
  }

  // ---------------------------------------------------------------- central coefficients

  /** Central coefficients, going two rows down. */
  lemma CentralStep(m: nat)
    ensures Choose(2 * m + 2, m + 1) * (m + 1) == 2 * (2 * m + 1) * Choose(2 * m, m)
  {
    var c := Choose(2 * m, m);
    ChooseStep(2 * m + 1, m);
    ChooseSymmetric(2 * m + 1, m);
    assert Choose(2 * m + 2, m + 1) == Choose(2 * m + 1, m) + Choose(2 * m + 1, m + 1);
    OddRow(m);
    var odd := Choose(2 * m + 1, m);
    assert odd * (m + 1) == (2 * m + 1) * c;
    Distribute(odd, odd, m + 1);
  }

  lemma OddRow(m: nat)
    ensures Choose(2 * m + 1, m) * (m + 1) == (2 * m + 1) * Choose(2 * m, m)
  {
    if m > 0 {
      ChooseStep(2 * m, m - 1);
      assert Choose(2 * m + 1, m) == Choose(2 * m, m - 1) + Choose(2 * m, m);
      Distribute(Choose(2 * m, m - 1), Choose(2 * m, m), m + 1);
      Distribute(m, m + 1, Choose(2 * m, m));
    }
  }

  function Power16(m: nat): nat {
    if m == 0 then 1 else 16 * Power16(m - 1)
  }

  /** A central coefficient C(2 m, m) lies between 4^m / sqrt(4 m) and 4^m / sqrt(3 m + 1). */
  predicate Between(m: nat, c: nat) {
    Power16(m) <= c * c * (4 * m) && c * c * (3 * m + 1) <= Power16(m)
  }

  lemma {:induction false} CentralBetween(m: nat)
    requires m >= 1
    ensures Between(m, Choose(2 * m, m))
  {
    if m == 1 {
      ChooseOne(2);
      assert Power16(1) == 16;
    } else {
      hide Choose;
      CentralBetween(m - 1);
      CentralStep(m - 1);
      LowerStep(m - 1, Choose(2 * m - 2, m - 1), Choose(2 * m, m), Power16(m - 1));
      UpperStep(m - 1, Choose(2 * m - 2, m - 1), Choose(2 * m, m), Power16(m - 1));
    }
  }

  lemma SquareOf(a: int, b: int)
    ensures a * b * (a * b) == a * a * (b * b)
  {
  }

  lemma Squares(m: nat, c: nat, d: nat, o: nat)
    requires o == 2 * m + 1 && d * (m + 1) == 2 * o * c
    ensures d * d * ((m + 1) * (m + 1)) == 4 * (o * o * (c * c))
  {
    var x, y := d * (m + 1), o * c;
    assert x == 2 * y by { Associate3(2, o, c); }
    SquareOf(d, m + 1);
    SquareOf(o, c);
    SquareOf(2, y);
  }

  lemma Associate3(a: int, b: int, c: int)
    ensures a * b * c == a * (b * c)
  {
  }

  /** (2 m + 1)^2 = 4 m (m + 1) + 1, times anything. */
  lemma OddSquare(m: nat, o: nat, x: nat)
    requires o == 2 * m + 1
    ensures o * o * x == 4 * (m * x * (m + 1)) + x
  {
    assert o * o == 4 * (m * (m + 1)) + 1;
    Distribute(4 * (m * (m + 1)), 1, x);
    Associate3(4, m * (m + 1), x);
    Swap(m, m + 1, x);
  }

  lemma LowerStep(m: nat, c: nat, d: nat, power: nat)
    requires d * (m + 1) == 2 * (2 * m + 1) * c && power <= c * c * (4 * m)
    ensures 16 * power <= d * d * (4 * m + 4)
  {
    var cc, dd, s := c * c, d * d, m + 1;
    Squares(m, c, d, 2 * m + 1);
    OddSquare(m, 2 * m + 1, cc);
    var u := m * cc;
    Product(m, cc);
    assert cc * (4 * m) == 4 * u;
    Associate3(dd, s, s);
    Associate3(16, u, s);
    Product(dd, s);
    Cancel(16 * u, dd * s, s);
    assert dd * (4 * m + 4) == 4 * (dd * s);
  }

  lemma UpperStep(m: nat, c: nat, d: nat, power: nat)
    requires d * (m + 1) == 2 * (2 * m + 1) * c && c * c * (3 * m + 1) <= power
    ensures d * d * (3 * m + 4) <= 16 * power
  {
    var cc, dd, s, o := c * c, d * d, m + 1, 2 * m + 1;
    Squares(m, c, d, o);
    UpperProducts(m, cc, dd, s * s, o * o);
    Product(dd, 3 * m + 4);
    Product(cc, 3 * m + 1);
    Cancel(dd * (3 * m + 4), 16 * (cc * (3 * m + 1)), s * s);
  }

  lemma UpperProducts(m: nat, cc: nat, dd: nat, ss: nat, oo: nat)
    requires ss == (m + 1) * (m + 1) && oo == (2 * m + 1) * (2 * m + 1) && dd * ss == 4 * (oo * cc)
    ensures ss > 0 && dd * (3 * m + 4) * ss <= 16 * (cc * (3 * m + 1)) * ss
  {
    var f, g := 3 * m + 4, 3 * m + 1;
    Cubes(m, ss, oo);
    Monotone(oo * f, 4 * ss * g, cc);
    assert dd * f * ss == 4 * (oo * f * cc) by {
      Swap(dd, f, ss);
      Associate3(4, oo * cc, f);
      Swap(oo, cc, f);
    }
    assert 16 * (cc * g) * ss == 4 * (4 * ss * g * cc) by { Reorder(cc, g, ss); }
  }

  lemma Reorder(cc: int, g: int, ss: int)
    ensures 16 * (cc * g) * ss == 4 * (4 * ss * g * cc)
  {
  }

  lemma Cubes(m: nat, ss: nat, oo: nat)
    requires ss == (m + 1) * (m + 1) && oo == (2 * m + 1) * (2 * m + 1)
    ensures ss > 0 && 0 <= oo * (3 * m + 4) <= 4 * ss * (3 * m + 1)
  {
    var a := m * m;
    Product(m, m);
    assert oo == 4 * a + 4 * m + 1 && ss == a + 2 * m + 1;
    assert 4 * ss == oo + (4 * m + 3);
    Distribute(oo, 4 * m + 3, 3 * m + 1);
    Distribute(3 * m + 1, 3, oo);
    assert (4 * m + 3) * (3 * m + 1) == 12 * a + 13 * m + 3;
    Product(oo, 3 * m + 4);
  }

  lemma {:induction false} Power16Adds(a: nat, b: nat)
    ensures Power16(a + b) == Power16(a) * Power16(b)
  {
    if a > 0 {
      Power16Adds(a - 1, b);
    }
  }

  lemma Power16Of34()
    ensures Power16(34) == 256 * (U64 * U64)
  {
    assert Power16(2) == 256;
    Power16Adds(2, 2);
    Power16Adds(4, 4);
    Power16Adds(8, 8);
    Power16Adds(16, 16);
    Power16Adds(2, 32);
  }

  lemma RootBelow(c: nat, b: nat)
    requires c * c < b * b
    ensures c < b
  {
    if c >= b {
      Monotone(b, c, c);
      Monotone(b, c, b);
    }
  }

  lemma CentralValue()
    ensures U64 <= Choose(68, 34) < 2 * U64
  {
    hide Choose, Power16;
    CentralBetween(34);
    Power16Of34();
    var c := Choose(68, 34);
    RootBelow(c, 2 * U64);
    RootBelow(U64 - 1, c);
  }

  lemma {:induction false} ChooseGrows(n: nat, wider: nat, j: nat)
    requires n <= wider
    ensures Choose(n, j) <= Choose(wider, j)
    decreases wider - n
  {
    if n < wider {
      ChooseGrows(n + 1, wider, j);
    }
  }

  lemma PascalAt(n: nat, k: nat)
    ensures Choose(n + 1, k + 1) == Choose(n, k) + Choose(n, k + 1)
  {
  }

  lemma OddRowIsHalf()
    ensures Choose(67, 33) < U64
  {
    PascalAt(67, 33);
    hide Choose;
    CentralValue();
    ChooseSymmetric(67, 33);
  }

  /** Every coefficient of row n from an index up to 34 on fits exactly when n <= 67. */
  lemma FitsExactly(n: nat, i: nat)
    requires i <= 34
    ensures Fits(n, i) <==> n <= 67
  {
    hide Choose;
    if n <= 67 {
      SmallRowFits(n, i);
    } else {
      CentralValue();
      ChooseGrows(68, n, 34);
    }
  }

  lemma SmallRowFits(n: nat, i: nat)
    requires n <= 67
    ensures Fits(n, i)
  {
    hide Choose;
    OddRowIsHalf();
    forall j | i <= j <= n
      ensures Choose(n, j) < U64
    {
      var low := Min(j, 67 - j);
      ChooseGrows(n, 67, j);
      ChooseSymmetric(67, j);
      ChooseRises(67, low, 33);
    }
  }
}
