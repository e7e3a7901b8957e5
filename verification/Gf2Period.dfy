/** x has order exactly 32767 modulo the generator. */
module Gf2Period {
  import opened Gf2
  import opened Gf2Order
  import opened Gf2Eval

  ghost predicate IsPeriod(n: nat) { PowX(n) == ONE }

  lemma {:induction false} PeriodDifference(m: nat, n: nat)
    requires m <= n && IsPeriod(m) && IsPeriod(n)
    ensures IsPeriod(n - m)
  {
    MulXnAdd(ONE, n - m, m);
    MulXnAdd(ONE, 0, m);
    MulXnInjective(PowX(n - m), ONE, m);
  }

  lemma {:induction false} PeriodSum(m: nat, n: nat)
    requires IsPeriod(m) && IsPeriod(n)
    ensures IsPeriod(m + n)
  {
    MulXnAdd(ONE, m, n);
  }

  lemma {:induction false} PeriodMultiple(k: nat, n: nat)
    requires IsPeriod(n)
    ensures IsPeriod(k * n)
    decreases k
  {
    if k > 0 {
      PeriodMultiple(k - 1, n);
      PeriodSum((k - 1) * n, n);
      assert (k - 1) * n + n == k * n;
    }
  }

  lemma {:induction false} NotAPeriod(n: nat, w: bv16)
    requires IsPower(n, w) && w & 2 != 0
    ensures !IsPeriod(n)
  {
    assert At(w, 14) && !ONE[14];
  }

  lemma {:induction false} FullPeriod()
    ensures IsPeriod(32767)
  {
    SquaresTo32();
    SquaresTo32768();
    MulXnStep(ONE, 32767);
    MulXnStep(ONE, 0);
    MulXInjective(PowX(32767), ONE);
  }

  /** Euclid's algorithm inside the multiples of k that are periods. */
  lemma {:induction false} EuclidOnPeriods(k: nat, a: nat, b: nat) returns (g: nat, u: nat, v: nat)
    requires a > 0 && b > 0 && IsPeriod(k * a) && IsPeriod(k * b)
    ensures IsPeriod(k * g) && a == g * u && b == g * v
    decreases a + b, b < a
  {
    if a == b {
      g, u, v := a, 1, 1;
    } else if a < b {
      assert k * b - k * a == k * (b - a);
      assert k * a <= k * b;
      PeriodDifference(k * a, k * b);
      var w;
      g, u, w := EuclidOnPeriods(k, a, b - a);
      v := u + w;
      assert g * u + g * w == g * v;
    } else {
      g, v, u := EuclidOnPeriods(k, b, a);
    }
  }

  ghost predicate IsPrime(p: nat) {
    p > 1 && forall d: nat, e: nat :: d * e == p ==> d == 1 || e == 1
  }

  lemma {:induction false} OneFactorIsSmall(d: nat, e: nat)
    requires d * e < 169
    ensures d <= 12 || e <= 12
  {
    if d >= 13 { assert d * e >= 13 * e; }
  }

  lemma {:induction false} NoSmallFactor(p: nat, d: nat, e: nat)
    requires (p == 7 || p == 31 || p == 151) && d <= 12 && d * e == p
    ensures d == 1 || e == 1
  {
    assert d == 0 || d == 1 || d == 2 || d == 3 || d == 4 || d == 5 || d == 6 || d == 7
        || d == 8 || d == 9 || d == 10 || d == 11 || d == 12;
  }

  lemma {:induction false} SmallPrime(p: nat)
    requires p == 7 || p == 31 || p == 151
    ensures IsPrime(p)
  {
    forall d: nat, e: nat | d * e == p ensures d == 1 || e == 1 {
      OneFactorIsSmall(d, e);
      if d <= 12 { NoSmallFactor(p, d, e); } else { NoSmallFactor(p, e, d); }
    }
  }

  lemma {:induction false} ReducePeriod(k: nat, p: nat, n: nat)
    requires p > 0 && IsPeriod(k * p) && IsPeriod(n)
    ensures IsPeriod(k * (n % p))
  {
    var q, j := n / p, n % p;
    var whole := q * (k * p);
    PeriodMultiple(k, n);
    PeriodMultiple(q, k * p);
    assert k * n == whole + k * j by {
      assert n == q * p + j;
      assert k * (q * p + j) == k * (q * p) + k * j;
      assert k * (q * p) == q * (k * p);
    }
    PeriodDifference(whole, k * n);
  }

  /** If k * p is a period and k is not, the prime p divides every period. */
  lemma {:induction false} PrimeDividesPeriods(k: nat, p: nat, n: nat)
    requires IsPrime(p) && IsPeriod(k * p) && !IsPeriod(k) && IsPeriod(n)
    ensures n % p == 0
  {
    var j := n % p;
    if j > 0 {
      ReducePeriod(k, p, n);
      var g, u, v := EuclidOnPeriods(k, j, p);
      assert g == 1 || v == 1;
      if v == 1 { ProductGrows(g, u); }
    }
  }

  lemma {:induction false} ProductGrows(g: nat, u: nat)
    requires g * u > 0
    ensures g * u >= g
  {}

  lemma {:induction false} NonPeriods()
    ensures !IsPeriod(217) && !IsPeriod(1057) && !IsPeriod(4681)
  {
    XTo217();
    XTo1057();
    XTo4681();
    NotAPeriod(217, 0x48E3);
    NotAPeriod(1057, 0xF2AF);
    NotAPeriod(4681, 0x2C42);
  }

  lemma {:induction false} PeriodsAreMultiples(n: nat)
    requires IsPeriod(n)
    ensures n % 7 == 0 && n % 31 == 0 && n % 151 == 0
  {
    FullPeriod();
    NonPeriods();
    SmallPrime(7);
    SmallPrime(31);
    SmallPrime(151);
    PrimeDividesPeriods(4681, 7, n);
    PrimeDividesPeriods(1057, 31, n);
    PrimeDividesPeriods(217, 151, n);
  }

  lemma {:induction false} CommonMultiple(n: nat)
    requires n % 7 == 0 && n % 31 == 0 && n % 151 == 0
    ensures n % 32767 == 0
  {
    var a, b, c := n / 7, n / 31, n / 151;
    var t := 9 * b - 2 * a;
    assert a == 31 * t;
    var u := 135 * c - 194 * t;
    assert t == 151 * u;
    assert n == 32767 * u;
  }

  /** x^n = 1 exactly when 32767 divides n. */
  lemma {:induction false} OrderOfX(n: nat)
    ensures PowX(n) == ONE <==> n % 32767 == 0
  {
    FullPeriod();
    if n % 32767 == 0 {
      PeriodMultiple(n / 32767, 32767);
    }
    if IsPeriod(n) {
      PeriodsAreMultiples(n);
      CommonMultiple(n);
    }
  }
}
