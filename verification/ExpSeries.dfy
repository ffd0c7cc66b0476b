/** Partial sums of the exponential series, as the chi-square tail runs them, and
    why that tail does not grow with the evidence against it. */
module ExpSeries {

  /** The `i`-th term of the series started at `t0`, by the running product. */
  function Term(t0: real, m: real, i: nat): real {
    if i == 0 then t0 else Term(t0, m, i - 1) * (m / (i as real))
  }

  /** The sum of the first `df` terms, and of at least one. */
  function Series(t0: real, m: real, df: nat): real {
    if df <= 1 then t0 else Series(t0, m, df - 1) + Term(t0, m, df - 1)
  }

  lemma QuotientSign(a: real, b: real)
    requires a >= 0.0 && b > 0.0
    ensures a / b >= 0.0 && (a > 0.0 ==> a / b > 0.0)
  {
  }

  lemma {:induction false} TermsArePositive(t0: real, m: real, i: nat)
    requires t0 > 0.0 && m > 0.0
    ensures Term(t0, m, i) > 0.0
  {
    if i > 0 {
      TermsArePositive(t0, m, i - 1);
      QuotientSign(m, i as real);
    }
  }

  lemma {:induction false} SeriesIsPositive(t0: real, m: real, df: nat)
    requires t0 > 0.0 && m > 0.0
    ensures Series(t0, m, df) > 0.0
  {
    if df > 1 {
      SeriesIsPositive(t0, m, df - 1);
      TermsArePositive(t0, m, df - 1);
    }
  }

  function Factorial(n: nat): (r: nat)
    ensures r > 0
  {
    if n == 0 then 1 else n * Factorial(n - 1)
  }

  function Power(x: real, n: nat): real {
    if n == 0 then 1.0 else Power(x, n - 1) * x
  }

  /** The running product is the Poisson term t0 * m^i / i!. */
  lemma {:induction false} TermIsPoisson(t0: real, m: real, i: nat)
    ensures Term(t0, m, i) * (Factorial(i) as real) == t0 * Power(m, i)
  {
    hide Factorial;
    FactorialOfZero();
    if i > 0 {
      TermIsPoisson(t0, m, i - 1);
      FactorialStep(i);
      PoissonStep(Term(t0, m, i - 1), i as real, Factorial(i - 1) as real, m, t0, Power(m, i - 1),
                  Term(t0, m, i), Factorial(i) as real, Power(m, i));
    }
  }

  lemma FactorialOfZero()
    ensures Factorial(0) == 1
  {
  }

  lemma FactorialStep(i: nat)
    requires i > 0
    ensures Factorial(i) as real == (i as real) * (Factorial(i - 1) as real)
  {
  }

  /** The probability that a Poisson variable of mean `m` is below `n`, when `t0`
      is exp(-m), by powers and factorials. */
  function PoissonBelow(t0: real, m: real, n: nat): real {
    if n == 0 then 0.0 else PoissonBelow(t0, m, n - 1) + t0 * Power(m, n - 1) / (Factorial(n - 1) as real)
  }

  lemma {:induction false} SeriesIsPoisson(t0: real, m: real, df: nat)
    requires df > 0
    ensures Series(t0, m, df) == PoissonBelow(t0, m, df)
  {
    hide Term, Power, Factorial;
    TermIsPoisson(t0, m, df - 1);
    DivideOut(Term(t0, m, df - 1), Factorial(df - 1) as real, t0 * Power(m, df - 1));
    if df == 1 {
      assert Term(t0, m, 0) == t0 by { TermScales(t0, m, 0); FirstTerm(m); }
      assert PoissonBelow(t0, m, 1) == PoissonBelow(t0, m, 0) + t0 * Power(m, 0) / (Factorial(0) as real);
    } else {
      SeriesIsPoisson(t0, m, df - 1);
    }
  }

  lemma DivideOut(x: real, f: real, y: real)
    requires f > 0.0 && x * f == y
    ensures x == y / f
  {
  }

  lemma PoissonStep(before: real, i: real, f: real, m: real, t0: real, p: real, term: real, fact: real, power: real)
    requires i > 0.0 && before * f == t0 * p
    requires term == before * (m / i) && fact == i * f && power == p * m
    ensures term * fact == t0 * power
  {
    var q := m / i;
    assert q * i == m;
    assert before * q * (i * f) == before * f * (q * i);
    assert t0 * p * m == t0 * (p * m);
  }

  // ---- the series of one ----

  function T(m: real, i: nat): real {
    Term(1.0, m, i)
  }

  function S(m: real, n: nat): real {
    if n == 0 then 0.0 else S(m, n - 1) + T(m, n - 1)
  }

  lemma {:induction false} TermScales(t0: real, m: real, i: nat)
    ensures Term(t0, m, i) == t0 * T(m, i)
  {
    if i > 0 {
      TermScales(t0, m, i - 1);
      Associate(t0, T(m, i - 1), m / (i as real));
    }
  }

  lemma Associate(a: real, b: real, c: real)
    ensures a * b * c == a * (b * c)
  {
  }

  lemma {:induction false} SeriesScales(t0: real, m: real, df: nat)
    ensures Series(t0, m, df) == t0 * S(m, if df == 0 then 1 else df)
  {
    hide T;
    if df <= 1 {
      assert S(m, 1) == T(m, 0) == 1.0 by { TermScales(1.0, m, 0); FirstTerm(m); }
    } else {
      SeriesScales(t0, m, df - 1);
      TermScales(t0, m, df - 1);
    }
  }

  lemma FirstTerm(m: real)
    ensures T(m, 0) == 1.0
  {
  }

  lemma TermRecurs(m: real, i: nat)
    requires i > 0
    ensures (i as real) * T(m, i) == m * T(m, i - 1)
  {
    var q, before := m / (i as real), T(m, i - 1);
    assert q * (i as real) == m;
    Associate(i as real, before, q);
    assert (i as real) * (before * q) == before * (q * (i as real));
  }

  lemma {:induction false} TermsNonNegative(m: real, i: nat)
    requires m >= 0.0
    ensures T(m, i) >= 0.0
  {
    if i > 0 {
      TermsNonNegative(m, i - 1);
      QuotientSign(m, i as real);
    }
  }

  // ---- the binomial theorem for the terms ----

  /** The first `j` products of the `n`-th convolution of two term sequences. */
  function Conv(k: real, h: real, n: nat, j: nat): real
    requires j <= n + 1
  {
    if j == 0 then 0.0 else Conv(k, h, n, j - 1) + T(k, j - 1) * T(h, n - (j - 1))
  }

  lemma SplitWeight(k: real, h: real, n: nat, j: nat)
    requires 1 <= j < n
    ensures (n as real) * (T(k, j) * T(h, n - j)) == k * (T(k, j - 1) * T(h, n - j)) + h * (T(k, j) * T(h, n - 1 - j))
  {
    var a, b, c, d := T(k, j), T(h, n - j), T(k, j - 1), T(h, n - j - 1);
    TermRecurs(k, j);
    TermRecurs(h, n - j);
    SplitProduct(j as real, (n - j) as real, a, b, k, c, h, d);
  }

  lemma SplitProduct(i: real, j: real, a: real, b: real, k: real, c: real, h: real, d: real)
    requires i * a == k * c && j * b == h * d
    ensures (i + j) * (a * b) == k * (c * b) + h * (a * d)
  {
    assert (i + j) * (a * b) == i * a * b + a * (j * b);
    assert k * c * b == k * (c * b) && a * (h * d) == h * (a * d);
  }

  lemma {:induction false} WeightedConv(k: real, h: real, n: nat, j: nat)
    requires 1 <= j <= n
    ensures (n as real) * Conv(k, h, n, j) == k * Conv(k, h, n - 1, j - 1) + h * Conv(k, h, n - 1, j)
  {
    hide T;
    FirstTerm(k);
    if j == 1 {
      TermRecurs(h, n);
    } else {
      WeightedConv(k, h, n, j - 1);
      SplitWeight(k, h, n, j - 1);
      AddWeighted(n as real, Conv(k, h, n, j - 1), T(k, j - 1) * T(h, n - (j - 1)), k, Conv(k, h, n - 1, j - 2),
                  T(k, j - 2) * T(h, n - (j - 1)), h, Conv(k, h, n - 1, j - 1), T(k, j - 1) * T(h, n - 1 - (j - 1)));
    }
  }

  lemma AddWeighted(n: real, x: real, dx: real, k: real, y: real, dy: real, h: real, z: real, dz: real)
    requires n * x == k * y + h * z && n * dx == k * dy + h * dz
    ensures n * (x + dx) == k * (y + dy) + h * (z + dz)
  {
  }

  lemma {:induction false} Binomial(k: real, h: real, n: nat)
    ensures Conv(k, h, n, n + 1) == T(k + h, n)
  {
    hide T;
    FirstTerm(k);
    FirstTerm(h);
    FirstTerm(k + h);
    if n == 0 {
      assert Conv(k, h, 0, 1) == Conv(k, h, 0, 0) + T(k, 0) * T(h, 0);
    } else {
      Binomial(k, h, n - 1);
      WeightedConv(k, h, n, n);
      TermRecurs(k, n);
      TermRecurs(k + h, n);
      var c, last := Conv(k, h, n - 1, n), T(k, n - 1) * T(h, 0);
      assert Conv(k, h, n - 1, n) == Conv(k, h, n - 1, n - 1) + last;
      assert Conv(k, h, n, n + 1) == Conv(k, h, n, n) + T(k, n) * T(h, 0);
      LastWeight(n as real, Conv(k, h, n, n), T(k, n), k, Conv(k, h, n - 1, n - 1), T(k, n - 1), h, c, T(k + h, n));
    }
  }

  lemma LastWeight(n: real, x: real, dx: real, k: real, y: real, dy: real, h: real, z: real, t: real)
    requires n > 0.0 && n * x == k * y + h * z && n * dx == k * dy && y + dy == z && n * t == (k + h) * z
    ensures x + dx == t
  {
    assert n * (x + dx) == k * (y + dy) + h * z == (k + h) * z;
    assert n * (x + dx - t) == 0.0;
  }

  // ---- partial sums ----

  function Prod(k: real, h: real, n: nat, j: nat): real
    requires j <= n
  {
    if j == 0 then 0.0 else Prod(k, h, n, j - 1) + T(k, j - 1) * S(h, n - (j - 1))
  }

  lemma {:induction false} ProdGrows(k: real, h: real, n: nat, j: nat)
    requires j <= n
    ensures Prod(k, h, n + 1, j) == Prod(k, h, n, j) + Conv(k, h, n, j)
  {
    hide T;
    if j > 0 {
      ProdGrows(k, h, n, j - 1);
      var l := n - (j - 1);
      assert S(h, l + 1) == S(h, l) + T(h, l);
      Distribute(T(k, j - 1), S(h, l), T(h, l));
    }
  }

  lemma Distribute(a: real, b: real, c: real)
    ensures a * (b + c) == a * b + a * c
  {
  }

  lemma {:induction false} ProdIsSum(k: real, h: real, n: nat)
    ensures Prod(k, h, n, n) == S(k + h, n)
  {
    hide T;
    if n > 0 {
      ProdIsSum(k, h, n - 1);
      ProdGrows(k, h, n - 1, n - 1);
      Binomial(k, h, n - 1);
      assert S(h, 1) == S(h, 0) + T(h, 0);
    }
  }

  lemma {:induction false} ProdIsBounded(k: real, h: real, n: nat, j: nat, bound: real)
    requires j <= n && k >= 0.0 && forall i: nat :: S(h, i) <= bound
    ensures Prod(k, h, n, j) <= S(k, j) * bound
  {
    hide T;
    if j > 0 {
      ProdIsBounded(k, h, n, j - 1, bound);
      TermsNonNegative(k, j - 1);
      ScaleBound(T(k, j - 1), S(h, n - (j - 1)), bound);
      assert (S(k, j - 1) + T(k, j - 1)) * bound == S(k, j - 1) * bound + T(k, j - 1) * bound;
    }
  }

  lemma ScaleBound(a: real, x: real, bound: real)
    requires a >= 0.0 && x <= bound
    ensures a * x <= a * bound
  {
    assert a * (bound - x) >= 0.0;
  }

  // ---- the laws of the exponential, and what follows ----

  /** It turns sums into products and is at least each partial sum of its series. */
  ghost predicate ExponentialLaws(exp: real -> real) {
    && (forall x: real, y: real :: exp(x + y) == exp(x) * exp(y))
    && (forall h: real, n: nat :: h >= 0.0 ==> S(h, n) <= exp(h))
  }

  lemma SumToProduct(exp: real -> real, x: real, h: real, y: real)
    requires ExponentialLaws(exp) && x + h == y
    ensures exp(y) == exp(x) * exp(h)
  {
  }

  lemma AboveSums(exp: real -> real, h: real)
    requires ExponentialLaws(exp) && h >= 0.0
    ensures forall i: nat :: S(h, i) <= exp(h)
  {
  }

  /** The partial sum that starts at exp(x) and runs over powers of -x does not
      decrease with x. */
  lemma SeriesDecreases(x: real, y: real, df: nat, exp: real -> real)
    requires ExponentialLaws(exp) && exp(x) > 0.0 && x <= y <= 0.0
    ensures Series(exp(x), -x, df) <= Series(exp(y), -y, df)
  {
    hide ExponentialLaws, S, Prod, Series;
    var k, h := -y, y - x;
    var n := if df == 0 then 1 else df;
    SeriesScales(exp(x), -x, df);
    SeriesScales(exp(y), -y, df);
    SumToProduct(exp, x, h, y);
    AboveSums(exp, h);
    ProdIsSum(k, h, n);
    ProdIsBounded(k, h, n, n, exp(h));
    ScaleBound(exp(x), S(k + h, n), S(k, n) * exp(h));
    Regroup(exp(x), S(k, n), exp(h));
  }

  lemma Regroup(a: real, b: real, c: real)
    ensures a * (b * c) == a * c * b
  {
  }

  // ---- strictly ----

  lemma AboveSumsStrictly(exp: real -> real, h: real)
    requires ExponentialLaws(exp) && h > 0.0
    ensures forall i: nat :: S(h, i) < exp(h)
  {
    hide ExponentialLaws;
    AboveSums(exp, h);
    forall i: nat ensures S(h, i) < exp(h) {
      TermsArePositive(1.0, h, i);
      assert S(h, i + 1) == S(h, i) + T(h, i);
    }
  }

  lemma {:induction false} ProdIsBelow(k: real, h: real, n: nat, j: nat, bound: real)
    requires 1 <= j <= n && k >= 0.0 && forall i: nat :: S(h, i) < bound
    ensures Prod(k, h, n, j) < S(k, j) * bound
  {
    hide T;
    if j == 1 {
      FirstTerm(k);
      assert Prod(k, h, n, 1) == Prod(k, h, n, 0) + T(k, 0) * S(h, n);
      assert S(k, 1) == S(k, 0) + T(k, 0);
      assert S(h, n) < bound;
    } else {
      ProdIsBelow(k, h, n, j - 1, bound);
      TermsNonNegative(k, j - 1);
      ScaleBound(T(k, j - 1), S(h, n - (j - 1)), bound);
      assert (S(k, j - 1) + T(k, j - 1)) * bound == S(k, j - 1) * bound + T(k, j - 1) * bound;
    }
  }

  lemma ScaleStrictly(a: real, x: real, y: real)
    requires a > 0.0 && x < y
    ensures a * x < a * y
  {
    assert a * (y - x) > 0.0;
  }

  lemma SeriesDecreasesStrictly(x: real, y: real, df: nat, exp: real -> real)
    requires ExponentialLaws(exp) && exp(x) > 0.0 && x < y <= 0.0
    ensures Series(exp(x), -x, df) < Series(exp(y), -y, df)
  {
    hide ExponentialLaws, S, Prod, Series;
    var k, h := -y, y - x;
    var n := if df == 0 then 1 else df;
    SeriesScales(exp(x), -x, df);
    SeriesScales(exp(y), -y, df);
    SumToProduct(exp, x, h, y);
    AboveSumsStrictly(exp, h);
    ProdIsSum(k, h, n);
    ProdIsBelow(k, h, n, n, exp(h));
    ScaleStrictly(exp(x), S(k + h, n), S(k, n) * exp(h));
    Regroup(exp(x), S(k, n), exp(h));
  }

  lemma ExponentialOfZero(exp: real -> real)
    requires ExponentialLaws(exp) && exp(0.0) > 0.0
    ensures exp(0.0) == 1.0
  {
    hide ExponentialLaws;
    SumToProduct(exp, 0.0, 0.0, 0.0);
    var e := exp(0.0);
    assert e * (e - 1.0) == 0.0;
  }

  /** Short of zero the partial sum stays below one. */
  lemma SeriesIsBelowOne(y: real, df: nat, exp: real -> real)
    requires ExponentialLaws(exp) && exp(y) > 0.0 && exp(0.0) > 0.0 && y < 0.0
    ensures Series(exp(y), -y, df) < 1.0
  {
    hide ExponentialLaws, S, Series;
    SeriesScales(exp(y), -y, df);
    AboveSumsStrictly(exp, -y);
    SumToProduct(exp, y, -y, 0.0);
    ExponentialOfZero(exp);
    ScaleStrictly(exp(y), S(-y, if df == 0 then 1 else df), exp(-y));
  }
}
