/** The Chudnovsky series for 1/pi, evaluated term by term in exact real
    arithmetic: the specification functions that the loop in module Pi is
    proved against, and the facts about them that make the final division
    well defined.

      sum_{k >= 0} (-1)^k * K_k * (A + B*k) / C3^k,   K_k = (6k)! / ((3k)! * (k!)^3)

    Factorials and the products of the inner loops are integers; they meet
    the reals only through the casts in Coefficient and Multiplier.
 */
module Chudnovsky {

  /** The constant C of the series and its cube. */
  const C: int := 640320
  const C3: real := 262537412640768000.0
  /** Term k has the linear numerator A + B*k. */
  const A: int := 13591409
  const B: int := 545140134

  /** x * y and x / y as functions. The steps of the series and of the loop
      are stated through them, so that a step proved once on plain reals
      applies, by matching, to whatever terms stand for x and y. */
  function Mul(x: real, y: real): real
  {
    x * y
  }

  function Div(x: real, y: real): real
    requires y != 0.0
  {
    x / y
  }

  /** x^n by repeated multiplication, the meaning of an integer power. */
  function Power(x: real, n: nat): (r: real)
    ensures x > 0.0 ==> r > 0.0
  {
    if n == 0 then 1.0 else x * Power(x, n - 1)
  }

  function Factorial(n: nat): (r: int)
    ensures r >= 1
  {
    if n == 0 then 1 else n * Factorial(n - 1)
  }

  /** (base+1) * (base+2) * ... * (base+count): the product an inner loop builds. */
  function RisingProduct(base: int, count: nat): (r: int)
    ensures base >= 0 ==> r >= 1
  {
    if count == 0 then 1 else RisingProduct(base, count - 1) * (base + count)
  }

  /** x^3 on integers: (k+1)^3 in the multiplier and (k!)^3 in K_k. */
  function Cube(n: int): int
  {
    n * n * n
  }

  lemma CubePositive(n: int)
    requires n >= 1
    ensures Cube(n) >= 1
  {
    PositiveProduct(n, n);
    PositiveProduct(n * n, n);
  }

  /** (3k)! * (k!)^3, the denominator of K_k. */
  function Denominator(k: nat): (r: int)
    ensures r >= 1
  {
    CubePositive(Factorial(k));
    PositiveProduct(Factorial(3 * k), Cube(Factorial(k)));
    Factorial(3 * k) * Cube(Factorial(k))
  }

  /** K_k = (6k)! / ((3k)! * (k!)^3), the coefficient of term k.
      CoefficientStep shows that the loop's running product reaches it. */
  function Coefficient(k: nat): (r: real)
    ensures r > 0.0
  {
    (Factorial(6 * k) as real) / (Denominator(k) as real)
  }

  /** A + B*k, the numerator of term k, which the loop sets from a 64-bit product. */
  function Numerator(k: nat): (r: int)
    ensures r >= A
  {
    A + B * k
  }

  /** The absolute value of term k: K_k * (A + B*k) / C3^k. */
  function Magnitude(k: nat): (r: real)
    ensures r > 0.0
  {
    Coefficient(k) * (Numerator(k) as real) / Power(C3, k)
  }

  /** Term k carries the sign (-1)^k, applied by negating on odd k: it is
      negative exactly when k is odd and positive exactly when k is even. */
  function Term(k: nat): (r: real)
    ensures r < 0.0 <==> k % 2 == 1
    ensures r > 0.0 <==> k % 2 == 0
  {
    if k % 2 != 0 then -Magnitude(k) else Magnitude(k)
  }

  /** The sum of terms 0 .. n-1. */
  function PartialSum(n: nat): real
  {
    if n == 0 then 0.0 else PartialSum(n - 1) + Term(n - 1)
  }

  /** (3k+1)(3k+2)(3k+3) * (k+1)^3 as an integer, the denominator of Multiplier(k). */
  function MultiplierDenominator(k: nat): (r: int)
    ensures r >= 1
  {
    CubePositive(k + 1);
    PositiveProduct(RisingProduct(3 * k, 3), Cube(k + 1));
    RisingProduct(3 * k, 3) * Cube(k + 1)
  }

  /** The factor that turns K_k into K_{k+1}:
      (6k+1)...(6k+6) / ((3k+1)(3k+2)(3k+3) * (k+1)^3). */
  function Multiplier(k: nat): (r: real)
    ensures r > 0.0
  {
    (RisingProduct(6 * k, 6) as real) / (MultiplierDenominator(k) as real)
  }

  // ---------------------------------------------------------------------
  // Arithmetic helpers, each on plain variables so that the solver sees no
  // more than the one fact it needs

  lemma PositiveProduct(x: int, y: int)
    requires x >= 1 && y >= 1
    ensures x * y >= 1
  {
  }

  lemma MulLeft(x: real, y: real, z: real)
    requires 0.0 <= z && x <= y
    ensures z * x <= z * y
  {
  }

  /** One more factor x on both sides of prev == f * r. */
  lemma ExtendProduct(next: int, prev: int, f: int, rNext: int, r: int, x: int)
    requires next == x * prev && rNext == r * x && prev == f * r
    ensures next == f * rNext
  {
  }

  lemma CastProduct(x: int, y: int)
    ensures (x * y) as real == (x as real) * (y as real)
  {
  }

  lemma QuotientOfProducts(a: real, b: real, c: real, d: real)
    requires b != 0.0 && d != 0.0
    ensures (a * c) / (b * d) == (a / b) * (c / d)
  {
  }

  /** n^3 computed as a real power, as mpfr_pow_ui does, is the integer cube. */
  lemma CubeIsPower(n: int)
    ensures Power(n as real, 3) == Cube(n) as real
  {
    var x := n as real;
    assert Power(x, 1) == x;
    assert Power(x, 2) == x * x;
    CastProduct(n, n);
    CastProduct(n * n, n);
  }

  lemma CubeOfProduct(x: int, y: int)
    ensures Cube(x * y) == Cube(x) * Cube(y)
  {
  }

  lemma RisingThree(b: int)
    ensures RisingProduct(b, 3) == (b + 1) * (b + 2) * (b + 3)
  {
    assert RisingProduct(b, 1) == b + 1;
    assert RisingProduct(b, 2) == (b + 1) * (b + 2);
  }

  lemma RisingSix(b: int)
    ensures RisingProduct(b, 6) == RisingProduct(b, 3) * ((b + 4) * (b + 5) * (b + 6))
  {
    var p3 := RisingProduct(b, 3);
    assert RisingProduct(b, 4) == p3 * (b + 4);
    assert RisingProduct(b, 5) == p3 * (b + 4) * (b + 5);
    assert RisingProduct(b, 6) == p3 * (b + 4) * (b + 5) * (b + 6);
  }

  // ---------------------------------------------------------------------
  // Factorials and the coefficient recurrence

  /** (m+n)! = m! * (m+1)...(m+n): why the inner loops advance the factorials. */
  lemma {:induction false} FactorialSplit(m: nat, n: nat)
    ensures Factorial(m + n) == Factorial(m) * RisingProduct(m, n)
  {
    if n > 0 {
      FactorialSplit(m, n - 1);
      ExtendProduct(Factorial(m + n), Factorial(m + n - 1), Factorial(m),
                    RisingProduct(m, n), RisingProduct(m, n - 1), m + n);
    }
  }

  /** (6k+6)! = (6k)! * (6k+1)...(6k+6): the first inner loop advances (6k)!. */
  lemma FactorialSixStep(k: nat)
    ensures Factorial(6 * (k + 1)) == Factorial(6 * k) * RisingProduct(6 * k, 6)
  {
    FactorialSplit(6 * k, 6);
    assert 6 * k + 6 == 6 * (k + 1);
  }

  /** The denominator of K_{k+1} is that of K_k times the denominator the
      second inner loop and the cube build in pass k. */
  lemma DenominatorStep(k: nat)
    ensures Denominator(k + 1) == Denominator(k) * MultiplierDenominator(k)
  {
    FactorialSplit(3 * k, 3);
    assert Factorial(k + 1) == (k + 1) * Factorial(k);
    CubeOfProduct(k + 1, Factorial(k));
    DenominatorAlgebra(Denominator(k + 1), Factorial(3 * (k + 1)), Cube(Factorial(k + 1)),
                       Factorial(3 * k), RisingProduct(3 * k, 3), Cube(k + 1), Cube(Factorial(k)),
                       Denominator(k), MultiplierDenominator(k));
  }

  lemma DenominatorAlgebra(d1: int, g3: int, g1: int, f3: int, p3: int, c: int, cf: int, d: int, md: int)
    requires d1 == g3 * g1 && g3 == f3 * p3 && g1 == c * cf
    requires d == f3 * cf && md == p3 * c
    ensures d1 == d * md
  {
    assert (f3 * p3) * (c * cf) == (f3 * cf) * (p3 * c);
  }

  /** K_{k+1} = K_k * Multiplier(k): the update of K in pass k moves the
      coefficient from term k to term k+1. */
  lemma CoefficientStep(k: nat)
    ensures Coefficient(k + 1) == Coefficient(k) * Multiplier(k)
  {
    FactorialSixStep(k);
    DenominatorStep(k);
    QuotientStep(Factorial(6 * (k + 1)), Denominator(k + 1), Factorial(6 * k), Denominator(k),
                 RisingProduct(6 * k, 6), MultiplierDenominator(k));
  }

  /** (n / d) * (p / q) = (n p) / (d q), the integers cast to reals. */
  lemma QuotientStep(n1: int, d1: int, n: int, d: int, p: int, q: int)
    requires d >= 1 && q >= 1 && n1 == n * p && d1 == d * q
    ensures ((n as real) / (d as real)) * ((p as real) / (q as real)) == (n1 as real) / (d1 as real)
  {
    CastProduct(n, p);
    CastProduct(d, q);
    QuotientOfProducts(n as real, d as real, p as real, q as real);
  }

  /** K_0 = 1 and K_1 = 6! / 3! = 120. */
  lemma FirstCoefficients()
    ensures Coefficient(0) == 1.0 && Coefficient(1) == 120.0
  {
    assert Factorial(3) == 6;
    assert Factorial(6) == 720;
  }

  /** (6k+1)(6k+3)(6k+5), the factors of the first inner loop that the second does not cancel. */
  function OddFactors(k: nat): int
  {
    (6 * k + 1) * (6 * k + 3) * (6 * k + 5)
  }

  /** The six factors of the first inner loop split into 8 (6k+1)(6k+3)(6k+5)
      and the three factors of the second inner loop. */
  lemma SixFoldProduct(k: nat)
    ensures RisingProduct(6 * k, 6) == 8 * OddFactors(k) * RisingProduct(3 * k, 3)
  {
    RisingThree(3 * k);
    RisingThree(6 * k);
    RisingSix(6 * k);
    Regroup(6 * k + 1, 3 * k + 1, 6 * k + 3, 3 * k + 2, 6 * k + 5, 3 * k + 3);
  }

  lemma Regroup(x1: int, y1: int, x3: int, y2: int, x5: int, y3: int)
    ensures x1 * (2 * y1) * x3 * ((2 * y2) * x5 * (2 * y3)) == 8 * (x1 * x3 * x5) * (y1 * y2 * y3)
  {
  }

  /** 0 < Multiplier(k) <= 1728 = 12^3: K grows by at most 12^3 per term. */
  lemma MultiplierBound(k: nat)
    ensures 0.0 < Multiplier(k) <= 1728.0
  {
    SixFoldProduct(k);
    OddFactorsBound(k);
    RatioBound(RisingProduct(6 * k, 6), OddFactors(k), RisingProduct(3 * k, 3), Cube(k + 1),
               MultiplierDenominator(k));
  }

  /** (6k+1)(6k+3)(6k+5) <= (6k+6)^3 = 216 (k+1)^3. */
  lemma OddFactorsBound(k: nat)
    ensures 0 < OddFactors(k) <= 216 * Cube(k + 1)
  {
    var s := 6 * k + 6;
    var a, b, c := 6 * k + 1, 6 * k + 3, 6 * k + 5;
    assert 0 < a * b <= s * s by {
      MulMono(a, s, b, s);
    }
    assert 0 < a * b * c <= s * s * s by {
      MulMono(a * b, s * s, c, s);
    }
    assert s * s * s == 216 * Cube(k + 1);
  }

  lemma MulMono(a: int, b: int, c: int, d: int)
    requires 0 < a <= b && 0 < c <= d
    ensures 0 < a * c <= b * d
  {
    assert a * c <= b * c;
  }

  /** The bound of MultiplierBound on plain integers: p6 = 8 o p3 with
      o <= 216 c, over md = p3 c. */
  lemma RatioBound(p6: int, o: int, p3: int, c: int, md: int)
    requires p6 == 8 * o * p3 && 0 < o <= 216 * c && p3 >= 1 && c >= 1 && md == p3 * c
    ensures 0.0 < (p6 as real) / (md as real) <= 1728.0
  {
    assert 0 < p6 <= 1728 * md by {
      MulMono(8 * o, 1728 * c, p3, p3);
    }
    var x, y := p6 as real, md as real;
    assert 0.0 < x <= 1728.0 * y;
  }

  // ---------------------------------------------------------------------
  // Magnitudes and the alternating partial sums

  /** Each term is more than 10^12 times smaller than the one before it. */
  lemma MagnitudeDecreases(k: nat)
    ensures 1000000000000.0 * Magnitude(k + 1) < Magnitude(k)
  {
    MultiplierBound(k);
    CoefficientStep(k);
    assert Coefficient(k + 1) == Mul(Coefficient(k), Multiplier(k));
    MagnitudeAsQuotient(k);
    MagnitudeAsQuotient(k + 1);
    assert Power(C3, k + 1) == Mul(C3, Power(C3, k));
    ShrinkStep(Magnitude(k + 1), Magnitude(k), Coefficient(k + 1), Coefficient(k), Multiplier(k),
               Numerator(k) as real, Numerator(k + 1) as real, Power(C3, k + 1), Power(C3, k));
  }

  /** Magnitude(k) as the quotient the loop forms: K_k * (A + B*k) over C3^k. */
  lemma MagnitudeAsQuotient(k: nat)
    ensures Magnitude(k) == Div(Mul(Coefficient(k), Numerator(k) as real), Power(C3, k))
  {
  }

  /** The ratio bound behind MagnitudeDecreases, on plain reals: the next
      magnitude is c*mu*n1 / (C3*p), with mu <= 1728 and n1 <= 42*n0. */
  lemma ShrinkStep(next: real, now: real, c1: real, c: real, mu: real, n0: real, n1: real, p1: real, p: real)
    requires c > 0.0 && p > 0.0 && 0.0 < mu <= 1728.0
    requires n0 >= A as real && n1 == n0 + B as real
    requires c1 == Mul(c, mu) && p1 == Mul(C3, p)
    requires now == Div(Mul(c, n0), p) && next == Div(Mul(c1, n1), p1)
    ensures 1000000000000.0 * next < now
  {
    assert n1 <= 42.0 * n0;
    MulLeft(mu, 1728.0, n1);
    assert mu * n1 <= 72576.0 * n0;
    QuotientOfProducts(c, p, mu * n1, C3);
    assert next == (c / p) * ((mu * n1) / C3);
    MulLeft((mu * n1) / C3, 72576.0 * n0 / C3, c / p);
    assert next <= (c / p) * (72576.0 * n0 / C3);
    assert (c / p) * (72576.0 * n0 / C3) == now * (72576.0 / C3);
  }

  lemma FirstMagnitudes()
    ensures Magnitude(0) == A as real
    ensures Magnitude(1) < 0.0000136
  {
    FirstCoefficients();
    MagnitudeDecreases(0);
  }

  /** The partial sums of an alternating series with shrinking terms stay
      between lo = a_0 - a_1 and hi = a_0; the parity clauses carry the
      induction: after an odd number of terms the next subtraction cannot
      go below lo, after an even number the next addition cannot pass hi. */
  lemma {:induction false} AlternatingBounds(n: nat, lo: real, hi: real)
    requires n >= 1
    requires hi == Magnitude(0) && lo == hi - Magnitude(1)
    ensures lo <= PartialSum(n) <= hi
    ensures n % 2 == 1 ==> lo <= PartialSum(n) - Magnitude(n)
    ensures n % 2 == 0 ==> PartialSum(n) + Magnitude(n) <= hi
  {
    if n == 1 {
      assert PartialSum(1) == PartialSum(0) + Term(0);
    } else {
      AlternatingBounds(n - 1, lo, hi);
      MagnitudeDecreases(n - 1);
      assert (n - 1) % 2 == 1 <==> n % 2 == 0;
      assert PartialSum(n) == PartialSum(n - 1) + Term(n - 1);
      BoundsStep(lo, hi, PartialSum(n - 1), PartialSum(n),
                 Magnitude(n - 1), Magnitude(n), (n - 1) % 2 == 1);
    }
  }

  /** One more term, of magnitude m, added with its sign: the sum stays within
      [lo, hi], and so does the sum plus or minus the next, smaller magnitude. */
  lemma BoundsStep(lo: real, hi: real, s: real, next: real, m: real, m1: real, odd: bool)
    requires 0.0 < m1 && 1000000000000.0 * m1 < m
    requires lo <= s <= hi
    requires odd ==> lo <= s - m
    requires !odd ==> s + m <= hi
    requires next == if odd then s - m else s + m
    ensures lo <= next <= hi
    ensures !odd ==> lo <= next - m1
    ensures odd ==> next + m1 <= hi
  {
  }

  /** One term: the sum is exactly A = 13591409. */
  lemma OneTerm()
    ensures PartialSum(1) == 13591409.0
  {
    FirstMagnitudes();
  }

  /** For every term count n >= 1 the sum lies within 0.0000136 of its first
      term, so in particular it is strictly positive. */
  lemma PartialSumNearFirstTerm(n: nat)
    requires n >= 1
    ensures 13591408.9999864 < PartialSum(n) <= 13591409.0
  {
    AlternatingBounds(n, Magnitude(0) - Magnitude(1), Magnitude(0));
    FirstMagnitudes();
  }

  /** (-1)^k is 1 on even k and -1 on odd k. */
  lemma {:induction false} SignPower(k: nat)
    ensures Power(-1.0, k) == if k % 2 == 0 then 1.0 else -1.0
  {
    if k > 0 {
      SignPower(k - 1);
    }
  }

  /** Negating on odd k is the factor (-1)^k of the series. */
  lemma TermClosedForm(k: nat)
    ensures Term(k) == Power(-1.0, k) * Magnitude(k)
  {
    SignPower(k);
  }

  lemma CubeOfC()
    ensures Power(C as real, 3) == C3
  {
    CubeIsPower(C);
  }
}
