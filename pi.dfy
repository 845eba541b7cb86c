/** calculate_pi: choose a term count from the requested precision, sum that
    many terms of the Chudnovsky series with the running quantities K, X and
    the numerator, and divide sqrt(C3) by 12 times the sum.

    MPFR numbers are modelled as exact reals; the square root of C3 is
    passed in as `root`. */
module Pi {
  import opened Chudnovsky

  // ---------------------------------------------------------------------
  // The term count

  /** The C conversion (int)x, which truncates toward zero. */
  function TruncateToInt(x: real): (r: int)
    ensures x >= 0.0 ==> 0 <= r && r as real <= x < r as real + 1.0
    ensures x < 0.0 ==> r <= 0 && r as real - 1.0 < x <= r as real
  {
    if x >= 0.0 then x.Floor else -((-x).Floor)
  }

  /** The number of terms: (int)(prec * 0.30103 / 14.181647) + 1, at least 1.
      0.30103 approximates log10(2) and 14.181647 is the number of decimal
      digits each term adds. */
  function Iterations(prec: int): (n: int)
    ensures n >= 1
  {
    var n := TruncateToInt(prec as real * 0.30103 / 14.181647) + 1;
    if n < 1 then 1 else n
  }

  /** For a >= 0 and b > 0 the floor of the real quotient is the integer quotient. */
  lemma FloorOfQuotient(a: int, b: int)
    requires a >= 0 && b > 0
    ensures ((a as real) / (b as real)).Floor == a / b
  {
    var q, r := a / b, a % b;
    var x := (a as real) / (b as real);
    assert a == q * b + r && 0 <= r < b;
    assert (a as real) == (q as real) * (b as real) + (r as real) by {
      CastProduct(q, b);
    }
    assert x == (q as real) + (r as real) / (b as real);
    assert 0.0 <= (r as real) / (b as real) < 1.0;
  }

  /** The estimate in integers: one term per started block of 14181647 / 301030
      bits, and a single term for any precision that is not positive. */
  lemma IterationsClosedForm(prec: int)
    ensures Iterations(prec) == if prec <= 0 then 1 else prec * 301030 / 14181647 + 1
  {
    var x := prec as real * 0.30103 / 14.181647;
    assert x == (prec * 301030) as real / 14181647.0;
    if prec > 0 {
      FloorOfQuotient(prec * 301030, 14181647);
    }
  }

  /** More bits of precision never mean fewer terms. */
  lemma IterationsMonotone(p: int, q: int)
    requires p <= q
    ensures Iterations(p) <= Iterations(q)
  {
    IterationsClosedForm(p);
    IterationsClosedForm(q);
    if p > 0 {
      DivMonotone(p * 301030, q * 301030, 14181647);
    }
  }

  lemma DivMonotone(a: int, b: int, d: int)
    requires 0 <= a <= b && d > 0
    ensures a / d <= b / d
  {
    var qa, qb := a / d, b / d;
    assert qa * d <= a <= b < (qb + 1) * d;
    CancelFactor(qa, qb + 1, d);
  }

  lemma CancelFactor(x: int, y: int, d: int)
    requires d > 0 && x * d < y * d
    ensures x < y
  {
    assert (y - x) * d == y * d - x * d;
  }

  /** The term count for some precisions: one term up to 47 bits, two for 53
      and 64 bits, five for 200 bits and 22 for 1000 bits. */
  lemma IterationsExamples()
    ensures Iterations(1) == 1 && Iterations(47) == 1
    ensures Iterations(48) == 2 && Iterations(53) == 2 && Iterations(64) == 2
    ensures Iterations(200) == 5 && Iterations(1000) == 22
  {
    IterationsClosedForm(1);
    IterationsClosedForm(47);
    IterationsClosedForm(48);
    IterationsClosedForm(53);
    IterationsClosedForm(64);
    IterationsClosedForm(200);
    IterationsClosedForm(1000);
  }

  /** For every precision an int can hold, the machine integers of the loop do
      not overflow: the term count fits, the factor 6*k + i of the first inner
      loop (at most 6*k + 6) stays below 2^31, and 13591409 + 545140134*k stays
      below 2^63. That value is computed as a long long and handed to MPFR as a
      long, so the last bound means no overflow only where long is 64 bits. */
  lemma FixedWidthBounds(prec: int)
    requires 0 < prec <= 0x7fff_ffff
    ensures Iterations(prec) <= 45584057
    ensures 6 * (Iterations(prec) - 1) + 6 <= 0x7fff_ffff
    ensures A + B * (Iterations(prec) - 1) <= 0x7fff_ffff_ffff_ffff
  {
    IterationsClosedForm(prec);
    DivMonotone(prec * 301030, 0x7fff_ffff * 301030, 14181647);
  }

  // ---------------------------------------------------------------------
  // The loop

  /** The inner loops: temp = 1, then temp *= base + i for i = 1 .. count. */
  method MultiplyConsecutive(base: int, count: nat) returns (p: real)
    ensures p == RisingProduct(base, count) as real
  {
    p := 1.0;
    for i := 1 to count + 1
      invariant p == RisingProduct(base, i - 1) as real
    {
      RisingStep(base, i, p);
      p := p * ((base + i) as real);
    }
  }

  /** One factor more of the product, the cast to reals taken factor by factor. */
  lemma RisingStep(base: int, i: nat, p: real)
    requires i >= 1 && p == RisingProduct(base, i - 1) as real
    ensures p * ((base + i) as real) == RisingProduct(base, i) as real
  {
    CastProduct(RisingProduct(base, i - 1), base + i);
  }

  /** The divisor temp2 * temp3 of the multiplier is a product of positive factors. */
  lemma PositiveRealProduct(x: real, y: real)
    requires x > 0.0 && y > 0.0
    ensures x * y > 0.0
  {
  }

  /** The multiplier the loop computes, temp / (temp2 * (k+1)^3), is Multiplier(k). */
  lemma MultiplierAsComputed(k: nat, temp: real, temp2: real, temp3: real, denominator: real, multiplier: real)
    requires temp == RisingProduct(6 * k, 6) as real
    requires temp2 == RisingProduct(3 * k, 3) as real
    requires temp3 == Power((k + 1) as real, 3)
    requires denominator == temp2 * temp3 && denominator != 0.0 && multiplier == temp / denominator
    ensures multiplier == Multiplier(k)
  {
    CubeIsPower(k + 1);
    CastProduct(RisingProduct(3 * k, 3), Cube(k + 1));
    assert denominator == Mul(temp2, temp3);
    assert multiplier == Div(temp, Mul(temp2, temp3));
  }

  /** The term the loop forms, K * (A + B*k) / X, is the magnitude of term k. */
  lemma MagnitudeAsComputed(k: nat, coefficient: real, numerator: real, x: real, product: real, term: real)
    requires coefficient == Coefficient(k) && numerator == Numerator(k) as real && x == Power(C3, k)
    requires product == coefficient * numerator && term == product / x
    ensures term == Magnitude(k)
  {
    MagnitudeAsQuotient(k);
    assert product == Mul(coefficient, numerator);
    assert term == Div(product, x);
  }

  /** K * multiplier is K_{k+1}. */
  lemma CoefficientAsComputed(k: nat, coefficient: real, multiplier: real, next: real)
    requires coefficient == Coefficient(k) && multiplier == Multiplier(k)
    requires next == coefficient * multiplier
    ensures next == Coefficient(k + 1)
  {
    CoefficientStep(k);
    assert Coefficient(k + 1) == Mul(Coefficient(k), Multiplier(k));
    assert next == Mul(coefficient, multiplier);
  }

  /** X * C3 is C3^(k+1). */
  lemma PowerAsComputed(k: nat, x: real, next: real)
    requires x == Power(C3, k) && next == x * C3
    ensures next == Power(C3, k + 1)
  {
  }

  /** The `for k` loop of calculate_pi: on leaving it, sum holds the first n
      terms, X = C3^n because X is advanced on every pass, and K is the
      coefficient of the last term because K is not advanced on the last pass. */
  method AccumulateSeries(n: nat) returns (sum: real, coefficient: real, x: real)
    requires n >= 1
    ensures sum == PartialSum(n)
    ensures coefficient == Coefficient(n - 1)
    ensures x == Power(C3, n)
  {
    var c := C as real;
    var c3 := Power(c, 3);
    CubeOfC();
    x := 1.0;
    sum := 0.0;
    coefficient := 1.0;
    FirstCoefficients();
    for k := 0 to n
      invariant x == Power(C3, k)
      invariant sum == PartialSum(k)
      invariant k < n ==> coefficient == Coefficient(k)
      invariant k == n ==> coefficient == Coefficient(k - 1)
    {
      var numerator := Numerator(k) as real;
      var product := coefficient * numerator;
      var term := product / x;
      MagnitudeAsComputed(k, coefficient, numerator, x, product, term);
      if k % 2 != 0 {
        term := -term;
      }
      sum := sum + term;
      if k < n - 1 {
        var temp := MultiplyConsecutive(6 * k, 6);
        var temp2 := MultiplyConsecutive(3 * k, 3);
        var temp3 := Power((k + 1) as real, 3);
        PositiveRealProduct(temp2, temp3);
        var denominator := temp2 * temp3;
        var multiplier := temp / denominator;
        MultiplierAsComputed(k, temp, temp2, temp3, denominator, multiplier);
        var next := coefficient * multiplier;
        CoefficientAsComputed(k, coefficient, multiplier, next);
        coefficient := next;
      }
      var nextX := x * c3;
      PowerAsComputed(k, x, nextX);
      x := nextX;
    }
  }

  /** calculate_pi with exact arithmetic: the result is sqrt(C3) divided by 12
      times the sum of the first Iterations(prec) terms, the divisor is never
      zero, and for every precision the result agrees with pi to ten decimal
      places. */
  method CalculatePi(prec: int, root: real) returns (pi: real)
    requires prec >= 1
    requires root > 0.0 && root * root == C3
    ensures PartialSum(Iterations(prec)) > 0.0
    ensures pi == root / (PartialSum(Iterations(prec)) * 12.0)
    ensures 3.1415926535 < pi < 3.1415926537
  {
    var iterations := Iterations(prec);
    var sum, _, _ := AccumulateSeries(iterations);
    PartialSumNearFirstTerm(iterations);
    pi := root / (sum * 12.0);
    PiBounds(root, sum);
  }

  /** sqrt(C3) / (12 s) for any s within 0.0000136 below A = 13591409 lies
      within 10^-10 of pi: 512384047.99 < sqrt(C3) < 512384048. */
  lemma PiBounds(root: real, s: real)
    requires root > 0.0 && root * root == C3
    requires 13591408.9999864 < s <= 13591409.0
    ensures 3.1415926535 < root / (s * 12.0) < 3.1415926537
  {
    var lo, hi := 512384047.99, 512384048.0;
    if root <= lo {
      MulBoth(root, lo);
      assert false;
    }
    if root >= hi {
      MulBoth(hi, root);
      assert false;
    }
    var d := s * 12.0;
    assert 163096907.9998368 < d <= 163096908.0;
    QuotientBounds(root, d, lo, hi, 163096907.9998368, 163096908.0);
  }

  /** lo < x < hi and dlo < d <= dhi give lo / dhi < x / d < hi / dlo. */
  lemma QuotientBounds(x: real, d: real, lo: real, hi: real, dlo: real, dhi: real)
    requires 0.0 < lo < x < hi && 0.0 < dlo < d <= dhi
    ensures lo / dhi < x / d < hi / dlo
  {
    LargerDivisor(lo, d, dhi);
    SmallerDividend(lo, x, d);
    SmallerDividend(x, hi, d);
    LargerDivisor(hi, dlo, d);
    assert hi / d != hi / dlo;
  }

  lemma LargerDivisor(a: real, d: real, e: real)
    requires 0.0 < a && 0.0 < d <= e
    ensures a / e <= a / d
  {
    assert a / e * e == a == a / d * d;
  }

  lemma SmallerDividend(a: real, b: real, d: real)
    requires a < b && 0.0 < d
    ensures a / d < b / d
  {
    assert b / d - a / d == (b - a) / d;
  }

  lemma MulBoth(x: real, y: real)
    requires 0.0 < x <= y
    ensures x * x <= y * y
  {
    assert x * x <= x * y;
  }
}
