# Chudnovsky pi

A model of `calculate_pi` in `pi.c`, which evaluates the Chudnovsky series

    1/pi = 12 * sum_{k >= 0} (-1)^k * K_k * (13591409 + 545140134 k) / C3^k / sqrt(C3)
    K_k  = (6k)! / ((3k)! * (k!)^3),   C3 = 640320^3

to a precision given in bits. The function works in three steps.

- **Term count.** It turns the bit precision into a number of terms: `(int)(prec * 0.30103 / 14.181647) + 1`, and at least 1.
- **Series loop.** The `for k` loop updates three running quantities in place:
  - `sum` gets each term `K * (A + B k) / X`, negated on odd `k`;
  - `K` is multiplied by `(6k+1)...(6k+6) / ((3k+1)(3k+2)(3k+3) (k+1)^3)`, which two inner product loops and a cube build, on every pass but the last;
  - `X` is multiplied by `C3` on every pass.
- **Result.** It returns `sqrt(C3) / (12 * sum)`.

The model has two modules.

- `Chudnovsky` (`chudnovsky.dfy`) holds the specification functions and the facts about them:
  - `Factorial`, `Power`, `RisingProduct`;
  - the coefficient `Coefficient` (`K_k` in closed form), `Multiplier`, `Magnitude`, `Term`, `PartialSum`.
- `Pi` (`pi.dfy`) holds the code itself:
  - the term count `Iterations`;
  - the inner product loops, as the method `MultiplyConsecutive`;
  - the `for k` loop, as the method `AccumulateSeries`, which is proved against `PartialSum`, `Coefficient` and `Power`;
  - `CalculatePi`.

Every MPFR operation is exact arithmetic on `real`. Integers are unbounded `int`. The square root of `C3` is a parameter `root` with `root > 0` and `root * root == C3`.

The main results are these.

- **Loop invariants.** At the start of pass `k`, `X = C3^k`, `K = K_k` and `sum` is the sum of the first `k` terms. After the loop, `X = C3^n`, `sum` is the sum of `n` terms, and `K = K_{n-1}`, since `K` is not advanced on the last pass.
- **The `K` update.** `K_{k+1} = K_k * multiplier`, proved from the factorial identities.
- **The sum.** Each term is more than `10^12` times smaller than the one before it. So for every term count the sum lies within `0.0000136` below `13591409`. In particular `12 * sum` is never zero.
- **The result.** For every precision the result lies strictly between `3.1415926535` and `3.1415926537`.

## Model

| member | source | states |
|---|---|---|
| Pi.TruncateToInt | pi.c:13 | The C conversion `(int)x` truncates toward zero: for `x >= 0`, `r <= x < r + 1`; for `x < 0`, `r - 1 < x <= r` |
| Pi.Iterations | pi.c:12-14 | The term count is at least 1 for every precision, including zero and negative ones |
| Pi.IterationsClosedForm | pi.c:12-14 | The term count is `prec * 301030 / 14181647 + 1` in integer division for `prec > 0`, and 1 for `prec <= 0` |
| Pi.IterationsMonotone | pi.c:12-14 | More bits of precision never give fewer terms |
| Pi.IterationsExamples | pi.c:12-14 | 1 term at 1 and 47 bits, 2 terms at 48, 53 and 64 bits, 5 at 200 bits and 22 at 1000 bits |
| Pi.FixedWidthBounds | pi.c:13-44 | For `0 < prec <= 2^31 - 1`, the term count is at most 45584057; the largest factor `6k + 6` fits in 32 bits; `13591409 + 545140134 k` fits in 64 bits |
| Pi.MultiplyConsecutive | pi.c:35-46 | The inner loop that starts from 1 and multiplies by `base + i` for `i = 1..count` leaves `(base+1)...(base+count)`: with `6k, 6` this is `temp`, with `3k, 3` it is `temp2` |
| Pi.RisingStep | pi.c:38 | One multiplication of the inner loop extends the product by its next factor |
| Pi.MultiplierAsComputed | pi.c:48-53 | `temp / (temp2 * (k+1)^3)`, built from the inner loops and the cube, is `Multiplier(k)` |
| Pi.MagnitudeAsComputed | pi.c:26-28 | `K * (13591409 + 545140134 k) / X` with `K = K_k` and `X = C3^k` is the magnitude of term `k` |
| Pi.CoefficientAsComputed | pi.c:54 | `K * multiplier` is `K_{k+1}` when `K = K_k` |
| Pi.PowerAsComputed | pi.c:59 | `X * C3` is `C3^(k+1)` when `X = C3^k` |
| Pi.AccumulateSeries | pi.c:19-60 | After `n >= 1` passes of the loop: `sum` is `PartialSum(n)`, `K` is `K_{n-1}` (not advanced on the last pass), and `X` is `C3^n` (advanced on every pass) |
| Pi.CalculatePi | pi.c:11-66 | The result is `root / (12 * PartialSum(Iterations(prec)))` with that sum strictly positive, and it lies in `(3.1415926535, 3.1415926537)` |
| Pi.PiBounds | pi.c:64-66 | For `root^2 = C3` and any sum in `(13591408.9999864, 13591409]`, `root / (12 sum)` lies in `(3.1415926535, 3.1415926537)` |
| Chudnovsky.Power | pi.c:59 | A power of a positive base is positive, so `X` stays positive |
| Chudnovsky.RisingProduct | pi.c:35-46 | The product of the inner loops is at least 1 for a non-negative base |
| Chudnovsky.Coefficient | pi.c:23 | `K_k = (6k)! / ((3k)! (k!)^3)` is strictly positive |
| Chudnovsky.MultiplierDenominator | pi.c:52 | `denominator = (3k+1)(3k+2)(3k+3) (k+1)^3`, as an integer, is at least 1 |
| Chudnovsky.Multiplier | pi.c:53 | The factor that advances `K` is strictly positive |
| Chudnovsky.Numerator | pi.c:26 | The numerator `A + B k` of term `k` is at least `A = 13591409` |
| Chudnovsky.Magnitude | pi.c:26-28 | The magnitude of every term is strictly positive |
| Chudnovsky.PartialSum | pi.c:22-32 | Defines `sum` after `n` passes: the sum of terms `0 .. n-1`, starting from zero; no contract of its own, its properties are the lemmas below and the ensures of `Pi.AccumulateSeries` |
| Chudnovsky.FirstCoefficients | pi.c:23 | `K_0 = 1`, the value `K` starts from, and `K_1 = 120` |
| Chudnovsky.CubeOfC | pi.c:19-20 | `640320^3`, computed as a power, is `C3 = 262537412640768000` |
| Chudnovsky.CubeIsPower | pi.c:49-50 | `(k+1)` raised to the third power as a real is the integer cube |
| Chudnovsky.FactorialSplit | pi.c:36-46 | `(m+n)! = m! * (m+1)...(m+n)`, which is why the inner products advance factorials |
| Chudnovsky.FactorialSixStep | pi.c:36-39 | `(6k+6)! = (6k)! * (6k+1)...(6k+6)` |
| Chudnovsky.DenominatorStep | pi.c:43-52 | `(3k+3)! ((k+1)!)^3 = (3k)! (k!)^3 * (3k+1)(3k+2)(3k+3) (k+1)^3` |
| Chudnovsky.CoefficientStep | pi.c:34-54 | `K_{k+1} = K_k * Multiplier(k)`: the update of `K` moves it from the closed form of term `k` to that of term `k+1` |
| Chudnovsky.SixFoldProduct | pi.c:36-46 | `(6k+1)...(6k+6) = 8 (6k+1)(6k+3)(6k+5) * (3k+1)(3k+2)(3k+3)` |
| Chudnovsky.MultiplierBound | pi.c:52-54 | `0 < Multiplier(k) <= 1728`, so `K` grows by at most `12^3` per pass |
| Chudnovsky.MagnitudeDecreases | pi.c:25-33 | Each term is more than `10^12` times smaller in magnitude than the one before it |
| Chudnovsky.FirstMagnitudes | pi.c:25-33 | Term 0 is `13591409`, and term 1 is smaller than `0.0000136` in magnitude |
| Chudnovsky.AlternatingBounds | pi.c:25-33 | For `n >= 1` the sum of `n` terms lies between `a_0 - a_1` and `a_0`, and adding the next signed term keeps it there |
| Chudnovsky.BoundsStep | pi.c:29-32 | Adding one signed term whose magnitude exceeds the next one keeps the alternating sum within its bounds |
| Chudnovsky.OneTerm | pi.c:25-32 | With a single term the sum is exactly `13591409` |
| Chudnovsky.PartialSumNearFirstTerm | pi.c:62-66 | For every term count `n >= 1`, `13591408.9999864 < sum <= 13591409`, so `12 * sum` is not zero |
| Chudnovsky.SignPower | pi.c:29-31 | `(-1)^k` is 1 for even `k` and -1 for odd `k` |
| Chudnovsky.TermClosedForm | pi.c:29-31 | Negating on odd `k` gives term `k` as `(-1)^k` times its magnitude |
| Chudnovsky.Term | pi.c:29-31 | Term `k` is its magnitude negated when `k` is odd; it is negative exactly when `k` is odd and positive exactly when `k` is even |

## Left out

- MPFR rounding to nearest at every operation, the working precision and the error it accumulates. Every operation is exact on `real`.
- The results about the value of pi hold for the exact sum. They do not bound the rounding error at a given `prec`.
- Iterations: evaluates `prec * 0.30103 / 14.181647` exactly over the reals. The source uses IEEE doubles, and neither constant is exact in binary. Since `gcd(301030, 14181647) = 1`, the exact quotient is an integer only when `prec` is a multiple of 14181647. Only at such precisions can the double result truncate to one less.
- `mpfr_set_default_prec`, `mpfr_inits`, `mpfr_init_set_*` and `mpfr_clears` (pi.c:9, 16-17, 41-42, 48-49, 55-56, 63, 68) have no behaviour to state beyond the values they set.
- `mpfr_sqrt` (pi.c:64) is not modelled. Reals have no square root, so `root` is a parameter constrained by `root > 0` and `root * root == C3`.
- CalculatePi: requires `prec >= 1`, the smallest precision MPFR accepts; its only caller, `main`, rejects any precision below 1 (pi.c:78-81). The term count itself is modelled for every `int`.
- FixedWidthBounds: states the absence of overflow only for `0 < prec <= 2^31 - 1`. Elsewhere the model uses unbounded integers and does not model overflow of `545140134LL * k` or `long factor`. The 64-bit bound on `13591409 + 545140134 k` assumes a 64-bit `long`, since `mpfr_set_si` takes a `long`. With a 32-bit `long` that value is narrowed from `k = 4` on, which is every `prec >= 189`. The model does not capture that narrowing.
- MultiplyConsecutive: one method models both inner loops, with the base and factor count as parameters. The source writes the loop twice, with 6 and with 3 factors.
- `main` (pi.c:71-102) is not part of this model: argument parsing, `atoi`, the output format buffer and printing are input and output.
