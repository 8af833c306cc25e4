# hall: symbolic probability kernel in Dafny

This project models the core of `hall`, a small Python library for symbolic
probability. Its main parts:

- **Numbers.** Python and mpmath numbers are classified and cleaned into three
  kinds: integer, float and complex.
- **Intervals.** Closed intervals over those numbers serve as distribution
  supports. The model covers membership, comparisons, intersection, union,
  arithmetic and the bookkeeping of a lazy convolution.
- **Distributions.** The discrete Binomial, Bernoulli and Uniform
  distributions come with their closed forms and the guarded wrappers `f`,
  `F` and `G`. `G` is backed by an inverse-CMF scan.
- **Events.** `X == c`, `X != c` and the ranges `a < X <= b` are lazy
  events with a complement (`~`) and a probability.
- **Random variables.** Comparing a `Stochast` random variable with a
  number builds one of those events.

Python floats and mpmath's `mpf` are modelled as exact `real`s, so there is
no rounding, no infinity and no NaN; a Python `int / int` is exact too. Python exceptions and the `NotImplemented` operator
sentinel become values of `Exceptions.Error`, and a call that may raise
returns a `Result`.

Files:

| file | module | models |
|---|---|---|
| `exceptions.dfy` | `Exceptions` | errors, `Result`, `Option` |
| `numbers.dfy` | `Numbers` | `hall/numbers.py`, and the numeric tower's operators on cleaned numbers |
| `analysis.dfy` | `Analysis` | `hall/analysis.py` |
| `discrete.dfy` | `Discrete` | `hall/discrete.py` |
| `events.dfy` | `Events` | `hall/_event.py` and `hall/event.py` (one generic event type) |
| `core.dfy` | `Core` | `hall/_core.py` |
| `scenarios.dfy` | `Scenarios` | discrete distributions wired into random variables; the properties of `tests/test_discrete.py` |

The form of the model follows the source:

- Intervals, numbers, distributions and events are immutable values in
  Python. Here they are datatypes, and their operations are functions.
- The two loops of the source are methods with loop invariants, each
  proved equal to a recursive specification function:
  - `_cmax`, as `Analysis.CMax` against `Analysis.CMaxOf`;
  - `cmf_inv`, as `Discrete.Scan` against `Discrete.ScanFrom`.
- The Binomial cumulative mass calls the regularized incomplete beta
  function `mpmath.betainc`. Each Binomial carries it as a function
  parameter `betainc(a, b, q)`. The model proves nothing about its values.
- `hall/_event.py` and `hall/event.py` differ only in how an event reaches its
  variable's distribution: `X.f` in one, `X.distribution.f` in the other.
  `Events.Event<V>` is generic in the variable. Its probability `Events.P`
  takes an accessor from the variable to a `Law` (discrete flag, `f`, `F`).
  `Core.LawOf` is the accessor for `hall/event.py`.
- The two files also use different predicates for the `[0, 1]` check.
  hall/event.py uses `hall.typing.is_probability`; hall/_event.py uses
  `hall.numbers.is_probability`. On the `mpf` value the check receives, both
  are `0 <= p <= 1`, which is what `Events.P` checks.

## Model

| member | source | states |
|---|---|---|
| Numbers.CleanNumber | hall/numbers.py:129-142 | ints clean to IntType, floats/Decimal/Fraction to FloatType, complex to ComplexType, with the same real and imaginary parts; a non-number raises TypeError |
| Numbers.CleanIsIdempotent | hall/numbers.py:129-142 | cleaning a cleaned number returns the same kind and value |
| Numbers.IsInt | hall/numbers.py:61-62 | `is_int`: a Python int, bool included (`IntType` is `int`); its meaning is what Numbers.KindsAreExclusive and Numbers.NumberKinds establish |
| Numbers.IsFloat | hall/numbers.py:75-76 | `is_float`: a Python float, an `mpf` or an mpmath constant; see Numbers.KindsAreExclusive |
| Numbers.IsComplex | hall/numbers.py:90-91 | `is_complex`: a Python complex or an `mpc`; see Numbers.KindsAreExclusive |
| Numbers.IsNumber | hall/numbers.py:106-107 | `is_number`: one of the raw number types, Decimal and Fraction included; Numbers.NumberKinds lists them and Numbers.CleanNumber succeeds exactly on them |
| Numbers.IsMpNumber | hall/numbers.py:110-111 | `is_mp_number`: a number that is not a Python-native one; Numbers.NumberKinds lists them |
| Numbers.IsProbability | hall/numbers.py:79-80 | `is_probability`: float kind and in [0, 1]; Numbers.ProbabilityKinds states what it rejects |
| Numbers.KindsAreExclusive | hall/numbers.py:61-91 | no object is two of int, float and complex |
| Numbers.NumberKinds | hall/numbers.py:106-111 | `is_number` accepts exactly the int, float, complex, Decimal and Fraction kinds; `is_mp_number` exactly mpf, mpmath constants and mpc |
| Numbers.ProbabilityKinds | hall/numbers.py:79-80 | a probability is a float-kind number in [0, 1]; the integers 0 and 1, `True` and a Fraction are not |
| Numbers.NumNeg | hall/analysis.py:205-206 | negation negates both parts and keeps the kind |
| Numbers.NumAdd | hall/analysis.py:156-162 | the sum's parts are the sums of the parts; int + int is an int; a complex operand gives a complex |
| Numbers.NumSub | hall/analysis.py:164-170 | the same for the difference |
| Numbers.NumMul | hall/analysis.py:172-178 | the complex product's parts; int * int is an int; a complex operand gives a complex |
| Numbers.NumDiv | hall/analysis.py:180-186 | division by zero raises ZeroDivisionError, and only that; for real operands quotient * divisor == dividend; true division never yields an int |
| Numbers.NumHalf | hall/analysis.py:245-251 | halving halves both parts and never yields an int |
| Analysis.Make | hall/analysis.py:72-78 | the constructor yields `a.real <= b.real` and `a.imag <= b.imag`: real parts are the min/max of the inputs' real parts, imaginary parts likewise; a normalised pair is kept; real inputs stay real |
| Analysis.MakeIdempotent | hall/analysis.py:72-78 | rebuilding a constructed interval changes nothing |
| Analysis.EndpointsAreMembers | hall/analysis.py:86-97 | both endpoints are members, and an interval contains itself, for both classes |
| Analysis.Contains | hall/analysis.py:86-97 | `x in I`: an interval operand by its endpoints, a number by the box test, anything else false; a DiscreteInterval first rejects non-integers and plain Intervals (hall/analysis.py:278-283); Analysis.SubintervalIsInclusion, Analysis.DiscreteRejects and Analysis.EndpointsAreMembers state its meaning |
| Analysis.MakeMembers | hall/analysis.py:72-97 | the members of `Interval(a, b)` are the numbers in the box spanned by `a` and `b` |
| Analysis.SubintervalIsInclusion | hall/analysis.py:86-97 | `J in I` iff every point of `J` is a point of `I` |
| Analysis.DiscreteRejects | hall/analysis.py:278-283 | a DiscreteInterval contains no non-integer and no plain Interval |
| Analysis.Eq | hall/analysis.py:99-105 | `I == other`: equal endpoints for an interval, and for a number only a degenerate interval at it; Analysis.EqIsSamePoints and Analysis.EqScalarIsSinglePoint state its meaning |
| Analysis.EqIsSamePoints | hall/analysis.py:99-105 | two intervals are `==` iff they have the same points |
| Analysis.EqScalarIsSinglePoint | hall/analysis.py:99-105 | `I == x` iff `I` is the single point `x` |
| Analysis.CompareTarget | hall/analysis.py:107-131 | a non-number operand gives NotImplemented; an interval operand is compared through one endpoint |
| Analysis.Lt | hall/analysis.py:107-115 | NotImplemented exactly for a non-number; a number operand is cleaned and `I < x` is `b.real < x.real or b.imag < x.imag`; an interval operand is compared through its lower endpoint |
| Analysis.Le | hall/analysis.py:117-121 | `I <= x` iff `I == x` or `I < x` |
| Analysis.Gt | hall/analysis.py:123-131 | NotImplemented exactly for a non-number; a number operand is cleaned and `I > x` is `a.real > x.real or a.real > x.imag`, as written; an interval operand is compared through its upper endpoint |
| Analysis.Ge | hall/analysis.py:133-137 | `I >= x` iff `I == x` or `I > x` |
| Analysis.LtIsAllBelow | hall/analysis.py:107-115 | for real `I` and `x`, `I < x` iff every point of `I` is below `x` |
| Analysis.GtIntendedIsAllAbove | hall/analysis.py:123-131 | for real `I` and `x`, the corrected `I > x` iff every point of `I` is above `x` |
| Analysis.Trichotomy | hall/analysis.py:107-131 | a real number is below, inside or above a real interval, and exactly one of these |
| Analysis.GtAsWrittenCounterexample | hall/analysis.py:123-131 | as written, `DiscreteInterval(1, 2) > 2` holds although 2 is a member |
| Analysis.GtAgreesWhenLowerNonPositive | hall/analysis.py:123-131 | with a lower endpoint <= 0 the written and corrected `>` agree (so Binomial's guards are unaffected) |
| Analysis.IsDisjoint | hall/analysis.py:268-275 | `isdisjoint` as written, all four clauses; Analysis.DisjointIffNoCommonPoint and Analysis.DisjointAsWrittenCounterexample state its meaning |
| Analysis.IsDisjointIntended | hall/analysis.py:268-275 | `isdisjoint` with the last clause on `self.b.imag`; Analysis.DisjointIntendedIffNoCommonPoint states it is exact |
| Analysis.DisjointIffNoCommonPoint | hall/analysis.py:268-275 | for real intervals the four clauses as written hold iff the intervals share no point |
| Analysis.DisjointIntendedIffNoCommonPoint | hall/analysis.py:268-275 | the corrected test holds iff the intervals share no point, complex ones included |
| Analysis.DisjointAsWrittenCounterexample | hall/analysis.py:268-275 | as written, `[0j, 1+2j]` and `[1j, 1+3j]` are "disjoint" though both contain `1+1j` |
| Analysis.CMaxStep | hall/analysis.py:40-59 | one step of `_cmax`: TypeError exactly when a real running maximum meets a complex argument; the real maximum; the componentwise maximum of two complexes |
| Analysis.CMaxOf | hall/analysis.py:40-59 | ValueError exactly for no arguments; otherwise a result or TypeError |
| Analysis.CMax | hall/analysis.py:40-59 | the loop computes the left fold `CMaxOf` |
| Analysis.FailedPrefix | hall/analysis.py:40-59 | an exception raised after `k` arguments is the result of the whole call |
| Analysis.CMaxReal | hall/analysis.py:40-59 | over real arguments `_cmax` is one of them and at least every one of them |
| Analysis.CMaxComplex | hall/analysis.py:40-59 | over complex arguments `_cmax` is the componentwise maximum, each part attained |
| Analysis.NegAll | hall/analysis.py:62-63 | negates every argument |
| Analysis.CMinOf | hall/analysis.py:62-63 | `_cmin` fails exactly when `_cmax` of the negations does; ValueError exactly for no arguments |
| Analysis.CMinReal | hall/analysis.py:62-63 | over real arguments `_cmin` equals one of them and is at most every one |
| Analysis.CMaxMinPair | hall/analysis.py:40-63 | of two reals `_cmax` is the max and `_cmin` the min |
| Analysis.CMaxPair | hall/analysis.py:40-59 | of two numbers `_cmax` raises TypeError exactly for a real then a complex one, and otherwise has the larger real and the larger imaginary part |
| Analysis.CMinPair | hall/analysis.py:62-63 | of two numbers `_cmin` raises exactly when that `_cmax` does, and otherwise has the smaller real and the smaller imaginary part |
| Analysis.Meet | hall/analysis.py:144 | `type(self)(_cmax(a, a'), _cmin(b, b'))`: TypeError exactly when either call raises, otherwise a valid interval of the class of `I` |
| Analysis.Join | hall/analysis.py:153 | `type(self)(_cmin(a, a'), _cmax(b, b'))`: TypeError exactly when either call raises, otherwise a valid interval of the class of `I` |
| Analysis.And | hall/analysis.py:139-145 | as written: NotImplemented for a non-interval; None exactly when the written `isdisjoint` holds; otherwise `Meet`, a valid interval of the class of `I` |
| Analysis.AndIntended | hall/analysis.py:139-145 | the same with the corrected disjointness test: None exactly when the corrected test holds |
| Analysis.IntendedDisjointIsDisjoint | hall/analysis.py:268-275 | whatever the corrected test calls disjoint the written one does too, so the written test only adds false positives |
| Analysis.MeetIsIntersection | hall/analysis.py:139-145 | for overlapping boxes, the points of `Meet(I, J)` are exactly those of both |
| Analysis.AndIsIntersection | hall/analysis.py:139-145 | with the corrected test, complex intervals included: None iff no point is shared, otherwise `y in I & J` iff `y in I` and `y in J`; never raises on real intervals |
| Analysis.AndAsWrittenIsSound | hall/analysis.py:139-145 | as written, whenever `I & J` is an interval it is the intersection; on real intervals the written and the corrected `&` are equal |
| Analysis.AndAsWrittenCounterexample | hall/analysis.py:139-145 | as written, `[0j, 1+2j] & [1j, 1+3j]` is None though both hold `1+1j`; corrected it is `[1j, 1+2j]` |
| Analysis.Or | hall/analysis.py:147-154 | as written: NotImplemented for a non-interval; NotImplementedError when the written `isdisjoint` holds; otherwise `Join`, a valid interval of the class of `I` |
| Analysis.OrIntended | hall/analysis.py:147-154 | the same with the corrected disjointness test |
| Analysis.JoinIsHull | hall/analysis.py:147-154 | whenever `Join` succeeds both operands are subintervals of it, and its endpoints are the componentwise minimum and maximum, for complex intervals too |
| Analysis.OrIsHull | hall/analysis.py:147-154 | whenever `__or__` succeeds, written or corrected, both operands are subintervals of it; the corrected union is the smallest such box; overlapping real intervals always have a union |
| Analysis.OrAsWrittenCounterexample | hall/analysis.py:147-154 | as written, the union of `[0j, 1+2j]` and `[1j, 1+3j]` raises NotImplementedError; corrected it is `[0j, 1+3j]` |
| Analysis.ArithOperand | hall/analysis.py:156-186 | a number operand is cleaned; anything else gives NotImplemented |
| Analysis.AddIntervals | hall/analysis.py:156-162 | endpoint-wise sum that keeps the class |
| Analysis.Add | hall/analysis.py:156-162 | NotImplemented exactly for a non-number; an interval operand adds endpoint-wise |
| Analysis.Sub | hall/analysis.py:164-170 | NotImplemented exactly for a non-number |
| Analysis.Mul | hall/analysis.py:172-178 | NotImplemented exactly for a non-number |
| Analysis.Div | hall/analysis.py:180-186 | NotImplemented for a non-number; ZeroDivisionError, and only that, exactly for a zero number divisor or a zero endpoint of an interval divisor |
| Analysis.DivScales | hall/analysis.py:180-186 | dividing a real interval by a positive real holds every quotient: `y in I` implies `y / x in I / x` |
| Analysis.Neg | hall/analysis.py:205-206 | negation yields a valid interval of the same class |
| Analysis.SubIntervalsMissesDifferences | hall/analysis.py:164-166 | with an interval operand `-` is endpoint-wise: `[0, 1] - [0, 1]` is `[0, 0]`, which misses `1 - 0` |
| Analysis.AddShifts | hall/analysis.py:156-162 | `y in I` iff `y + x in I + x` |
| Analysis.SubShifts | hall/analysis.py:164-170 | `y in I` iff `y - x in I - x` |
| Analysis.AddIntervalsHoldsSums | hall/analysis.py:156-162 | the sum of two intervals holds every sum of their points |
| Analysis.NegReflects | hall/analysis.py:205-206 | `y in I` iff `-y in -I`; negating twice keeps the class and restores both endpoints, real and imaginary parts |
| Analysis.MulScales | hall/analysis.py:172-178 | scaling a real interval by a non-negative real holds every scaled point |
| Analysis.ScaleMonotone | hall/analysis.py:172-178 | multiplying by a non-negative real keeps the order of reals |
| Analysis.IsComplex | hall/analysis.py:214-219 | `is_complex`: a non-zero imaginary part or a complex endpoint; Analysis.ComplexIffComplexEndpoint reduces it to a complex endpoint |
| Analysis.IsDiscrete | hall/analysis.py:221-226 | `is_discrete`: not complex, and both endpoints integers; see Analysis.ComplexIffComplexEndpoint |
| Analysis.IsDegenerate | hall/analysis.py:237-239 | `is_degenerate`: `a == b`; Analysis.DegenerateIsSinglePoint states it means a single point |
| Analysis.ComplexIffComplexEndpoint | hall/analysis.py:214-226 | `is_complex` iff an endpoint is complex; `is_discrete` iff both endpoints are integers |
| Analysis.DegenerateIsSinglePoint | hall/analysis.py:237-239 | `is_degenerate` iff the interval is a single point |
| Analysis.Size | hall/analysis.py:241-243 | `size` has non-negative parts, and is an int for a discrete interval |
| Analysis.Radius | hall/analysis.py:245-247 | `radius` has non-negative parts and is never an int |
| Analysis.Mid | hall/analysis.py:249-251 | `mid` is never an int |
| Analysis.MidAndRadius | hall/analysis.py:241-251 | the midpoint is a member and the endpoints are one radius either side of it |
| Analysis.D | hall/analysis.py:253-266 | `d == 1` exactly for a discrete interval; the complex epsilon exactly for a complex one |
| Analysis.Convolve | hall/analysis.py:333-367 | discrete iff both inputs are; support `[fa + ga, fb + gb]` |
| Analysis.Supp | hall/analysis.py:329-330 | `supp(f)`: the function's support, as Analysis.Convolve and Analysis.ConvolveSupport use it |
| Analysis.ConvolveSupport | hall/analysis.py:333-367 | every sum of points of the supports is in the convolution's support |
| Discrete.NewBinomial | hall/discrete.py:91-102 | TypeError for a non-integer `n`, ValueError for `n < 0`, ValueError for a `p` that is not a probability; succeeds exactly otherwise |
| Discrete.NewBernoulli | hall/discrete.py:137-142 | `Binomial(1, p)`: ValueError exactly when `p` is not a probability |
| Discrete.NewUniform | hall/discrete.py:157-168 | TypeError for a non-integer bound, ValueError unless `a < b`; succeeds exactly otherwise |
| Discrete.Support | hall/discrete.py:104-106 | the discrete interval `[0, n]` (Binomial) or `[a, b]` (Uniform), from `Support`'s ensures; lower <= upper |
| Discrete.Q | hall/discrete.py:108-110 | `q` is a probability and `p + q == 1` |
| Discrete.UniformN | hall/discrete.py:174-176 | `n == b - a + 1 >= 2` |
| Discrete.Mean | hall/discrete.py:112-114 | Binomial mean `n p`; Uniform's branches as written (floor for even `n`, exact for odd) |
| Discrete.MeanIntended | hall/discrete.py:178-183 | the corrected Uniform mean is `(a + b) / 2` in every case |
| Discrete.Variance | hall/discrete.py:116-118 | `n p q` for a Binomial, `(n^2 - 1) / 12` for a Uniform, never negative |
| Discrete.Pmf | hall/discrete.py:120-126 | Binomial: TypeError below 0, 0 above `n`, `C(n,x) p^x q^(n-x)` on `[0, n]`; Uniform: `1/n` on the support, 0 off it |
| Discrete.Cmf | hall/discrete.py:196-200 | Uniform: `(x - a + 1)/n` on `[a, b]`, 0 elsewhere; Binomial: TypeError below 0, 1 above `n`, `betainc(n - x, x + 1, q)` on `[0, n]`; defined from the lower end up |
| Discrete.SupportTests | hall/discrete.py:61-76 | what `x in support`, `x < support` and `x > support` mean for an integer `x` |
| Discrete.f | hall/discrete.py:57-64 | TypeError for a non-integer, 0 off the support, `pmf(x)` on it |
| Discrete.F | hall/discrete.py:66-76 | TypeError for a non-integer; as written 0 for every integer when the support starts above 0; otherwise the corrected `F` |
| Discrete.FIntended | hall/discrete.py:66-76 | TypeError for a non-integer, 0 below the support, 1 above it, `cmf(x)` on it |
| Discrete.FAsWrittenCounterexample | hall/discrete.py:66-76 | a Uniform on `[1, 2]` has `F(2) == 0` as written and 1 when corrected |
| Discrete.ScanFrom | hall/discrete.py:44-53 | the scan from `x` on with the last accepted value `prev`; Discrete.ScanFromFinds and Discrete.ScanFinds state what it returns |
| Discrete.CmfInvOf | hall/discrete.py:37-55 | `cmf_inv` as written, the scan from `x_prev = 0`, with Bernoulli's override; Discrete.CmfInvAsWrittenCounterexample shows it can return a non-outcome |
| Discrete.CmfInvIntendedOf | hall/discrete.py:37-55 | `cmf_inv` with the scan started at the support's lower end; Discrete.CmfInvIntendedInSupport states it always returns an outcome |
| Discrete.Scan | hall/discrete.py:37-55 | the scan loop computes `ScanFrom` from the support's lower end |
| Discrete.CmfInv | hall/discrete.py:37-55 | `cmf_inv` as written, with Bernoulli's override |
| Discrete.CmfInvIntended | hall/discrete.py:37-55 | `cmf_inv` with the scan starting at the support's lower end |
| Discrete.G | hall/discrete.py:78-82 | TypeError unless `0 <= y <= 1`, otherwise the written `cmf_inv(y)` |
| Discrete.GIntended | hall/discrete.py:78-82 | TypeError unless `0 <= y <= 1`, otherwise the corrected `cmf_inv(y)` |
| Discrete.ScanFromFinds | hall/discrete.py:44-55 | the inductive step of `ScanFinds` for any point of the scan |
| Discrete.ScanFinds | hall/discrete.py:37-55 | for a cumulative mass in [0, 1] and non-decreasing on the support, the scan never fails its assertion and returns the largest outcome whose mass is <= `y`, or its initial value when `cmf(a) > y` |
| Discrete.CmfInvIntendedInSupport | hall/discrete.py:37-55 | the corrected inverse, and `G` over it, always return an outcome |
| Discrete.CmfInvAsWrittenCounterexample | hall/discrete.py:43 | as written, the inverse of a Uniform on `[5, 10]` at 0, and its `G(0)`, is 0, not an outcome; corrected it is 5 |
| Discrete.BernoulliCmfInv | hall/discrete.py:144-148 | Bernoulli's override is the smallest outcome whose cumulative mass reaches `y` |
| Discrete.UniformCmfWellBehaved | hall/discrete.py:196-200 | Uniform's `cmf` lies in [0, 1] and is non-decreasing on its support |
| Discrete.UniformCmfIsRunningSum | hall/discrete.py:189-200 | on the support `cmf(x)` is the sum of `pmf` over `a..x` |
| Discrete.UniformTotalMass | hall/discrete.py:189-194 | the masses of a Uniform add up to 1 |
| Discrete.IntSumFormula | hall/discrete.py:178-183 | twice `a + ... + x` is `(x - a + 1)(a + x)` |
| Discrete.MomentIsScaledSum | hall/discrete.py:178-194 | the first moment of a Uniform over `a..x` is `(a + ... + x) / n` |
| Discrete.UniformMeanIsMoment | hall/discrete.py:178-194 | the corrected mean equals the first moment `sum of x pmf(x)` |
| Discrete.MeanAsWrittenCounterexample | hall/discrete.py:178-183 | as written a Uniform on `[0, 1]` has mean 0; corrected it is 1/2 |
| Discrete.BernoulliClosedForms | hall/discrete.py:112-126 | a Bernoulli has mass `q` at 0 and `p` at 1, mean `p` and variance `p q <= p` |
| Discrete.BinomialVarianceAtMostMean | hall/discrete.py:112-118 | a Binomial's mean is `n p` and its variance is at most its mean |
| Events.NewEventInterval | hall/_event.py:123-136 | ValueError exactly when both bounds are missing (also hall/event.py:107-120) |
| Events.Invert | hall/_event.py:153-159 | `~` toggles an equality's flag; a one-sided range moves its bound to the other side keeping its flag; a two-sided range toggles its flag; a range with no bound raises ValueError, so a valid event never fails (also hall/_event.py:89-90, hall/event.py:73-74, 137-143) |
| Events.Or | hall/_event.py:52-57 | `e \| Y` is `e` for an event `Y`, NotImplemented otherwise (also hall/event.py:38-43) |
| Events.P | hall/_event.py:95-104 | an equality's probability is 0 for a continuous variable, else `f(x)` or `1 - f(x)`; a range fails exactly when `F` raises at a bound (with `F`'s error) or when `F(b) - F(a)`, complemented if inverted, leaves [0, 1] (AssertionError), and otherwise is that value (also hall/_event.py:164-180, hall/event.py:79-88, 148-164) |
| Events.Span | hall/_event.py:164-176 | defined exactly when `F` is defined at the present bounds; then `F(b) - F(a)` (1 for a missing `b`, 0 for a missing `a`), complemented when inverted (also hall/event.py:148-160) |
| Events.InvertInvolution | hall/_event.py:153-159 | `~~e == e` for every valid event |
| Events.RangeComplement | hall/_event.py:153-180 | `p(~e) == 1 - p(e)` for every range whose probability is defined (also hall/event.py:137-164) |
| Events.EqComplement | hall/_event.py:89-104 | on a discrete variable `p(X != x) == 1 - p(X == x)` |
| Events.ContinuousEqHasNoMass | hall/_event.py:95-98 | on a continuous variable both `X == x` and `X != x` have probability 0 |
| Events.RangeIsProbability | hall/_event.py:164-180 | with `F` in [0, 1] and non-decreasing, and `a <= b`, the assertion holds and `p = F(b) - F(a)` (or its complement) (also hall/event.py:148-164) |
| Core.LawOf | hall/event.py:79-88 | an event of `X` reads `X.distribution.discrete`, `.f` and `.F` |
| Core.InvertDistribution | hall/_core.py:66-67 | `~D` is the variable with distribution `D` |
| Core.Equal | hall/_core.py:28-29 | `X == c` is a valid event of `X` with probability `f(c)` (0 if continuous) |
| Core.NotEqual | hall/_core.py:31-32 | `X != c` is a valid event of `X` whose complement is `X == c` |
| Core.LessEq | hall/_core.py:40-41 | `X <= c` is a valid event of `X` whose probability is `F(c)` |
| Core.Greater | hall/_core.py:43-44 | `X > c` is a valid event of `X` whose complement is `X <= c` |
| Core.Less | hall/_core.py:34-38 | `X < c` is `X <= c - 1` when discrete and `X <= c` otherwise |
| Core.GreaterEq | hall/_core.py:46-50 | as written, `X >= c` is `X > c + 1` when discrete and `X > c` otherwise |
| Core.GreaterEqIntended | hall/_core.py:46-50 | the corrected `X >= c` is `X > c - 1` when discrete, and its complement is `X < c` |
| Core.GreaterEqComplementAsWritten | hall/_core.py:46-50 | as written, on a discrete variable `~(X >= c)` is `X <= c + 1`, not `X < c` |
| Core.NotLessEqIsGreater | hall/_core.py:40-44 | `~(X <= c)` has exactly the fields of `X > c` |
| Core.Contains | hall/_core.py:52-53 | `item in X`: membership in the distribution's support; Core.Outcomes states that it agrees with membership in `X.outcomes` |
| Core.Outcomes | hall/_core.py:55-57 | `X.outcomes` has the members of `X`'s support, as `item in X` tests them (hall/_core.py:52-53) |
| Core.LessEqGreaterComplement | hall/_core.py:40-44 | `P[X > c] == 1 - P[X <= c]` |
| Core.DiscreteComplements | hall/_core.py:28-50 | on a discrete variable `P[X >= c] == 1 - P[X < c]` (corrected `>=`) and `P[X != c] == 1 - P[X == c]` |
| Scenarios.AsDistribution | hall/discrete.py:57-76 | a discrete distribution seen by a variable: discrete, its support, `f` and `F` as written |
| Scenarios.BernoulliScenario | tests/test_discrete.py:13-23 | for `0 < p < 1`: mean `p`, variance <= `p`, `P[X == 1] == p`, `P[X == 0] == 1 - p`, `P[X != 0] == p` |
| Scenarios.BinomialScenario | tests/test_discrete.py:26-43 | for `n >= 4`: mean `n p`, variance <= `n p`, `0 in X`, `n in X`, `n + 1 not in X`, `P[X < 0] == 0`, `P[X <= n + 100000] == 1` |
| Scenarios.UniformScenario | tests/test_discrete.py:46-53 | for `a < b`: the corrected mean is `(a + b) / 2`, and the variance is at most `(b - a)^2`, i.e. `b - a >= Std[X]` |
| Scenarios.LessEqAsWrittenCounterexample | hall/discrete.py:66-76 | through a variable, a Uniform on `[1, 2]` has `P[X <= 2] == 0` as written, where the corrected `F(2)` is 1 |
| Scenarios.GreaterEqAsWrittenCounterexample | hall/_core.py:46-50 | for a Uniform on `[0, 1]`, `P[X >= 0]` is 0 as written and 1 when corrected |

## Left out

- Infinite endpoints are out: `is_bounded` and the `NotImplementedError` that `cmf_inv` raises on an unbounded support. `mpf` is an exact real here, so every support is bounded.
- `Interval.__pow__` is not modelled: its endpoint powers need real exponentiation, and for a base interval that straddles 0 they do not bound the image. The reflected `__radd__`, `__rsub__` and `__rmul__` are outside the modelled operations.
- `Interval.__bool__`, `__hash__`, `__repr__` and `__str__` are left out, as are the events' `__bool__`, `__int__`, `__float__`, `__repr__` and `__hash__`. They are formatting, hashing, or random sampling through `mpmath.rand`.
- Analysis.Sub, Analysis.Mul and Analysis.Div with an interval operand: the value is the endpoint-wise `[a - a', b - b']`, `[a * a', b * b']` and `[a / a', b / b']`, and the model states nothing more about it. Endpoint-wise results hold neither every difference nor every product or quotient of points, as Analysis.SubIntervalsMissesDifferences shows.
- Analysis.D names its epsilon only by whether it is complex. The value of `mpmath.mp.eps`, machine precision, is not modelled.
- Analysis.Convolve keeps only the support and the discrete flag. The integrand, `nsum`/`quad` integration and bound clipping are numerical integration through `mpmath`.
- Numbers.NumDiv: the complex quotient is `x * conj(y) / abs(y)^2`, but the model does not prove the product law `(x / y) * y == x` for complex operands, only for real ones.
- Discrete.Cmf: the Binomial `betainc` is a parameter with no properties. The tests' `P[X == 2] <= P[X <= 2]` and `P[X < 1] <= P[X <= 2]` depend on its values and are not proved. The properties that need a well-behaved cumulative mass, Discrete.ScanFinds and Events.RangeIsProbability, take it as a hypothesis.
- Uniform's misspelled `cmf_inf` is left out: nothing calls it.
- The `Interval` constructor's call to `clean_number` is not modelled here: Analysis.Make takes already cleaned numbers; Numbers.CleanNumber models that cleaning.
- Comparing a variable with a non-number (`X == "a"`) is out: events hold only cleaned numbers.
- The package wiring that hands the discrete distributions to `Stochast` (`hall/__init__.py`) is not part of this model. Scenarios.AsDistribution states the wiring assumed. Two name mismatches stay unmodelled; the model takes each pair as the same attribute:
  - `DistributionD` sets `__discrete__`, while `hall/_core.py` and `hall/event.py` read `distribution.discrete`;
  - `DistributionD` defines `__support__` (hall/discrete.py:39, 61, 70, 105), while `Stochast` reads `distribution.support` (hall/_core.py:53, 57).
- Not modelled: `hall/continuous.py`, `hall/stats.py`, `hall/typing.py`, `hall/_types.py`, `hall/backend.py` and `scripts/poetry.py`. They are float numerics behind foreign calls, plumbing over a random-variable type not included, type tables and precision configuration.

## Findings

Each operation the source defines is modelled as written, and each finding has a corrected partner beside it:

- Analysis.And and Analysis.Or use the written `isdisjoint`; Analysis.AndIntended and Analysis.OrIntended use the corrected one.
- Discrete.F, and through it Scenarios.AsDistribution, use the written `>`; Discrete.FIntended uses the corrected one.
- Discrete.G uses the written scan; Discrete.GIntended uses the corrected one.
- Core.GreaterEq is the written `>=`; Core.GreaterEqIntended is the corrected one.
- Discrete.Mean is the written mean; Discrete.MeanIntended is the corrected one, and Scenarios.UniformScenario states it.

Binomial's own guards use the written `>`. Analysis.GtAgreesWhenLowerNonPositive shows that this is harmless for a support that starts at 0.

| source | as written | input that shows it | evidently intended | confidence | as-written member | corrected member |
|---|---|---|---|---|---|---|
| hall/analysis.py:123-131 | `__gt__` tests `self.a.real > x.imag` | `DiscreteInterval(1, 2) > 2` is true, so a Uniform on `[1, 2]` has `F(2) == 0` | `self.a.imag > x.imag`, mirroring `__lt__` | high; not executed | Analysis.GtAsWrittenCounterexample, Scenarios.LessEqAsWrittenCounterexample | Analysis.GtIntendedIsAllAbove |
| hall/analysis.py:268-275 | the last clause of `isdisjoint` is `self.a.imag < other.a.imag` | `[0j, 1+2j]` and `[1j, 1+3j]` both contain `1+1j` but test disjoint | `self.b.imag < other.a.imag` | high; not executed | Analysis.DisjointAsWrittenCounterexample, Analysis.AndAsWrittenCounterexample, Analysis.OrAsWrittenCounterexample | Analysis.DisjointIntendedIffNoCommonPoint, Analysis.AndIsIntersection, Analysis.OrIsHull |
| hall/_core.py:46-50 | discrete `X >= c` builds the range with `a = c + 1` | a Uniform on `[0, 1]` has `P[X >= 0] == 0` | `a = c - 1`, the complement of `X < c` | high; not executed | Scenarios.GreaterEqAsWrittenCounterexample | Core.DiscreteComplements |
| hall/discrete.py:178-183 | Uniform's mean takes `(a + b) // 2` when `n` is even and the exact fraction when odd | a Uniform on `[0, 1]` has mean 0 | the exact `(a + b) / 2`, the floor division only when `n` is odd | high; not executed | Discrete.MeanAsWrittenCounterexample | Discrete.UniformMeanIsMoment |
| hall/discrete.py:43 | `cmf_inv` starts `x_prev` at 0 | a Uniform on `[5, 10]` has `G(0) == 0`, which is not an outcome | start from `support.a` | medium; not executed | Discrete.CmfInvAsWrittenCounterexample | Discrete.CmfInvIntendedInSupport |
