/** Discrete distributions over the integers (hall/discrete.py): Binomial,
    its special case Bernoulli, and the discrete Uniform, with the guarded
    wrappers `f` (probability mass), `F` (cumulative mass) and `G` (its
    inverse) shared by all of them.

    The Binomial cumulative mass is mpmath's regularized incomplete beta
    function, which the model does not compute: each Binomial carries it as
    the function `betainc(a, b, q)` standing for `betainc(a, b, 0, q,
    regularized=True)`. */
module Discrete {
  import opened Exceptions
  import opened Numbers
  import opened Analysis

  datatype DistributionD =
    | Binomial(n: int, p: real, betainc: (int, int, real) -> real)
    | Bernoulli(p: real, betainc: (int, int, real) -> real)
    | Uniform(lo: int, hi: int)

  /** What the constructors establish. */
  predicate ValidD(d: DistributionD) {
    match d
    case Binomial(n, p, _) => n >= 0 && 0.0 <= p <= 1.0
    case Bernoulli(p, _) => 0.0 <= p <= 1.0
    case Uniform(lo, hi) => lo < hi
  }

  /** A distribution built by one of the constructors. */
  type Dist = d: DistributionD | ValidD(d) witness Uniform(0, 1)

  // ---- constructors ----

  /** `Binomial(n, p)`: TypeError for a non-integer `n`, ValueError for a
      negative `n`, ValueError when `p` is not a probability. */
  function NewBinomial(n: Obj, p: Obj, betainc: (int, int, real) -> real): (r: Result<Dist>)
    ensures !IsInt(n) ==> r == Err(TypeError)
    ensures IsInt(n) && IntValue(n) < 0 ==> r == Err(ValueError)
    ensures IsInt(n) && IntValue(n) >= 0 && !IsProbability(p) ==> r == Err(ValueError)
    ensures r.Ok? <==> IsInt(n) && IntValue(n) >= 0 && IsProbability(p)
    ensures r.Ok? ==> r.value.Binomial? && r.value.n == IntValue(n) && r.value.p == FloatValue(p)
  {
    if !IsInt(n) then Err(TypeError)
    else if IntValue(n) < 0 then Err(ValueError)
    else if !IsProbability(p) then Err(ValueError)
    else Ok(Binomial(IntValue(n), FloatValue(p), betainc))
  }

  /** `Bernoulli(p)`, that is `Binomial(1, p)`. */
  function NewBernoulli(p: Obj, betainc: (int, int, real) -> real): (r: Result<Dist>)
    ensures r.Ok? <==> IsProbability(p)
    ensures r.Err? ==> r.error == ValueError
    ensures r.Ok? ==> r.value.Bernoulli? && r.value.p == FloatValue(p)
  {
    var b :- NewBinomial(PyInt(1), p, betainc);
    Ok(Bernoulli(b.p, betainc))
  }

  /** `Uniform(a, b)`: TypeError for a non-integer bound, ValueError unless
      `a < b`. */
  function NewUniform(a: Obj, b: Obj): (r: Result<Dist>)
    ensures !IsInt(a) || !IsInt(b) ==> r == Err(TypeError)
    ensures IsInt(a) && IsInt(b) && IntValue(b) <= IntValue(a) ==> r == Err(ValueError)
    ensures r.Ok? <==> IsInt(a) && IsInt(b) && IntValue(a) < IntValue(b)
    ensures r.Ok? ==> r.value == Uniform(IntValue(a), IntValue(b))
  {
    if !IsInt(a) then Err(TypeError)
    else if !IsInt(b) then Err(TypeError)
    else if IntValue(b) <= IntValue(a) then Err(ValueError)
    else Ok(Uniform(IntValue(a), IntValue(b)))
  }

  // ---- closed forms ----

  /** The number of trials of a Binomial (1 for a Bernoulli). */
  function Trials(d: Dist): nat
    requires !d.Uniform?
  {
    if d.Binomial? then d.n else 1
  }

  function Lower(d: Dist): int {
    if d.Uniform? then d.lo else 0
  }

  function Upper(d: Dist): int {
    if d.Uniform? then d.hi else Trials(d)
  }

  /** `__support__`: the DiscreteInterval `[0, n]` or `[a, b]`. */
  function Support(d: Dist): (r: Interval)
    ensures r == Interval(DiscreteIntervalClass, Int(Lower(d)), Int(Upper(d)))
    ensures IsDiscrete(r) && Lower(d) <= Upper(d)
  {
    Make(DiscreteIntervalClass, Int(Lower(d)), Int(Upper(d)))
  }

  /** A Binomial's failure probability `q = 1 - p`. */
  function Q(d: Dist): (r: real)
    requires !d.Uniform?
    ensures 0.0 <= r <= 1.0 && r + d.p == 1.0
  {
    1.0 - d.p
  }

  /** Uniform's `n`: the number of outcomes `b - a + 1`. */
  function UniformN(d: Dist): (r: int)
    requires d.Uniform?
    ensures r >= 2 && r == Upper(d) - Lower(d) + 1
  {
    d.hi - d.lo + 1
  }

  /** `mean`. As written, Uniform's branches give the exact mean for an odd
      number of outcomes and the floor of it for an even number. */
  function Mean(d: Dist): (r: Num)
    ensures !d.Uniform? ==> r == Float(Trials(d) as real * d.p)
    ensures d.Uniform? && UniformN(d) % 2 == 0 ==> r == Int((d.lo + d.hi) / 2)
    ensures d.Uniform? && UniformN(d) % 2 == 1 ==> r.Re() == (d.lo + d.hi) as real / 2.0
  {
    if !d.Uniform? then NumMul(Int(Trials(d)), Float(d.p))
    else if UniformN(d) % 2 == 0 then Int((d.lo + d.hi) / 2)
    else Float((d.lo + d.hi) as real / 2.0)
  }

  /** `mean` with Uniform's branches the evidently intended way round: the
      integer division only when it is exact. */
  function MeanIntended(d: Dist): (r: Num)
    ensures !d.Uniform? ==> r == Mean(d)
    ensures d.Uniform? ==> r.Re() == (d.lo + d.hi) as real / 2.0
  {
    if !d.Uniform? then Mean(d)
    else if UniformN(d) % 2 == 1 then
      assert (d.lo + d.hi) % 2 == 0;
      Int((d.lo + d.hi) / 2)
    else Float((d.lo + d.hi) as real / 2.0)
  }

  /** `variance`: `n p q`, and `(n^2 - 1) / 12` for a Uniform. */
  function Variance(d: Dist): (r: real)
    ensures !d.Uniform? ==> r == Trials(d) as real * d.p * Q(d)
    ensures d.Uniform? ==> 12.0 * r == (UniformN(d) * UniformN(d) - 1) as real
    ensures r >= 0.0
  {
    if !d.Uniform? then
      var t, p, q := Trials(d) as real, d.p, Q(d);
      ProductNonNegative(t, p, q);
      t * p * q
    else
      var n := UniformN(d);
      assert n * n >= 4 by { assert n * n >= 2 * n; }
      (n * n - 1) as real / 12.0
  }

  lemma ProductNonNegative(t: real, p: real, q: real)
    requires t >= 0.0 && p >= 0.0 && q >= 0.0
    ensures t * p * q >= 0.0
  {
    assert t * p >= 0.0;
  }

  /** `mpmath.binomial(n, k)` for integers `0 <= k`. */
  function Choose(n: nat, k: nat): nat {
    if k == 0 then 1 else if n == 0 then 0 else Choose(n - 1, k - 1) + Choose(n - 1, k)
  }

  function Pow(r: real, k: nat): real {
    if k == 0 then 1.0 else r * Pow(r, k - 1)
  }

  /** `binomial(n, x) * p^x * q^(n - x)` */
  function BinomialMass(d: Dist, x: int): real
    requires !d.Uniform? && 0 <= x <= Trials(d)
  {
    Choose(Trials(d), x) as real * Pow(d.p, x) * Pow(Q(d), Trials(d) - x)
  }

  /** `pmf(x)`. A Binomial raises TypeError below its support (the guard is
      `x < support`, i.e. `support.__gt__(x)`) and is 0 above it; a Uniform
      has mass `1/n` on its support and 0 elsewhere. */
  function Pmf(d: Dist, x: int): (r: Result<real>)
    ensures !d.Uniform? && x < 0 ==> r == Err(TypeError)
    ensures !d.Uniform? && x > Trials(d) ==> r == Ok(0.0)
    ensures !d.Uniform? && 0 <= x <= Trials(d) ==> r == Ok(BinomialMass(d, x))
    ensures d.Uniform? ==> r == Ok(if d.lo <= x <= d.hi then 1.0 / UniformN(d) as real else 0.0)
  {
    var support := Support(d);
    SupportTests(d, PyInt(x));
    if !d.Uniform? then
      if GtNum(support, Int(x)) then Err(TypeError)
      else if LtNum(support, Int(x)) then Ok(0.0)
      else Ok(BinomialMass(d, x))
    else if Contains(support, Scalar(PyInt(x))) then Ok(1.0 / UniformN(d) as real)
    else Ok(0.0)
  }

  /** `cmf(x)`. A Binomial raises TypeError below its support, is 1 above it
      and the regularized incomplete beta `I_q(n - x, x + 1)` on it; a
      Uniform is `(x - a + 1) / n` on its support and 0 elsewhere, above the
      support included. */
  function Cmf(d: Dist, x: int): (r: Result<real>)
    ensures !d.Uniform? && x < 0 ==> r == Err(TypeError)
    ensures !d.Uniform? && x > Trials(d) ==> r == Ok(1.0)
    ensures !d.Uniform? && 0 <= x <= Trials(d) ==> r == Ok(d.betainc(Trials(d) - x, x + 1, Q(d)))
    ensures d.Uniform? ==> r == Ok(if d.lo <= x <= d.hi then (x - d.lo + 1) as real / UniformN(d) as real else 0.0)
    ensures x >= Lower(d) ==> r.Ok?
  {
    var support := Support(d);
    SupportTests(d, PyInt(x));
    if !d.Uniform? then
      if GtNum(support, Int(x)) then Err(TypeError)
      else if LtNum(support, Int(x)) then Ok(1.0)
      else Ok(d.betainc(Trials(d) - x, x + 1, Q(d)))
    else if d.lo <= x <= d.hi then Ok((x - d.lo + 1) as real / UniformN(d) as real)
    else Ok(0.0)
  }

  /** What the interval tests say about an integer and a support. */
  lemma SupportTests(d: Dist, x: Obj)
    requires IsInt(x)
    ensures GtNum(Support(d), Int(IntValue(x))) <==> IntValue(x) < Lower(d) || Lower(d) > 0
    ensures GtIntendedNum(Support(d), Int(IntValue(x))) <==> IntValue(x) < Lower(d)
    ensures LtNum(Support(d), Int(IntValue(x))) <==> IntValue(x) > Upper(d)
    ensures Contains(Support(d), Scalar(x)) <==> Lower(d) <= IntValue(x) <= Upper(d)
  {
  }

  // ---- the guarded wrappers ----

  /** `f(x)`: TypeError for a non-integer, 0 outside the support, the mass
      inside it. */
  function f(d: Dist, x: Obj): (r: Result<real>)
    ensures !IsInt(x) ==> r == Err(TypeError)
    ensures IsInt(x) && !(Lower(d) <= IntValue(x) <= Upper(d)) ==> r == Ok(0.0)
    ensures IsInt(x) && Lower(d) <= IntValue(x) <= Upper(d) ==> r == Pmf(d, IntValue(x))
  {
    if !IsInt(x) then Err(TypeError)
    else
      SupportTests(d, x);
      if !Contains(Support(d), Scalar(x)) then Ok(0.0)
    else Pmf(d, IntValue(x))
  }

  /** `F(x)` as written: `x < support` dispatches to `support.__gt__(x)`,
      which compares the lower endpoint with `x.imag` too, so for a support
      starting above 0 every integer is "below" it. */
  function F(d: Dist, x: Obj): (r: Result<real>)
    ensures !IsInt(x) ==> r == Err(TypeError)
    ensures IsInt(x) && Lower(d) > 0 ==> r == Ok(0.0)
    ensures IsInt(x) && Lower(d) <= 0 ==> r == FIntended(d, x)
  {
    if !IsInt(x) then Err(TypeError)
    else
      var support, y := Support(d), Int(IntValue(x));
      SupportTests(d, x);
      if GtNum(support, y) then Ok(0.0)
      else if LtNum(support, y) then Ok(1.0)
      else Cmf(d, IntValue(x))
  }

  /** `F(x)` as evidently intended: 0 below the support, 1 above it, the
      cumulative mass on it. */
  function FIntended(d: Dist, x: Obj): (r: Result<real>)
    ensures !IsInt(x) ==> r == Err(TypeError)
    ensures IsInt(x) && IntValue(x) < Lower(d) ==> r == Ok(0.0)
    ensures IsInt(x) && IntValue(x) > Upper(d) ==> r == Ok(1.0)
    ensures IsInt(x) && Lower(d) <= IntValue(x) <= Upper(d) ==> r == Cmf(d, IntValue(x))
  {
    if !IsInt(x) then Err(TypeError)
    else
      var support, y := Support(d), Int(IntValue(x));
      SupportTests(d, x);
      if GtIntendedNum(support, y) then Ok(0.0)
      else if LtNum(support, y) then Ok(1.0)
      else Cmf(d, IntValue(x))
  }

  /** As written, a Uniform on `[1, 2]` has `F(2) == 0` where its cumulative
      mass is 1. */
  lemma FAsWrittenCounterexample()
    ensures F(Uniform(1, 2), PyInt(2)) == Ok(0.0)
    ensures FIntended(Uniform(1, 2), PyInt(2)) == Ok(1.0)
  {
  }

  // ---- the inverse cumulative mass ----

  /** The `for x in range(support.a, support.b + 1)` scan from `x` on, with
      `prev` the last value whose cumulative mass did not exceed `y`: every
      mass is asserted to lie in `[0, 1]`, and the first one above `y` ends
      the scan. On the support `cmf` does not raise. */
  function ScanFrom(d: Dist, x: int, y: real, prev: int): (r: Result<int>)
    requires Lower(d) <= x
    decreases Upper(d) + 1 - x
  {
    if x > Upper(d) then Ok(prev)
    else
      var yi := Cmf(d, x).value;
      if !(0.0 <= yi <= 1.0) then Err(AssertionError)
      else if yi > y then Ok(prev)
      else ScanFrom(d, x + 1, y, x)
  }

  /** The scan as a loop. `init` is the value returned when the first mass
      already exceeds `y`. */
  method Scan(d: Dist, y: real, init: int) returns (r: Result<int>)
    ensures r == ScanFrom(d, Lower(d), y, init)
  {
    var prev := init;
    var x := Lower(d);
    while x <= Upper(d)
      invariant Lower(d) <= x <= Upper(d) + 1
      invariant ScanFrom(d, x, y, prev) == ScanFrom(d, Lower(d), y, init)
      decreases Upper(d) + 1 - x
    {
      var yi := Cmf(d, x).value;
      if !(0.0 <= yi <= 1.0) {
        return Err(AssertionError);
      }
      if yi > y {
        break;
      }
      prev := x;
      x := x + 1;
    }
    return Ok(prev);
  }

  /** `cmf_inv(y)` as written: the generic scan starts from `x_prev = 0`;
      Bernoulli overrides it with `0 if y <= 1 - p else 1`. */
  function CmfInvOf(d: Dist, y: real): Result<int> {
    if d.Bernoulli? then Ok(if y <= 1.0 - d.p then 0 else 1)
    else ScanFrom(d, Lower(d), y, 0)
  }

  method CmfInv(d: Dist, y: real) returns (r: Result<int>)
    ensures r == CmfInvOf(d, y)
  {
    if d.Bernoulli? {
      if y <= 1.0 - d.p {
        return Ok(0);
      }
      return Ok(1);
    }
    r := Scan(d, y, 0);
  }

  /** `cmf_inv(y)` as evidently intended: the scan starts from the lower end
      of the support, so that its result is always an outcome. */
  function CmfInvIntendedOf(d: Dist, y: real): Result<int> {
    if d.Bernoulli? then Ok(if y <= 1.0 - d.p then 0 else 1)
    else ScanFrom(d, Lower(d), y, Lower(d))
  }

  method CmfInvIntended(d: Dist, y: real) returns (r: Result<int>)
    ensures r == CmfInvIntendedOf(d, y)
  {
    if d.Bernoulli? {
      if y <= 1.0 - d.p {
        return Ok(0);
      }
      return Ok(1);
    }
    r := Scan(d, y, Lower(d));
  }

  /** `G(y)`: TypeError unless `0 <= y <= 1`, otherwise the written
      `cmf_inv(y)`. */
  function G(d: Dist, y: real): (r: Result<int>)
    ensures !(0.0 <= y <= 1.0) ==> r == Err(TypeError)
    ensures 0.0 <= y <= 1.0 ==> r == CmfInvOf(d, y)
  {
    if !(0.0 <= y <= 1.0) then Err(TypeError) else CmfInvOf(d, y)
  }

  /** `G(y)` over the corrected `cmf_inv`; `CmfInvIntendedInSupport` shows
      that it returns an outcome. */
  function GIntended(d: Dist, y: real): (r: Result<int>)
    ensures !(0.0 <= y <= 1.0) ==> r == Err(TypeError)
    ensures 0.0 <= y <= 1.0 ==> r == CmfInvIntendedOf(d, y)
  {
    if !(0.0 <= y <= 1.0) then Err(TypeError) else CmfInvIntendedOf(d, y)
  }

  /** The cumulative mass is defined, in `[0, 1]` and non-decreasing on the
      support. */
  ghost predicate CmfWellBehaved(d: Dist) {
    (forall x :: Lower(d) <= x <= Upper(d) ==> Cmf(d, x).Ok? && 0.0 <= Cmf(d, x).value <= 1.0)
    && (forall x, z :: Lower(d) <= x <= z <= Upper(d) ==> Cmf(d, x).value <= Cmf(d, z).value)
  }

  /** `r` is the largest outcome whose cumulative mass does not exceed `y`. */
  ghost predicate LargestAtMost(d: Dist, y: real, r: int)
    requires CmfWellBehaved(d)
  {
    Lower(d) <= r <= Upper(d) && Cmf(d, r).value <= y
    && forall z :: r < z <= Upper(d) ==> Cmf(d, z).value > y
  }

  lemma {:induction false} ScanFromFinds(d: Dist, x: int, y: real, prev: int, init: int)
    requires CmfWellBehaved(d) && Lower(d) <= x <= Upper(d) + 1
    requires x == Lower(d) ==> prev == init
    requires x > Lower(d) ==> prev == x - 1 && Cmf(d, prev).value <= y
    ensures ScanFrom(d, x, y, prev).Ok?
    ensures x == Lower(d) && Cmf(d, x).value > y ==> ScanFrom(d, x, y, prev) == Ok(init)
    ensures x > Lower(d) || Cmf(d, x).value <= y ==> LargestAtMost(d, y, ScanFrom(d, x, y, prev).value)
    decreases Upper(d) + 1 - x
  {
    if x <= Upper(d) {
      if Cmf(d, x).value <= y {
        ScanFromFinds(d, x + 1, y, x, init);
      } else if x > Lower(d) {
        forall z | prev < z <= Upper(d)
          ensures Cmf(d, z).value > y
        {
          assert Cmf(d, x).value <= Cmf(d, z).value;
        }
      }
    }
  }

  /** For a well-behaved cumulative mass, the scan returns the largest
      outcome whose mass does not exceed `y`, or its initial value when
      there is none. */
  lemma ScanFinds(d: Dist, y: real, init: int)
    requires CmfWellBehaved(d)
    ensures ScanFrom(d, Lower(d), y, init).Ok?
    ensures Cmf(d, Lower(d)).value > y ==> ScanFrom(d, Lower(d), y, init) == Ok(init)
    ensures Cmf(d, Lower(d)).value <= y ==> LargestAtMost(d, y, ScanFrom(d, Lower(d), y, init).value)
  {
    ScanFromFinds(d, Lower(d), y, init, init);
  }

  /** The corrected inverse always returns an outcome of the distribution. */
  lemma CmfInvIntendedInSupport(d: Dist, y: real)
    requires CmfWellBehaved(d)
    ensures CmfInvIntendedOf(d, y).Ok?
    ensures Lower(d) <= CmfInvIntendedOf(d, y).value <= Upper(d)
    ensures 0.0 <= y <= 1.0 ==> GIntended(d, y).Ok? && Lower(d) <= GIntended(d, y).value <= Upper(d)
  {
    ScanFinds(d, y, Lower(d));
  }

  /** As written, the inverse of a Uniform on `[5, 10]` at 0 is 0, which is
      not an outcome; the corrected scan gives 5. */
  lemma CmfInvAsWrittenCounterexample()
    ensures CmfInvOf(Uniform(5, 10), 0.0) == Ok(0)
    ensures !(Lower(Uniform(5, 10)) <= 0 <= Upper(Uniform(5, 10)))
    ensures CmfInvIntendedOf(Uniform(5, 10), 0.0) == Ok(5)
    ensures G(Uniform(5, 10), 0.0) == Ok(0) && GIntended(Uniform(5, 10), 0.0) == Ok(5)
  {
  }

  /** Bernoulli's override is the generalized inverse of its cumulative mass
      `[q, 1]` (as the regularized incomplete beta gives it): the smallest
      outcome whose mass reaches `y`. */
  lemma BernoulliCmfInv(d: Dist, y: real)
    requires d.Bernoulli? && 0.0 <= y <= 1.0
    requires d.betainc(1, 1, Q(d)) == Q(d) && d.betainc(0, 2, Q(d)) == 1.0
    ensures CmfInvOf(d, y).Ok?
    ensures CmfInvOf(d, y).value == 0 <==> Cmf(d, 0).value >= y
    ensures CmfInvOf(d, y).value == 1 ==> Cmf(d, 1).value >= y && Cmf(d, 0).value < y
  {
  }

  // ---- the discrete Uniform ----

  /** Uniform's cumulative mass is well behaved. */
  lemma UniformCmfWellBehaved(d: Dist)
    requires d.Uniform?
    ensures CmfWellBehaved(d)
  {
    var n := UniformN(d) as real;
    forall x | Lower(d) <= x <= Upper(d)
      ensures Cmf(d, x).Ok? && 0.0 <= Cmf(d, x).value <= 1.0
    {
      assert (x - d.lo + 1) as real <= n;
    }
    forall x, z | Lower(d) <= x <= z <= Upper(d)
      ensures Cmf(d, x).value <= Cmf(d, z).value
    {
      DivMonotone((x - d.lo + 1) as real, (z - d.lo + 1) as real, n);
    }
  }

  lemma DivMonotone(u: real, v: real, n: real)
    requires u <= v && n > 0.0
    ensures u / n <= v / n
  {
    assert v / n - u / n == (v - u) / n;
  }

  /** The sum of the masses of `lo..x`. */
  function MassUpTo(d: Dist, x: int): real
    requires d.Uniform?
    decreases x - d.lo
  {
    if x < d.lo then 0.0 else MassUpTo(d, x - 1) + Pmf(d, x).value
  }

  /** On its support, Uniform's cumulative mass is the running sum of its
      masses; in particular the masses add up to 1. */
  lemma {:induction false} UniformCmfIsRunningSum(d: Dist, x: int)
    requires d.Uniform? && d.lo <= x <= d.hi
    ensures Cmf(d, x) == Ok(MassUpTo(d, x))
    decreases x - d.lo
  {
    var n := UniformN(d) as real;
    if x > d.lo {
      UniformCmfIsRunningSum(d, x - 1);
      assert ((x - 1) - d.lo + 1) as real / n + 1.0 / n == (x - d.lo + 1) as real / n;
    }
  }

  lemma UniformTotalMass(d: Dist)
    requires d.Uniform?
    ensures MassUpTo(d, d.hi) == 1.0
  {
    UniformCmfIsRunningSum(d, d.hi);
  }

  /** The first moment `sum of x * pmf(x)` over `lo..x`. */
  function MomentUpTo(d: Dist, x: int): real
    requires d.Uniform?
    decreases x - d.lo
  {
    if x < d.lo then 0.0 else MomentUpTo(d, x - 1) + x as real * Pmf(d, x).value
  }

  /** The integer sum `lo + ... + x`. */
  function IntSum(lo: int, x: int): int
    decreases x - lo
  {
    if x < lo then 0 else IntSum(lo, x - 1) + x
  }

  /** Gauss: twice `lo + ... + x` is `(x - lo + 1)(lo + x)`. */
  lemma {:induction false} IntSumFormula(lo: int, x: int)
    requires lo - 1 <= x
    ensures 2 * IntSum(lo, x) == (x - lo + 1) * (lo + x)
    decreases x - lo
  {
    if x >= lo {
      IntSumFormula(lo, x - 1);
      SeriesStep(lo, x);
    }
  }

  lemma SeriesStep(lo: int, x: int)
    ensures (x - lo + 1) * (lo + x) == (x - lo) * (lo + x - 1) + 2 * x
  {
  }

  /** Each outcome has mass `1/n`, so the first moment is `(lo + ... + x) / n`. */
  lemma {:induction false} MomentIsScaledSum(d: Dist, x: int)
    requires d.Uniform? && d.lo - 1 <= x <= d.hi
    ensures MomentUpTo(d, x) == IntSum(d.lo, x) as real / UniformN(d) as real
    decreases x - d.lo
  {
    if x >= d.lo {
      MomentIsScaledSum(d, x - 1);
      assert Pmf(d, x).value == 1.0 / UniformN(d) as real;
      ShareStep(IntSum(d.lo, x - 1) as real, x as real, UniformN(d) as real);
    }
  }

  lemma ShareStep(s: real, x: real, n: real)
    requires n > 0.0
    ensures s / n + x * (1.0 / n) == (s + x) / n
  {
  }

  lemma HalfShare(s: real, n: real, t: real)
    requires n > 0.0 && 2.0 * s == n * t
    ensures s / n == t / 2.0
  {
  }

  /** The intended mean is Uniform's first moment. */
  lemma UniformMeanIsMoment(d: Dist)
    requires d.Uniform?
    ensures MeanIntended(d).Re() == MomentUpTo(d, d.hi)
  {
    MomentIsScaledSum(d, d.hi);
    IntSumFormula(d.lo, d.hi);
    var n, t, sum := UniformN(d), d.lo + d.hi, IntSum(d.lo, d.hi);
    assert 2 * sum == n * t;
    CastProduct(n, t);
    HalfShare(sum as real, n as real, t as real);
  }

  lemma CastProduct(a: int, b: int)
    ensures (a * b) as real == a as real * b as real
  {
  }

  /** As written, the mean of a Uniform on `[0, 1]` is 0. */
  lemma MeanAsWrittenCounterexample()
    ensures Mean(Uniform(0, 1)) == Int(0)
    ensures MeanIntended(Uniform(0, 1)).Re() == 0.5
  {
  }

  // ---- Binomial ----

  /** A Bernoulli has mass `q` at 0 and `p` at 1, mean `p` and variance
      `p q`, which is at most `p`. */
  lemma BernoulliClosedForms(d: Dist)
    requires d.Bernoulli?
    ensures Pmf(d, 0) == Ok(Q(d)) && Pmf(d, 1) == Ok(d.p)
    ensures Mean(d).Re() == d.p && Variance(d) == d.p * Q(d) && Variance(d) <= d.p
  {
    assert Pow(d.p, 1) == d.p;
    assert Pow(Q(d), 1) == Q(d);
    assert BinomialMass(d, 0) == Q(d);
    assert BinomialMass(d, 1) == d.p;
    assert d.p * Q(d) <= d.p * 1.0;
  }

  /** A Binomial's mean is `n p`, and its variance is at most its mean. */
  lemma BinomialVarianceAtMostMean(d: Dist)
    requires !d.Uniform?
    ensures Mean(d).Re() == Trials(d) as real * d.p
    ensures Variance(d) <= Mean(d).Re()
  {
    var m := Trials(d) as real * d.p;
    assert m >= 0.0;
    assert m * Q(d) <= m * 1.0;
  }
}
