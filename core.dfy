/** Random variables (hall/_core.py): a `Stochast` wraps a distribution,
    and comparing it with a number builds an event of hall/event.py. */
module Core {
  import opened Exceptions
  import opened Numbers
  import opened Events
  import Analysis

  /** The part of the `Distribution` protocol the events and the variable
      use: whether it is discrete, its support, and `f` and `F`. */
  datatype Distribution = Distribution(
    discrete: bool,
    support: Analysis.Interval,
    f: Num -> Result<real>,
    F: Num -> Result<real>)

  datatype Stochast = Stochast(distribution: Distribution)

  /** What an event of `X` reads: `X.distribution.discrete`, `.f` and `.F`. */
  function LawOf(X: Stochast): (r: Law)
    ensures r.discrete == X.distribution.discrete && r.f == X.distribution.f && r.F == X.distribution.F
  {
    Law(X.distribution.discrete, X.distribution.f, X.distribution.F)
  }

  /** `~distribution`: the random variable with that distribution. */
  function InvertDistribution(d: Distribution): (r: Stochast)
    ensures r.distribution == d
  {
    Stochast(d)
  }

  /** `X == c`. */
  function Equal(X: Stochast, c: Num): (r: Event<Stochast>)
    ensures Valid(r) && r.X == X
    ensures P(r, LawOf) == if X.distribution.discrete then X.distribution.f(c) else Ok(0.0)
  {
    EventEq(X, c, false)
  }

  /** `X != c`; its complement is `X == c`. */
  function NotEqual(X: Stochast, c: Num): (r: Event<Stochast>)
    ensures Valid(r) && r.X == X
    ensures Invert(r) == Ok(Equal(X, c))
  {
    EventEq(X, c, true)
  }

  /** `X <= c`, the range `(-inf, c]`: its probability is `F(c)`. */
  function LessEq(X: Stochast, c: Num): (r: Event<Stochast>)
    ensures Valid(r) && r.X == X
    ensures X.distribution.F(c).Ok? && 0.0 <= X.distribution.F(c).value <= 1.0 ==> P(r, LawOf) == X.distribution.F(c)
  {
    EventInterval(X, None, Some(c), false)
  }

  /** `X > c`, the range `(c, inf)`; its complement is `X <= c`. */
  function Greater(X: Stochast, c: Num): (r: Event<Stochast>)
    ensures Valid(r) && r.X == X
    ensures Invert(r) == Ok(LessEq(X, c))
  {
    EventInterval(X, Some(c), None, false)
  }

  /** `X < c`: `X <= c - 1` for a discrete variable, `X <= c` otherwise. */
  function Less(X: Stochast, c: Num): (r: Event<Stochast>)
    ensures X.distribution.discrete ==> r == LessEq(X, NumSub(c, Int(1)))
    ensures !X.distribution.discrete ==> r == LessEq(X, c)
  {
    if X.distribution.discrete then EventInterval(X, None, Some(NumSub(c, Int(1))), false)
    else EventInterval(X, None, Some(c), false)
  }

  /** `X >= c` as written: `X > c + 1` for a discrete variable, which leaves
      out both `c` and `c + 1`. */
  function GreaterEq(X: Stochast, c: Num): (r: Event<Stochast>)
    ensures X.distribution.discrete ==> r == Greater(X, NumAdd(c, Int(1)))
    ensures !X.distribution.discrete ==> r == Greater(X, c)
  {
    if X.distribution.discrete then EventInterval(X, Some(NumAdd(c, Int(1))), None, false)
    else EventInterval(X, Some(c), None, false)
  }

  /** `X >= c` as evidently intended: `X > c - 1` for a discrete variable,
      so that on a discrete variable it is the complement of `X < c`. */
  function GreaterEqIntended(X: Stochast, c: Num): (r: Event<Stochast>)
    ensures X.distribution.discrete ==> r == Greater(X, NumSub(c, Int(1)))
    ensures !X.distribution.discrete ==> r == Greater(X, c)
    ensures Invert(r) == Ok(Less(X, c))
  {
    if X.distribution.discrete then EventInterval(X, Some(NumSub(c, Int(1))), None, false)
    else EventInterval(X, Some(c), None, false)
  }

  /** As written, on a discrete variable `~(X >= c)` is `X <= c + 1`, not
      `X < c` (which is `X <= c - 1`). */
  lemma GreaterEqComplementAsWritten(X: Stochast, c: Num)
    requires X.distribution.discrete
    ensures Invert(GreaterEq(X, c)) == Ok(LessEq(X, NumAdd(c, Int(1))))
    ensures Invert(GreaterEq(X, c)) != Ok(Less(X, c))
  {
    assert NumAdd(c, Int(1)).Re() != NumSub(c, Int(1)).Re();
  }

  /** `~(X <= c)` has exactly the fields of `X > c`. */
  lemma NotLessEqIsGreater(X: Stochast, c: Num)
    ensures Invert(LessEq(X, c)) == Ok(Greater(X, c))
  {
  }

  /** `item in X`: membership in the distribution's support. */
  predicate Contains(X: Stochast, item: Analysis.Operand) {
    Analysis.Contains(X.distribution.support, item)
  }

  /** `X.outcomes`: the support. */
  function Outcomes(X: Stochast): (r: Analysis.Interval)
    ensures forall y :: Contains(X, Analysis.Scalar(y)) <==> Analysis.Contains(r, Analysis.Scalar(y))
  {
    X.distribution.support
  }

  /** `X <= c` and `X > c` have complementary probabilities. */
  lemma LessEqGreaterComplement(X: Stochast, c: Num)
    requires P(LessEq(X, c), LawOf).Ok?
    ensures P(Greater(X, c), LawOf) == Ok(1.0 - P(LessEq(X, c), LawOf).value)
  {
    RangeComplement(LessEq(X, c), LawOf);
  }

  /** On a discrete variable, `X < c` with the intended `X >= c` split the
      probability, and so do `X == c` and `X != c`. */
  lemma DiscreteComplements(X: Stochast, c: Num)
    requires X.distribution.discrete
    requires P(Less(X, c), LawOf).Ok? && P(Equal(X, c), LawOf).Ok?
    ensures P(GreaterEqIntended(X, c), LawOf) == Ok(1.0 - P(Less(X, c), LawOf).value)
    ensures P(NotEqual(X, c), LawOf) == Ok(1.0 - P(Equal(X, c), LawOf).value)
  {
    RangeComplement(Less(X, c), LawOf);
    EqComplement(Equal(X, c), LawOf);
  }
}
