/** The discrete distributions seen through random variables and events, and
    the properties hall's tests state about them (tests/test_discrete.py). */
module Scenarios {
  import opened Exceptions
  import opened Numbers
  import Analysis
  import Discrete
  import Events
  import Core

  /** A discrete distribution as the `Distribution` a `Stochast` holds: its
      `f` and its `F` as written. */
  function AsDistribution(d: Discrete.Dist): (r: Core.Distribution)
    ensures r.discrete && r.support == Discrete.Support(d)
    ensures forall x: Num :: r.f(x) == Discrete.f(d, AsObj(x)) && r.F(x) == Discrete.F(d, AsObj(x))
  {
    Core.Distribution(
      true,
      Discrete.Support(d),
      x => Discrete.f(d, AsObj(x)),
      x => Discrete.F(d, AsObj(x)))
  }

  /** `~D` for a discrete distribution `D`. */
  function Variable(d: Discrete.Dist): Core.Stochast {
    Core.InvertDistribution(AsDistribution(d))
  }

  function Prob(e: Events.Event<Core.Stochast>): Result<real> {
    Events.P(e, Core.LawOf)
  }

  /** A Bernoulli variable has mean `p` and variance at most `p`, and
      `P[X == 1] == 1 - P[X == 0] == P[X != 0] == p`. */
  lemma BernoulliScenario(p: real, betainc: (int, int, real) -> real)
    requires 0.0 < p < 1.0
    ensures Discrete.NewBernoulli(PyFloat(p), betainc).Ok?
    ensures var d := Discrete.NewBernoulli(PyFloat(p), betainc).value;
            var X := Variable(d);
            Discrete.Mean(d).Re() == p && Discrete.Variance(d) <= p
            && Prob(Core.Equal(X, Int(1))) == Ok(p)
            && Prob(Core.Equal(X, Int(0))) == Ok(1.0 - p)
            && Prob(Core.NotEqual(X, Int(0))) == Ok(p)
  {
    var d := Discrete.NewBernoulli(PyFloat(p), betainc).value;
    Discrete.BernoulliClosedForms(d);
    assert Analysis.Contains(Discrete.Support(d), Analysis.Scalar(PyInt(1)));
    assert Analysis.Contains(Discrete.Support(d), Analysis.Scalar(PyInt(0)));
  }

  /** A Binomial variable with `n >= 4`: mean `n p` and variance at most it;
      `0` and `n` are outcomes and `n + 1` is not; `P[X < 0] == 0` and
      `P[X <= n + 100000] == 1`. */
  lemma BinomialScenario(n: int, p: real, betainc: (int, int, real) -> real)
    requires n >= 4 && 0.0 < p < 1.0
    ensures Discrete.NewBinomial(PyInt(n), PyFloat(p), betainc).Ok?
    ensures var d := Discrete.NewBinomial(PyInt(n), PyFloat(p), betainc).value;
            var X := Variable(d);
            Discrete.Mean(d).Re() == n as real * p && Discrete.Variance(d) <= n as real * p
            && Core.Contains(X, Analysis.Scalar(PyInt(0)))
            && Core.Contains(X, Analysis.Scalar(PyInt(n)))
            && !Core.Contains(X, Analysis.Scalar(PyInt(n + 1)))
            && Prob(Core.Less(X, Int(0))) == Ok(0.0)
            && Prob(Core.LessEq(X, Int(n + 100000))) == Ok(1.0)
  {
    var d := Discrete.NewBinomial(PyInt(n), PyFloat(p), betainc).value;
    Discrete.BinomialVarianceAtMostMean(d);
  }

  /** A Uniform variable on `[a, b]`: its (intended) mean is `(a + b) / 2`,
      and its variance is at most `(b - a)^2`, i.e. `b - a >= Std[X]`. */
  lemma UniformScenario(a: int, b: int)
    requires a < b
    ensures Discrete.NewUniform(PyInt(a), PyInt(b)).Ok?
    ensures var d := Discrete.NewUniform(PyInt(a), PyInt(b)).value;
            Discrete.MeanIntended(d).Re() == (a + b) as real / 2.0
            && Discrete.Variance(d) <= ((b - a) * (b - a)) as real
  {
    var d := Discrete.NewUniform(PyInt(a), PyInt(b)).value;
    var m := b - a;
    assert Discrete.UniformN(d) == m + 1;
    assert (m + 1) * (m + 1) - 1 == m * m + 2 * m;
    assert m * m >= m by { assert m * m - m == m * (m - 1); assert m * (m - 1) >= 0; }
    assert 12.0 * Discrete.Variance(d) == (m * m + 2 * m) as real;
  }

  /** As written, `P[X <= 2]` of a Uniform on `[1, 2]` is 0, because its
      `F(2)` is 0; the corrected `F` gives 1. */
  lemma LessEqAsWrittenCounterexample()
    ensures Prob(Core.LessEq(Variable(Discrete.Uniform(1, 2)), Int(2))) == Ok(0.0)
    ensures Discrete.FIntended(Discrete.Uniform(1, 2), PyInt(2)) == Ok(1.0)
  {
    Discrete.FAsWrittenCounterexample();
  }

  /** As written, `P[X >= 0]` of a Uniform on `[0, 1]` is 0: `X >= 0` becomes
      `X > 1`. With the intended `X > -1` it is 1. */
  lemma GreaterEqAsWrittenCounterexample()
    ensures Prob(Core.GreaterEq(Variable(Discrete.Uniform(0, 1)), Int(0))) == Ok(0.0)
    ensures Prob(Core.GreaterEqIntended(Variable(Discrete.Uniform(0, 1)), Int(0))) == Ok(1.0)
  {
  }
}
