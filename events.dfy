/** Symbolic events on a random variable (hall/_event.py, and its twin
    hall/event.py): `X == x`, `X != x` and the half-open ranges `a < X <= b`,
    with their complements and probabilities.

    The two files differ only in how an event reaches its variable's
    distribution (`X.f` against `X.distribution.f`), so the event is generic
    in the variable `V` and its probability takes the accessor `law` from a
    variable to what it needs. */
module Events {
  import opened Exceptions
  import opened Numbers

  /** What an event asks of its variable: whether it is discrete, its mass
      or density `f` and its cumulative distribution `F`. */
  datatype Law = Law(discrete: bool, f: Num -> Result<real>, F: Num -> Result<real>)

  /** `EventEq(X, x, _inv)` is `X == x` (`X != x` when inverted);
      `EventInterval(X, a, b, _inv)` is `a < X <= b`, a missing bound being
      unbounded (its complement when inverted). */
  datatype Event<V> =
    | EventEq(X: V, x: Num, inv: bool)
    | EventInterval(X: V, a: Option<Num>, b: Option<Num>, inv: bool)

  /** What the constructors establish: a range has at least one bound. */
  predicate Valid<V>(e: Event<V>) {
    e.EventInterval? ==> e.a.Some? || e.b.Some?
  }

  /** `EventInterval(X, a, b, _inv)`: ValueError when both bounds are missing. */
  function NewEventInterval<V>(X: V, a: Option<Num>, b: Option<Num>, inv: bool): (r: Result<Event<V>>)
    ensures r.Err? <==> a.None? && b.None?
    ensures r.Err? ==> r.error == ValueError
    ensures r.Ok? ==> Valid(r.value) && r.value == EventInterval(X, a, b, inv)
  {
    if a.None? && b.None? then Err(ValueError) else Ok(EventInterval(X, a, b, inv))
  }

  /** `~event`. An equality toggles its flag. A one-sided range becomes the
      other one-sided range on the same bound, keeping its flag; a two-sided
      range toggles its flag. The constructor's check is kept: it raises
      ValueError for a range with no bound, which no valid event is. */
  function Invert<V>(e: Event<V>): (r: Result<Event<V>>)
    ensures Valid(e) ==> r.Ok? && Valid(r.value) && r.value.X == e.X
    ensures e.EventEq? ==> r == Ok(EventEq(e.X, e.x, !e.inv))
    ensures e.EventInterval? && e.a.None? && e.b.Some? ==> r == Ok(EventInterval(e.X, e.b, None, e.inv))
    ensures e.EventInterval? && e.a.Some? && e.b.None? ==> r == Ok(EventInterval(e.X, None, e.a, e.inv))
    ensures e.EventInterval? && e.a.Some? && e.b.Some? ==> r == Ok(e.(inv := !e.inv))
    ensures e.EventInterval? && e.a.None? && e.b.None? ==> r == Err(ValueError)
  {
    match e
    case EventEq(X, x, inv) => Ok(EventEq(X, x, !inv))
    case EventInterval(X, a, b, inv) =>
      if a.None? then NewEventInterval(X, b, None, inv)
      else if b.None? then NewEventInterval(X, None, a, inv)
      else NewEventInterval(X, a, b, !inv)
  }

  /** `event | Y`: conditioning on another event returns the event itself;
      any other operand is not handled. */
  datatype Given<V> = GivenEvent(event: Event<V>) | GivenOther

  function Or<V>(e: Event<V>, Y: Given<V>): (r: Result<Event<V>>)
    ensures Y.GivenEvent? ==> r == Ok(e)
    ensures Y.GivenOther? ==> r == Err(Unsupported)
  {
    if Y.GivenEvent? then Ok(e) else Err(Unsupported)
  }

  /** `event.p`. An equality on a continuous variable has probability 0;
      otherwise it is `f(x)`, or `1 - f(x)` when inverted. A range is
      `F(b) - F(a)` (1 for a missing `b`, nothing subtracted for a missing
      `a`), complemented when inverted, and asserted to be a probability. */
  function P<V>(e: Event<V>, law: V -> Law): (r: Result<real>)
    ensures e.EventEq? && !law(e.X).discrete ==> r == Ok(0.0)
    ensures e.EventEq? && law(e.X).discrete ==>
              (r.Ok? <==> law(e.X).f(e.x).Ok?)
              && (r.Ok? ==> r.value == if e.inv then 1.0 - law(e.X).f(e.x).value else law(e.X).f(e.x).value)
    ensures e.EventInterval? && r.Ok? ==> 0.0 <= r.value <= 1.0
    ensures e.EventInterval? && r.Ok? ==> r.value == Adjust(e.inv, Upper(e, law(e.X)) - Lower(e, law(e.X)))
    ensures e.EventInterval? ==>
              (r.Ok? <==> Span(e, law(e.X)).Ok? && 0.0 <= Span(e, law(e.X)).value <= 1.0)
    ensures e.EventInterval? && Span(e, law(e.X)).Ok? && r.Err? ==> r.error == AssertionError
    ensures e.EventInterval? && Span(e, law(e.X)).Err? ==> r == Span(e, law(e.X))
  {
    var L := law(e.X);
    if e.EventEq? then
      if !L.discrete then Ok(0.0)
      else
        var p :- L.f(e.x);
        Ok(if e.inv then 1.0 - p else p)
    else
      var p :- Span(e, L);
      if 0.0 <= p <= 1.0 then Ok(p) else Err(AssertionError)
  }

  /** The value a range's probability is computed to before the assertion. */
  function Span<V>(e: Event<V>, L: Law): (r: Result<real>)
    requires e.EventInterval?
    ensures r.Ok? <==> (e.b.Some? ==> L.F(e.b.value).Ok?) && (e.a.Some? ==> L.F(e.a.value).Ok?)
    ensures r.Ok? ==> r.value == Adjust(e.inv, Upper(e, L) - Lower(e, L))
  {
    var p :- if e.b.None? then Ok(1.0) else L.F(e.b.value);
    var p' :- if e.a.None? then Ok(p) else var fa :- L.F(e.a.value); Ok(p - fa);
    Ok(if e.inv then 1.0 - p' else p')
  }

  function Adjust(inv: bool, p: real): real {
    if inv then 1.0 - p else p
  }

  /** `F(b)`, or 1 without an upper bound. */
  function Upper<V>(e: Event<V>, L: Law): real
    requires e.EventInterval?
  {
    if e.b.None? || L.F(e.b.value).Err? then 1.0 else L.F(e.b.value).value
  }

  /** `F(a)`, or 0 without a lower bound. */
  function Lower<V>(e: Event<V>, L: Law): real
    requires e.EventInterval?
  {
    if e.a.None? || L.F(e.a.value).Err? then 0.0 else L.F(e.a.value).value
  }

  /** Inverting a valid event twice gives it back. */
  lemma InvertInvolution<V>(e: Event<V>)
    requires Valid(e)
    ensures Invert(e).Ok? && Invert(Invert(e).value) == Ok(e)
  {
  }

  /** The complement of a range has the complementary probability. */
  lemma {:induction false} RangeComplement<V>(e: Event<V>, law: V -> Law)
    requires Valid(e) && e.EventInterval? && P(e, law).Ok?
    ensures P(Invert(e).value, law) == Ok(1.0 - P(e, law).value)
  {
    var L := law(e.X);
    var e' := Invert(e).value;
    assert e'.X == e.X;
    assert Span(e, L).Ok?;
    if e.a.None? {
      assert Span(e', L) == Ok(Adjust(e.inv, 1.0 - L.F(e.b.value).value));
    } else if e.b.None? {
      assert Span(e', L) == Ok(Adjust(e.inv, L.F(e.a.value).value));
    } else {
      assert Span(e', L) == Ok(Adjust(!e.inv, L.F(e.b.value).value - L.F(e.a.value).value));
    }
  }

  /** On a discrete variable, `X != x` has the complementary probability of
      `X == x`. */
  lemma EqComplement<V>(e: Event<V>, law: V -> Law)
    requires e.EventEq? && law(e.X).discrete && P(e, law).Ok?
    ensures P(Invert(e).value, law) == Ok(1.0 - P(e, law).value)
  {
  }

  /** On a continuous variable both `X == x` and `X != x` have probability 0,
      so they are not complementary. */
  lemma ContinuousEqHasNoMass<V>(e: Event<V>, law: V -> Law)
    requires e.EventEq? && !law(e.X).discrete
    ensures P(e, law) == Ok(0.0) && P(Invert(e).value, law) == Ok(0.0)
  {
  }

  /** `F` is a cumulative distribution where it is defined: a probability,
      and non-decreasing in the real part of its argument. */
  ghost predicate IsCumulative(L: Law) {
    (forall x :: L.F(x).Ok? ==> 0.0 <= L.F(x).value <= 1.0)
    && (forall x: Num, y: Num :: x.Re() <= y.Re() && L.F(x).Ok? && L.F(y).Ok? ==> L.F(x).value <= L.F(y).value)
  }

  /** With a cumulative `F` defined at the bounds, a range with `a <= b`
      never fails its assertion: its probability is `F(b) - F(a)`, or the
      complement of it. */
  lemma RangeIsProbability<V>(e: Event<V>, law: V -> Law)
    requires e.EventInterval? && IsCumulative(law(e.X))
    requires e.a.Some? ==> law(e.X).F(e.a.value).Ok?
    requires e.b.Some? ==> law(e.X).F(e.b.value).Ok?
    requires e.a.Some? && e.b.Some? ==> e.a.value.Re() <= e.b.value.Re()
    ensures P(e, law).Ok?
    ensures P(e, law).value == Adjust(e.inv, Upper(e, law(e.X)) - Lower(e, law(e.X)))
  {
    var L := law(e.X);
    if e.a.Some? && e.b.Some? {
      assert L.F(e.a.value).value <= L.F(e.b.value).value;
    }
  }
}
