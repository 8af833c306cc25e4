/** Closed intervals over cleaned numbers (hall/analysis.py).

    An interval is the box `[a.real, b.real] x [a.imag, b.imag]` of the
    complex plane; a real interval is the segment `[a, b]`. Intervals are
    immutable values: every operation builds a new one through the
    constructor, which keeps the class of its receiver (`type(self)`). */
module Analysis {
  import opened Exceptions
  import opened Numbers

  /** `Interval` or its subclass `DiscreteInterval`. */
  datatype IntervalClass = PlainInterval | DiscreteIntervalClass

  datatype Interval = Interval(cls: IntervalClass, a: Num, b: Num)

  /** The right-hand operand of an interval operator: an interval or any
      other object. */
  datatype Operand = Scalar(x: Obj) | Span(iv: Interval)

  function Min(x: real, y: real): real {
    if x <= y then x else y
  }

  function Max(x: real, y: real): real {
    if x <= y then y else x
  }

  /** The invariant the constructor establishes. */
  predicate Valid(I: Interval) {
    I.a.Re() <= I.b.Re() && I.a.Im() <= I.b.Im()
  }

  /** A real interval: neither endpoint is complex. */
  predicate IsReal(I: Interval) {
    !I.a.Complex? && !I.b.Complex?
  }

  // ---- construction ----

  /** `type(cls)(a, b)`: the whole endpoints swap when `a.real > b.real`, then
      the imaginary parts swap when `a.imag > b.imag` (which makes both
      endpoints complex). */
  function Make(cls: IntervalClass, a: Num, b: Num): (r: Interval)
    ensures Valid(r) && r.cls == cls
    ensures r.a.Re() == Min(a.Re(), b.Re()) && r.b.Re() == Max(a.Re(), b.Re())
    ensures r.a.Im() == Min(a.Im(), b.Im()) && r.b.Im() == Max(a.Im(), b.Im())
    ensures a.Re() <= b.Re() && a.Im() <= b.Im() ==> r.a == a && r.b == b
    ensures !a.Complex? && !b.Complex? ==> IsReal(r)
  {
    var (a1, b1) := if a.Re() > b.Re() then (b, a) else (a, b);
    if a1.Im() > b1.Im() then
      Interval(cls, Complex(a1.Re(), b1.Im()), Complex(b1.Re(), a1.Im()))
    else
      Interval(cls, a1, b1)
  }

  /** The constructor is idempotent. */
  lemma MakeIdempotent(I: Interval)
    requires Valid(I)
    ensures Make(I.cls, I.a, I.b) == I
  {
  }

  // ---- membership ----

  /** `Interval.__contains__` for a cleaned number. */
  predicate MemberNum(I: Interval, y: Num) {
    I.a.Re() <= y.Re() <= I.b.Re() && I.a.Im() <= y.Im() <= I.b.Im()
  }

  /** `y in I` for a cleaned number, dispatching on the class of `I`:
      a `DiscreteInterval` holds integers only. */
  predicate ContainsNum(I: Interval, y: Num) {
    if I.cls == DiscreteIntervalClass && !y.Int? then false else MemberNum(I, y)
  }

  /** `x in I`: a subinterval test for an interval operand (a
      `DiscreteInterval` only holds discrete intervals), a box test for a
      number, and false for anything else. */
  predicate Contains(I: Interval, x: Operand) {
    match x
    case Span(J) =>
      (I.cls == DiscreteIntervalClass ==> J.cls == DiscreteIntervalClass)
      && ContainsNum(I, J.a) && ContainsNum(I, J.b)
    case Scalar(o) =>
      if I.cls == DiscreteIntervalClass && !IsInt(o) then false
      else IsNumber(o) && MemberNum(I, CleanNumber(o).value)
  }

  /** Both endpoints of a constructed interval are members. */
  lemma EndpointsAreMembers(I: Interval)
    requires Valid(I)
    ensures MemberNum(I, I.a) && MemberNum(I, I.b)
    ensures I.cls == PlainInterval ==> Contains(I, Scalar(AsObj(I.a))) && Contains(I, Scalar(AsObj(I.b)))
    ensures IsDiscrete(I) ==> Contains(I, Scalar(AsObj(I.a))) && Contains(I, Scalar(AsObj(I.b)))
    ensures I.cls == PlainInterval || IsDiscrete(I) ==> Contains(I, Span(I))
  {
  }

  /** The points of `Make(cls, a, b)` are those of the box spanned by `a`
      and `b`, whichever way round they are given. */
  lemma MakeMembers(cls: IntervalClass, a: Num, b: Num, y: Num)
    ensures MemberNum(Make(cls, a, b), y) <==>
            Min(a.Re(), b.Re()) <= y.Re() <= Max(a.Re(), b.Re())
            && Min(a.Im(), b.Im()) <= y.Im() <= Max(a.Im(), b.Im())
  {
  }

  /** For an `Interval`, `J in I` is point-set inclusion. */
  lemma SubintervalIsInclusion(I: Interval, J: Interval)
    requires Valid(J) && I.cls == PlainInterval
    ensures Contains(I, Span(J)) <==> forall y :: MemberNum(J, y) ==> MemberNum(I, y)
  {
    if forall y :: MemberNum(J, y) ==> MemberNum(I, y) {
      EndpointsAreMembers(J);
    }
  }

  /** A `DiscreteInterval` holds no number that is not an integer, and is
      never a superset of an `Interval`. */
  lemma DiscreteRejects(I: Interval, x: Operand)
    requires I.cls == DiscreteIntervalClass
    requires (x.Scalar? && !IsInt(x.x)) || (x.Span? && x.iv.cls == PlainInterval)
    ensures !Contains(I, x)
  {
  }

  // ---- equality and order against a scalar ----

  /** `I == other`: equal endpoints for an interval, and for a number only a
      degenerate interval equals its point. */
  predicate Eq(I: Interval, other: Operand) {
    match other
    case Span(J) => NumEq(I.a, J.a) && NumEq(I.b, J.b)
    case Scalar(o) => IsDegenerate(I) && IsNumber(o) && NumEq(I.a, CleanNumber(o).value)
  }

  /** Two intervals are equal iff they hold the same points. */
  lemma EqIsSamePoints(I: Interval, J: Interval)
    requires Valid(I) && Valid(J)
    ensures Eq(I, Span(J)) <==> forall y :: MemberNum(I, y) <==> MemberNum(J, y)
  {
    if forall y :: MemberNum(I, y) <==> MemberNum(J, y) {
      EndpointsAreMembers(I);
      EndpointsAreMembers(J);
    }
  }

  /** `I == x` for a number `x` holds iff `I` is the single point `x`. */
  lemma EqScalarIsSinglePoint(I: Interval, x: Num)
    requires Valid(I)
    ensures Eq(I, Scalar(AsObj(x))) <==> forall y :: MemberNum(I, y) <==> NumEq(y, x)
  {
    if forall y :: MemberNum(I, y) <==> NumEq(y, x) {
      EndpointsAreMembers(I);
    }
  }

  /** The number an interval operand is compared with: its lower endpoint
      for `<`, its upper one for `>`; `Unsupported` for a non-number. */
  function CompareTarget(other: Operand, upper: bool): (r: Result<Num>)
    ensures r.Err? <==> other.Scalar? && !IsNumber(other.x)
    ensures r.Err? ==> r.error == Unsupported
  {
    match other
    case Span(J) => Ok(if upper then J.b else J.a)
    case Scalar(o) => if IsNumber(o) then CleanNumber(o) else Err(Unsupported)
  }

  /** `I < x`: some component of `x` exceeds that of the upper endpoint. */
  predicate LtNum(I: Interval, x: Num) {
    I.b.Re() < x.Re() || I.b.Im() < x.Im()
  }

  function Lt(I: Interval, other: Operand): (r: Result<bool>)
    ensures r.Err? <==> other.Scalar? && !IsNumber(other.x)
    ensures r.Ok? && other.Span? ==> r.value == LtNum(I, other.iv.a)
    ensures r.Ok? && other.Scalar? ==> r.value == LtNum(I, CleanNumber(other.x).value)
  {
    var x :- CompareTarget(other, false);
    Ok(LtNum(I, x))
  }

  function Le(I: Interval, other: Operand): (r: Result<bool>)
    ensures r.Err? <==> other.Scalar? && !IsNumber(other.x)
    ensures r.Ok? ==> (r.value <==> Eq(I, other) || Lt(I, other).value)
  {
    var lt :- Lt(I, other);
    Ok(Eq(I, other) || lt)
  }

  /** `I > x` as written: the second clause compares the real part of the
      lower endpoint with the imaginary part of `x`. */
  predicate GtNum(I: Interval, x: Num) {
    I.a.Re() > x.Re() || I.a.Re() > x.Im()
  }

  /** `I > x` as evidently intended, mirroring `__lt__`. */
  predicate GtIntendedNum(I: Interval, x: Num) {
    I.a.Re() > x.Re() || I.a.Im() > x.Im()
  }

  function Gt(I: Interval, other: Operand): (r: Result<bool>)
    ensures r.Err? <==> other.Scalar? && !IsNumber(other.x)
    ensures r.Ok? && other.Span? ==> r.value == GtNum(I, other.iv.b)
    ensures r.Ok? && other.Scalar? ==> r.value == GtNum(I, CleanNumber(other.x).value)
  {
    var x :- CompareTarget(other, true);
    Ok(GtNum(I, x))
  }

  function Ge(I: Interval, other: Operand): (r: Result<bool>)
    ensures r.Err? <==> other.Scalar? && !IsNumber(other.x)
    ensures r.Ok? ==> (r.value <==> Eq(I, other) || Gt(I, other).value)
  {
    var gt :- Gt(I, other);
    Ok(Eq(I, other) || gt)
  }

  /** For a real interval and a real number, `I < x` holds iff every point of
      `I` lies below `x`. */
  lemma LtIsAllBelow(I: Interval, x: Num)
    requires Valid(I) && IsReal(I) && !x.Complex?
    ensures LtNum(I, x) <==> forall y :: MemberNum(I, y) ==> y.Re() < x.Re()
  {
    if forall y :: MemberNum(I, y) ==> y.Re() < x.Re() {
      EndpointsAreMembers(I);
    }
  }

  /** For a real interval and a real number, the intended `I > x` holds iff
      every point of `I` lies above `x`. */
  lemma GtIntendedIsAllAbove(I: Interval, x: Num)
    requires Valid(I) && IsReal(I) && !x.Complex?
    ensures GtIntendedNum(I, x) <==> forall y :: MemberNum(I, y) ==> y.Re() > x.Re()
  {
    if forall y :: MemberNum(I, y) ==> y.Re() > x.Re() {
      EndpointsAreMembers(I);
    }
  }

  /** A real number lies below, in, or above a real interval, and in exactly
      one of the three places, when `>` is read as intended. */
  lemma Trichotomy(I: Interval, x: Num)
    requires Valid(I) && IsReal(I) && !x.Complex?
    ensures LtNum(I, x) || MemberNum(I, x) || GtIntendedNum(I, x)
    ensures !(LtNum(I, x) && MemberNum(I, x)) && !(GtIntendedNum(I, x) && MemberNum(I, x))
    ensures !(LtNum(I, x) && GtIntendedNum(I, x))
  {
  }

  /** As written, `I > x` also holds for a real `x` inside `I` whenever the
      lower endpoint is positive: `[1, 2] > 2`. */
  lemma GtAsWrittenCounterexample()
    ensures var I := Make(DiscreteIntervalClass, Int(1), Int(2));
            GtNum(I, Int(2)) && MemberNum(I, Int(2)) && !GtIntendedNum(I, Int(2))
  {
  }

  /** For a real interval whose lower endpoint is not positive, the written
      and the intended `>` agree on real numbers. */
  lemma GtAgreesWhenLowerNonPositive(I: Interval, x: Num)
    requires IsReal(I) && !x.Complex? && I.a.Re() <= 0.0
    ensures GtNum(I, x) == GtIntendedNum(I, x)
  {
  }

  // ---- disjointness, intersection, union ----

  /** `isdisjoint` as written: its last clause compares the lower imaginary
      parts of both intervals. */
  predicate IsDisjoint(I: Interval, J: Interval) {
    I.a.Re() > J.b.Re() || I.a.Im() > J.b.Im() || I.b.Re() < J.a.Re() || I.a.Im() < J.a.Im()
  }

  /** `isdisjoint` as evidently intended: the boxes are separated along one
      axis. */
  predicate IsDisjointIntended(I: Interval, J: Interval) {
    I.a.Re() > J.b.Re() || I.a.Im() > J.b.Im() || I.b.Re() < J.a.Re() || I.b.Im() < J.a.Im()
  }

  /** Two intervals with no point in common. */
  ghost predicate NoCommonPoint(I: Interval, J: Interval) {
    forall y :: !(MemberNum(I, y) && MemberNum(J, y))
  }

  /** The corrected test is exact: valid intervals are disjoint iff they
      share no point. */
  lemma DisjointIntendedIffNoCommonPoint(I: Interval, J: Interval)
    requires Valid(I) && Valid(J)
    ensures IsDisjointIntended(I, J) <==> NoCommonPoint(I, J)
  {
    if !IsDisjointIntended(I, J) {
      var y := Complex(Max(I.a.Re(), J.a.Re()), Max(I.a.Im(), J.a.Im()));
      assert MemberNum(I, y) && MemberNum(J, y);
    }
  }

  /** On real intervals the written test is exact as well. */
  lemma DisjointIffNoCommonPoint(I: Interval, J: Interval)
    requires Valid(I) && Valid(J) && IsReal(I) && IsReal(J)
    ensures IsDisjoint(I, J) <==> NoCommonPoint(I, J)
  {
    DisjointIntendedIffNoCommonPoint(I, J);
  }

  /** As written, two overlapping complex intervals are reported disjoint:
      `[0j, 1+2j]` and `[1j, 1+3j]` share `1+1j`. */
  lemma DisjointAsWrittenCounterexample()
    ensures var I := Make(PlainInterval, Complex(0.0, 0.0), Complex(1.0, 2.0));
            var J := Make(PlainInterval, Complex(0.0, 1.0), Complex(1.0, 3.0));
            IsDisjoint(I, J) && MemberNum(I, Complex(1.0, 1.0)) && MemberNum(J, Complex(1.0, 1.0))
  {
  }

  /** One step of `_cmax`: a real running maximum is compared with `>`, which
      raises TypeError against a complex argument; a complex running maximum
      takes the larger real part and the larger imaginary part separately. */
  function CMaxStep(res: Num, arg: Num): (r: Result<Num>)
    ensures r.Err? <==> !res.Complex? && arg.Complex?
    ensures r.Err? ==> r.error == TypeError
    ensures r.Ok? && !res.Complex? ==> r.value == (if arg.Re() > res.Re() then arg else res)
    ensures r.Ok? && res.Complex? && arg.Complex? ==>
              r.value.Complex? && r.value.Re() == Max(res.Re(), arg.Re()) && r.value.Im() == Max(res.Im(), arg.Im())
  {
    if !res.Complex? then
      if arg.Complex? then Err(TypeError)
      else if arg.Re() > res.Re() then Ok(arg)
      else Ok(res)
    else if arg.Re() > res.Re() && arg.Im() > res.Im() then Ok(arg)
    else if arg.Re() > res.Re() then Ok(Complex(arg.Re(), res.Im()))
    else if arg.Im() > res.Im() then Ok(Complex(res.Re(), arg.Im()))
    else Ok(res)
  }

  /** `_cmax(*args)` as a left fold of `CMaxStep`; no argument raises
      ValueError. */
  function CMaxOf(args: seq<Num>): (r: Result<Num>)
    ensures r.Err? && r.error == ValueError <==> |args| == 0
    ensures r.Err? ==> r.error == ValueError || r.error == TypeError
    decreases |args|
  {
    if |args| == 0 then Err(ValueError)
    else if |args| == 1 then Ok(args[0])
    else
      var res :- CMaxOf(args[..|args| - 1]);
      CMaxStep(res, args[|args| - 1])
  }

  /** `_cmax`: one pass over the arguments, keeping the running maximum. */
  method CMax(args: seq<Num>) returns (r: Result<Num>)
    ensures r == CMaxOf(args)
  {
    var res: Option<Num> := None;
    var i := 0;
    while i < |args|
      invariant 0 <= i <= |args|
      invariant i == 0 <==> res.None?
      invariant i > 0 ==> CMaxOf(args[..i]) == Ok(res.value)
    {
      var arg := args[i];
      assert args[..i + 1][..i] == args[..i];
      if res.None? {
        res := Some(arg);
      } else {
        var step := CMaxStep(res.value, arg);
        if step.Err? {
          assert CMaxOf(args[..i + 1]) == step;
          FailedPrefix(args, i + 1);
          return step;
        }
        res := Some(step.value);
      }
      i := i + 1;
    }
    assert args[..i] == args;
    if res.None? {
      return Err(ValueError);
    }
    return Ok(res.value);
  }

  /** An exception raised on a prefix ends the whole fold. */
  lemma {:induction false} FailedPrefix(args: seq<Num>, k: nat)
    requires 0 < k <= |args| && CMaxOf(args[..k]).Err?
    ensures CMaxOf(args) == CMaxOf(args[..k])
    decreases |args| - k
  {
    if k < |args| {
      assert args[..k + 1][..k] == args[..k];
      FailedPrefix(args, k + 1);
    } else {
      assert args[..k] == args;
    }
  }

  /** Over real arguments `_cmax` is the maximum: one of the arguments, and
      no smaller than any of them. */
  lemma {:induction false} CMaxReal(args: seq<Num>)
    requires |args| > 0 && forall k :: 0 <= k < |args| ==> !args[k].Complex?
    ensures CMaxOf(args).Ok? && CMaxOf(args).value in args
    ensures forall k :: 0 <= k < |args| ==> args[k].Re() <= CMaxOf(args).value.Re()
    decreases |args|
  {
    if |args| > 1 {
      var init := args[..|args| - 1];
      CMaxReal(init);
      assert forall k :: 0 <= k < |init| ==> init[k] == args[k];
    }
  }

  /** Over complex arguments `_cmax` is the componentwise maximum. */
  lemma {:induction false} CMaxComplex(args: seq<Num>)
    requires |args| > 0 && forall k :: 0 <= k < |args| ==> args[k].Complex?
    ensures CMaxOf(args).Ok? && CMaxOf(args).value.Complex?
    ensures forall k :: 0 <= k < |args| ==>
              args[k].Re() <= CMaxOf(args).value.Re() && args[k].Im() <= CMaxOf(args).value.Im()
    ensures exists k :: 0 <= k < |args| && args[k].Re() == CMaxOf(args).value.Re()
    ensures exists k :: 0 <= k < |args| && args[k].Im() == CMaxOf(args).value.Im()
    decreases |args|
  {
    if |args| == 1 {
      assert args[0].Re() == CMaxOf(args).value.Re();
      assert args[0].Im() == CMaxOf(args).value.Im();
    } else {
      var init := args[..|args| - 1];
      var last := |args| - 1;
      CMaxComplex(init);
      assert forall k :: 0 <= k < |init| ==> init[k] == args[k];
      var res := CMaxOf(init).value;
      var kr :| 0 <= kr < |init| && init[kr].Re() == res.Re();
      var ki :| 0 <= ki < |init| && init[ki].Im() == res.Im();
      if args[last].Re() > res.Re() {
        assert args[last].Re() == CMaxOf(args).value.Re();
      } else {
        assert args[kr].Re() == CMaxOf(args).value.Re();
      }
      if args[last].Im() > res.Im() {
        assert args[last].Im() == CMaxOf(args).value.Im();
      } else {
        assert args[ki].Im() == CMaxOf(args).value.Im();
      }
    }
  }

  function NegAll(args: seq<Num>): (r: seq<Num>)
    ensures |r| == |args| && forall k :: 0 <= k < |args| ==> r[k] == NumNeg(args[k])
  {
    seq(|args|, k requires 0 <= k < |args| => NumNeg(args[k]))
  }

  /** `_cmin(*args) == -_cmax(*(-arg for arg in args))`. */
  function CMinOf(args: seq<Num>): (r: Result<Num>)
    ensures r.Err? <==> CMaxOf(NegAll(args)).Err?
    ensures r.Err? && r.error == ValueError <==> |args| == 0
  {
    var m :- CMaxOf(NegAll(args));
    Ok(NumNeg(m))
  }

  /** Over real arguments `_cmin` is the minimum. */
  lemma CMinReal(args: seq<Num>)
    requires |args| > 0 && forall k :: 0 <= k < |args| ==> !args[k].Complex?
    ensures CMinOf(args).Ok?
    ensures exists k :: 0 <= k < |args| && NumEq(args[k], CMinOf(args).value)
    ensures forall k :: 0 <= k < |args| ==> CMinOf(args).value.Re() <= args[k].Re()
  {
    var neg := NegAll(args);
    CMaxReal(neg);
    var m := CMaxOf(neg).value;
    var k :| 0 <= k < |neg| && neg[k] == m;
    assert NumEq(args[k], CMinOf(args).value);
  }

  /** The maximum and minimum of two real numbers. */
  lemma CMaxMinPair(x: Num, y: Num)
    requires !x.Complex? && !y.Complex?
    ensures CMaxOf([x, y]).Ok? && CMaxOf([x, y]).value.Re() == Max(x.Re(), y.Re())
    ensures CMinOf([x, y]).Ok? && CMinOf([x, y]).value.Re() == Min(x.Re(), y.Re())
    ensures !CMaxOf([x, y]).value.Complex? && !CMinOf([x, y]).value.Complex?
  {
    assert [x, y][..1] == [x];
    var nx, ny := NumNeg(x), NumNeg(y);
    assert NegAll([x, y]) == [nx, ny];
    assert [nx, ny][..1] == [nx];
    assert CMaxOf([nx, ny]) == CMaxStep(nx, ny);
    assert CMinOf([x, y]) == Ok(NumNeg(CMaxStep(nx, ny).value));
  }

  /** Of two numbers `_cmax` takes the larger real part and the larger
      imaginary part, whenever it does not raise. */
  lemma CMaxPair(x: Num, y: Num)
    ensures CMaxOf([x, y]).Err? <==> !x.Complex? && y.Complex?
    ensures CMaxOf([x, y]).Ok? ==>
              CMaxOf([x, y]).value.Re() == Max(x.Re(), y.Re()) && CMaxOf([x, y]).value.Im() == Max(x.Im(), y.Im())
  {
    assert [x, y][..1] == [x];
    assert CMaxOf([x, y]) == CMaxStep(x, y);
  }

  /** Of two numbers `_cmin` takes the smaller real part and the smaller
      imaginary part, whenever it does not raise. */
  lemma CMinPair(x: Num, y: Num)
    ensures CMinOf([x, y]).Err? <==> !x.Complex? && y.Complex?
    ensures CMinOf([x, y]).Ok? ==>
              CMinOf([x, y]).value.Re() == Min(x.Re(), y.Re()) && CMinOf([x, y]).value.Im() == Min(x.Im(), y.Im())
  {
    var nx, ny := NumNeg(x), NumNeg(y);
    assert NegAll([x, y]) == [nx, ny];
    CMaxPair(nx, ny);
  }

  /** The intersection's value once the test has passed: the larger lower
      and the smaller upper endpoint, rebuilt by the constructor. */
  function Meet(I: Interval, J: Interval): (r: Result<Interval>)
    ensures r.Err? <==> CMaxOf([I.a, J.a]).Err? || CMinOf([I.b, J.b]).Err?
    ensures r.Ok? ==> r.value.cls == I.cls && Valid(r.value)
  {
    var lo :- CMaxOf([I.a, J.a]);
    var hi :- CMinOf([I.b, J.b]);
    Ok(Make(I.cls, lo, hi))
  }

  /** The union's value once the test has passed: the smaller lower and the
      larger upper endpoint, rebuilt by the constructor. */
  function Join(I: Interval, J: Interval): (r: Result<Interval>)
    ensures r.Err? <==> CMinOf([I.a, J.a]).Err? || CMaxOf([I.b, J.b]).Err?
    ensures r.Ok? ==> r.value.cls == I.cls && Valid(r.value)
  {
    var lo :- CMinOf([I.a, J.a]);
    var hi :- CMaxOf([I.b, J.b]);
    Ok(Make(I.cls, lo, hi))
  }

  /** `I & J` as written: None when the written `isdisjoint` holds,
      otherwise the interval between the larger lower and the smaller upper
      endpoint, of the class of `I`; `Unsupported` for a non-interval. */
  function And(I: Interval, other: Operand): (r: Result<Option<Interval>>)
    ensures other.Scalar? ==> r == Err(Unsupported)
    ensures other.Span? ==> (r == Ok(None) <==> IsDisjoint(I, other.iv))
    ensures other.Span? && !IsDisjoint(I, other.iv) ==> r == OptionOf(Meet(I, other.iv))
    ensures r.Ok? && r.value.Some? ==> r.value.value.cls == I.cls && Valid(r.value.value)
  {
    match other
    case Scalar(_) => Err(Unsupported)
    case Span(J) =>
      if IsDisjoint(I, J) then Ok(None)
      else
        var K :- Meet(I, J);
        Ok(Some(K))
  }

  /** `I & J` with the corrected disjointness test. */
  function AndIntended(I: Interval, other: Operand): (r: Result<Option<Interval>>)
    ensures other.Scalar? ==> r == Err(Unsupported)
    ensures other.Span? ==> (r == Ok(None) <==> IsDisjointIntended(I, other.iv))
    ensures other.Span? && !IsDisjointIntended(I, other.iv) ==> r == OptionOf(Meet(I, other.iv))
    ensures r.Ok? && r.value.Some? ==> r.value.value.cls == I.cls && Valid(r.value.value)
  {
    match other
    case Scalar(_) => Err(Unsupported)
    case Span(J) =>
      if IsDisjointIntended(I, J) then Ok(None)
      else
        var K :- Meet(I, J);
        Ok(Some(K))
  }

  function OptionOf(r: Result<Interval>): Result<Option<Interval>> {
    if r.Err? then Err(r.error) else Ok(Some(r.value))
  }

  /** The written test is stricter than the corrected one: whatever the
      corrected test calls disjoint, the written one does too. */
  lemma IntendedDisjointIsDisjoint(I: Interval, J: Interval)
    requires Valid(I) && Valid(J) && IsDisjointIntended(I, J)
    ensures IsDisjoint(I, J)
  {
  }

  /** Where overlapping boxes meet, `Meet` is exactly their common points. */
  lemma MeetIsIntersection(I: Interval, J: Interval, y: Num)
    requires Valid(I) && Valid(J) && !IsDisjointIntended(I, J) && Meet(I, J).Ok?
    ensures MemberNum(Meet(I, J).value, y) <==> MemberNum(I, y) && MemberNum(J, y)
  {
    CMaxPair(I.a, J.a);
    CMinPair(I.b, J.b);
  }

  /** With the corrected test, `I & J` is the intersection for intervals of
      every kind: None exactly when no point is shared, otherwise an interval
      holding exactly the shared points. On real intervals it never raises. */
  lemma AndIsIntersection(I: Interval, J: Interval, y: Num)
    requires Valid(I) && Valid(J)
    ensures IsReal(I) && IsReal(J) ==> AndIntended(I, Span(J)).Ok?
    ensures AndIntended(I, Span(J)) == Ok(None) <==> NoCommonPoint(I, J)
    ensures AndIntended(I, Span(J)).Ok? && AndIntended(I, Span(J)).value.Some? ==>
              (MemberNum(AndIntended(I, Span(J)).value.value, y) <==> MemberNum(I, y) && MemberNum(J, y))
  {
    CMaxPair(I.a, J.a);
    CMinPair(I.b, J.b);
    DisjointIntendedIffNoCommonPoint(I, J);
    if !IsDisjointIntended(I, J) && Meet(I, J).Ok? {
      MeetIsIntersection(I, J, y);
    }
  }

  /** As written, whenever `I & J` is an interval it is the intersection;
      on real intervals the written `I & J` is the corrected one. */
  lemma AndAsWrittenIsSound(I: Interval, J: Interval, y: Num)
    requires Valid(I) && Valid(J)
    ensures And(I, Span(J)).Ok? && And(I, Span(J)).value.Some? ==>
              (MemberNum(And(I, Span(J)).value.value, y) <==> MemberNum(I, y) && MemberNum(J, y))
    ensures IsReal(I) && IsReal(J) ==> And(I, Span(J)) == AndIntended(I, Span(J))
  {
    if !IsDisjoint(I, J) && Meet(I, J).Ok? {
      if IsDisjointIntended(I, J) {
        IntendedDisjointIsDisjoint(I, J);
      }
      MeetIsIntersection(I, J, y);
    }
  }

  /** `I | J` as written: NotImplementedError when the written `isdisjoint`
      holds (the gap cannot be masked), otherwise the interval between the
      smaller lower and the larger upper endpoint, of the class of `I`. */
  function Or(I: Interval, other: Operand): (r: Result<Interval>)
    ensures other.Scalar? ==> r == Err(Unsupported)
    ensures other.Span? && IsDisjoint(I, other.iv) ==> r == Err(NotImplementedError)
    ensures other.Span? && !IsDisjoint(I, other.iv) ==> r == Join(I, other.iv)
    ensures r.Ok? ==> r.value.cls == I.cls && Valid(r.value)
  {
    match other
    case Scalar(_) => Err(Unsupported)
    case Span(J) =>
      if IsDisjoint(I, J) then Err(NotImplementedError)
      else Join(I, J)
  }

  /** `I | J` with the corrected disjointness test. */
  function OrIntended(I: Interval, other: Operand): (r: Result<Interval>)
    ensures other.Scalar? ==> r == Err(Unsupported)
    ensures other.Span? && IsDisjointIntended(I, other.iv) ==> r == Err(NotImplementedError)
    ensures other.Span? && !IsDisjointIntended(I, other.iv) ==> r == Join(I, other.iv)
    ensures r.Ok? ==> r.value.cls == I.cls && Valid(r.value)
  {
    match other
    case Scalar(_) => Err(Unsupported)
    case Span(J) =>
      if IsDisjointIntended(I, J) then Err(NotImplementedError)
      else Join(I, J)
  }

  /** `Join` is the hull: both operands are subintervals of it, and its
      endpoints are the componentwise minimum and maximum, so it is the
      smallest such box. */
  lemma JoinIsHull(I: Interval, J: Interval)
    requires Valid(I) && Valid(J) && Join(I, J).Ok?
    ensures forall y :: MemberNum(I, y) ==> MemberNum(Join(I, J).value, y)
    ensures forall y :: MemberNum(J, y) ==> MemberNum(Join(I, J).value, y)
    ensures var K := Join(I, J).value;
            K.a.Re() == Min(I.a.Re(), J.a.Re()) && K.a.Im() == Min(I.a.Im(), J.a.Im())
            && K.b.Re() == Max(I.b.Re(), J.b.Re()) && K.b.Im() == Max(I.b.Im(), J.b.Im())
  {
    CMinPair(I.a, J.a);
    CMaxPair(I.b, J.b);
  }

  /** Whenever `I | J` succeeds, written or corrected, both operands are
      subintervals of it and it is the smallest such box; overlapping real
      intervals always have a union. */
  lemma OrIsHull(I: Interval, J: Interval)
    requires Valid(I) && Valid(J)
    ensures IsReal(I) && IsReal(J) && !IsDisjointIntended(I, J) ==> Or(I, Span(J)).Ok? && OrIntended(I, Span(J)).Ok?
    ensures Or(I, Span(J)).Ok? ==>
              (forall y :: MemberNum(I, y) ==> MemberNum(Or(I, Span(J)).value, y))
              && (forall y :: MemberNum(J, y) ==> MemberNum(Or(I, Span(J)).value, y))
    ensures OrIntended(I, Span(J)).Ok? ==>
              (forall y :: MemberNum(I, y) ==> MemberNum(OrIntended(I, Span(J)).value, y))
              && (forall y :: MemberNum(J, y) ==> MemberNum(OrIntended(I, Span(J)).value, y))
    ensures var K := OrIntended(I, Span(J));
            K.Ok? ==> K.value.a.Re() == Min(I.a.Re(), J.a.Re()) && K.value.a.Im() == Min(I.a.Im(), J.a.Im())
                      && K.value.b.Re() == Max(I.b.Re(), J.b.Re()) && K.value.b.Im() == Max(I.b.Im(), J.b.Im())
  {
    CMinPair(I.a, J.a);
    CMaxPair(I.b, J.b);
    if Join(I, J).Ok? {
      JoinIsHull(I, J);
    }
  }

  /** As written, the overlapping boxes `[0j, 1+2j]` and `[1j, 1+3j]`
      (both hold `1+1j`) have no intersection; with the corrected test,
      `I & J` is `[1j, 1+2j]`. */
  lemma AndAsWrittenCounterexample()
    ensures var I := Interval(PlainInterval, Complex(0.0, 0.0), Complex(1.0, 2.0));
            var J := Interval(PlainInterval, Complex(0.0, 1.0), Complex(1.0, 3.0));
            Make(I.cls, I.a, I.b) == I && Make(J.cls, J.a, J.b) == J
            && MemberNum(I, Complex(1.0, 1.0)) && MemberNum(J, Complex(1.0, 1.0))
            && And(I, Span(J)) == Ok(None)
            && AndIntended(I, Span(J)) == Ok(Some(Interval(PlainInterval, Complex(0.0, 1.0), Complex(1.0, 2.0))))
  {
    var a, b := Complex(0.0, 0.0), Complex(1.0, 2.0);
    var c, d := Complex(0.0, 1.0), Complex(1.0, 3.0);
    assert [a, c][..1] == [a];
    assert CMaxOf([a, c]) == Ok(c);
    assert NegAll([b, d]) == [NumNeg(b), NumNeg(d)];
    assert [NumNeg(b), NumNeg(d)][..1] == [NumNeg(b)];
    assert CMaxOf([NumNeg(b), NumNeg(d)]) == Ok(NumNeg(b));
    assert CMinOf([b, d]) == Ok(b);
    assert Make(PlainInterval, c, b) == Interval(PlainInterval, c, b);
  }

  /** As written, the same two boxes have no union either; with the
      corrected test, `I | J` is `[0j, 1+3j]`. */
  lemma OrAsWrittenCounterexample()
    ensures var I := Interval(PlainInterval, Complex(0.0, 0.0), Complex(1.0, 2.0));
            var J := Interval(PlainInterval, Complex(0.0, 1.0), Complex(1.0, 3.0));
            Or(I, Span(J)) == Err(NotImplementedError)
            && OrIntended(I, Span(J)) == Ok(Interval(PlainInterval, Complex(0.0, 0.0), Complex(1.0, 3.0)))
  {
    var a, b := Complex(0.0, 0.0), Complex(1.0, 2.0);
    var c, d := Complex(0.0, 1.0), Complex(1.0, 3.0);
    assert [b, d][..1] == [b];
    assert CMaxOf([b, d]) == Ok(d);
    assert NegAll([a, c]) == [NumNeg(a), NumNeg(c)];
    assert [NumNeg(a), NumNeg(c)][..1] == [NumNeg(a)];
    assert CMaxOf([NumNeg(a), NumNeg(c)]) == Ok(NumNeg(a));
    assert CMinOf([a, c]) == Ok(a);
    assert Make(PlainInterval, a, d) == Interval(PlainInterval, a, d);
  }

  // ---- arithmetic ----

  /** The number an arithmetic operand contributes. */
  function ArithOperand(o: Obj): (r: Result<Num>)
    ensures r.Err? <==> !IsNumber(o)
    ensures r.Err? ==> r.error == Unsupported
    ensures r.Ok? ==> r == CleanNumber(o)
  {
    if IsNumber(o) then CleanNumber(o) else Err(Unsupported)
  }

  /** `I + J` endpoint by endpoint. */
  function AddIntervals(I: Interval, J: Interval): (r: Interval)
    ensures Valid(I) && Valid(J) ==> r.a == NumAdd(I.a, J.a) && r.b == NumAdd(I.b, J.b)
    ensures r.cls == I.cls
  {
    Make(I.cls, NumAdd(I.a, J.a), NumAdd(I.b, J.b))
  }

  function Add(I: Interval, other: Operand): (r: Result<Interval>)
    ensures r.Err? <==> other.Scalar? && !IsNumber(other.x)
    ensures other.Span? ==> r == Ok(AddIntervals(I, other.iv))
  {
    match other
    case Span(J) => Ok(AddIntervals(I, J))
    case Scalar(o) =>
      var x :- ArithOperand(o);
      Ok(Make(I.cls, NumAdd(I.a, x), NumAdd(I.b, x)))
  }

  function Sub(I: Interval, other: Operand): (r: Result<Interval>)
    ensures r.Err? <==> other.Scalar? && !IsNumber(other.x)
  {
    match other
    case Span(J) => Ok(Make(I.cls, NumSub(I.a, J.a), NumSub(I.b, J.b)))
    case Scalar(o) =>
      var x :- ArithOperand(o);
      Ok(Make(I.cls, NumSub(I.a, x), NumSub(I.b, x)))
  }

  function Mul(I: Interval, other: Operand): (r: Result<Interval>)
    ensures r.Err? <==> other.Scalar? && !IsNumber(other.x)
  {
    match other
    case Span(J) => Ok(Make(I.cls, NumMul(I.a, J.a), NumMul(I.b, J.b)))
    case Scalar(o) =>
      var x :- ArithOperand(o);
      Ok(Make(I.cls, NumMul(I.a, x), NumMul(I.b, x)))
  }

  /** `I / x`; a zero divisor raises ZeroDivisionError. */
  function Div(I: Interval, other: Operand): (r: Result<Interval>)
    ensures other.Scalar? && !IsNumber(other.x) ==> r == Err(Unsupported)
    ensures other.Scalar? && IsNumber(other.x) ==> (r.Err? <==> IsZero(CleanNumber(other.x).value))
    ensures other.Span? ==> (r.Err? <==> IsZero(other.iv.a) || IsZero(other.iv.b))
    ensures r.Err? && other.Span? ==> r.error == ZeroDivisionError
    ensures r.Err? && other.Scalar? && IsNumber(other.x) ==> r.error == ZeroDivisionError
  {
    match other
    case Span(J) =>
      var lo :- NumDiv(I.a, J.a);
      var hi :- NumDiv(I.b, J.b);
      Ok(Make(I.cls, lo, hi))
    case Scalar(o) =>
      var x :- ArithOperand(o);
      if IsZero(x) then Err(ZeroDivisionError)
      else Ok(Make(I.cls, NumDiv(I.a, x).value, NumDiv(I.b, x).value))
  }

  function Neg(I: Interval): (r: Interval)
    ensures r.cls == I.cls && Valid(r)
  {
    Make(I.cls, NumNeg(I.a), NumNeg(I.b))
  }

  /** With an interval operand, `-`, `*` and `/` work endpoint by endpoint
      and do not bound the differences, products or quotients of points:
      `[0, 1] - [0, 1]` is `[0, 0]`, which misses `1 - 0`. */
  lemma SubIntervalsMissesDifferences()
    ensures var I := Interval(PlainInterval, Int(0), Int(1));
            Sub(I, Span(I)) == Ok(Interval(PlainInterval, Int(0), Int(0)))
            && MemberNum(I, Int(1)) && MemberNum(I, Int(0))
            && !MemberNum(Sub(I, Span(I)).value, NumSub(Int(1), Int(0)))
  {
  }

  /** Adding a number shifts the interval: `y in I` iff `y + x in I + x`. */
  lemma AddShifts(I: Interval, x: Num, y: Num)
    requires Valid(I)
    ensures Add(I, Scalar(AsObj(x))).Ok?
    ensures MemberNum(I, y) <==> MemberNum(Add(I, Scalar(AsObj(x))).value, NumAdd(y, x))
  {
  }

  /** Subtracting a number shifts the interval the other way. */
  lemma SubShifts(I: Interval, x: Num, y: Num)
    requires Valid(I)
    ensures Sub(I, Scalar(AsObj(x))).Ok?
    ensures MemberNum(I, y) <==> MemberNum(Sub(I, Scalar(AsObj(x))).value, NumSub(y, x))
  {
  }

  /** The sum of two intervals holds every sum of their points. */
  lemma AddIntervalsHoldsSums(I: Interval, J: Interval, y: Num, z: Num)
    requires Valid(I) && Valid(J) && MemberNum(I, y) && MemberNum(J, z)
    ensures MemberNum(AddIntervals(I, J), NumAdd(y, z))
  {
  }

  /** Negation reflects an interval through the origin. */
  lemma NegReflects(I: Interval, y: Num)
    requires Valid(I)
    ensures MemberNum(I, y) <==> MemberNum(Neg(I), NumNeg(y))
    ensures Neg(Neg(I)).cls == I.cls
    ensures NumEq(Neg(Neg(I)).a, I.a) && NumEq(Neg(Neg(I)).b, I.b)
  {
  }

  /** Scaling a real interval by a non-negative real keeps its points'
      images inside. */
  lemma MulScales(I: Interval, x: Num, y: Num)
    requires Valid(I) && IsReal(I) && !x.Complex? && !y.Complex? && x.Re() >= 0.0
    requires MemberNum(I, y)
    ensures Mul(I, Scalar(AsObj(x))).Ok?
    ensures MemberNum(Mul(I, Scalar(AsObj(x))).value, NumMul(y, x))
  {
    ScaleMonotone(I.a, y, x);
    ScaleMonotone(y, I.b, x);
    assert Mul(I, Scalar(AsObj(x))).value == Make(I.cls, NumMul(I.a, x), NumMul(I.b, x));
  }

  /** Dividing a real interval by a positive real keeps its points'
      quotients inside: `y in I` implies `y / x in I / x`. */
  lemma DivScales(I: Interval, x: Num, y: Num)
    requires Valid(I) && IsReal(I) && !x.Complex? && !y.Complex? && x.Re() > 0.0
    requires MemberNum(I, y)
    ensures Div(I, Scalar(AsObj(x))).Ok? && NumDiv(y, x).Ok?
    ensures MemberNum(Div(I, Scalar(AsObj(x))).value, NumDiv(y, x).value)
  {
    QuotientMonotone(I.a.Re(), y.Re(), x.Re());
    QuotientMonotone(y.Re(), I.b.Re(), x.Re());
    assert Div(I, Scalar(AsObj(x))).value == Make(I.cls, NumDiv(I.a, x).value, NumDiv(I.b, x).value);
  }

  /** Division by a positive real keeps the order of reals. */
  lemma QuotientMonotone(u: real, v: real, c: real)
    requires u <= v && c > 0.0
    ensures u / c <= v / c
  {
    assert v / c - u / c == (v - u) / c;
  }

  /** Multiplying by a non-negative real keeps the order of real numbers,
      and the products are real. */
  lemma ScaleMonotone(u: Num, v: Num, x: Num)
    requires !u.Complex? && !v.Complex? && !x.Complex?
    requires u.Re() <= v.Re() && x.Re() >= 0.0
    ensures NumMul(u, x).Re() <= NumMul(v, x).Re()
    ensures NumMul(u, x).Im() == 0.0 && NumMul(v, x).Im() == 0.0
  {
    var p, q, c := u.Re(), v.Re(), x.Re();
    assert NumMul(u, x).Re() == p * c && NumMul(v, x).Re() == q * c;
    assert q * c - p * c == (q - p) * c;
  }

  // ---- properties ----

  /** `is_complex`: a non-zero imaginary part or a complex endpoint. */
  predicate IsComplex(I: Interval) {
    I.a.Im() != 0.0 || I.b.Im() != 0.0 || I.a.Complex? || I.b.Complex?
  }

  /** `is_discrete`: not complex, and both endpoints integers. */
  predicate IsDiscrete(I: Interval) {
    !IsComplex(I) && I.a.Int? && I.b.Int?
  }

  /** `is_degenerate`: `a == b`. */
  predicate IsDegenerate(I: Interval) {
    NumEq(I.a, I.b)
  }

  /** Only a complex endpoint makes an interval complex. */
  lemma ComplexIffComplexEndpoint(I: Interval)
    ensures IsComplex(I) <==> !IsReal(I)
    ensures IsDiscrete(I) <==> I.a.Int? && I.b.Int?
  {
  }

  /** A degenerate interval holds exactly one point. */
  lemma DegenerateIsSinglePoint(I: Interval)
    requires Valid(I)
    ensures IsDegenerate(I) <==> forall y :: MemberNum(I, y) ==> NumEq(y, I.a)
  {
    if forall y :: MemberNum(I, y) ==> NumEq(y, I.a) {
      EndpointsAreMembers(I);
    }
  }

  /** `size`: `b - a`. */
  function Size(I: Interval): (r: Num)
    ensures Valid(I) ==> r.Re() >= 0.0 && r.Im() >= 0.0
    ensures IsDiscrete(I) ==> r.Int?
  {
    NumSub(I.b, I.a)
  }

  /** `radius`: `size / 2`, a float even for integer endpoints. */
  function Radius(I: Interval): (r: Num)
    ensures Valid(I) ==> r.Re() >= 0.0 && r.Im() >= 0.0
    ensures !r.Int?
  {
    NumHalf(Size(I))
  }

  /** `mid`: `(a + b) / 2`. */
  function Mid(I: Interval): (r: Num)
    ensures !r.Int?
  {
    NumHalf(NumAdd(I.a, I.b))
  }

  /** The midpoint is a member, and the endpoints lie one radius either side
      of it. */
  lemma MidAndRadius(I: Interval)
    requires Valid(I)
    ensures MemberNum(I, Mid(I))
    ensures NumEq(NumSub(Mid(I), Radius(I)), I.a) && NumEq(NumAdd(Mid(I), Radius(I)), I.b)
  {
  }

  /** `d`: the difference between consecutive values of the endpoint type. */
  datatype Step = Exact(n: Num) | MachineEpsilon(complex: bool)

  function D(I: Interval): (r: Step)
    ensures IsDiscrete(I) <==> r == Exact(Int(1))
    ensures IsComplex(I) <==> r == MachineEpsilon(true)
  {
    if IsComplex(I) then MachineEpsilon(true)
    else if IsDiscrete(I) then Exact(Int(1))
    else MachineEpsilon(false)
  }

  // ---- functions with a support, and their convolution ----

  /** The `Function` protocol as far as the model needs it: whether it is
      discrete, and its support. */
  datatype Function = Function(discrete: bool, support: Interval)

  /** `supp(f)` */
  function Supp(f: Function): Interval {
    f.support
  }

  /** The lazy convolution's bookkeeping: its support is the sum of the
      supports, and it is discrete iff both inputs are. */
  function Convolve(f: Function, g: Function): (r: Function)
    ensures r.discrete <==> f.discrete && g.discrete
    ensures Valid(Supp(f)) && Valid(Supp(g)) ==>
              Supp(r).a == NumAdd(Supp(f).a, Supp(g).a) && Supp(r).b == NumAdd(Supp(f).b, Supp(g).b)
  {
    Function(f.discrete && g.discrete, AddIntervals(Supp(f), Supp(g)))
  }

  /** Every sum of points of the two supports is in the convolution's
      support. */
  lemma ConvolveSupport(f: Function, g: Function, y: Num, z: Num)
    requires Valid(Supp(f)) && Valid(Supp(g)) && MemberNum(Supp(f), y) && MemberNum(Supp(g), z)
    ensures MemberNum(Supp(Convolve(f, g)), NumAdd(y, z))
  {
    AddIntervalsHoldsSums(Supp(f), Supp(g), y, z);
  }
}
