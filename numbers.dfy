/** Number classification and normalisation (hall/numbers.py), and the
    arithmetic of the numeric tower on normalised numbers.

    A Python float and an mpmath `mpf` are modelled as exact `real`s: no
    rounding, no infinities, no NaN. */
module Numbers {
  import opened Exceptions

  /** A Python object as the numeric predicates see it: the concrete numeric
      classes the library distinguishes, and anything else. */
  datatype Obj =
    | PyBool(bit: bool)              // bool, a subclass of int
    | PyInt(i: int)                  // int (IntType)
    | PyFloat(r: real)               // Python float
    | MpFloat(r: real)               // mpmath.mpf (FloatType)
    | MpConstant(r: real)            // mpmath constant, e.g. mp.pi, mpmath.fraction
    | PyDecimal(r: real)             // decimal.Decimal
    | PyFraction(r: real)            // fractions.Fraction
    | PyComplex(re: real, im: real)  // Python complex
    | MpComplex(re: real, im: real)  // mpmath.mpc (ComplexType)
    | Foreign                        // any object that is not a number

  /** A cleaned number (CleanNumber): IntType, FloatType or ComplexType. */
  datatype Num = Int(i: int) | Float(r: real) | Complex(re: real, im: real) {

    /** `.real` */
    function Re(): real {
      match this
      case Int(i) => i as real
      case Float(r) => r
      case Complex(re, _) => re
    }

    /** `.imag` */
    function Im(): real {
      match this
      case Int(_) => 0.0
      case Float(_) => 0.0
      case Complex(_, im) => im
    }
  }

  predicate IsInt(x: Obj) {
    x.PyBool? || x.PyInt?
  }

  predicate IsFloat(x: Obj) {
    x.PyFloat? || x.MpFloat? || x.MpConstant?
  }

  predicate IsComplex(x: Obj) {
    x.PyComplex? || x.MpComplex?
  }

  /** `isinstance(x, NUMBER_TYPES_RAW)` */
  predicate IsNumber(x: Obj) {
    IsInt(x) || IsFloat(x) || IsComplex(x) || x.PyDecimal? || x.PyFraction?
  }

  /** A number whose class is none of int, float, complex, Decimal, Fraction
      (bool counts as int). */
  predicate IsMpNumber(x: Obj) {
    IsNumber(x) && !(x.PyBool? || x.PyInt? || x.PyFloat? || x.PyComplex? || x.PyDecimal? || x.PyFraction?)
  }

  /** `int(x)` of an integral object. */
  function IntValue(x: Obj): int
    requires IsInt(x)
  {
    match x
    case PyBool(bit) => if bit then 1 else 0
    case PyInt(i) => i
  }

  /** `FloatType(x)` of a float-kind object. */
  function FloatValue(x: Obj): real
    requires IsFloat(x)
  {
    x.r
  }

  predicate IsProbability(x: Obj) {
    IsFloat(x) && 0.0 <= FloatValue(x) <= 1.0
  }

  /** `.real` of a number object. */
  function ObjRe(x: Obj): real
    requires IsNumber(x)
  {
    match x
    case PyBool(_) => IntValue(x) as real
    case PyInt(i) => i as real
    case PyComplex(re, _) => re
    case MpComplex(re, _) => re
    case _ => x.r
  }

  /** `.imag` of a number object. */
  function ObjIm(x: Obj): real
    requires IsNumber(x)
  {
    if IsComplex(x) then x.im else 0.0
  }

  function CleanNumber(x: Obj): (r: Result<Num>)
    ensures r.Ok? <==> IsNumber(x)
    ensures r.Err? ==> r.error == TypeError
    ensures r.Ok? ==> r.value.Re() == ObjRe(x) && r.value.Im() == ObjIm(x)
    ensures r.Ok? ==> (r.value.Int? <==> IsInt(x))
    ensures r.Ok? ==> (r.value.Float? <==> IsFloat(x) || x.PyDecimal? || x.PyFraction?)
    ensures r.Ok? ==> (r.value.Complex? <==> IsComplex(x))
  {
    if !IsNumber(x) then Err(TypeError)
    else if IsInt(x) then Ok(Int(IntValue(x)))
    else if IsFloat(x) then Ok(Float(FloatValue(x)))
    else if x.PyDecimal? || x.PyFraction? then Ok(Float(x.r))
    else if IsComplex(x) then Ok(Complex(x.re, x.im))
    else Err(TypeError)
  }

  /** A cleaned number handed back to code that accepts any object. */
  function AsObj(n: Num): (x: Obj)
    ensures IsNumber(x) && (IsInt(x) <==> n.Int?) && (IsComplex(x) <==> n.Complex?)
  {
    match n
    case Int(i) => PyInt(i)
    case Float(r) => MpFloat(r)
    case Complex(re, im) => MpComplex(re, im)
  }

  /** Each object has at most one of the three kinds. */
  lemma KindsAreExclusive(x: Obj)
    ensures !(IsInt(x) && IsFloat(x)) && !(IsInt(x) && IsComplex(x)) && !(IsFloat(x) && IsComplex(x))
  {
  }

  /** The numbers are exactly the objects of the five numeric kinds, and the
      mpmath numbers among them are mpf, mpmath constants and mpc. */
  lemma NumberKinds(x: Obj)
    ensures IsNumber(x) <==> !x.Foreign?
    ensures IsMpNumber(x) <==> x.MpFloat? || x.MpConstant? || x.MpComplex?
  {
  }

  /** Cleaning a cleaned number changes neither its kind nor its value. */
  lemma CleanIsIdempotent(x: Obj)
    requires IsNumber(x)
    ensures CleanNumber(AsObj(CleanNumber(x).value)) == CleanNumber(x)
  {
  }

  /** Only float-kind objects in [0, 1] are probabilities: the integers 0 and 1
      and a Fraction are not. */
  lemma ProbabilityKinds(x: Obj)
    ensures IsProbability(x) ==> CleanNumber(x).Ok? && CleanNumber(x).value.Float?
                                 && 0.0 <= CleanNumber(x).value.Re() <= 1.0
    ensures !IsProbability(PyInt(0)) && !IsProbability(PyInt(1)) && !IsProbability(PyBool(true))
    ensures !IsProbability(PyFraction(0.5)) && IsProbability(PyFloat(0.5))
  {
  }

  // ---- the numeric tower's operators on cleaned numbers ----
  // int op int stays int (except true division), a complex operand makes the
  // result complex, everything else is a float.

  /** Python's `==` between numbers compares values, not kinds. */
  predicate NumEq(x: Num, y: Num) {
    x.Re() == y.Re() && x.Im() == y.Im()
  }

  predicate IsZero(x: Num) {
    x.Re() == 0.0 && x.Im() == 0.0
  }

  function NumNeg(x: Num): (r: Num)
    ensures r.Re() == -x.Re() && r.Im() == -x.Im()
    ensures r.Int? == x.Int? && r.Complex? == x.Complex?
  {
    match x
    case Int(i) => Int(-i)
    case Float(r) => Float(-r)
    case Complex(re, im) => Complex(-re, -im)
  }

  function NumAdd(x: Num, y: Num): (r: Num)
    ensures r.Re() == x.Re() + y.Re() && r.Im() == x.Im() + y.Im()
    ensures r.Int? <==> x.Int? && y.Int?
    ensures r.Complex? <==> x.Complex? || y.Complex?
  {
    if x.Int? && y.Int? then Int(x.i + y.i)
    else if x.Complex? || y.Complex? then Complex(x.Re() + y.Re(), x.Im() + y.Im())
    else Float(x.Re() + y.Re())
  }

  function NumSub(x: Num, y: Num): (r: Num)
    ensures r.Re() == x.Re() - y.Re() && r.Im() == x.Im() - y.Im()
    ensures r.Int? <==> x.Int? && y.Int?
    ensures r.Complex? <==> x.Complex? || y.Complex?
  {
    if x.Int? && y.Int? then Int(x.i - y.i)
    else if x.Complex? || y.Complex? then Complex(x.Re() - y.Re(), x.Im() - y.Im())
    else Float(x.Re() - y.Re())
  }

  function NumMul(x: Num, y: Num): (r: Num)
    ensures r.Re() == x.Re() * y.Re() - x.Im() * y.Im()
    ensures r.Im() == x.Re() * y.Im() + x.Im() * y.Re()
    ensures r.Int? <==> x.Int? && y.Int?
    ensures r.Complex? <==> x.Complex? || y.Complex?
  {
    if x.Int? && y.Int? then
      assert (x.i * y.i) as real == (x.i as real) * (y.i as real);
      Int(x.i * y.i)
    else if x.Complex? || y.Complex? then
      Complex(x.Re() * y.Re() - x.Im() * y.Im(), x.Re() * y.Im() + x.Im() * y.Re())
    else Float(x.Re() * y.Re())
  }

  /** True division; dividing by zero raises ZeroDivisionError. For real
      operands the quotient times the divisor is the dividend. */
  function NumDiv(x: Num, y: Num): (r: Result<Num>)
    ensures r.Err? <==> IsZero(y)
    ensures r.Err? ==> r.error == ZeroDivisionError
    ensures r.Ok? && !x.Complex? && !y.Complex? ==> r.value.Re() * y.Re() == x.Re() && r.value.Im() == 0.0
    ensures r.Ok? ==> !r.value.Int? && (r.value.Complex? <==> x.Complex? || y.Complex?)
  {
    if IsZero(y) then Err(ZeroDivisionError)
    else if x.Complex? || y.Complex? then Ok(ComplexQuotient(x, y))
    else Ok(Float(x.Re() / y.Re()))
  }

  /** The textbook complex quotient `x * conj(y) / |y|^2`. */
  function ComplexQuotient(x: Num, y: Num): Num {
    var d := y.Re() * y.Re() + y.Im() * y.Im();
    Complex(Over(x.Re() * y.Re() + x.Im() * y.Im(), d), Over(x.Im() * y.Re() - x.Re() * y.Im(), d))
  }

  /** Division by `|y|^2`, which is positive whenever `y` is not zero; the
      guard only keeps the expression total. */
  function Over(n: real, d: real): real {
    if d > 0.0 then n / d else 0.0
  }

  /** `x / 2` */
  function NumHalf(x: Num): (r: Num)
    ensures r.Re() == x.Re() / 2.0 && r.Im() == x.Im() / 2.0
    ensures !r.Int? && r.Complex? == x.Complex?
  {
    if x.Complex? then Complex(x.re / 2.0, x.im / 2.0) else Float(x.Re() / 2.0)
  }
}
