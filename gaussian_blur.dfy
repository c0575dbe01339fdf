/**
 * The argument handling of the GaussianBlur augmentation layer: how
 * `kernel_size` and `sigma` are normalised and validated when the layer is
 * built, the integer offsets each 1-D Gaussian kernel is evaluated at, the
 * number of taps of the vertical and horizontal kernels, and the
 * configuration the layer reports back.
 */
module GaussianBlur {
  import opened Results

  /** A Python scalar, as far as the constructor can tell them apart. */
  datatype Scalar =
    | PyInt(i: int)
    | PyBool(b: bool)
    | PyFloat(f: real)
    | PyStr(s: string)
    | PyNone

  datatype SeqKind = Tuple | List

  /** A constructor argument: a scalar, or a tuple or list of scalars. */
  datatype Value =
    | Scalar(scalar: Scalar)
    | Sequence(kind: SeqKind, items: seq<Scalar>)

  /** The exact class of a scalar, what `type(v)` returns. */
  datatype Class = IntClass | BoolClass | FloatClass | StrClass | NoneClass

  datatype Reason =
    | KernelSizeType     // `kernel_size` is neither a tuple, a list nor an int
    | SigmaTypeMismatch  // the bounds of `sigma` have different types
    | SigmaOrder         // the upper bound of `sigma` is below the lower bound
    | SigmaNegative      // a float `sigma` with a negative lower bound

  /** What a Python raise produces. */
  datatype Error =
    | ValueError(reason: Reason)
    | IndexError                 // element 0 or 1 of a shorter tuple or list
    | TypeError                  // an operation the operand types do not support
    | AttributeError(name: string)
    | InvalidArgument            // a reshape to a shape with the wrong number of elements

  function ClassOf(v: Scalar): Class {
    match v
    case PyInt(_) => IntClass
    case PyBool(_) => BoolClass
    case PyFloat(_) => FloatClass
    case PyStr(_) => StrClass
    case PyNone => NoneClass
  }

  /** isinstance(a, type(b)): a's class is b's class or a subclass of it (bool is a subclass of int). */
  predicate IsInstanceOfTypeOf(a: Scalar, b: Scalar) {
    ClassOf(a) == ClassOf(b) || (ClassOf(a) == BoolClass && ClassOf(b) == IntClass)
  }

  /** isinstance(v, int), which holds for bools too. */
  predicate IsIntLike(v: Scalar) {
    v.PyInt? || v.PyBool?
  }

  predicate IsNumber(v: Scalar) {
    v.PyInt? || v.PyBool? || v.PyFloat?
  }

  /** The numeric value of an int, bool or float (True is 1, False is 0). */
  function NumberValue(v: Scalar): real
    requires IsNumber(v)
  {
    match v
    case PyInt(i) => i as real
    case PyBool(b) => if b then 1.0 else 0.0
    case PyFloat(f) => f
  }

  function IntValue(v: Scalar): int
    requires IsIntLike(v)
  {
    match v
    case PyInt(i) => i
    case PyBool(b) => if b then 1 else 0
  }

  /** String order: lexicographic by code point, a proper prefix first. */
  predicate StrLess(a: string, b: string) {
    if a == [] then b != []
    else if b == [] then false
    else if a[0] != b[0] then a[0] < b[0]
    else StrLess(a[1..], b[1..])
  }

  /** Python's `a < b` on scalars. */
  function Less(a: Scalar, b: Scalar): (r: Result<bool, Error>)
    ensures IsNumber(a) && IsNumber(b) ==> r == Ok(NumberValue(a) < NumberValue(b))
    ensures a.PyNone? || b.PyNone? ==> r == Err(TypeError)
  {
    if IsNumber(a) && IsNumber(b) then Ok(NumberValue(a) < NumberValue(b))
    else if a.PyStr? && b.PyStr? then Ok(StrLess(a.s, b.s))
    else Err(TypeError)
  }

  /** Python's `a >= b` on scalars. */
  function GreaterEq(a: Scalar, b: Scalar): (r: Result<bool, Error>)
    ensures IsNumber(a) && IsNumber(b) ==> r == Ok(NumberValue(a) >= NumberValue(b))
    ensures a.PyNone? || b.PyNone? ==> r == Err(TypeError)
  {
    if IsNumber(a) && IsNumber(b) then Ok(NumberValue(a) >= NumberValue(b))
    else if a.PyStr? && b.PyStr? then Ok(!StrLess(a.s, b.s))
    else Err(TypeError)
  }

  /** type(v)(0): the zero of v's class; NoneType takes no argument. */
  function ZeroOfType(v: Scalar): (r: Result<Scalar, Error>)
    ensures r.Ok? <==> !v.PyNone?
    ensures r.Ok? ==> ClassOf(r.value) == ClassOf(v)
    ensures r.Ok? && IsNumber(v) ==> NumberValue(r.value) == 0.0
  {
    match v
    case PyInt(_) => Ok(PyInt(0))
    case PyBool(_) => Ok(PyBool(false))
    case PyFloat(_) => Ok(PyFloat(0.0))
    case PyStr(_) => Ok(PyStr("0"))
    case PyNone => Err(TypeError)
  }

  /** The layer's fields after construction. */
  datatype Blur = Blur(
    kernelSize: Value,
    sigma: Value,
    x: Scalar,
    y: Scalar,
    sigmaMin: Scalar,
    sigmaMax: Scalar,
    sigmaIsFloat: bool)

  /** x and y from `kernel_size`: a tuple or list gives its first two elements, an int gives itself twice. */
  function KernelDims(kernelSize: Value): (r: Result<(Scalar, Scalar), Error>)
    ensures kernelSize.Sequence? ==> (r.Ok? <==> |kernelSize.items| >= 2)
    ensures kernelSize.Sequence? && r.Ok? ==> r.value == (kernelSize.items[0], kernelSize.items[1])
    ensures kernelSize.Scalar? ==> (r.Ok? <==> IsIntLike(kernelSize.scalar))
    ensures kernelSize.Scalar? && r.Ok? ==> r.value == (kernelSize.scalar, kernelSize.scalar)
    ensures r.Err? ==> r.error == (if kernelSize.Sequence? then IndexError else ValueError(KernelSizeType))
  {
    match kernelSize
    case Sequence(_, items) =>
      if |items| < 2 then Err(IndexError) else Ok((items[0], items[1]))
    case Scalar(k) =>
      if IsIntLike(k) then Ok((k, k)) else Err(ValueError(KernelSizeType))
  }

  /** The sampling interval from `sigma`: a tuple or list gives its first two elements, a scalar s gives [type(s)(0), s]. */
  function SigmaBounds(sigma: Value): (r: Result<(Scalar, Scalar), Error>)
    ensures sigma.Sequence? ==> (r.Ok? <==> |sigma.items| >= 2)
    ensures sigma.Sequence? && r.Ok? ==> r.value == (sigma.items[0], sigma.items[1])
    ensures sigma.Scalar? ==> (r.Ok? <==> !sigma.scalar.PyNone?)
    ensures sigma.Scalar? && r.Ok? ==> r.value.1 == sigma.scalar && ClassOf(r.value.0) == ClassOf(sigma.scalar)
    ensures sigma.Scalar? && r.Ok? && IsNumber(sigma.scalar) ==> NumberValue(r.value.0) == 0.0
    ensures r.Err? ==> r.error == (if sigma.Sequence? then IndexError else TypeError)
  {
    match sigma
    case Sequence(_, items) =>
      if |items| < 2 then Err(IndexError) else Ok((items[0], items[1]))
    case Scalar(s) =>
      var zero :- ZeroOfType(s);
      Ok((zero, s))
  }

  /**
   * GaussianBlur.__init__ as written: the type-mismatch branch formats its
   * message from attributes the layer does not have, so what it raises is
   * an AttributeError for `width_lower`.
   */
  function Init(kernelSize: Value, sigma: Value): (r: Result<Blur, Error>)
    ensures kernelSize.Scalar? && !IsIntLike(kernelSize.scalar) ==> r == Err(ValueError(KernelSizeType))
    ensures kernelSize.Sequence? && |kernelSize.items| < 2 ==> r == Err(IndexError)
    ensures r.Ok? ==> r.value.kernelSize == kernelSize && r.value.sigma == sigma
    ensures r.Ok? && kernelSize.Scalar? ==> r.value.x == kernelSize.scalar && r.value.y == kernelSize.scalar
    ensures r.Ok? && kernelSize.Sequence? ==> r.value.x == kernelSize.items[0] && r.value.y == kernelSize.items[1]
    ensures r.Ok? && sigma.Scalar? ==> ZeroOfType(sigma.scalar) == Ok(r.value.sigmaMin) && r.value.sigmaMax == sigma.scalar
    ensures r.Ok? && sigma.Sequence? ==> |sigma.items| >= 2
    ensures r.Ok? && sigma.Sequence? ==> r.value.sigmaMin == sigma.items[0] && r.value.sigmaMax == sigma.items[1]
    ensures r.Ok? ==> IsInstanceOfTypeOf(r.value.sigmaMin, r.value.sigmaMax)
    ensures r.Ok? ==> Less(r.value.sigmaMax, r.value.sigmaMin) == Ok(false)
    ensures r.Ok? ==> r.value.sigmaIsFloat == (sigma.Scalar? && sigma.scalar.PyFloat?)
  {
    var (x, y) :- KernelDims(kernelSize);
    var (lo, hi) :- SigmaBounds(sigma);
    if !IsInstanceOfTypeOf(lo, hi) then
      Err(AttributeError("width_lower"))
    else
      var below :- Less(hi, lo);
      if below then Err(ValueError(SigmaOrder))
      else
        var isFloat := sigma.Scalar? && sigma.scalar.PyFloat?;
        if isFloat then
          match GreaterEq(lo, PyFloat(0.0))
          case Err(e) => Err(e)
          case Ok(nonNegative) =>
            if !nonNegative then Err(ValueError(SigmaNegative))
            else Ok(Blur(kernelSize, sigma, x, y, lo, hi, isFloat))
        else Ok(Blur(kernelSize, sigma, x, y, lo, hi, isFloat))
  }

  /** The constructor as its message intends: bounds of different types raise the documented ValueError. */
  function InitIntended(kernelSize: Value, sigma: Value): (r: Result<Blur, Error>)
    ensures r == (if Init(kernelSize, sigma).Err? && Init(kernelSize, sigma).error.AttributeError?
                  then Err(ValueError(SigmaTypeMismatch)) else Init(kernelSize, sigma))
  {
    var (x, y) :- KernelDims(kernelSize);
    var (lo, hi) :- SigmaBounds(sigma);
    if !IsInstanceOfTypeOf(lo, hi) then
      Err(ValueError(SigmaTypeMismatch))
    else
      var below :- Less(hi, lo);
      if below then Err(ValueError(SigmaOrder))
      else
        var isFloat := sigma.Scalar? && sigma.scalar.PyFloat?;
        if isFloat then
          match GreaterEq(lo, PyFloat(0.0))
          case Err(e) => Err(e)
          case Ok(nonNegative) =>
            if !nonNegative then Err(ValueError(SigmaNegative))
            else Ok(Blur(kernelSize, sigma, x, y, lo, hi, isFloat))
        else Ok(Blur(kernelSize, sigma, x, y, lo, hi, isFloat))
  }

  /** The layer's own entries of get_config. */
  datatype Config = Config(sigma: Value, kernelSize: Value)

  function GetConfig(b: Blur): (c: Config)
    ensures c.sigma == b.sigma && c.kernelSize == b.kernelSize
  {
    Config(b.sigma, b.kernelSize)
  }

  // ---------------------------------------------------------------------
  // Kernel geometry

  /** Python's floor division by a positive divisor. */
  function FloorDiv(a: int, b: int): (q: int)
    requires b > 0
    ensures b * q <= a < b * q + b
  {
    a / b
  }

  /** range(lo, hi). */
  function Range(lo: int, hi: int): (r: seq<int>)
    ensures |r| == if lo < hi then hi - lo else 0
    ensures forall i :: 0 <= i < |r| ==> r[i] == lo + i
  {
    if lo < hi then seq(hi - lo, i requires 0 <= i < hi - lo => lo + i) else []
  }

  /** The offsets get_kernel evaluates the Gaussian at: range(-n // 2 + 1, n // 2 + 1), unary minus first. */
  function KernelOffsets(n: int): (offsets: seq<int>)
    ensures forall i :: 0 <= i < |offsets| ==> -n < 2 * offsets[i] <= n
  {
    Range(FloorDiv(-n, 2) + 1, FloorDiv(n, 2) + 1)
  }

  /**
   * The offsets for a float kernel size f: range(-f // 2 + 1, f // 2 + 1) with
   * float floor division, whose values are whole numbers.
   */
  function FloatOffsets(f: real): (offsets: seq<int>)
    ensures forall i :: 0 <= i < |offsets| ==> -f < 2.0 * offsets[i] as real <= f
  {
    Range((-f / 2.0).Floor + 1, (f / 2.0).Floor + 1)
  }

  /** The float offsets are exactly the whole numbers z with -f < 2z <= f. */
  lemma FloatOffsetsExact(f: real, z: int)
    ensures z in FloatOffsets(f) <==> -f < 2.0 * z as real <= f
  {
    var lo, hi := (-f / 2.0).Floor + 1, (f / 2.0).Floor + 1;
    var offsets := FloatOffsets(f);
    if lo <= z < hi {
      assert offsets[z - lo] == z;
    }
  }

  /** The number of elements of the offsets a kernel size gives, or the error building them raises. */
  function KernelLength(size: Scalar): (r: Result<nat, Error>)
    ensures IsIntLike(size) ==> r == Ok(if IntValue(size) >= 0 then IntValue(size) else 0)
    ensures size.PyFloat? ==> r == Ok(|FloatOffsets(size.f)|)
    ensures size.PyStr? || size.PyNone? ==> r == Err(TypeError)
  {
    if IsIntLike(size) then OffsetsLength(IntValue(size)); Ok(|KernelOffsets(IntValue(size))|)
    else if size.PyFloat? then Ok(|FloatOffsets(size.f)|)  // a float range builds; the reshape below rejects it
    else Err(TypeError)
  }

  /** A float size with a whole value n gives as many offsets as the int n. */
  lemma WholeFloatLength(n: int)
    ensures KernelLength(PyFloat(n as real)) == KernelLength(PyInt(n))
  {
    var f := n as real;
    assert (f / 2.0).Floor == FloorDiv(n, 2);
    assert (-f / 2.0).Floor == FloorDiv(-n, 2);
    OffsetsLength(n);
  }

  /** Kernel size 3.0 gives the three offsets -1, 0, 1; so does 2.5. */
  lemma FloatLengthExamples()
    ensures KernelLength(PyFloat(3.0)) == Ok(3)
    ensures FloatOffsets(2.5) == [-1, 0, 1]
    ensures KernelLength(PyFloat(-1.0)) == Ok(0)
  {
    assert (3.0 / 2.0).Floor == 1 && (-3.0 / 2.0).Floor == -2;
    assert (2.5 / 2.0).Floor == 1 && (-2.5 / 2.0).Floor == -2;
    assert (-1.0 / 2.0).Floor == -1 && (1.0 / 2.0).Floor == 0;
  }

  /** tf.reshape of `count` elements to [dim, 1, 1, 1] (or [1, dim, 1, 1]): the leading dimension it yields. */
  function Reshape(count: nat, dim: Scalar): (r: Result<nat, Error>)
    ensures r.Ok? <==> IsIntLike(dim) && (IntValue(dim) == -1 || IntValue(dim) == count)
    ensures r.Ok? ==> r.value == count
    ensures !IsIntLike(dim) ==> r == Err(TypeError)
  {
    if !IsIntLike(dim) then Err(TypeError)
    else if IntValue(dim) == -1 then Ok(count)
    else if IntValue(dim) == count then Ok(count)
    else Err(InvalidArgument)
  }

  /**
   * get_random_transformation without the sampled sigma: the vertical kernel
   * is built for y, the horizontal one for x, then each is reshaped; the
   * result is the number of taps of each.
   */
  function Taps(b: Blur): (r: Result<(nat, nat), Error>)
    ensures r.Ok? ==> IsIntLike(b.y) && IsIntLike(b.x) && IntValue(b.y) >= -1 && IntValue(b.x) >= -1
    ensures r.Ok? ==> r.value == (if IntValue(b.y) >= 0 then IntValue(b.y) else 0,
                                  if IntValue(b.x) >= 0 then IntValue(b.x) else 0)
  {
    var vertical :- KernelLength(b.y);
    var horizontal :- KernelLength(b.x);
    var v :- Reshape(vertical, b.y);
    var h :- Reshape(horizontal, b.x);
    Ok((v, h))
  }

  // ---------------------------------------------------------------------
  // Lemmas: construction

  /** An int or float sigma s is accepted exactly when s >= 0; a negative one fails the ordering check. */
  lemma ScalarSigma(k: int, s: Scalar)
    requires s.PyInt? || s.PyFloat?
    ensures Init(Scalar(PyInt(k)), Scalar(s)).Ok? <==> NumberValue(s) >= 0.0
    ensures NumberValue(s) < 0.0 ==> Init(Scalar(PyInt(k)), Scalar(s)) == Err(ValueError(SigmaOrder))
    ensures NumberValue(s) >= 0.0 ==>
              Init(Scalar(PyInt(k)), Scalar(s)).value.sigmaMin == (if s.PyInt? then PyInt(0) else PyFloat(0.0))
  {
  }

  /** A pair of numeric bounds of the same type is accepted exactly when they are ordered. */
  lemma SigmaPair(k: Value, kind: SeqKind, lo: Scalar, hi: Scalar)
    requires KernelDims(k).Ok?
    requires IsNumber(lo) && ClassOf(lo) == ClassOf(hi)
    ensures Init(k, Sequence(kind, [lo, hi])).Ok? <==> NumberValue(lo) <= NumberValue(hi)
    ensures NumberValue(hi) < NumberValue(lo) ==> Init(k, Sequence(kind, [lo, hi])) == Err(ValueError(SigmaOrder))
  {
  }

  /**
   * Bounds of different types fail construction, but with an AttributeError
   * for `width_lower` rather than the ValueError the message describes.
   */
  lemma MismatchedBounds(k: Value, kind: SeqKind, items: seq<Scalar>)
    requires KernelDims(k).Ok?
    requires |items| >= 2 && !IsInstanceOfTypeOf(items[0], items[1])
    ensures Init(k, Sequence(kind, items)) == Err(AttributeError("width_lower"))
    ensures InitIntended(k, Sequence(kind, items)) == Err(ValueError(SigmaTypeMismatch))
  {
  }

  /** The concrete case: sigma=(1, 2.0) with kernel_size=3. */
  lemma MismatchedBoundsRaiseAttributeError()
    ensures Init(Scalar(PyInt(3)), Sequence(Tuple, [PyInt(1), PyFloat(2.0)])) == Err(AttributeError("width_lower"))
    ensures InitIntended(Scalar(PyInt(3)), Sequence(Tuple, [PyInt(1), PyFloat(2.0)])) == Err(ValueError(SigmaTypeMismatch))
  {
    MismatchedBounds(Scalar(PyInt(3)), Tuple, [PyInt(1), PyFloat(2.0)]);
  }

  /**
   * The "must be higher than 0" check never fires: it runs only for a scalar
   * float sigma, whose lower bound is always 0.0.
   */
  lemma NonNegativeCheckUnreachable(k: Value, s: Value)
    ensures Init(k, s) != Err(ValueError(SigmaNegative))
    ensures InitIntended(k, s) != Err(ValueError(SigmaNegative))
  {
    if KernelDims(k).Ok? && SigmaBounds(s).Ok? && s.Scalar? && s.scalar.PyFloat? {
      assert SigmaBounds(s).value.0 == PyFloat(0.0);
    }
  }

  /** Every error the corrected constructor raises is the one the written constructor raises, except the mismatch. */
  lemma IntendedAgrees(k: Value, s: Value)
    ensures Init(k, s).Ok? <==> InitIntended(k, s).Ok?
    ensures Init(k, s).Ok? ==> Init(k, s) == InitIntended(k, s)
    ensures Init(k, s).Err? && !Init(k, s).error.AttributeError? ==> InitIntended(k, s) == Init(k, s)
  {
  }

  /** A None sigma: type(None)(0) raises a TypeError. */
  lemma NoneSigmaRejected(k: Value)
    requires KernelDims(k).Ok?
    ensures Init(k, Scalar(PyNone)) == Err(TypeError)
  {
  }

  /** Nothing checks that sigma is a number: a string sigma is ordered against "0" and accepted. */
  lemma StringSigmaAccepted()
    ensures Init(Scalar(PyInt(3)), Scalar(PyStr("abc"))).Ok?
    ensures Init(Scalar(PyInt(3)), Scalar(PyStr("abc"))).value.sigmaMin == PyStr("0")
  {
    assert !StrLess("abc", "0");
  }

  /** The configurations the layer's tests build are accepted, with these fields. */
  lemma TestConfigurations()
    ensures Init(Sequence(Tuple, [PyInt(3), PyInt(7)]), Sequence(Tuple, [PyInt(0), PyInt(2)]))
            == Ok(Blur(Sequence(Tuple, [PyInt(3), PyInt(7)]), Sequence(Tuple, [PyInt(0), PyInt(2)]),
                       PyInt(3), PyInt(7), PyInt(0), PyInt(2), false))
    ensures Init(Scalar(PyInt(7)), Scalar(PyInt(2)))
            == Ok(Blur(Scalar(PyInt(7)), Scalar(PyInt(2)), PyInt(7), PyInt(7), PyInt(0), PyInt(2), false))
    ensures Init(Sequence(Tuple, [PyInt(7), PyInt(3)]), Scalar(PyInt(1)))
            == Ok(Blur(Sequence(Tuple, [PyInt(7), PyInt(3)]), Scalar(PyInt(1)),
                       PyInt(7), PyInt(3), PyInt(0), PyInt(1), false))
  {
  }

  /**
   * get_config hands back the original sigma and kernel_size, and building a
   * layer from them yields the same fields.
   */
  lemma ConfigRoundTrip(k: Value, s: Value)
    requires Init(k, s).Ok?
    ensures GetConfig(Init(k, s).value) == Config(s, k)
    ensures Init(GetConfig(Init(k, s).value).kernelSize, GetConfig(Init(k, s).value).sigma) == Init(k, s)
    ensures InitIntended(GetConfig(Init(k, s).value).kernelSize, GetConfig(Init(k, s).value).sigma) == Init(k, s)
  {
  }

  // ---------------------------------------------------------------------
  // Lemmas: kernel geometry

  /** For every size n >= 0 the offsets have exactly n elements, consecutive; a negative size gives none. */
  lemma OffsetsLength(n: int)
    ensures |KernelOffsets(n)| == if n >= 0 then n else 0
    ensures forall i :: 0 < i < |KernelOffsets(n)| ==> KernelOffsets(n)[i] == KernelOffsets(n)[i - 1] + 1
  {
    var lo, hi := FloorDiv(-n, 2) + 1, FloorDiv(n, 2) + 1;
    assert hi - lo == n;
  }

  /** An odd size n = 2k + 1 gives the symmetric offsets -k .. k. */
  lemma OffsetsOdd(n: int, k: nat)
    requires n == 2 * k + 1
    ensures |KernelOffsets(n)| == n
    ensures forall i :: 0 <= i < n ==> KernelOffsets(n)[i] == i - k
    ensures forall i :: 0 <= i < n ==> KernelOffsets(n)[i] == -KernelOffsets(n)[n - 1 - i]
  {
    OffsetsLength(n);
    assert FloorDiv(-n, 2) == -(k as int) - 1;
    assert FloorDiv(n, 2) == k;
  }

  /** An even size n = 2k gives -(k - 1) .. k: one more tap on the positive side. */
  lemma OffsetsEven(n: int, k: nat)
    requires n == 2 * k
    ensures |KernelOffsets(n)| == n
    ensures forall i :: 0 <= i < n ==> KernelOffsets(n)[i] == i - k + 1
  {
    OffsetsLength(n);
    assert FloorDiv(-n, 2) == -(k as int);
    assert FloorDiv(n, 2) == k;
  }

  /** With integer x, y >= 0 the vertical kernel has y taps and the horizontal kernel x taps. */
  lemma TapsMatchKernelSize(b: Blur)
    requires b.x.PyInt? && b.y.PyInt? && b.x.i >= 0 && b.y.i >= 0
    ensures Taps(b) == Ok((b.y.i, b.x.i))
  {
    OffsetsLength(b.y.i);
    OffsetsLength(b.x.i);
  }

  /** A size of -1 slips through: no offsets, and the reshape to [-1, 1, 1, 1] infers 0 taps. */
  lemma MinusOneGivesNoTaps(b: Blur)
    requires b.x == PyInt(3) && b.y == PyInt(-1)
    ensures Taps(b) == Ok((0, 3))
  {
    OffsetsLength(-1);
    OffsetsLength(3);
  }

  /** Other negative integer sizes fail the reshape. */
  lemma NegativeSizeRejected(b: Blur)
    requires IsIntLike(b.x) && b.y.PyInt? && b.y.i < -1
    ensures Taps(b) == Err(InvalidArgument)
  {
    OffsetsLength(b.y.i);
  }

  /** The test configuration kernel_size=(3, 7) gives 7 vertical and 3 horizontal taps. */
  lemma TestConfigurationTaps()
    ensures Init(Sequence(Tuple, [PyInt(3), PyInt(7)]), Sequence(Tuple, [PyInt(0), PyInt(2)])).Ok?
    ensures Taps(Init(Sequence(Tuple, [PyInt(3), PyInt(7)]), Sequence(Tuple, [PyInt(0), PyInt(2)])).value) == Ok((7, 3))
  {
    TestConfigurations();
    TapsMatchKernelSize(Init(Sequence(Tuple, [PyInt(3), PyInt(7)]), Sequence(Tuple, [PyInt(0), PyInt(2)])).value);
  }
}
