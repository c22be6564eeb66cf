/**
 * The argument checks of the math utility module and its integer-valued
 * operations. Operations whose value is a floating-point number keep only
 * their guards: they return `Success(())` where the source returns a value.
 */
module MathUtils {
  import opened Wrappers
  import opened JsValues

  /** One constructor per distinct `throw new Error(...)` message. */
  datatype MathError =
    | BothParametersMustBeNumbers      // 'Both parameters must be numbers'
    | ParameterMustBeNumber            // 'Parameter must be a number'
    | DivisionByZero                   // 'Division by zero is not allowed'
    | NegativeSquareRoot               // 'Cannot calculate square root of negative number'
    | NonEmptyArrayRequired            // 'Parameter must be a non-empty array'
    | ElementsMustBeNumbers            // 'All array elements must be numbers'
    | NegativeDecimalPlaces            // 'Decimal places cannot be negative'
    | MinGreaterThanMax                // 'Minimum value cannot be greater than maximum value'
    | ParameterMustBeInteger           // 'Parameter must be an integer'
    | ParameterMustBeNonNegativeInteger  // 'Parameter must be a non-negative integer'

  /** The shared first guard of every two-argument function. */
  predicate BothNumbers(a: JsVal, b: JsVal) {
    a.Num? && b.Num?
  }

  function Add(a: JsVal, b: JsVal): (r: Result<real, MathError>)
    ensures r.Success? <==> BothNumbers(a, b)
    ensures r.Failure? ==> r.error == BothParametersMustBeNumbers
    ensures r.Success? ==> r.value - b.n == a.n
  {
    if !BothNumbers(a, b) then Failure(BothParametersMustBeNumbers) else Success(a.n + b.n)
  }

  function Multiply(a: JsVal, b: JsVal): (r: Result<real, MathError>)
    ensures r.Success? <==> BothNumbers(a, b)
    ensures r.Failure? ==> r.error == BothParametersMustBeNumbers
    ensures r.Success? && b.n != 0.0 ==> r.value / b.n == a.n
    ensures r.Success? && b.n == 0.0 ==> r.value == 0.0
  {
    if !BothNumbers(a, b) then Failure(BothParametersMustBeNumbers) else Success(a.n * b.n)
  }

  function Subtract(a: JsVal, b: JsVal): (r: Result<real, MathError>)
    ensures r.Success? <==> BothNumbers(a, b)
    ensures r.Failure? ==> r.error == BothParametersMustBeNumbers
    ensures r.Success? ==> r.value + b.n == a.n
  {
    if !BothNumbers(a, b) then Failure(BothParametersMustBeNumbers) else Success(a.n - b.n)
  }

  /** Subtracting what was added gives back the first argument. */
  lemma SubtractUndoesAdd(a: real, b: real)
    ensures Add(Num(a), Num(b)).Success?
    ensures Subtract(Num(Add(Num(a), Num(b)).value), Num(b)) == Success(a)
  {
  }

  lemma MultiplyCommutes(a: JsVal, b: JsVal)
    ensures Multiply(a, b) == Multiply(b, a)
  {
  }

  /** The two values the page's math demonstration displays. */
  lemma DemoValues()
    ensures Add(Num(15.0), Num(25.0)) == Success(40.0)
    ensures Multiply(Num(8.0), Num(7.0)) == Success(56.0)
  {
  }

  /** `divide`: the quotient is not modelled, only when it throws. */
  function Divide(a: JsVal, b: JsVal): (r: Result<(), MathError>)
    ensures !BothNumbers(a, b) ==> r == Failure(BothParametersMustBeNumbers)
    ensures BothNumbers(a, b) ==> (r.Failure? <==> b.n == 0.0)
    ensures r.Failure? ==> r.error in {BothParametersMustBeNumbers, DivisionByZero}
    ensures BothNumbers(a, b) && b.n == 0.0 ==> r.error == DivisionByZero
  {
    if !BothNumbers(a, b) then Failure(BothParametersMustBeNumbers)
    else if b.n == 0.0 then Failure(DivisionByZero)
    else Success(())
  }

  /** `power`: only the type guard; `Math.pow` is not modelled. */
  function Power(base: JsVal, exponent: JsVal): (r: Result<(), MathError>)
    ensures r.Failure? <==> !BothNumbers(base, exponent)
    ensures r.Failure? ==> r.error == BothParametersMustBeNumbers
  {
    if !BothNumbers(base, exponent) then Failure(BothParametersMustBeNumbers) else Success(())
  }

  /** `sqrt`: one-argument type guard, then the sign guard. */
  function Sqrt(x: JsVal): (r: Result<(), MathError>)
    ensures !x.Num? ==> r == Failure(ParameterMustBeNumber)
    ensures x.Num? ==> (r.Failure? <==> x.n < 0.0)
    ensures x.Num? && x.n < 0.0 ==> r.error == NegativeSquareRoot
  {
    if !x.Num? then Failure(ParameterMustBeNumber)
    else if x.n < 0.0 then Failure(NegativeSquareRoot)
    else Success(())
  }

  /** `round(num, decimals = 0)`: an absent `decimals` takes the default 0. */
  function Round(num: JsVal, decimals: JsVal): (r: Result<(), MathError>)
    ensures var d := if decimals.Undefined? then Num(0.0) else decimals;
      && (!BothNumbers(num, d) ==> r == Failure(BothParametersMustBeNumbers))
      && (BothNumbers(num, d) ==> (r.Failure? <==> d.n < 0.0))
      && (BothNumbers(num, d) && d.n < 0.0 ==> r.error == NegativeDecimalPlaces)
  {
    var d := if decimals.Undefined? then Num(0.0) else decimals;
    if !BothNumbers(num, d) then Failure(BothParametersMustBeNumbers)
    else if d.n < 0.0 then Failure(NegativeDecimalPlaces)
    else Success(())
  }

  /** `randomBetween`: the random value is not modelled, only the guards. */
  function RandomBetween(min: JsVal, max: JsVal): (r: Result<(), MathError>)
    ensures !BothNumbers(min, max) ==> r == Failure(BothParametersMustBeNumbers)
    ensures BothNumbers(min, max) ==> (r.Failure? <==> min.n > max.n)
    ensures BothNumbers(min, max) && min.n > max.n ==> r.error == MinGreaterThanMax
  {
    if !BothNumbers(min, max) then Failure(BothParametersMustBeNumbers)
    else if min.n > max.n then Failure(MinGreaterThanMax)
    else Success(())
  }

  /** A type error on either argument wins over every domain check. */
  lemma TypeGuardFirst(a: JsVal, b: JsVal)
    requires !BothNumbers(a, b)
    ensures Add(a, b) == Failure(BothParametersMustBeNumbers)
    ensures Subtract(a, b) == Failure(BothParametersMustBeNumbers)
    ensures Multiply(a, b) == Failure(BothParametersMustBeNumbers)
    ensures Divide(a, b) == Failure(BothParametersMustBeNumbers)
    ensures Power(a, b) == Failure(BothParametersMustBeNumbers)
    ensures RandomBetween(a, b) == Failure(BothParametersMustBeNumbers)
    ensures !b.Undefined? ==> Round(a, b) == Failure(BothParametersMustBeNumbers)
  {
  }

  /** `numbers.every(n => typeof n === 'number')`. */
  predicate AllNumbers(xs: seq<JsVal>) {
    forall i :: 0 <= i < |xs| ==> xs[i].Num?
  }

  /** The two guards shared by `max`, `min` and `average`, in their order. */
  function ArrayGuard(v: JsVal): (r: Result<seq<real>, MathError>)
    ensures !v.Arr? || v.elems == [] ==> r == Failure(NonEmptyArrayRequired)
    ensures v.Arr? && v.elems != [] ==> (r.Failure? <==> !AllNumbers(v.elems))
    ensures r.Failure? ==> r.error in {NonEmptyArrayRequired, ElementsMustBeNumbers}
    ensures v.Arr? && v.elems != [] && !AllNumbers(v.elems) ==> r == Failure(ElementsMustBeNumbers)
    ensures r.Success? ==> (v.Arr? && |r.value| == |v.elems| > 0
                            && forall i :: 0 <= i < |v.elems| ==> v.elems[i] == Num(r.value[i]))
  {
    if !v.Arr? || v.elems == [] then Failure(NonEmptyArrayRequired)
    else if !AllNumbers(v.elems) then Failure(ElementsMustBeNumbers)
    else Success(seq(|v.elems|, i requires 0 <= i < |v.elems| => v.elems[i].n))
  }

  /** `Math.max(...xs)`: an element that no element exceeds. */
  function MaxOf(xs: seq<real>): (m: real)
    requires xs != []
    ensures m in xs && forall i :: 0 <= i < |xs| ==> xs[i] <= m
  {
    if |xs| == 1 then xs[0]
    else
      var rest := MaxOf(xs[1..]);
      if xs[0] >= rest then xs[0] else rest
  }

  /** `Math.min(...xs)`: an element that exceeds no element. */
  function MinOf(xs: seq<real>): (m: real)
    requires xs != []
    ensures m in xs && forall i :: 0 <= i < |xs| ==> m <= xs[i]
  {
    if |xs| == 1 then xs[0]
    else
      var rest := MinOf(xs[1..]);
      if xs[0] <= rest then xs[0] else rest
  }

  function Max(numbers: JsVal): (r: Result<real, MathError>)
    ensures r.Failure? <==> ArrayGuard(numbers).Failure?
    ensures r.Failure? ==> r.error == ArrayGuard(numbers).error
    ensures r.Success? ==> (Num(r.value) in numbers.elems
                            && forall i :: 0 <= i < |numbers.elems| ==> numbers.elems[i].n <= r.value)
  {
    match ArrayGuard(numbers)
    case Failure(e) => Failure(e)
    case Success(xs) => Success(MaxOf(xs))
  }

  function Min(numbers: JsVal): (r: Result<real, MathError>)
    ensures r.Failure? <==> ArrayGuard(numbers).Failure?
    ensures r.Failure? ==> r.error == ArrayGuard(numbers).error
    ensures r.Success? ==> (Num(r.value) in numbers.elems
                            && forall i :: 0 <= i < |numbers.elems| ==> r.value <= numbers.elems[i].n)
  {
    match ArrayGuard(numbers)
    case Failure(e) => Failure(e)
    case Success(xs) => Success(MinOf(xs))
  }

  /** `average`: the guards only; the mean is a floating-point value. */
  function Average(numbers: JsVal): (r: Result<(), MathError>)
    ensures r.Failure? <==> ArrayGuard(numbers).Failure?
    ensures r.Failure? ==> r.error == ArrayGuard(numbers).error
  {
    match ArrayGuard(numbers)
    case Failure(e) => Failure(e)
    case Success(_) => Success(())
  }

  /** The emptiness check comes first: an empty array is never reported as having a non-number. */
  lemma EmptyBeforeElementCheck(v: JsVal)
    requires !v.Arr? || v.elems == []
    ensures Max(v) == Failure(NonEmptyArrayRequired)
    ensures Min(v) == Failure(NonEmptyArrayRequired)
    ensures Average(v) == Failure(NonEmptyArrayRequired)
  {
  }

  /** A non-empty array holding a non-number reports the element error in `max`, `min` and `average`. */
  lemma ElementCheckAfterEmpty(v: JsVal, k: nat)
    requires v.Arr? && k < |v.elems| && !v.elems[k].Num?
    ensures Max(v) == Failure(ElementsMustBeNumbers)
    ensures Min(v) == Failure(ElementsMustBeNumbers)
    ensures Average(v) == Failure(ElementsMustBeNumbers)
  {
  }

  /** `typeof num === 'number' && Number.isInteger(num)`. */
  predicate IsIntegerNumber(v: JsVal) {
    v.Num? && IsInteger(v.n)
  }

  /**
   * `num % 2 === 0`. JavaScript's `%` truncates toward zero, Dafny's is Euclidean;
   * the two remainders differ only in sign, so they agree on being zero.
   */
  function IsEven(num: JsVal): (r: Result<bool, MathError>)
    ensures r.Failure? <==> !IsIntegerNumber(num)
    ensures r.Failure? ==> r.error == ParameterMustBeInteger
    ensures r.Success? ==> (r.value <==> exists k: int :: num.n.Floor == 2 * k)
  {
    if !IsIntegerNumber(num) then Failure(ParameterMustBeInteger)
    else
      var n := num.n.Floor;
      assert n % 2 == 0 ==> n == 2 * (n / 2);
      Success(n % 2 == 0)
  }

  /** `num % 2 !== 0`. */
  function IsOdd(num: JsVal): (r: Result<bool, MathError>)
    ensures r.Failure? <==> !IsIntegerNumber(num)
    ensures r.Failure? ==> r.error == ParameterMustBeInteger
  {
    if !IsIntegerNumber(num) then Failure(ParameterMustBeInteger)
    else Success(num.n.Floor % 2 != 0)
  }

  /** Every integer is exactly one of even and odd; both reject the same inputs. */
  lemma OddIsNotEven(num: JsVal)
    ensures IsOdd(num).Failure? <==> IsEven(num).Failure?
    ensures IsOdd(num).Success? ==> IsOdd(num).value == !IsEven(num).value
  {
  }

  /** The product 1 * 2 * ... * n. */
  function Fact(n: nat): nat {
    if n == 0 then 1 else n * Fact(n - 1)
  }

  lemma {:induction false} FactPositive(n: nat)
    ensures Fact(n) >= 1
  {
    if n > 0 {
      FactPositive(n - 1);
    }
  }

  /** `factorial`: rejects anything but a non-negative integer, then multiplies 2..n in a loop. */
  method Factorial(x: JsVal) returns (r: Result<int, MathError>)
    ensures r.Failure? <==> !(IsIntegerNumber(x) && x.n >= 0.0)
    ensures r.Failure? ==> r.error == ParameterMustBeNonNegativeInteger
    ensures r.Success? ==> x.n.Floor >= 0 && r.value == Fact(x.n.Floor) && r.value >= 1
  {
    if !IsIntegerNumber(x) || x.n < 0.0 {
      return Failure(ParameterMustBeNonNegativeInteger);
    }
    var n: nat := x.n.Floor;
    FactPositive(n);
    if n == 0 || n == 1 {
      return Success(1);
    }
    var result := 1;
    for i := 2 to n + 1
      invariant result == Fact(i - 1)
    {
      result := result * i;
    }
    return Success(result);
  }
}
