/** The extended operations of src/extended_math_lib.py: factorial, power
    with an integer-valued exponent, and the guard clauses of the square root
    together with one step of its Newton iteration. Numbers are reals. */
module ExtendedMathLib {
  import opened Results

  const FactorialNegativeMessage := "Factorial is not defined for negative numbers"
  const SqrtNegativeMessage := "Cannot compute square root of negative number"
  /** Python's own wording for `1 / 0`; it differs slightly between int and float operands. */
  const ReciprocalOfZeroMessage := "division by zero"

  /** The product 1 * 2 * ... * n; it is at least 1 and at least n. */
  function Fact(n: nat): (r: nat)
    ensures r >= 1 && r >= n
  {
    if n == 0 then 1 else n * Fact(n - 1)
  }

  /** factorial(n): refuses negative n, otherwise multiplies 1..n into an
      accumulator that starts at 1. */
  method Factorial(n: int) returns (r: Result<int>)
    ensures r.Failure? <==> n < 0
    ensures r.Failure? ==> r.error == ValueError(FactorialNegativeMessage)
    ensures r.Success? ==> r.value == Fact(n) && r.value >= 1
  {
    if n < 0 {
      return Failure(ValueError(FactorialNegativeMessage));
    }
    var result := 1;
    for i := 1 to n + 1
      invariant result == Fact(i - 1)
    {
      result := result * i;
    }
    return Success(result);
  }

  /** The factorial values the unit tests pin down. */
  lemma FactorialSmallValues()
    ensures Fact(0) == 1 && Fact(1) == 1 && Fact(5) == 120
  {
  }

  /** `b` multiplied by itself `n` times (1 when n is 0). */
  function Pow(b: real, n: nat): real
  {
    if n == 0 then 1.0 else Pow(b, n - 1) * b
  }

  /** A power is zero exactly when the base is zero and at least one factor is taken. */
  lemma {:induction false} PowIsZero(b: real, n: nat)
    ensures Pow(b, n) == 0.0 <==> b == 0.0 && n > 0
  {
    if n > 0 {
      PowIsZero(b, n - 1);
    }
  }

  /** Negating the base negates an odd power and leaves an even power unchanged. */
  lemma {:induction false} PowNegatedBase(b: real, k: nat)
    ensures Pow(-b, k) == if k % 2 == 1 then -Pow(b, k) else Pow(b, k)
  {
    if k > 0 {
      PowNegatedBase(b, k - 1);
    }
  }

  predicate IsIntegral(x: real)
  {
    x == x.Floor as real
  }

  const FractionalPowerNote := "base ** exponent with a fractional exponent"

  /** power(base, exponent): 1 for exponent 0 whatever the base; for an
      exponent with an integer value the base is multiplied |exponent|
      times and a negative exponent takes the reciprocal, which divides by
      zero when the base is 0. The library power used for a fractional
      exponent is not modelled. */
  method Power(base: real, exponent: real) returns (r: Result<real>)
    ensures exponent == 0.0 ==> r == Success(1.0)
    ensures IsIntegral(exponent) && exponent >= 0.0 ==> r == Success(Pow(base, exponent.Floor))
    ensures IsIntegral(exponent) && exponent < 0.0 ==> (r.Failure? <==> base == 0.0)
    ensures IsIntegral(exponent) && exponent < 0.0 && r.Failure? ==>
      r.error == ZeroDivisionError(ReciprocalOfZeroMessage)
    ensures IsIntegral(exponent) && exponent < 0.0 && r.Success? ==>
      r.value * Pow(base, -exponent.Floor) == 1.0
    ensures !IsIntegral(exponent) ==> r == Failure(OutsideModel(FractionalPowerNote))
  {
    if exponent == 0.0 {
      return Success(1.0);
    }
    if !IsIntegral(exponent) {
      return Failure(OutsideModel(FractionalPowerNote));
    }
    var e := exponent.Floor;
    var result := 1.0;
    var count := if e < 0 then -e else e;
    for i := 0 to count
      invariant result == Pow(base, i)
    {
      result := result * base;
    }
    if e < 0 {
      PowIsZero(base, count);
      if result == 0.0 {
        return Failure(ZeroDivisionError(ReciprocalOfZeroMessage));
      }
      return Success(1.0 / result);
    }
    return Success(result);
  }

  /** Where the square root stops before its Newton iteration: with the
      final root, or with the iteration's first guess. */
  datatype SqrtStart = Root(root: real) | Newton(guess: real)

  /** The guard clauses of sqrt(n): 0 gives 0 before any division, a
      negative input is refused, anything else starts Newton's iteration
      with guess n. */
  function SqrtGuards(n: real): (r: Result<SqrtStart>)
    ensures r.Failure? <==> n < 0.0
    ensures r.Failure? ==> r.error == ValueError(SqrtNegativeMessage)
    ensures r.Success? && r.value.Root? ==> r.value.root * r.value.root == n
    ensures r.Success? && r.value.Newton? ==> r.value.guess > 0.0 && n > 0.0
  {
    if n == 0.0 then Success(Root(0.0))
    else if n < 0.0 then Failure(ValueError(SqrtNegativeMessage))
    else Success(Newton(n))
  }

  /** One step of the Babylonian iteration: the mean of the guess and n / guess. */
  function NewtonStep(n: real, guess: real): real
    requires guess != 0.0
  {
    (guess + n / guess) / 2.0
  }

  lemma SquareNonNegative(x: real)
    ensures x * x >= 0.0
  {
    if x < 0.0 {
      assert x * x == (-x) * (-x);
    }
  }

  /** From any positive guess, a step lands at or above the root (its square
      is at least n), and from a guess at or above the root it does not go
      up: after the first step the guesses fall towards the root. */
  lemma NewtonStepBounds(n: real, guess: real)
    requires n > 0.0 && guess > 0.0
    ensures NewtonStep(n, guess) > 0.0
    ensures NewtonStep(n, guess) * NewtonStep(n, guess) >= n
    ensures guess * guess >= n ==> NewtonStep(n, guess) <= guess
  {
    var q := n / guess;
    var s := NewtonStep(n, guess);
    assert q * guess == n;
    assert s == (guess + q) / 2.0;
    // (g + q)^2 / 4 - g * q == (g - q)^2 / 4 >= 0
    assert s * s - guess * q == (guess - q) * (guess - q) / 4.0;
    SquareNonNegative(guess - q);
    assert s * s >= guess * q;
    if guess * guess >= n {
      assert guess * guess >= guess * q;
      assert guess * (guess - q) >= 0.0;
      assert guess >= q;
    }
  }
}
