/** The four primitive operations of src/math_lib.py. Python's int/float
    operands are modelled as mathematical reals (no rounding). */
module MathLib {
  import opened Results

  /** Addition; subtracting either operand gives back the other. */
  function Add(a: real, b: real): (r: real)
    ensures r - b == a && r - a == b
  {
    a + b
  }

  /** Subtraction; adding the subtrahend back undoes it. */
  function Sub(a: real, b: real): (r: real)
    ensures Add(r, b) == a
  {
    a - b
  }

  /** Multiplication; the sign of the product follows the signs of the operands. */
  function Mul(a: real, b: real): (r: real)
    ensures r == 0.0 <==> a == 0.0 || b == 0.0
    ensures r > 0.0 <==> (a > 0.0 && b > 0.0) || (a < 0.0 && b < 0.0)
    ensures r < 0.0 <==> (a > 0.0 && b < 0.0) || (a < 0.0 && b > 0.0)
  {
    a * b
  }

  const DivideByZeroMessage := "Cannot divide by 0."

  /** Division: fails exactly when the divisor is zero; otherwise multiplying
      the quotient by the divisor gives back the dividend. */
  function Div(a: real, b: real): (r: Result<real>)
    ensures r.Failure? <==> b == 0.0
    ensures r.Failure? ==> r.error == ZeroDivisionError(DivideByZeroMessage)
    ensures r.Success? ==> Mul(r.value, b) == a
  {
    if b == 0.0 then Failure(ZeroDivisionError(DivideByZeroMessage)) else Success(a / b)
  }

  /** Addition is commutative. */
  lemma AddCommutes(a: real, b: real)
    ensures Add(a, b) == Add(b, a)
  {
  }

  /** Subtracting then adding the same amount is the identity, and so is
      adding then subtracting it. */
  lemma SubAddInverse(a: real, b: real)
    ensures Add(Sub(a, b), b) == a
    ensures Sub(Add(a, b), b) == a
  {
  }

  /** Dividing by a non-zero divisor and multiplying back is the identity. */
  lemma DivMulInverse(a: real, b: real)
    requires b != 0.0
    ensures Div(a, b).Success? && Mul(Div(a, b).value, b) == a
  {
  }
}
