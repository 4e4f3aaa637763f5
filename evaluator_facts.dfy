/** What custom_eval computes on representative token sequences, with the
    operands left symbolic: precedence, parentheses, associativity, the
    unary minus, and each error the evaluation can raise. */
module EvaluatorFacts {
  import opened Results
  import opened Lexer
  import opened Evaluator
  import MathLib
  import ExtendedMathLib

  /** Records that one iteration of the token loop leads from `ls` to `next`. */
  lemma StepTo(ls: LoopState, t: Token, next: LoopState)
    requires Step(ls, t).Success?
    requires Step(ls, t).value.stacks.values == next.stacks.values
    requires Step(ls, t).value.stacks.operators == next.stacks.operators
    requires Step(ls, t).value.previousIsOperatorChar == next.previousIsOperatorChar
    ensures Step(ls, t) == Success(next)
  {
  }

  /** The token loop over `[t] + rest` is one step followed by the loop over `rest`. */
  lemma RunCons(ls: LoopState, t: Token, rest: seq<Token>, next: LoopState)
    requires Step(ls, t) == Success(next)
    ensures RunFrom(ls, [t] + rest) == RunFrom(next, rest)
  {
    assert ([t] + rest)[1..] == rest;
  }

  /** The final loop over two operands and one binary operator. */
  lemma DrainPair(l: real, r: real, op: Op)
    requires op != UnaryMinus
    ensures Drain(Stacks([l, r], [op])) ==
      match BinaryResult(op, l, r)
      case Failure(e) => Failure(e)
      case Success(v) => Success(Stacks([v], []))
  {
    var st := Stacks([l, r], [op]);
    assert st.values[..0] == [];
    match BinaryResult(op, l, r)
    case Failure(e) =>
    case Success(v) =>
      assert Apply(st).value.values == [v];
  }

  /** The final loop over three operands and two binary operators: the upper
      operator is applied first. */
  lemma DrainTriple(x: real, l: real, r: real, lower: Op, upper: Op)
    requires lower != UnaryMinus && upper != UnaryMinus
    ensures Drain(Stacks([x, l, r], [lower, upper])) ==
      match BinaryResult(upper, l, r)
      case Failure(e) => Failure(e)
      case Success(v) => Drain(Stacks([x, v], [lower]))
  {
    var st := Stacks([x, l, r], [lower, upper]);
    assert st.values[..1] == [x];
    match BinaryResult(upper, l, r)
    case Failure(e) =>
    case Success(v) =>
      assert Apply(st).value.values == [x, v];
      assert Apply(st).value.operators == [lower];
  }

  /** The loop over `a + b`, shared by several of the examples below. */
  lemma StepsSum(a: real, b: real)
    ensures Step(Init, Num(a)) == Success(LoopState(Stacks([a], []), false))
    ensures Step(LoopState(Stacks([a], []), false), Plus) == Success(LoopState(Stacks([a], [OpAdd]), true))
    ensures Step(LoopState(Stacks([a], [OpAdd]), true), Num(b)) == Success(LoopState(Stacks([a, b], [OpAdd]), false))
  {
    StepTo(Init, Num(a), LoopState(Stacks([a], []), false));
    StepTo(LoopState(Stacks([a], []), false), Plus, LoopState(Stacks([a], [OpAdd]), true));
    StepTo(LoopState(Stacks([a], [OpAdd]), true), Num(b), LoopState(Stacks([a, b], [OpAdd]), false));
  }

  lemma RunSum(a: real, b: real, rest: seq<Token>)
    ensures RunFrom(Init, [Num(a), Plus, Num(b)] + rest) == RunFrom(LoopState(Stacks([a, b], [OpAdd]), false), rest)
  {
    StepsSum(a, b);
    RunCons(LoopState(Stacks([a], [OpAdd]), true), Num(b), rest, LoopState(Stacks([a, b], [OpAdd]), false));
    RunCons(LoopState(Stacks([a], []), false), Plus, [Num(b)] + rest, LoopState(Stacks([a], [OpAdd]), true));
    RunCons(Init, Num(a), [Plus] + ([Num(b)] + rest), LoopState(Stacks([a], []), false));
    assert [Num(a)] + ([Plus] + ([Num(b)] + rest)) == [Num(a), Plus, Num(b)] + rest;
  }

  lemma RunSumTimes(a: real, b: real, c: real)
    ensures RunFrom(Init, [Num(a), Plus, Num(b), Times, Num(c)]) ==
      Success(LoopState(Stacks([a, b, c], [OpAdd, OpMul]), false))
  {
    var s3 := LoopState(Stacks([a, b], [OpAdd]), false);
    var s4 := LoopState(Stacks([a, b], [OpAdd, OpMul]), true);
    var s5 := LoopState(Stacks([a, b, c], [OpAdd, OpMul]), false);
    RunSum(a, b, [Times, Num(c)]);
    assert [Num(a), Plus, Num(b)] + [Times, Num(c)] == [Num(a), Plus, Num(b), Times, Num(c)];
    StepTo(s3, Times, s4);
    StepTo(s4, Num(c), s5);
    RunCons(s4, Num(c), [], s5);
    RunCons(s3, Times, [Num(c)], s4);
  }

  /** `a + b × c`: the multiplication is applied first. */
  lemma MultiplicationBindsTighter(a: real, b: real, c: real)
    requires Abs(a + b * c) <= 1e300
    ensures EvalTokens([Num(a), Plus, Num(b), Times, Num(c)]) == Success(a + b * c)
  {
    RunSumTimes(a, b, c);
    DrainTriple(a, b, c, OpAdd, OpMul);
    DrainPair(a, b * c, OpAdd);
  }

  lemma RunSumMinus(a: real, b: real, c: real)
    ensures RunFrom(Init, [Num(a), Plus, Num(b), Minus, Num(c)]) ==
      Success(LoopState(Stacks([a, b, -c], [OpAdd]), false))
  {
    var s3 := LoopState(Stacks([a, b], [OpAdd]), false);
    var s4 := LoopState(Stacks([a, b], [OpAdd, UnaryMinus]), false);
    var s5 := LoopState(Stacks([a, b, -c], [OpAdd]), false);
    RunSum(a, b, [Minus, Num(c)]);
    assert [Num(a), Plus, Num(b)] + [Minus, Num(c)] == [Num(a), Plus, Num(b), Minus, Num(c)];
    assert InOperatorChars(OpAdd);
    StepTo(s3, Minus, s4);
    StepTo(s4, Num(c), s5);
    RunCons(s4, Num(c), [], s5);
    RunCons(s3, Minus, [Num(c)], s4);
  }

  /** A '-' right after an operand is still read as a sign when a `+ - × ÷ ^`
      or '(' is pending on the operator stack: in `a + b - c` the '-' negates
      `c`, the difference `b - c` is left above `a`, and the result is the
      bottom operand `a`. */
  lemma SubtractionAfterOperatorIsASign(a: real, b: real, c: real)
    requires Abs(a) <= 1e300
    ensures RunFrom(Init, [Num(a), Plus, Num(b), Minus, Num(c)]) ==
      Success(LoopState(Stacks([a, b, -c], [OpAdd]), false))
    ensures Drain(Stacks([a, b, -c], [OpAdd])) == Success(Stacks([a, b - c], []))
    ensures EvalTokens([Num(a), Plus, Num(b), Minus, Num(c)]) == Success(a)
  {
    RunSumMinus(a, b, c);
    var st := Stacks([a, b, -c], [OpAdd]);
    assert st.values[..1] == [a];
    assert Apply(st).value.values == [a, b - c];
    assert Apply(st).value.operators == [];
  }

  /** The value of a decimal digit. */
  function DigitValue(d: char): real
    requires IsDigit(d)
  {
    (d as int - '0' as int) as real
  }

  /** The same on the text a user types: for any digits x, y and z,
      custom_eval("x+y-z") returns x. */
  lemma DigitSumThenDifferenceText(x: char, y: char, z: char)
    requires IsDigit(x) && IsDigit(y) && IsDigit(z)
    ensures Evaluate([x, '+', y, '-', z], false, true) == Success(DigitValue(x))
  {
    DigitTextTokens(x, y, z);
    assert DigitValue(x) <= 9.0;
    SubtractionAfterOperatorIsASign(DigitValue(x), DigitValue(y), DigitValue(z));
  }

  /** The text `x+y-z` passes both gates and is read as five tokens. */
  lemma DigitTextTokens(x: char, y: char, z: char)
    requires IsDigit(x) && IsDigit(y) && IsDigit(z)
    ensures Evaluate([x, '+', y, '-', z], false, true) ==
      EvalTokens([Num(DigitValue(x)), Plus, Num(DigitValue(y)), Minus, Num(DigitValue(z))])
  {
    PreparedDigitText(x, y, z);
    ScanDigitText(x, y, z);
    EvaluateAcceptedText([x, '+', y, '-', z]);
  }

  /** Concretely: custom_eval("1+2-3") returns 1, where arithmetic says 0. */
  lemma OnePlusTwoMinusThreeGivesOne()
    ensures Evaluate("1+2-3", false, true) == Success(1.0)
  {
    DigitSumThenDifferenceText('1', '2', '3');
  }

  /** A text both gates accept is prepared, scanned and evaluated. */
  lemma EvaluateAcceptedText(text: string)
    requires Parentheses.Balanced(text)
    ensures Evaluate(text, false, true) == EvalTokens(Scan(RemoveWhitespace(LStripPlus(text))))
  {
  }

  lemma PreparedDigitText(x: char, y: char, z: char)
    requires IsDigit(x) && IsDigit(y) && IsDigit(z)
    ensures Parentheses.Balanced([x, '+', y, '-', z])
    ensures RemoveWhitespace(LStripPlus([x, '+', y, '-', z])) == [x, '+', y, '-', z]
  {
    var text := [x, '+', y, '-', z];
    assert text[0] == x;
    assert LStripPlus(text) == text;
    assert forall i :: 0 <= i < |text| ==> !IsSpace(text[i]) && text[i] != '(' && text[i] != ')' by {
      forall i | 0 <= i < |text|
        ensures !IsSpace(text[i]) && text[i] != '(' && text[i] != ')'
      {
        assert text[i] in {x, '+', y, '-', z};
      }
    }
    WhitespaceFree(text);
    ClosesWithoutParentheses(text, 0);
    Parentheses.BalancedIffClosesFrom(text);
  }

  /** A text without parentheses leaves the counter where it started. */
  lemma {:induction false} ClosesWithoutParentheses(s: string, depth: nat)
    requires forall i :: 0 <= i < |s| ==> s[i] != '(' && s[i] != ')'
    ensures Parentheses.ClosesFrom(s, depth) == (depth == 0)
    decreases |s|
  {
    if s != [] {
      ClosesWithoutParentheses(s[1..], depth);
    }
  }

  /** A single digit followed by a symbol or by nothing is a number token of its own. */
  lemma ScanDigit(d: char, rest: string)
    requires IsDigit(d) && (rest == [] || rest[0] in "-+×÷^()")
    ensures Scan([d] + rest) == [Num(DigitValue(d))] + Scan(rest)
  {
    var s := [d] + rest;
    assert s[0] == d && s[1..] == rest;
    assert DigitRunEnd(s, 1) == 1;
    assert DigitRunEnd(s, 0) == 1;
    assert s[..1] == [d] && [d][..0] == [];
    assert DigitsValue([d]) == DigitsValue([]) * 10 + (d as int - '0' as int);
  }

  /** A symbol is a token of its own. */
  lemma ScanSymbol(c: char, rest: string)
    requires c in "-+×÷^()"
    ensures Scan([c] + rest) == [SymbolToken(c)] + Scan(rest)
  {
    var s := [c] + rest;
    assert s[0] == c && s[1..] == rest;
    assert DigitRunEnd(s, 0) == 0;
  }

  lemma ScanDigitText(x: char, y: char, z: char)
    requires IsDigit(x) && IsDigit(y) && IsDigit(z)
    ensures Scan([x, '+', y, '-', z]) == [Num(DigitValue(x)), Plus, Num(DigitValue(y)), Minus, Num(DigitValue(z))]
  {
    var rest := ['+', y, '-', z];
    var tail := [Plus, Num(DigitValue(y)), Minus, Num(DigitValue(z))];
    assert Scan([x] + rest) == [Num(DigitValue(x))] + tail by {
      ScanPlusDigitMinusDigit(y, z);
      ScanDigit(x, rest);
    }
    assert [x] + rest == [x, '+', y, '-', z];
  }

  lemma ScanPlusDigitMinusDigit(y: char, z: char)
    requires IsDigit(y) && IsDigit(z)
    ensures Scan(['+', y, '-', z]) == [Plus, Num(DigitValue(y)), Minus, Num(DigitValue(z))]
  {
    ScanDigitMinusDigit(y, z);
    ScanSymbol('+', [y, '-', z]);
    assert ['+'] + [y, '-', z] == ['+', y, '-', z];
  }

  lemma ScanDigitMinusDigit(y: char, z: char)
    requires IsDigit(y) && IsDigit(z)
    ensures Scan([y, '-', z]) == [Num(DigitValue(y)), Minus, Num(DigitValue(z))]
  {
    ScanMinusDigit(z);
    ScanDigit(y, ['-', z]);
    assert [y] + ['-', z] == [y, '-', z];
  }

  lemma ScanMinusDigit(z: char)
    requires IsDigit(z)
    ensures Scan(['-', z]) == [Minus, Num(DigitValue(z))]
  {
    ScanDigit(z, []);
    assert [z] + [] == [z];
    ScanSymbol('-', [z]);
    assert ['-'] + [z] == ['-', z];
  }

  lemma StepsGroupedSum(a: real, b: real)
    ensures Step(Init, LParen) == Success(LoopState(Stacks([], [OpenParen]), true))
    ensures Step(LoopState(Stacks([], [OpenParen]), true), Num(a)) == Success(LoopState(Stacks([a], [OpenParen]), false))
    ensures Step(LoopState(Stacks([a], [OpenParen]), false), Plus) ==
      Success(LoopState(Stacks([a], [OpenParen, OpAdd]), true))
    ensures Step(LoopState(Stacks([a], [OpenParen, OpAdd]), true), Num(b)) ==
      Success(LoopState(Stacks([a, b], [OpenParen, OpAdd]), false))
  {
    StepTo(Init, LParen, LoopState(Stacks([], [OpenParen]), true));
    StepTo(LoopState(Stacks([], [OpenParen]), true), Num(a), LoopState(Stacks([a], [OpenParen]), false));
    StepTo(LoopState(Stacks([a], [OpenParen]), false), Plus, LoopState(Stacks([a], [OpenParen, OpAdd]), true));
    StepTo(LoopState(Stacks([a], [OpenParen, OpAdd]), true), Num(b), LoopState(Stacks([a, b], [OpenParen, OpAdd]), false));
  }

  lemma StepCloseGroupedSum(a: real, b: real)
    ensures Step(LoopState(Stacks([a, b], [OpenParen, OpAdd]), false), RParen) ==
      Success(LoopState(Stacks([a + b], []), false))
  {
    var st := Stacks([a, b], [OpenParen, OpAdd]);
    assert Apply(st).value.values == [a + b];
    assert Apply(st).value.operators == [OpenParen];
    assert ApplyUntilOpen(st) == Success(Stacks([a + b], [OpenParen]));
    StepTo(LoopState(st, false), RParen, LoopState(Stacks([a + b], []), false));
  }

  lemma RunGroupedSum(a: real, b: real, rest: seq<Token>)
    ensures RunFrom(Init, [LParen, Num(a), Plus, Num(b), RParen] + rest) ==
      RunFrom(LoopState(Stacks([a + b], []), false), rest)
  {
    var s1 := LoopState(Stacks([], [OpenParen]), true);
    var s2 := LoopState(Stacks([a], [OpenParen]), false);
    var s3 := LoopState(Stacks([a], [OpenParen, OpAdd]), true);
    var s4 := LoopState(Stacks([a, b], [OpenParen, OpAdd]), false);
    var s5 := LoopState(Stacks([a + b], []), false);
    StepsGroupedSum(a, b);
    StepCloseGroupedSum(a, b);
    RunCons(s4, RParen, rest, s5);
    RunCons(s3, Num(b), [RParen] + rest, s4);
    RunCons(s2, Plus, [Num(b)] + ([RParen] + rest), s3);
    RunCons(s1, Num(a), [Plus] + ([Num(b)] + ([RParen] + rest)), s2);
    RunCons(Init, LParen, [Num(a)] + ([Plus] + ([Num(b)] + ([RParen] + rest))), s1);
    assert [LParen] + ([Num(a)] + ([Plus] + ([Num(b)] + ([RParen] + rest)))) ==
      [LParen, Num(a), Plus, Num(b), RParen] + rest;
  }

  lemma RunGroupedSumTimes(a: real, b: real, c: real)
    ensures RunFrom(Init, [LParen, Num(a), Plus, Num(b), RParen, Times, Num(c)]) ==
      Success(LoopState(Stacks([a + b, c], [OpMul]), false))
  {
    var s5 := LoopState(Stacks([a + b], []), false);
    var s6 := LoopState(Stacks([a + b], [OpMul]), true);
    var s7 := LoopState(Stacks([a + b, c], [OpMul]), false);
    RunGroupedSum(a, b, [Times, Num(c)]);
    assert [LParen, Num(a), Plus, Num(b), RParen] + [Times, Num(c)] ==
      [LParen, Num(a), Plus, Num(b), RParen, Times, Num(c)];
    StepTo(s5, Times, s6);
    StepTo(s6, Num(c), s7);
    RunCons(s6, Num(c), [], s7);
    RunCons(s5, Times, [Num(c)], s6);
  }

  /** `(a + b) × c`: the parenthesised sum is applied before the product. */
  lemma ParenthesesGroupFirst(a: real, b: real, c: real)
    requires Abs((a + b) * c) <= 1e300
    ensures EvalTokens([LParen, Num(a), Plus, Num(b), RParen, Times, Num(c)]) == Success((a + b) * c)
  {
    var sum := a + b;
    RunGroupedSumTimes(a, b, c);
    DrainPair(sum, c, OpMul);
    var product := (a + b) * c;
    assert product == sum * c;
    assert Success(product) == Success(sum * c);
  }

  /** The loop over a binary operator between two operands, when the
      operator leaves the right operand's sign alone, followed by `rest`. */
  lemma RunBinaryThen(a: real, t: Token, b: real, rest: seq<Token>)
    requires IsOperatorToken(t) && t != Minus
    ensures RunFrom(Init, [Num(a), t, Num(b)] + rest) ==
      RunFrom(LoopState(Stacks([a, b], [BinaryOp(t)]), false), rest)
  {
    var s1 := LoopState(Stacks([a], []), false);
    var s2 := LoopState(Stacks([a], [BinaryOp(t)]), true);
    var s3 := LoopState(Stacks([a, b], [BinaryOp(t)]), false);
    StepTo(Init, Num(a), s1);
    StepTo(s1, t, s2);
    StepTo(s2, Num(b), s3);
    RunCons(s2, Num(b), rest, s3);
    RunCons(s1, t, [Num(b)] + rest, s2);
    RunCons(Init, Num(a), [t] + ([Num(b)] + rest), s1);
    assert [Num(a)] + ([t] + ([Num(b)] + rest)) == [Num(a), t, Num(b)] + rest;
  }

  lemma RunBinary(a: real, t: Token, b: real)
    requires IsOperatorToken(t) && t != Minus
    ensures RunFrom(Init, [Num(a), t, Num(b)]) == Success(LoopState(Stacks([a, b], [BinaryOp(t)]), false))
  {
    RunBinaryThen(a, t, b, []);
    assert [Num(a), t, Num(b)] + [] == [Num(a), t, Num(b)];
  }

  /** `a ÷ 0` raises math_lib's ZeroDivisionError. */
  lemma DivisionByZeroRaises(a: real)
    ensures EvalTokens([Num(a), Divide, Num(0.0)]) == Failure(ZeroDivisionError(MathLib.DivideByZeroMessage))
  {
    RunBinary(a, Divide, 0.0);
    DrainPair(a, 0.0, OpDiv);
  }

  /** `a × b` whose magnitude exceeds 1e300 is refused. */
  lemma LargeResultRefused(a: real, b: real)
    requires Abs(a * b) > 1e300
    ensures EvalTokens([Num(a), Times, Num(b)]) == Failure(ValueError(TooLargeMessage))
  {
    RunBinary(a, Times, b);
    DrainPair(a, b, OpMul);
  }

  lemma StepsNegativeExponent(a: real, b: real)
    ensures Step(LoopState(Stacks([a], [OpPow]), true), Minus) ==
      Success(LoopState(Stacks([a], [OpPow, UnaryMinus]), false))
    ensures Step(LoopState(Stacks([a], [OpPow, UnaryMinus]), false), Num(b)) ==
      Success(LoopState(Stacks([a, -b], [OpPow]), false))
  {
    StepTo(LoopState(Stacks([a], [OpPow]), true), Minus, LoopState(Stacks([a], [OpPow, UnaryMinus]), false));
    StepTo(LoopState(Stacks([a], [OpPow, UnaryMinus]), false), Num(b), LoopState(Stacks([a, -b], [OpPow]), false));
  }

  lemma RunNegativeExponent(a: real, b: real)
    ensures RunFrom(Init, [Num(a), Caret, Minus, Num(b)]) == Success(LoopState(Stacks([a, -b], [OpPow]), false))
  {
    var s1 := LoopState(Stacks([a], []), false);
    var s2 := LoopState(Stacks([a], [OpPow]), true);
    var s3 := LoopState(Stacks([a], [OpPow, UnaryMinus]), false);
    var s4 := LoopState(Stacks([a, -b], [OpPow]), false);
    StepTo(Init, Num(a), s1);
    StepTo(s1, Caret, s2);
    StepsNegativeExponent(a, b);
    RunCons(s3, Num(b), [], s4);
    RunCons(s2, Minus, [Num(b)], s3);
    RunCons(s1, Caret, [Minus, Num(b)], s2);
    RunCons(Init, Num(a), [Caret, Minus, Num(b)], s1);
  }

  /** `a ^ -b` with b > 0: the '-' after '^' is a sign, and the negative
      exponent is refused. */
  lemma NegativeExponentRefused(a: real, b: real)
    requires b > 0.0
    ensures EvalTokens([Num(a), Caret, Minus, Num(b)]) == Failure(ValueError(NegativeExponentMessage))
  {
    RunNegativeExponent(a, b);
    DrainPair(a, -b, OpPow);
  }

  /** `()`: nothing is left to return, values[0] is an IndexError. */
  lemma EmptyParenthesesHaveNoValue()
    ensures EvalTokens([LParen, RParen]) == Failure(IndexError)
  {
    var s1 := LoopState(Stacks([], [OpenParen]), true);
    var s2 := LoopState(Stacks([], []), false);
    StepTo(Init, LParen, s1);
    StepTo(s1, RParen, s2);
    RunCons(s1, RParen, [], s2);
    RunCons(Init, LParen, [RParen], s1);
  }

  /** `a )`: the ')' pops from an empty operator list, an IndexError. */
  lemma UnmatchedCloseRaises(a: real)
    ensures EvalTokens([Num(a), RParen]) == Failure(IndexError)
  {
    var s1 := LoopState(Stacks([a], []), false);
    StepTo(Init, Num(a), s1);
    assert ApplyUntilOpen(s1.stacks) == Success(s1.stacks);
    assert Step(s1, RParen) == Failure(IndexError);
    RunCons(Init, Num(a), [RParen], s1);
    assert [Num(a)] + [RParen] == [Num(a), RParen];
  }

  /** `-a`: a leading '-' negates its operand. */
  lemma LeadingMinusNegates(a: real)
    requires Abs(a) <= 1e300
    ensures EvalTokens([Minus, Num(a)]) == Success(-a)
  {
    var s1 := LoopState(Stacks([], [UnaryMinus]), false);
    var s2 := LoopState(Stacks([-a], []), false);
    StepTo(Init, Minus, s1);
    StepTo(s1, Num(a), s2);
    RunCons(s1, Num(a), [], s2);
    RunCons(Init, Minus, [Num(a)], s1);
  }

  /** A second '÷' after `a ÷ b` applies the first one. */
  lemma StepDivideAfterQuotient(a: real, b: real)
    requires b != 0.0
    ensures Step(LoopState(Stacks([a, b], [OpDiv]), false), Divide) == Success(LoopState(Stacks([a / b], [OpDiv]), true))
  {
    var st := Stacks([a, b], [OpDiv]);
    assert st.values[..0] == [];
    assert Apply(st).value.values == [a / b];
    assert ReduceFor(st, OpDiv) == ReduceFor(Stacks([a / b], []), OpDiv);
    StepTo(LoopState(st, false), Divide, LoopState(Stacks([a / b], [OpDiv]), true));
  }

  lemma RunDivideTwice(a: real, b: real, c: real)
    requires b != 0.0
    ensures RunFrom(Init, [Num(a), Divide, Num(b), Divide, Num(c)]) ==
      Success(LoopState(Stacks([a / b, c], [OpDiv]), false))
  {
    var s3 := LoopState(Stacks([a, b], [OpDiv]), false);
    var s4 := LoopState(Stacks([a / b], [OpDiv]), true);
    var s5 := LoopState(Stacks([a / b, c], [OpDiv]), false);
    RunBinaryThen(a, Divide, b, [Divide, Num(c)]);
    assert [Num(a), Divide, Num(b)] + [Divide, Num(c)] == [Num(a), Divide, Num(b), Divide, Num(c)];
    StepDivideAfterQuotient(a, b);
    StepTo(s4, Num(c), s5);
    RunCons(s4, Num(c), [], s5);
    RunCons(s3, Divide, [Num(c)], s4);
  }

  /** `a ÷ b ÷ c` is `(a ÷ b) ÷ c`: operators of one rank apply left to right. */
  lemma DivisionIsLeftAssociative(a: real, b: real, c: real)
    requires b != 0.0 && c != 0.0 && Abs(a / b / c) <= 1e300
    ensures EvalTokens([Num(a), Divide, Num(b), Divide, Num(c)]) == Success(a / b / c)
  {
    RunDivideTwice(a, b, c);
    DrainPair(a / b, c, OpDiv);
  }

  /** The token loop over `xs + ys` runs over `xs`, then over `ys` from where it stopped. */
  lemma {:induction false} RunAppend(ls: LoopState, xs: seq<Token>, ys: seq<Token>)
    ensures RunFrom(ls, xs + ys) ==
      match RunFrom(ls, xs)
      case Failure(e) => Failure(e)
      case Success(mid) => RunFrom(mid, ys)
    decreases |xs|
  {
    if xs == [] {
      assert xs + ys == ys;
    } else {
      assert (xs + ys)[0] == xs[0];
      assert (xs + ys)[1..] == xs[1..] + ys;
      match Step(ls, xs[0])
      case Failure(e) =>
      case Success(next) =>
        RunAppend(next, xs[1..], ys);
    }
  }
}
