/** custom_eval (src/gui.py): the two-stack (operand/operator) evaluator.
    The functions below specify one step of the algorithm each; the method
    CustomEval runs the algorithm the way the source does, mutating its two
    stacks in loops, and is proved to compute Evaluate. */
module Evaluator {
  import opened Results
  import opened Lexer
  import MathLib
  import ExtendedMathLib
  import Parentheses

  const InvalidFormatMessage := "Invalid input format."
  const IncorrectInputMessage := "Incorrect input"
  const NegativeExponentMessage := "Neg. exp. not allowed"
  const TooLargeMessage := "Result is too large."
  const ShortcutNote := "single-operand shortcut"

  /** Entries of the operator stack: the five binary operators, the unary
      minus marker 'u-' and the opening-parenthesis marker '('. */
  datatype Op = OpAdd | OpSub | OpMul | OpDiv | OpPow | UnaryMinus | OpenParen {
    /** The string the source keeps on its operator list. */
    function Text(): string
    {
      match this
      case OpAdd => "+"
      case OpSub => "-"
      case OpMul => "×"
      case OpDiv => "÷"
      case OpPow => "^"
      case UnaryMinus => "u-"
      case OpenParen => "("
    }
  }

  function Top<T>(s: seq<T>): T
    requires s != []
  {
    s[|s| - 1]
  }

  function Pop<T>(s: seq<T>): seq<T>
    requires s != []
  {
    s[..|s| - 1]
  }

  function Abs(x: real): (r: real)
    ensures r >= 0.0 && (r == x || r == -x)
  {
    if x < 0.0 then -x else x
  }

  /** Python's `x in s` for strings: `x` occurs in `s` as a substring. */
  predicate IsSubstring(x: string, s: string)
    decreases |s|
  {
    x <= s || (s != [] && IsSubstring(x, s[1..]))
  }

  const OperatorChars := "+-×÷^("

  /** A string whose first character does not occur in `s` is no substring of `s`. */
  lemma {:induction false} NoSubstringWithoutFirstChar(x: string, s: string)
    requires x != [] && x[0] !in s
    ensures !IsSubstring(x, s)
    decreases |s|
  {
    if s != [] {
      assert s[0] in s;
      assert forall c :: c in s[1..] ==> c in s;
      NoSubstringWithoutFirstChar(x, s[1..]);
    }
  }

  /** `o in '+-×÷^('` in the source. Being a substring test, it holds for
      every operator-stack entry except the two-character marker 'u-'. */
  predicate InOperatorChars(o: Op)
    ensures InOperatorChars(o) <==> o != UnaryMinus
  {
    if o == UnaryMinus then
      NoSubstringWithoutFirstChar(UnaryMinus.Text(), OperatorChars);
      IsSubstring(o.Text(), OperatorChars)
    else
      SingleCharOperatorsListed(o);
      IsSubstring(o.Text(), OperatorChars)
  }

  lemma SingleCharOperatorsListed(o: Op)
    requires o != UnaryMinus
    ensures IsSubstring(o.Text(), OperatorChars)
  {
    match o
    case OpAdd =>
    case OpSub => assert o.Text() <= OperatorChars[1..];
    case OpMul => assert o.Text() <= OperatorChars[2..];
    case OpDiv => assert o.Text() <= OperatorChars[3..];
    case OpPow => assert o.Text() <= OperatorChars[4..];
    case OpenParen => assert o.Text() <= OperatorChars[5..];
  }

  /** The rank `greater_precedence` looks up: + - are 1, × ÷ are 2, ^ is 3 and
      'u-' is 4. The '(' marker has no rank (the source's table has no entry
      for it, and its callers never ask). */
  function Precedence(o: Op): nat
    requires o != OpenParen
  {
    match o
    case OpAdd => 1
    case OpSub => 1
    case OpMul => 2
    case OpDiv => 2
    case OpPow => 3
    case UnaryMinus => 4
  }

  /** greater_precedence(a, b): whether the pending operator `a` is applied
      before `b` is pushed (rank of a >= rank of b). */
  function GreaterPrecedence(a: Op, b: Op): bool
    requires a != OpenParen && b != OpenParen
  {
    Precedence(a) >= Precedence(b)
  }

  /** The precedence comparison holds unless `a` sits in a strictly looser
      tier than `b`: operators of one tier are applied left to right, 'u-' is
      applied before anything, and + - are never applied before × ÷ ^ 'u-'. */
  lemma PrecedenceTiers(a: Op, b: Op)
    requires a != OpenParen && b != OpenParen
    ensures GreaterPrecedence(a, b) <==>
      !((a == OpAdd || a == OpSub) && !(b == OpAdd || b == OpSub)) &&
      !((a == OpMul || a == OpDiv) && (b == OpPow || b == UnaryMinus)) &&
      !(a == OpPow && b == UnaryMinus)
  {
  }

  /** Python's int(x): truncation toward zero. */
  function Int(x: real): int
  {
    if x >= 0.0 then x.Floor else -((-x).Floor)
  }

  /** power(base, exponent) for a non-negative exponent: the base multiplied
      by itself exponent times when the exponent has an integer value; the
      library's fractional power is not modelled. */
  function PowerValue(base: real, exponent: real): Result<real>
    requires exponent >= 0.0
  {
    if ExtendedMathLib.IsIntegral(exponent) then Success(ExtendedMathLib.Pow(base, exponent.Floor))
    else Failure(OutsideModel(ExtendedMathLib.FractionalPowerNote))
  }

  /** The laws of the power the evaluator computes: b^0 = 1, exactly the
      integral exponents are inside the model, and raising the exponent by
      one multiplies the power by the base once more. */
  lemma PowerValueRecurrence(b: real, e: real)
    requires e >= 0.0
    ensures PowerValue(b, 0.0) == Success(1.0)
    ensures PowerValue(b, e).Success? <==> ExtendedMathLib.IsIntegral(e)
    ensures ExtendedMathLib.IsIntegral(e) ==>
      PowerValue(b, e + 1.0) == Success(PowerValue(b, e).value * b)
  {
    assert (0.0).Floor == 0;
    if ExtendedMathLib.IsIntegral(e) {
      assert (e + 1.0).Floor == e.Floor + 1;
      assert ExtendedMathLib.IsIntegral(e + 1.0);
      var k: nat := e.Floor;
      assert ExtendedMathLib.Pow(b, k + 1) == ExtendedMathLib.Pow(b, k) * b;
      assert PowerValue(b, e) == Success(ExtendedMathLib.Pow(b, k));
      assert PowerValue(b, e + 1.0) == Success(ExtendedMathLib.Pow(b, k + 1));
      assert PowerValue(b, e).value * b == ExtendedMathLib.Pow(b, k + 1);
    }
  }

  function Negated(r: Result<real>): Result<real>
  {
    match r
    case Success(v) => Success(-v)
    case Failure(e) => Failure(e)
  }

  /** What applying the binary operator `op` to `left` and `right` yields.
      '^' refuses every negative exponent, whatever the base; for an
      integer exponent its sign-split computation always gives left to the
      power right. Applying '(' as an operator is the source's KeyError. */
  function BinaryResult(op: Op, left: real, right: real): (r: Result<real>)
    requires op != UnaryMinus
    ensures op == OpAdd ==> r == Success(left + right)
    ensures op == OpSub ==> r == Success(left - right)
    ensures op == OpMul ==> r == Success(left * right)
    ensures op == OpDiv ==> (r.Failure? <==> right == 0.0)
    ensures op == OpDiv && r.Failure? ==> r.error == ZeroDivisionError(MathLib.DivideByZeroMessage)
    ensures op == OpDiv && r.Success? ==> r.value * right == left
    ensures op == OpPow && right < 0.0 ==> r == Failure(ValueError(NegativeExponentMessage))
    ensures op == OpPow && right >= 0.0 && ExtendedMathLib.IsIntegral(right) ==>
      r == Success(ExtendedMathLib.Pow(left, right.Floor))
    ensures op == OpPow && right >= 0.0 && !ExtendedMathLib.IsIntegral(right) ==>
      r == Failure(OutsideModel(ExtendedMathLib.FractionalPowerNote))
    ensures op == OpenParen ==> r == Failure(KeyError)
  {
    match op
    case OpAdd => Success(MathLib.Add(left, right))
    case OpSub => Success(MathLib.Sub(left, right))
    case OpMul => Success(MathLib.Mul(left, right))
    case OpDiv => MathLib.Div(left, right)
    case OpPow =>
      if right < 0.0 && left > 0.0 then Failure(ValueError(NegativeExponentMessage))
      else if right < 0.0 then Failure(ValueError(NegativeExponentMessage))
      else if left < 0.0 && Int(right) % 2 != 0 then
        ExtendedMathLib.PowNegatedBase(left, right.Floor);
        Negated(PowerValue(-left, right))
      else
        PowerValue(left, right)
    case OpenParen => Failure(KeyError)
  }

  /** The two stacks of one evaluation; the top of each is its last element. */
  datatype Stacks = Stacks(values: seq<real>, operators: seq<Op>)

  /** Every operand but the top one of `after` is the operand at the same
      depth of `before`: applying operators only rewrites the top. */
  predicate KeepsBelowTop(before: seq<real>, after: seq<real>)
  {
    |after| <= |before| && (after != [] ==> Pop(after) == before[..|after| - 1])
  }

  /** apply_operator: pops the top operator; 'u-' negates the top operand,
      a binary operator pops the right then the left operand and pushes
      their result. Popping an empty operand stack is an IndexError. */
  function Apply(st: Stacks): (r: Result<Stacks>)
    requires st.operators != []
    ensures r.Success? ==> r.value.operators == Pop(st.operators)
    ensures r.Success? ==> KeepsBelowTop(st.values, r.value.values)
  {
    var op := Top(st.operators);
    var vals := st.values;
    if op == UnaryMinus then
      if vals == [] then Failure(IndexError)
      else Success(Stacks(Pop(vals) + [-Top(vals)], Pop(st.operators)))
    else if |vals| < 2 then Failure(IndexError)
    else
      match BinaryResult(op, vals[|vals| - 2], Top(vals))
      case Failure(e) => Failure(e)
      case Success(v) => Success(Stacks(vals[..|vals| - 2] + [v], Pop(st.operators)))
  }

  /** What apply_operator does to the operands: 'u-' negates the top operand
      and keeps the count (an empty stack is an IndexError); a binary
      operator needs two operands, pops the right one then the left one, and
      pushes what BinaryResult gives for them, or fails as it does. */
  lemma ApplyOperands(st: Stacks)
    requires st.operators != []
    ensures Top(st.operators) == UnaryMinus ==>
      (Apply(st).Success? <==> st.values != []) &&
      (Apply(st).Failure? ==> Apply(st).error == IndexError) &&
      (Apply(st).Success? ==> |Apply(st).value.values| == |st.values| && Top(Apply(st).value.values) == -Top(st.values))
    ensures Top(st.operators) != UnaryMinus && |st.values| < 2 ==> Apply(st) == Failure(IndexError)
    ensures Top(st.operators) != UnaryMinus && |st.values| >= 2 ==>
      var res := BinaryResult(Top(st.operators), st.values[|st.values| - 2], Top(st.values));
      (Apply(st).Success? <==> res.Success?) &&
      (Apply(st).Failure? ==> Apply(st).error == res.error) &&
      (Apply(st).Success? ==> |Apply(st).value.values| == |st.values| - 1 && Top(Apply(st).value.values) == res.value)
  {
  }

  /** The loop before pushing a binary operator: pending operators ranked at
      least as high as `incoming` are applied, stopping at '('. */
  function ReduceFor(st: Stacks, incoming: Op): (r: Result<Stacks>)
    requires incoming != OpenParen
    ensures r.Success? ==> r.value.operators <= st.operators
    ensures r.Success? ==> KeepsBelowTop(st.values, r.value.values)
    ensures r.Success? ==>
      var ops := r.value.operators;
      ops == [] || Top(ops) == OpenParen || !GreaterPrecedence(Top(ops), incoming)
    decreases |st.operators|
  {
    if st.operators != [] && Top(st.operators) != OpenParen && GreaterPrecedence(Top(st.operators), incoming) then
      match Apply(st)
      case Failure(e) => Failure(e)
      case Success(next) =>
        ReduceFor(next, incoming)
    else
      Success(st)
  }

  /** The operators that loop removes are exactly the pending ones ranked at
      least as high as `incoming`, none of them a '('. */
  lemma {:induction false} ReduceForRemovesOutranking(st: Stacks, incoming: Op)
    requires incoming != OpenParen
    ensures var r := ReduceFor(st, incoming);
      r.Success? ==> forall i :: |r.value.operators| <= i < |st.operators| ==>
        st.operators[i] != OpenParen && GreaterPrecedence(st.operators[i], incoming)
    decreases |st.operators|
  {
    if st.operators != [] && Top(st.operators) != OpenParen && GreaterPrecedence(Top(st.operators), incoming) {
      var next := Apply(st);
      if next.Success? {
        ReduceForRemovesOutranking(next.value, incoming);
        var r := ReduceFor(next.value, incoming);
        assert ReduceFor(st, incoming) == r;
        if r.Success? {
          forall i | |r.value.operators| <= i < |st.operators|
            ensures st.operators[i] != OpenParen && GreaterPrecedence(st.operators[i], incoming)
          {
            if i < |st.operators| - 1 {
              assert st.operators[i] == next.value.operators[i];
            }
          }
        }
      }
    }
  }

  /** The loop on ')': operators are applied until '(' is on top (or the
      operator stack is empty). */
  function ApplyUntilOpen(st: Stacks): (r: Result<Stacks>)
    ensures r.Success? ==> r.value.operators <= st.operators
    ensures r.Success? ==> KeepsBelowTop(st.values, r.value.values)
    ensures r.Success? ==> r.value.operators == [] || Top(r.value.operators) == OpenParen
    decreases |st.operators|
  {
    if st.operators != [] && Top(st.operators) != OpenParen then
      match Apply(st)
      case Failure(e) => Failure(e)
      case Success(next) =>
        ApplyUntilOpen(next)
    else
      Success(st)
  }

  /** The operators that loop removes hold no '(': it stops at the topmost one. */
  lemma {:induction false} ApplyUntilOpenRemovesNoOpen(st: Stacks)
    ensures var r := ApplyUntilOpen(st);
      r.Success? ==> forall i :: |r.value.operators| <= i < |st.operators| ==> st.operators[i] != OpenParen
    decreases |st.operators|
  {
    if st.operators != [] && Top(st.operators) != OpenParen {
      var next := Apply(st);
      if next.Success? {
        ApplyUntilOpenRemovesNoOpen(next.value);
        var r := ApplyUntilOpen(next.value);
        assert ApplyUntilOpen(st) == r;
        if r.Success? {
          forall i | |r.value.operators| <= i < |st.operators|
            ensures st.operators[i] != OpenParen
          {
            if i < |st.operators| - 1 {
              assert st.operators[i] == next.value.operators[i];
            }
          }
        }
      }
    }
  }

  /** The final loop: operators are applied until none is left. */
  function Drain(st: Stacks): (r: Result<Stacks>)
    ensures r.Success? ==> r.value.operators == []
    ensures r.Success? ==> KeepsBelowTop(st.values, r.value.values)
    decreases |st.operators|
  {
    if st.operators != [] then
      match Apply(st)
      case Failure(e) => Failure(e)
      case Success(next) => Drain(next)
    else
      Success(st)
  }

  /** The state the token loop carries: the two stacks, and whether the
      previous token is one of `+ - × ÷ ^ (` (all the loop asks of
      previous_token; a unary minus is recorded as 'u-', which is not). */
  datatype LoopState = LoopState(stacks: Stacks, previousIsOperatorChar: bool)

  const Init := LoopState(Stacks([], []), false)

  predicate IsOperatorToken(t: Token)
  {
    t == Plus || t == Minus || t == Times || t == Divide || t == Caret
  }

  function BinaryOp(t: Token): (o: Op)
    requires IsOperatorToken(t)
    ensures o != OpenParen && o != UnaryMinus
  {
    match t
    case Plus => OpAdd
    case Minus => OpSub
    case Times => OpMul
    case Divide => OpDiv
    case Caret => OpPow
  }

  /** One iteration of the token loop. A '-' is the unary marker 'u-' when
      there is no operand yet, when the operator on top is one of
      `+ - × ÷ ^ (`, or when the previous token was; otherwise it is pushed
      as subtraction (both remaining source paths push it without applying
      anything). A number is negated, and the 'u-' popped, when 'u-' is on
      top. ')' applies operators down to '(' and pops that '('. */
  function Step(ls: LoopState, t: Token): Result<LoopState>
  {
    var vals := ls.stacks.values;
    var ops := ls.stacks.operators;
    match t
    case Minus =>
      if vals == [] || (ops != [] && InOperatorChars(Top(ops))) || ls.previousIsOperatorChar then
        Success(LoopState(Stacks(vals, ops + [UnaryMinus]), false))
      else
        Success(LoopState(Stacks(vals, ops + [OpSub]), true))
    case Num(v) =>
      if ops != [] && Top(ops) == UnaryMinus then
        Success(LoopState(Stacks(vals + [-v], Pop(ops)), false))
      else
        Success(LoopState(Stacks(vals + [v], ops), false))
    case LParen =>
      Success(LoopState(Stacks(vals, ops + [OpenParen]), true))
    case RParen =>
      (match ApplyUntilOpen(ls.stacks)
       case Failure(e) => Failure(e)
       case Success(s) =>
         if s.operators == [] then Failure(IndexError)
         else Success(LoopState(Stacks(s.values, Pop(s.operators)), false)))
    case _ =>
      var incoming := BinaryOp(t);
      match ReduceFor(ls.stacks, incoming)
      case Failure(e) => Failure(e)
      case Success(s) => Success(LoopState(Stacks(s.values, s.operators + [incoming]), true))
  }

  /** The token loop from state `ls` over the tokens `ts`. */
  function RunFrom(ls: LoopState, ts: seq<Token>): Result<LoopState>
    decreases |ts|
  {
    if ts == [] then Success(ls)
    else
      match Step(ls, ts[0])
      case Failure(e) => Failure(e)
      case Success(next) => RunFrom(next, ts[1..])
  }

  /** The end of custom_eval: the bottom operand values[0] is the result,
      refused when its magnitude exceeds 1e300. */
  function Finish(st: Stacks): Result<real>
  {
    if st.values == [] then Failure(IndexError)
    else if Abs(st.values[0]) > 1e300 then Failure(ValueError(TooLargeMessage))
    else Success(st.values[0])
  }

  /** Evaluation of a token sequence: the token loop, the drain, the result. */
  function EvalTokens(ts: seq<Token>): Result<real>
  {
    match RunFrom(Init, ts)
    case Failure(e) => Failure(e)
    case Success(ls) =>
      match Drain(ls.stacks)
      case Failure(e) => Failure(e)
      case Success(st) => Finish(st)
  }

  /** Whether the text contains the opening of a single-operand call. */
  predicate HasSingleOperandCall(expression: string)
  {
    IsSubstring("x!(", expression) || IsSubstring("√x(", expression) || IsSubstring("ln(", expression)
  }

  /** custom_eval(expression). `digitBeforeFunction` is the verdict of the
      search at gui.py line 109 and `shapeMatches` that of the pattern at
      line 113; the parenthesis check beside it is modelled. */
  function Evaluate(expression: string, digitBeforeFunction: bool, shapeMatches: bool): Result<real>
  {
    if digitBeforeFunction then Failure(ValueError(InvalidFormatMessage))
    else if !shapeMatches || !Parentheses.Balanced(expression) then
      if HasSingleOperandCall(expression) then Failure(OutsideModel(ShortcutNote))
      else Failure(ValueError(IncorrectInputMessage))
    else
      EvalTokens(Scan(RemoveWhitespace(LStripPlus(expression))))
  }

  /** Whatever the text and the outcome of the two pattern gates, a value
      custom_eval returns is at most 1e300 in magnitude. */
  lemma EvaluateBounded(expression: string, digitBeforeFunction: bool, shapeMatches: bool)
    ensures var r := Evaluate(expression, digitBeforeFunction, shapeMatches);
      r.Success? ==> Abs(r.value) <= 1e300
  {
  }

  /** apply_operator, popping from and pushing onto its two lists. */
  method ApplyOperator(operators: seq<Op>, values: seq<real>) returns (r: Result<Stacks>)
    requires operators != []
    ensures r == Apply(Stacks(values, operators))
  {
    var ops, vals := operators, values;
    var operator := ops[|ops| - 1];
    ops := ops[..|ops| - 1];
    if operator == UnaryMinus {
      if vals == [] {
        return Failure(IndexError);
      }
      var right := vals[|vals| - 1];
      vals := vals[..|vals| - 1];
      vals := vals + [-right];
      return Success(Stacks(vals, ops));
    }
    if vals == [] {
      return Failure(IndexError);
    }
    var right := vals[|vals| - 1];
    vals := vals[..|vals| - 1];
    if vals == [] {
      return Failure(IndexError);
    }
    var left := vals[|vals| - 1];
    vals := vals[..|vals| - 1];
    assert vals == values[..|values| - 2] && left == values[|values| - 2];
    var result := BinaryOperation(operator, left, right);
    if result.Failure? {
      return Failure(result.error);
    }
    vals := vals + [result.value];
    return Success(Stacks(vals, ops));
  }

  /** The part of apply_operator that combines the two popped operands:
      '^' with its sign handling, or the operator's entry in `operations`. */
  method BinaryOperation(operator: Op, left: real, right: real) returns (r: Result<real>)
    requires operator != UnaryMinus
    ensures r == BinaryResult(operator, left, right)
  {
    var result: real;
    if operator == OpPow {
      if right < 0.0 && left > 0.0 {
        return Failure(ValueError(NegativeExponentMessage));
      }
      if right < 0.0 {
        return Failure(ValueError(NegativeExponentMessage));
      }
      var power: Result<real>;
      if left < 0.0 && Int(right) % 2 != 0 {
        power := ExtendedMathLib.Power(-left, right);
        if power.Success? {
          power := Success(-power.value);
        }
      } else {
        power := ExtendedMathLib.Power(left, right);
      }
      if power.Failure? {
        return Failure(power.error);
      }
      result := power.value;
    } else {
      match operator {
        case OpAdd => result := MathLib.Add(left, right);
        case OpSub => result := MathLib.Sub(left, right);
        case OpMul => result := MathLib.Mul(left, right);
        case OpDiv =>
          var quotient := MathLib.Div(left, right);
          if quotient.Failure? {
            return Failure(quotient.error);
          }
          result := quotient.value;
        case OpenParen =>
          return Failure(KeyError);
      }
    }
    return Success(result);
  }

  /** custom_eval(expression) as the source runs it: the gates, the text
      preparation and tokenizer, then one pass over the tokens that pushes
      onto and pops from the operand and operator lists, a final drain, and
      the overflow check on values[0]. */
  method CustomEval(expression: string, digitBeforeFunction: bool, shapeMatches: bool) returns (r: Result<real>)
    ensures r == Evaluate(expression, digitBeforeFunction, shapeMatches)
  {
    if digitBeforeFunction {
      return Failure(ValueError(InvalidFormatMessage));
    }
    var balanced := Parentheses.IsValidParentheses(expression);
    if !shapeMatches || !balanced {
      if HasSingleOperandCall(expression) {
        return Failure(OutsideModel(ShortcutNote));
      }
      return Failure(ValueError(IncorrectInputMessage));
    }
    var tokens := Scan(RemoveWhitespace(LStripPlus(expression)));
    assert Evaluate(expression, digitBeforeFunction, shapeMatches) == EvalTokens(tokens);
    var values: seq<real> := [];
    var operators: seq<Op> := [];
    var previousIsOperatorChar := false;
    for i := 0 to |tokens|
      invariant RunFrom(LoopState(Stacks(values, operators), previousIsOperatorChar), tokens[i..]) == RunFrom(Init, tokens)
    {
      assert tokens[i..][0] == tokens[i] && tokens[i..][1..] == tokens[i + 1..];
      var next := ProcessToken(values, operators, previousIsOperatorChar, tokens[i]);
      if next.Failure? {
        return Failure(next.error);
      }
      values, operators := next.value.stacks.values, next.value.stacks.operators;
      previousIsOperatorChar := next.value.previousIsOperatorChar;
    }
    assert RunFrom(Init, tokens) == Success(LoopState(Stacks(values, operators), previousIsOperatorChar));
    var drained := DrainOperators(values, operators);
    if drained.Failure? {
      return Failure(drained.error);
    }
    values := drained.value.values;
    if values == [] {
      return Failure(IndexError);
    }
    var result := values[0];
    if Abs(result) > 1e300 {
      return Failure(ValueError(TooLargeMessage));
    }
    return Success(result);
  }

  /** The final loop of custom_eval: apply_operator until the operator list is empty. */
  method DrainOperators(values0: seq<real>, operators0: seq<Op>) returns (r: Result<Stacks>)
    ensures r == Drain(Stacks(values0, operators0))
  {
    var values, operators := values0, operators0;
    while operators != []
      invariant Drain(Stacks(values, operators)) == Drain(Stacks(values0, operators0))
      decreases |operators|
    {
      var applied := ApplyOperator(operators, values);
      if applied.Failure? {
        return Failure(applied.error);
      }
      values, operators := applied.value.values, applied.value.operators;
    }
    return Success(Stacks(values, operators));
  }

  /** One pass of the token loop's body (src/gui.py lines 142-176) on the
      operand list, the operator list and previous_token. */
  method ProcessToken(values0: seq<real>, operators0: seq<Op>, previousIsOperatorChar0: bool, token: Token)
    returns (r: Result<LoopState>)
    ensures r == Step(LoopState(Stacks(values0, operators0), previousIsOperatorChar0), token)
  {
    var values, operators, previousIsOperatorChar := values0, operators0, previousIsOperatorChar0;
    if token == Minus && (values == [] || (operators != [] && InOperatorChars(operators[|operators| - 1])) || previousIsOperatorChar) {
      // unary minus: previous_token becomes 'u-'
      operators := operators + [UnaryMinus];
      previousIsOperatorChar := false;
    } else if token == Minus && values != [] && operators != [] && !InOperatorChars(operators[|operators| - 1]) {
      operators := operators + [OpSub];
      previousIsOperatorChar := true;
    } else if token.Num? {
      var value := token.value;
      if operators != [] && operators[|operators| - 1] == UnaryMinus {
        value := -value;
        operators := operators[..|operators| - 1];
      }
      values := values + [value];
      previousIsOperatorChar := false;
    } else if token == LParen {
      operators := operators + [OpenParen];
      previousIsOperatorChar := true;
    } else if token == RParen {
      ghost var entry := Stacks(values, operators);
      while operators != [] && operators[|operators| - 1] != OpenParen
        invariant ApplyUntilOpen(Stacks(values, operators)) == ApplyUntilOpen(entry)
        decreases |operators|
      {
        var applied := ApplyOperator(operators, values);
        if applied.Failure? {
          return Failure(applied.error);
        }
        values, operators := applied.value.values, applied.value.operators;
      }
      if operators == [] {
        return Failure(IndexError);
      }
      operators := operators[..|operators| - 1];
      previousIsOperatorChar := false;
    } else {
      // a binary operator (a '-' reaches here only with an empty operator list)
      var incoming := BinaryOp(token);
      ghost var entry := Stacks(values, operators);
      while operators != [] && operators[|operators| - 1] != OpenParen && GreaterPrecedence(operators[|operators| - 1], incoming)
        invariant ReduceFor(Stacks(values, operators), incoming) == ReduceFor(entry, incoming)
        decreases |operators|
      {
        var applied := ApplyOperator(operators, values);
        if applied.Failure? {
          return Failure(applied.error);
        }
        values, operators := applied.value.values, applied.value.operators;
      }
      operators := operators + [incoming];
      previousIsOperatorChar := true;
    }
    return Success(LoopState(Stacks(values, operators), previousIsOperatorChar));
  }
}
