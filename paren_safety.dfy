/** Why custom_eval never fails by applying '(' as an operator (the KeyError
    of apply_operator's lookup): the parenthesis check accepts only texts in
    which every '(' is closed, the text preparation and the tokenizer keep
    the parentheses exactly, and a token loop over closed parentheses ends
    with no '(' left for the final loop to apply. */
module ParenSafety {
  import opened Results
  import opened Lexer
  import opened Evaluator
  import Parentheses
  import EvaluatorFacts

  /** The counter reading of the parentheses, on tokens. */
  predicate TokensCloseFrom(ts: seq<Token>, depth: nat)
    decreases |ts|
  {
    if ts == [] then depth == 0
    else if ts[0] == LParen then TokensCloseFrom(ts[1..], depth + 1)
    else if ts[0] == RParen then depth > 0 && TokensCloseFrom(ts[1..], depth - 1)
    else TokensCloseFrom(ts[1..], depth)
  }

  /** The number of '(' markers on an operator stack. */
  function OpenCount(ops: seq<Op>): nat
  {
    if ops == [] then 0 else OpenCount(Pop(ops)) + (if Top(ops) == OpenParen then 1 else 0)
  }

  lemma OpenCountPush(ops: seq<Op>, o: Op)
    ensures OpenCount(ops + [o]) == OpenCount(ops) + (if o == OpenParen then 1 else 0)
  {
    assert Pop(ops + [o]) == ops;
  }

  /** Cutting operators other than '(' off the top keeps the count. */
  lemma {:induction false} OpenCountPrefix(ops: seq<Op>, p: seq<Op>)
    requires p <= ops
    requires forall i :: |p| <= i < |ops| ==> ops[i] != OpenParen
    ensures OpenCount(p) == OpenCount(ops)
    decreases |ops|
  {
    if |p| < |ops| {
      assert Pop(ops)[..|p|] == p;
      OpenCountPrefix(Pop(ops), p);
    } else {
      assert p == ops;
    }
  }

  /** Skipping leading characters that are not parentheses keeps the reading. */
  lemma {:induction false} SkipOtherCharacters(s: string, k: nat, depth: nat)
    requires k <= |s|
    requires forall i :: 0 <= i < k ==> s[i] != '(' && s[i] != ')'
    ensures Parentheses.ClosesFrom(s, depth) == Parentheses.ClosesFrom(s[k..], depth)
    decreases k
  {
    if k > 0 {
      assert s[1..][k - 1..] == s[k..];
      SkipOtherCharacters(s[1..], k - 1, depth);
    }
  }

  /** The counter after reading the character `c` with `depth` open, when
      the reading can go on. */
  function NextDepth(c: char, depth: nat): nat
  {
    if c == '(' then depth + 1 else if c == ')' && depth > 0 then depth - 1 else depth
  }

  lemma {:induction false} LStripPlusKeepsParentheses(s: string, depth: nat)
    ensures Parentheses.ClosesFrom(LStripPlus(s), depth) == Parentheses.ClosesFrom(s, depth)
    decreases |s|
  {
    if s != [] && s[0] == '+' {
      assert LStripPlus(s) == LStripPlus(s[1..]);
      assert Parentheses.ClosesFrom(s, depth) == Parentheses.ClosesFrom(s[1..], depth);
      LStripPlusKeepsParentheses(s[1..], depth);
    } else {
      assert LStripPlus(s) == s;
    }
  }

  lemma {:induction false} RemoveWhitespaceKeepsParentheses(s: string, depth: nat)
    ensures Parentheses.ClosesFrom(RemoveWhitespace(s), depth) == Parentheses.ClosesFrom(s, depth)
    decreases |s|
  {
    if s != [] {
      RemoveWhitespaceKeepsParentheses(s[1..], NextDepth(s[0], depth));
      if IsSpace(s[0]) {
        assert RemoveWhitespace(s) == RemoveWhitespace(s[1..]);
        assert Parentheses.ClosesFrom(s, depth) == Parentheses.ClosesFrom(s[1..], depth);
      } else {
        var r := [s[0]] + RemoveWhitespace(s[1..]);
        assert RemoveWhitespace(s) == r;
        assert r[0] == s[0] && r[1..] == RemoveWhitespace(s[1..]);
      }
    }
  }

  lemma TokensCloseFromCons(t: Token, rest: seq<Token>, depth: nat)
    ensures TokensCloseFrom([t] + rest, depth) ==
      if t == LParen then TokensCloseFrom(rest, depth + 1)
      else if t == RParen then depth > 0 && TokensCloseFrom(rest, depth - 1)
      else TokensCloseFrom(rest, depth)
  {
    assert ([t] + rest)[0] == t && ([t] + rest)[1..] == rest;
  }

  lemma SymbolTokenParentheses(c: char)
    requires c in "-+×÷^()"
    ensures SymbolToken(c) == LParen <==> c == '('
    ensures SymbolToken(c) == RParen <==> c == ')'
  {
  }

  /** One step of the tokenizer keeps the reading, given that the rest of the
      text is read the same way as its tokens. */
  lemma ScanStep(s: string, depth: nat)
    requires s != []
    requires forall k, d: nat :: 0 < k <= |s| ==>
      TokensCloseFrom(Scan(s[k..]), d) == Parentheses.ClosesFrom(s[k..], d)
    ensures TokensCloseFrom(Scan(s), depth) == Parentheses.ClosesFrom(s, depth)
  {
    var j := DigitRunEnd(s, 0);
    if j + 1 < |s| && s[j] == '.' && IsDigit(s[j + 1]) {
      var k := DigitRunEnd(s, j + 1);
      SkipOtherCharacters(s, k, depth);
      TokensCloseFromCons(Num(DecimalValue(s[..j], s[j + 1..k])), Scan(s[k..]), depth);
    } else if j > 0 {
      SkipOtherCharacters(s, j, depth);
      TokensCloseFromCons(Num(DigitsValue(s[..j]) as real), Scan(s[j..]), depth);
    } else if s[0] in "-+×÷^()" {
      SymbolTokenParentheses(s[0]);
      TokensCloseFromCons(SymbolToken(s[0]), Scan(s[1..]), depth);
    } else {
      assert Parentheses.ClosesFrom(s, depth) == Parentheses.ClosesFrom(s[1..], depth);
    }
  }

  /** The tokenizer keeps the parentheses of the text, in order, and nothing
      else it produces is a parenthesis. */
  lemma {:induction false} ScanKeepsParentheses(s: string, depth: nat)
    ensures TokensCloseFrom(Scan(s), depth) == Parentheses.ClosesFrom(s, depth)
    decreases |s|
  {
    if s != [] {
      forall k, d: nat | 0 < k <= |s|
        ensures TokensCloseFrom(Scan(s[k..]), d) == Parentheses.ClosesFrom(s[k..], d)
      {
        ScanKeepsParentheses(s[k..], d);
      }
      ScanStep(s, depth);
    } else {
      assert Scan(s) == [];
    }
  }

  /** Only the lookup of '(' fails with KeyError. */
  lemma ApplyNoKeyError(st: Stacks)
    requires st.operators != [] && Top(st.operators) != OpenParen
    ensures Apply(st) != Failure(KeyError)
  {
    var op := Top(st.operators);
    if op != UnaryMinus && |st.values| >= 2 {
      var res := BinaryResult(op, st.values[|st.values| - 2], Top(st.values));
      assert res != Failure(KeyError);
    }
  }

  lemma {:induction false} ReduceForNoKeyError(st: Stacks, incoming: Op)
    requires incoming != OpenParen
    ensures ReduceFor(st, incoming) != Failure(KeyError)
    decreases |st.operators|
  {
    if st.operators != [] && Top(st.operators) != OpenParen && GreaterPrecedence(Top(st.operators), incoming) {
      ApplyNoKeyError(st);
      if Apply(st).Success? {
        ReduceForNoKeyError(Apply(st).value, incoming);
      }
    }
  }

  lemma {:induction false} ApplyUntilOpenNoKeyError(st: Stacks)
    ensures ApplyUntilOpen(st) != Failure(KeyError)
    decreases |st.operators|
  {
    if st.operators != [] && Top(st.operators) != OpenParen {
      ApplyNoKeyError(st);
      if Apply(st).Success? {
        ApplyUntilOpenNoKeyError(Apply(st).value);
      }
    }
  }

  /** No iteration of the token loop raises KeyError: both inner loops stop at '('. */
  lemma StepNoKeyError(ls: LoopState, t: Token)
    ensures Step(ls, t) != Failure(KeyError)
  {
    match t
    case RParen => ApplyUntilOpenNoKeyError(ls.stacks);
    case Num(_) =>
    case Minus =>
    case LParen =>
    case _ => ReduceForNoKeyError(ls.stacks, BinaryOp(t));
  }

  lemma {:induction false} RunFromNoKeyError(ls: LoopState, ts: seq<Token>)
    ensures RunFrom(ls, ts) != Failure(KeyError)
    decreases |ts|
  {
    if ts != [] {
      StepNoKeyError(ls, ts[0]);
      if Step(ls, ts[0]).Success? {
        RunFromNoKeyError(Step(ls, ts[0]).value, ts[1..]);
      }
    }
  }

  /** Each iteration changes the number of pending '(' by what its token
      opens or closes. */
  lemma StepOpenCount(ls: LoopState, t: Token)
    requires Step(ls, t).Success?
    ensures OpenCount(Step(ls, t).value.stacks.operators) + (if t == RParen then 1 else 0) ==
      OpenCount(ls.stacks.operators) + (if t == LParen then 1 else 0)
  {
    var ops := ls.stacks.operators;
    match t
    case Minus =>
      OpenCountPush(ops, UnaryMinus);
      OpenCountPush(ops, OpSub);
    case Num(_) =>
    case LParen =>
      OpenCountPush(ops, OpenParen);
    case RParen =>
      ApplyUntilOpenRemovesNoOpen(ls.stacks);
      var s := ApplyUntilOpen(ls.stacks).value;
      OpenCountPrefix(ops, s.operators);
    case _ =>
      ReduceForRemovesOutranking(ls.stacks, BinaryOp(t));
      var s := ReduceFor(ls.stacks, BinaryOp(t)).value;
      OpenCountPrefix(ops, s.operators);
      OpenCountPush(s.operators, BinaryOp(t));
  }

  /** A token loop over closed parentheses, started with `depth` of them
      pending, ends with none pending. */
  lemma {:induction false} RunFromClosesAll(ls: LoopState, ts: seq<Token>, depth: nat)
    requires OpenCount(ls.stacks.operators) == depth && TokensCloseFrom(ts, depth)
    requires RunFrom(ls, ts).Success?
    ensures OpenCount(RunFrom(ls, ts).value.stacks.operators) == 0
    decreases |ts|
  {
    if ts != [] {
      StepOpenCount(ls, ts[0]);
      var next := Step(ls, ts[0]).value;
      var d: nat := if ts[0] == LParen then depth + 1 else if ts[0] == RParen then depth - 1 else depth;
      RunFromClosesAll(next, ts[1..], d);
    }
  }

  /** The final loop over operators holding no '(' never raises KeyError. */
  lemma {:induction false} DrainNoKeyError(st: Stacks)
    requires OpenCount(st.operators) == 0
    ensures Drain(st) != Failure(KeyError)
    decreases |st.operators|
  {
    if st.operators != [] {
      ApplyNoKeyError(st);
      if Apply(st).Success? {
        DrainNoKeyError(Apply(st).value);
      }
    }
  }

  /** Token sequences whose parentheses close never make the evaluation
      raise KeyError. */
  lemma ClosedTokensNoKeyError(ts: seq<Token>)
    requires TokensCloseFrom(ts, 0)
    ensures EvalTokens(ts) != Failure(KeyError)
  {
    RunFromNoKeyError(Init, ts);
    if RunFrom(Init, ts).Success? {
      RunFromClosesAll(Init, ts, 0);
      DrainNoKeyError(RunFrom(Init, ts).value.stacks);
    }
  }

  /** custom_eval never raises KeyError, whatever the text: a text whose
      parentheses do not balance is refused before it is tokenized. */
  lemma EvaluateNeverKeyError(expression: string, digitBeforeFunction: bool, shapeMatches: bool)
    ensures Evaluate(expression, digitBeforeFunction, shapeMatches) != Failure(KeyError)
  {
    if !digitBeforeFunction && shapeMatches && Parentheses.Balanced(expression) {
      var stripped := LStripPlus(expression);
      var compact := RemoveWhitespace(stripped);
      Parentheses.BalancedIffClosesFrom(expression);
      LStripPlusKeepsParentheses(expression, 0);
      RemoveWhitespaceKeepsParentheses(stripped, 0);
      ScanKeepsParentheses(compact, 0);
      ClosedTokensNoKeyError(Scan(compact));
    }
  }

  /** Without the parenthesis check, an unclosed '(' would reach the final
      loop: in `a × (b` the '(' is applied as an operator, a KeyError. */
  lemma UnclosedParenthesisRaisesKeyError(a: real, b: real)
    ensures EvalTokens([Num(a), Times, LParen, Num(b)]) == Failure(KeyError)
  {
    var s1 := LoopState(Stacks([a], []), false);
    var s2 := LoopState(Stacks([a], [OpMul]), true);
    var s3 := LoopState(Stacks([a], [OpMul, OpenParen]), true);
    var s4 := LoopState(Stacks([a, b], [OpMul, OpenParen]), false);
    EvaluatorFacts.StepTo(Init, Num(a), s1);
    EvaluatorFacts.StepTo(s1, Times, s2);
    EvaluatorFacts.StepTo(s2, LParen, s3);
    EvaluatorFacts.StepTo(s3, Num(b), s4);
    EvaluatorFacts.RunCons(s3, Num(b), [], s4);
    EvaluatorFacts.RunCons(s2, LParen, [Num(b)], s3);
    EvaluatorFacts.RunCons(s1, Times, [LParen, Num(b)], s2);
    EvaluatorFacts.RunCons(Init, Num(a), [Times, LParen, Num(b)], s1);
    assert Apply(s4.stacks) == Failure(KeyError);
  }
}
