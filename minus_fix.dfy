/** custom_eval with its first '-' test corrected. As written, a '-' is a
    sign also when the operator on top of the stack is one of `+ - × ÷ ^ (`,
    even right after an operand (so `1 + 2 - 3` gives 1). Here that clause
    is dropped: a '-' is a sign only before any operand or right after an
    operator or '(' token, and a subtraction otherwise, which then goes
    through the source's other two branches unchanged. */
module MinusFix {
  import opened Results
  import opened Lexer
  import opened Evaluator

  /** One iteration of the token loop with the corrected '-' test. */
  function StepFixed(ls: LoopState, t: Token): Result<LoopState>
  {
    var vals := ls.stacks.values;
    var ops := ls.stacks.operators;
    if t == Minus && vals != [] && !ls.previousIsOperatorChar then
      if ops != [] && !InOperatorChars(Top(ops)) then
        Success(LoopState(Stacks(vals, ops + [OpSub]), true))
      else
        match ReduceFor(ls.stacks, OpSub)
        case Failure(e) => Failure(e)
        case Success(s) => Success(LoopState(Stacks(s.values, s.operators + [OpSub]), true))
    else
      Step(ls, t)
  }

  function RunFixed(ls: LoopState, ts: seq<Token>): Result<LoopState>
    decreases |ts|
  {
    if ts == [] then Success(ls)
    else
      match StepFixed(ls, ts[0])
      case Failure(e) => Failure(e)
      case Success(next) => RunFixed(next, ts[1..])
  }

  function EvalTokensFixed(ts: seq<Token>): Result<real>
  {
    match RunFixed(Init, ts)
    case Failure(e) => Failure(e)
    case Success(ls) =>
      match Drain(ls.stacks)
      case Failure(e) => Failure(e)
      case Success(st) => Finish(st)
  }

  /** One `+ x` or `- x` of a sum. */
  datatype Term = Term(subtract: bool, operand: real)

  /** The tokens of the terms, in order. */
  function TermTokens(ts: seq<Term>): seq<Token>
  {
    if ts == [] then []
    else [SignToken(ts[0]), Num(ts[0].operand)] + TermTokens(ts[1..])
  }

  /** `acc` with the term `t` added or subtracted. */
  function Combine(acc: real, t: Term): real
  {
    if t.subtract then acc - t.operand else acc + t.operand
  }

  /** The terms added to or subtracted from `acc`, left to right. */
  function SumFrom(acc: real, ts: seq<Term>): real
    decreases |ts|
  {
    if ts == [] then acc else SumFrom(Combine(acc, ts[0]), ts[1..])
  }

  function AdditiveOp(t: Term): Op
  {
    if t.subtract then OpSub else OpAdd
  }

  function SignToken(t: Term): Token
  {
    if t.subtract then Minus else Plus
  }

  /** The loop state with `v` and the operand of `t` on the operand stack
      and the operator of `t` pending between them. */
  function Pending(v: real, t: Term): LoopState
  {
    LoopState(Stacks([v, t.operand], [AdditiveOp(t)]), false)
  }

  /** The token loop followed by the final drain, from `ls`. */
  function RunAndDrain(ls: LoopState, ts: seq<Token>): Result<Stacks>
  {
    match RunFixed(ls, ts)
    case Failure(e) => Failure(e)
    case Success(last) => Drain(last.stacks)
  }

  lemma DrainPending(v: real, t: Term)
    ensures Drain(Pending(v, t).stacks) == Success(Stacks([Combine(v, t)], []))
  {
    var st := Pending(v, t).stacks;
    assert st.values[..0] == [];
    assert Apply(st).value.values == [Combine(v, t)];
  }

  /** Reading the operator of the term `u` applies the pending one. */
  lemma StepOperatorAfterPending(v: real, t: Term, u: Term)
    ensures StepFixed(Pending(v, t), SignToken(u)) ==
      Success(LoopState(Stacks([Combine(v, t)], [AdditiveOp(u)]), true))
  {
    var st := Pending(v, t).stacks;
    var c := Combine(v, t);
    assert st.values[..0] == [];
    assert Apply(st).value.values == [c];
    assert Apply(st).value.operators == [];
    assert ReduceFor(st, AdditiveOp(u)) == ReduceFor(Stacks([c], []), AdditiveOp(u));
    assert ReduceFor(st, AdditiveOp(u)) == Success(Stacks([c], []));
    assert [] + [AdditiveOp(u)] == [AdditiveOp(u)];
  }

  lemma StepOperandAfterOperator(c: real, u: Term)
    ensures StepFixed(LoopState(Stacks([c], [AdditiveOp(u)]), true), Num(u.operand)) == Success(Pending(c, u))
  {
    assert [c] + [u.operand] == [c, u.operand];
  }

  lemma RunTwo(ls: LoopState, t1: Token, t2: Token, rest: seq<Token>, mid: LoopState, next: LoopState)
    requires StepFixed(ls, t1) == Success(mid) && StepFixed(mid, t2) == Success(next)
    ensures RunFixed(ls, [t1, t2] + rest) == RunFixed(next, rest)
  {
    var ts := [t1, t2] + rest;
    assert ts[0] == t1 && ts[1..] == [t2] + rest;
    assert ([t2] + rest)[0] == t2 && ([t2] + rest)[1..] == rest;
  }

  /** Reading one term after a pending operation applies it and leaves the
      term pending. */
  lemma PendingTerm(v: real, t: Term, ts: seq<Term>)
    requires ts != []
    ensures RunAndDrain(Pending(v, t), TermTokens(ts)) ==
      RunAndDrain(Pending(Combine(v, t), ts[0]), TermTokens(ts[1..]))
  {
    var u := ts[0];
    var c := Combine(v, t);
    assert TermTokens(ts) == [SignToken(u), Num(u.operand)] + TermTokens(ts[1..]);
    StepOperatorAfterPending(v, t, u);
    StepOperandAfterOperator(c, u);
    RunTwo(Pending(v, t), SignToken(u), Num(u.operand), TermTokens(ts[1..]),
      LoopState(Stacks([c], [AdditiveOp(u)]), true), Pending(c, u));
  }

  /** From a pending operation, a sequence of terms is evaluated left to right. */
  lemma {:induction false} PendingChain(v: real, t: Term, ts: seq<Term>)
    ensures RunAndDrain(Pending(v, t), TermTokens(ts)) ==
      Success(Stacks([SumFrom(Combine(v, t), ts)], []))
    decreases |ts|
  {
    if ts == [] {
      DrainPending(v, t);
    } else {
      PendingTerm(v, t, ts);
      PendingChain(Combine(v, t), ts[0], ts[1..]);
    }
  }

  lemma StepFirstTerm(x: real, u: Term)
    ensures StepFixed(LoopState(Stacks([x], []), false), SignToken(u)) ==
      Success(LoopState(Stacks([x], [AdditiveOp(u)]), true))
  {
    assert [] + [AdditiveOp(u)] == [AdditiveOp(u)];
  }

  /** Corrected: a chain `x0 ± x1 ± … ± xn` of additions and subtractions is
      evaluated left to right, as arithmetic says. */
  lemma AdditiveChainLeftToRight(x0: real, ts: seq<Term>)
    requires Abs(SumFrom(x0, ts)) <= 1e300
    ensures EvalTokensFixed([Num(x0)] + TermTokens(ts)) == Success(SumFrom(x0, ts))
  {
    var s1 := LoopState(Stacks([x0], []), false);
    assert StepFixed(Init, Num(x0)).value.stacks.values == [x0];
    assert StepFixed(Init, Num(x0)) == Success(s1);
    var all := [Num(x0)] + TermTokens(ts);
    assert all[0] == Num(x0) && all[1..] == TermTokens(ts);
    assert RunFixed(Init, all) == RunFixed(s1, TermTokens(ts));
    if ts == [] {
      assert Drain(s1.stacks) == Success(s1.stacks);
    } else {
      var u := ts[0];
      assert TermTokens(ts) == [SignToken(u), Num(u.operand)] + TermTokens(ts[1..]);
      StepFirstTerm(x0, u);
      StepOperandAfterOperator(x0, u);
      RunTwo(s1, SignToken(u), Num(u.operand), TermTokens(ts[1..]),
        LoopState(Stacks([x0], [AdditiveOp(u)]), true), Pending(x0, u));
      PendingChain(x0, u, ts[1..]);
      assert SumFrom(x0, ts) == SumFrom(Combine(x0, u), ts[1..]);
    }
  }

  /** Corrected: `a + b - c` is a + b - c. */
  lemma SumThenDifference(a: real, b: real, c: real)
    requires Abs(a + b - c) <= 1e300
    ensures EvalTokensFixed([Num(a), Plus, Num(b), Minus, Num(c)]) == Success(a + b - c)
  {
    var ts := [Term(false, b), Term(true, c)];
    assert TermTokens(ts[1..][1..]) == [];
    assert TermTokens(ts[1..]) == [Minus, Num(c)];
    assert TermTokens(ts) == [Plus, Num(b), Minus, Num(c)];
    assert SumFrom(a, ts) == SumFrom(a + b, ts[1..]) == SumFrom(a + b - c, ts[1..][1..]);
    AdditiveChainLeftToRight(a, ts);
    assert [Num(a)] + TermTokens(ts) == [Num(a), Plus, Num(b), Minus, Num(c)];
  }
}
