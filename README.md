# Debian-Calculator core in Dafny

This project models the arithmetic core of the calculator:

- `custom_eval`: the expression evaluator behind the calculator's "=" key. It uses two stacks, one for operands and one for operators.
- `is_valid_parentheses`: its parenthesis check.
- `_format_number`: the thousands-separator formatting applied to results.
- The operations the evaluator calls from `math_lib` (add, sub, mul, div) and `extended_math_lib` (factorial, power, sqrt).

Python numbers are modelled as mathematical reals, so nothing is rounded. Every exception is returned as a `Failure` value instead of being raised:

- `ValueError`, and the `ZeroDivisionError` of `div`, carry the source's own messages. The one exception is the reciprocal in `power`; see "## Left out".
- `IndexError` stands for popping an empty list.
- `KeyError` stands for applying the '(' marker as an operator.

Modules:

- `Results`: the error and result types.
- `MathLib`, `ExtendedMathLib`: the two libraries.
- `Parentheses`: the stack-based check, and its equivalence to a prefix-count definition and to a left-to-right counter.
- `Lexer`:
  - the leading-'+' strip;
  - whitespace removal;
  - the scanner for `\d*\.\d+|\d+|[-+×÷^()]`, which skips characters nothing matches.
- `Evaluator`:
  - one function per part of the algorithm: applying an operator, the precedence loop, the loop on ')', the final drain, one token step, and the whole evaluation;
  - the methods `CustomEval`, `ProcessToken`, `DrainOperators`, `ApplyOperator` and `BinaryOperation`. These run the algorithm as the source does, reassigning the two stack lists in loops, and are proved to compute those functions.
- `EvaluatorFacts`: what the evaluator computes on representative token sequences with symbolic operands, and on the text "x+y-z". This includes the IndexError, ValueError and ZeroDivisionError cases. The KeyError case is in `ParenSafety`.
- `ParenSafety`: the proof that `custom_eval` never raises `KeyError`.
- `NumberFormat`: `_format_number`, its round trip, and the corrected version described under Findings.
- `MinusFix`: the evaluator with the corrected '-' rule described under Findings.

## Model

| member | source | states |
|---|---|---|
| MathLib.Add | src/math_lib.py:19-20 | the sum minus either operand gives the other operand |
| MathLib.Sub | src/math_lib.py:28-29 | adding the subtrahend back to the difference gives the minuend |
| MathLib.Mul | src/math_lib.py:37-38 | the product is zero, positive or negative exactly as the operands' signs dictate |
| MathLib.Div | src/math_lib.py:47-50 | fails exactly when the divisor is 0, with ZeroDivisionError("Cannot divide by 0."); otherwise quotient × divisor = dividend |
| MathLib.AddCommutes | src/math_lib.py:19-20 | add(a, b) = add(b, a) |
| MathLib.SubAddInverse | src/math_lib.py:19-29 | sub then add by the same amount is the identity, and so is add then sub |
| MathLib.DivMulInverse | src/math_lib.py:47-50 | for a non-zero divisor, division succeeds and multiplying back gives the dividend |
| ExtendedMathLib.Fact | src/extended_math_lib.py:24-26 | the product 1·2·…·n is at least 1 and at least n |
| ExtendedMathLib.Factorial | src/extended_math_lib.py:21-27 | fails exactly for negative n, with the source's ValueError; otherwise the accumulator loop returns n! |
| ExtendedMathLib.FactorialSmallValues | src/tests/UT_math_lib.py:82-84 | 0! = 1, 1! = 1, 5! = 120 |
| ExtendedMathLib.Pow | src/extended_math_lib.py:44-46 | no contract of its own: the loop's repeated product; PowIsZero, PowNegatedBase and Evaluator.PowerValueRecurrence state its laws |
| ExtendedMathLib.PowIsZero | src/extended_math_lib.py:44-48 | a repeated product is zero exactly when the base is zero and at least one factor is taken, which is when 1 / result divides by zero |
| ExtendedMathLib.PowNegatedBase | src/gui.py:68-71 | negating the base negates an odd power and keeps an even one, so the odd-exponent sign split of apply_operator gives left^right |
| ExtendedMathLib.Power | src/extended_math_lib.py:35-52 | exponent 0 gives 1; an integral exponent gives the base multiplied \|exponent\| times, a negative one the reciprocal (ZeroDivisionError for base 0, otherwise result × base^\|e\| = 1); a fractional exponent is outside the model |
| ExtendedMathLib.SqrtGuards | src/extended_math_lib.py:60-69 | fails exactly for negative n, with the source's ValueError; 0 returns a root whose square is 0; a positive n starts the iteration from a positive guess |
| ExtendedMathLib.NewtonStep | src/extended_math_lib.py:71 | no contract of its own: one update of the guess; NewtonStepBounds states its bounds |
| ExtendedMathLib.NewtonStepBounds | src/extended_math_lib.py:69-74 | from a positive guess, one step stays positive with its square ≥ n, and from a guess at or above the root it does not increase |
| Parentheses.IsValidParentheses | src/gui.py:27-36 | the stack scan returns true exactly when no prefix closes more '(' than it opened and the counts are equal |
| Parentheses.OtherCharactersIgnored | src/gui.py:29-35 | inserting any character other than '(' and ')' anywhere does not change the verdict |
| Parentheses.CountAppend | src/gui.py:29-35 | occurrence counts add up over concatenation |
| Parentheses.ClosesFromIff | src/gui.py:27-36 | a left-to-right open-parenthesis counter accepts exactly the texts meeting the prefix-count condition, at every starting depth |
| Parentheses.BalancedIffClosesFrom | src/gui.py:27-36 | the check's verdict equals the counter reading that starts at depth 0 |
| Lexer.LStripPlus | src/gui.py:128 | removes a prefix made only of '+' and leaves a text that does not start with '+' |
| Lexer.RemoveWhitespace | src/gui.py:130 | the result is no longer than the input and contains no whitespace; RemoveWhitespaceAppend and RemoveWhitespaceChar pin down the rest |
| Lexer.RemoveWhitespaceAppend | src/gui.py:130 | removing whitespace from a + b is removing it from a, then from b, and concatenating |
| Lexer.RemoveWhitespaceChar | src/gui.py:130 | a single whitespace character is removed and any other character is kept, so with the previous lemma every non-whitespace character stays, in order |
| Lexer.PreparationIdempotent | src/gui.py:128-130 | applying either preparation step twice is the same as applying it once |
| Lexer.DigitRunEnd | src/gui.py:133 | returns the end of the maximal run of digits starting at i |
| Lexer.DecimalValue | src/gui.py:150-151 | float() of a digits-only numeral is non-negative |
| Lexer.SymbolToken | src/gui.py:133 | each of `-+×÷^()` becomes an operator or parenthesis token, never a number |
| Lexer.Scan | src/gui.py:133 | every number token is non-negative, because a sign is always a token of its own |
| Evaluator.Precedence | src/gui.py:87-89 | no contract of its own: the rank table, 1 for + -, 2 for × ÷, 3 for ^, 4 for 'u-'; PrecedenceTiers states what it decides |
| Evaluator.GreaterPrecedence | src/gui.py:87-89 | no contract of its own: PrecedenceTiers characterizes it tier by tier, in both directions |
| Evaluator.Step | src/gui.py:140-176 | no contract of its own: one iteration of the token loop; ProcessToken runs it imperatively, and StepNoKeyError and StepOpenCount state what every step keeps |
| Evaluator.RunFrom | src/gui.py:140-176 | no contract of its own: the token loop; RunAppend composes it over concatenation and RunFromClosesAll states that closed tokens leave no '(' pending |
| Evaluator.EvalTokens | src/gui.py:140-189 | no contract of its own: the token loop, the drain and the 1e300 check; ClosedTokensNoKeyError and the EvaluatorFacts lemmas state what it computes |
| Evaluator.Evaluate | src/gui.py:108-189 | no contract of its own: custom_eval; CustomEval computes it, EvaluateNeverKeyError and EvaluateBounded hold for every text |
| Evaluator.InOperatorChars | src/gui.py:142 | the substring test `x in '+-×÷^('` holds for every stack entry except 'u-' |
| Evaluator.NoSubstringWithoutFirstChar | src/gui.py:142 | a string whose first character does not occur in s is not a substring of s |
| Evaluator.PrecedenceTiers | src/gui.py:87-89 | greater_precedence(a, b) holds exactly unless a is in a looser tier than b: + - below × ÷ below ^ below 'u-'; operators of one tier apply left to right |
| Evaluator.PowerValue | src/extended_math_lib.py:39-48 | no contract of its own: the power `^` computes at src/gui.py:69-71 for a non-negative exponent; PowerValueRecurrence states its laws |
| Evaluator.PowerValueRecurrence | src/extended_math_lib.py:39-48 | the power `^` computes for a non-negative exponent: b^0 = 1, exactly the integral exponents are inside the model, and b^(e+1) = b^e · b |
| Evaluator.BinaryResult | src/gui.py:60-74 | + - × give the sum, difference and product; ÷ fails exactly on a zero divisor, with math_lib's error, and otherwise quotient × divisor = dividend; ^ refuses every negative exponent with "Neg. exp. not allowed" and otherwise gives left^right; '(' is a KeyError |
| Evaluator.Apply | src/gui.py:53-79 | on success the top operator is popped and every operand below the top one is kept |
| Evaluator.ApplyOperands | src/gui.py:53-79 | 'u-' negates the top operand, failing with IndexError exactly when there is none; a binary operator needs two operands (IndexError otherwise), replaces them with BinaryResult(left, right), or fails as that does |
| Evaluator.ReduceFor | src/gui.py:171-174 | the loop before pushing an operator only pops, keeps the operands below the top, and stops with the stack empty, at '(' or at an operator ranked below the incoming one |
| Evaluator.ReduceForRemovesOutranking | src/gui.py:171-173 | every operator it removes is a non-'(' operator ranked at least as high as the incoming one |
| Evaluator.ApplyUntilOpen | src/gui.py:164-165 | the loop on ')' only pops and stops with the stack empty or '(' on top |
| Evaluator.ApplyUntilOpenRemovesNoOpen | src/gui.py:164-165 | it removes no '(' |
| Evaluator.Drain | src/gui.py:179-180 | the final loop leaves no operator and keeps the operands below the top |
| Evaluator.BinaryOp | src/gui.py:168-174 | the five operator tokens map to binary operators, never to '(' or 'u-' |
| Evaluator.Finish | src/gui.py:182-186 | no contract of its own: values[0] with the 1e300 check; EvaluateBounded states what it guarantees for every text |
| Evaluator.EvaluateBounded | src/gui.py:182-189 | for every text and every outcome of the two pattern gates, a value custom_eval returns is at most 1e300 in magnitude |
| Evaluator.ApplyOperator | src/gui.py:53-79 | the pop-and-push method computes Apply |
| Evaluator.BinaryOperation | src/gui.py:60-74 | the method that calls the libraries computes BinaryResult |
| Evaluator.ProcessToken | src/gui.py:140-176 | one pass of the token-loop body, with its two inner while loops, computes Step |
| Evaluator.DrainOperators | src/gui.py:179-180 | the final while loop computes Drain |
| Evaluator.CustomEval | src/gui.py:108-189 | custom_eval computes Evaluate: the two input gates, the parenthesis check, preparation, tokenizing, the token loop, the drain and the overflow check |
| EvaluatorFacts.MultiplicationBindsTighter | src/gui.py:168-174 | a + b × c evaluates to a + b·c |
| EvaluatorFacts.SubtractionAfterOperatorIsASign | src/gui.py:142-147 | as written, in a + b - c the '-' becomes a sign; the drain leaves [a, b - c] and the evaluation returns a |
| EvaluatorFacts.DigitSumThenDifferenceText | src/gui.py:128-189 | as written, for any digits x, y and z, custom_eval on the text "x+y-z" returns x |
| EvaluatorFacts.OnePlusTwoMinusThreeGivesOne | src/gui.py:142-147 | as written, custom_eval("1+2-3") returns 1 |
| EvaluatorFacts.ParenthesesGroupFirst | src/gui.py:158-166 | (a + b) × c evaluates to (a + b)·c |
| EvaluatorFacts.DivisionByZeroRaises | src/math_lib.py:47-49 | a ÷ 0 fails with ZeroDivisionError("Cannot divide by 0.") |
| EvaluatorFacts.LargeResultRefused | src/gui.py:185-186 | a × b with \|a·b\| > 1e300 fails with "Result is too large." |
| EvaluatorFacts.NegativeExponentRefused | src/gui.py:62-67 | a ^ -b with b > 0 reads the '-' as a sign and fails with "Neg. exp. not allowed" |
| EvaluatorFacts.EmptyParenthesesHaveNoValue | src/gui.py:182 | `()` leaves no operand, so values[0] is an IndexError |
| EvaluatorFacts.UnmatchedCloseRaises | src/gui.py:162-166 | `a )` pops an empty operator list, an IndexError |
| EvaluatorFacts.LeadingMinusNegates | src/gui.py:142-155 | a leading '-' negates its operand |
| EvaluatorFacts.DivisionIsLeftAssociative | src/gui.py:171-174 | a ÷ b ÷ c evaluates to (a ÷ b) ÷ c |
| EvaluatorFacts.RunAppend | src/gui.py:140-176 | the loop over xs + ys is the loop over xs, then the loop over ys from where it stopped |
| ParenSafety.LStripPlusKeepsParentheses | src/gui.py:128 | stripping leading '+' keeps the counter reading of the parentheses |
| ParenSafety.RemoveWhitespaceKeepsParentheses | src/gui.py:130 | removing whitespace keeps the counter reading of the parentheses, at every depth |
| ParenSafety.ScanKeepsParentheses | src/gui.py:133 | the token sequence opens and closes exactly as the text does |
| ParenSafety.StepNoKeyError | src/gui.py:164-174 | no token step raises KeyError, because both inner loops stop at '(' |
| ParenSafety.StepOpenCount | src/gui.py:140-176 | each step changes the number of pending '(' by +1 for '(', -1 for ')', and 0 otherwise |
| ParenSafety.RunFromClosesAll | src/gui.py:140-176 | a loop over tokens whose parentheses close ends with no '(' pending |
| ParenSafety.DrainNoKeyError | src/gui.py:179-180 | the final loop over operators holding no '(' never raises KeyError |
| ParenSafety.ClosedTokensNoKeyError | src/gui.py:140-180 | tokens whose parentheses close never make the evaluation raise KeyError |
| ParenSafety.EvaluateNeverKeyError | src/gui.py:113-180 | custom_eval never raises KeyError, whatever the text |
| ParenSafety.UnclosedParenthesisRaisesKeyError | src/gui.py:179-180 | without the check, `a × (b` reaches the final loop with '(' pending, which raises KeyError |
| NumberFormat.Digits | src/gui.py:1036 | the decimal numeral of n is a non-empty run of digits that starts with '0' only when it is the numeral 0 |
| NumberFormat.ParseInt | src/gui.py:1031 | int() succeeds exactly on an optional sign followed by digits; anything else is its ValueError |
| NumberFormat.Group | src/gui.py:1036 | no contract of its own: the digit grouping of '{:,}'; GroupRoundTrip and GroupCommaPositions state what it produces |
| NumberFormat.FormatThousands | src/gui.py:1036 | no contract of its own: '{:,}'.format(n); FormatThousandsRoundTrip states that it reads back as n |
| NumberFormat.FormatNumber | src/gui.py:1027-1036 | no contract of its own: _format_number as written; FormatNumberParts states what it keeps and NegativeFractionLosesSign what it loses |
| NumberFormat.FormatNumberSigned | src/gui.py:1027-1036 | no contract of its own: _format_number with the sign taken from the text; FormatNumberSignedRoundTrip states its round trip |
| NumberFormat.RemoveCommas | src/gui.py:1036 | the result is no longer than the text and contains no comma |
| NumberFormat.IndexOf | src/gui.py:1030 | the position of the first occurrence, or the length when there is none |
| NumberFormat.GroupRoundTrip | src/gui.py:1036 | deleting the separators of a grouped digit string gives the digits back |
| NumberFormat.GroupCommaPositions | src/gui.py:1036 | the grouped string has \|d\| + (\|d\|-1)/3 characters, with a ',' exactly at every fourth place from the right |
| NumberFormat.DigitsValueOfDigits | src/gui.py:1036 | the numeral of n reads back as n |
| NumberFormat.FormatThousandsRoundTrip | src/gui.py:1036 | '{:,}'.format(n) with its commas deleted is read back by int() as n |
| NumberFormat.FormatNumberParts | src/gui.py:1027-1036 | the fraction text is kept verbatim after the '.', and the integer part with its commas deleted reads back as the value int() read from the input |
| NumberFormat.NegativeFractionLosesSign | src/gui.py:1029-1032 | as written, "-0.5" is displayed as "0.5" |
| NumberFormat.FormatNumberSignedRoundTrip | src/gui.py:1027-1036 | corrected: for every positional numeral (optional '-', digits without leading zeros, optional '.' and digits), deleting the commas gives the text back, sign included |
| MinusFix.AdditiveChainLeftToRight | src/gui.py:142-147 | corrected: any chain x0 ± x1 ± … ± xn evaluates left to right to its arithmetic value |
| MinusFix.SumThenDifference | src/gui.py:142-147 | corrected: a + b - c evaluates to a + b - c |

## Left out

- The regular-expression gates at src/gui.py:109 and 113 are taken as boolean parameters of `Evaluate` and `CustomEval`. The parenthesis check beside the second one is modelled.
- The single-operand shortcut (src/gui.py:114-124: `x!(`, `√x(`, `ln(`) is not followed. It returns `OutsideModel`. `ln` is not defined in the files modelled.
- Evaluator.PowerValue: a fractional exponent (`base ** exponent`) returns `OutsideModel`, because it is a floating-point library call. apply_operator turns every integral float result into an int (src/gui.py:77-78), so a computed exponent, as in "2^(1+2)", reaches `power` as a Python int and takes the `base ** exponent` branch (src/extended_math_lib.py:52) instead of the loop. The model gives the repeated product in both cases; on exact values the two agree, and they differ only at floating-point overflow, which is not modelled (next lines).
- ExtendedMathLib.Power: the ZeroDivisionError for the reciprocal of a zero base carries "division by zero". Python's wording depends on the operand types, and for the float base the source receives it is "float division by zero" (src/extended_math_lib.py:48). The model does not distinguish these.
- ExtendedMathLib.SqrtGuards: the Newton loop itself is left out, because it stops on a floating-point tolerance (1e-6). Its guards and one step are modelled.
- Floating point: operands are reals, so rounding is not modelled, and neither is the conversion of an integral result to int (src/gui.py:77-78), which does not change the value.
- Evaluator.Finish and Evaluator.BinaryResult: inf, nan and OverflowError are not modelled, so the 1e300 guard (src/gui.py:185) is modelled for exact real values only. In the source, "(10^400)-(10^400)" overflows to inf in the loop of `power`, inf - inf is nan, and `abs(nan) > 1e300` is false, so nan is returned where the model returns 0; and "10^(399+1)" raises OverflowError from `10.0 ** 400` where the model returns "Result is too large.".
- NumberFormat.FormatNumberSignedRoundTrip: proved for positional numerals only. Texts in exponent form, `inf` and `nan` are outside it: '1e-05', 'inf' and 'nan' have no '.', so int() raises ValueError in the source and the model alike; '1.2345678901234567e+19' is split at its '.' and displayed unchanged, but the lemma does not cover it.
- Lexer.RemoveWhitespace and Lexer.Scan: `\d` and `\s` are taken as their ASCII meaning. Unicode digits and whitespace are not modelled.
- NumberFormat.ParseInt: int() also accepts surrounding whitespace and underscores. The model accepts only the texts str() produces, and the repr of the argument in the error message is not modelled.
- `previous_token` is kept only as the answer to `previous_token in '+-×÷^('`, the only question the loop asks of it.
- The PyQt5 user interface, the key handling and `stddev.py` are not part of this model.

## Findings

| source | as written | input that shows it | evidently intended | confidence | as-written member | corrected member |
|---|---|---|---|---|---|---|
| src/gui.py:1029-1032 | the integer part is read with int(), so the sign of "-0" is lost | _format_number("-0.5"), the display of 0 - 0.5, gives "0.5" | the displayed number keeps its sign | high, not executed | NumberFormat.NegativeFractionLosesSign | NumberFormat.FormatNumberSignedRoundTrip |
| src/gui.py:142 | a '-' becomes the sign 'u-' whenever `+ - × ÷ ^ (` is on top of the operator stack, even right after an operand | "1+2-3" evaluates to 1: -3 is pushed, 2 + (-3) is left above 1, and values[0] is 1 | a '-' directly after an operand is subtraction, so "1+2-3" is 0 | high, not executed | EvaluatorFacts.OnePlusTwoMinusThreeGivesOne | MinusFix.AdditiveChainLeftToRight |
