/** The text preparation and tokenizer of custom_eval (src/gui.py): the
    leading-'+' strip, the whitespace removal and the scanner
    `\d*\.\d+|\d+|[-+×÷^()]`, whose unmatched characters are skipped. */
module Lexer {

  /** A lexical unit. A number token carries the value `float()` gives its text. */
  datatype Token = Num(value: real) | Plus | Minus | Times | Divide | Caret | LParen | RParen

  predicate IsDigit(c: char)
  {
    '0' <= c <= '9'
  }

  predicate AllDigits(s: string)
  {
    forall i :: 0 <= i < |s| ==> IsDigit(s[i])
  }

  /** The six characters `\s` matches under re.ASCII. */
  predicate IsSpace(c: char)
  {
    c == ' ' || c == '\t' || c == '\n' || c == '\r' || c == '\U{B}' || c == '\U{C}'
  }

  /** `expression.lstrip('+')`: every leading '+' is removed, and nothing else. */
  function LStripPlus(s: string): (r: string)
    ensures |r| <= |s| && r == s[|s| - |r|..]
    ensures r == [] || r[0] != '+'
    ensures forall i :: 0 <= i < |s| - |r| ==> s[i] == '+'
  {
    if s != [] && s[0] == '+' then LStripPlus(s[1..]) else s
  }

  /** `re.sub(r'\s+', '', expression)`: the text without its whitespace, the
      other characters kept in order. */
  function RemoveWhitespace(s: string): (r: string)
    ensures |r| <= |s|
    ensures forall i :: 0 <= i < |r| ==> !IsSpace(r[i])
  {
    if s == [] then []
    else if IsSpace(s[0]) then RemoveWhitespace(s[1..])
    else [s[0]] + RemoveWhitespace(s[1..])
  }

  /** Whitespace removal works character by character: a whitespace
      character disappears, any other stays, and the pieces of a text are
      processed independently, so the non-whitespace characters are kept in
      their order. */
  lemma {:induction false} RemoveWhitespaceAppend(a: string, b: string)
    ensures RemoveWhitespace(a + b) == RemoveWhitespace(a) + RemoveWhitespace(b)
    decreases |a|
  {
    if a != [] {
      assert (a + b)[0] == a[0] && (a + b)[1..] == a[1..] + b;
      RemoveWhitespaceAppend(a[1..], b);
    } else {
      assert a + b == b;
    }
  }

  /** A single character: removed exactly when it is whitespace. */
  lemma RemoveWhitespaceChar(c: char)
    ensures IsSpace(c) ==> RemoveWhitespace([c]) == []
    ensures !IsSpace(c) ==> RemoveWhitespace([c]) == [c]
  {
    assert [c][1..] == [];
  }

  /** Both preparation steps leave their own output unchanged. */
  lemma {:induction false} PreparationIdempotent(s: string)
    ensures LStripPlus(LStripPlus(s)) == LStripPlus(s)
    ensures RemoveWhitespace(RemoveWhitespace(s)) == RemoveWhitespace(s)
  {
    WhitespaceFree(RemoveWhitespace(s));
  }

  lemma {:induction false} WhitespaceFree(s: string)
    requires forall i :: 0 <= i < |s| ==> !IsSpace(s[i])
    ensures RemoveWhitespace(s) == s
  {
    if s != [] {
      WhitespaceFree(s[1..]);
    }
  }

  /** The end of the run of digits that starts at `i`. */
  function DigitRunEnd(s: string, i: nat): (j: nat)
    requires i <= |s|
    ensures i <= j <= |s| && AllDigits(s[i..j])
    ensures forall k :: i <= k < j ==> IsDigit(s[k])
    ensures j < |s| ==> !IsDigit(s[j])
    decreases |s| - i
  {
    if i < |s| && IsDigit(s[i]) then DigitRunEnd(s, i + 1) else i
  }

  /** The value of a string of decimal digits (0 for the empty string). */
  function DigitsValue(d: string): nat
    requires AllDigits(d)
  {
    if d == [] then 0 else DigitsValue(d[..|d| - 1]) * 10 + (d[|d| - 1] as int - '0' as int)
  }

  function Pow10(n: nat): (r: nat)
    ensures r >= 1
  {
    if n == 0 then 1 else 10 * Pow10(n - 1)
  }

  /** `float()` of a numeral `whole.frac` (the whole part may be empty). */
  function DecimalValue(whole: string, frac: string): (r: real)
    requires AllDigits(whole) && AllDigits(frac)
    ensures r >= 0.0
  {
    DigitsValue(whole) as real + DigitsValue(frac) as real / Pow10(|frac|) as real
  }

  /** The single-character token for `c`, if `c` is one of `-+×÷^()`. */
  function SymbolToken(c: char): (t: Token)
    requires c in "-+×÷^()"
    ensures !t.Num?
  {
    match c
    case '-' => Minus
    case '+' => Plus
    case '×' => Times
    case '÷' => Divide
    case '^' => Caret
    case '(' => LParen
    case ')' => RParen
  }

  /** `re.findall(r'\d*\.\d+|\d+|[-+×÷^()]', s)` turned into tokens: at each
      position the first alternative that matches wins, and a character that
      none matches is skipped. Every number token is non-negative: a sign is
      always a token of its own. */
  function Scan(s: string): (ts: seq<Token>)
    ensures forall t :: t in ts && t.Num? ==> t.value >= 0.0
    decreases |s|
  {
    if s == [] then []
    else
      var j := DigitRunEnd(s, 0);
      if j + 1 < |s| && s[j] == '.' && IsDigit(s[j + 1]) then
        var k := DigitRunEnd(s, j + 1);
        [Num(DecimalValue(s[..j], s[j + 1..k]))] + Scan(s[k..])
      else if j > 0 then
        [Num(DigitsValue(s[..j]) as real)] + Scan(s[j..])
      else if s[0] in "-+×÷^()" then
        [SymbolToken(s[0])] + Scan(s[1..])
      else
        Scan(s[1..])
  }
}
