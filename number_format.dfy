/** Calculator._format_number (src/gui.py): the display text of a result,
    with a ',' between every three digits of the integer part. The source
    converts the integer part with int() and prints it with '{:,}'. */
module NumberFormat {
  import opened Results
  import Lexer

  const InvalidLiteralMessage := "invalid literal for int() with base 10"

  /** The decimal numeral of `n`, as str() writes a non-negative int. */
  function Digits(n: nat): (d: string)
    ensures d != [] && Lexer.AllDigits(d)
    ensures d[0] == '0' ==> n == 0 && |d| == 1
  {
    if n < 10 then [('0' as int + n) as char]
    else Digits(n / 10) + [('0' as int + n % 10) as char]
  }

  /** int(s) for the texts str() writes: an optional sign and ASCII digits.
      Anything else is int()'s ValueError. */
  function ParseInt(s: string): (r: Result<int>)
    ensures r.Success? <==> (s != [] && (s[0] == '-' || s[0] == '+') && |s| > 1 && Lexer.AllDigits(s[1..])) ||
                            (s != [] && Lexer.AllDigits(s))
    ensures r.Failure? ==> r.error == ValueError(InvalidLiteralMessage)
  {
    if s != [] && (s[0] == '-' || s[0] == '+') then
      if |s| > 1 && Lexer.AllDigits(s[1..]) then
        Success(if s[0] == '-' then -(Lexer.DigitsValue(s[1..]) as int) else Lexer.DigitsValue(s[1..]))
      else Failure(ValueError(InvalidLiteralMessage))
    else if s != [] && Lexer.AllDigits(s) then Success(Lexer.DigitsValue(s))
    else Failure(ValueError(InvalidLiteralMessage))
  }

  /** '{:,}' on a string of digits: a ',' before each group of three digits
      counted from the right, none in front. */
  function Group(d: string): (g: string)
    decreases |d|
  {
    if |d| <= 3 then d else Group(d[..|d| - 3]) + "," + d[|d| - 3..]
  }

  /** '{:,}'.format(n): the sign, then the grouped digits of the magnitude. */
  function FormatThousands(n: int): string
  {
    (if n < 0 then "-" else "") + Group(Digits(if n < 0 then -n else n))
  }

  /** The text with its commas deleted. */
  function RemoveCommas(s: string): (r: string)
    ensures |r| <= |s|
    ensures forall i :: 0 <= i < |r| ==> r[i] != ','
  {
    if s == [] then [] else (if s[0] == ',' then [] else [s[0]]) + RemoveCommas(s[1..])
  }

  /** The position of the first `c` in `s`, or |s| when there is none. */
  function IndexOf(s: string, c: char): (i: nat)
    ensures i <= |s|
    ensures i < |s| ==> s[i] == c
    ensures forall j :: 0 <= j < i ==> s[j] != c
  {
    if s == [] then 0 else if s[0] == c then 0 else 1 + IndexOf(s[1..], c)
  }

  /** parts[0] of number.split('.'): the text before the first '.'. */
  function IntegerPart(number: string): string
  {
    number[..IndexOf(number, '.')]
  }

  /** parts[1] of number.split('.'): the text between the first '.' and the
      next one (or the end). */
  function FractionPart(number: string): string
    requires '.' in number
  {
    var rest := number[IndexOf(number, '.') + 1..];
    rest[..IndexOf(rest, '.')]
  }

  /** _format_number(number) as written. */
  function FormatNumber(number: string): Result<string>
  {
    if '.' in number then
      match ParseInt(IntegerPart(number))
      case Failure(e) => Failure(e)
      case Success(n) => Success(FormatThousands(n) + "." + FractionPart(number))
    else
      match ParseInt(number)
      case Failure(e) => Failure(e)
      case Success(n) => Success(FormatThousands(n))
  }

  lemma {:induction false} RemoveCommasAppend(a: string, b: string)
    ensures RemoveCommas(a + b) == RemoveCommas(a) + RemoveCommas(b)
    decreases |a|
  {
    if a == [] {
      assert a + b == b;
    } else {
      assert (a + b)[0] == a[0] && (a + b)[1..] == a[1..] + b;
      RemoveCommasAppend(a[1..], b);
    }
  }

  lemma {:induction false} RemoveCommasOfDigits(d: string)
    requires Lexer.AllDigits(d)
    ensures RemoveCommas(d) == d
    decreases |d|
  {
    if d != [] {
      RemoveCommasOfDigits(d[1..]);
    }
  }

  /** Deleting the commas of the grouped digits gives the digits back. */
  lemma {:induction false} GroupRoundTrip(d: string)
    requires Lexer.AllDigits(d)
    ensures RemoveCommas(Group(d)) == d
    decreases |d|
  {
    if |d| <= 3 {
      RemoveCommasOfDigits(d);
    } else {
      var head, tail := d[..|d| - 3], d[|d| - 3..];
      assert Lexer.AllDigits(head) by {
        forall i | 0 <= i < |head| ensures Lexer.IsDigit(head[i]) { assert head[i] == d[i]; }
      }
      assert Lexer.AllDigits(tail) by {
        forall i | 0 <= i < |tail| ensures Lexer.IsDigit(tail[i]) { assert tail[i] == d[|d| - 3 + i]; }
      }
      var gh := Group(head);
      assert Group(d) == (gh + ",") + tail;
      GroupRoundTrip(head);
      RemoveCommasOfDigits(tail);
      RemoveCommasAppend(gh + ",", tail);
      RemoveCommasAppend(gh, ",");
      assert RemoveCommas(",") == [];
      assert RemoveCommas(Group(d)) == head + tail;
      assert head + tail == d;
    }
  }

  /** Where the commas are: exactly at the positions a multiple of four from
      the right end (every fourth character, counted from the right, is a
      ',' and nothing else is), never in front. */
  lemma {:induction false} GroupCommaPositions(d: string)
    requires d != [] && Lexer.AllDigits(d)
    ensures var g := Group(d);
      |g| == |d| + (|d| - 1) / 3 &&
      forall i :: 0 <= i < |g| ==> (g[i] == ',' <==> i > 0 && (|g| - i) % 4 == 0)
    decreases |d|
  {
    if |d| > 3 {
      var head, tail := d[..|d| - 3], d[|d| - 3..];
      GroupCommaPositions(head);
      assert Group(d) == Group(head) + "," + tail;
      assert (|d| - 1) / 3 == (|head| - 1) / 3 + 1 by {
        assert |d| - 1 == (|head| - 1) + 3;
      }
      CommaBeforeLastThree(Group(head), tail);
    }
  }

  /** Appending a ',' and three digits keeps a comma exactly every fourth
      place from the right. */
  lemma CommaBeforeLastThree(gh: string, tail: string)
    requires gh != [] && |tail| == 3 && Lexer.AllDigits(tail)
    requires forall i :: 0 <= i < |gh| ==> (gh[i] == ',' <==> i > 0 && (|gh| - i) % 4 == 0)
    ensures var g := gh + "," + tail;
      forall i :: 0 <= i < |g| ==> (g[i] == ',' <==> i > 0 && (|g| - i) % 4 == 0)
  {
    var g := gh + "," + tail;
    forall i | 0 <= i < |g|
      ensures g[i] == ',' <==> i > 0 && (|g| - i) % 4 == 0
    {
      if i < |gh| {
        assert g[i] == gh[i];
        assert (|g| - i) % 4 == (|gh| - i) % 4 by {
          assert |g| - i == (|gh| - i) + 4;
        }
      } else if i > |gh| {
        assert g[i] == tail[i - |gh| - 1];
        assert 0 < |g| - i < 4;
      } else {
        assert |g| - i == 4;
      }
    }
  }

  /** The numeral of a non-negative int is read back by int(). */
  lemma {:induction false} DigitsValueOfDigits(n: nat)
    ensures Lexer.DigitsValue(Digits(n)) == n
    decreases n
  {
    var d := Digits(n);
    if n >= 10 {
      DigitsValueOfDigits(n / 10);
      assert d[..|d| - 1] == Digits(n / 10);
    } else {
      assert d[..0] == [];
    }
  }

  /** '{:,}' with its commas deleted is read back by int(). */
  lemma FormatThousandsRoundTrip(n: int)
    ensures ParseInt(RemoveCommas(FormatThousands(n))) == Success(n)
  {
    var m: nat := if n < 0 then -n else n;
    UngroupedThousands(n);
    DigitsValueOfDigits(m);
    ParseSignedDigits(Digits(m), n < 0);
  }

  /** '{:,}' with its commas deleted is the sign and the plain digits. */
  lemma UngroupedThousands(n: int)
    ensures RemoveCommas(FormatThousands(n)) == (if n < 0 then "-" else "") + Digits(if n < 0 then -n else n)
  {
    var d := Digits(if n < 0 then -n else n);
    GroupRoundTrip(d);
    RemoveCommasAppend(if n < 0 then "-" else "", Group(d));
    assert RemoveCommas("-") == "-";
    assert RemoveCommas("") == "";
  }

  /** int() reads an optionally negated run of digits as its value. */
  lemma ParseSignedDigits(d: string, negative: bool)
    requires d != [] && Lexer.AllDigits(d)
    ensures ParseInt((if negative then "-" else "") + d) ==
      Success(if negative then -(Lexer.DigitsValue(d) as int) else Lexer.DigitsValue(d))
  {
    if negative {
      assert ("-" + d)[0] == '-' && ("-" + d)[1..] == d;
    } else {
      assert "" + d == d;
      assert d[0] != '-' && d[0] != '+' by { assert Lexer.IsDigit(d[0]); }
    }
  }

  /** _format_number keeps the text after the first '.' (up to any second
      one) verbatim at the end of its result, and before it writes the
      integer part so that, with the commas deleted, int() reads back what it
      read from the input's integer part. */
  lemma FormatNumberParts(number: string)
    requires FormatNumber(number).Success?
    ensures var r := FormatNumber(number).value;
      if '.' in number then
        var f := FractionPart(number);
        |r| > |f| && r[|r| - |f| - 1..] == "." + f &&
        ParseInt(RemoveCommas(r[..|r| - |f| - 1])) == ParseInt(IntegerPart(number))
      else
        ParseInt(RemoveCommas(r)) == ParseInt(number)
  {
    if '.' in number {
      var n := ParseInt(IntegerPart(number)).value;
      var f := FractionPart(number);
      var r := FormatNumber(number).value;
      FormatThousandsRoundTrip(n);
      assert r == FormatThousands(n) + ("." + f);
      assert r[..|r| - |f| - 1] == FormatThousands(n);
    } else {
      FormatThousandsRoundTrip(ParseInt(number).value);
    }
  }

  /** A numeral as str() writes an int: an optional '-', then digits with no
      leading zero (other than the numeral 0 itself). */
  predicate IntegerNumeral(t: string)
  {
    var d := if t != [] && t[0] == '-' then t[1..] else t;
    d != [] && Lexer.AllDigits(d) && (d[0] != '0' || |d| == 1)
  }

  /** A positional numeral: an integer numeral (optional '-', digits), then
      optionally a '.' and one or more digits. This is the shape str() gives
      a number when it does not switch to exponent form. */
  predicate NumberText(s: string)
  {
    var i := IndexOf(s, '.');
    IntegerNumeral(s[..i]) && (i == |s| || (i + 1 < |s| && Lexer.AllDigits(s[i + 1..])))
  }

  lemma {:induction false} LeadingDigitPositive(d: string)
    requires d != [] && Lexer.AllDigits(d) && d[0] != '0'
    ensures Lexer.DigitsValue(d) >= 1
    decreases |d|
  {
    if |d| > 1 {
      LeadingDigitPositive(d[..|d| - 1]);
    } else {
      assert d[..0] == [];
    }
  }

  /** A numeral without leading zeros is what str() writes for its value. */
  lemma {:induction false} DigitsOfDigitsValue(d: string)
    requires d != [] && Lexer.AllDigits(d) && (d[0] != '0' || |d| == 1)
    ensures Digits(Lexer.DigitsValue(d)) == d
    decreases |d|
  {
    var v := Lexer.DigitsValue(d);
    if |d| == 1 {
      assert d[..0] == [];
      assert Lexer.DigitsValue(d[..0]) == 0;
      assert Lexer.IsDigit(d[0]);
      assert v == d[0] as int - '0' as int;
      assert d == [d[0]];
    } else {
      var p := d[..|d| - 1];
      LeadingDigitPositive(p);
      DigitsOfDigitsValue(p);
      assert v / 10 == Lexer.DigitsValue(p) && v % 10 == d[|d| - 1] as int - '0' as int;
      assert d == p + [d[|d| - 1]];
    }
  }

  /** `(-0.5)`: int('-0') is 0, so the sign of a number between -1 and 0 is
      dropped from the display. */
  lemma NegativeFractionLosesSign()
    ensures FormatNumber("-0.5") == Success("0.5")
    ensures NumberText("-0.5") && RemoveCommas(FormatNumber("-0.5").value) != "-0.5"
  {
    var text := "-0.5";
    assert IndexOf(text, '.') == 2;
    assert IntegerPart(text) == "-0";
    assert "-0"[1..] == "0";
    assert Lexer.DigitsValue("0") == 0 by {
      assert "0"[..0] == [];
    }
    assert ParseInt("-0") == Success(0);
    assert text[3..] == "5";
    assert IndexOf("5", '.') == 1;
    assert FractionPart(text) == "5";
    assert Digits(0) == "0";
    assert FormatThousands(0) == "0";
    assert text[2] == '.';
    assert "0" + "." + "5" == "0.5";
    assert FormatNumber(text) == Success("0.5");
    assert IntegerNumeral("-0");
    assert RemoveCommas("0.5") == "0.5";
  }

  /** The integer part written with separators, its sign taken from the text
      rather than from the int, so that '-0' keeps its '-'. */
  function SignedThousands(text: string, n: int): string
  {
    if text != [] && text[0] == '-' then "-" + Group(Digits(if n < 0 then -n else n))
    else FormatThousands(n)
  }

  /** _format_number with the sign of the integer part kept. */
  function FormatNumberSigned(number: string): Result<string>
  {
    if '.' in number then
      match ParseInt(IntegerPart(number))
      case Failure(e) => Failure(e)
      case Success(n) => Success(SignedThousands(IntegerPart(number), n) + "." + FractionPart(number))
    else
      match ParseInt(number)
      case Failure(e) => Failure(e)
      case Success(n) => Success(SignedThousands(number, n))
  }

  /** The magnitude digits of an integer numeral, and the value int() reads. */
  lemma ParseNumeral(t: string)
    requires IntegerNumeral(t)
    ensures var negative := t != [] && t[0] == '-';
      var d := if negative then t[1..] else t;
      ParseInt(t) == Success(if negative then -(Lexer.DigitsValue(d) as int) else Lexer.DigitsValue(d))
  {
  }

  /** The separators of the digits `d`, with the commas deleted, give `d`. */
  lemma GroupOfValueRoundTrip(d: string)
    requires d != [] && Lexer.AllDigits(d) && (d[0] != '0' || |d| == 1)
    ensures RemoveCommas(Group(Digits(Lexer.DigitsValue(d)))) == d
  {
    DigitsOfDigitsValue(d);
    GroupRoundTrip(d);
  }

  /** For an integer numeral, the signed separators with the commas deleted
      give the numeral back. */
  lemma SignedThousandsRoundTrip(t: string)
    requires IntegerNumeral(t)
    ensures ParseInt(t).Success?
    ensures RemoveCommas(SignedThousands(t, ParseInt(t).value)) == t
  {
    ParseNumeral(t);
    if t != [] && t[0] == '-' {
      NegativeThousandsRoundTrip(t);
    } else {
      GroupOfValueRoundTrip(t);
      var g := Group(Digits(Lexer.DigitsValue(t)));
      assert SignedThousands(t, ParseInt(t).value) == "" + g;
      assert "" + g == g;
    }
  }

  lemma NegativeThousandsRoundTrip(t: string)
    requires IntegerNumeral(t) && t != [] && t[0] == '-'
    ensures ParseInt(t).Success?
    ensures RemoveCommas(SignedThousands(t, ParseInt(t).value)) == t
  {
    var d := t[1..];
    var v := Lexer.DigitsValue(d);
    ParseNumeral(t);
    var n := ParseInt(t).value;
    assert n == -(v as int);
    assert (if n < 0 then -n else n) == v;
    GroupOfValueRoundTrip(d);
    var g := Group(Digits(v));
    assert SignedThousands(t, n) == "-" + g;
    RemoveCommasAppend("-", g);
    assert RemoveCommas("-") == "-";
    assert "-" + d == t;
  }

  /** A number text with a '.' is its integer part, the '.', and digits. */
  lemma SplitAtOnlyDot(number: string)
    requires NumberText(number) && '.' in number
    ensures Lexer.AllDigits(FractionPart(number))
    ensures IntegerPart(number) + "." + FractionPart(number) == number
  {
    var i := IndexOf(number, '.');
    var rest := number[i + 1..];
    assert forall j :: 0 <= j < |rest| ==> rest[j] != '.';
    assert IndexOf(rest, '.') == |rest|;
    assert rest[..|rest|] == rest;
    assert number == number[..i] + "." + rest;
  }

  lemma RemoveCommasJoin(x: string, f: string)
    requires Lexer.AllDigits(f)
    ensures RemoveCommas(x + "." + f) == RemoveCommas(x) + "." + f
  {
    RemoveCommasAppend(x + ".", f);
    RemoveCommasAppend(x, ".");
    RemoveCommasOfDigits(f);
    assert RemoveCommas(".") == ".";
  }

  /** Corrected: every positional numeral is displayed so that deleting the
      commas gives the text back, sign included. */
  lemma FormatNumberSignedRoundTrip(number: string)
    requires NumberText(number)
    ensures FormatNumberSigned(number).Success?
    ensures RemoveCommas(FormatNumberSigned(number).value) == number
  {
    if '.' in number {
      var t := IntegerPart(number);
      SignedThousandsRoundTrip(t);
      SplitAtOnlyDot(number);
      RemoveCommasJoin(SignedThousands(t, ParseInt(t).value), FractionPart(number));
    } else {
      assert IndexOf(number, '.') == |number|;
      assert number[..|number|] == number;
      SignedThousandsRoundTrip(number);
    }
  }
}
