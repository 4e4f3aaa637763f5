/** is_valid_parentheses (src/gui.py): the stack-based check that the
    parentheses of an expression are balanced. */
module Parentheses {

  /** How many times `c` occurs in `s`. */
  function Count(s: string, c: char): nat
  {
    if s == [] then 0 else Count(s[..|s| - 1], c) + (if s[|s| - 1] == c then 1 else 0)
  }

  /** No prefix closes more parentheses than it has opened, and the whole
      text opens and closes the same number. */
  predicate Balanced(s: string)
  {
    (forall k :: 0 <= k <= |s| ==> Count(s[..k], ')') <= Count(s[..k], '(')) &&
    Count(s, '(') == Count(s, ')')
  }

  /** The scan of is_valid_parentheses: push on '(', pop on ')' (failing on an
      empty stack), and succeed when the stack ends empty. */
  method IsValidParentheses(s: string) returns (ok: bool)
    ensures ok <==> Balanced(s)
  {
    var stack: seq<char> := [];
    for i := 0 to |s|
      invariant forall j :: 0 <= j < |stack| ==> stack[j] == '('
      invariant |stack| + Count(s[..i], ')') == Count(s[..i], '(')
      invariant forall k :: 0 <= k <= i ==> Count(s[..k], ')') <= Count(s[..k], '(')
    {
      assert s[..i + 1][..i] == s[..i];
      var c := s[i];
      if c == '(' {
        stack := stack + [c];
      } else if c == ')' {
        if stack == [] {
          assert Count(s[..i + 1], ')') > Count(s[..i + 1], '(');
          return false;
        }
        stack := stack[..|stack| - 1];
      }
    }
    assert s[..|s|] == s;
    return stack == [];
  }

  lemma {:induction false} CountAppend(a: string, b: string, c: char)
    ensures Count(a + b, c) == Count(a, c) + Count(b, c)
  {
    if b != [] {
      assert (a + b)[..|a + b| - 1] == a + b[..|b| - 1];
      CountAppend(a, b[..|b| - 1], c);
    } else {
      assert a + b == a;
    }
  }

  /** Characters other than parentheses are ignored: inserting one anywhere
      does not change the verdict. */
  lemma OtherCharactersIgnored(s: string, i: nat, x: char)
    requires i <= |s| && x != '(' && x != ')'
    ensures Balanced(s[..i] + [x] + s[i..]) == Balanced(s)
  {
    var t := s[..i] + [x] + s[i..];
    forall k | i < k <= |t|
      ensures Count(t[..k], '(') == Count(s[..k - 1], '(')
      ensures Count(t[..k], ')') == Count(s[..k - 1], ')')
    {
      assert t[..k] == s[..i] + ([x] + s[i..k - 1]);
      assert s[..k - 1] == s[..i] + s[i..k - 1];
      CountAppend(s[..i], [x] + s[i..k - 1], '(');
      CountAppend(s[..i], [x] + s[i..k - 1], ')');
      CountAppend([x], s[i..k - 1], '(');
      CountAppend([x], s[i..k - 1], ')');
      CountAppend(s[..i], s[i..k - 1], '(');
      CountAppend(s[..i], s[i..k - 1], ')');
      assert Count([x], '(') == 0 by { assert [x][..0] == []; }
      assert Count([x], ')') == 0 by { assert [x][..0] == []; }
    }
    forall k | 0 <= k <= i
      ensures t[..k] == s[..k]
    {
    }
    assert t[..|t|] == t && s[..|s|] == s;
    if Balanced(s) {
      forall k | 0 <= k <= |t|
        ensures Count(t[..k], ')') <= Count(t[..k], '(')
      {
        if k > i {
          assert Count(s[..k - 1], ')') <= Count(s[..k - 1], '(');
        } else {
          assert t[..k] == s[..k];
        }
      }
    }
    if Balanced(t) {
      forall k | 0 <= k <= |s|
        ensures Count(s[..k], ')') <= Count(s[..k], '(')
      {
        if k > i {
          assert Count(t[..k + 1], ')') <= Count(t[..k + 1], '(');
        } else {
          assert t[..k] == s[..k];
        }
      }
    }
  }

  /** The same check read left to right with a counter of open parentheses:
      '(' raises it, ')' needs it positive and lowers it, and the text must
      end with it back at zero. `depth` is the count already open. */
  predicate ClosesFrom(s: string, depth: nat)
    decreases |s|
  {
    if s == [] then depth == 0
    else if s[0] == '(' then ClosesFrom(s[1..], depth + 1)
    else if s[0] == ')' then depth > 0 && ClosesFrom(s[1..], depth - 1)
    else ClosesFrom(s[1..], depth)
  }

  /** Balanced, for a text read after `depth` parentheses are already open. */
  predicate ClosesWithin(s: string, depth: nat)
  {
    (forall k :: 0 <= k <= |s| ==> Count(s[..k], ')') <= Count(s[..k], '(') + depth) &&
    Count(s, '(') + depth == Count(s, ')')
  }

  lemma CountSingle(c: char, x: char)
    ensures Count([c], x) == if c == x then 1 else 0
  {
    assert [c][..0] == [];
  }

  /** The counter reading agrees with the prefix-count definition. */
  lemma {:induction false} ClosesFromIff(s: string, depth: nat)
    ensures ClosesFrom(s, depth) <==> ClosesWithin(s, depth)
    decreases |s|
  {
    if s == [] {
      assert s[..0] == [];
    } else {
      var c, r := s[0], s[1..];
      assert s == [c] + r;
      CountSingle(c, '(');
      CountSingle(c, ')');
      assert s[..1] == [c];
      if c == ')' && depth == 0 {
        assert Count(s[..1], ')') > Count(s[..1], '(') + depth;
      } else {
        var d: nat := if c == '(' then depth + 1 else if c == ')' then depth - 1 else depth;
        ClosesFromIff(r, d);
        forall k | 0 <= k <= |r|
          ensures Count(s[..k + 1], '(') == Count([c], '(') + Count(r[..k], '(')
          ensures Count(s[..k + 1], ')') == Count([c], ')') + Count(r[..k], ')')
        {
          assert s[..k + 1] == [c] + r[..k];
          CountAppend([c], r[..k], '(');
          CountAppend([c], r[..k], ')');
        }
        CountAppend([c], r, '(');
        CountAppend([c], r, ')');
        if ClosesWithin(s, depth) {
          forall k | 0 <= k <= |r|
            ensures Count(r[..k], ')') <= Count(r[..k], '(') + d
          {
            assert Count(s[..k + 1], ')') <= Count(s[..k + 1], '(') + depth;
          }
        }
        if ClosesWithin(r, d) {
          forall k | 0 <= k <= |s|
            ensures Count(s[..k], ')') <= Count(s[..k], '(') + depth
          {
            if k == 0 {
              assert s[..0] == [];
            } else {
              assert Count(r[..k - 1], ')') <= Count(r[..k - 1], '(') + d;
            }
          }
        }
      }
    }
  }

  /** is_valid_parentheses accepts exactly the texts the counter reading accepts. */
  lemma BalancedIffClosesFrom(s: string)
    ensures Balanced(s) <==> ClosesFrom(s, 0)
  {
    ClosesFromIff(s, 0);
  }
}
