/** The words a SQL statement is made of, for statements where blanks are the
    only white space: enough of sqlite's tokenizer to read the statements
    `inquire` builds. */
module Lexing {

  /** Length of the leading run of non-blank characters. */
  function WordLen(s: string): (n: nat)
    ensures n <= |s|
    ensures n < |s| ==> s[n] == ' '
    ensures n > 0 <==> s != [] && s[0] != ' '
  {
    if s == [] || s[0] == ' ' then 0 else 1 + WordLen(s[1..])
  }

  /** The blank-separated words of `s`: the tokens sqlite's tokenizer sees in the
      statements built here, where blanks are the only white space. */
  function Words(s: string): seq<string>
    decreases |s|
  {
    if s == [] then []
    else if s[0] == ' ' then Words(s[1..])
    else
      var n := WordLen(s);
      [s[..n]] + Words(s[n..])
  }

  predicate NoBlank(w: string)
  {
    forall k | 0 <= k < |w| :: w[k] != ' '
  }

  /** A blank-free string is one word. */
  lemma {:induction false} WordLenOfNoBlank(w: string)
    requires NoBlank(w)
    ensures WordLen(w) == |w|
  {
    if w != [] {
      assert w[0] != ' ';
      assert NoBlank(w[1..]) by {
        forall k | 0 <= k < |w[1..]| ensures w[1..][k] != ' ' {
          assert w[1..][k] == w[k + 1];
        }
      }
      WordLenOfNoBlank(w[1..]);
    }
  }

  /** The leading word of `a` does not run into `b` when a blank separates them. */
  lemma {:induction false} WordLenConcat(a: string, b: string)
    requires b == [] || b[0] == ' ' || (a != [] && a[|a| - 1] == ' ')
    ensures WordLen(a + b) == WordLen(a)
  {
    if a == [] {
      assert a + b == b;
    } else if a[0] == ' ' {
      assert (a + b)[0] == ' ';
    } else {
      assert (a + b)[0] == a[0];
      assert (a + b)[1..] == a[1..] + b;
      assert a[1..] == [] || a[1..][|a[1..]| - 1] == a[|a| - 1];
      WordLenConcat(a[1..], b);
    }
  }

  /** A leading blank is skipped. */
  lemma {:induction false} LeadingBlank(s: string)
    requires s != [] && s[0] == ' '
    ensures Words(s) == Words(s[1..])
  {
  }

  /** A string that starts with a word lexes as that word, then the rest. */
  lemma {:induction false} LeadingWord(s: string)
    requires s != [] && s[0] != ' '
    ensures Words(s) == [s[..WordLen(s)]] + Words(s[WordLen(s)..])
  {
  }

  /** A leading blank of `a` is skipped in `a + b`. */
  lemma {:induction false} LeadingBlankOfConcat(a: string, b: string)
    requires a != [] && a[0] == ' '
    ensures Words(a + b) == Words(a[1..] + b)
  {
    assert (a + b)[0] == ' ';
    LeadingBlank(a + b);
    assert (a + b)[1..] == a[1..] + b;
  }

  /** The first word of `a + b` is the first word `a[..n]` of `a`, when `a` starts
      with one and a blank separates `a` from `b`. */
  lemma {:induction false} LeadingWordOfConcat(a: string, b: string, n: nat)
    requires a != [] && a[0] != ' ' && n == WordLen(a)
    requires b == [] || b[0] == ' ' || a[|a| - 1] == ' '
    ensures Words(a + b) == [a[..n]] + Words(a[n..] + b)
  {
    WordLenConcat(a, b);
    assert (a + b)[0] == a[0];
    LeadingWord(a + b);
    assert (a + b)[..n] == a[..n];
    assert (a + b)[n..] == a[n..] + b;
  }

  /** Lexing is compositional across a blank boundary. */
  lemma {:induction false} WordsConcat(a: string, b: string)
    requires a == [] || b == [] || b[0] == ' ' || a[|a| - 1] == ' '
    ensures Words(a + b) == Words(a) + Words(b)
    decreases |a|
  {
    if a == [] {
      assert a + b == b;
    } else {
      var n := if a[0] == ' ' then 1 else WordLen(a);
      var t := a[n..];
      assert |t| > 0 ==> t[|t| - 1] == a[|a| - 1];
      WordsConcat(t, b);
      var ws, wt, wb := Words(a), Words(t), Words(b);
      if a[0] == ' ' {
        LeadingBlankOfConcat(a, b);
        LeadingBlank(a);
        assert Words(a + b) == wt + wb;
      } else {
        var w := a[..n];
        LeadingWordOfConcat(a, b, n);
        LeadingWord(a);
        assert Words(a + b) == [w] + (wt + wb);
        assert [w] + (wt + wb) == ([w] + wt) + wb;
      }
    }
  }

  /** A blank followed by a non-empty blank-free word lexes as that word. */
  lemma {:induction false} WordsOfBlankWord(w: string)
    requires w != [] && NoBlank(w)
    ensures Words(" " + w) == [w]
  {
    LeadingBlank(" " + w);
    assert (" " + w)[1..] == w;
    assert w[0] != ' ';
    WordLenOfNoBlank(w);
    LeadingWord(w);
    assert w[..|w|] == w && w[|w|..] == [];
  }

  /** Lexing the blank-prefixed words `a`, `b`, `c` in a row. */
  lemma {:induction false} WordsOfThree(a: string, b: string, c: string)
    requires a != [] && NoBlank(a) && b != [] && NoBlank(b) && c != [] && NoBlank(c)
    ensures Words(" " + a + " " + b + " " + c) == [a, b, c]
  {
    var x, y, z := " " + a, " " + b, " " + c;
    WordsOfBlankWord(a);
    WordsOfBlankWord(b);
    WordsOfBlankWord(c);
    assert y[0] == ' ' && z[0] == ' ';
    WordsConcat(x, y);
    WordsConcat(x + y, z);
    assert " " + a + " " + b + " " + c == x + y + z;
  }

  /** Three pieces, the last two starting with a blank unless empty, lex piece by
      piece. */
  lemma {:induction false} WordsConcat3(a: string, b: string, c: string)
    requires b == [] || b[0] == ' '
    requires c == [] || c[0] == ' '
    ensures Words(a + (b + c)) == Words(a) + (Words(b) + Words(c))
  {
    WordsConcat(b, c);
    assert b + c == [] || (b + c)[0] == ' ';
    WordsConcat(a, b + c);
  }
}
