/** What the lexer reads, written out: each kind of token by its text. */
module SqlShapes {
  import opened Text
  import opened SqlLexer

  /** A scan that takes one character at a time from i to n, and stops there. */
  lemma {:induction false} ReachUpTo(m: Scanner, s: string, i: nat, n: nat)
    requires i <= n <= |s| && forall k :: i <= k < n ==> Advance(m, s, k) == 1
    requires n == |s| || Advance(m, s, n) == 0
    ensures Reach(m, s, i) == n
    decreases n - i
  {
    hide Advance;
    if i < n {
      ReachUpTo(m, s, i + 1, n);
    }
  }

  /** A token is what its scan and its closing mark cover. */
  lemma FirstIs(s: string, m: Scanner, start: nat, n: nat)
    requires s != "" && start <= n <= |s| && OpeningOf(s) == Scanned(m, start) && Reach(m, s, start) + Ending(m) == n
    ensures n > 0 ==> First(s) == Token(KindOf(OpeningOf(s), s[..n]), s[..n])
  {
    hide Opens, Reach, KindOf;
  }

  /** Two hyphens up to the end of the line. */
  lemma LineCommentIsRead(v: string, y: string)
    requires '\n' !in v && (y == "" || y[0] == '\n')
    ensures First("--" + v + y) == Token(Comment, "--" + v)
  {
    var s, n := "--" + v + y, |v| + 2;
    assert s[..n] == "--" + v && forall k :: 2 <= k < n ==> s[k] == v[k - 2];
    ReachUpTo(ToLineEnd, s, 0, n);
    FirstIs(s, ToLineEnd, 0, n);
  }

  /** The mark that ends a block comment is nowhere in the text, nor made by it and the mark behind it. */
  predicate NoBlockEnd(v: string) {
    forall k :: 0 <= k < |v| ==> !(v[k] == '*' && (v + "*/")[k + 1] == '/')
  }

  lemma BlockCommentIsRead(v: string, y: string)
    requires NoBlockEnd(v)
    ensures First("/*" + v + "*/" + y) == Token(Comment, "/*" + v + "*/")
  {
    var s, n := "/*" + v + "*/" + y, |v| + 2;
    assert s[..n + 2] == "/*" + v + "*/";
    forall k | 2 <= k < n
      ensures Advance(ToBlockEnd, s, k) == 1
    {
      assert s[k] == v[k - 2] && s[k + 1] == (v + "*/")[k - 1];
    }
    ReachUpTo(ToBlockEnd, s, 2, n);
    FirstIs(s, ToBlockEnd, 2, n + 2);
  }

  /** A text as it is written in a literal: its quotes doubled. */
  function Doubled(v: string): string {
    if v == "" then "" else (if v[0] == '\'' then "''" else [v[0]]) + Doubled(v[1..])
  }

  lemma {:induction false} QuoteScan(before: string, v: string, y: string)
    requires y == "" || y[0] != '\''
    ensures Reach(ToQuote, before + Doubled(v) + "'" + y, |before|) == |before| + |Doubled(v)|
    decreases |v|
  {
    var s := before + Doubled(v) + "'" + y;
    if v == "" {
      assert s[|before|] == '\'';
      assert y != "" ==> s[|before| + 1] == y[0];
    } else {
      var head := if v[0] == '\'' then "''" else [v[0]];
      assert s == (before + head) + Doubled(v[1..]) + "'" + y;
      QuoteScan(before + head, v[1..], y);
      assert s[|before|] == v[0] && (v[0] == '\'' ==> s[|before| + 1] == '\'');
    }
  }

  /** Any text, its quotes doubled, is read back as one literal. */
  lemma LiteralIsRead(v: string, y: string)
    requires y == "" || y[0] != '\''
    ensures First("'" + Doubled(v) + "'" + y) == Token(Literal, "'" + Doubled(v) + "'")
  {
    hide Doubled, Reach;
    var s, n := "'" + Doubled(v) + "'" + y, |Doubled(v)| + 2;
    assert s[..n] == "'" + Doubled(v) + "'";
    QuoteScan("'", v, y);
    FirstIs(s, ToQuote, 1, n);
  }

  predicate Encloses(open: char, close: char) {
    (open == '"' && close == '"') || (open == '`' && close == '`') || (open == '[' && close == ']')
  }

  /** A quoted identifier ends at the first closing mark. */
  lemma QuotedNameIsRead(open: char, close: char, v: string, y: string)
    requires Encloses(open, close) && close !in v
    ensures First([open] + v + [close] + y) == Token(Identifier, [open] + v + [close])
  {
    var s, n := [open] + v + [close] + y, |v| + 1;
    assert s[..n + 1] == [open] + v + [close] && s[n] == close;
    assert forall k :: 1 <= k < n ==> s[k] == v[k - 1];
    ReachUpTo(ToClose(close), s, 1, n);
    FirstIs(s, ToClose(close), 1, n + 1);
  }

  /** A word goes as far as letters, digits, underscores and dollar signs do; the reserved ones are keywords. */
  lemma WordIsRead(w: string, y: string)
    requires w != "" && IsLetter(w[0]) && (forall k :: 0 <= k < |w| ==> IsWordChar(w[k])) && (y == "" || !IsWordChar(y[0]))
    ensures First(w + y) == Token(if IsReserved(Upper(w)) then Keyword else Identifier, w)
  {
    hide IsReserved, Upper, IsTwoCharOperator;
    var s, n := w + y, |w|;
    assert s[..n] == w && (y != "" ==> s[n] == y[0]);
    ReachUpTo(Word, s, 0, n);
    FirstIs(s, Word, 0, n);
  }

  /** Parameters: a question mark; a dollar sign and digits; a colon or an at sign and a name. */
  lemma ParameterIsRead(c: char, v: string, y: string)
    requires || (c == '?' && v == "")
             || (c == '$' && v != "" && (forall k :: 0 <= k < |v| ==> IsDigit(v[k])) && (y == "" || !IsDigit(y[0])))
             || ((c == ':' || c == '@') && v != "" && IsLetter(v[0]) && (forall k :: 0 <= k < |v| ==> IsNameChar(v[k]))
                 && (y == "" || !IsNameChar(y[0])))
    ensures First([c] + v + y) == Token(Parameter, [c] + v)
  {
    hide IsTwoCharOperator;
    var s, n := [c] + v + y, |v| + 1;
    assert s[..n] == [c] + v && (y != "" ==> s[n] == y[0]);
    assert forall k :: 1 <= k < n ==> s[k] == v[k - 1];
    if c == '$' {
      ReachUpTo(Digits, s, 1, n);
      FirstIs(s, Digits, 1, n);
    } else if c != '?' {
      ReachUpTo(Name, s, 1, n);
      FirstIs(s, Name, 1, n);
    }
  }

  /** An operator of two characters is not taken apart. */
  lemma OperatorIsRead(a: char, b: char, y: string)
    requires [a, b] in {"<=", ">=", "<>", "!=", "||", "::", "->", "=>"}
    ensures First([a, b] + y) == Token(Operator, [a, b])
  {
    var s := [a, b] + y;
    assert s[..2] == [a, b] && [a] + [b] == [a, b];
    var op := [a, b];
    assert op[0] == a && op[1] == b;
  }

  lemma MarkIsRead(c: char, y: string)
    requires c in "(),;]"
    ensures First([c] + y) == Token(Punct, [c])
  {
    var s := [c] + y;
    assert s[..1] == [c];
    var both := [c] + Second(s);
    assert both[0] == c;
    if IsTwoCharOperator(both) {
      TwoCharEnds(both);
    }
  }
}
