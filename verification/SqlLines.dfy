/** Where the formatted text breaks its lines and how far it indents them, said of the text and its tokens alone. */
module SqlLines {
  import opened Text
  import opened SqlLexer
  import opened SqlCleanup
  import opened SqlThinning
  import opened SqlLayout
  import opened SqlFormat

  // ---------- Parentheses ----------

  /** How often a punctuation mark stands among the tokens j .. i - 1. */
  function Count(ts: seq<Token>, mark: string, j: nat, i: nat): nat
    requires j <= i <= |ts|
  {
    if j == i then 0 else Count(ts, mark, j, i - 1) + if IsMark(ts[i - 1], mark) then 1 else 0
  }

  /** Counted back from token i, no more parentheses open than close. */
  ghost predicate Outside(ts: seq<Token>, i: nat)
    requires i <= |ts|
  {
    forall j :: 0 <= j <= i ==> Count(ts, "(", j, i) <= Count(ts, ")", j, i)
  }

  /** The depth counted forwards is the most that any stretch up to token i leaves open. */
  lemma {:induction false} DepthIs(ts: seq<Token>, i: nat)
    requires i <= |ts|
    ensures forall j :: 0 <= j <= i ==> Count(ts, "(", j, i) - Count(ts, ")", j, i) <= Parens(ts, i)
    ensures exists j :: 0 <= j <= i && Count(ts, "(", j, i) - Count(ts, ")", j, i) == Parens(ts, i)
  {
    if i == 0 {
      assert Count(ts, "(", 0, 0) - Count(ts, ")", 0, 0) == 0;
    } else {
      DepthIs(ts, i - 1);
      var k :| 0 <= k <= i - 1 && Count(ts, "(", k, i - 1) - Count(ts, ")", k, i - 1) == Parens(ts, i - 1);
      forall j | 0 <= j <= i - 1
        ensures Count(ts, "(", j, i) - Count(ts, ")", j, i) == Count(ts, "(", j, i - 1) - Count(ts, ")", j, i - 1)
                  + (if IsMark(ts[i - 1], "(") then 1 else 0) - (if IsMark(ts[i - 1], ")") then 1 else 0)
      {
      }
      assert Count(ts, "(", i, i) - Count(ts, ")", i, i) == 0;
      assert Count(ts, "(", k, i) - Count(ts, ")", k, i) == Parens(ts, i) || Parens(ts, i) == 0;
    }
  }

  lemma OutsideIff(ts: seq<Token>, i: nat)
    requires i <= |ts|
    ensures Outside(ts, i) <==> Parens(ts, i) == 0
  {
    hide Count, Parens;
    DepthIs(ts, i);
  }

  // ---------- The rules ----------

  predicate IsOneOf(t: Token, words: set<string>) {
    t.kind.Keyword? && Upper(t.value) in words
  }

  /** A clause or a join outside parentheses. */
  ghost predicate StartsClause(ts: seq<Token>, i: nat)
    requires i < |ts|
  {
    Outside(ts, i) && ts[i].kind.Keyword? && (IsClause(Upper(ts[i].value)) || IsJoin(Upper(ts[i].value)))
  }

  /** AND, OR or ON outside parentheses. */
  ghost predicate Continues(ts: seq<Token>, i: nat)
    requires i < |ts|
  {
    Outside(ts, i) && IsOneOf(ts[i], {"AND", "OR", "ON"})
  }

  /** Outside parentheses: what stands behind this token begins a line. */
  ghost predicate OpensLine(ts: seq<Token>, i: nat)
    requires i < |ts|
  {
    Outside(ts, i) && (
      || IsMark(ts[i], ",")
      || IsOneOf(ts[i], {"BY", "DISTINCT", "ALL", "FROM", "WHERE", "HAVING"})
      || (IsOneOf(ts[i], {"SELECT", "SET", "VALUES"}) && i + 1 < |ts| && !IsOneOf(ts[i + 1], {"DISTINCT"}))
    )
  }

  /** Token i is the first of its line. */
  ghost predicate OnNewLine(ts: seq<Token>, i: nat)
    requires 0 < i < |ts|
  {
    || ts[i].kind.Comment? || ts[i - 1].kind.Comment? || IsMark(ts[i - 1], ";")
    || StartsClause(ts, i) || Continues(ts, i) || OpensLine(ts, i - 1)
  }

  /** The column of a token that is the first of its line. */
  ghost function Column(ts: seq<Token>, i: nat, o: Options): nat
    requires 0 < i < |ts|
  {
    if ts[i].kind.Comment? || StartsClause(ts, i) then 0
    else if Continues(ts, i) then o.indent
    else if ts[i - 1].kind.Comment? || IsMark(ts[i - 1], ";") then 0
    else o.indent
  }

  /** No space stands between token i and the one before it. */
  predicate Glued(ts: seq<Token>, i: nat)
    requires 0 < i < |ts|
  {
    || IsMark(ts[i - 1], "(") || IsDot(ts[i - 1]) || IsDot(ts[i])
    || (ts[i].kind.Punct? && (ts[i].value != "(" || ts[i - 1].kind.Identifier? || IsOneOf(ts[i - 1], {"CAST"})))
  }

  /** The white space in front of token i. */
  ghost function Before(ts: seq<Token>, i: nat, o: Options): string
    requires 0 < i < |ts|
  {
    if OnNewLine(ts, i) then Lines(if IsMark(ts[i - 1], ";") then 2 else 1, Column(ts, i, o))
    else if Glued(ts, i) then ""
    else " "
  }

  lemma LeadIs(ts: seq<Token>, i: nat)
    requires 0 < i < |ts|
    ensures LeadOf(ts, i).Fresh? <==> ts[i].kind.Comment? || StartsClause(ts, i) || Continues(ts, i)
    ensures LeadOf(ts, i).Fresh? ==> LeadOf(ts, i).level == if Continues(ts, i) then 1 else 0
    ensures Continues(ts, i) ==> !ts[i].kind.Comment? && !StartsClause(ts, i)
    ensures !LeadOf(ts, i).Fresh? ==>
              (LeadOf(ts, i) == Joined <==>
                 IsDot(ts[i]) || (ts[i].kind.Punct? && (ts[i].value != "(" || ts[i - 1].kind.Identifier? || IsOneOf(ts[i - 1], {"CAST"}))))
  {
    OutsideIff(ts, i);
    hide Upper, Parens, Outside;
    ByIsNoClause();
  }

  lemma ByIsNoClause()
    ensures !IsClause("BY") && !IsJoin("BY") && !IsContinuation("BY")
    ensures forall u :: IsContinuation(u) ==> !IsClause(u) && !IsJoin(u)
  {
  }

  lemma EffectIs(ts: seq<Token>, i: nat)
    requires i + 1 < |ts|
    ensures EffectOf(ts, i).Break? <==> ts[i].kind.Comment? || IsMark(ts[i], ";") || OpensLine(ts, i)
    ensures ts[i].kind.Comment? ==> EffectOf(ts, i) == Break(1, 0)
    ensures IsMark(ts[i], ";") ==> EffectOf(ts, i) == Break(2, 0)
    ensures OpensLine(ts, i) ==> EffectOf(ts, i) == Break(1, 1)
    ensures !EffectOf(ts, i).Break? ==> (EffectOf(ts, i) == Tight <==> IsMark(ts[i], "(") || IsDot(ts[i]))
  {
    OutsideIff(ts, i);
    hide Upper, Parens, Outside;
    if ts[i].kind.Keyword? {
      OpeningWords(Upper(ts[i].value));
    }
  }

  lemma OpeningWords(u: string)
    ensures u in {"FROM", "WHERE", "HAVING", "SELECT", "SET", "VALUES"} ==> IsClause(u)
    ensures u in {"BY", "DISTINCT", "ALL"} ==> !IsClause(u) && !IsJoin(u) && !IsContinuation(u)
  {
  }

  /** The layout keeps the rules. */
  lemma GapIsBefore(ts: seq<Token>, i: nat, o: Options)
    requires 0 < i < |ts|
    ensures Gap(ts, i, o) == Before(ts, i, o)
  {
    hide LeadOf, EffectOf, OpensLine, StartsClause, Continues, Lines;
    LeadIs(ts, i);
    EffectIs(ts, i - 1);
    LinesOnly(0, 0);
    assert 0 * o.indent == 0 && 1 * o.indent == o.indent;
  }

  // ---------- The text ----------

  /** The text token i is shown with. */
  function Word(ts: seq<Token>, i: nat, o: Options): string
    requires i < |ts|
  {
    Printed(ts[i], o).value
  }

  /** A keyword is shown in capitals if the option asks for it, and as it stands otherwise; of the other tokens only
      literals, comments and quoted names can be shown other than they stand, and then cleaned up. */
  lemma WordIs(ts: seq<Token>, i: nat, o: Options)
    requires Lexed(ts) && i < |ts|
    ensures ts[i].kind.Keyword? ==> Word(ts, i, o) == if o.uppercase then Upper(ts[i].value) else ts[i].value
    ensures !ts[i].kind.Keyword? ==> Word(ts, i, o) == Clean(ts[i].value)
    ensures ts[i].kind.Literal? || ts[i].kind.Comment? || ts[i].kind.Identifier? || ts[i].kind.Keyword? || Word(ts, i, o) == ts[i].value
  {
    hide Lexeme, Clean, Upper;
    assert Lexeme(ts[i]);
    CasedLexeme(ts[i], o);
    CleanedLexeme(Cased(ts[i], o));
  }

  /** The text is the words of the tokens, from the given places on, with the white space of the rules between them. */
  ghost predicate LaidOut(ts: seq<Token>, text: string, starts: seq<nat>, o: Options) {
    && |starts| == |ts|
    && (if ts == [] then text == "" else starts[0] == 0 && starts[|ts| - 1] + |Word(ts, |ts| - 1, o)| == |text|)
    && (forall i :: 0 <= i < |ts| ==> ShownAt(text, starts[i], Word(ts, i, o)))
    && (forall i :: 0 < i < |ts| ==> ShownAt(text, starts[i - 1] + |Word(ts, i - 1, o)|, Before(ts, i, o)))
    && (forall i :: 0 < i < |ts| ==> starts[i] == starts[i - 1] + |Word(ts, i - 1, o)| + |Before(ts, i, o)|)
  }

  predicate ShownAt(text: string, at: nat, word: string) {
    at + |word| <= |text| && text[at..at + |word|] == word
  }

  /** Where token i begins in the text that still has the gap in front of its first token. */
  function Begin(ts: seq<Token>, i: nat, o: Options): nat
    requires i < |ts|
  {
    |NeatTo(ts, i, o)| + |Gap(ts, i, o)|
  }

  lemma NeatAt(ts: seq<Token>, i: nat, o: Options)
    requires i < |ts|
    ensures var all, a := Neat(ts, 0, o), |NeatTo(ts, i, o)|;
            && ShownAt(all, a, Gap(ts, i, o)) && ShownAt(all, Begin(ts, i, o), Word(ts, i, o))
            && |NeatTo(ts, i + 1, o)| == Begin(ts, i, o) + |Word(ts, i, o)|
  {
    hide Gap, Cased, Clean;
    NeatSplit(ts, i, o);
    NeatSplit(ts, i + 1, o);
    var to, g, w, rest := NeatTo(ts, i, o), Gap(ts, i, o), Word(ts, i, o), Neat(ts, i + 1, o);
    assert NeatTo(ts, i + 1, o) == to + g + w;
    assert to + g + w + rest == Neat(ts, 0, o);
    assert (to + g + w + rest)[|to|..|to| + |g|] == g;
    assert (to + g + w + rest)[|to + g|..|to + g| + |w|] == w;
  }

  lemma ShownBehind(g: string, text: string, at: nat, word: string)
    requires ShownAt(g + text, at, word) && at >= |g|
    ensures ShownAt(text, at - |g|, word)
  {
    assert (g + text)[at..at + |word|] == text[at - |g|..at - |g| + |word|];
  }

  /** The formatted text of every input is laid out by the rules. */
  lemma FormatIsLaidOut(input: string, o: Options) returns (starts: seq<nat>)
    ensures LaidOut(Lex(input), Format(input, o), starts, o)
  {
    hide Lex, Lexed, Render, Gap, Neat, NeatTo, Before, Word, AllSpace, ShownAt, Begin;
    var ts := Lex(input);
    LexIsLexed(input);
    starts := [];
    if ts == [] {
      NoTokens(o);
    } else {
      var g, text := Gap(ts, 0, o), Format(input, o);
      RenderIsNeat(ts, o);
      forall i | 0 <= i < |ts|
        ensures Begin(ts, i, o) >= |g|
      {
        BeginsBehind(ts, i, o);
      }
      starts := seq(|ts|, i requires 0 <= i < |ts| => (Begin(ts, i, o) - |g|) as nat);
      forall i | 0 <= i < |ts|
        ensures ShownAt(text, starts[i], Word(ts, i, o))
      {
        NeatAt(ts, i, o);
        ShownBehind(g, text, Begin(ts, i, o), Word(ts, i, o));
      }
      forall i | 0 < i < |ts|
        ensures ShownAt(text, starts[i - 1] + |Word(ts, i - 1, o)|, Before(ts, i, o))
        ensures starts[i] == starts[i - 1] + |Word(ts, i - 1, o)| + |Before(ts, i, o)|
      {
        NeatAt(ts, i - 1, o);
        NeatAt(ts, i, o);
        GapIsBefore(ts, i, o);
        BeginIs(ts, i, o);
        ShownBehind(g, text, |NeatTo(ts, i, o)|, Gap(ts, i, o));
      }
      TextEnds(ts, text, o);
      BeginsBehind(ts, 0, o);
    }
  }

  lemma BeginIs(ts: seq<Token>, i: nat, o: Options)
    requires i < |ts|
    ensures Begin(ts, i, o) == |NeatTo(ts, i, o)| + |Gap(ts, i, o)|
  {
  }

  lemma TextEnds(ts: seq<Token>, text: string, o: Options)
    requires ts != [] && Gap(ts, 0, o) + text == Neat(ts, 0, o)
    ensures Begin(ts, |ts| - 1, o) + |Word(ts, |ts| - 1, o)| == |Gap(ts, 0, o)| + |text|
  {
    hide Gap, Cased, Clean;
    NeatAt(ts, |ts| - 1, o);
    NeatSplit(ts, |ts|, o);
  }

  lemma {:induction false} BeginsBehind(ts: seq<Token>, i: nat, o: Options)
    requires i < |ts|
    ensures Begin(ts, i, o) >= |Gap(ts, 0, o)| && Begin(ts, 0, o) == |Gap(ts, 0, o)|
  {
    hide Gap, Cased, Clean;
    if i > 0 {
      BeginsBehind(ts, i - 1, o);
    }
  }

  // ---------- What the rules mean for the lines ----------

  /** Position p is the first of its line but for c blanks. */
  predicate FirstOfLine(text: string, p: nat, c: nat) {
    && c <= p <= |text| && (forall k :: p - c <= k < p ==> text[k] == ' ')
    && (p == c || text[p - c - 1] == '\n')
  }

  /** The part of the text between two tokens. */
  function Between(ts: seq<Token>, text: string, starts: seq<nat>, i: nat, o: Options): string
    requires 0 < i < |ts| == |starts| && starts[i - 1] + |Word(ts, i - 1, o)| <= starts[i] <= |text|
  {
    text[starts[i - 1] + |Word(ts, i - 1, o)|..starts[i]]
  }

  lemma BetweenIs(ts: seq<Token>, text: string, starts: seq<nat>, i: nat, o: Options)
    requires LaidOut(ts, text, starts, o) && 0 < i < |ts|
    ensures starts[i - 1] + |Word(ts, i - 1, o)| <= starts[i] <= |text| && Between(ts, text, starts, i, o) == Before(ts, i, o)
  {
    hide Before, Word;
  }

  /** A token on a new line is its first character but for the indentation. */
  lemma NewLineIsFirst(ts: seq<Token>, text: string, starts: seq<nat>, i: nat, o: Options)
    requires LaidOut(ts, text, starts, o) && 0 < i < |ts| && OnNewLine(ts, i)
    ensures FirstOfLine(text, starts[i], Column(ts, i, o)) && '\n' in Before(ts, i, o)
  {
    hide Word, OnNewLine, Column, ShownAt;
    BetweenIs(ts, text, starts, i, o);
    var e := starts[i - 1] + |Word(ts, i - 1, o)|;
    var b := Before(ts, i, o);
    assert forall k :: 0 <= k < |b| ==> text[e + k] == b[k] by { assert b == text[e..starts[i]]; }
    assert b[0] == '\n';
    var c := Column(ts, i, o);
    forall k | starts[i] - c <= k < starts[i]
      ensures text[k] == ' '
    {
      assert text[k] == b[k - e];
    }
    assert text[starts[i] - c - 1] == b[|b| - c - 1];
  }

  /** The layout of the text, rule by rule: clauses and joins outside parentheses stand at the left margin, AND, OR and ON
      one level in; lists begin on a new line; a new line has no other indentation; and inside parentheses lines end only
      around comments and behind semicolons. */
  lemma LinesOfText(ts: seq<Token>, text: string, starts: seq<nat>, i: nat, o: Options)
    requires LaidOut(ts, text, starts, o) && 0 < i < |ts|
    ensures starts[i - 1] + |Word(ts, i - 1, o)| <= starts[i] <= |text|
    ensures StartsClause(ts, i) ==> FirstOfLine(text, starts[i], 0)
    ensures Continues(ts, i) ==> FirstOfLine(text, starts[i], o.indent)
    ensures OpensLine(ts, i - 1) ==> FirstOfLine(text, starts[i], 0) || FirstOfLine(text, starts[i], o.indent)
    ensures var space := Between(ts, text, starts, i, o);
            && ('\n' in space ==> FirstOfLine(text, starts[i], 0) || FirstOfLine(text, starts[i], o.indent))
            && ('\n' in space && !Outside(ts, i) ==> ts[i].kind.Comment? || ts[i - 1].kind.Comment? || IsMark(ts[i - 1], ";"))
            && ('\n' in space <==> OnNewLine(ts, i))
            && ('\n' !in space ==> space == if Glued(ts, i) then "" else " ")
  {
    hide Word, LaidOut, FirstOfLine, Lines;
    BetweenIs(ts, text, starts, i, o);
    if OnNewLine(ts, i) {
      NewLineIsFirst(ts, text, starts, i, o);
      Exclusive(ts, i);
    }
  }

  lemma Exclusive(ts: seq<Token>, i: nat)
    requires 0 < i < |ts|
    ensures Continues(ts, i) ==> !ts[i].kind.Comment? && !StartsClause(ts, i)
    ensures OpensLine(ts, i - 1) ==> Outside(ts, i)
    ensures StartsClause(ts, i) || Continues(ts, i) ==> Outside(ts, i)
  {
    ByIsNoClause();
    OutsideIff(ts, i);
    OutsideIff(ts, i - 1);
    hide Upper, Outside, IsClause, IsJoin;
  }
}
