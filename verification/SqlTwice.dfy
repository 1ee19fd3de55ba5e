/** Formatting twice: for which inputs it is the same as formatting once. */
module SqlTwice {
  import opened Text
  import opened SqlLexer
  import opened SqlCleanup
  import opened SqlThinning
  import opened SqlLayout
  import opened SqlFormat

  // ---------- Which tokens are read as one number ----------

  predicate IsExponent(c: char) {
    c == 'e' || c == 'E' || IsDigit(c)
  }

  /** A token that a number reads on through when nothing stands between. */
  predicate Eaten(t: Token) {
    t.kind.Number? || (t.kind.Identifier? && forall k :: 0 <= k < |t.value| ==> IsExponent(t.value[k]))
  }

  predicate BeginsWithDigit(t: Token) {
    t.kind.Number? && t.value != "" && IsDigit(t.value[0])
  }

  /** Token i is printed right behind a number and read as a part of it: a dot behind a number, a number behind a dot,
      and so on. */
  predicate Inside(ts: seq<Token>, i: nat)
    requires i < |ts|
  {
    i > 0 && (
      || (IsDot(ts[i]) && (ts[i - 1].kind.Number? || Inside(ts, i - 1)))
      || (IsDot(ts[i - 1]) && Eaten(ts[i]) && (BeginsWithDigit(ts[i]) || Inside(ts, i - 1)))
    )
  }

  predicate Heads(ts: seq<Token>, i: nat)
    requires i < |ts|
  {
    !Inside(ts, i) && i + 1 < |ts| && Inside(ts, i + 1)
  }

  /** The second run puts the same white space before token i as the first: behind a number that ends in a dot nothing
      wants a space, behind one that ends in a name there is no call, and a number that begins with a dot wants none. */
  predicate Steady(ts: seq<Token>, i: nat)
    requires i < |ts|
  {
    Inside(ts, i) || (
      && (i > 0 && Inside(ts, i - 1) && IsDot(ts[i - 1]) ==> LeadOf(ts, i) != Spaced)
      && (i > 0 && Inside(ts, i - 1) && ts[i - 1].kind.Identifier? ==> !IsMark(ts[i], "("))
      && (Heads(ts, i) && IsDot(ts[i]) ==> State(ts, i) != Open)
    )
  }

  lemma {:induction false} InsideIs(ts: seq<Token>, i: nat)
    requires i < |ts| && Inside(ts, i)
    ensures IsDot(ts[i]) || Eaten(ts[i])
    ensures exists k :: 0 <= k < i && DotClash(ts, k)
    decreases i
  {
    if i > 0 && Inside(ts, i - 1) {
      InsideIs(ts, i - 1);
    } else {
      assert DotClash(ts, i - 1);
    }
  }

  /** Where no dot clashes every token is steady. */
  lemma NoClashIsSteady(ts: seq<Token>)
    requires forall i :: 0 <= i < |ts| ==> !DotClash(ts, i)
    ensures forall i :: 0 <= i < |ts| ==> Steady(ts, i)
  {
    forall i | 0 <= i < |ts|
      ensures !Inside(ts, i)
    {
      if Inside(ts, i) {
        InsideIs(ts, i);
        assert false;
      }
    }
  }

  // ---------- Number texts ----------

  predicate NumericAt(s: string, k: nat)
    requires k < |s|
  {
    IsNumberChar(s[k]) && (s[k] == '+' || s[k] == '-' ==> k > 0 && (s[k - 1] == 'e' || s[k - 1] == 'E'))
  }

  /** A text a number can go on through. */
  predicate NumberText(s: string) {
    forall k :: 0 <= k < |s| ==> NumericAt(s, k)
  }

  /** A text that begins as a number does. */
  predicate OpensNumber(s: string) {
    s != "" && (IsDigit(s[0]) || (s[0] == '.' && |s| > 1 && IsDigit(s[1])))
  }

  lemma NumberTexts(v: string, p: string)
    requires NumberText(v) && NumberText(p)
    ensures NumberText(v + p)
  {
    forall k | 0 <= k < |v + p|
      ensures NumericAt(v + p, k)
    {
      if k < |v| {
        assert NumericAt(v, k);
      } else {
        assert NumericAt(p, k - |v|);
      }
    }
  }

  lemma {:induction false} NumberReach(s: string, i: nat, n: nat)
    requires i <= n <= |s| && forall k :: i <= k < n ==> NumericAt(s, k)
    requires n == |s| || !NumericAt(s, n)
    ensures Reach(Numeric, s, i) == n
    decreases n - i
  {
    if i < n {
      assert NumericAt(s, i);
      NumberReach(s, i + 1, n);
    }
  }

  lemma {:induction false} ReachNumber(s: string, i: nat)
    requires i <= |s|
    ensures forall k :: i <= k < Reach(Numeric, s, i) ==> NumericAt(s, k)
    decreases |s| - i
  {
    if i < |s| && Advance(Numeric, s, i) > 0 {
      ReachNumber(s, i + 1);
    }
  }

  lemma NumberOpens(s: string)
    requires s != ""
    ensures OpensNumber(s) <==> OpeningOf(s) == Scanned(Numeric, 0)
  {
    hide IsTwoCharOperator;
  }

  /** A number is read up to the first character it cannot go on through. */
  lemma NumberRead(s: string, n: nat)
    requires OpensNumber(s) && 0 < n <= |s| && forall k :: 0 <= k < n ==> NumericAt(s, k)
    requires n == |s| || !NumericAt(s, n)
    ensures First(s) == Token(Number, s[..n])
  {
    hide NumericAt, Reach, Opens, OpensNumber;
    NumberOpens(s);
    NumberReach(s, 0, n);
  }

  lemma NumberLexeme(t: Token)
    requires Lexeme(t) && t.kind.Number?
    ensures NumberText(t.value) && OpensNumber(t.value)
  {
    hide Reach, IsReserved, Upper, NumericAt, OpensNumber;
    NumberOpens(t.value);
    ReachNumber(t.value, 0);
  }

  /** The text of a token read as part of a number. */
  lemma InsideText(ts: seq<Token>, i: nat, o: Options)
    requires Lexed(ts) && i < |ts| && (IsDot(ts[i]) || Eaten(ts[i]))
    ensures NumberText(ts[i].value) && Printed(ts[i], o) == ts[i] && Tidy(Clean(ts[i].value))
  {
    hide Lexeme, NumericAt, IsSpace, Clean, Tidy;
    var t := ts[i];
    assert Lexeme(t) by { LexedAt(ts, i); }
    if t.kind.Number? {
      NumberLexeme(t);
    } else if t.kind.Identifier? {
      ExponentText(t.value);
    } else {
      DotText();
    }
    NumberIsDark(t.value);
    DarkIsTidy(t.value);
    CleanFixed(t.value);
  }

  lemma ExponentText(s: string)
    requires forall k :: 0 <= k < |s| ==> IsExponent(s[k])
    ensures NumberText(s)
  {
  }

  lemma DotText()
    ensures NumberText(".")
  {
  }

  lemma NumberIsDark(s: string)
    requires NumberText(s)
    ensures forall k :: 0 <= k < |s| ==> !IsSpace(s[k])
  {
    forall k | 0 <= k < |s|
      ensures !IsSpace(s[k])
    {
      assert NumericAt(s, k);
      DarkWordChar(s[k]);
    }
  }

  lemma LexedAt(ts: seq<Token>, i: nat)
    requires Lexed(ts) && i < |ts|
    ensures Lexeme(ts[i])
  {
    hide Lexeme;
  }

  // ---------- How a number is put together ----------

  lemma NeatStep(ts: seq<Token>, i: nat, o: Options)
    requires i < |ts|
    ensures Neat(ts, i, o) == Gap(ts, i, o) + Printed(ts[i], o).value + Neat(ts, i + 1, o)
  {
    hide Gap, Clean, Cased;
  }

  /** What a number is made of leaves the line open, or wants nothing behind it, and no parenthesis. */
  lemma PartOfNumber(ts: seq<Token>, i: nat)
    requires i < |ts| && (IsDot(ts[i]) || Eaten(ts[i]))
    ensures EffectOf(ts, i) == (if IsDot(ts[i]) then Tight else Open) && LeadOf(ts, i) == (if IsDot(ts[i]) then Joined else Spaced)
    ensures Parens(ts, i + 1) == Parens(ts, i)
  {
    hide Upper, IsClause, IsJoin, IsContinuation;
  }

  lemma InsideGap(ts: seq<Token>, i: nat, o: Options)
    requires i < |ts| && Inside(ts, i)
    ensures Gap(ts, i, o) == ""
  {
    hide LeadOf, EffectOf, Eaten, BeginsWithDigit;
    assert ts[i - 1].kind.Number? ==> Eaten(ts[i - 1]) by { NumberIsEaten(ts[i - 1]); }
    if Inside(ts, i - 1) {
      InsideIs(ts, i - 1);
    }
    PartOfNumber(ts, i - 1);
    PartOfNumber(ts, i);
  }

  lemma NumberIsEaten(t: Token)
    ensures t.kind.Number? ==> Eaten(t)
  {
  }

  /** i .. e are printed as the one number text w. */
  ghost predicate Block(ts: seq<Token>, i: nat, e: nat, w: string, o: Options)
    requires i < e <= |ts|
  {
    && NumberText(w) && OpensNumber(w) && Neat(ts, i, o) == Gap(ts, i, o) + w + Neat(ts, e, o)
    && (forall k :: i < k < e ==> Inside(ts, k))
    && Parens(ts, e) == Parens(ts, i) && (IsDot(ts[e - 1]) ==> w[|w| - 1] == '.')
  }

  lemma BlockGrows(ts: seq<Token>, i: nat, e: nat, w: string, o: Options)
    requires Lexed(ts) && i < e < |ts| && Block(ts, i, e, w, o) && Inside(ts, e)
    ensures Block(ts, i, e + 1, w + ts[e].value, o)
  {
    hide Lexed, Gap, Neat, Inside, Eaten, NumberText, OpensNumber, Parens;
    InsideIs(ts, e);
    InsideStep(ts, e, o);
    NumberTexts(w, ts[e].value);
    OpensStill(w, ts[e].value);
    Glue(Gap(ts, i, o), w, ts[e].value, Neat(ts, e + 1, o));
  }

  lemma InsideStep(ts: seq<Token>, e: nat, o: Options)
    requires Lexed(ts) && e < |ts| && Inside(ts, e)
    ensures NumberText(ts[e].value) && Neat(ts, e, o) == ts[e].value + Neat(ts, e + 1, o) && Parens(ts, e + 1) == Parens(ts, e)
  {
    hide Lexed, Gap, Neat, Clean, Tidy, Printed, Inside, NumberText, Parens;
    InsideIs(ts, e);
    InsideText(ts, e, o);
    InsideGap(ts, e, o);
    PartOfNumber(ts, e);
    NeatStep(ts, e, o);
    Glue("", "", ts[e].value, Neat(ts, e + 1, o));
  }

  lemma OpensStill(w: string, v: string)
    requires OpensNumber(w)
    ensures OpensNumber(w + v)
  {
  }

  lemma Glue(g: string, w: string, v: string, rest: string)
    ensures g + w + (v + rest) == g + (w + v) + rest
    ensures "" + v + rest == v + rest
  {
  }

  lemma {:induction false} BlockEnds(ts: seq<Token>, i: nat, k: nat, v: string, o: Options) returns (e: nat, w: string)
    requires Lexed(ts) && i < k <= |ts| && Block(ts, i, k, v, o)
    ensures k <= e <= |ts| && Block(ts, i, e, w, o) && (e == |ts| || !Inside(ts, e))
    decreases |ts| - k
  {
    hide Lexed, Block, Inside;
    e, w := k, v;
    if k < |ts| && Inside(ts, k) {
      BlockGrows(ts, i, k, v, o);
      e, w := BlockEnds(ts, i, k + 1, v + ts[k].value, o);
    }
  }

  /** A number with what is read into it. */
  lemma HeadBlock(ts: seq<Token>, i: nat, o: Options) returns (e: nat, w: string)
    requires Lexed(ts) && i < |ts| && Heads(ts, i)
    ensures i + 1 < e <= |ts| && Block(ts, i, e, w, o) && (e == |ts| || !Inside(ts, e))
    ensures ts[i].kind.Number? || IsDot(ts[i])
  {
    hide Lexed, Gap, Neat, Clean, Tidy, Printed, NumberText, Lexeme, Parens;
    NeatStep(ts, i, o);
    InsideText(ts, i, o);
    PartOfNumber(ts, i);
    assert Lexeme(ts[i]) by { LexedAt(ts, i); }
    if ts[i].kind.Number? {
      NumberLexeme(ts[i]);
      e, w := BlockEnds(ts, i, i + 1, ts[i].value, o);
      assert e > i + 1;
    } else {
      InsideText(ts, i + 1, o);
      InsideGap(ts, i + 1, o);
      PartOfNumber(ts, i + 1);
      NeatStep(ts, i + 1, o);
      NumberTexts(".", ts[i + 1].value);
      var v, rest := ts[i + 1].value, Neat(ts, i + 2, o);
      assert Gap(ts, i, o) + "." + ("" + v + rest) == Gap(ts, i, o) + ("." + v) + rest;
      e, w := BlockEnds(ts, i, i + 2, "." + v, o);
    }
  }

  // ---------- What stands behind a number ----------

  /** Where the first run prints a gap, or a mark, or nothing, the number ends. */
  lemma NumberStops(ts: seq<Token>, e: nat, o: Options)
    requires Lexed(ts) && 0 < e < |ts| && Inside(ts, e - 1) && !Inside(ts, e)
    requires !(IsDot(ts[e - 1]) && LeadOf(ts, e) == Spaced)
    ensures Neat(ts, e, o) != "" && !IsNumberChar(Neat(ts, e, o)[0])
  {
    hide Lexed, Gap, Neat, Lexeme, LeadOf, EffectOf, IsSpace, Cased, Eaten, BeginsWithDigit;
    NeatBegins(ts, e, o);
    InsideIs(ts, e - 1);
    PartOfNumber(ts, e - 1);
    assert Lexeme(ts[e]) by { LexedAt(ts, e); }
    if Gap(ts, e, o) != "" {
      DarkWordChar(Neat(ts, e, o)[0]);
    } else {
      NoGap(ts, e - 1, o);
      if IsDot(ts[e - 1]) {
        TightGap(ts, e, o);
      }
      JoinedIs(ts, e);
      JoinedStays(ts[e], o);
    }
  }

  /** Behind a dot only a token that wants nothing before it, or a space, stands without a gap. */
  lemma TightGap(ts: seq<Token>, e: nat, o: Options)
    requires 0 < e < |ts| && State(ts, e) == Tight
    ensures Gap(ts, e, o) == "" <==> !LeadOf(ts, e).Fresh?
  {
    hide LeadOf, EffectOf;
    if LeadOf(ts, e).Fresh? {
      LinesOnly(1, 0);
    }
  }

  lemma {:induction false} FirstOther(s: string, i: nat) returns (k: nat)
    requires i <= |s| && forall m :: 0 <= m < i ==> IsExponent(s[m])
    requires !forall m :: 0 <= m < |s| ==> IsExponent(s[m])
    ensures k < |s| && !IsExponent(s[k]) && forall m :: 0 <= m < k ==> IsExponent(s[m])
    decreases |s| - i
  {
    if IsExponent(s[i]) {
      k := FirstOther(s, i + 1);
    } else {
      k := i;
    }
  }

  /** A reserved word has another letter than e among its first two. */
  lemma ReservedHasLetter(u: string)
    requires IsReserved(u)
    ensures |u| >= 2 && (u[0] != 'E' || !IsExponent(u[1]))
  {
  }

  lemma KeywordStops(t: Token)
    requires Lexeme(t) && t.kind.Keyword?
    ensures !forall m :: 0 <= m < |t.value| ==> IsExponent(t.value[m])
  {
    hide IsReserved;
    KeywordIsWord(t);
    ReservedHasLetter(Upper(t.value));
    var s, u := t.value, Upper(t.value);
    assert u[0] == UpperChar(s[0]) && u[1] == UpperChar(s[1]);
    assert IsExponent(s[0]) ==> u[0] == 'E';
    assert IsExponent(s[1]) ==> IsExponent(u[1]);
  }

  /** A number and the digits and e behind it. */
  lemma BlockFirst(w: string, y: string, p: nat)
    requires NumberText(w) && OpensNumber(w) && p <= |y| && forall m :: 0 <= m < p ==> IsExponent(y[m])
    requires p == |y| || !IsNumberChar(y[p]) || (p == 0 && (y[0] == '+' || y[0] == '-') && w[|w| - 1] == '.')
    ensures First(w + y) == Token(Number, w + y[..p])
  {
    hide OpensNumber;
    OpensStill(w, y);
    var s, n := w + y, |w| + p;
    assert w != "" by { OpensSomething(w); }
    forall k | 0 <= k < n
      ensures NumericAt(s, k)
    {
      if k < |w| {
        assert NumericAt(w, k);
      } else {
        assert s[k] == y[k - |w|];
      }
    }
    assert n < |s| ==> s[n] == y[p] && !NumericAt(s, n);
    NumberRead(s, n);
    assert s[..n] == w + y[..p];
  }

  lemma OpensSomething(w: string)
    requires OpensNumber(w)
    ensures w != ""
  {
  }

  /** A number that ends in a dot stops in front of this text, or after some digits and e of it. */
  predicate StopsIn(y: string, p: nat) {
    && p < |y| && (forall m :: 0 <= m < p ==> IsExponent(y[m])) && !IsSpace(y[p]) && y[p] !in ".)],;"
    && (!IsNumberChar(y[p]) || (p == 0 && (y[0] == '+' || y[0] == '-')))
  }

  /** The first character of a token at which a number ending in a dot would stop. */
  lemma TokenStops(t: Token) returns (p: nat)
    requires Lexeme(t) && !IsDot(t) && !Eaten(t) && (t.kind.Punct? ==> t.value == "(")
    ensures StopsIn(t.value, p) && (p > 0 ==> Cleaned(t) == t)
  {
    hide Lexeme, IsSpace, IsExponent, IsNumberChar, Eaten, Cleaned;
    LexemeText(t);
    if t.value[0] == 'e' || t.value[0] == 'E' {
      p := WordStops(t);
    } else {
      MarkIs(t);
      p := 0;
    }
  }

  lemma WordStops(t: Token) returns (p: nat)
    requires Lexeme(t) && !Eaten(t) && (t.value[0] == 'e' || t.value[0] == 'E')
    ensures p < |t.value| && (forall m :: 0 <= m < p ==> IsExponent(t.value[m]))
    ensures !IsSpace(t.value[p]) && !IsNumberChar(t.value[p]) && t.value[p] !in ".)],;" && Cleaned(t) == t
  {
    hide Lexeme, IsSpace, Reach, Cleaned, OpeningOf;
    WordIs(t);
    DarkToken(t);
    if t.kind.Keyword? {
      KeywordStops(t);
    }
    p := FirstOther(t.value, 0);
    WordChars(t.value, 0);
    OtherWordChar(t.value[p]);
  }

  lemma OtherWordChar(c: char)
    requires IsWordChar(c) && !IsExponent(c)
    ensures !IsSpace(c) && !IsNumberChar(c) && c !in ".)],;"
  {
    DarkWordChar(c);
    hide IsSpace;
  }

  lemma WordIs(t: Token)
    requires Lexeme(t) && (t.value[0] == 'e' || t.value[0] == 'E')
    ensures OpeningOf(t.value) == Scanned(Word, 0) && Reach(Word, t.value, 0) == |t.value|
    ensures t.kind.Keyword? || t.kind.Identifier?
  {
    hide IsReserved, Upper, Reach;
    assert t.value[..|t.value|] == t.value;
  }

  lemma MarkIs(t: Token)
    requires Lexeme(t) && !IsDot(t) && !Eaten(t) && (t.kind.Punct? ==> t.value == "(")
    ensures t.value[0] == 'e' || t.value[0] == 'E' || t.value[0] == '+' || t.value[0] == '-' || !IsNumberChar(t.value[0])
    ensures t.value[0] !in ".)],;"
  {
    hide IsReserved, Upper, Reach;
    TokenShapes(t);
    var x := t.value;
    assert x[..|x|] == x;
    if x[0] in ".)],;" {
      MarkOpens(x);
    }
  }

  lemma MarkOpens(x: string)
    requires x != "" && x[0] in ".)],;"
    ensures if x[0] == '.' then OpeningOf(x) == Scanned(Numeric, 0) || OpeningOf(x) == Fixed(Operator, 1)
            else OpeningOf(x) == Fixed(Punct, 1)
  {
    var both := [x[0]] + Second(x);
    assert both[0] == x[0];
    if IsTwoCharOperator(both) {
      TwoCharEnds(both);
    }
  }

  lemma PrintedStops(t: Token, o: Options) returns (p: nat)
    requires Lexeme(t) && !IsDot(t) && !Eaten(t) && (t.kind.Punct? ==> t.value == "(")
    ensures StopsIn(Printed(t, o).value, p)
  {
    hide Lexeme, IsSpace, Clean, IsExponent, IsNumberChar;
    if t.kind.Keyword? {
      CasedLexeme(t, o);
      CleanedLexeme(Cased(t, o));
      p := TokenStops(Cased(t, o));
    } else {
      p := TokenStops(t);
      LexemeText(t);
      CleanEnds(t.value);
    }
  }

  /** Behind a number that ends in a dot, a token that wants a space is printed without one. */
  lemma SpacedStops(ts: seq<Token>, e: nat, o: Options) returns (p: nat)
    requires Lexed(ts) && 0 < e < |ts| && IsDot(ts[e - 1]) && Inside(ts, e - 1) && !Inside(ts, e) && LeadOf(ts, e) == Spaced
    ensures StopsIn(Neat(ts, e, o), p)
  {
    hide Lexed, Gap, Neat, Lexeme, LeadOf, EffectOf, IsSpace, Printed, IsExponent, IsNumberChar, Eaten;
    LexedAt(ts, e);
    PartOfNumber(ts, e - 1);
    TightGap(ts, e, o);
    NeatStep(ts, e, o);
    SpacedIs(ts, e);
    p := PrintedStops(ts[e], o);
    StopsLonger(Printed(ts[e], o).value, Neat(ts, e + 1, o), p);
  }

  lemma StopsLonger(c: string, rest: string, p: nat)
    requires StopsIn(c, p)
    ensures StopsIn("" + c + rest, p)
  {
    hide IsSpace, IsExponent, IsNumberChar;
    assert "" + c + rest == c + rest;
  }

  lemma SpacedIs(ts: seq<Token>, e: nat)
    requires e < |ts| && LeadOf(ts, e) == Spaced
    ensures ts[e].kind.Punct? ==> ts[e].value == "("
    ensures !IsDot(ts[e])
  {
    hide Upper, IsClause, IsJoin, IsContinuation;
  }

  /** Whatever is left of it then begins a token that wants a space or a new line. */
  lemma NotJoined(us: seq<Token>, j: nat)
    requires 0 < j < |us| && Lexeme(us[j]) && us[j - 1].kind.Number? && us[j].value[0] !in ".)],;"
    ensures LeadOf(us, j) != Joined
  {
    hide LeadOf, Lexeme;
    if LeadOf(us, j) == Joined {
      JoinedIs(us, j);
    }
  }

  // ---------- The second run beside the first ----------

  /** The layout looks at nothing in which the two tokens differ. */
  predicate Alike(t: Token, u: Token) {
    && u.kind == t.kind && (t.kind.Punct? || t.kind.Operator? ==> u.value == t.value)
    && (t.kind.Keyword? ==> Upper(u.value) == Upper(t.value))
  }

  /** A printed token is laid out as the token, and casing it again changes nothing. */
  lemma PrintedAlike(t: Token, o: Options)
    requires Lexeme(t)
    ensures Alike(t, Printed(t, o)) && Cased(Printed(t, o), o) == Printed(t, o)
  {
    CasedLexeme(t, o);
    CleanedLexeme(Cased(t, o));
    UpperIsUpper(t.value);
  }

  /** Before token i of the first run and token j of the second, the layout knows the same, but for a number read anew. */
  ghost predicate SameContext(ts: seq<Token>, us: seq<Token>, i: nat, j: nat)
    requires i <= |ts| && j <= |us|
  {
    && Parens(us, j) == Parens(ts, i) && (i == 0 <==> j == 0)
    && (i > 0 && Inside(ts, i - 1) ==> us[j - 1].kind.Number?)
    && (i > 0 && !Inside(ts, i - 1) ==> Alike(ts[i - 1], us[j - 1]) && State(us, j) == State(ts, i))
  }

  /** us are the tokens of the text of ts; their texts go together from i and j on. */
  ghost predicate Synced(ts: seq<Token>, us: seq<Token>, i: nat, j: nat, o: Options) {
    && Lexed(ts) && Lexed(us) && i <= |ts| && j <= |us| && (i < |ts| ==> !Inside(ts, i))
    && Lex(Neat(ts, i, o)) == us[j..] && SameContext(ts, us, i, j)
  }

  lemma StateBehind(ts: seq<Token>, us: seq<Token>, i: nat, j: nat)
    requires i <= |ts| && j <= |us| && SameContext(ts, us, i, j) && i > 0 && Inside(ts, i - 1)
    ensures State(us, j) == Open && State(ts, i) == if IsDot(ts[i - 1]) then Tight else Open
  {
    hide Eaten, EffectOf;
    InsideIs(ts, i - 1);
    PartOfNumber(ts, i - 1);
    NumberIsEaten(us[j - 1]);
    PartOfNumber(us, j - 1);
  }

  lemma CallSame(ts: seq<Token>, us: seq<Token>, i: nat, j: nat)
    requires i < |ts| && j < |us| && SameContext(ts, us, i, j)
    ensures IsFunctionCall(us, j) <==>
              IsFunctionCall(ts, i) && !(i > 0 && Inside(ts, i - 1) && ts[i - 1].kind.Identifier?)
  {
    hide Upper, State, Parens, Inside, Eaten;
    if i > 0 && Inside(ts, i - 1) {
      InsideIs(ts, i - 1);
      EatenIs(ts[i - 1]);
    }
  }

  lemma EatenIs(t: Token)
    ensures Eaten(t) ==> t.kind.Number? || t.kind.Identifier?
  {
  }

  /** Only a call can be laid out differently. */
  lemma LeadSame(ts: seq<Token>, us: seq<Token>, i: nat, j: nat)
    requires i < |ts| && j < |us| && SameContext(ts, us, i, j) && Alike(ts[i], us[j])
    ensures var call := IsMark(ts[i], "(") && i > 0 && Inside(ts, i - 1) && ts[i - 1].kind.Identifier?;
            if call then LeadOf(ts, i) == Joined && LeadOf(us, j) == Spaced else LeadOf(us, j) == LeadOf(ts, i)
  {
    hide Upper, IsClause, IsJoin, IsContinuation, Inside, State, Parens;
    CallSame(ts, us, i, j);
    if IsMark(ts[i], "(") {
      assert LeadOf(ts, i) == if IsFunctionCall(ts, i) then Joined else Spaced;
      assert LeadOf(us, j) == if IsFunctionCall(us, j) then Joined else Spaced;
    }
  }

  /** A token read on its own has the same gap before it in both runs exactly if it is steady. */
  lemma SimpleGap(ts: seq<Token>, us: seq<Token>, i: nat, j: nat, o: Options)
    requires i < |ts| && j < |us| && SameContext(ts, us, i, j) && Alike(ts[i], us[j]) && !Inside(ts, i) && !Heads(ts, i)
    ensures Gap(us, j, o) == Gap(ts, i, o) <==> Steady(ts, i)
  {
    hide LeadOf, EffectOf, Alike, Inside, Parens, Lines;
    LeadSame(ts, us, i, j);
    LinesOnly(0, 1);
    if i > 0 && Inside(ts, i - 1) {
      StateBehind(ts, us, i, j);
      EatenIs(ts[i - 1]);
      InsideIs(ts, i - 1);
    }
  }

  /** A number read anew has the same gap before it in both runs exactly if it is steady. */
  lemma BlockGap(ts: seq<Token>, us: seq<Token>, i: nat, j: nat, o: Options)
    requires i < |ts| && j < |us| && SameContext(ts, us, i, j) && Heads(ts, i) && us[j].kind.Number?
    requires ts[i].kind.Number? || IsDot(ts[i])
    ensures Gap(us, j, o) == Gap(ts, i, o) <==> Steady(ts, i)
  {
    hide LeadOf, EffectOf, Alike, Parens, Lines, Eaten;
    LinesOnly(0, 1);
    NumberIsEaten(ts[i]);
    NumberIsEaten(us[j]);
    PartOfNumber(ts, i);
    PartOfNumber(us, j);
    if i > 0 && Inside(ts, i - 1) {
      StateBehind(ts, us, i, j);
    }
  }

  // ---------- Reading the first run ----------

  lemma ReadSimple(ts: seq<Token>, i: nat, o: Options)
    requires Lexed(ts) && i < |ts| && !Inside(ts, i) && !Heads(ts, i)
    ensures Lex(Neat(ts, i, o)) == [Printed(ts[i], o)] + Lex(Neat(ts, i + 1, o))
  {
    hide Lexed, Lex, Neat, Printed;
    NumberIsEaten(ts[i]);
    ClashIsInside(ts, i);
    ReadsOne(ts, i, o);
  }

  lemma ClashIsInside(ts: seq<Token>, i: nat)
    requires i < |ts|
    ensures DotClash(ts, i) ==> Inside(ts, i + 1)
  {
  }

  /** A number read anew, and what is left behind it. */
  lemma ReadBlock(ts: seq<Token>, i: nat, e: nat, w: string, o: Options) returns (p: nat)
    requires Lexed(ts) && i + 1 < e <= |ts| && Heads(ts, i) && Block(ts, i, e, w, o) && (e == |ts| || !Inside(ts, e))
    ensures var y := Neat(ts, e, o);
            && p <= |y| && NumberText(w + y[..p]) && OpensNumber(w + y[..p])
            && Lex(Neat(ts, i, o)) == [Token(Number, w + y[..p])] + Lex(y[p..])
            && (if e < |ts| && IsDot(ts[e - 1]) && LeadOf(ts, e) == Spaced
                then p < |y| && !IsSpace(y[p]) && y[p] !in ".)],;"
                else p == 0)
  {
    hide Lexed, Lex, Neat, NumberText, OpensNumber, IsSpace, LeadOf, IsExponent, Inside, Gap, Parens, First, IsNumberChar;
    var y := Neat(ts, e, o);
    assert Inside(ts, e - 1);
    p := 0;
    if e < |ts| {
      if IsDot(ts[e - 1]) && LeadOf(ts, e) == Spaced {
        p := SpacedStops(ts, e, o);
      } else {
        NumberStops(ts, e, o);
      }
    } else {
      NeatEnds(ts, o);
    }
    ExponentText(y[..p]);
    NumberTexts(w, y[..p]);
    OpensStill(w, y[..p]);
    BlockFirst(w, y, p);
    LexBehindGap(ts, i, w, y, p, o);
  }

  lemma LexBehindGap(ts: seq<Token>, i: nat, w: string, y: string, p: nat, o: Options)
    requires i < |ts| && Neat(ts, i, o) == Gap(ts, i, o) + w + y && OpensNumber(w) && NumberText(w) && p <= |y|
    requires First(w + y) == Token(Number, w + y[..p])
    ensures Lex(Neat(ts, i, o)) == [Token(Number, w + y[..p])] + Lex(y[p..])
  {
    hide Lex, Neat, NumberText, IsSpace, Gap, First;
    var n, m := GapIsLines(ts, i, o);
    LinesOnly(n, m);
    NumberIsDark(w);
    assert Neat(ts, i, o) == Gap(ts, i, o) + (w + y);
    LexSkips(Gap(ts, i, o), w + y);
    LexStep(w + y);
    assert (w + y)[|w + y[..p]|..] == y[p..];
  }

  /** The first token read behind a gap: a number read anew, or the printed token. */
  lemma FirstRead(ts: seq<Token>, i: nat, o: Options)
    requires Lexed(ts) && i < |ts| && !Inside(ts, i)
    ensures var read := Lex(Neat(ts, i, o));
            read != [] && if Heads(ts, i) then read[0].kind.Number? && !ts[i].kind.Keyword? else read[0] == Printed(ts[i], o)
  {
    hide Lexed, Lex, Neat, Printed, Inside;
    if Heads(ts, i) {
      var e, w := HeadBlock(ts, i, o);
      var p := ReadBlock(ts, i, e, w, o);
    } else {
      ReadSimple(ts, i, o);
    }
  }

  // ---------- Comparing the two runs ----------

  lemma GapsEqual(g: string, h: string, x: string, y: string)
    requires AllSpace(g) && AllSpace(h) && x != "" && y != "" && !IsSpace(x[0]) && !IsSpace(y[0])
    ensures h + y == g + x ==> h == g && y == x
  {
    hide IsSpace, TrimStart;
    TrimStartTakes(g, x);
    TrimStartTakes(h, y);
    assert h + y == g + x ==> |h| == |g| && h == (h + y)[..|h|] && g == (g + x)[..|g|];
  }

  /** A clean-up leaves no proper beginning of a text that does not end in white space. */
  lemma NoBeginning(c: string, rest: string, more: string)
    requires c != "" && !IsSpace(c[|c| - 1]) && Clean(c) + more == c + rest
    ensures Clean(c) == c && more == rest
  {
    hide IsSpace, Clean, Bare;
    var d := Clean(c);
    assert d == (d + more)[..|d|] && c[..|d|] == (c + rest)[..|d|];
    var tail := c[|d|..];
    assert c == d + tail;
    assert tail != "" ==> tail[|tail| - 1] == c[|c| - 1];
    BareClean(c);
    BareAppend(d, tail);
    BareNothing(tail);
    assert c == (c + rest)[..|c|] && rest == (c + rest)[|c|..];
  }

  lemma Compare(g: string, h: string, c: string, rest: string, more: string)
    requires AllSpace(g) && AllSpace(h) && c != "" && !IsSpace(c[0]) && !IsSpace(c[|c| - 1])
    ensures h + Clean(c) + more == g + c + rest <==> h == g && Clean(c) == c && more == rest
  {
    hide IsSpace, Clean, AllSpace;
    CleanEnds(c);
    if h + Clean(c) + more == g + c + rest {
      assert h + Clean(c) + more == h + (Clean(c) + more) && g + c + rest == g + (c + rest);
      GapsEqual(g, h, c + rest, Clean(c) + more);
      NoBeginning(c, rest, more);
    }
  }

  lemma GapIsSpace(ts: seq<Token>, i: nat, o: Options)
    requires i < |ts|
    ensures AllSpace(Gap(ts, i, o))
  {
    hide Gap, AllSpace;
    var n, m := GapIsLines(ts, i, o);
    LinesOnly(n, m);
  }

  lemma NumberEnds(w: string)
    requires NumberText(w) && OpensNumber(w)
    ensures w != "" && !IsSpace(w[0]) && !IsSpace(w[|w| - 1]) && Clean(w) == w
  {
    hide IsSpace, NumericAt, Clean;
    NumberIsDark(w);
    DarkIsTidy(w);
    CleanFixed(w);
  }

  /** The token survives both runs and stands behind the same gap in both. */
  predicate Settled(ts: seq<Token>, i: nat)
    requires i < |ts|
  {
    Tidy(Clean(ts[i].value)) && Steady(ts, i)
  }

  /** Casing has no part in it: a cased keyword is as tidy as a keyword. */
  lemma PrintedTidy(t: Token, o: Options)
    requires Lexeme(t)
    ensures Clean(Printed(t, o).value) == Printed(t, o).value <==> Tidy(Clean(t.value))
  {
    hide Tidy, IsReserved, IsSpace, IsWordChar, Clean, Reach, Upper;
    CleanFixed(Printed(t, o).value);
    if t.kind.Keyword? {
      CasedLexeme(t, o);
      KeywordIsWord(t);
      WordTidy(t.value);
      CleanFixed(t.value);
      KeywordIsWord(Cased(t, o));
      WordTidy(Cased(t, o).value);
      CleanFixed(Cased(t, o).value);
    }
  }

  lemma EffectSame(ts: seq<Token>, us: seq<Token>, i: nat, j: nat)
    requires i < |ts| && j < |us| && Alike(ts[i], us[j]) && Parens(us, j) == Parens(ts, i)
    requires i + 1 < |ts| <==> j + 1 < |us|
    requires i + 1 < |ts| ==> (IsWord(us[j + 1], "DISTINCT") <==> IsWord(ts[i + 1], "DISTINCT"))
    ensures EffectOf(us, j) == EffectOf(ts, i) && Parens(us, j + 1) == Parens(ts, i + 1)
  {
    hide Upper, IsClause, IsJoin, IsContinuation;
  }

  lemma SimpleStep(ts: seq<Token>, us: seq<Token>, i: nat, j: nat, o: Options)
    requires Synced(ts, us, i, j, o) && i < |ts| && !Heads(ts, i)
    ensures j < |us| && us[j] == Printed(ts[i], o) && Synced(ts, us, i + 1, j + 1, o)
    ensures Gap(us, j, o) == Gap(ts, i, o) <==> Steady(ts, i)
  {
    hide Lexed, Lex, Neat, Printed, Inside, Alike, Lexeme, Gap, Steady, EffectOf, Parens;
    ReadSimple(ts, i, o);
    assert us[j..][0] == us[j] && us[j..][1..] == us[j + 1..];
    assert Lexeme(ts[i]) by { LexedAt(ts, i); }
    PrintedAlike(ts[i], o);
    SimpleGap(ts, us, i, j, o);
    if i + 1 < |ts| {
      FirstRead(ts, i + 1, o);
      assert us[j + 1..][0] == us[j + 1];
      WordRead(ts, us[j + 1], i + 1, o);
    } else {
      NeatEnds(ts, o);
      LexEmpty("");
    }
    EffectSame(ts, us, i, j);
  }

  lemma WordRead(ts: seq<Token>, u: Token, i: nat, o: Options)
    requires Lexed(ts) && i < |ts|
    requires if Heads(ts, i) then u.kind.Number? && !ts[i].kind.Keyword? else u == Printed(ts[i], o)
    ensures IsWord(u, "DISTINCT") <==> IsWord(ts[i], "DISTINCT")
  {
    hide Lexeme, Upper, Heads, Printed;
    LexedAt(ts, i);
    PrintedAlike(ts[i], o);
  }

  lemma SimpleNeat(ts: seq<Token>, us: seq<Token>, i: nat, j: nat, o: Options)
    requires Lexed(ts) && i < |ts| && j < |us| && us[j] == Printed(ts[i], o)
    ensures Neat(us, j, o) == Neat(ts, i, o) <==>
              Gap(us, j, o) == Gap(ts, i, o) && Tidy(Clean(ts[i].value)) && Neat(us, j + 1, o) == Neat(ts, i + 1, o)
  {
    hide Lexed, Neat, Lexeme, Gap, Tidy, Clean, IsSpace, Cased;
    assert Lexeme(ts[i]) by { LexedAt(ts, i); }
    NeatStep(ts, i, o);
    NeatStep(us, j, o);
    PrintedAlike(ts[i], o);
    PrintedTidy(ts[i], o);
    TextStarts(ts, i, o);
    CleanEnds(Cased(ts[i], o).value);
    GapIsSpace(ts, i, o);
    GapIsSpace(us, j, o);
    Compare(Gap(ts, i, o), Gap(us, j, o), Printed(ts[i], o).value, Neat(ts, i + 1, o), Neat(us, j + 1, o));
  }

  /** The second run prints the number read anew, and then what is left of the text of the first. */
  lemma BlockNeat(ts: seq<Token>, us: seq<Token>, i: nat, j: nat, e: nat, w: string, p: nat, o: Options)
    requires i < e <= |ts| && j < |us| && Block(ts, i, e, w, o) && p <= |Neat(ts, e, o)|
    requires var v := w + Neat(ts, e, o)[..p]; us[j] == Token(Number, v) && NumberText(v) && OpensNumber(v)
    ensures Neat(us, j, o) == Neat(ts, i, o) <==>
              Gap(us, j, o) == Gap(ts, i, o) && Neat(us, j + 1, o) == Neat(ts, e, o)[p..]
  {
    hide Neat, Gap, Clean, IsSpace, NumberText, OpensNumber, Inside, Parens;
    var v, y := us[j].value, Neat(ts, e, o);
    NeatStep(us, j, o);
    NumberEnds(v);
    GapIsSpace(ts, i, o);
    GapIsSpace(us, j, o);
    assert Printed(us[j], o).value == Clean(v);
    assert Gap(ts, i, o) + w + y == Gap(ts, i, o) + v + y[p..];
    Compare(Gap(ts, i, o), Gap(us, j, o), v, y[p..], Neat(us, j + 1, o));
  }

  lemma BlockSettled(ts: seq<Token>, i: nat, e: nat, w: string, o: Options)
    requires Lexed(ts) && i + 1 < e <= |ts| && Heads(ts, i) && Block(ts, i, e, w, o)
    ensures forall k :: i < k < e ==> Settled(ts, k)
    ensures Settled(ts, i) <==> Steady(ts, i)
  {
    hide Lexed, Neat, Gap, Parens, Clean, Tidy, LeadOf, EffectOf, Printed, NumberText, OpensNumber, Inside, Eaten;
    forall k | i < k < e
      ensures Settled(ts, k)
    {
      InsideIs(ts, k);
      InsideText(ts, k, o);
    }
    HeadIs(ts, i);
    InsideText(ts, i, o);
  }

  lemma HeadIs(ts: seq<Token>, i: nat)
    requires i < |ts| && Heads(ts, i)
    ensures ts[i].kind.Number? || IsDot(ts[i])
    ensures IsDot(ts[i]) || Eaten(ts[i])
  {
  }

  /** A number read anew that ends where the first run ended it. */
  lemma BlockStep(ts: seq<Token>, us: seq<Token>, i: nat, j: nat, e: nat, w: string, o: Options)
    requires Synced(ts, us, i, j, o) && i + 1 < e <= |ts| && Heads(ts, i) && Block(ts, i, e, w, o)
    requires e < |ts| ==> !Inside(ts, e)
    requires Lex(Neat(ts, i, o)) == [Token(Number, w)] + Lex(Neat(ts, e, o))
    ensures j < |us| && us[j] == Token(Number, w) && Synced(ts, us, e, j + 1, o)
    ensures Gap(us, j, o) == Gap(ts, i, o) <==> Steady(ts, i)
  {
    hide Lexed, Lex, Neat, Inside, Alike, Gap, Steady, EffectOf, LeadOf, Eaten, NumberText, OpensNumber;
    assert us[j..][0] == us[j] && us[j..][1..] == us[j + 1..];
    HeadIs(ts, i);
    BlockGap(ts, us, i, j, o);
    NumberIsEaten(us[j]);
    PartOfNumber(us, j);
    assert Inside(ts, e - 1);
  }

  /** A number that stops short of a token printed right behind it: the second run parts the two. */
  lemma BlockParts(ts: seq<Token>, us: seq<Token>, i: nat, j: nat, e: nat, w: string, p: nat, o: Options)
    requires Synced(ts, us, i, j, o) && i < e < |ts| && p < |Neat(ts, e, o)|
    requires var y := Neat(ts, e, o);
             && Lex(Neat(ts, i, o)) == [Token(Number, w + y[..p])] + Lex(y[p..])
             && !IsSpace(y[p]) && y[p] !in ".)],;"
    ensures j < |us| && us[j] == Token(Number, w + Neat(ts, e, o)[..p]) && Neat(us, j + 1, o) != Neat(ts, e, o)[p..]
  {
    hide Lexed, Lex, Neat, Inside, Gap, EffectOf, LeadOf, IsSpace, Lexeme, SameContext, First;
    var z := Neat(ts, e, o)[p..];
    assert us[j..][0] == us[j] && us[j..][1..] == us[j + 1..];
    LexStep(z);
    assert z[0] == Neat(ts, e, o)[p];
    assert us[j + 1..][0] == us[j + 1] == First(z);
    assert First(z).value[0] == z[0];
    LexedAt(us, j + 1);
    NotJoined(us, j + 1);
    NumberIsEaten(us[j]);
    PartOfNumber(us, j);
    OpenGap(us, j + 1, o);
    NeatBegins(us, j + 1, o);
  }

  lemma OpenGap(ts: seq<Token>, i: nat, o: Options)
    requires i < |ts| && State(ts, i) == Open && LeadOf(ts, i) != Joined
    ensures Gap(ts, i, o) != ""
  {
    hide LeadOf, EffectOf;
    LinesOnly(1, 0);
  }

  /** From two places that go together on, the texts are the same exactly if every token is settled. */
  lemma {:induction false} SameAgain(ts: seq<Token>, us: seq<Token>, i: nat, j: nat, o: Options)
    requires Synced(ts, us, i, j, o)
    ensures Neat(us, j, o) == Neat(ts, i, o) <==> forall k :: i <= k < |ts| ==> Settled(ts, k)
    decreases |ts| - i
  {
    hide Lexed, Lex, Neat, Inside, Gap, SameContext, Settled, Steady, Block, LeadOf, NumberText, OpensNumber, IsSpace, Heads;
    if i == |ts| {
      NeatEnds(ts, o);
      LexEmpty("");
      NeatEnds(us, o);
      assert us[j..] == [] && j == |us|;
    } else if !Heads(ts, i) {
      SimpleStep(ts, us, i, j, o);
      SimpleNeat(ts, us, i, j, o);
      SameAgain(ts, us, i + 1, j + 1, o);
      assert Settled(ts, i) <==> Tidy(Clean(ts[i].value)) && Steady(ts, i) by { SettledIs(ts, i); }
    } else {
      BlockAgain(ts, us, i, j, o);
    }
  }

  lemma SettledIs(ts: seq<Token>, i: nat)
    requires i < |ts|
    ensures Settled(ts, i) <==> Tidy(Clean(ts[i].value)) && Steady(ts, i)
  {
  }

  lemma {:induction false} BlockAgain(ts: seq<Token>, us: seq<Token>, i: nat, j: nat, o: Options)
    requires Synced(ts, us, i, j, o) && i < |ts| && Heads(ts, i)
    ensures Neat(us, j, o) == Neat(ts, i, o) <==> forall k :: i <= k < |ts| ==> Settled(ts, k)
    decreases |ts| - i, 0
  {
    hide Lexed, Lex, Neat, Inside, Gap, SameContext, Settled, Steady, Block, LeadOf, NumberText, OpensNumber, IsSpace, Heads;
    var e, w := HeadBlock(ts, i, o);
    var p := ReadBlock(ts, i, e, w, o);
    var y := Neat(ts, e, o);
    BlockSettled(ts, i, e, w, o);
    if e < |ts| && IsDot(ts[e - 1]) && LeadOf(ts, e) == Spaced {
      BlockParts(ts, us, i, j, e, w, p, o);
      BlockNeat(ts, us, i, j, e, w, p, o);
      Unsettled(ts, i, e, w, o);
    } else {
      assert w + y[..0] == w && y[0..] == y;
      BlockStep(ts, us, i, j, e, w, o);
      BlockNeat(ts, us, i, j, e, w, 0, o);
      SameAgain(ts, us, e, j + 1, o);
    }
  }

  lemma Unsettled(ts: seq<Token>, i: nat, e: nat, w: string, o: Options)
    requires i + 1 < e < |ts| && Block(ts, i, e, w, o) && !Inside(ts, e) && IsDot(ts[e - 1]) && LeadOf(ts, e) == Spaced
    ensures !Settled(ts, e)
  {
    hide LeadOf, Neat, Gap, Parens, Clean, Tidy, NumberText, OpensNumber;
    assert Inside(ts, e - 1);
  }

  // ---------- Formatting twice ----------

  /** The first token has the same gap before it in both runs. */
  lemma FirstGap(ts: seq<Token>, us: seq<Token>, o: Options)
    requires Synced(ts, us, 0, 0, o) && ts != []
    ensures us != [] && Gap(us, 0, o) == Gap(ts, 0, o)
  {
    hide Lexed, Lex, Neat, Gap, Alike, Lexeme, Printed;
    FirstRead(ts, 0, o);
    assert us[0..] == us;
    if Heads(ts, 0) {
      HeadIs(ts, 0);
      BlockGap(ts, us, 0, 0, o);
    } else {
      LexedAt(ts, 0);
      PrintedAlike(ts[0], o);
      SimpleGap(ts, us, 0, 0, o);
    }
  }

  /** For every input: formatting twice is formatting once exactly if every token is settled. */
  lemma IdempotentIff(input: string, o: Options)
    ensures Format(Format(input, o), o) == Format(input, o) <==> forall i :: 0 <= i < |Lex(input)| ==> Settled(Lex(input), i)
  {
    hide Lex, Lexed, Gap, Render, Neat, AllSpace, Settled;
    var ts, us := Lex(input), Lex(Format(input, o));
    LexIsLexed(input);
    LexIsLexed(Format(input, o));
    if ts == [] {
      NoTokens(o);
      LexEmpty("");
    } else {
      RenderIsNeat(ts, o);
      LexSkips(Gap(ts, 0, o), Render(ts, o));
      assert us[0..] == us;
      assert Synced(ts, us, 0, 0, o);
      hide Synced;
      FirstGap(ts, us, o);
      RenderIsNeat(us, o);
      SameAgain(ts, us, 0, 0, o);
      SameBehind(Gap(ts, 0, o), Render(us, o), Render(ts, o));
    }
  }

  /** Where no dot meets a number only the clean-up counts. */
  lemma IdempotentWithoutClash(input: string, o: Options)
    requires forall i :: 0 <= i < |Lex(input)| ==> !DotClash(Lex(input), i)
    ensures Format(Format(input, o), o) == Format(input, o) <==>
              forall i :: 0 <= i < |Lex(input)| ==> Tidy(Clean(Lex(input)[i].value))
  {
    hide Lex, Format, Tidy, Clean, Steady;
    NoClashIsSteady(Lex(input));
    IdempotentIff(input, o);
    assert forall i :: 0 <= i < |Lex(input)| ==> (Settled(Lex(input), i) <==> Tidy(Clean(Lex(input)[i].value)));
  }
}
