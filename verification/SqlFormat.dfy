/** What the SQL formatter preserves: exactly when the formatted text has the same tokens, and what it keeps in any case. */
module SqlFormat {
  import opened Text
  import opened SqlLexer
  import opened SqlCleanup
  import opened SqlLayout
  import opened SqlThinning

  function Format(input: string, o: Options): string {
    Render(Lex(input), o)
  }

  function CasedAll(ts: seq<Token>, o: Options): (r: seq<Token>)
    ensures |r| == |ts| && forall i :: 0 <= i < |ts| ==> r[i] == Cased(ts[i], o)
  {
    seq(|ts|, i requires 0 <= i < |ts| => Cased(ts[i], o))
  }

  /** A dot next to a number it would become part of. */
  predicate DotClash(ts: seq<Token>, i: nat)
    requires i < |ts|
  {
    i + 1 < |ts| && (
      || (ts[i].kind.Number? && IsDot(ts[i + 1]))
      || (IsDot(ts[i]) && ts[i + 1].kind.Number? && ts[i + 1].value != "" && IsDigit(ts[i + 1].value[0]))
    )
  }

  /** The closing replacements leave token i alone, and so does its neighbour. */
  predicate Sound(ts: seq<Token>, i: nat)
    requires i < |ts|
  {
    Tidy(ts[i].value) && !DotClash(ts, i)
  }

  /** The tokens from i on as they are finally printed, each behind its gap. */
  function Neat(ts: seq<Token>, i: nat, o: Options): string
    requires i <= |ts|
    decreases |ts| - i
  {
    if i == |ts| then "" else Gap(ts, i, o) + Clean(Cased(ts[i], o).value) + Neat(ts, i + 1, o)
  }

  function NeatTo(ts: seq<Token>, i: nat, o: Options): string
    requires i <= |ts|
  {
    if i == 0 then "" else NeatTo(ts, i - 1, o) + Gap(ts, i - 1, o) + Clean(Cased(ts[i - 1], o).value)
  }

  lemma {:induction false} NeatSplit(ts: seq<Token>, i: nat, o: Options)
    requires i <= |ts|
    ensures NeatTo(ts, i, o) + Neat(ts, i, o) == Neat(ts, 0, o)
  {
    hide Gap, Clean, Cased;
    if i > 0 {
      NeatSplit(ts, i - 1, o);
      var g, c := Gap(ts, i - 1, o), Clean(Cased(ts[i - 1], o).value);
      assert Neat(ts, i - 1, o) == g + c + Neat(ts, i, o);
      assert NeatTo(ts, i - 1, o) + (g + c + Neat(ts, i, o)) == (NeatTo(ts, i - 1, o) + g + c) + Neat(ts, i, o);
    } else {
      assert NeatTo(ts, 0, o) + Neat(ts, 0, o) == Neat(ts, 0, o);
    }
  }

  // ---------- The closing replacements act on each token by itself ----------

  /** A gap is at most two line feeds and some spaces. */
  lemma GapIsLines(ts: seq<Token>, i: nat, o: Options) returns (n: nat, m: nat)
    requires i < |ts|
    ensures n <= 2 && Gap(ts, i, o) == Lines(n, m)
    ensures !State(ts, i).Break? ==> n == 0 || LeadOf(ts, i).Fresh?
    ensures i > 0 && State(ts, i).Break? ==> n > 0
  {
    LinesOnly(0, 1);
    if i > 0 {
      EffectShape(ts, i - 1);
    }
    hide LeadOf, EffectOf, Lines, Lexeme;
    var lead, state := LeadOf(ts, i), State(ts, i);
    if lead.Fresh? {
      n, m := if state.Break? then state.lines else 1, lead.level * o.indent;
    } else if state.Break? {
      n, m := state.lines, state.level * o.indent;
    } else {
      n, m := 0, if lead.Spaced? && state.Open? then 1 else 0;
    }
  }

  lemma {:induction false} RawCleaned(ts: seq<Token>, i: nat, o: Options)
    requires Lexed(ts) && i <= |ts|
    ensures Strip(Collapse(Raw(ts, i, o))) == NeatTo(ts, i, o)
    ensures if i == 0 then Raw(ts, i, o) == ""
            else EndsDark(Raw(ts, i, o)) && EndsDark(Collapse(Raw(ts, i, o))) && EndsDark(NeatTo(ts, i, o))
  {
    hide Cased, Gap, Lexed, IsSpace, Collapse, Strip, Clean, EndsDark, TrimEnd, Raw, NeatTo, State, LeadOf, Lines;
    OneMore(ts, i, o);
    if i > 0 {
      TextStarts(ts, i - 1, o);
      RawCleaned(ts, i - 1, o);
      var n, m := GapIsLines(ts, i - 1, o);
      RawStep(Raw(ts, i - 1, o), n, m, Cased(ts[i - 1], o).value);
    }
  }

  lemma OneMore(ts: seq<Token>, i: nat, o: Options)
    requires i <= |ts|
    ensures i > 0 ==> Raw(ts, i, o) == Raw(ts, i - 1, o) + Gap(ts, i - 1, o) + TrimEnd(Cased(ts[i - 1], o).value)
    ensures i > 0 ==> NeatTo(ts, i, o) == NeatTo(ts, i - 1, o) + Gap(ts, i - 1, o) + Clean(Cased(ts[i - 1], o).value)
    ensures NeatTo(ts, 0, o) == "" == Raw(ts, 0, o) && Strip(Collapse("")) == ""
  {
    hide Gap, Clean, TrimEnd, Cased;
  }

  /** A printed token begins as the token does, and not with white space. */
  lemma TextStarts(ts: seq<Token>, i: nat, o: Options)
    requires Lexed(ts) && i < |ts|
    ensures Cased(ts[i], o).value != "" && !IsSpace(Cased(ts[i], o).value[0])
  {
    hide IsSpace;
    CasedLexeme(ts[i], o);
  }

  predicate EndsDark(s: string) {
    s != "" && !IsSpace(s[|s| - 1])
  }

  lemma Assoc(a: string, b: string, c: string)
    ensures a + b + c == a + (b + c)
  {
  }

  lemma CollapseStep(raw: string, n: nat, m: nat, x: string)
    requires raw == "" || EndsDark(raw)
    requires n <= 2 && x != "" && !IsSpace(x[0])
    ensures Collapse(raw + Lines(n, m) + x) == Collapse(raw) + Lines(n, m) + Collapse(x)
  {
    hide IsSpace, Collapse, Lines;
    NotSpaceAt(raw);
    GapStays(n, m, x);
    Assoc(raw, Lines(n, m), x);
    CollapseSplit(raw, Lines(n, m) + x);
    Assoc(Collapse(raw), Lines(n, m), Collapse(x));
  }

  lemma StripStep(raw: string, n: nat, m: nat, x: string)
    requires raw == "" || EndsDark(raw)
    requires n <= 2 && x != "" && !IsSpace(x[0])
    ensures Strip(raw + Lines(n, m) + x) == Strip(raw) + Lines(n, m) + Strip(x)
  {
    hide IsSpace, Strip, Lines;
    NotSpaceAt(raw);
    GapStays(n, m, x);
    Assoc(raw, Lines(n, m), x);
    StripSplit(raw, Lines(n, m) + x);
    Assoc(Strip(raw), Lines(n, m), Strip(x));
  }

  lemma RawStep(raw: string, n: nat, m: nat, text: string)
    requires raw == "" || (EndsDark(raw) && EndsDark(Collapse(raw)))
    requires n <= 2 && text != "" && !IsSpace(text[0])
    ensures var now := raw + Lines(n, m) + TrimEnd(text);
            && Strip(Collapse(now)) == Strip(Collapse(raw)) + Lines(n, m) + Clean(text)
            && EndsDark(now) && EndsDark(Collapse(now)) && EndsDark(Strip(Collapse(now)))
  {
    TrimEndEnds(text);
    CleanEnds(text);
    var x := TrimEnd(text);
    CollapseDark(x);
    assert raw == "" ==> Collapse(raw) == "" by { CollapseNothing(); }
    hide IsSpace, Collapse, Strip, TrimEnd, Lines;
    CollapseStep(raw, n, m, x);
    StripStep(Collapse(raw), n, m, Collapse(x));
    DarkBehind(raw + Lines(n, m), x);
    DarkBehind(Collapse(raw) + Lines(n, m), Collapse(x));
    DarkBehind(Strip(Collapse(raw)) + Lines(n, m), Clean(text));
  }

  lemma CollapseDark(x: string)
    requires EndsDark(x) && !IsSpace(x[0])
    ensures EndsDark(Collapse(x)) && !IsSpace(Collapse(x)[0])
  {
    CollapseEnds(x);
    NotSpace(x[0]);
    hide IsSpace, Collapse;
  }

  lemma DarkBehind(a: string, b: string)
    requires EndsDark(b)
    ensures EndsDark(a + b)
  {
    hide IsSpace;
  }

  lemma CollapseNothing()
    ensures Collapse("") == ""
  {
  }

  lemma NotSpaceAt(s: string)
    ensures EndsDark(s) ==> s[|s| - 1] != '\n' && !IsBlank(s[|s| - 1])
  {
  }

  /** The formatted text is the gap in front of the first token short of the printed tokens. */
  lemma RenderIsNeat(ts: seq<Token>, o: Options)
    requires Lexed(ts) && ts != []
    ensures Gap(ts, 0, o) + Render(ts, o) == Neat(ts, 0, o)
    ensures AllSpace(Gap(ts, 0, o))
  {
    hide Cased, Gap, Lexed, IsSpace, Collapse, Strip, Clean, EndsDark, Lines, Trim, State, AllSpace, Raw;
    var tail := Tail(State(ts, |ts|));
    var n, m := GapIsLines(ts, 0, o);
    LinesOnly(n, m);
    RawCleaned(ts, |ts|, o);
    TailStays(Raw(ts, |ts|, o), tail);
    NeatSplit(ts, |ts|, o);
    assert NeatTo(ts, |ts|, o) == Neat(ts, 0, o);
    NeatStarts(ts, o);
    var z := Clean(Cased(ts[0], o).value) + Neat(ts, 1, o);
    SpaceAround(Gap(ts, 0, o), z, tail);
  }

  lemma NeatStarts(ts: seq<Token>, o: Options)
    requires Lexed(ts) && ts != [] && EndsDark(Neat(ts, 0, o))
    ensures var z := Clean(Cased(ts[0], o).value) + Neat(ts, 1, o);
            z != "" && !IsSpace(z[0]) && EndsDark(z) && Neat(ts, 0, o) == Gap(ts, 0, o) + z
  {
    hide Cased, Gap, Lexed, IsSpace, Clean;
    TextStarts(ts, 0, o);
    CleanEnds(Cased(ts[0], o).value);
    var c, rest := Clean(Cased(ts[0], o).value), Neat(ts, 1, o);
    assert Gap(ts, 0, o) + c + rest == Gap(ts, 0, o) + (c + rest);
    assert (c + rest)[|c + rest| - 1] == Neat(ts, 0, o)[|Neat(ts, 0, o)| - 1];
  }

  lemma SpaceAround(w: string, z: string, tail: string)
    requires AllSpace(w) && z != "" && !IsSpace(z[0]) && EndsDark(z) && (tail == "" || tail == "\n")
    ensures Trim(w + z + tail) == z
  {
    assert forall k :: 0 <= k < |tail| ==> IsSpace(tail[k]);
    TrimAround(w, z, tail);
  }

  lemma TailStays(raw: string, tail: string)
    requires EndsDark(raw) && EndsDark(Collapse(raw)) && (tail == "" || tail == "\n")
    ensures Strip(Collapse(raw + tail)) == Strip(Collapse(raw)) + tail
  {
    NotSpaceAt(raw);
    NotSpaceAt(Collapse(raw));
    CollapseSplit(raw, tail);
    StripSplit(Collapse(raw), tail);
    assert Collapse(tail) == tail && Strip(tail) == tail;
  }

  // ---------- Reading the printed tokens again ----------

  /** Tokens of one mark, and what the first character says about a token. */
  lemma TokenShapes(t: Token)
    requires Lexeme(t)
    ensures t.kind.Punct? ==> |t.value| == 1 && t.value[0] in "()],;"
    ensures IsDigit(t.value[0]) ==> t.kind.Number?
  {
    hide IsReserved, Upper, Reach;
  }

  /** What follows a token without a gap. */
  lemma NoGap(ts: seq<Token>, i: nat, o: Options)
    requires i + 1 < |ts| && Gap(ts, i + 1, o) == "" && Lexeme(ts[i + 1])
    ensures EffectOf(ts, i) == Tight || (EffectOf(ts, i) == Open && LeadOf(ts, i + 1) == Joined)
  {
    hide LeadOf, EffectOf, Lexeme;
    EffectShape(ts, i);
    LinesOnly(0, 1);
  }

  lemma JoinedIs(ts: seq<Token>, i: nat)
    requires i < |ts| && LeadOf(ts, i) == Joined && Lexeme(ts[i])
    ensures ts[i].value == "." || (|ts[i].value| == 1 && ts[i].value[0] in ")],;") || (ts[i].value == "(" && IsFunctionCall(ts, i))
    ensures ts[i].value == "." ==> IsDot(ts[i])
  {
    hide IsClause, IsJoin, IsContinuation, Upper, IsReserved, Lexeme;
    TokenShapes(ts[i]);
  }

  lemma TightIs(ts: seq<Token>, i: nat)
    requires i < |ts| && EffectOf(ts, i) == Tight
    ensures ts[i].value == "(" || IsDot(ts[i])
    ensures !ts[i].kind.Keyword?
  {
    hide IsClause, IsJoin, IsContinuation, Upper, IsReserved;
  }

  /** The text behind token i begins with its gap, or with the next token if there is none. */
  lemma NeatBegins(ts: seq<Token>, i: nat, o: Options)
    requires Lexed(ts) && 0 < i < |ts|
    ensures Neat(ts, i, o) != ""
    ensures Gap(ts, i, o) != "" ==> IsSpace(Neat(ts, i, o)[0])
    ensures State(ts, i).Break? ==> Neat(ts, i, o)[0] == '\n'
    ensures Gap(ts, i, o) == "" ==> Neat(ts, i, o)[0] == Cased(ts[i], o).value[0] && Cased(ts[i], o).value != ""
  {
    hide Lexed, Gap, State, Clean, Cased, Lexeme;
    var n, m := GapIsLines(ts, i, o);
    LinesOnly(n, m);
    TextStarts(ts, i, o);
    CleanEnds(Cased(ts[i], o).value);
    var g, c := Gap(ts, i, o), Clean(Cased(ts[i], o).value);
    assert Neat(ts, i, o) == g + c + Neat(ts, i + 1, o);
    assert g != "" ==> Neat(ts, i, o)[0] == g[0];
    assert g == "" ==> Neat(ts, i, o)[0] == c[0];
  }

  /** Where nothing stands between two tokens, the second does not run into the first. */
  lemma GluedFollows(ts: seq<Token>, i: nat, o: Options)
    requires Lexed(ts) && i + 1 < |ts| && Gap(ts, i + 1, o) == "" && !DotClash(ts, i)
    ensures Follows(Cased(ts[i], o), Neat(ts, i + 1, o))
  {
    hide Lexed, Gap, State, Clean, Lexeme, EffectOf, LeadOf, Neat, Length, First, KindOf, IsSpace, Upper, IsReserved, Reach;
    GluedFacts(ts, i, o);
    NoGap(ts, i, o);
    var t, next, y := ts[i], ts[i + 1], Neat(ts, i + 1, o);
    if EffectOf(ts, i) == Tight {
      TightIs(ts, i);
      assert Cased(t, o) == t;
      if t.value != "(" {
        assert !IsDigit(y[0]);
      }
    } else {
      JoinedIs(ts, i + 1);
      JoinedStays(next, o);
    }
  }

  /** A token of one mark is printed as it is. */
  lemma JoinedStays(t: Token, o: Options)
    requires Lexeme(t) && (t.value == "." || (|t.value| == 1 && t.value[0] in ")],;") || t.value == "(")
    ensures Cased(t, o) == t
  {
    hide IsReserved, Upper, Reach;
  }

  lemma GluedFacts(ts: seq<Token>, i: nat, o: Options)
    requires Lexed(ts) && i + 1 < |ts| && Gap(ts, i + 1, o) == ""
    ensures Lexeme(ts[i]) && Lexeme(ts[i + 1])
    ensures Cased(ts[i], o).value != "" && Cased(ts[i], o).kind == ts[i].kind && Whole(Cased(ts[i], o))
    ensures !IsLineComment(Cased(ts[i], o))
    ensures Neat(ts, i + 1, o) != "" && Neat(ts, i + 1, o)[0] == Cased(ts[i + 1], o).value[0]
    ensures ts[i + 1].value != ""
    ensures IsDigit(Cased(ts[i + 1], o).value[0]) ==> ts[i + 1].kind.Number? && ts[i + 1] == Cased(ts[i + 1], o)
  {
    hide Gap, Clean, Lexeme, EffectOf, LeadOf, Length, First, KindOf, IsSpace, Upper, IsReserved, Reach, Whole;
    NeatBegins(ts, i + 1, o);
    NoGap(ts, i, o);
    TextStarts(ts, i, o);
    TextStarts(ts, i + 1, Options(0, false));
    CasedLexeme(ts[i], o);
    CasedLexeme(ts[i + 1], o);
    TokenShapes(Cased(ts[i + 1], o));
    if IsLineComment(Cased(ts[i], o)) {
      LineCommentIsOneLine(Cased(ts[i], o));
      CommentBreaks(ts, i);
    }
  }

  lemma CommentBreaks(ts: seq<Token>, i: nat)
    requires i < |ts| && ts[i].kind.Comment?
    ensures EffectOf(ts, i) == Break(1, 0)
  {
  }

  /** The printed token i is followed by something that leaves it as it is. */
  lemma FollowsNext(ts: seq<Token>, i: nat, o: Options)
    requires Lexed(ts) && i < |ts| && !DotClash(ts, i)
    ensures Follows(Cased(ts[i], o), Neat(ts, i + 1, o))
  {
    hide Gap, Clean, Lexeme, EffectOf, LeadOf, Length, First, KindOf, IsSpace, Upper, IsReserved, Reach, Whole, DotClash;
    CasedLexeme(ts[i], o);
    TextStarts(ts, i, o);
    if i + 1 < |ts| {
      NeatBegins(ts, i + 1, o);
      if Gap(ts, i + 1, o) == "" {
        GluedFollows(ts, i, o);
      } else if IsLineComment(Cased(ts[i], o)) {
        LineCommentIsOneLine(Cased(ts[i], o));
        CommentBreaks(ts, i);
      }
    }
  }

  lemma TextTidy(t: Token, o: Options)
    requires Lexeme(t)
    ensures Tidy(Cased(t, o).value) <==> Tidy(t.value)
  {
    hide Tidy, IsReserved, IsSpace, IsWordChar;
    if t.kind.Keyword? {
      KeywordIsWord(t);
      CasedLexeme(t, o);
      KeywordIsWord(Cased(t, o));
      WordTidy(t.value);
      WordTidy(Cased(t, o).value);
    }
  }

  lemma WordTidy(s: string)
    requires Reach(Word, s, 0) == |s|
    ensures Tidy(s)
  {
    hide IsSpace, IsWordChar, Tidy;
    WordChars(s, 0);
    forall k | 0 <= k < |s|
      ensures !IsSpace(s[k])
    {
      DarkWordChar(s[k]);
    }
    DarkIsTidy(s);
  }

  lemma {:induction false} WordChars(s: string, i: nat)
    requires i <= |s| && Reach(Word, s, i) == |s|
    ensures forall k :: i <= k < |s| ==> IsWordChar(s[k])
    decreases |s| - i
  {
    hide IsWordChar;
    if i < |s| {
      WordChars(s, i + 1);
    }
  }

  /** A number swallows a dot right behind it; a dot swallows the digits right behind it. */
  lemma ClashChanges(t: Token, y: string)
    requires Lexeme(t) && y != ""
    requires (t.kind.Number? && y[0] == '.') || (IsDot(t) && IsDigit(y[0]))
    ensures First(t.value + y) != t
  {
    var x, s := t.value, t.value + y;
    assert s[0] == x[0] && s[|x|] == y[0];
    if IsDot(t) {
      assert Second(s) == [y[0]];
    } else {
      hide IsReserved, Upper;
      NumberOpens(t, s);
      NumberGoesOn(x, s, 0);
    }
  }

  lemma NumberOpens(t: Token, s: string)
    requires Lexeme(t) && t.kind.Number? && t.value <= s
    ensures OpeningOf(s) == Scanned(Numeric, 0) && Reach(Numeric, t.value, 0) == |t.value|
  {
    hide IsReserved, Upper, Reach;
    assert t.value[..|t.value|] == t.value;
    assert |t.value| >= 2 ==> Second(s) == Second(t.value);
  }

  lemma {:induction false} NumberGoesOn(x: string, s: string, i: nat)
    requires x <= s && i <= |x| < |s| && s[|x|] == '.' && Reach(Numeric, x, i) == |x|
    ensures Reach(Numeric, s, i) > |x|
    decreases |x| - i
  {
    if i < |x| {
      assert Advance(Numeric, s, i) == Advance(Numeric, x, i);
      NumberGoesOn(x, s, i + 1);
    } else {
      assert Advance(Numeric, s, i) == 1;
    }
  }

  /** A token whose text the clean-up changes is not read again, whatever stands behind it. */
  lemma SpoiltChanges(t: Token, y: string)
    requires Lexeme(t) && !Tidy(t.value)
    requires y != "" ==> Whole(t) && (IsLineComment(t) ==> y[0] == '\n')
    ensures Clean(t.value) + y != "" && First(Clean(t.value) + y) != t
  {
    hide Tidy, Clean, IsSpace, Whole, Length, KindOf, OpeningOf, IsLineComment, Bare;
    var x, c := t.value, Clean(t.value);
    LexemeText(t);
    CleanEnds(x);
    CleanFixed(x);
    if First(c + y) == t {
      assert x == (c + y)[..|x|];
      assert |c| < |x| by {
        assert |c| <= |x|;
        assert |c| == |x| ==> x == c;
      }
      var w := x[|c|..];
      assert x == c + w && w[0] == y[0];
      BareClean(x);
      BareAppend(c, w);
      assert Bare(w) == "";
      BareNothing(w);
      assert x[|x| - 1] == w[|w| - 1];
      if IsLineComment(t) {
        LineCommentIsOneLine(t);
      } else {
        WholeEndsDark(t);
      }
    }
  }

  // ---------- The tokens are kept exactly if every token is sound ----------

  lemma {:induction false} KeptFrom(ts: seq<Token>, i: nat, o: Options)
    requires Lexed(ts) && i <= |ts|
    ensures Lex(Neat(ts, i, o)) == CasedAll(ts, o)[i..] <==> forall j :: i <= j < |ts| ==> Sound(ts, j)
    decreases |ts| - i
  {
    hide Lexed, Sound, Lex, Gap, Clean, Cased, Lexeme, Tidy, First;
    if i == |ts| {
      LexEmpty("");
    } else {
      KeptFrom(ts, i + 1, o);
      var c, rest := Clean(Cased(ts[i], o).value), Neat(ts, i + 1, o);
      var n, m := GapIsLines(ts, i, o);
      LinesOnly(n, m);
      assert Neat(ts, i, o) == Gap(ts, i, o) + (c + rest);
      LexSkips(Gap(ts, i, o), c + rest);
      assert CasedAll(ts, o)[i..] == [Cased(ts[i], o)] + CasedAll(ts, o)[i + 1..];
      if Sound(ts, i) {
        SoundReads(ts, i, o);
        SameBehind([Cased(ts[i], o)], Lex(rest), CasedAll(ts, o)[i + 1..]);
      } else {
        UnsoundReads(ts, i, o);
        assert Lex(c + rest) != [] && Lex(c + rest)[0] != Cased(ts[i], o);
      }
    }
  }

  lemma SameBehind<T>(g: seq<T>, x: seq<T>, y: seq<T>)
    ensures g + x == g + y <==> x == y
  {
    assert (g + x)[|g|..] == x && (g + y)[|g|..] == y;
  }

  lemma SoundReads(ts: seq<Token>, i: nat, o: Options)
    requires Lexed(ts) && i < |ts| && Sound(ts, i)
    ensures Lex(Clean(Cased(ts[i], o).value) + Neat(ts, i + 1, o)) == [Cased(ts[i], o)] + Lex(Neat(ts, i + 1, o))
  {
    hide Lex, Gap, Clean, Cased, Lexeme, Tidy, First, Follows, DotClash, Neat;
    CasedLexeme(ts[i], o);
    TextTidy(ts[i], o);
    CleanFixed(Cased(ts[i], o).value);
    FollowsNext(ts, i, o);
    LexTakes(Cased(ts[i], o), Neat(ts, i + 1, o));
  }

  lemma UnsoundReads(ts: seq<Token>, i: nat, o: Options)
    requires Lexed(ts) && i < |ts| && !Sound(ts, i)
    ensures var s := Clean(Cased(ts[i], o).value) + Neat(ts, i + 1, o); Lex(s) != [] && Lex(s)[0] != Cased(ts[i], o)
  {
    hide Lex, Gap, Clean, Lexeme, Tidy, First, Follows, DotClash, Neat, Lexed, IsSpace, Cased;
    var t, y := Cased(ts[i], o), Neat(ts, i + 1, o);
    UnsoundFacts(ts, i, o);
    CleanEnds(t.value);
    LexStep(Clean(t.value) + y);
    if Tidy(t.value) {
      CleanFixed(t.value);
      ClashGlues(ts, i, o);
      ClashChanges(t, y);
    } else {
      SpoiltChanges(t, y);
    }
  }

  lemma UnsoundFacts(ts: seq<Token>, i: nat, o: Options)
    requires Lexed(ts) && i < |ts| && !Sound(ts, i)
    ensures var t, y := Cased(ts[i], o), Neat(ts, i + 1, o);
            && Lexeme(t) && t.value != "" && !IsSpace(t.value[0])
            && (Tidy(t.value) ==> DotClash(ts, i))
            && (y != "" ==> Whole(t) && (IsLineComment(t) ==> y[0] == '\n'))
  {
    hide Lex, Gap, Clean, Lexeme, Tidy, First, DotClash, IsSpace, Cased, EffectOf, Whole;
    var t := Cased(ts[i], o);
    TextStarts(ts, i, o);
    CasedLexeme(ts[i], o);
    TextTidy(ts[i], o);
    if i + 1 < |ts| {
      NeatBegins(ts, i + 1, o);
      if IsLineComment(t) {
        LineCommentIsOneLine(t);
        CommentBreaks(ts, i);
      }
    }
  }

  /** Nothing stands between the tokens of a clash. */
  lemma ClashGlues(ts: seq<Token>, i: nat, o: Options)
    requires Lexed(ts) && i < |ts| && DotClash(ts, i)
    ensures Cased(ts[i], o) == ts[i] && Neat(ts, i + 1, o) != ""
    ensures (ts[i].kind.Number? && Neat(ts, i + 1, o)[0] == '.') || (IsDot(ts[i]) && IsDigit(Neat(ts, i + 1, o)[0]))
  {
    hide Lexed, Clean, Neat, Upper, IsClause, IsJoin, IsContinuation;
    NeatBegins(ts, i + 1, o);
    assert Gap(ts, i + 1, o) == "";
  }

  lemma TokensKept(input: string, o: Options)
    ensures Lex(Format(input, o)) == CasedAll(Lex(input), o) <==> forall i :: 0 <= i < |Lex(input)| ==> Sound(Lex(input), i)
  {
    hide Lex, Lexed, Gap, Render, Sound, Cased, AllSpace;
    var ts := Lex(input);
    LexIsLexed(input);
    if ts == [] {
      NoTokens(o);
      LexEmpty("");
    } else {
      RenderIsNeat(ts, o);
      LexSkips(Gap(ts, 0, o), Render(ts, o));
      KeptFrom(ts, 0, o);
      assert CasedAll(ts, o)[0..] == CasedAll(ts, o);
    }
  }

  lemma NoTokens(o: Options)
    ensures Render([], o) == ""
  {
  }

  // ---------- What is read back in any case but a clash ----------

  /** The token as it is finally printed. */
  function Printed(t: Token, o: Options): Token {
    Cleaned(Cased(t, o))
  }

  function PrintedAll(ts: seq<Token>, o: Options): (r: seq<Token>)
    ensures |r| == |ts| && forall i :: 0 <= i < |ts| ==> r[i] == Printed(ts[i], o)
  {
    seq(|ts|, i requires 0 <= i < |ts| => Printed(ts[i], o))
  }

  /** What leaves the cased token as it is leaves the printed one as it is. */
  lemma FollowsPrinted(ts: seq<Token>, i: nat, o: Options)
    requires Lexed(ts) && i < |ts| && !DotClash(ts, i)
    ensures Lexeme(Printed(ts[i], o)) && Follows(Printed(ts[i], o), Neat(ts, i + 1, o))
  {
    hide Cased, Clean, Lexeme, Neat, Lexed, DotClash, IsSpace, Whole, IsLineComment;
    var t := Cased(ts[i], o);
    FollowsNext(ts, i, o);
    TextStarts(ts, i, o);
    CleanEnds(t.value);
    assert Lexeme(t) by { LexedCased(ts, i, o); }
    CleanedLexeme(t);
    if t.value == "(" || t.value == "." {
      Marks();
      OneCharacterClean(t.value);
    }
  }

  lemma LexedCased(ts: seq<Token>, i: nat, o: Options)
    requires Lexed(ts) && i < |ts|
    ensures Lexeme(Cased(ts[i], o))
  {
    hide Lexeme;
    CasedLexeme(ts[i], o);
  }

  lemma ReadsOne(ts: seq<Token>, i: nat, o: Options)
    requires Lexed(ts) && i < |ts| && !DotClash(ts, i)
    ensures Lex(Neat(ts, i, o)) == [Printed(ts[i], o)] + Lex(Neat(ts, i + 1, o))
  {
    hide Lexed, Lex, Gap, Clean, Cased, Lexeme, DotClash, Follows;
    var t, rest := Printed(ts[i], o), Neat(ts, i + 1, o);
    var n, m := GapIsLines(ts, i, o);
    LinesOnly(n, m);
    assert Neat(ts, i, o) == Gap(ts, i, o) + (t.value + rest);
    LexSkips(Gap(ts, i, o), t.value + rest);
    FollowsPrinted(ts, i, o);
    LexTakes(t, rest);
  }

  lemma {:induction false} ReadsPrinted(ts: seq<Token>, i: nat, o: Options)
    requires Lexed(ts) && i <= |ts| && forall j :: i <= j < |ts| ==> !DotClash(ts, j)
    ensures Lex(Neat(ts, i, o)) == PrintedAll(ts, o)[i..]
    decreases |ts| - i
  {
    hide Lexed, Lex, Neat, Printed, DotClash;
    if i == |ts| {
      NeatEnds(ts, o);
      LexEmpty("");
    } else {
      ReadsPrinted(ts, i + 1, o);
      ReadsOne(ts, i, o);
      assert PrintedAll(ts, o)[i..] == [Printed(ts[i], o)] + PrintedAll(ts, o)[i + 1..];
    }
  }

  lemma NeatEnds(ts: seq<Token>, o: Options)
    ensures Neat(ts, |ts|, o) == ""
  {
  }

  /** Where no dot clashes, the formatted text has the tokens of the input, each with its own text cased and cleaned. */
  lemma TokensRead(input: string, o: Options)
    requires forall i :: 0 <= i < |Lex(input)| ==> !DotClash(Lex(input), i)
    ensures Lex(Format(input, o)) == PrintedAll(Lex(input), o)
  {
    hide Lex, Lexed, Gap, Render, Cased, Clean, AllSpace, DotClash;
    var ts := Lex(input);
    LexIsLexed(input);
    if ts == [] {
      NoTokens(o);
      LexEmpty("");
    } else {
      RenderIsNeat(ts, o);
      LexSkips(Gap(ts, 0, o), Render(ts, o));
      ReadsPrinted(ts, 0, o);
      assert PrintedAll(ts, o)[0..] == PrintedAll(ts, o);
    }
  }

  // ---------- What is kept in any case ----------

  /** The characters of the tokens other than white space. */
  function Ink(ts: seq<Token>): string {
    if ts == [] then "" else Bare(ts[0].value) + Ink(ts[1..])
  }

  lemma {:induction false} LexInk(s: string)
    ensures Ink(Lex(s)) == Bare(s)
    decreases |s|
  {
    hide Lex, First, IsSpace;
    if s == "" {
      LexEmpty(s);
    } else {
      LexStep(s);
      if IsSpace(s[0]) {
        LexInk(s[1..]);
      } else {
        var x := First(s).value;
        LexInk(s[|x|..]);
        FirstIsPrefix(s);
        BareAppend(x, s[|x|..]);
        assert ([First(s)] + Lex(s[|x|..]))[1..] == Lex(s[|x|..]);
      }
    }
  }

  lemma FirstIsPrefix(s: string)
    requires s != ""
    ensures First(s).value + s[|First(s).value|..] == s
  {
    hide KindOf, OpeningOf, Length;
  }

  lemma {:induction false} NeatInk(ts: seq<Token>, i: nat, o: Options)
    requires i <= |ts|
    ensures Bare(Neat(ts, i, o)) == Ink(CasedAll(ts, o)[i..])
    decreases |ts| - i
  {
    hide Bare, Gap, Clean, Cased;
    if i == |ts| {
      BareNothing("");
    } else {
      NeatInk(ts, i + 1, o);
      var g, c, rest := Gap(ts, i, o), Clean(Cased(ts[i], o).value), Neat(ts, i + 1, o);
      GapBare(ts, i, o);
      BareAppend(g + c, rest);
      BareAppend(g, c);
      BareClean(Cased(ts[i], o).value);
      assert CasedAll(ts, o)[i..][1..] == CasedAll(ts, o)[i + 1..];
    }
  }

  lemma GapBare(ts: seq<Token>, i: nat, o: Options)
    requires i < |ts|
    ensures Bare(Gap(ts, i, o)) == ""
  {
    hide Bare, Gap, IsSpace, Lines;
    var n, m := GapIsLines(ts, i, o);
    LinesOnly(n, m);
    BareNothing(Gap(ts, i, o));
  }

  /** Whatever the input, the formatter neither adds nor drops nor moves a character other than white space. */
  lemma InkKept(input: string, o: Options)
    ensures Bare(Format(input, o)) == Ink(CasedAll(Lex(input), o))
    ensures !o.uppercase ==> Bare(Format(input, o)) == Bare(input)
  {
    hide Lex, Lexed, Gap, Render, Bare, AllSpace, Neat;
    var ts := Lex(input);
    LexIsLexed(input);
    if ts == [] {
      NoTokens(o);
      BareNothing("");
    } else {
      RenderIsNeat(ts, o);
      NeatInk(ts, 0, o);
      GapBare(ts, 0, o);
      BareAppend(Gap(ts, 0, o), Render(ts, o));
      assert CasedAll(ts, o)[0..] == CasedAll(ts, o);
    }
    LexInk(input);
    assert !o.uppercase ==> CasedAll(ts, o) == ts;
  }

  // ---------- Where the promise fails ----------

  lemma Digit(s: string)
    requires |s| == 1 && IsDigit(s[0])
    ensures Lexeme(Token(Number, s)) && Whole(Token(Number, s))
  {
    assert Reach(Numeric, s, 0) == 1;
    assert s[..1] == s;
  }

  lemma Dot()
    ensures Lexeme(Token(Operator, ".")) && Whole(Token(Operator, "."))
  {
    assert "."[..1] == ".";
  }

  /** A one-character number or parameter behind "1 . " is read as the third token. */
  lemma DottedTokens(t: Token)
    requires Lexeme(t) && |t.value| == 1
    ensures Lex("1 . " + t.value) == [Token(Number, "1"), Token(Operator, "."), t]
  {
    hide Lexeme, Lex, First;
    Digit("1");
    Dot();
    var x := t.value;
    assert "1 . " + x == "1" + (" " + ("." + (" " + (x + ""))));
    LexTakes(Token(Number, "1"), " " + ("." + (" " + (x + ""))));
    LexSkips(" ", "." + (" " + (x + "")));
    LexTakes(Token(Operator, "."), " " + (x + ""));
    LexSkips(" ", x + "");
    NothingFollows(t);
    LexTakes(t, "");
    LexEmpty("");
  }

  /** The three tokens are printed without gaps. */
  lemma DottedNeat(ts: seq<Token>, o: Options)
    requires |ts| == 3 && ts[0] == Token(Number, "1") && ts[1] == Token(Operator, ".")
    requires (ts[2].kind.Number? || ts[2].kind.Parameter?) && |ts[2].value| == 1 && !IsSpace(ts[2].value[0])
    ensures Gap(ts, 0, o) == "" && Neat(ts, 0, o) == "1." + ts[2].value
  {
    hide Clean, Upper, Lines, IsClause, IsJoin, IsContinuation, IsSpace;
    Marks();
    assert !IsSpace('1') && !IsSpace('.') by { NoSpaceHere(); }
    OneCharacterClean("1");
    OneCharacterClean(".");
    OneCharacterClean(ts[2].value);
    assert 0 * o.indent == 0;
    LinesOnly(0, 0);
    assert Gap(ts, 1, o) == "" && Gap(ts, 2, o) == "";
    assert Neat(ts, 3, o) == "";
    assert Neat(ts, 2, o) == "" + ts[2].value + "";
    assert Neat(ts, 1, o) == "" + "." + ts[2].value;
  }

  lemma NoSpaceHere()
    ensures !IsSpace('1') && !IsSpace('2') && !IsSpace('.') && !IsSpace('?')
  {
  }

  lemma OneCharacterClean(s: string)
    requires |s| == 1 && !IsSpace(s[0])
    ensures Clean(s) == s
  {
    DarkIsTidy(s);
    CleanFixed(s);
  }

  lemma DottedFormat(t: Token, o: Options)
    requires Lexeme(t) && |t.value| == 1 && (t.kind.Number? || t.kind.Parameter?)
    ensures Format("1 . " + t.value, o) == "1." + t.value
  {
    hide Lexeme, Lex, First, Render, Gap, Neat, Lexed;
    assert !IsSpace(t.value[0]) by { LexemeText(t); }
    DottedTokens(t);
    LexIsLexed("1 . " + t.value);
    DottedNeat(Lex("1 . " + t.value), o);
    RenderIsNeat(Lex("1 . " + t.value), o);
    assert "" + Render(Lex("1 . " + t.value), o) == Render(Lex("1 . " + t.value), o);
  }

  lemma DottedReach()
    ensures Reach(Numeric, "1.2", 0) == 3 && Reach(Numeric, "1.?", 0) == 2
  {
    var s, u := "1.2", "1.?";
    assert s[1] == '.' && s[2] == '2';
    assert Reach(Numeric, s, 2) == 3;
    assert Reach(Numeric, s, 1) == 3;
    assert u[1] == '.' && u[2] == '?';
    assert Reach(Numeric, u, 2) == 2;
    assert Reach(Numeric, u, 1) == 2;
  }

  lemma NumberFirst(s: string)
    requires s != "" && IsDigit(s[0])
    ensures var n := Reach(Numeric, s, 0); n > 0 ==> First(s) == Token(Number, s[..n])
  {
    hide Reach, IsReserved, Upper;
    assert OpeningOf(s) == Scanned(Numeric, 0);
  }

  lemma OneNumber()
    ensures Lex("1.2") == [Token(Number, "1.2")]
  {
    hide Lex, First, IsSpace, Reach;
    var s := "1.2";
    NoSpaceHere();
    DottedReach();
    NumberFirst(s);
    LexStep(s);
    assert s[..3] == s && s[3..] == "";
    LexEmpty("");
  }

  /** A number, a dot and a number become one number, which a second run leaves alone. */
  lemma DotsMerge(o: Options)
    ensures Lex("1 . 2") == [Token(Number, "1"), Token(Operator, "."), Token(Number, "2")] && DotClash(Lex("1 . 2"), 0)
    ensures Format("1 . 2", o) == "1.2" && Lex(Format("1 . 2", o)) == [Token(Number, "1.2")]
    ensures Format(Format("1 . 2", o), o) == Format("1 . 2", o)
  {
    hide Lexeme, Lex, First, Format;
    Digit("2");
    assert "1 . " + "2" == "1 . 2" && "1." + "2" == "1.2";
    DottedTokens(Token(Number, "2"));
    DottedFormat(Token(Number, "2"), o);
    OneNumber();
    FormatNumber(o);
  }

  lemma FormatNumber(o: Options)
    ensures Format("1.2", o) == "1.2"
  {
    hide Clean, Lex, Lexed, Render, Gap, Neat, IsSpace;
    var t := Token(Number, "1.2");
    OneNumber();
    LexIsLexed("1.2");
    RenderIsNeat([t], o);
    OneNeat(t, o);
    assert "" + Render([t], o) == Render([t], o);
    NoSpaceHere();
    DarkIsTidy("1.2");
    CleanFixed("1.2");
  }

  /** A number and a dot become one number, and the second run parts it from the parameter behind it. */
  lemma DotsPart(o: Options)
    ensures Lex("1 . ?") == [Token(Number, "1"), Token(Operator, "."), Token(Parameter, "?")] && DotClash(Lex("1 . ?"), 0)
    ensures Format("1 . ?", o) == "1.?" && Lex(Format("1 . ?", o)) == [Token(Number, "1."), Token(Parameter, "?")]
    ensures Format(Format("1 . ?", o), o) == "1. ?" != Format("1 . ?", o)
  {
    hide Lexeme, Lex, First, Format;
    var t := Token(Parameter, "?");
    Question();
    assert "1 . " + "?" == "1 . ?" && "1." + "?" == "1.?";
    DottedTokens(t);
    DottedFormat(t, o);
    PartedTokens();
    FormatParted(o);
    assert "1. ?"[2] == ' ' && "1.?"[2] == '?';
  }

  lemma Question()
    ensures Lexeme(Token(Parameter, "?")) && Whole(Token(Parameter, "?"))
  {
    assert "?"[..1] == "?";
  }

  lemma PartedTokens()
    ensures Lex("1.?") == [Token(Number, "1."), Token(Parameter, "?")]
  {
    hide Lex, First, Lexeme, IsSpace, Reach;
    var s, t := "1.?", Token(Parameter, "?");
    Question();
    NothingFollows(t);
    LexTakes(t, "");
    LexEmpty("");
    assert "?" + "" == "?";
    NoSpaceHere();
    DottedReach();
    NumberFirst(s);
    LexStep(s);
    assert s[..2] == "1." && s[2..] == "?";
  }

  lemma FormatParted(o: Options)
    ensures Format("1.?", o) == "1. ?"
  {
    hide Clean, Lex, Lexed, Render, IsSpace, Lines;
    var ts := [Token(Number, "1."), Token(Parameter, "?")];
    PartedTokens();
    LexIsLexed("1.?");
    RenderIsNeat(ts, o);
    NoSpaceHere();
    OneCharacterClean("?");
    DarkIsTidy("1.");
    CleanFixed("1.");
    assert 0 * o.indent == 0;
    LinesOnly(0, 0);
    assert Gap(ts, 0, o) == "" && Gap(ts, 1, o) == " ";
    assert Neat(ts, 2, o) == "";
    assert Neat(ts, 1, o) == " " + "?" + "";
    assert Neat(ts, 0, o) == "" + "1." + " ?";
    assert "" + Render(ts, o) == Render(ts, o);
  }

  const FEEDS := "'\n \n \n'"

  /** The literal FEEDS and what is left of it, twice over. */
  lemma FeedsClean()
    ensures Clean(FEEDS) == "'\n\n\n'" && Clean("'\n\n\n'") == "'\n\n'"
  {
    hide Collapse, Strip, IsSpace;
    CollapseTails();
    StripFeeds();
    CollapseFeeds();
    NotBlankQuote();
  }

  lemma NotBlankQuote()
    ensures !IsSpace('\'')
  {
  }

  lemma CollapseTails()
    ensures Collapse("'") == "'" && Collapse("\n'") == "\n'" && Collapse(" \n'") == " \n'"
    ensures Collapse("\n \n'") == "\n \n'" && Collapse(" \n \n'") == " \n \n'"
    ensures Collapse("\n \n \n'") == "\n \n \n'" && Collapse(FEEDS) == FEEDS
  {
    assert "'"[1..] == "";
    assert "\n'"[1..] == "'";
    assert " \n'"[1..] == "\n'";
    assert "\n \n'"[1..] == " \n'";
    assert " \n \n'"[1..] == "\n \n'";
    assert "\n \n \n'"[1..] == " \n \n'";
    assert FEEDS[1..] == "\n \n \n'";
  }

  lemma StripFeeds()
    ensures Strip(FEEDS) == "'\n\n\n'" && Strip("'\n\n'") == "'\n\n'"
  {
    assert "'"[1..] == "";
    assert "\n'"[1..] == "'" && "\n\n'"[1..] == "\n'" && "'\n\n'"[1..] == "\n\n'";
    assert Strip("'") == "'" && Strip("\n'") == "\n'";
    assert " \n'"[1..] == "\n'";
    assert Strip(" \n'") == "\n'";
    assert "\n \n'"[1..] == " \n'";
    assert Strip("\n \n'") == "\n\n'";
    assert " \n \n'"[1..] == "\n \n'";
    assert Strip(" \n \n'") == "\n\n'";
    assert "\n \n \n'"[1..] == " \n \n'";
    assert Strip("\n \n \n'") == "\n\n\n'";
    assert FEEDS[1..] == "\n \n \n'";
  }

  lemma CollapseFeeds()
    ensures Collapse("'\n\n\n'") == "'\n\n'"
  {
    assert "'"[1..] == "" && "\n'"[1..] == "'" && "\n\n'"[1..] == "\n'" && "\n\n\n'"[1..] == "\n\n'";
    assert Collapse("'") == "'" && Collapse("\n'") == "\n'" && Collapse("\n\n'") == "\n\n'";
    assert Collapse("\n\n\n'") == "\n\n'";
    assert "'\n\n\n'"[1..] == "\n\n\n'";
  }

  lemma {:induction false} QuoteRun(s: string, i: nat)
    requires 0 < i < |s| && s[|s| - 1] == '\'' && forall k :: i <= k < |s| - 1 ==> s[k] != '\''
    ensures Reach(ToQuote, s, i) == |s| - 1
    decreases |s| - i
  {
    if i < |s| - 1 {
      QuoteRun(s, i + 1);
    }
  }

  /** A literal without inner quotes, and its formatted form. */
  lemma OneLiteral(s: string, o: Options)
    requires |s| >= 2 && s[0] == '\'' && s[|s| - 1] == '\'' && forall k :: 1 <= k < |s| - 1 ==> s[k] != '\''
    ensures Lex(s) == [Token(Literal, s)] && Format(s, o) == Clean(s)
  {
    hide Lex, Lexed, Gap, Render, IsSpace, Clean, Reach, Follows;
    var t := Token(Literal, s);
    QuoteRun(s, 1);
    LiteralLexeme(s);
    assert s + "" == s;
    NothingFollows(t);
    LexTakes(t, "");
    LexEmpty("");
    assert Lex(s) == [t];
    LexIsLexed(s);
    RenderIsNeat([t], o);
    OneNeat(t, o);
    assert Gap([t], 0, o) == "";
  }

  lemma NothingFollows(t: Token)
    requires t.value != ""
    ensures Follows(t, "")
  {
  }

  lemma LiteralLexeme(s: string)
    requires |s| >= 2 && s[0] == '\'' && Reach(ToQuote, s, 1) == |s| - 1
    ensures Lexeme(Token(Literal, s))
  {
    hide Reach;
    NotBlankQuote();
    assert s[..|s|] == s;
  }

  lemma OneNeat(t: Token, o: Options)
    requires t.kind.Literal? || t.kind.Number?
    ensures Gap([t], 0, o) == "" && Neat([t], 0, o) == Clean(t.value)
  {
    hide Clean;
    assert 0 * o.indent == 0;
    LinesOnly(0, 0);
    assert Neat([t], 1, o) == "";
  }

  /** String literals are not always emitted verbatim, and formatting is not idempotent on them. */
  lemma LiteralsChange(o: Options)
    ensures Lex(FEEDS) == [Token(Literal, FEEDS)] && Lex(Format(FEEDS, o)) != Lex(FEEDS)
    ensures Format(Format(FEEDS, o), o) != Format(FEEDS, o)
  {
    hide Lex, Format, Clean;
    FeedsClean();
    OneLiteral(FEEDS, o);
    OneLiteral("'\n\n\n'", o);
  }
}
