/** The SQL printer: what stands between two tokens, and the loop that writes it. */
module SqlLayout {
  import opened Text
  import opened SqlLexer
  import opened SqlCleanup

  datatype Options = Options(indent: nat, uppercase: bool)

  predicate IsMark(t: Token, mark: string) {
    t.kind.Punct? && t.value == mark
  }

  predicate IsWord(t: Token, upper: string) {
    t.kind.Keyword? && Upper(t.value) == upper
  }

  predicate IsDot(t: Token) {
    t.kind.Operator? && t.value == "."
  }

  /** The token as it is printed. */
  function Cased(t: Token, o: Options): Token {
    if t.kind.Keyword? && o.uppercase then Token(Keyword, Upper(t.value)) else t
  }

  // ---------- The layout as a function of the tokens ----------

  /** The parentheses open before token i. */
  function Parens(ts: seq<Token>, i: nat): nat
    requires i <= |ts|
  {
    if i == 0 then 0
    else
      var depth := Parens(ts, i - 1);
      if IsMark(ts[i - 1], "(") then depth + 1 else if IsMark(ts[i - 1], ")") && depth > 0 then depth - 1 else depth
  }

  predicate IsFunctionCall(ts: seq<Token>, i: nat)
    requires i < |ts|
  {
    i > 0 && (ts[i - 1].kind.Identifier? || IsWord(ts[i - 1], "CAST"))
  }

  /** What a token wants before it: a space, nothing, or a new line at a level. */
  datatype Lead = Spaced | Joined | Fresh(level: nat)

  /** What is open after a token: the line, the line without a space, or a new line after some line feeds. */
  datatype Effect = Open | Tight | Break(lines: nat, level: nat)

  function LeadOf(ts: seq<Token>, i: nat): Lead
    requires i < |ts|
  {
    var t := ts[i];
    if t.kind.Comment? then Fresh(0)
    else if t.kind.Punct? then (if t.value == "(" && !IsFunctionCall(ts, i) then Spaced else Joined)
    else if t.kind.Keyword? && Parens(ts, i) == 0 then
      var upper := Upper(t.value);
      if upper == "BY" then Spaced
      else if IsClause(upper) || IsJoin(upper) then Fresh(0)
      else if IsContinuation(upper) then Fresh(1)
      else Spaced
    else if IsDot(t) then Joined
    else Spaced
  }

  function EffectOf(ts: seq<Token>, i: nat): Effect
    requires i < |ts|
  {
    var t := ts[i];
    if t.kind.Comment? then Break(1, 0)
    else if t.kind.Punct? then
      if t.value == "(" then Tight
      else if t.value == "," && Parens(ts, i) == 0 then Break(1, 1)
      else if t.value == ";" then Break(2, 0)
      else Open
    else if t.kind.Keyword? && Parens(ts, i) == 0 then
      var upper := Upper(t.value);
      if upper == "BY" then Break(1, 1)
      else if IsClause(upper) then (if OpensList(ts, i, upper) then Break(1, 1) else Open)
      else if IsJoin(upper) || IsContinuation(upper) then Open
      else if upper == "DISTINCT" || upper == "ALL" then Break(1, 1)
      else Open
    else if IsDot(t) then Tight
    else Open
  }

  /** The clauses whose list starts on the next line. */
  predicate OpensList(ts: seq<Token>, i: nat, upper: string)
    requires i < |ts|
  {
    || (upper in {"SELECT", "SET", "VALUES"} && i + 1 < |ts| && !IsWord(ts[i + 1], "DISTINCT"))
    || upper in {"WHERE", "FROM", "HAVING"}
  }

  function State(ts: seq<Token>, i: nat): Effect
    requires i <= |ts|
  {
    if i == 0 then Break(0, 0) else EffectOf(ts, i - 1)
  }

  /** The white space a lead produces in a state. */
  function Space(lead: Lead, state: Effect, o: Options): string {
    match lead
    case Fresh(level) => Lines(if state.Break? then state.lines else 1, level * o.indent)
    case _ =>
      match state
      case Break(lines, level) => Lines(lines, level * o.indent)
      case Tight => ""
      case Open => if lead.Spaced? then " " else ""
  }

  function Gap(ts: seq<Token>, i: nat, o: Options): string
    requires i < |ts|
  {
    Space(LeadOf(ts, i), State(ts, i), o)
  }

  /** The first i tokens as laid out, before the closing replacements. */
  function Raw(ts: seq<Token>, i: nat, o: Options): string
    requires i <= |ts|
  {
    if i == 0 then "" else Raw(ts, i - 1, o) + Gap(ts, i - 1, o) + TrimEnd(Cased(ts[i - 1], o).value)
  }

  /** formatSql on a token list. */
  function Render(ts: seq<Token>, o: Options): string {
    Trim(Strip(Collapse(Raw(ts, |ts|, o) + Tail(State(ts, |ts|)))))
  }

  /** A final semicolon leaves an empty line behind. */
  function Tail(state: Effect): string {
    if state.Break? && state.lines == 2 then "\n" else ""
  }

  // ---------- The lines being written ----------

  /** out, current and suppressSpace, with the local functions that change them. */
  datatype Sheet = Sheet(out: seq<string>, current: string, suppressSpace: bool) {
    function Flush(): Sheet {
      Sheet(if AllSpace(current) then out else out + [TrimEnd(current)], "", false)
    }

    function StartLine(level: nat, o: Options): Sheet {
      Flush().(current := Lines(0, level * o.indent))
    }

    function Append(text: string, spaceBefore: bool): Sheet {
      var space := if spaceBefore && !suppressSpace && !AllSpace(current) then " " else "";
      Sheet(out, current + space + text, false)
    }
  }

  /** Every line with its line feed. */
  function Written(out: seq<string>): string {
    if out == [] then "" else Written(out[..|out| - 1]) + out[|out| - 1] + "\n"
  }

  /** join('\n') */
  function JoinLines(out: seq<string>): string {
    if out == [] then ""
    else if |out| == 1 then out[0]
    else JoinLines(out[..|out| - 1]) + "\n" + out[|out| - 1]
  }

  lemma {:induction false} JoinWritten(out: seq<string>)
    requires out != []
    ensures Written(out) == JoinLines(out) + "\n"
  {
    if |out| == 1 {
      assert out[..0] == [];
      assert Written(out) == "" + out[0] + "\n";
    } else {
      JoinWritten(out[..|out| - 1]);
    }
  }

  lemma WrittenPush(out: seq<string>, line: string)
    ensures Written(out + [line]) == Written(out) + line + "\n"
  {
    assert (out + [line])[..|out|] == out;
  }

  /** The sheet shows the text raw in the given state; a line still open may carry white space at its end. */
  ghost predicate Shows(sheet: Sheet, raw: string, state: Effect, o: Options) {
    match state
    case Break(lines, level) =>
      Written(sheet.out) == raw + Lines(lines, 0) && sheet.current == Lines(0, level * o.indent) && !sheet.suppressSpace
    case _ =>
      && !AllSpace(sheet.current) && TrimEnd(Written(sheet.out) + sheet.current) == raw
      && sheet.suppressSpace == state.Tight?
  }

  lemma LinesOnly(n: nat, m: nat)
    ensures AllSpace(Lines(n, m)) && Lines(n, 0) + Lines(0, m) == Lines(n, m) && Lines(0, 0) == ""
    ensures Lines(1, 0) == "\n" && Lines(0, 1) == " " && Lines(2, 0) == "\n" + "\n"
  {
  }

  /** TrimEnd of the whole is TrimEnd of the line. */
  lemma {:induction false} TrimLine(written: string, current: string)
    requires !AllSpace(current)
    ensures TrimEnd(written + current) == written + TrimEnd(current)
  {
    hide IsSpace;
    var n := |current| - 1;
    if IsSpace(current[n]) {
      assert (written + current)[..|written| + n] == written + current[..n];
      TrimLine(written, current[..n]);
    }
  }

  lemma FlushShows(sheet: Sheet, raw: string, state: Effect, o: Options)
    requires Shows(sheet, raw, state, o)
    ensures Shows(sheet.Flush(), raw, Break(if state.Break? then state.lines else 1, 0), o)
  {
    hide TrimEnd, AllSpace, Written;
    LinesOnly(1, 0);
    if state.Break? {
      LinesOnly(0, state.level * o.indent);
    } else {
      TrimLine(Written(sheet.out), sheet.current);
      WrittenPush(sheet.out, TrimEnd(sheet.current));
    }
    assert 0 * o.indent == 0;
  }

  lemma StartLineShows(sheet: Sheet, raw: string, state: Effect, level: nat, o: Options)
    requires Shows(sheet, raw, state, o)
    ensures Shows(sheet.StartLine(level, o), raw, Break(if state.Break? then state.lines else 1, level), o)
  {
    FlushShows(sheet, raw, state, o);
    hide TrimEnd, AllSpace, Written;
  }

  /** What an append writes, whatever the state. */
  lemma AppendWrites(sheet: Sheet, raw: string, state: Effect, text: string, spaceBefore: bool, o: Options)
    requires Shows(sheet, raw, state, o)
    requires !state.Break? ==> Written(sheet.out) + sheet.current == raw
    ensures Written(sheet.out) + sheet.Append(text, spaceBefore).current
            == raw + Space(if spaceBefore then Spaced else Joined, state, o) + text
  {
    hide TrimEnd, IsSpace, Written;
    var w, after := Written(sheet.out), sheet.Append(text, spaceBefore);
    if state.Break? {
      LinesOnly(state.lines, state.level * o.indent);
      LinesOnly(0, state.level * o.indent);
      hide AllSpace;
      Regroup(w, raw, Lines(state.lines, 0), Lines(0, state.level * o.indent), text);
    } else {
      hide AllSpace;
      var space := if spaceBefore && !sheet.suppressSpace then " " else "";
      assert space == Space(if spaceBefore then Spaced else Joined, state, o);
      assert w + (sheet.current + space + text) == (w + sheet.current) + space + text;
    }
  }

  lemma Regroup(w: string, raw: string, feeds: string, spaces: string, text: string)
    requires w == raw + feeds
    ensures w + (spaces + "" + text) == raw + (feeds + spaces) + text
  {
  }

  lemma AppendShows(sheet: Sheet, raw: string, state: Effect, text: string, spaceBefore: bool, o: Options)
    requires Shows(sheet, raw, state, o) && text != "" && !IsSpace(text[0])
    requires !state.Break? ==> Written(sheet.out) + sheet.current == raw
    ensures Shows(sheet.Append(text, spaceBefore), raw + Space(if spaceBefore then Spaced else Joined, state, o) + TrimEnd(text), Open, o)
  {
    AppendWrites(sheet, raw, state, text, spaceBefore, o);
    hide TrimEnd, IsSpace, Written, AllSpace, Space, Lines;
    TrimEndAppend(raw + Space(if spaceBefore then Spaced else Joined, state, o), text);
    SpaceThen(sheet.Append(text, spaceBefore).current, text);
  }

  lemma SpaceThen(s: string, text: string)
    requires text != "" && !IsSpace(text[0]) && |s| >= |text| && s[|s| - |text|..] == text
    ensures !AllSpace(s)
  {
    assert s[|s| - |text|] == text[0];
  }

  // ---------- One token ----------

  function Lay(sheet: Sheet, lead: Lead, text: string, o: Options): Sheet {
    match lead
    case Fresh(level) => sheet.StartLine(level, o).Append(text, false)
    case Spaced => sheet.Append(text, true)
    case Joined => sheet.Append(text, false)
  }

  function Settle(sheet: Sheet, effect: Effect, o: Options): Sheet {
    match effect
    case Open => sheet
    case Tight => sheet.(suppressSpace := true)
    case Break(lines, level) =>
      if lines == 2 then var f := sheet.Flush(); f.(out := f.out + [""]) else sheet.StartLine(level, o)
  }

  lemma LayWrites(sheet: Sheet, raw: string, state: Effect, lead: Lead, text: string, o: Options)
    requires Shows(sheet, raw, state, o)
    requires !state.Break? ==> Written(sheet.out) + sheet.current == raw
    ensures Written(Lay(sheet, lead, text, o).out) + Lay(sheet, lead, text, o).current == raw + Space(lead, state, o) + text
  {
    hide TrimEnd, IsSpace, Written, AllSpace, Shows, Lines;
    match lead {
      case Fresh(level) =>
        StartLineShows(sheet, raw, state, level, o);
        var begun := Break(if state.Break? then state.lines else 1, level);
        AppendWrites(sheet.StartLine(level, o), raw, begun, text, false, o);
      case Spaced => AppendWrites(sheet, raw, state, text, true, o);
      case Joined => AppendWrites(sheet, raw, state, text, false, o);
    }
  }

  lemma LayShows(sheet: Sheet, raw: string, state: Effect, lead: Lead, text: string, o: Options)
    requires Shows(sheet, raw, state, o) && text != "" && !IsSpace(text[0])
    requires !state.Break? ==> Written(sheet.out) + sheet.current == raw
    ensures Shows(Lay(sheet, lead, text, o), raw + Space(lead, state, o) + TrimEnd(text), Open, o)
  {
    hide TrimEnd, IsSpace, Written, AllSpace, Shows, Lines;
    match lead {
      case Fresh(level) =>
        StartLineShows(sheet, raw, state, level, o);
        var begun := Break(if state.Break? then state.lines else 1, level);
        AppendShows(sheet.StartLine(level, o), raw, begun, text, false, o);
      case Spaced => AppendShows(sheet, raw, state, text, true, o);
      case Joined => AppendShows(sheet, raw, state, text, false, o);
    }
  }

  lemma SettleShows(sheet: Sheet, raw: string, effect: Effect, o: Options)
    requires Shows(sheet, raw, Open, o)
    requires effect.Break? ==> effect.lines == 1 || effect == Break(2, 0)
    ensures Shows(Settle(sheet, effect, o), raw, effect, o)
    ensures !effect.Break? ==> Settle(sheet, effect, o).out == sheet.out && Settle(sheet, effect, o).current == sheet.current
  {
    hide TrimEnd, IsSpace, Written, AllSpace;
    match effect {
      case Open =>
      case Tight =>
      case Break(lines, level) =>
        if lines == 2 {
          FlushShows(sheet, raw, Open, o);
          WrittenPush(sheet.Flush().out, "");
          LinesOnly(1, 0);
          assert Written(sheet.Flush().out) + "" + "\n" == raw + ("\n" + "\n");
        } else {
          StartLineShows(sheet, raw, Open, level, o);
        }
    }
  }

  // ---------- formatSql ----------

  lemma FlushIsLineZero(sheet: Sheet, o: Options)
    ensures sheet.Flush() == sheet.StartLine(0, o)
  {
    assert 0 * o.indent == 0;
    LinesOnly(0, 0);
  }

  /** The loop body for a comment or a punctuation mark. */
  method WriteMark(ts: seq<Token>, index: nat, before: Sheet, depth: nat, o: Options) returns (sheet: Sheet)
    requires index < |ts| && (ts[index].kind.Comment? || ts[index].kind.Punct?) && depth == 0
    ensures sheet == Settle(Lay(before, LeadOf(ts, index), ts[index].value, o), EffectOf(ts, index), o)
  {
    hide TrimEnd, AllSpace, IsSpace, Sheet.Append, Sheet.Flush, Sheet.StartLine;
    var token := ts[index];
    if token.kind.Comment? {
      sheet := before.StartLine(depth, o);
      sheet := sheet.Append(token.value, false);
      FlushIsLineZero(sheet, o);
      sheet := sheet.Flush();
    } else if token.value == "(" {
      sheet := before.Append("(", !IsFunctionCall(ts, index));
      sheet := sheet.(suppressSpace := true);
    } else if token.value == ")" {
      sheet := before.Append(")", false);
    } else if token.value == "," {
      sheet := before.Append(",", false);
      if Parens(ts, index) == 0 {
        sheet := sheet.StartLine(depth + 1, o);
      }
    } else if token.value == ";" {
      sheet := before.Append(";", false);
      sheet := sheet.Flush();
      sheet := sheet.(out := sheet.out + [""]);
    } else {
      sheet := before.Append(token.value, false);
    }
  }

  /** The loop body for a keyword outside parentheses; done is false if the general case remains. */
  method WriteKeyword(ts: seq<Token>, index: nat, before: Sheet, d: nat, o: Options) returns (sheet: Sheet, depth: nat,
          done: bool)
    requires index < |ts| && ts[index].kind.Keyword? && Parens(ts, index) == 0 && d == 0
    ensures depth == 0
    ensures done ==> sheet == Settle(Lay(before, LeadOf(ts, index), Cased(ts[index], o).value, o), EffectOf(ts, index), o)
    ensures !done ==> sheet == before && LeadOf(ts, index) == Spaced && EffectOf(ts, index) == Open
  {
    hide TrimEnd, AllSpace, IsSpace, Sheet.Append, Sheet.Flush, Sheet.StartLine, IsClause, IsJoin, IsContinuation;
    sheet, depth, done := before, d, true;
    var token, text := ts[index], Cased(ts[index], o).value;
    var upper := Upper(token.value);
    if upper == "BY" {
      sheet := sheet.Append(text, true);
      sheet := sheet.StartLine(depth + 1, o);
    } else if IsClause(upper) {
      depth := if upper == "SELECT" && |sheet.out| > 0 then depth else 0;
      sheet := sheet.StartLine(depth, o);
      sheet := sheet.Append(text, false);
      var listed := upper == "SELECT" || upper == "SET" || upper == "VALUES";
      if listed && index + 1 < |ts| && !IsWord(ts[index + 1], "DISTINCT") {
        sheet := sheet.StartLine(depth + 1, o);
      }
      if upper == "WHERE" || upper == "FROM" || upper == "HAVING" {
        sheet := sheet.StartLine(depth + 1, o);
      }
    } else if IsJoin(upper) {
      sheet := sheet.StartLine(depth, o);
      sheet := sheet.Append(text, false);
    } else if IsContinuation(upper) {
      sheet := sheet.StartLine(depth + 1, o);
      sheet := sheet.Append(text, false);
    } else if upper == "DISTINCT" || upper == "ALL" {
      sheet := sheet.Append(text, true);
      sheet := sheet.StartLine(depth + 1, o);
    } else {
      done := false;
    }
  }

  /** The loop body. */
  method WriteToken(ts: seq<Token>, index: nat, before: Sheet, d: nat, parens: nat, o: Options)
    returns (sheet: Sheet, depth: nat, parenDepth: nat)
    requires index < |ts| && parens == Parens(ts, index) && d == 0
    ensures depth == 0 && parenDepth == Parens(ts, index + 1)
    ensures sheet == Settle(Lay(before, LeadOf(ts, index), Cased(ts[index], o).value, o), EffectOf(ts, index), o)
  {
    hide TrimEnd, AllSpace, IsSpace, Sheet.Append, Sheet.Flush, Sheet.StartLine, IsClause, IsJoin, IsContinuation;
    sheet, depth, parenDepth := before, d, parens;
    var token := ts[index];
    if token.kind.Comment? || token.kind.Punct? {
      sheet := WriteMark(ts, index, sheet, depth, o);
      if IsMark(token, "(") {
        parenDepth := parenDepth + 1;
      } else if IsMark(token, ")") && parenDepth > 0 {
        parenDepth := parenDepth - 1;
      }
      return;
    }
    if token.kind.Keyword? && parenDepth == 0 {
      var done: bool;
      sheet, depth, done := WriteKeyword(ts, index, sheet, depth, o);
      if done {
        return;
      }
    }
    if IsDot(token) {
      sheet := sheet.Append(".", false);
      sheet := sheet.(suppressSpace := true);
    } else {
      sheet := sheet.Append(Cased(token, o).value, true);
    }
  }

  /** What the loop of formatSql knows after index tokens. */
  ghost predicate Printing(ts: seq<Token>, index: nat, sheet: Sheet, o: Options)
    requires index <= |ts|
  {
    && Shows(sheet, Raw(ts, index, o), State(ts, index), o)
    && (index < |ts| && !State(ts, index).Break? ==> Written(sheet.out) + sheet.current == Raw(ts, index, o))
  }

  lemma PrintingBegins(ts: seq<Token>, o: Options)
    ensures Printing(ts, 0, Sheet([], "", false), o)
  {
    assert 0 * o.indent == 0;
    LinesOnly(0, 0);
  }

  /** Casing leaves a token what it is. */
  lemma CasedLexeme(t: Token, o: Options)
    requires Lexeme(t)
    ensures Lexeme(Cased(t, o)) && Cased(t, o).kind == t.kind
    ensures Whole(t) ==> Whole(Cased(t, o))
  {
    if t.kind.Keyword? && o.uppercase {
      KeywordIsWord(t);
      UpperWord(t.value, 0);
      UpperIsUpper(t.value);
      hide IsReserved, Upper, Reach, Lexeme, Whole;
      WordLexeme(Upper(t.value));
    }
  }

  lemma UpperIsUpper(s: string)
    ensures Upper(Upper(s)) == Upper(s)
    ensures s != "" && IsLetter(s[0]) ==> IsLetter(Upper(s)[0])
  {
  }

  /** A reserved word made of word characters is a keyword. */
  lemma WordLexeme(s: string)
    requires s != "" && IsLetter(s[0]) && Reach(Word, s, 0) == |s| && IsReserved(Upper(s))
    ensures Lexeme(Token(Keyword, s)) && Whole(Token(Keyword, s))
  {
    hide IsReserved, Upper, Reach;
    assert OpeningOf(s) == Scanned(Word, 0);
    assert s[..|s|] == s;
  }

  lemma KeywordIsWord(t: Token)
    requires Lexeme(t) && t.kind.Keyword?
    ensures IsLetter(t.value[0]) && OpeningOf(t.value) == Scanned(Word, 0) && Reach(Word, t.value, 0) == |t.value|
    ensures IsReserved(Upper(t.value))
  {
    hide IsReserved, Upper, Reach;
    assert t.value[..|t.value|] == t.value;
  }

  lemma {:induction false} UpperWord(s: string, i: nat)
    requires i <= |s|
    ensures Reach(Word, Upper(s), i) == Reach(Word, s, i)
    decreases |s| - i
  {
    if i < |s| {
      UpperWord(s, i + 1);
    }
  }

  /** A token that leaves the line open and is not the last does not end in white space. */
  lemma OpenEndsDark(ts: seq<Token>, index: nat, o: Options)
    requires Lexed(ts) && index + 1 < |ts| && !EffectOf(ts, index).Break?
    ensures TrimEnd(Cased(ts[index], o).value) == Cased(ts[index], o).value
  {
    hide EffectOf, LeadOf, Lexeme, Whole, First, IsSpace, IsLineComment, Cased;
    EffectShape(ts, index);
    CasedLexeme(ts[index], o);
    CasedComment(ts[index], o);
    WholeEndsDark(Cased(ts[index], o));
    assert Cased(ts[index], o).value != "" by { LexemeText(Cased(ts[index], o)); }
  }

  lemma LexemeText(t: Token)
    requires Lexeme(t)
    ensures t.value != "" && !IsSpace(t.value[0])
  {
  }

  lemma CasedComment(t: Token, o: Options)
    requires Lexeme(t)
    ensures IsLineComment(Cased(t, o)) <==> IsLineComment(t)
  {
    hide IsReserved, Upper, Reach;
    if t.kind.Keyword? {
      KeywordIsWord(t);
      UpperIsUpper(t.value);
    }
  }

  /** One turn of the loop. */
  lemma PrintingStep(ts: seq<Token>, index: nat, sheet: Sheet, o: Options)
    requires Lexed(ts) && index < |ts| && Printing(ts, index, sheet, o)
    ensures Printing(ts, index + 1, Settle(Lay(sheet, LeadOf(ts, index), Cased(ts[index], o).value, o), EffectOf(ts, index), o), o)
  {
    hide Lexeme, Whole, Cased, IsSpace, LeadOf, EffectOf, Shows, Lay, Settle, Written, TrimEnd, Space;
    var text := Cased(ts[index], o).value;
    var lead, state, effect := LeadOf(ts, index), State(ts, index), EffectOf(ts, index);
    CasedLexeme(ts[index], o);
    LexemeText(Cased(ts[index], o));
    EffectShape(ts, index);
    if index + 1 < |ts| && !effect.Break? {
      OpenEndsDark(ts, index, o);
    }
    var raw := Raw(ts, index, o);
    LayWrites(sheet, raw, state, lead, text, o);
    LayShows(sheet, raw, state, lead, text, o);
    var laid := Lay(sheet, lead, text, o);
    SettleShows(laid, raw + Space(lead, state, o) + TrimEnd(text), effect, o);
    assert Raw(ts, index + 1, o) == raw + Space(lead, state, o) + TrimEnd(text);
  }

  lemma EffectShape(ts: seq<Token>, i: nat)
    requires i < |ts|
    ensures EffectOf(ts, i).Break? ==> EffectOf(ts, i).lines == 1 || EffectOf(ts, i) == Break(2, 0)
    ensures Lexeme(ts[i]) && !EffectOf(ts, i).Break? ==> !IsLineComment(ts[i])
  {
    hide IsClause, IsJoin, IsContinuation, Upper, Length, IsReserved;
    if Lexeme(ts[i]) && IsLineComment(ts[i]) {
      assert OpeningOf(ts[i].value) == Scanned(ToLineEnd, 0);
    }
  }

  /** The last line is closed. */
  lemma PrintingEnds(ts: seq<Token>, sheet: Sheet, o: Options)
    requires ts != [] && Printing(ts, |ts|, sheet, o)
    ensures JoinLines(sheet.Flush().out) == Raw(ts, |ts|, o) + Tail(State(ts, |ts|))
  {
    var raw, state := Raw(ts, |ts|, o), State(ts, |ts|);
    EffectShape(ts, |ts| - 1);
    FlushShows(sheet, raw, state, o);
    var out := sheet.Flush().out;
    hide Raw, EffectOf, Lexeme, IsLineComment;
    LastLine(out, raw, state);
  }

  lemma LastLine(out: seq<string>, raw: string, state: Effect)
    requires state.Break? ==> state.lines == 1 || state.lines == 2
    requires Written(out) == raw + Lines(if state.Break? then state.lines else 1, 0)
    ensures JoinLines(out) == raw + Tail(state)
  {
    LinesOnly(1, 0);
    hide Lines, JoinLines;
    assert Written(out) == (raw + Tail(state)) + "\n";
    assert out != [];
    JoinWritten(out);
    assert (JoinLines(out) + "\n")[..|JoinLines(out)|] == JoinLines(out);
    assert ((raw + Tail(state)) + "\n")[..|raw + Tail(state)|] == raw + Tail(state);
  }

  method FormatSql(input: string, o: Options) returns (text: string)
    ensures text == Render(Lex(input), o)
  {
    hide AllSpace, Render, Lex, Shows, Written, Lay, Settle, LeadOf, EffectOf, Lexed;
    if AllSpace(input) {
      BlankInput(input, o);
      return "";
    }
    var tokens := TokenizeSql(input);
    LexIsLexed(input);
    InkInput(input);
    var sheet, depth, parenDepth := Sheet([], "", false), 0, 0;
    PrintingBegins(tokens, o);
    hide Printing;
    for index := 0 to |tokens|
      invariant depth == 0 && parenDepth == Parens(tokens, index)
      invariant Printing(tokens, index, sheet, o)
    {
      PrintingStep(tokens, index, sheet, o);
      sheet, depth, parenDepth := WriteToken(tokens, index, sheet, depth, parenDepth, o);
    }
    PrintingEnds(tokens, sheet, o);
    sheet := sheet.Flush();
    text := Trim(Strip(Collapse(JoinLines(sheet.out))));
    RenderIs(tokens, o);
  }

  lemma RenderIs(ts: seq<Token>, o: Options)
    ensures Render(ts, o) == Trim(Strip(Collapse(Raw(ts, |ts|, o) + Tail(State(ts, |ts|)))))
  {
  }

  lemma BlankInput(input: string, o: Options)
    requires AllSpace(input)
    ensures Lex(input) == [] && Render(Lex(input), o) == ""
  {
    assert input + "" == input;
    LexSkips(input, "");
    LexEmpty("");
  }

  lemma {:induction false} InkInput(input: string)
    requires !AllSpace(input)
    ensures Lex(input) != []
  {
    hide Lex, First, IsSpace;
    LexStep(input);
    if IsSpace(input[0]) {
      assert !AllSpace(input[1..]) by {
        var k :| 0 <= k < |input| && !IsSpace(input[k]);
        assert input[1..][k - 1] == input[k];
      }
      InkInput(input[1..]);
    }
  }
}
