/** The SQL lexer: a token is decided by the text from its first character on, and is read again from its own text. */
module SqlLexer {
  import opened Text

  datatype Kind = Keyword | Identifier | Number | Literal | Operator | Punct | Comment | Parameter

  datatype Token = Token(kind: Kind, value: string)

  predicate IsLetter(c: char) {
    'a' <= c <= 'z' || 'A' <= c <= 'Z' || c == '_'
  }

  predicate IsNameChar(c: char) {
    IsLetter(c) || IsDigit(c)
  }

  predicate IsWordChar(c: char) {
    IsNameChar(c) || c == '$'
  }

  predicate IsNumberChar(c: char) {
    IsDigit(c) || c == '.' || c == 'e' || c == 'E' || c == '+' || c == '-'
  }

  predicate IsPunct(c: char) {
    c == '(' || c == ')' || c == '[' || c == ']' || c == ',' || c == ';'
  }

  predicate IsTwoCharOperator(s: string) {
    s == "<=" || s == ">=" || s == "<>" || s == "!=" || s == "||" || s == "::" || s == "->" || s == "=>"
  }

  /** toUpperCase on the ASCII words that can be keywords. */
  function UpperChar(c: char): char {
    if 'a' <= c <= 'z' then c - 'a' + 'A' else c
  }

  function Upper(s: string): (r: string)
    ensures |r| == |s|
    ensures forall k :: 0 <= k < |s| ==> r[k] == UpperChar(s[k])
  {
    seq(|s|, k requires 0 <= k < |s| => UpperChar(s[k]))
  }

  predicate IsClause(upper: string) {
    upper in {"SELECT", "FROM", "WHERE", "GROUP", "HAVING", "ORDER", "LIMIT", "OFFSET", "UNION", "INTERSECT", "EXCEPT",
              "INSERT", "UPDATE", "DELETE", "SET", "VALUES", "RETURNING", "WITH", "WINDOW", "FETCH"}
  }

  predicate IsJoin(upper: string) {
    upper in {"JOIN", "INNER", "LEFT", "RIGHT", "FULL", "CROSS", "NATURAL", "LATERAL"}
  }

  predicate IsContinuation(upper: string) {
    upper in {"AND", "OR", "ON"}
  }

  predicate IsReserved(upper: string) {
    || IsClause(upper) || IsJoin(upper) || IsContinuation(upper)
    || upper in {"AS", "BY", "ASC", "DESC", "DISTINCT", "ALL", "INTO", "CASE", "WHEN", "THEN", "ELSE", "END", "NOT", "NULL",
                 "IS", "IN", "EXISTS", "BETWEEN", "LIKE", "ILIKE", "USING", "CAST", "OVER", "PARTITION", "ROWS", "RANGE",
                 "CREATE", "TABLE", "VIEW", "INDEX", "DROP", "ALTER", "ADD", "COLUMN", "PRIMARY", "KEY", "FOREIGN",
                 "REFERENCES", "UNIQUE", "CHECK", "DEFAULT", "CONSTRAINT", "CASCADE", "TRUE", "FALSE", "ANY", "SOME"}
  }

  // ---------- Scanning one token ----------

  /** What the lexer looks for once it knows how a token begins. */
  datatype Scanner = ToLineEnd | ToBlockEnd | ToQuote | ToClose(close: char) | Digits | Name | Numeric | Word

  /** How many characters position i contributes; 0 ends the scan. */
  function Advance(m: Scanner, s: string, i: nat): (n: nat)
    requires i < |s|
    ensures i + n <= |s|
  {
    match m
    case ToLineEnd => if s[i] == '\n' then 0 else 1
    case ToBlockEnd => if i + 1 < |s| && s[i] == '*' && s[i + 1] == '/' then 0 else 1
    case ToQuote => if s[i] != '\'' then 1 else if i + 1 < |s| && s[i + 1] == '\'' then 2 else 0
    case ToClose(close) => if s[i] == close then 0 else 1
    case Digits => if IsDigit(s[i]) then 1 else 0
    case Name => if IsNameChar(s[i]) then 1 else 0
    case Word => if IsWordChar(s[i]) then 1 else 0
    case Numeric =>
      if !IsNumberChar(s[i]) then 0
      else if (s[i] == '+' || s[i] == '-') && !(i > 0 && (s[i - 1] == 'e' || s[i - 1] == 'E')) then 0
      else 1
  }

  function Reach(m: Scanner, s: string, i: nat): (r: nat)
    requires i <= |s|
    ensures i <= r <= |s|
    decreases |s| - i
  {
    if i == |s| || Advance(m, s, i) == 0 then i else Reach(m, s, i + Advance(m, s, i))
  }

  /** The length of the closing mark that belongs to the token. */
  function Ending(m: Scanner): nat {
    match m
    case ToBlockEnd => 2
    case ToQuote => 1
    case ToClose(_) => 1
    case _ => 0
  }

  datatype Opening = Scanned(scanner: Scanner, start: nat) | Fixed(kind: Kind, length: nat)

  /** How a token beginning with c is read, given the character after c, if any. */
  function Opens(c: char, d: string): (o: Opening)
    requires |d| <= 1
    ensures o.Scanned? ==> o.start <= 1 + |d|
    ensures o.Fixed? ==> 0 < o.length <= 1 + |d|
  {
    if c == '-' && d == "-" then Scanned(ToLineEnd, 0)
    else if c == '/' && d == "*" then Scanned(ToBlockEnd, 2)
    else if c == '\'' then Scanned(ToQuote, 1)
    else if c == '"' || c == '`' then Scanned(ToClose(c), 1)
    else if c == '[' then Scanned(ToClose(']'), 1)
    else if c == '$' && d != "" && IsDigit(d[0]) then Scanned(Digits, 1)
    else if (c == ':' || c == '@') && d != "" && IsLetter(d[0]) then Scanned(Name, 1)
    else if c == '?' then Fixed(Parameter, 1)
    else if IsDigit(c) || (c == '.' && d != "" && IsDigit(d[0])) then Scanned(Numeric, 0)
    else if IsLetter(c) then Scanned(Word, 0)
    else if IsTwoCharOperator([c] + d) then Fixed(Operator, 2)
    else if IsPunct(c) then Fixed(Punct, 1)
    else Fixed(Operator, 1)
  }

  function Second(s: string): (d: string)
    requires s != ""
    ensures |d| <= 1
  {
    if |s| >= 2 then [s[1]] else ""
  }

  function OpeningOf(s: string): (o: Opening)
    requires s != ""
    ensures o.Scanned? ==> o.start <= |s|
    ensures o.Fixed? ==> 0 < o.length <= |s|
  {
    Opens(s[0], Second(s))
  }

  /** The length of the token at the start of s. */
  function Length(s: string): (n: nat)
    requires s != ""
    ensures 0 < n <= |s|
  {
    match OpeningOf(s)
    case Fixed(_, n) => n
    case Scanned(m, start) =>
      var r := Reach(m, s, start) + Ending(m);
      if r <= |s| then r else |s|
  }

  function KindOf(o: Opening, value: string): Kind {
    match o
    case Fixed(kind, _) => kind
    case Scanned(m, _) =>
      match m
      case ToLineEnd => Comment
      case ToBlockEnd => Comment
      case ToQuote => Literal
      case ToClose(_) => Identifier
      case Digits => Parameter
      case Name => Parameter
      case Numeric => Number
      case Word => if IsReserved(Upper(value)) then Keyword else Identifier
  }

  /** The token at the start of s. */
  function First(s: string): (t: Token)
    requires s != ""
    ensures t.value == s[..Length(s)]
  {
    Token(KindOf(OpeningOf(s), s[..Length(s)]), s[..Length(s)])
  }

  function Lex(s: string): seq<Token>
    decreases |s|
  {
    if s == "" then [] else if IsSpace(s[0]) then Lex(s[1..]) else [First(s)] + Lex(s[Length(s)..])
  }

  // ---------- tokenizeSql ----------

  /** The inner loops and searches of the lexer. */
  method ScanOn(m: Scanner, s: string, start: nat) returns (j: nat)
    requires start <= |s|
    ensures j == Reach(m, s, start)
  {
    j := start;
    while j < |s| && Advance(m, s, j) > 0
      invariant start <= j <= |s|
      invariant Reach(m, s, j) == Reach(m, s, start)
    {
      j := j + Advance(m, s, j);
    }
  }

  /** The token at the start of a text. */
  method ReadToken(rest: string) returns (t: Token)
    requires rest != ""
    ensures t == First(rest)
  {
    hide Opens, Reach, IsReserved, Upper;
    var o := OpeningOf(rest);
    var n: nat;
    match o {
      case Fixed(_, length) =>
        n := length;
      case Scanned(m, start) =>
        n := ScanOn(m, rest, start);
        n := n + Ending(m);
        if n > |rest| {
          n := |rest|;
        }
    }
    t := Token(KindOf(o, rest[..n]), rest[..n]);
  }

  /** tokenizeSql, without line numbers. */
  method TokenizeSql(input: string) returns (tokens: seq<Token>)
    ensures tokens == Lex(input)
  {
    hide First, Length, Lex, IsSpace;
    tokens := [];
    var i := 0;
    assert input[0..] == input;
    while i < |input|
      invariant i <= |input|
      invariant tokens + Lex(input[i..]) == Lex(input)
    {
      LexStep(input[i..]);
      if IsSpace(input[i]) {
        assert input[i..][1..] == input[i + 1..];
        i := i + 1;
      } else {
        var t := ReadToken(input[i..]);
        assert input[i..][|t.value|..] == input[i + |t.value|..];
        tokens := tokens + [t];
        i := i + |t.value|;
      }
    }
    LexEmpty(input[i..]);
  }

  lemma LexEmpty(s: string)
    requires s == ""
    ensures Lex(s) == []
  {
  }

  lemma LexStep(s: string)
    requires s != ""
    ensures 0 < |First(s).value| <= |s|
    ensures Lex(s) == if IsSpace(s[0]) then Lex(s[1..]) else [First(s)] + Lex(s[|First(s).value|..])
  {
    hide IsSpace, KindOf, OpeningOf;
  }

  // ---------- Reading a token again ----------

  /** A text that is one token. */
  predicate Lexeme(t: Token) {
    t.value != "" && !IsSpace(t.value[0]) && First(t.value) == t
  }

  /** A literal, quoted identifier or block comment that has its closing mark; every other token. */
  predicate Whole(t: Token)
    requires t.value != ""
  {
    var o := OpeningOf(t.value);
    o.Scanned? ==> Reach(o.scanner, t.value, o.start) + Ending(o.scanner) == |t.value|
  }

  predicate IsLineComment(t: Token) {
    |t.value| >= 2 && t.value[0] == '-' && t.value[1] == '-'
  }

  /** What may stand right after the text of t without becoming part of it. */
  predicate Follows(t: Token, y: string)
    requires t.value != ""
  {
    || y == ""
    || (Whole(t) &&
        if IsLineComment(t) then y[0] == '\n'
        else || IsSpace(y[0]) || y[0] == ')' || y[0] == ']' || y[0] == ',' || y[0] == ';'
             || (y[0] == '.' && !t.kind.Number?)
             || (y[0] == '(' && (t.kind.Identifier? || t.kind.Keyword?))
             || t.value == "("
             || (t.value == "." && !IsDigit(y[0])))
  }

  /** The scan does not go on into a text that begins with c. */
  predicate StopsAt(m: Scanner, c: char) {
    match m
    case ToLineEnd => c == '\n'
    case ToQuote => c != '\''
    case Digits => !IsDigit(c)
    case Name => !IsNameChar(c)
    case Word => !IsWordChar(c)
    case Numeric => !IsNumberChar(c)
    case _ => true
  }

  /** A step of a scan depends on little more than the characters it steps over. */
  lemma AdvanceAgain(m: Scanner, s: string, t: string, i: nat, r: nat)
    requires i < r <= |s| && r <= |t| && s[..r] == t[..r]
    requires 0 < Advance(m, s, i) && i + Advance(m, s, i) <= r
    requires m.ToBlockEnd? ==> r < |s| && r < |t| && s[r] == t[r]
    ensures Advance(m, t, i) == Advance(m, s, i)
  {
    assert forall k :: 0 <= k < r ==> s[k] == s[..r][k] && t[k] == t[..r][k];
  }

  /** A scan of s that reaches r reaches r in t as well if t agrees up to r and stops there. */
  lemma {:induction false} ReachAgain(m: Scanner, s: string, t: string, i: nat, r: nat)
    requires i <= r <= |s| && r <= |t| && s[..r] == t[..r] && Reach(m, s, i) == r
    requires m.ToBlockEnd? ==> r < |s| && r < |t| && s[r] == t[r]
    requires r == |t| || Advance(m, t, r) == 0
    ensures Reach(m, t, i) == r
    decreases r - i
  {
    hide Advance;
    if i < r {
      AdvanceAgain(m, s, t, i, r);
      ReachAgain(m, s, t, i + Advance(m, s, i), r);
    }
  }

  lemma {:induction false} ReachStops(m: Scanner, s: string, i: nat)
    requires i <= |s|
    ensures Reach(m, s, i) == |s| || Advance(m, s, Reach(m, s, i)) == 0
    decreases |s| - i
  {
    hide Advance;
    if i < |s| && Advance(m, s, i) > 0 {
      ReachStops(m, s, i + Advance(m, s, i));
    }
  }

  /** Behind a scan that has its ending, a text that does not continue it changes nothing. */
  lemma ReachAppend(m: Scanner, x: string, y: string, i: nat)
    requires i <= |x| && Reach(m, x, i) + Ending(m) == |x|
    requires y == "" || StopsAt(m, y[0])
    ensures Reach(m, x + y, i) == Reach(m, x, i)
  {
    var r := Reach(m, x, i);
    ReachStops(m, x, i);
    assert (x + y)[..r] == x[..r];
    assert r < |x| ==> (x + y)[r] == x[r];
    assert r + 1 < |x| ==> (x + y)[r + 1] == x[r + 1];
    assert y != "" ==> (x + y)[|x|] == y[0];
    assert r == |x + y| || Advance(m, x + y, r) == 0;
    ReachAgain(m, x, x + y, i, r);
  }

  /** Nor does cutting the text off behind the scan. */
  lemma ReachCut(m: Scanner, s: string, i: nat, n: nat)
    requires i <= n <= |s| && Reach(m, s, i) + Ending(m) == n
    ensures Reach(m, s[..n], i) == Reach(m, s, i)
  {
    var r, t := Reach(m, s, i), s[..n];
    ReachStops(m, s, i);
    assert t[..r] == s[..r];
    assert r < n ==> t[r] == s[r];
    assert r + 1 < n ==> t[r + 1] == s[r + 1];
    assert r == |t| || Advance(m, t, r) == 0;
    ReachAgain(m, s, t, i, r);
  }

  /** The text of a token opens as it did in its context. */
  lemma OpeningCut(s: string)
    requires s != "" && !IsSpace(s[0])
    ensures OpeningOf(s[..Length(s)]) == OpeningOf(s)
  {
    var x := s[..Length(s)];
    if |x| >= 2 {
      assert Second(x) == Second(s);
    } else {
      assert Second(x) == "";
      if Opens(s[0], Second(s)) != Opens(s[0], "") {
        OneCharacter(s);
      }
    }
  }

  /** A token whose reading depends on its second character has a second character. */
  lemma OneCharacter(s: string)
    requires s != "" && Opens(s[0], Second(s)) != Opens(s[0], "")
    ensures Length(s) >= 2
  {
    hide IsReserved;
    var o := OpeningOf(s);
    if o.Scanned? && o.start < 2 {
      assert o.start == 0 ==> Advance(o.scanner, s, 0) == 1;
      assert Advance(o.scanner, s, 1) == 1;
      assert Reach(o.scanner, s, 1) >= 2;
    }
  }

  /** The text of a token, on its own, is that token, and complete unless the input ends inside it. */
  lemma Cut(s: string)
    requires s != "" && !IsSpace(s[0])
    ensures Lexeme(First(s))
    ensures Length(s) < |s| ==> Whole(First(s))
  {
    hide IsSpace, IsReserved, Reach, Opens, Upper;
    var n, o := Length(s), OpeningOf(s);
    var x := s[..n];
    OpeningCut(s);
    if o.Scanned? {
      if Reach(o.scanner, s, o.start) + Ending(o.scanner) <= |s| {
        ReachCut(o.scanner, s, o.start, n);
      } else {
        assert x == s;
      }
    }
    assert Length(x) == n && x[..n] == x;
  }

  /** With a text behind it that may follow, a token is still read as itself. */
  lemma FirstOf(t: Token, y: string)
    requires Lexeme(t) && Follows(t, y)
    ensures First(t.value + y) == t
  {
    var x := t.value;
    if y == "" {
      assert x + y == x;
    } else {
      var o := OpeningOf(x);
      FollowsOpening(t, y);
      FollowsStops(t, y);
      hide IsSpace, IsReserved, Reach, Opens, Upper, Follows;
      if o.Scanned? {
        ReachAppend(o.scanner, x, y, o.start);
      }
      assert Length(x + y) == |x|;
      assert (x + y)[..|x|] == x == x[..|x|];
    }
  }

  lemma FollowsOpening(t: Token, y: string)
    requires Lexeme(t) && Follows(t, y) && y != ""
    ensures OpeningOf(t.value + y) == OpeningOf(t.value)
  {
    hide IsReserved, Reach, Upper, IsSpace;
    var x := t.value;
    if |x| >= 2 {
      assert Second(x + y) == Second(x);
    } else {
      assert (x + y)[1] == y[0];
      DarkWordChar(y[0]);
      var both := [x[0]] + [y[0]];
      assert both[0] == x[0] && both[1] == y[0];
      if IsTwoCharOperator(both) {
        TwoCharEnds(both);
      }
      assert Second(x + y) == [y[0]] && Second(x) == "";
    }
  }

  lemma DarkWordChar(c: char)
    ensures IsSpace(c) ==> !IsNumberChar(c) && !IsWordChar(c) && c !in "=>|:*'"
  {
  }

  lemma TwoCharEnds(s: string)
    requires |s| == 2 && IsTwoCharOperator(s)
    ensures s[0] in "<>!|:-=" && s[1] in "=>|:"
  {
  }

  lemma FollowsStops(t: Token, y: string)
    requires Lexeme(t) && Follows(t, y) && y != ""
    ensures OpeningOf(t.value).Scanned? ==> StopsAt(OpeningOf(t.value).scanner, y[0])
  {
    hide Reach, Upper;
  }

  // ---------- Token lists ----------

  /** What every token list of the lexer satisfies: only its last token can be incomplete. */
  ghost predicate Lexed(ts: seq<Token>) {
    && (forall i :: 0 <= i < |ts| ==> Lexeme(ts[i]))
    && (forall i :: 0 <= i < |ts| - 1 ==> Whole(ts[i]))
  }

  lemma {:induction false} LexIsLexed(s: string)
    ensures Lexed(Lex(s))
    decreases |s|
  {
    hide Lex, Lexeme, Whole, First, IsSpace;
    if s == "" {
      LexEmpty(s);
    } else {
      LexStep(s);
      if IsSpace(s[0]) {
        LexIsLexed(s[1..]);
      } else {
        var t := First(s);
        LexIsLexed(s[|t.value|..]);
        Cut(s);
        FirstLength(s);
        if |t.value| == |s| {
          LexEmpty(s[|t.value|..]);
        }
      }
    }
  }

  lemma FirstLength(s: string)
    requires s != ""
    ensures |First(s).value| == Length(s)
  {
    hide Length, KindOf, OpeningOf;
  }

  lemma {:induction false} LexSkips(w: string, y: string)
    requires AllSpace(w)
    ensures Lex(w + y) == Lex(y)
  {
    hide Lex, IsSpace;
    if w == "" {
      assert w + y == y;
    } else {
      LexStep(w + y);
      assert (w + y)[1..] == w[1..] + y;
      LexSkips(w[1..], y);
    }
  }

  lemma LexTakes(t: Token, y: string)
    requires Lexeme(t) && Follows(t, y)
    ensures Lex(t.value + y) == [t] + Lex(y)
  {
    FirstOf(t, y);
    hide Lex, First, Follows, IsSpace;
    LexStep(t.value + y);
    assert (t.value + y)[|t.value|..] == y;
  }

  /** A line comment holds no line feed. */
  lemma LineCommentIsOneLine(t: Token)
    requires Lexeme(t) && IsLineComment(t)
    ensures '\n' !in t.value && t.kind == Comment && Whole(t)
  {
    var x := t.value;
    assert OpeningOf(x) == Scanned(ToLineEnd, 0);
    assert Length(x) == |x|;
    NoneBefore(x, 0);
    hide Reach;
  }

  lemma {:induction false} NoneBefore(s: string, i: nat)
    requires i <= |s|
    ensures forall k :: i <= k < Reach(ToLineEnd, s, i) ==> s[k] != '\n'
    decreases |s| - i
  {
    if i < |s| && s[i] != '\n' {
      NoneBefore(s, i + 1);
    }
  }

  /** The last character a scan stepped over, where that says what it is. */
  lemma {:induction false} LastOfRun(m: Scanner, s: string, i: nat)
    requires i < |s| && i < Reach(m, s, i)
    ensures m.Digits? || m.Name? || m.Word? ==> IsWordChar(s[Reach(m, s, i) - 1])
    ensures m.Numeric? ==> IsNumberChar(s[Reach(m, s, i) - 1])
    decreases |s| - i
  {
    var next := i + Advance(m, s, i);
    if next < |s| && next < Reach(m, s, next) {
      LastOfRun(m, s, next);
    }
  }

  /** A complete token that is not a line comment does not end in white space. */
  lemma WholeEndsDark(t: Token)
    requires Lexeme(t) && Whole(t) && !IsLineComment(t)
    ensures !IsSpace(t.value[|t.value| - 1])
  {
    hide IsReserved, Upper, IsSpace, Advance, Reach, KindOf;
    var x := t.value;
    var o := OpeningOf(x);
    if o.Scanned? {
      ReachStops(o.scanner, x, o.start);
      if Ending(o.scanner) == 0 {
        RunIsNotEmpty(x);
        LastOfRun(o.scanner, x, o.start);
        DarkWordChar(x[|x| - 1]);
      } else {
        EndsInMark(x);
      }
    } else if o.length == 2 {
      TwoCharEnds(x);
      DarkWordChar(x[1]);
    }
  }

  lemma RunIsNotEmpty(x: string)
    requires x != "" && OpeningOf(x).Scanned? && Ending(OpeningOf(x).scanner) == 0
    ensures OpeningOf(x).start < Reach(OpeningOf(x).scanner, x, OpeningOf(x).start)
  {
    hide IsReserved, Upper;
  }

  /** A closed literal, quoted identifier or block comment ends in its closing mark. */
  lemma {:induction false} EndsInMark(x: string)
    requires x != "" && OpeningOf(x).Scanned? && Ending(OpeningOf(x).scanner) > 0
    requires Reach(OpeningOf(x).scanner, x, OpeningOf(x).start) + Ending(OpeningOf(x).scanner) == |x|
    ensures !IsSpace(x[|x| - 1])
  {
    hide IsReserved, Upper, IsTwoCharOperator;
    var o := OpeningOf(x);
    ReachStops(o.scanner, x, o.start);
  }
}
