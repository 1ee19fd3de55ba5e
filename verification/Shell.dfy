/** The shell command lexer: lossless, and exact about quoting and file descriptors. */
module Shell {
  import opened Text
  import opened Basics

  datatype TokenKind = Word | Operator | Redirection | Assignment | Comment

  datatype Token = Token(kind: TokenKind, raw: string, value: string, quoted: bool, start: nat, end: nat)

  const OPERATORS := ["&&", "||", "|&", "|", ";;", ";", "&", "\n"]
  const REDIRECTIONS := ["&>>", "&>", ">>", "<<<", "<<", ">|", ">", "<", "2>>", "2>"]

  /** The first candidate the text has at a position; the empty string for none. */
  function MatchPrefix(input: string, at: nat, candidates: seq<string>): (r: string)
    requires at <= |input|
    ensures r != "" ==> r in candidates
    ensures at + |r| <= |input| && input[at..at + |r|] == r
  {
    if candidates == [] then ""
    else if candidates[0] <= input[at..] then
      assert input[at..][..|candidates[0]|] == input[at..at + |candidates[0]|];
      candidates[0]
    else MatchPrefix(input, at, candidates[1..])
  }

  function OperatorAt(input: string, at: nat): (r: string)
    requires at <= |input|
    ensures at + |r| <= |input| && input[at..at + |r|] == r
  {
    MatchPrefix(input, at, OPERATORS)
  }

  function RedirectionAt(input: string, at: nat): (r: string)
    requires at <= |input|
    ensures at + |r| <= |input| && input[at..at + |r|] == r
  {
    MatchPrefix(input, at, REDIRECTIONS)
  }

  /** No candidate begins a later one, so the first match is the longest. */
  ghost predicate LongestFirst(candidates: seq<string>) {
    forall i, j :: 0 <= i < j < |candidates| ==> !(candidates[i] <= candidates[j])
  }

  lemma {:induction false} FirstIsLongest(input: string, at: nat, candidates: seq<string>, k: nat)
    requires at <= |input| && LongestFirst(candidates) && k < |candidates| && candidates[k] <= input[at..]
    ensures |candidates[k]| <= |MatchPrefix(input, at, candidates)|
  {
    if k > 0 {
      if candidates[0] <= input[at..] {
        var first, other := candidates[0], candidates[k];
        assert !(first <= other);
        if |first| <= |other| {
          PrefixesNest(first, other, input[at..]);
        }
      } else {
        FirstIsLongest(input, at, candidates[1..], k - 1);
      }
    }
  }

  lemma PrefixesNest(a: string, b: string, text: string)
    requires a <= text && b <= text && |a| <= |b|
    ensures a <= b
  {
    assert a == text[..|a|] && b == text[..|b|];
  }

  lemma OperatorsInOrder()
    ensures LongestFirst(OPERATORS)
  {
    forall i, j | 0 <= i < j < |OPERATORS|
      ensures !(OPERATORS[i] <= OPERATORS[j])
    {
      PrefixAgrees(OPERATORS[i], OPERATORS[j]);
    }
  }

  lemma PrefixAgrees(a: string, b: string)
    requires a != ""
    ensures a <= b ==> |a| <= |b| && a[0] == b[0] && (|a| > 1 ==> a[1] == b[1]) && (|a| > 2 ==> a[2] == b[2])
  {
  }

  lemma RedirectionsInOrder()
    ensures LongestFirst(REDIRECTIONS)
  {
    forall i, j | 0 <= i < j < |REDIRECTIONS|
      ensures !(REDIRECTIONS[i] <= REDIRECTIONS[j])
    {
      PrefixAgrees(REDIRECTIONS[i], REDIRECTIONS[j]);
    }
  }

  /** No operator and no redirection the input has at a position is longer than the one found there. */
  lemma LongestMatch(input: string, at: nat)
    requires at <= |input|
    ensures forall c :: c in OPERATORS && c <= input[at..] ==> |c| <= |OperatorAt(input, at)|
    ensures forall c :: c in REDIRECTIONS && c <= input[at..] ==> |c| <= |RedirectionAt(input, at)|
  {
    hide MatchPrefix, LongestFirst;
    OperatorsInOrder();
    RedirectionsInOrder();
    forall c | c in OPERATORS && c <= input[at..]
      ensures |c| <= |OperatorAt(input, at)|
    {
      var k :| 0 <= k < |OPERATORS| && OPERATORS[k] == c;
      FirstIsLongest(input, at, OPERATORS, k);
    }
    forall c | c in REDIRECTIONS && c <= input[at..]
      ensures |c| <= |RedirectionAt(input, at)|
    {
      var k :| 0 <= k < |REDIRECTIONS| && REDIRECTIONS[k] == c;
      FirstIsLongest(input, at, REDIRECTIONS, k);
    }
  }

  predicate AllDigits(s: string) {
    s != "" && forall k :: 0 <= k < |s| ==> IsDigit(s[k])
  }

  predicate IsNameChar(c: char) {
    'a' <= c <= 'z' || 'A' <= c <= 'Z' || c == '_' || IsDigit(c)
  }

  /** The length of the name at the start of s. */
  function NameLength(s: string): (n: nat)
    ensures n <= |s|
  {
    if s != "" && IsNameChar(s[0]) then 1 + NameLength(s[1..]) else 0
  }

  /** /^[A-Za-z_][A-Za-z0-9_]*=/ */
  predicate IsAssignment(raw: string) {
    var n := NameLength(raw);
    0 < n < |raw| && !IsDigit(raw[0]) && raw[n] == '='
  }

  /** An assignment begins with a name, and the equals sign is right behind it. */
  lemma AssignmentIff(raw: string)
    ensures IsAssignment(raw) <==>
              raw != "" && !IsDigit(raw[0])
              && exists n :: 0 < n < |raw| && raw[n] == '=' && forall k :: 0 <= k < n ==> IsNameChar(raw[k])
  {
    NameIs(raw);
    if n :| 0 < n < |raw| && raw[n] == '=' && forall k :: 0 <= k < n ==> IsNameChar(raw[k]) {
      assert n == NameLength(raw);
    }
  }

  lemma {:induction false} NameIs(s: string)
    ensures var n := NameLength(s); (forall k :: 0 <= k < n ==> IsNameChar(s[k])) && (n < |s| ==> !IsNameChar(s[n]))
  {
    if s != "" && IsNameChar(s[0]) {
      NameIs(s[1..]);
    }
  }

  function IndexOf(s: string, c: char, i: nat): (j: nat)
    requires i <= |s|
    ensures i <= j <= |s| && (j < |s| ==> s[j] == c) && forall k :: i <= k < j ==> s[k] != c
    decreases |s| - i
  {
    if i == |s| || s[i] == c then i else IndexOf(s, c, i + 1)
  }

  // ---------- Quoting, as a property of the raw text ----------

  /** Where the double quotes opened before i are closed; |s| if they are not. */
  function CloseDouble(s: string, i: nat): (j: nat)
    requires i <= |s|
    ensures i <= j <= |s|
    decreases |s| - i
  {
    if i == |s| || s[i] == '"' then i
    else if s[i] == '\\' && i + 1 < |s| then CloseDouble(s, i + 2)
    else CloseDouble(s, i + 1)
  }

  /** Text inside double quotes with one level of backslashes removed. */
  function Unescape(s: string): string {
    if s == "" then ""
    else if s[0] == '\\' && |s| > 1 then [s[1]] + Unescape(s[2..])
    else [s[0]] + Unescape(s[1..])
  }

  /** The length of the first quoted run, escaped pair or plain character of a word. */
  function PieceLength(s: string): (n: nat)
    requires s != ""
    ensures 0 < n <= |s|
  {
    if s[0] == '\'' then (var j := IndexOf(s, '\'', 1); if j == |s| then j else j + 1)
    else if s[0] == '"' then (var j := CloseDouble(s, 1); if j == |s| then j else j + 1)
    else if s[0] == '\\' && |s| > 1 then 2
    else 1
  }

  function PieceValue(s: string): string
    requires s != ""
  {
    if s[0] == '\'' then s[1..IndexOf(s, '\'', 1)]
    else if s[0] == '"' then Unescape(s[1..CloseDouble(s, 1)])
    else if s[0] == '\\' && |s| > 1 then [s[1]]
    else [s[0]]
  }

  /** The value of a word, from its text alone. */
  function Unquote(raw: string): string
    decreases |raw|
  {
    if raw == "" then "" else PieceValue(raw) + Unquote(raw[PieceLength(raw)..])
  }

  predicate HasQuotes(raw: string)
    decreases |raw|
  {
    raw != "" && (raw[0] == '\'' || raw[0] == '"' || HasQuotes(raw[PieceLength(raw)..]))
  }

  // ---------- What the lexer promises ----------

  /** A word cannot go on here, outside quotes. */
  predicate BreaksWord(input: string, i: nat)
    requires i <= |input|
  {
    i == |input| || IsSpace(input[i]) || OperatorAt(input, i) != "" || RedirectionAt(input, i) != ""
  }

  /** From i, whole pieces lead to end, and the word could go on before each of them. */
  predicate Unbroken(input: string, i: nat, end: nat)
    requires i <= |input|
    decreases |input| - i
  {
    i == end || (i < end && !BreaksWord(input, i) && Unbroken(input, i + PieceLength(input[i..]), end))
  }

  predicate CommentAt(input: string, i: nat) {
    i < |input| && input[i] == '#' && (i == 0 || IsSpace(input[i - 1]))
  }

  function SkipSpace(s: string): string {
    if s != "" && IsSpace(s[0]) then SkipSpace(s[1..]) else s
  }

  ghost predicate IsToken(input: string, t: Token) {
    && t.start < t.end <= |input| && t.raw == input[t.start..t.end]
    && match t.kind
       case Comment =>
         && CommentAt(input, t.start) && '\n' !in t.raw
         && (t.end == |input| || input[t.end] == '\n')
         && t.value == SkipSpace(t.raw[1..]) && !t.quoted
       case Operator =>
         t.raw == OperatorAt(input, t.start) && RedirectionAt(input, t.start) == "" && t.value == t.raw && !t.quoted
       case Redirection =>
         t.value == t.raw && !t.quoted && exists at :: RedirectionFrom(input, t, at)
       case _ =>
         && !CommentAt(input, t.start) && OperatorAt(input, t.start) == "" && RedirectionAt(input, t.start) == ""
         && Unbroken(input, t.start, t.end) && BreaksWord(input, t.end)
         && t.value == Unquote(t.raw) && t.quoted == HasQuotes(t.raw)
         && (t.kind == Assignment <==> !t.quoted && IsAssignment(t.raw))
  }

  /** A word of digits up to a position, or nothing, and the redirection found there. */
  predicate RedirectionFrom(input: string, t: Token, at: nat) {
    && t.start <= at < t.end <= |input| && RedirectionAt(input, at) == input[at..t.end]
    && (t.start < at ==> AllDigits(input[t.start..at]) && Unbroken(input, t.start, at) && input[at] != '&')
  }

  /** What may stand between tokens: white space that does not end the command. */
  predicate IsGap(c: char) {
    IsSpace(c) && c != '\n'
  }

  predicate AllGap(s: string) {
    forall k :: 0 <= k < |s| ==> IsGap(s[k])
  }

  /** The tokens lie in order and apart below position i, and between them is white space but no line feed. */
  ghost predicate Covers(tokens: seq<Token>, input: string, i: nat)
    requires i <= |input|
  {
    if tokens == [] then AllGap(input[..i])
    else
      var last := tokens[|tokens| - 1];
      && IsToken(input, last) && last.end <= i && AllGap(input[last.end..i])
      && Covers(tokens[..|tokens| - 1], input, last.start)
  }

  predicate IsDescriptor(t: Token) {
    t.kind == Word && AllDigits(t.raw)
  }

  /** No number is left standing right before a redirection it belongs to. */
  predicate DescriptorsMerged(tokens: seq<Token>) {
    forall k :: 0 < k < |tokens| && tokens[k].kind == Redirection && IsDescriptor(tokens[k - 1]) && tokens[k - 1].end == tokens[k].start
      ==> tokens[k].raw != "" && tokens[k].raw[0] == '&'
  }

  // ---------- Scanning a word ----------

  /** Text behind complete pieces adds its own value. */
  ghost predicate Complete(raw: string, value: string, quoted: bool) {
    forall y: string :: Unquote(raw + y) == value + Unquote(y) && HasQuotes(raw + y) == (quoted || HasQuotes(y))
  }

  /** A piece that does not reach the end of s is the first piece of whatever begins with it. */
  lemma PieceIsLocal(s: string, t: string)
    requires s != "" && PieceLength(s) < |s| && s[..PieceLength(s)] <= t
    ensures PieceLength(t) == PieceLength(s) && PieceValue(t) == PieceValue(s) && t[0] == s[0]
  {
    var n := PieceLength(s);
    assert forall k :: 0 <= k < n ==> s[k] == s[..n][k] && t[k] == t[..n][k];
    if s[0] == '"' {
      CloseDoubleIsLocal(s, t, 1);
      assert s[1..n - 1] == t[1..n - 1];
    } else if s[0] == '\'' {
      IndexOfIsLocal(s, t, '\'', 1);
      assert s[1..n - 1] == t[1..n - 1];
    }
  }

  lemma {:induction false} CloseDoubleIsLocal(s: string, t: string, i: nat)
    requires i <= |s| && CloseDouble(s, i) < |s| && s[..CloseDouble(s, i) + 1] <= t
    ensures CloseDouble(t, i) == CloseDouble(s, i)
    decreases |s| - i
  {
    var n := CloseDouble(s, i) + 1;
    assert forall k :: 0 <= k < n ==> s[k] == s[..n][k] && t[k] == t[..n][k];
    if s[i] != '"' {
      CloseDoubleIsLocal(s, t, if s[i] == '\\' && i + 1 < |s| then i + 2 else i + 1);
    }
  }

  lemma {:induction false} IndexOfIsLocal(s: string, t: string, c: char, i: nat)
    requires i <= |s| && IndexOf(s, c, i) < |s| && s[..IndexOf(s, c, i) + 1] <= t
    ensures IndexOf(t, c, i) == IndexOf(s, c, i)
    decreases |s| - i
  {
    var n := IndexOf(s, c, i) + 1;
    assert forall k :: 0 <= k < n ==> s[k] == s[..n][k] && t[k] == t[..n][k];
    if s[i] != c {
      IndexOfIsLocal(s, t, c, i + 1);
    }
  }

  lemma UnescapeStep(s: string, k: nat)
    requires k < |s| && s[k] != '"'
    ensures var c := CloseDouble(s, k); var n := if s[k] == '\\' && k + 1 < |s| then 2 else 1;
            && k + n <= c && CloseDouble(s, k + n) == c
            && Unescape(s[k..c]) == [s[k + n - 1]] + Unescape(s[k + n..c])
  {
    var c := CloseDouble(s, k);
    if s[k] == '\\' && k + 1 < |s| {
      assert s[k..c][2..] == s[k + 2..c];
    } else {
      assert s[k..c][1..] == s[k + 1..c];
    }
  }

  /** A run in double quotes at the start of s. */
  method ReadDouble(s: string) returns (rawInner: string, inner: string, next: nat)
    requires s != "" && s[0] == '"'
    ensures rawInner == s[..PieceLength(s)] && inner == PieceValue(s)
    ensures next == CloseDouble(s, 1) + 1
  {
    hide Unescape, CloseDouble;
    var j := 1;
    inner := "";
    rawInner := "\"";
    while j < |s| && s[j] != '"'
      invariant 1 <= j <= |s| && CloseDouble(s, j) == CloseDouble(s, 1)
      invariant rawInner == s[..j]
      invariant inner + Unescape(s[j..CloseDouble(s, 1)]) == Unescape(s[1..CloseDouble(s, 1)])
    {
      UnescapeStep(s, j);
      if s[j] == '\\' && j + 1 < |s| {
        rawInner := rawInner + [s[j]] + [s[j + 1]];
        inner := inner + [s[j + 1]];
        j := j + 2;
      } else {
        rawInner := rawInner + [s[j]];
        inner := inner + [s[j]];
        j := j + 1;
      }
    }
    DoubleEnds(s, j);
    if j < |s| {
      rawInner := rawInner + "\"";
    }
    next := j + 1;
  }

  lemma DoubleEnds(s: string, j: nat)
    requires j <= |s| && (j == |s| || s[j] == '"')
    ensures CloseDouble(s, j) == j && Unescape(s[j..j]) == ""
  {
  }

  /** One piece of a word. */
  method ReadPiece(s: string) returns (raw: string, value: string, quoted: bool, next: nat)
    requires s != ""
    ensures raw == s[..PieceLength(s)] && value == PieceValue(s)
    ensures quoted == (s[0] == '\'' || s[0] == '"')
    ensures next == PieceLength(s) || (next == |s| + 1 && PieceLength(s) == |s|)
  {
    if s[0] == '\'' {
      var close := IndexOf(s, '\'', 1);
      raw := s[..if close == |s| then |s| else close + 1];
      value := s[1..close];
      quoted := true;
      next := if close == |s| then |s| else close + 1;
    } else if s[0] == '"' {
      raw, value, next := ReadDouble(s);
      quoted := true;
    } else if s[0] == '\\' && |s| > 1 {
      raw, value, quoted, next := s[..2], [s[1]], false, 2;
    } else {
      raw, value, quoted, next := [s[0]], [s[0]], false, 1;
    }
  }

  /** A piece that reaches the end of the input ends the word; any other leaves it complete. */
  lemma AddPiece(raw: string, value: string, quoted: bool, s: string)
    requires Complete(raw, value, quoted) && s != ""
    ensures var n := PieceLength(s); var q := quoted || s[0] == '\'' || s[0] == '"';
            && Unquote(raw + s[..n]) == value + PieceValue(s) && HasQuotes(raw + s[..n]) == q
            && (n < |s| ==> Complete(raw + s[..n], value + PieceValue(s), q))
  {
    var n := PieceLength(s);
    var q := quoted || s[0] == '\'' || s[0] == '"';
    if n < |s| {
      forall y: string
        ensures Unquote((raw + s[..n]) + y) == (value + PieceValue(s)) + Unquote(y)
        ensures HasQuotes((raw + s[..n]) + y) == (q || HasQuotes(y))
      {
        PieceThen(raw, value, quoted, s, y);
      }
      PieceThen(raw, value, quoted, s, "");
      assert (raw + s[..n]) + "" == raw + s[..n];
    } else {
      assert s[..n] == s;
      assert Unquote(raw + s) == value + Unquote(s);
      assert HasQuotes(raw + s) == (quoted || HasQuotes(s));
      assert s[n..] == "" && Unquote(s) == PieceValue(s) + "" && !HasQuotes("");
    }
  }

  lemma PieceThen(raw: string, value: string, quoted: bool, s: string, y: string)
    requires Complete(raw, value, quoted) && s != "" && PieceLength(s) < |s|
    ensures var n := PieceLength(s);
            && Unquote((raw + s[..n]) + y) == (value + PieceValue(s)) + Unquote(y)
            && HasQuotes((raw + s[..n]) + y) == (quoted || s[0] == '\'' || s[0] == '"' || HasQuotes(y))
  {
    hide PieceLength, PieceValue;
    var n := PieceLength(s);
    var t := s[..n] + y;
    assert (raw + s[..n]) + y == raw + t;
    PieceIsLocal(s, t);
    assert t[n..] == y;
    assert Unquote(raw + t) == value + Unquote(t);
    assert Unquote(t) == PieceValue(t) + Unquote(y);
  }

  /** The word at position start, where no operator and no redirection begins. */
  method ReadWord(input: string, start: nat) returns (raw: string, value: string, quoted: bool, i: nat)
    requires start < |input| && OperatorAt(input, start) == "" && RedirectionAt(input, start) == ""
    ensures start <= i <= |input| && raw == input[start..i] && Unbroken(input, start, i) && BreaksWord(input, i)
    ensures value == Unquote(raw) && quoted == HasQuotes(raw)
    ensures raw == "" ==> i == start
  {
    hide PieceLength, PieceValue, Unquote, HasQuotes, OperatorAt, RedirectionAt, Complete, Unbroken, BreaksWord;
    i, raw, value, quoted := start, "", "", false;
    NothingYet();
    UnbrokenNowhere(input, start);
    while i < |input| && !BreaksWord(input, i)
      invariant start <= i <= |input| && raw == input[start..i] && Unbroken(input, start, i)
      invariant i < |input| ==> Complete(raw, value, quoted)
      invariant value == Unquote(raw) && quoted == HasQuotes(raw)
    {
      var s := input[i..];
      AddPiece(raw, value, quoted, s);
      UnbrokenOn(input, start, i);
      var pieceRaw, pieceValue, pieceQuoted, next := ReadPiece(s);
      SliceOn(input, start, i, |pieceRaw|);
      raw := raw + pieceRaw;
      value := value + pieceValue;
      quoted := quoted || pieceQuoted;
      // An unclosed double quote puts the source's i one past the end, where both loops stop as well.
      i := if i + next > |input| then |input| else i + next;
    }
    EndBreaks(input);
  }

  lemma EndBreaks(input: string)
    ensures BreaksWord(input, |input|)
  {
  }

  lemma SliceOn(input: string, start: nat, i: nat, n: nat)
    requires start <= i <= i + n <= |input|
    ensures input[start..i] + input[i..][..n] == input[start..i + n]
  {
  }

  lemma UnbrokenNowhere(input: string, i: nat)
    requires i <= |input|
    ensures Unbroken(input, i, i)
  {
  }

  lemma {:induction false} UnbrokenOn(input: string, i: nat, end: nat)
    requires i <= end < |input| && Unbroken(input, i, end) && !BreaksWord(input, end)
    ensures Unbroken(input, i, end + PieceLength(input[end..]))
    decreases |input| - i
  {
    hide BreaksWord, PieceLength;
    if i < end {
      UnbrokenOn(input, i + PieceLength(input[i..]), end);
    } else {
      UnbrokenNowhere(input, end + PieceLength(input[end..]));
    }
  }

  lemma NothingYet()
    ensures Complete("", "", false) && Unquote("") == "" && !HasQuotes("")
  {
    assert forall y: string :: "" + y == y;
  }

  // ---------- tokenize ----------

  lemma SkipOne(tokens: seq<Token>, input: string, i: nat)
    requires i < |input| && Covers(tokens, input, i) && IsGap(input[i])
    ensures Covers(tokens, input, i + 1)
  {
    hide IsToken;
    assert tokens == [] ==> forall k :: 0 <= k < i ==> input[..i][k] == input[k];
    if tokens != [] {
      var e := tokens[|tokens| - 1].end;
      assert forall k :: e <= k < i ==> input[k] == input[e..i][k - e];
    }
  }

  lemma PushToken(tokens: seq<Token>, input: string, t: Token)
    requires t.start <= |input| && Covers(tokens, input, t.start) && IsToken(input, t)
    ensures Covers(tokens + [t], input, t.end)
  {
    hide IsToken;
    assert (tokens + [t])[..|tokens|] == tokens;
    TokenBounds(input, t);
  }

  lemma TokenBounds(input: string, t: Token)
    requires IsToken(input, t)
    ensures t.start < t.end <= |input| && t.raw == input[t.start..t.end] && t.raw != ""
  {
  }

  /** Pushing a token keeps descriptors merged unless it is a redirection with a number right before it. */
  lemma PushMerged(tokens: seq<Token>, t: Token)
    requires DescriptorsMerged(tokens) && t.raw != ""
    requires t.kind == Redirection && tokens != [] && IsDescriptor(tokens[|tokens| - 1]) && tokens[|tokens| - 1].end == t.start
             ==> t.raw[0] == '&'
    ensures DescriptorsMerged(tokens + [t])
  {
    hide IsDescriptor;
  }

  /** The token a redirection found at i becomes, and the tokens it leaves before it. */
  method TakeRedirection(tokens: seq<Token>, input: string, i: nat, redirection: string) returns (rest: seq<Token>, t: Token)
    requires i < |input| && redirection == RedirectionAt(input, i) != ""
    requires Covers(tokens, input, i) && DescriptorsMerged(tokens)
    ensures t.end == i + |redirection| && IsToken(input, t) && t.start <= |input| && Covers(rest, input, t.start)
    ensures DescriptorsMerged(rest + [t])
  {
    hide RedirectionAt, OperatorAt, Covers, DescriptorsMerged, IsToken, Unquote, HasQuotes;
    t := Token(Redirection, redirection, redirection, false, i, i + |redirection|);
    rest := tokens;
    PlainRedirection(input, t);
    if i > 0 && IsDigit(input[i - 1]) && redirection[0] != '&' && |tokens| > 0 {
      var prev := tokens[|tokens| - 1];
      if IsDescriptor(prev) && prev.end == i {
        rest := tokens[..|tokens| - 1];
        t := Token(Redirection, prev.raw + redirection, prev.raw + redirection, false, prev.start, i + |redirection|);
        PopToken(tokens, input, i);
        MergedRedirection(input, prev, redirection);
        MergeKeeps(tokens, input, i, t);
        return;
      }
    }
    TokenBounds(input, t);
    if |tokens| > 0 && IsDescriptor(tokens[|tokens| - 1]) && tokens[|tokens| - 1].end == i {
      LastIsDigit(tokens, input, i);
    }
    PushMerged(tokens, t);
  }

  lemma LastIsDigit(tokens: seq<Token>, input: string, i: nat)
    requires i <= |input| && Covers(tokens, input, i) && tokens != []
    requires IsDescriptor(tokens[|tokens| - 1]) && tokens[|tokens| - 1].end == i
    ensures i > 0 && IsDigit(input[i - 1])
  {
    hide RedirectionAt, OperatorAt, Unquote, HasQuotes;
    var t := tokens[|tokens| - 1];
    assert t.raw[|t.raw| - 1] == input[i - 1];
  }

  lemma PlainRedirection(input: string, t: Token)
    requires t.start < t.end <= |input| && t.raw == t.value == RedirectionAt(input, t.start) && |t.raw| == t.end - t.start
    requires t.kind == Redirection && !t.quoted
    ensures IsToken(input, t)
  {
    hide RedirectionAt, OperatorAt, Unquote, HasQuotes;
    assert RedirectionFrom(input, t, t.start);
  }

  lemma MergedRedirection(input: string, prev: Token, redirection: string)
    requires prev.end <= |input| && IsToken(input, prev) && IsDescriptor(prev)
    requires redirection == RedirectionAt(input, prev.end) && redirection != "" && redirection[0] != '&'
    ensures IsToken(input, Token(Redirection, prev.raw + redirection, prev.raw + redirection, false, prev.start, prev.end + |redirection|))
  {
    hide RedirectionAt, OperatorAt, Unquote, HasQuotes, BreaksWord;
    var e := prev.end + |redirection|;
    var t := Token(Redirection, prev.raw + redirection, prev.raw + redirection, false, prev.start, e);
    assert input[prev.start..e] == input[prev.start..prev.end] + input[prev.end..e];
    assert input[prev.end] == redirection[0];
    assert RedirectionFrom(input, t, prev.end);
  }

  lemma PopToken(tokens: seq<Token>, input: string, i: nat)
    requires i <= |input| && Covers(tokens, input, i) && tokens != []
    ensures var last := tokens[|tokens| - 1];
            IsToken(input, last) && last.start <= |input| && Covers(tokens[..|tokens| - 1], input, last.start)
  {
  }

  /** Before a word there is no other word without a gap, so the merged redirection has no number before it. */
  lemma MergeKeeps(tokens: seq<Token>, input: string, i: nat, t: Token)
    requires i <= |input| && Covers(tokens, input, i) && DescriptorsMerged(tokens) && tokens != []
    requires IsDescriptor(tokens[|tokens| - 1]) && t.start == tokens[|tokens| - 1].start && t.raw != ""
    ensures DescriptorsMerged(tokens[..|tokens| - 1] + [t])
  {
    hide RedirectionAt, OperatorAt, Unquote, HasQuotes, MatchPrefix;
    var rest, prev := tokens[..|tokens| - 1], tokens[|tokens| - 1];
    assert DescriptorsMerged(rest);
    if rest != [] && IsDescriptor(rest[|rest| - 1]) && rest[|rest| - 1].end == t.start {
      WordsApart(tokens, input, i);
    }
    PushMerged(rest, t);
  }

  lemma WordsApart(tokens: seq<Token>, input: string, i: nat)
    requires i <= |input| && Covers(tokens, input, i) && |tokens| > 1
    requires IsDescriptor(tokens[|tokens| - 1]) && IsDescriptor(tokens[|tokens| - 2])
    ensures tokens[|tokens| - 2].end != tokens[|tokens| - 1].start
  {
    hide RedirectionAt, OperatorAt, Unquote, HasQuotes;
    var rest, prev := tokens[..|tokens| - 1], tokens[|tokens| - 1];
    assert rest[|rest| - 1] == tokens[|tokens| - 2];
    assert input[prev.start] == prev.raw[0] && IsDigit(prev.raw[0]);
    DigitIsDark(prev.raw[0]);
  }

  lemma DigitIsDark(c: char)
    requires IsDigit(c)
    ensures !IsSpace(c)
  {
  }

  /** The comment at i. */
  method TakeComment(input: string, i: nat) returns (t: Token)
    requires CommentAt(input, i)
    ensures t.start == i < t.end && t.kind == Comment && IsToken(input, t)
  {
    hide RedirectionAt, OperatorAt, Unquote, HasQuotes;
    var stop := IndexOf(input, '\n', i);
    var raw := input[i..stop];
    t := Token(Comment, raw, SkipSpace(raw[1..]), false, i, i + |raw|);
  }

  /** tokenize */
  method Tokenize(input: string) returns (tokens: seq<Token>)
    ensures Covers(tokens, input, |input|) && DescriptorsMerged(tokens)
  {
    hide RedirectionAt, OperatorAt, Covers, DescriptorsMerged, IsToken, Unquote, HasQuotes, BreaksWord, IsAssignment;
    tokens := [];
    var i := 0;
    NoTokens(input);
    while i < |input|
      invariant i <= |input| && Covers(tokens, input, i) && DescriptorsMerged(tokens)
    {
      var ch := input[i];
      if ch == ' ' || ch == '\t' || ch == '\r' {
        SkipOne(tokens, input, i);
        i := i + 1;
        continue;
      }
      if CommentAt(input, i) {
        var t := TakeComment(input, i);
        Push(tokens, input, t);
        tokens := tokens + [t];
        i := t.end;
        continue;
      }
      var redirection := RedirectionAt(input, i);
      if redirection != "" {
        var t: Token;
        tokens, t := TakeRedirection(tokens, input, i, redirection);
        PushToken(tokens, input, t);
        tokens := tokens + [t];
        i := i + |redirection|;
        continue;
      }
      var operator := OperatorAt(input, i);
      if operator != "" {
        var t := Token(Operator, operator, operator, false, i, i + |operator|);
        OperatorIsToken(input, t);
        Push(tokens, input, t);
        tokens := tokens + [t];
        i := i + |operator|;
        continue;
      }
      var raw, value, quoted, next := ReadWord(input, i);
      if raw == "" {
        BrokenAtSpace(input, i);
        SkipOne(tokens, input, i);
        i := i + 1;
        continue;
      }
      var kind := if !quoted && IsAssignment(raw) then Assignment else Word;
      var t := Token(kind, raw, value, quoted, i, i + |raw|);
      WordIsToken(input, t);
      Push(tokens, input, t);
      tokens := tokens + [t];
      i := next;
    }
  }

  lemma NoTokens(input: string)
    ensures Covers([], input, 0) && DescriptorsMerged([])
  {
  }

  lemma Push(tokens: seq<Token>, input: string, t: Token)
    requires t.start <= |input| && Covers(tokens, input, t.start) && IsToken(input, t)
    requires DescriptorsMerged(tokens) && t.kind != Redirection
    ensures t.end <= |input| && Covers(tokens + [t], input, t.end) && DescriptorsMerged(tokens + [t])
  {
    hide Covers, IsToken, DescriptorsMerged;
    TokenBounds(input, t);
    PushToken(tokens, input, t);
    PushMerged(tokens, t);
  }

  lemma OperatorIsToken(input: string, t: Token)
    requires t.start < |input| && t.raw == t.value == OperatorAt(input, t.start) != "" && RedirectionAt(input, t.start) == ""
    requires t.kind == Operator && !t.quoted && t.end == t.start + |t.raw|
    ensures IsToken(input, t)
  {
    hide RedirectionAt, OperatorAt, Unquote, HasQuotes;
  }

  lemma WordIsToken(input: string, t: Token)
    requires t.start < t.end <= |input| && t.raw == input[t.start..t.end] && !CommentAt(input, t.start)
    requires OperatorAt(input, t.start) == "" && RedirectionAt(input, t.start) == ""
    requires Unbroken(input, t.start, t.end) && BreaksWord(input, t.end)
    requires t.value == Unquote(t.raw) && t.quoted == HasQuotes(t.raw)
    requires t.kind == if !t.quoted && IsAssignment(t.raw) then Assignment else Word
    ensures IsToken(input, t)
  {
    hide RedirectionAt, OperatorAt, Unquote, HasQuotes, IsAssignment, BreaksWord;
  }

  lemma {:induction false} MatchFinds(input: string, at: nat, candidates: seq<string>, k: nat)
    requires at <= |input| && k < |candidates| && candidates[k] <= input[at..]
    requires forall j :: 0 <= j <= k ==> candidates[j] != ""
    ensures MatchPrefix(input, at, candidates) != ""
    decreases k
  {
    if k > 0 {
      MatchFinds(input, at, candidates[1..], k - 1);
    }
  }

  /** Where a word is broken and nothing else begins there is white space; a line feed would begin an operator. */
  lemma BrokenAtSpace(input: string, i: nat)
    requires i < |input| && BreaksWord(input, i) && OperatorAt(input, i) == "" && RedirectionAt(input, i) == ""
    ensures IsGap(input[i])
  {
    hide MatchPrefix, IsSpace;
    if input[i] == '\n' {
      assert "\n" <= input[i..];
      MatchFinds(input, i, OPERATORS, 7);
    }
  }

  // ---------- What covering means ----------

  /** The tokens are in order and do not overlap, and each is a token of the input. */
  lemma {:induction false} InOrder(tokens: seq<Token>, input: string, i: nat, j: nat, k: nat)
    requires i <= |input| && Covers(tokens, input, i) && j <= k < |tokens|
    ensures IsToken(input, tokens[j]) && IsToken(input, tokens[k]) && tokens[k].end <= i
    ensures j < k ==> tokens[j].end <= tokens[k].start
    decreases |tokens|
  {
    hide IsToken;
    var n := |tokens| - 1;
    var rest, last := tokens[..n], tokens[n];
    TokenBounds(input, last);
    if k < n {
      InOrder(rest, input, last.start, j, k);
    } else if j < n {
      InOrder(rest, input, last.start, j, j);
    }
  }

  /** A character is inside a token, or it is white space other than a line feed. */
  lemma {:induction false} SkippedIsSpace(tokens: seq<Token>, input: string, i: nat, p: nat)
    requires p < i <= |input| && Covers(tokens, input, i)
    ensures IsGap(input[p]) || exists k :: 0 <= k < |tokens| && tokens[k].start <= p < tokens[k].end
    decreases |tokens|
  {
    hide IsToken;
    if tokens == [] {
      assert input[..i][p] == input[p];
    } else {
      var n := |tokens| - 1;
      var last := tokens[n];
      TokenBounds(input, last);
      if p >= last.end {
        assert input[last.end..i][p - last.end] == input[p];
      } else if p < last.start {
        SkippedIsSpace(tokens[..n], input, last.start, p);
        assert IsGap(input[p]) || exists k :: 0 <= k < n && tokens[..n][k].start <= p < tokens[..n][k].end;
        assert forall k :: 0 <= k < n ==> tokens[..n][k] == tokens[k];
      }
    }
  }

  // ---------- There is only one such token list ----------

  lemma {:induction false} UnbrokenUnique(input: string, i: nat, e: nat, f: nat)
    requires i <= |input| && e <= |input| && f <= |input|
    requires Unbroken(input, i, e) && BreaksWord(input, e) && Unbroken(input, i, f) && BreaksWord(input, f)
    ensures e == f
    decreases |input| - i
  {
    hide BreaksWord;
    if i != e && i != f {
      UnbrokenUnique(input, i + PieceLength(input[i..]), e, f);
    }
  }

  /** A redirection begins where one is found, or as a word that ends where one is found. */
  lemma RedirectionPlace(input: string, t: Token, at: nat)
    requires RedirectionFrom(input, t, at)
    ensures if RedirectionAt(input, t.start) != "" then at == t.start
            else t.start < at && Unbroken(input, t.start, at) && BreaksWord(input, at) && OperatorAt(input, t.start) == ""
    ensures input[t.start] != '#' && !IsGap(input[t.start])
  {
    hide RedirectionAt, OperatorAt;
    if t.start < at {
      assert input[t.start..at][0] == input[t.start];
      DigitIsDark(input[t.start]);
    } else {
      RedirectionBegins(input, at);
    }
  }

  lemma RedirectionBegins(input: string, at: nat)
    requires at <= |input| && RedirectionAt(input, at) != ""
    ensures at < |input| && input[at] in "&><2" && input[at] != '#' && !IsSpace(input[at])
  {
    var r := RedirectionAt(input, at);
    assert r[0] == input[at..at + |r|][0];
  }

  lemma OperatorBegins(input: string, at: nat)
    requires at <= |input| && OperatorAt(input, at) != ""
    ensures at < |input| && input[at] != '#' && !IsGap(input[at])
  {
    var r := OperatorAt(input, at);
    assert r[0] == input[at..at + |r|][0];
  }

  /** No token begins with a gap, and only a comment where a comment begins. */
  lemma TokenBegins(input: string, t: Token)
    requires IsToken(input, t)
    ensures t.start < t.end <= |input| && !IsGap(input[t.start])
    ensures t.kind == Comment <==> CommentAt(input, t.start)
  {
    hide RedirectionAt, OperatorAt, Unquote, HasQuotes, IsAssignment;
    match t.kind {
      case Comment =>
        HashIsDark();
      case Operator =>
        OperatorBegins(input, t.start);
      case Redirection =>
        var at := RedirectionIs(input, t);
        RedirectionPlace(input, t, at);
      case _ =>
    }
  }

  lemma HashIsDark()
    ensures !IsSpace('#')
  {
  }

  /** Two tokens that begin at one place are the same, unless one is a word and the other a redirection that took it in. */
  lemma SameToken(input: string, t: Token, u: Token)
    requires IsToken(input, t) && IsToken(input, u) && t.start == u.start
    requires (t.kind == Redirection <==> u.kind == Redirection)
    ensures t == u
  {
    hide RedirectionAt, OperatorAt, Unquote, HasQuotes, IsAssignment, BreaksWord, SkipSpace, IsSpace;
    TokenBegins(input, t);
    TokenBegins(input, u);
    if t.kind == Comment {
      SameLine(input, t.start, t.end, u.end);
      assert t.raw == u.raw;
    } else if t.kind == Redirection {
      var at := RedirectionIs(input, t);
      var bt := RedirectionIs(input, u);
      RedirectionPlace(input, t, at);
      RedirectionPlace(input, u, bt);
      if RedirectionAt(input, t.start) == "" {
        UnbrokenUnique(input, t.start, at, bt);
      }
      assert |RedirectionAt(input, at)| == t.end - at == u.end - at;
    } else if t.kind != Operator && u.kind != Operator {
      UnbrokenUnique(input, t.start, t.end, u.end);
    } else {
      SameOperator(input, t, u);
    }
  }

  lemma SameOperator(input: string, t: Token, u: Token)
    requires IsToken(input, t) && IsToken(input, u) && t.start == u.start
    requires t.kind == Operator || u.kind == Operator
    requires t.kind != Redirection && t.kind != Comment && u.kind != Redirection && u.kind != Comment
    ensures t == u
  {
    hide RedirectionAt, OperatorAt, Unquote, HasQuotes, IsAssignment, Unbroken, BreaksWord;
    assert |t.raw| == t.end - t.start && |u.raw| == u.end - u.start;
  }

  lemma SameLine(input: string, q: nat, e: nat, f: nat)
    requires q < e <= |input| && q < f <= |input| && '\n' !in input[q..e] && '\n' !in input[q..f]
    requires (e == |input| || input[e] == '\n') && (f == |input| || input[f] == '\n')
    ensures e == f
  {
    forall k | q <= k < e
      ensures input[k] != '\n'
    {
      assert input[q..e][k - q] == input[k];
    }
    forall k | q <= k < f
      ensures input[k] != '\n'
    {
      assert input[q..f][k - q] == input[k];
    }
  }

  /** Where the k-th token may begin. */
  function Rest(tokens: seq<Token>, k: nat): nat
    requires k <= |tokens|
  {
    if k == 0 then 0 else tokens[k - 1].end
  }

  /** Each token is one, with a gap before it; and a gap ends the input. */
  lemma {:induction false} CoversAt(tokens: seq<Token>, input: string, i: nat, k: nat)
    requires i <= |input| && Covers(tokens, input, i) && k <= |tokens|
    ensures k < |tokens| ==> IsToken(input, tokens[k]) && Rest(tokens, k) <= tokens[k].start && AllGap(input[Rest(tokens, k)..tokens[k].start])
    ensures k == |tokens| ==> Rest(tokens, k) <= i && AllGap(input[Rest(tokens, k)..i])
    decreases |tokens|
  {
    hide IsToken, AllGap;
    if k < |tokens| {
      var n := |tokens| - 1;
      TokenBounds(input, tokens[n]);
      CoversAt(tokens[..n], input, tokens[n].start, k);
    }
  }

  /** No list passes over the place where a token begins. */
  lemma NextStarts(tokens: seq<Token>, input: string, k: nat, t: Token)
    requires Covers(tokens, input, |input|) && k <= |tokens| && IsToken(input, t) && Rest(tokens, k) <= t.start
    ensures k < |tokens| && tokens[k].start <= t.start
  {
    hide IsToken, IsGap, Covers, AllGap;
    CoversAt(tokens, input, |input|, k);
    TokenBegins(input, t);
    if k < |tokens| {
      TokenBegins(input, tokens[k]);
    }
    var e := if k < |tokens| then tokens[k].start else |input|;
    if t.start < e {
      GapAt(input, Rest(tokens, k), e, t.start);
    }
  }

  lemma GapAt(input: string, from: nat, to: nat, p: nat)
    requires from <= p < to <= |input| && AllGap(input[from..to])
    ensures IsGap(input[p])
  {
    assert input[from..to][p - from] == input[p];
  }

  lemma RedirectionIs(input: string, t: Token) returns (at: nat)
    requires IsToken(input, t) && t.kind == Redirection
    ensures RedirectionFrom(input, t, at)
  {
    hide RedirectionFrom;
    at :| RedirectionFrom(input, t, at);
  }

  /** A word and a redirection from the same place: the word is the number the redirection takes in. */
  lemma WordAndRedirection(input: string, w: Token, t: Token) returns (at: nat)
    requires IsToken(input, w) && IsToken(input, t) && w.start == t.start && t.kind == Redirection != w.kind
    ensures w.end == at < |input| && RedirectionAt(input, at) != "" && input[at] != '&'
    ensures IsDescriptor(w)
  {
    hide RedirectionAt, OperatorAt, Unquote, HasQuotes, BreaksWord, IsGap;
    TokenBegins(input, w);
    TokenBegins(input, t);
    at := RedirectionIs(input, t);
    RedirectionPlace(input, t, at);
    assert RedirectionAt(input, w.start) == "" && w.kind != Operator && w.kind != Comment;
    UnbrokenUnique(input, w.start, w.end, at);
    DigitsAreWord(w.raw);
  }

  lemma DigitsAreWord(raw: string)
    requires AllDigits(raw)
    ensures !IsAssignment(raw)
  {
    assert IsDigit(raw[0]);
  }

  /** A number is not left standing before a redirection that takes it in. */
  lemma NotLeft(tokens: seq<Token>, input: string, k: nat, t: Token)
    requires Covers(tokens, input, |input|) && DescriptorsMerged(tokens) && k < |tokens|
    requires IsToken(input, t) && t.kind == Redirection && t.start == tokens[k].start
    ensures tokens[k].kind == Redirection
  {
    hide RedirectionAt, IsToken, Covers, DescriptorsMerged, IsDescriptor, RedirectionFrom;
    CoversAt(tokens, input, |input|, k);
    if tokens[k].kind != Redirection {
      var at := WordAndRedirection(input, tokens[k], t);
      RedirectionAtWord(tokens, input, k, at);
      WordBefore(tokens, k);
      TokenText(input, tokens[k + 1]);
    }
  }

  lemma TokenText(input: string, t: Token)
    requires IsToken(input, t)
    ensures t.start < t.end <= |input| && t.raw != "" && t.raw[0] == input[t.start]
  {
  }

  lemma WordBefore(tokens: seq<Token>, k: nat)
    requires k + 1 < |tokens| && DescriptorsMerged(tokens) && tokens[k + 1].kind == Redirection
    requires IsDescriptor(tokens[k]) && tokens[k].end == tokens[k + 1].start
    ensures tokens[k + 1].raw != "" && tokens[k + 1].raw[0] == '&'
  {
  }

  /** Behind a word that ends where a redirection is found comes that redirection. */
  lemma RedirectionAtWord(tokens: seq<Token>, input: string, k: nat, at: nat)
    requires Covers(tokens, input, |input|) && k < |tokens| && tokens[k].end == at < |input| && RedirectionAt(input, at) != ""
    ensures k + 1 < |tokens| && IsToken(input, tokens[k + 1]) && tokens[k + 1].start == at && tokens[k + 1].kind == Redirection
  {
    hide RedirectionAt, OperatorAt, Unquote, HasQuotes, IsAssignment, BreaksWord, IsSpace;
    RedirectionBegins(input, at);
    PlainRedirection(input, Token(Redirection, RedirectionAt(input, at), RedirectionAt(input, at), false, at, at + |RedirectionAt(input, at)|));
    NextStarts(tokens, input, k + 1, Token(Redirection, RedirectionAt(input, at), RedirectionAt(input, at), false, at, at + |RedirectionAt(input, at)|));
    CoversAt(tokens, input, |input|, k + 1);
    TokenBegins(input, tokens[k + 1]);
  }

  lemma {:induction false} SameFrom(s: seq<Token>, t: seq<Token>, input: string, k: nat)
    requires Covers(s, input, |input|) && DescriptorsMerged(s) && Covers(t, input, |input|) && DescriptorsMerged(t)
    requires k <= |s| && k <= |t| && s[..k] == t[..k]
    ensures s == t
    decreases |s| - k
  {
    hide Covers, DescriptorsMerged, IsToken, IsGap;
    CoversAt(s, input, |input|, k);
    CoversAt(t, input, |input|, k);
    assert k > 0 ==> s[..k][k - 1] == s[k - 1] && t[..k][k - 1] == t[k - 1];
    assert Rest(s, k) == Rest(t, k);
    if k < |s| {
      NextStarts(t, input, k, s[k]);
      NextStarts(s, input, k, t[k]);
      if s[k].kind == Redirection {
        NotLeft(t, input, k, s[k]);
      } else if t[k].kind == Redirection {
        NotLeft(s, input, k, t[k]);
      }
      SameToken(input, s[k], t[k]);
      assert s[..k + 1] == s[..k] + [s[k]] && t[..k + 1] == t[..k] + [t[k]];
      SameFrom(s, t, input, k + 1);
    } else {
      if k < |t| {
        NextStarts(s, input, k, t[k]);
      }
      assert s == s[..k] && t == t[..k];
    }
  }

  /** What tokenize promises leaves no choice: every input has just one such token list. */
  lemma OneTokenList(s: seq<Token>, t: seq<Token>, input: string)
    requires Covers(s, input, |input|) && DescriptorsMerged(s)
    requires Covers(t, input, |input|) && DescriptorsMerged(t)
    ensures s == t
  {
    SameFrom(s, t, input, 0);
  }

  // ---------- What quoting means ----------

  /** A text as it is written inside double quotes. */
  function Guarded(text: string): string {
    if text == "" then ""
    else (if text[0] == '"' || text[0] == '\\' then ['\\', text[0]] else [text[0]]) + Guarded(text[1..])
  }

  lemma {:induction false} UnescapeGuarded(text: string)
    ensures Unescape(Guarded(text)) == text
  {
    if text != "" {
      UnescapeGuarded(text[1..]);
      var g := Guarded(text);
      if text[0] == '"' || text[0] == '\\' {
        assert g[2..] == Guarded(text[1..]);
      } else {
        assert g[1..] == Guarded(text[1..]);
      }
      assert text == [text[0]] + text[1..];
    }
  }

  lemma {:induction false} CloseGuarded(before: string, text: string, rest: string)
    ensures CloseDouble(before + Guarded(text) + "\"" + rest, |before|) == |before| + |Guarded(text)|
    decreases |text|
  {
    var all := before + Guarded(text) + "\"" + rest;
    if text != "" {
      var head := if text[0] == '"' || text[0] == '\\' then ['\\', text[0]] else [text[0]];
      assert all == (before + head) + Guarded(text[1..]) + "\"" + rest;
      CloseGuarded(before + head, text[1..], rest);
    }
  }

  /** Single quotes keep everything up to the next one. */
  lemma ReadsSingle(text: string, rest: string)
    requires '\'' !in text
    ensures Unquote("'" + text + "'" + rest) == text + Unquote(rest)
  {
    hide Unescape, CloseDouble;
    var all := "'" + text + "'" + rest;
    assert all[0] == '\'' && all[|text| + 1] == '\'' && all[1..|text| + 1] == text;
    assert forall k :: 1 <= k < |text| + 1 ==> all[k] == text[k - 1];
    assert all[|text| + 2..] == rest;
  }

  /** Double quotes keep everything, a quote and a backslash when a backslash stands before them. */
  lemma ReadsDouble(text: string, rest: string)
    ensures PieceLength("\"" + Guarded(text) + "\"" + rest) == |Guarded(text)| + 2
    ensures Unquote("\"" + Guarded(text) + "\"" + rest) == text + Unquote(rest)
  {
    hide Unescape, CloseDouble, Guarded;
    var all := "\"" + Guarded(text) + "\"" + rest;
    CloseGuarded("\"", text, rest);
    UnescapeGuarded(text);
    assert all[1..|Guarded(text)| + 1] == Guarded(text);
    assert all[|Guarded(text)| + 2..] == rest;
  }

  /** Outside quotes a backslash keeps the next character, and any other character stands for itself. */
  lemma ReadsPlain(c: char, rest: string)
    ensures Unquote("\\" + [c] + rest) == [c] + Unquote(rest)
    ensures c != '\'' && c != '"' && c != '\\' ==> Unquote([c] + rest) == [c] + Unquote(rest)
  {
    var all := "\\" + [c] + rest;
    assert all[1] == c && all[2..] == rest;
    assert ([c] + rest)[1..] == rest;
  }

  /** Quoting is undone: any text, written in double quotes, is one word with that text as its value. */
  lemma QuotedIsOneWord(text: string)
    ensures var q := "\"" + Guarded(text) + "\"";
            Covers([Token(Word, q, text, true, 0, |q|)], q, |q|) && DescriptorsMerged([Token(Word, q, text, true, 0, |q|)])
  {
    hide RedirectionAt, OperatorAt, Guarded, IsAssignment, Unquote, IsSpace;
    var q := "\"" + Guarded(text) + "\"";
    var t := Token(Word, q, text, true, 0, |q|);
    assert q + "" == q && q[0..] == q && q[0..|q|] == q && q[|q|..|q|] == "" && text + "" == text;
    ReadsDouble(text, "");
    assert Unquote("") == "" by { NothingUnquoted(); }
    QuoteBeginsWord(q);
    assert HasQuotes(q);
    assert PieceLength(q[0..]) == |q|;
    assert Unbroken(q, |q|, |q|);
    assert Unbroken(q, 0, |q|);
    assert !CommentAt(q, 0);
    assert BreaksWord(q, |q|);
    assert IsToken(q, t);
    assert [t][..0] == [];
  }

  lemma NothingUnquoted()
    ensures Unquote("") == ""
  {
  }

  lemma QuoteBeginsWord(q: string)
    requires q != "" && q[0] == '"'
    ensures !BreaksWord(q, 0) && OperatorAt(q, 0) == "" && RedirectionAt(q, 0) == ""
  {
    OperatorStarts(q, 0);
    if RedirectionAt(q, 0) != "" {
      RedirectionBegins(q, 0);
    }
  }

  lemma OperatorStarts(input: string, at: nat)
    requires at <= |input|
    ensures OperatorAt(input, at) != "" ==> at < |input| && input[at] in "&|;\n"
  {
    var o := OperatorAt(input, at);
    assert o != "" ==> o[0] == input[at..at + |o|][0];
  }

  // ---------- segment ----------

  datatype Segment = Segment(tokens: seq<Token>, precededBy: Option<string>)

  datatype Item = Op(operator: string) | Part(token: Token)

  function ItemOf(t: Token): Item {
    if t.kind == Operator then Op(t.value) else Part(t)
  }

  function Items(tokens: seq<Token>): seq<Item> {
    if tokens == [] then [] else Items(tokens[..|tokens| - 1]) + [ItemOf(tokens[|tokens| - 1])]
  }

  function SegmentItems(s: Segment): seq<Item> {
    (if s.precededBy.Some? then [Op(s.precededBy.value)] else []) + Items(s.tokens)
  }

  /** The segments' tokens with the operators put back between them. */
  function Interleave(segments: seq<Segment>): seq<Item> {
    if segments == [] then [] else Interleave(segments[..|segments| - 1]) + SegmentItems(segments[|segments| - 1])
  }

  predicate IsKept(s: Segment) {
    |s.tokens| > 0 || s.precededBy.Some?
  }

  /** filter(IsKept) */
  function Kept(segments: seq<Segment>): (r: seq<Segment>)
    ensures forall k :: 0 <= k < |r| ==> IsKept(r[k]) && r[k] in segments
  {
    if segments == [] then []
    else
      var n := |segments| - 1;
      Kept(segments[..n]) + if IsKept(segments[n]) then [segments[n]] else []
  }

  lemma {:induction false} KeptInterleaves(segments: seq<Segment>)
    ensures Interleave(Kept(segments)) == Interleave(segments)
  {
    hide IsKept, SegmentItems;
    if segments == [] {
      assert Kept(segments) == [];
    } else {
      var n := |segments| - 1;
      KeptInterleaves(segments[..n]);
      assert Interleave(segments) == Interleave(segments[..n]) + SegmentItems(segments[n]);
      if IsKept(segments[n]) {
        assert Kept(segments) == Kept(segments[..n]) + [segments[n]];
        InterleavePush(Kept(segments[..n]), segments[n]);
      } else {
        DroppedIsEmpty(segments[n]);
        assert Kept(segments) == Kept(segments[..n]);
      }
    }
  }

  lemma DroppedIsEmpty(s: Segment)
    requires !IsKept(s)
    ensures SegmentItems(s) == []
  {
  }

  lemma InterleavePush(segments: seq<Segment>, s: Segment)
    ensures Interleave(segments + [s]) == Interleave(segments) + SegmentItems(s)
  {
    assert (segments + [s])[..|segments|] == segments;
  }

  lemma SegmentPush(s: Segment, t: Token)
    ensures SegmentItems(s.(tokens := s.tokens + [t])) == SegmentItems(s) + [ItemOf(t)]
  {
    assert (s.tokens + [t])[..|s.tokens|] == s.tokens;
  }

  lemma ItemsPush(tokens: seq<Token>, t: Token)
    ensures Items(tokens + [t]) == Items(tokens) + [ItemOf(t)]
  {
    assert (tokens + [t])[..|tokens|] == tokens;
  }

  /** No operator inside a segment. */
  predicate IsPlain(s: Segment) {
    forall t :: t in s.tokens ==> t.kind != Operator
  }

  /** segment: the operators divide the tokens, and nothing is lost. */
  method SegmentTokens(tokens: seq<Token>) returns (kept: seq<Segment>)
    ensures Interleave(kept) == Items(tokens)
    ensures forall k :: 0 <= k < |kept| ==> IsPlain(kept[k]) && IsKept(kept[k])
    ensures forall k :: 0 < k < |kept| ==> kept[k].precededBy.Some?
  {
    hide Items, SegmentItems, Interleave, Kept, IsKept;
    var segments: seq<Segment> := [];
    var current := Segment([], None);
    NothingSegmented();
    assert Interleave(segments) == [] by { NothingInterleaved(); }
    for k := 0 to |tokens|
      invariant Interleave(segments) + SegmentItems(current) == Items(tokens[..k])
      invariant IsPlain(current) && forall j :: 0 <= j < |segments| ==> IsPlain(segments[j])
      invariant segments != [] ==> current.precededBy.Some?
      invariant forall j :: 0 < j < |segments| ==> segments[j].precededBy.Some?
    {
      var token := tokens[k];
      assert tokens[..k + 1] == tokens[..k] + [token];
      ItemsPush(tokens[..k], token);
      if token.kind == Operator {
        InterleavePush(segments, current);
        segments := segments + [current];
        current := Segment([], Some(token.value));
        Opened(token.value);
      } else {
        SegmentPush(current, token);
        current := current.(tokens := current.tokens + [token]);
      }
    }
    assert tokens[..|tokens|] == tokens;
    InterleavePush(segments, current);
    segments := segments + [current];
    KeptInterleaves(segments);
    OnlyFirstDropped(segments);
    kept := Kept(segments);
  }

  /** Every segment behind an operator is kept. */
  lemma {:induction false} OnlyFirstDropped(segments: seq<Segment>)
    requires segments != [] && forall k :: 0 < k < |segments| ==> segments[k].precededBy.Some?
    ensures Kept(segments) == (if IsKept(segments[0]) then [segments[0]] else []) + segments[1..]
  {
    var n := |segments| - 1;
    if n == 0 {
      assert Kept(segments[..0]) == [];
    } else {
      OnlyFirstDropped(segments[..n]);
      assert segments[1..] == segments[..n][1..] + [segments[n]];
    }
  }

  lemma NothingInterleaved()
    ensures Interleave([]) == []
  {
  }

  lemma NothingSegmented()
    ensures SegmentItems(Segment([], None)) == [] && Items([]) == []
  {
  }

  lemma Opened(operator: string)
    ensures SegmentItems(Segment([], Some(operator))) == [Op(operator)]
  {
  }
}
