/** The whole diff of two texts: split, diff, number, annotate, group. */
module DiffText {
  import opened EditGraph
  import opened Myers
  import opened Diff
  import opened Basics
  import opened Text
  import opened WordDiff
  import opened Hunks

  // ---------- Splitting into lines ----------

  /** text.replace(/\r\n?/g, '\n') */
  function UnifyLineEnds(text: string): string {
    if text == "" then ""
    else if text[0] == '\r' then
      "\n" + UnifyLineEnds(if |text| > 1 && text[1] == '\n' then text[2..] else text[1..])
    else [text[0]] + UnifyLineEnds(text[1..])
  }

  /** text.split('\n') */
  function SplitAtNewlines(text: string): (r: seq<string>)
    ensures r != []
  {
    if text == "" then [""]
    else
      var rest := SplitAtNewlines(text[1..]);
      if text[0] == '\n' then [""] + rest else [[text[0]] + rest[0]] + rest[1..]
  }

  /** The lines of a document: LF, CRLF and CR all end a line, and an ending at the very end opens no further line. */
  function SplitLines(text: string): seq<string> {
    if text == "" then []
    else
      var lines := SplitAtNewlines(UnifyLineEnds(text));
      if lines[|lines| - 1] == "" then lines[..|lines| - 1] else lines
  }

  datatype LineEnd = LF | CRLF | CR {
    function Text(): string {
      match this case LF => "\n" case CRLF => "\r\n" case CR => "\r"
    }
  }

  /** A line of a document with the ending it has there. */
  datatype Line = Line(text: string, end: LineEnd)

  predicate OneLine(line: string) {
    forall i :: 0 <= i < |line| ==> line[i] != '\n' && line[i] != '\r'
  }

  predicate AllOneLine(lines: seq<Line>) {
    forall i :: 0 <= i < |lines| ==> OneLine(lines[i].text)
  }

  /** The text of a document: terminated lines, and what follows the last ending. */
  function Document(lines: seq<Line>, last: string): string {
    if lines == [] then last else lines[0].text + lines[0].end.Text() + Document(lines[1..], last)
  }

  function LineTexts(lines: seq<Line>): (r: seq<string>)
    ensures |r| == |lines| && forall i :: 0 <= i < |lines| ==> r[i] == lines[i].text
  {
    seq(|lines|, i requires 0 <= i < |lines| => lines[i].text)
  }

  /** A carriage return before an empty line that ends in a line feed: in the text the two are one ending. */
  predicate Fuses(lines: seq<Line>) {
    |lines| >= 2 && lines[0].end.CR? && lines[1] == Line("", LF)
  }

  predicate HasFusion(lines: seq<Line>) {
    lines != [] && (Fuses(lines) || HasFusion(lines[1..]))
  }

  /** The lines as the text shows them. */
  function Fused(lines: seq<Line>): (r: seq<Line>)
    ensures |r| <= |lines|
  {
    if lines == [] then []
    else if Fuses(lines) then [Line(lines[0].text, CRLF)] + Fused(lines[2..])
    else [lines[0]] + Fused(lines[1..])
  }

  lemma {:induction false} FusedFacts(lines: seq<Line>, last: string)
    requires AllOneLine(lines)
    ensures Document(Fused(lines), last) == Document(lines, last)
    ensures AllOneLine(Fused(lines)) && (!HasFusion(lines) ==> Fused(lines) == lines)
    ensures HasFusion(lines) ==> |Fused(lines)| < |lines|
    decreases |lines|
  {
    if lines != [] {
      if Fuses(lines) {
        FusedFacts(lines[2..], last);
        FusionReads(lines, last);
        assert lines[1..][1..] == lines[2..];
        assert HasFusion(lines[2..]) ==> HasFusion(lines[1..]);
      } else {
        FusedFacts(lines[1..], last);
      }
    }
  }

  /** The two endings of a fusion read as one. */
  lemma FusionReads(lines: seq<Line>, last: string)
    requires Fuses(lines)
    ensures Document(lines, last) == lines[0].text + "\r\n" + Document(lines[2..], last)
  {
    var text, rest := lines[0].text, Document(lines[2..], last);
    assert lines[1..][0] == lines[1] && lines[1..][1..] == lines[2..];
    assert Document(lines[1..], last) == "" + "\n" + rest;
    assert text + "\r" + ("" + "\n" + rest) == text + "\r\n" + rest;
  }

  /** After fusing, no line feed follows a carriage return that ends a line. */
  lemma FusedStart(lines: seq<Line>, last: string)
    requires AllOneLine(lines) && OneLine(last)
    ensures Document(Fused(lines), last) != "" && Document(Fused(lines), last)[0] == '\n' ==>
              lines != [] && lines[0] == Line("", LF)
  {
    if lines != [] {
      var first := Fused(lines)[0];
      assert Document(Fused(lines), last)[0] == if first.text != "" then first.text[0] else first.end.Text()[0];
    }
  }

  lemma {:induction false} UnifyLine(line: string, end: LineEnd, rest: string)
    requires OneLine(line) && (end.CR? ==> rest == "" || rest[0] != '\n')
    ensures UnifyLineEnds(line + end.Text() + rest) == line + "\n" + UnifyLineEnds(rest)
    decreases |line|
  {
    var text := line + end.Text() + rest;
    if line == "" {
      UnifyEnd(end, rest);
      hide UnifyLineEnds;
      assert text == end.Text() + rest;
      assert "" + "\n" + UnifyLineEnds(rest) == "\n" + UnifyLineEnds(rest);
    } else {
      assert text[1..] == line[1..] + end.Text() + rest;
      UnifyLine(line[1..], end, rest);
      assert [line[0]] + (line[1..] + "\n" + UnifyLineEnds(rest)) == line + "\n" + UnifyLineEnds(rest);
    }
  }

  lemma UnifyEnd(end: LineEnd, rest: string)
    requires end.CR? ==> rest == "" || rest[0] != '\n'
    ensures UnifyLineEnds(end.Text() + rest) == "\n" + UnifyLineEnds(rest)
  {
    var text := end.Text() + rest;
    assert end.LF? ==> text[1..] == rest;
    assert end.CRLF? ==> text[2..] == rest;
    assert end.CR? ==> text[1..] == rest;
  }

  lemma {:induction false} UnifyNothing(s: string)
    requires OneLine(s)
    ensures UnifyLineEnds(s) == s
  {
    if s != "" {
      UnifyNothing(s[1..]);
    }
  }

  function Unified(lines: seq<Line>): (r: seq<Line>)
    ensures |r| == |lines| && forall i :: 0 <= i < |lines| ==> r[i] == Line(lines[i].text, LF)
  {
    seq(|lines|, i requires 0 <= i < |lines| => Line(lines[i].text, LF))
  }

  lemma {:induction false} UnifyDocument(lines: seq<Line>, last: string)
    requires AllOneLine(lines) && OneLine(last)
    ensures UnifyLineEnds(Document(Fused(lines), last)) == Document(Unified(Fused(lines)), last)
    decreases |lines|
  {
    if lines == [] {
      UnifyNothing(last);
    } else {
      var first := Fused(lines)[0];
      var next := if Fuses(lines) then lines[2..] else lines[1..];
      UnifyDocument(next, last);
      FusedStart(next, last);
      hide UnifyLineEnds;
      assert Fused(lines) == [first] + Fused(next);
      UnifyLine(first.text, first.end, Document(Fused(next), last));
      assert Unified(Fused(lines))[1..] == Unified(Fused(next));
    }
  }

  lemma {:induction false} SplitLine(line: string, rest: string)
    requires OneLine(line)
    ensures SplitAtNewlines(line + "\n" + rest) == [line] + SplitAtNewlines(rest)
    decreases |line|
  {
    var text := line + "\n" + rest;
    if line == "" {
      assert text[1..] == rest;
    } else {
      assert text[1..] == line[1..] + "\n" + rest;
      SplitLine(line[1..], rest);
      assert [line[0]] + line[1..] == line;
    }
  }

  lemma {:induction false} SplitNothing(s: string)
    requires OneLine(s)
    ensures SplitAtNewlines(s) == [s]
  {
    if s != "" {
      SplitNothing(s[1..]);
      assert [s[0]] + s[1..] == s;
    }
  }

  lemma {:induction false} SplitDocument(lines: seq<Line>, last: string)
    requires AllOneLine(lines) && OneLine(last)
    ensures SplitAtNewlines(Document(Unified(lines), last)) == LineTexts(lines) + [last]
  {
    if lines == [] {
      SplitNothing(last);
    } else {
      SplitDocument(lines[1..], last);
      assert Unified(lines)[1..] == Unified(lines[1..]);
      SplitLine(lines[0].text, Document(Unified(lines[1..]), last));
      assert LineTexts(lines) == [lines[0].text] + LineTexts(lines[1..]);
    }
  }

  /** The last piece of a text is a line of its own unless it is empty. */
  function Rest(last: string): seq<string> {
    if last == "" then [] else [last]
  }

  /** Any mixture of line endings, with or without a last one, is split into the lines the text shows. */
  lemma SplitShown(lines: seq<Line>, last: string)
    requires AllOneLine(lines) && OneLine(last)
    ensures SplitLines(Document(lines, last)) == LineTexts(Fused(lines)) + Rest(last)
  {
    hide UnifyLineEnds, SplitAtNewlines;
    FusedFacts(lines, last);
    UnifyDocument(lines, last);
    SplitDocument(Fused(lines), last);
    EmptyDocument(lines, last);
    var pieces := LineTexts(Fused(lines)) + [last];
    assert pieces[..|pieces| - 1] == LineTexts(Fused(lines));
  }

  lemma EmptyDocument(lines: seq<Line>, last: string)
    ensures Document(lines, last) == "" <==> lines == [] && last == ""
    ensures Fused(lines) == [] <==> lines == []
  {
  }

  /** A document is split back into its lines if and only if no carriage return ends a line right before an empty line
      ended by a line feed, which nobody could tell from one line ending. */
  lemma SplitLinesRoundTrip(lines: seq<Line>, last: string)
    requires AllOneLine(lines) && OneLine(last)
    ensures SplitLines(Document(lines, last)) == LineTexts(lines) + Rest(last) <==> !HasFusion(lines)
  {
    hide SplitLines, Document;
    SplitShown(lines, last);
    FusedFacts(lines, last);
    if HasFusion(lines) {
      assert |LineTexts(Fused(lines)) + Rest(last)| < |LineTexts(lines) + Rest(last)|;
    }
  }

  // ---------- Texts with the same lines ----------

  predicate EndsInNewline(text: string) {
    text != "" && text[|text| - 1] == '\n'
  }

  /** The text with its last line ended. */
  function Ended(text: string): string {
    if text == "" || EndsInNewline(text) then text else text + "\n"
  }

  /** The pieces put together again. */
  function Rejoined(pieces: seq<string>): string
    requires pieces != []
  {
    if |pieces| == 1 then pieces[0] else pieces[0] + "\n" + Rejoined(pieces[1..])
  }

  lemma {:induction false} SplitJoins(text: string)
    ensures Rejoined(SplitAtNewlines(text)) == text
  {
    if text != "" {
      SplitJoins(text[1..]);
      var pieces, rest := SplitAtNewlines(text), SplitAtNewlines(text[1..]);
      if text[0] == '\n' {
        assert pieces[1..] == rest;
        assert "" + "\n" + text[1..] == text;
      } else {
        assert pieces[1..] == rest[1..];
        assert text == [text[0]] + text[1..];
        assert |rest| > 1 ==> [text[0]] + rest[0] + "\n" + Rejoined(rest[1..]) == [text[0]] + Rejoined(rest);
      }
    }
  }

  lemma {:induction false} SplitMore(text: string)
    ensures SplitAtNewlines(text + "\n") == SplitAtNewlines(text) + [""]
  {
    if text == "" {
      assert (text + "\n")[1..] == "";
    } else {
      SplitMore(text[1..]);
      assert (text + "\n")[1..] == text[1..] + "\n";
      var rest := SplitAtNewlines(text[1..]);
      assert text[0] != '\n' ==> (rest + [""])[1..] == rest[1..] + [""];
    }
  }

  lemma {:induction false} LastPiece(text: string)
    ensures SplitAtNewlines(text)[|SplitAtNewlines(text)| - 1] == "" <==> text == "" || EndsInNewline(text)
  {
    if text != "" {
      LastPiece(text[1..]);
    }
  }

  /** The lines of a text are what its line feeds part, with an ending behind every line. */
  lemma SplitAgain(text: string)
    ensures SplitLines(text) + [""] == SplitAtNewlines(Ended(UnifyLineEnds(text)))
  {
    hide SplitAtNewlines;
    var u := UnifyLineEnds(text);
    SplitMore(u);
    LastPiece(u);
    var pieces := SplitAtNewlines(u);
    if text == "" {
      SplitNothing("");
    } else if EndsInNewline(u) {
      assert pieces == pieces[..|pieces| - 1] + [""];
    }
  }

  /** Two texts have the same lines exactly if they differ in nothing but their line endings. */
  lemma SameLinesIff(leftText: string, rightText: string)
    ensures SplitLines(leftText) == SplitLines(rightText) <==>
              Ended(UnifyLineEnds(leftText)) == Ended(UnifyLineEnds(rightText))
  {
    hide SplitLines, SplitAtNewlines, UnifyLineEnds;
    SplitAgain(leftText);
    SplitAgain(rightText);
    SplitJoins(Ended(UnifyLineEnds(leftText)));
    SplitJoins(Ended(UnifyLineEnds(rightText)));
    var l, r := SplitLines(leftText), SplitLines(rightText);
    assert l == (l + [""])[..|l|] && r == (r + [""])[..|r|];
  }

  // ---------- Statistics ----------

  function CountKind(steps: seq<Kind>, kind: Kind): nat {
    if steps == [] then 0 else (if steps[0] == kind then 1 else 0) + CountKind(steps[1..], kind)
  }

  lemma {:induction false} CostIsAddedPlusRemoved(steps: seq<Kind>)
    ensures StepCost(steps) == CountKind(steps, Insert) + CountKind(steps, Delete)
    ensures StepCost(steps) == 0 <==> forall i :: 0 <= i < |steps| ==> steps[i] == Equal
  {
    if steps != [] {
      CostIsAddedPlusRemoved(steps[1..]);
      assert forall i :: 0 < i < |steps| ==> steps[i] == steps[1..][i - 1];
      assert forall i :: 0 <= i < |steps| - 1 ==> steps[1..][i] == steps[i + 1];
    }
  }

  // ---------- The diff ----------

  /** When every line is equal the two documents are equal line by line. */
  lemma AllEqual(lines: seq<DiffLine>, left: seq<string>, right: seq<string>, normalize: string -> string)
    requires Shows(lines, left, right, normalize) && forall t :: 0 <= t < |lines| ==> lines[t].kind == Equal
    ensures Normalized(left, normalize) == Normalized(right, normalize)
  {
    AllCounted(lines);
    forall t | 0 <= t < |left|
      ensures t < |right| && normalize(left[t]) == normalize(right[t])
    {
      AllCounted(lines[..t]);
      assert LineShows(lines, left, right, normalize, t);
    }
  }

  lemma {:induction false} AllCounted(lines: seq<DiffLine>)
    requires forall t :: 0 <= t < |lines| ==> lines[t].kind == Equal
    ensures LeftCount(lines) == |lines| == RightCount(lines)
  {
    if lines != [] {
      AllCounted(lines[..|lines| - 1]);
    }
  }

  /** Equal sequences have a script without inserts and deletes. */
  lemma SameCostsNothing<T>(a: seq<T>)
    ensures Transforms([EditOp(Equal, |a|)], a, a) && Cost([EditOp(Equal, |a|)]) == 0
  {
    EqualRun(a, a, 0, 0, |a|, []);
    ExpandRun(Equal, |a|);
    assert Run(Equal, |a|) + [] == Run(Equal, |a|);
  }

  /** Filling in words changes nothing the lines show. */
  lemma WordsDoNotMatter(before: seq<DiffLine>, after: seq<DiffLine>, similar: (string, string) -> bool,
                         left: seq<string>, right: seq<string>, normalize: string -> string)
    requires Annotated(before, after, similar, |before|) && Shows(before, left, right, normalize)
    ensures Shows(after, left, right, normalize) && Kinds(after) == Kinds(before)
  {
    forall t | 0 <= t < |after|
      ensures after[t].(words := None) == before[t]
    {
      assert LineAnnotated(before, after, similar, |before|, t);
    }
    CountsAgree(before, after);
    forall t | 0 <= t < |after|
      ensures LineShows(after, left, right, normalize, t)
    {
      CountsAgree(before[..t], after[..t]);
      assert LineShows(before, left, right, normalize, t);
    }
  }

  lemma {:induction false} CountsAgree(before: seq<DiffLine>, after: seq<DiffLine>)
    requires |before| == |after| && forall t :: 0 <= t < |after| ==> after[t].(words := None) == before[t]
    ensures LeftCount(before) == LeftCount(after) && RightCount(before) == RightCount(after)
  {
    if before != [] {
      var n := |before| - 1;
      CountsAgree(before[..n], after[..n]);
    }
  }

  /** What a diff result promises about the two documents. */
  ghost predicate Correct(result: DiffResult, left: seq<string>, right: seq<string>, normalize: string -> string,
          context: nat) {
    var steps := Kinds(result.lines);
    && Shows(result.lines, left, right, normalize)
    && result.stats == Stats(CountKind(steps, Insert), CountKind(steps, Delete), CountKind(steps, Equal))
    && (result.identical <==> Normalized(left, normalize) == Normalized(right, normalize))
    && (exists c :: LongestCommon(c, Normalized(left, normalize), Normalized(right, normalize))
          && result.stats.added + result.stats.removed == |left| + |right| - 2 * |c|)
    && (exists spans :: Spanned(result.lines, context, spans) && Made(result.lines, spans, result.hunks))
  }

  const MAX_INPUT_BYTES := 5 * 1024 * 1024
  const MAX_LINES := 50_000

  datatype Options = Options(ignoreWhitespace: bool, ignoreCase: bool, context: nat)

  datatype Outcome = Diffed(result: DiffResult) | TooManyBytes | TooManyLines

  /** The length of a text in UTF-8. */
  function Utf8Length(text: string): nat {
    if text == "" then 0
    else
      var c := text[0] as int;
      (if c < 0x80 then 1 else if c < 0x800 then 2 else if c < 0x1_0000 then 3 else 4) + Utf8Length(text[1..])
  }

  /** How many characters codes of n bytes can tell apart: 7, 11, 16 and 21 bits. */
  function Capacity(n: nat): nat {
    if n == 0 then 0 else if n == 1 then 0x80 else if n == 2 then 0x800 else if n == 3 then 0x1_0000 else 0x20_0000
  }

  /** Each character takes the fewest bytes that can hold it, and a text the sum of its characters. */
  lemma Utf8Bytes(c: char, text: string)
    ensures var n := Utf8Length([c]); 1 <= n <= 4 && Capacity(n - 1) <= c as int < Capacity(n)
    ensures Utf8Length([c] + text) == Utf8Length([c]) + Utf8Length(text)
  {
    assert ([c] + text)[1..] == text && [c][1..] == "";
  }

  /** replace(/\s+/g, ' ') */
  function SquashSpace(s: string): string
    decreases |s|
  {
    if s == "" then ""
    else if IsSpace(s[0]) then " " + SquashSpace(TrimStart(s[1..]))
    else [s[0]] + SquashSpace(s[1..])
  }

  /** How lines are compared; lower is toLowerCase. */
  function Normalizer(options: Options, lower: string -> string): string -> string {
    (line: string) =>
      var out := if options.ignoreWhitespace then SquashSpace(Trim(line)) else line;
      if options.ignoreCase then lower(out) else out
  }

  // ---------- What the options ignore ----------

  /** The characters before the first white space. */
  function InkLength(text: string): (n: nat)
    ensures n <= |text| && (forall k :: 0 <= k < n ==> !IsSpace(text[k])) && (n < |text| ==> IsSpace(text[n]))
  {
    if text == "" || IsSpace(text[0]) then 0 else 1 + InkLength(text[1..])
  }

  /** The maximal runs of characters other than white space, in order. */
  function Runs(text: string): seq<string>
    decreases |text|
  {
    if text == "" then []
    else if IsSpace(text[0]) then Runs(text[1..])
    else [text[..InkLength(text)]] + Runs(text[InkLength(text)..])
  }

  /** The runs with one blank between two of them. */
  function Spaced(runs: seq<string>): string {
    if runs == [] then "" else if |runs| == 1 then runs[0] else runs[0] + " " + Spaced(runs[1..])
  }

  /** The options see no difference between two lines. */
  ghost predicate CountsAsEqual(options: Options, lower: string -> string, x: string, y: string) {
    if options.ignoreWhitespace then
      if options.ignoreCase then lower(Spaced(Runs(x))) == lower(Spaced(Runs(y))) else Runs(x) == Runs(y)
    else
      if options.ignoreCase then lower(x) == lower(y) else x == y
  }

  ghost predicate NothingDiffers(options: Options, lower: string -> string, left: seq<string>, right: seq<string>) {
    |left| == |right| && forall i :: 0 <= i < |left| ==> CountsAsEqual(options, lower, left[i], right[i])
  }

  predicate AreRuns(runs: seq<string>) {
    forall i :: 0 <= i < |runs| ==> runs[i] != "" && NoSpace(runs[i])
  }

  lemma {:induction false} RunsAreRuns(text: string)
    ensures AreRuns(Runs(text))
    decreases |text|
  {
    hide IsSpace;
    if text != "" {
      if IsSpace(text[0]) {
        RunsAreRuns(text[1..]);
      } else {
        RunsAreRuns(text[InkLength(text)..]);
      }
    }
  }

  lemma InkIs(text: string, n: nat)
    requires n <= |text| && (forall k :: 0 <= k < n ==> !IsSpace(text[k])) && (n < |text| ==> IsSpace(text[n]))
    ensures InkLength(text) == n
  {
    hide IsSpace;
    var m := InkLength(text);
    assert !(m < n) && !(n < m);
  }

  lemma {:induction false} RunsOfSpaceAtEnd(text: string, c: char)
    requires IsSpace(c)
    ensures Runs(text + [c]) == Runs(text)
    decreases |text|
  {
    hide IsSpace;
    var longer := text + [c];
    if text == "" {
      assert longer[1..] == "";
    } else if IsSpace(text[0]) {
      assert longer[1..] == text[1..] + [c];
      RunsOfSpaceAtEnd(text[1..], c);
    } else {
      var n := InkLength(text);
      InkIs(longer, n);
      assert longer[..n] == text[..n] && longer[n..] == text[n..] + [c];
      RunsOfSpaceAtEnd(text[n..], c);
    }
  }

  lemma {:induction false} TrimEndKeepsRuns(text: string)
    ensures Runs(TrimEnd(text)) == Runs(text)
    ensures TrimEnd(text) != "" ==> !IsSpace(TrimEnd(text)[|TrimEnd(text)| - 1])
  {
    hide IsSpace;
    if text != "" && IsSpace(text[|text| - 1]) {
      var n := |text| - 1;
      TrimEndKeepsRuns(text[..n]);
      RunsOfSpaceAtEnd(text[..n], text[n]);
      assert text == text[..n] + [text[n]];
    }
  }

  predicate EndsDark(text: string) {
    text != "" ==> !IsSpace(text[|text| - 1])
  }

  lemma {:induction false} TrimStartKeepsRuns(text: string)
    requires EndsDark(text)
    ensures Runs(TrimStart(text)) == Runs(text) && EndsDark(TrimStart(text))
    ensures TrimStart(text) != "" ==> !IsSpace(TrimStart(text)[0])
    ensures text != "" ==> TrimStart(text) != ""
  {
    hide IsSpace;
    if text != "" && IsSpace(text[0]) {
      TrimStartKeepsRuns(text[1..]);
    }
  }

  lemma RunsAt(text: string)
    requires text != "" && !IsSpace(text[0])
    ensures Runs(text) == [text[..InkLength(text)]] + Runs(text[InkLength(text)..])
  {
  }

  /** A character in front begins the first run, or is one. */
  lemma RunsStep(text: string)
    requires text != "" && !IsSpace(text[0])
    ensures var rest := text[1..];
            if rest == "" || IsSpace(rest[0]) then Runs(text) == [[text[0]]] + Runs(rest)
            else Runs(rest) != [] && Runs(text) == [[text[0]] + Runs(rest)[0]] + Runs(rest)[1..]
  {
    hide IsSpace, Runs, InkLength;
    var rest := text[1..];
    RunsAt(text);
    if rest == "" || IsSpace(rest[0]) {
      InkIs(text, 1);
      assert text[..1] == [text[0]];
    } else {
      var m := InkLength(rest);
      RunsAt(rest);
      InkIs(text, m + 1);
      assert text[..m + 1] == [text[0]] + rest[..m] && text[m + 1..] == rest[m..];
    }
  }

  lemma {:induction false} SomeRun(text: string)
    requires text != "" && EndsDark(text)
    ensures Runs(text) != []
    decreases |text|
  {
    hide IsSpace;
    if IsSpace(text[0]) {
      SomeRun(text[1..]);
    }
  }

  /** What squashing makes of a text that does not end in white space. */
  lemma {:induction false} SquashIsRuns(text: string)
    requires EndsDark(text)
    ensures SquashSpace(text) == (if text != "" && IsSpace(text[0]) then " " else "") + Spaced(Runs(text))
    decreases |text|
  {
    hide IsSpace, TrimStart, Runs, EndsDark;
    if text == "" {
      NoRuns();
    } else if IsSpace(text[0]) {
      SquashBlank(text);
    } else {
      assert EndsDark(text[1..]) by { DarkTail(text); }
      SquashIsRuns(text[1..]);
      RunsStep(text);
      if text[1..] == "" {
        NoRuns();
      } else {
        assert EndsDark(text[1..]);
        SomeRun(text[1..]);
      }
      SquashInk(text);
    }
  }

  lemma NoRuns()
    ensures Runs("") == []
  {
  }

  lemma DarkTail(text: string)
    requires text != "" && EndsDark(text)
    ensures EndsDark(text[1..])
  {
  }

  lemma {:induction false} SquashBlank(text: string)
    requires text != "" && IsSpace(text[0]) && EndsDark(text)
    ensures SquashSpace(text) == " " + Spaced(Runs(text))
    decreases |text|, 0
  {
    hide IsSpace, TrimStart, Spaced;
    var rest := TrimStart(text[1..]);
    TrimStartKeepsRuns(text[1..]);
    SquashIsRuns(rest);
    assert "" + Spaced(Runs(rest)) == Spaced(Runs(rest));
  }

  lemma SquashInk(text: string)
    requires text != "" && !IsSpace(text[0])
    requires var rest := text[1..];
             && (rest == "" ==> Runs(rest) == []) && (rest != "" ==> Runs(rest) != [])
             && SquashSpace(rest) == (if rest != "" && IsSpace(rest[0]) then " " else "") + Spaced(Runs(rest))
             && if rest == "" || IsSpace(rest[0]) then Runs(text) == [[text[0]]] + Runs(rest)
                else Runs(text) == [[text[0]] + Runs(rest)[0]] + Runs(rest)[1..]
    ensures SquashSpace(text) == "" + Spaced(Runs(text))
  {
    hide IsSpace, TrimStart, Runs, Spaced;
    var rest := text[1..];
    var more := Runs(rest);
    if rest == "" {
      SpacedOne([text[0]]);
    } else if IsSpace(rest[0]) {
      SpacedNew(text[0], more);
    } else {
      assert more == [more[0]] + more[1..];
      SpacedLonger(text[0], more[0], more[1..]);
      assert "" + Spaced(more) == Spaced(more);
    }
  }

  lemma SpacedOne(w: string)
    ensures Spaced([w] + []) == w && Spaced([]) == ""
  {
  }

  lemma SpacedNew(c: char, more: seq<string>)
    requires more != []
    ensures Spaced([[c]] + more) == [c] + (" " + Spaced(more))
  {
    assert ([[c]] + more)[1..] == more;
  }

  lemma SpacedLonger(c: char, w: string, more: seq<string>)
    ensures Spaced([[c] + w] + more) == [c] + Spaced([w] + more)
  {
    assert ([[c] + w] + more)[1..] == more && ([w] + more)[1..] == more;
    assert ([c] + w) + " " + Spaced(more) == [c] + (w + " " + Spaced(more));
  }

  /** Put together with blanks, runs can be told apart again. */
  lemma {:induction false} RunsOfSpaced(runs: seq<string>)
    requires AreRuns(runs)
    ensures Runs(Spaced(runs)) == runs
  {
    hide IsSpace;
    if runs != [] {
      var w, text := runs[0], Spaced(runs);
      assert NoSpace(w);
      if |runs| == 1 {
        InkIs(text, |w|);
        assert text[..|w|] == w && text[|w|..] == "";
      } else {
        RunsOfSpaced(runs[1..]);
        BlankIsSpace();
        var rest := Spaced(runs[1..]);
        assert text == w + " " + rest;
        InkIs(text, |w|);
        assert text[..|w|] == w && text[|w|..] == " " + rest && (" " + rest)[1..] == rest;
      }
    }
  }

  lemma BlankIsSpace()
    ensures IsSpace(' ')
  {
  }

  lemma SquashedIs(line: string)
    ensures SquashSpace(Trim(line)) == Spaced(Runs(line))
  {
    hide IsSpace, TrimStart, TrimEnd, SquashSpace, Runs, Spaced;
    TrimEndKeepsRuns(line);
    TrimStartKeepsRuns(TrimEnd(line));
    SquashIsRuns(Trim(line));
    assert "" + Spaced(Runs(line)) == Spaced(Runs(line));
  }

  /** Lines are compared as the options say. */
  lemma NormalizerIff(options: Options, lower: string -> string, x: string, y: string)
    ensures Normalizer(options, lower)(x) == Normalizer(options, lower)(y) <==> CountsAsEqual(options, lower, x, y)
  {
    hide SquashSpace, Runs, Spaced, Trim;
    SquashedIs(x);
    SquashedIs(y);
    RunsAreRuns(x);
    RunsAreRuns(y);
    RunsOfSpaced(Runs(x));
    RunsOfSpaced(Runs(y));
  }

  lemma NormalizedIff(options: Options, lower: string -> string, left: seq<string>, right: seq<string>)
    ensures Normalized(left, Normalizer(options, lower)) == Normalized(right, Normalizer(options, lower)) <==>
              NothingDiffers(options, lower, left, right)
    ensures !options.ignoreWhitespace && !options.ignoreCase ==> Normalized(left, Normalizer(options, lower)) == left
  {
    hide Normalizer, CountsAsEqual;
    var n := Normalizer(options, lower);
    forall i | 0 <= i < |left| && i < |right|
      ensures n(left[i]) == n(right[i]) <==> CountsAsEqual(options, lower, left[i], right[i])
    {
      NormalizerIff(options, lower, left[i], right[i]);
    }
    if !options.ignoreWhitespace && !options.ignoreCase {
      forall i | 0 <= i < |left|
        ensures n(left[i]) == left[i]
      {
        NormalizerOff(options, lower, left[i]);
      }
    }
    if Normalized(left, n) == Normalized(right, n) {
      forall i | 0 <= i < |left|
        ensures CountsAsEqual(options, lower, left[i], right[i])
      {
        assert Normalized(left, n)[i] == Normalized(right, n)[i];
      }
    }
  }

  lemma NormalizerOff(options: Options, lower: string -> string, line: string)
    requires !options.ignoreWhitespace && !options.ignoreCase
    ensures Normalizer(options, lower)(line) == line
  {
  }

  method Notes(leftText: string, rightText: string, options: Options, identical: bool) returns (notes: seq<Note>)
    ensures forall n :: n in notes <==>
              match n
              case IgnoredDifference(whitespace, letterCase) =>
                && whitespace == options.ignoreWhitespace && letterCase == options.ignoreCase
                && (whitespace || letterCase) && identical && leftText != rightText
              case TrailingNewline => EndsInNewline(leftText) != EndsInNewline(rightText)
  {
    notes := [];
    if (options.ignoreWhitespace || options.ignoreCase) && identical && leftText != rightText {
      notes := notes + [IgnoredDifference(options.ignoreWhitespace, options.ignoreCase)];
    }
    if EndsInNewline(leftText) != EndsInNewline(rightText) {
      notes := notes + [TrailingNewline];
    }
  }

  /** The condition of the first note can hold although no line differs: with only the letter case ignored, the note then
      speaks of a difference in letter case where there is none. SameLinesIff says when the lines are the same. */
  lemma UnfoundedNote(result: DiffResult, normalize: string -> string, context: nat)
    requires Correct(result, SplitLines("a\n"), SplitLines("a"), normalize, context)
    ensures result.identical && "a\n" != "a" && SplitLines("a\n") == SplitLines("a")
  {
    hide SplitLines, Shows, Spanned, Made, LongestCommon, Kinds, CountKind, Normalized;
    assert OneLine("a");
    UnifyLine("a", LF, "");
    assert "a" + "\n" + "" == "a\n";
    UnifyNothing("a");
    SameLinesIff("a\n", "a");
  }

  /** The diff of two documents split into lines; the notes are those of the texts. */
  method DiffLines(left: seq<string>, right: seq<string>, normalize: string -> string,
          similar: (string, string) -> bool, context: nat)
    returns (result: DiffResult)
    ensures Correct(result, left, right, normalize, context)
    ensures context >= 1 ==> Patched(left, result.hunks, 0) == Some(RightTexts(result.lines))
    ensures context >= 1 ==> Patched(RightTexts(result.lines), Backwards(result.hunks), 0) == Some(left)
    ensures Normalized(RightTexts(result.lines), normalize) == Normalized(right, normalize)
    ensures result.notes == []
  {
    hide Shows, Transforms, Cost, LongestCommon, Expand, Annotated, Spanned, Made, Patched, RightTexts, Normalized,
            Backwards, NoBareInsertion, NoBareDeletion, Kinds, CountKind, StepCost;
    var a, b := Normalized(left, normalize), Normalized(right, normalize);
    var script := MyersDiff(a, b);
    var lines := RenderLines(script, left, right, normalize);
    var annotated := AnnotateWordChanges(lines, similar);
    WordsDoNotMatter(lines, annotated, similar, left, right, normalize);
    var steps := Kinds(annotated);
    var stats := Stats(CountKind(steps, Insert), CountKind(steps, Delete), CountKind(steps, Equal));
    var hunks, spans := BuildHunks(annotated, context);
    result := DiffResult(annotated, hunks, stats, stats.added == 0 && stats.removed == 0, []);
    IdenticalIff(script, annotated, left, right, normalize);
    PatchWithContext(annotated, left, right, normalize, context, spans, hunks);
    NormalizedLength(left, normalize);
    NormalizedLength(right, normalize);
    CostIsStepCost(script, steps);
    CostIsAddedPlusRemoved(steps);
  }

  /** diffText; lower is toLowerCase, and the similarity test of lines is a parameter. */
  method DiffTexts(leftText: string, rightText: string, options: Options, lower: string -> string,
          similar: (string, string) -> bool)
    returns (outcome: Outcome)
    ensures outcome.TooManyBytes? <==> Utf8Length(leftText) > MAX_INPUT_BYTES || Utf8Length(rightText) > MAX_INPUT_BYTES
    ensures outcome.TooManyLines? <==>
              !outcome.TooManyBytes? && (|SplitLines(leftText)| > MAX_LINES || |SplitLines(rightText)| > MAX_LINES)
    ensures outcome.Diffed? ==>
              var left, right, normalize := SplitLines(leftText), SplitLines(rightText), Normalizer(options, lower);
              && Correct(outcome.result, left, right, normalize, options.context)
              && Normalized(RightTexts(outcome.result.lines), normalize) == Normalized(right, normalize)
              && (options.context >= 1 ==>
                    && Patched(left, outcome.result.hunks, 0) == Some(RightTexts(outcome.result.lines))
                    && Patched(RightTexts(outcome.result.lines), Backwards(outcome.result.hunks), 0) == Some(left))
    ensures outcome.Diffed? ==>
              (outcome.result.identical <==> NothingDiffers(options, lower, SplitLines(leftText), SplitLines(rightText)))
    ensures outcome.Diffed? && !options.ignoreWhitespace && !options.ignoreCase ==>
              var left, right := SplitLines(leftText), SplitLines(rightText);
              && (outcome.result.identical <==> left == right)
              && RightTexts(outcome.result.lines) == right
              && (options.context >= 1 ==>
                    && Patched(left, outcome.result.hunks, 0) == Some(right)
                    && Patched(right, Backwards(outcome.result.hunks), 0) == Some(left))
    ensures outcome.Diffed? ==>
              && (TrailingNewline in outcome.result.notes <==> EndsInNewline(leftText) != EndsInNewline(rightText))
              && forall w, c :: IgnoredDifference(w, c) in outcome.result.notes <==>
                   && w == options.ignoreWhitespace && c == options.ignoreCase && (w || c)
                   && outcome.result.identical && leftText != rightText
  {
    hide Correct, Patched, RightTexts, Normalized, Backwards, SplitLines, Utf8Length, Normalizer;
    if Utf8Length(leftText) > MAX_INPUT_BYTES || Utf8Length(rightText) > MAX_INPUT_BYTES {
      return TooManyBytes;
    }
    var leftLines := SplitLines(leftText);
    var rightLines := SplitLines(rightText);
    if |leftLines| > MAX_LINES || |rightLines| > MAX_LINES {
      return TooManyLines;
    }
    var normalize := Normalizer(options, lower);
    var plain := DiffLines(leftLines, rightLines, normalize, similar, options.context);
    var notes := Notes(leftText, rightText, options, plain.identical);
    NotesDoNotMatter(plain, notes, leftLines, rightLines, normalize, options.context);
    IdenticalMeans(plain, leftLines, rightLines, options, lower);
    NormalizedIff(options, lower, RightTexts(plain.lines), rightLines);
    NormalizedIff(options, lower, rightLines, rightLines);
    outcome := Diffed(plain.(notes := notes));
  }

  lemma IdenticalMeans(result: DiffResult, left: seq<string>, right: seq<string>, options: Options, lower: string -> string)
    requires Correct(result, left, right, Normalizer(options, lower), options.context)
    ensures result.identical <==> NothingDiffers(options, lower, left, right)
    ensures !options.ignoreWhitespace && !options.ignoreCase ==> (result.identical <==> left == right)
  {
    hide Shows, Spanned, Made, LongestCommon, Kinds, CountKind, Normalized, Normalizer, NothingDiffers;
    NormalizedIff(options, lower, left, right);
    NormalizedIff(options, lower, right, right);
  }

  lemma NotesDoNotMatter(result: DiffResult, notes: seq<Note>, left: seq<string>, right: seq<string>,
          normalize: string -> string, context: nat)
    requires Correct(result, left, right, normalize, context)
    ensures Correct(result.(notes := notes), left, right, normalize, context)
  {
    hide Shows, Spanned, Made, LongestCommon, Kinds, CountKind, Normalized;
  }

  lemma NormalizedLength(lines: seq<string>, normalize: string -> string)
    ensures |Normalized(lines, normalize)| == |lines|
  {
  }

  lemma CostIsStepCost(script: seq<EditOp>, steps: seq<Kind>)
    requires steps == Expand(script)
    ensures Cost(script) == StepCost(steps)
  {
  }

  lemma IdenticalIff(script: seq<EditOp>, lines: seq<DiffLine>, left: seq<string>,
          right: seq<string>, normalize: string -> string)
    requires Shows(lines, left, right, normalize) && Kinds(lines) == Expand(script)
    requires forall other :: Transforms(other, Normalized(left, normalize), Normalized(right, normalize)) ==> Cost(script) <= Cost(other)
    ensures Cost(script) == 0 <==> Normalized(left, normalize) == Normalized(right, normalize)
  {
    hide Shows, Transforms, Expand, StepCost, Normalized;
    var a, b := Normalized(left, normalize), Normalized(right, normalize);
    CostIsAddedPlusRemoved(Kinds(lines));
    if Cost(script) == 0 {
      forall t | 0 <= t < |lines|
        ensures lines[t].kind == Equal
      {
        assert Kinds(lines)[t] == Equal;
      }
      AllEqual(lines, left, right, normalize);
    }
    if a == b {
      SameCostsNothing(a);
      assert Transforms([EditOp(Equal, |a|)], a, b);
    }
  }

  lemma PatchWithContext(lines: seq<DiffLine>, left: seq<string>, right: seq<string>,
          normalize: string -> string, context: nat,
                         spans: seq<Span>, hunks: seq<Hunk>)
    requires Shows(lines, left, right, normalize) && Spanned(lines, context, spans) && Made(lines, spans, hunks)
    ensures context >= 1 || NoBareInsertion(lines) ==> Patched(left, hunks, 0) == Some(RightTexts(lines))
    ensures context >= 1 || NoBareDeletion(lines) ==> Patched(RightTexts(lines), Backwards(hunks), 0) == Some(left)
    ensures Normalized(RightTexts(lines), normalize) == Normalized(right, normalize)
  {
    hide Spanned, Made, Patched, NoBareInsertion, NoBareDeletion, Backwards;
    LeftsExactIff(lines, left, right, normalize, context, spans, hunks);
    if context >= 1 || NoBareDeletion(lines) {
      BackwardsPatch(lines, left, right, normalize, context, spans, hunks);
    }
    if context >= 1 || NoBareInsertion(lines) {
      PatchTheorem(lines, left, right, normalize, context, spans, hunks);
    }
    RightPrefix(lines, left, right, normalize, |lines|);
    assert lines[..|lines|] == lines;
    assert right[..|right|] == right;
  }

  /** Without normalisation the patch is the right document itself, and backwards the left one. */
  lemma PatchIsRight(result: DiffResult, left: seq<string>, right: seq<string>, context: nat)
    requires Correct(result, left, right, Plain, context)
    ensures context >= 1 || NoBareInsertion(result.lines) ==> Patched(left, result.hunks, 0) == Some(right)
    ensures context >= 1 || NoBareDeletion(result.lines) ==> Patched(right, Backwards(result.hunks), 0) == Some(left)
  {
    var spans :| Spanned(result.lines, context, spans) && Made(result.lines, spans, result.hunks);
    PatchWithContext(result.lines, left, right, Plain, context, spans, result.hunks);
    PlainKeeps(right);
    PlainKeeps(RightTexts(result.lines));
  }

  /** Without normalisation and for any context: exactly when the patch is the right document, and backwards the left one. */
  lemma PatchIsRightIff(result: DiffResult, left: seq<string>, right: seq<string>, context: nat, spans: seq<Span>)
    requires Correct(result, left, right, Plain, context)
    requires Spanned(result.lines, context, spans) && Made(result.lines, spans, result.hunks)
    ensures Patched(left, result.hunks, 0) == Some(right) <==> PatchesRight(result.lines, spans)
    ensures Patched(right, Backwards(result.hunks), 0) == Some(left) <==> PatchesRight(Mirrored(result.lines), spans)
  {
    hide Made, Patched, Backwards, PatchesRight, Shows, Covered;
    var lines := result.lines;
    PatchedIff(lines, left, right, Plain, context, spans, result.hunks);
    BackwardsPatchedIff(lines, left, right, Plain, context, spans, result.hunks);
    PatchWithContext(lines, left, right, Plain, context, spans, result.hunks);
    PlainKeeps(right);
    PlainKeeps(RightTexts(lines));
  }

  lemma PlainKeeps(lines: seq<string>)
    ensures Normalized(lines, Plain) == lines
  {
  }
}
