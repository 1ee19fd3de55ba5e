/** Word-level segments on a delete line followed by a single insert line that resembles it. */
module WordDiff {
  import opened EditGraph
  import opened Myers
  import opened Text
  import opened Diff
  import opened Basics

  /** The length of the first maximal run of white space or of anything else. */
  function RunLength(text: string): (n: nat)
    requires text != ""
    ensures 0 < n <= |text|
  {
    if |text| > 1 && IsSpace(text[0]) == IsSpace(text[1]) then 1 + RunLength(text[1..]) else 1
  }

  /** The matches of /\s+|[^\s]+/g. */
  function TokenizeWords(text: string): (words: seq<string>)
    decreases |text|
  {
    if text == "" then [] else [text[..RunLength(text)]] + TokenizeWords(text[RunLength(text)..])
  }

  /** Nothing is lost between the words. */
  lemma {:induction false} TokensKeepText(text: string)
    ensures Concat(TokenizeWords(text)) == text
    decreases |text|
  {
    if text != "" {
      TokensKeepText(text[RunLength(text)..]);
    }
  }

  predicate NoSpace(s: string) {
    forall k :: 0 <= k < |s| ==> !IsSpace(s[k])
  }

  lemma {:induction false} RunIsUniform(text: string)
    requires text != ""
    ensures var run := text[..RunLength(text)];
            (if IsSpace(text[0]) then AllSpace(run) else NoSpace(run))
            && (|run| < |text| ==> IsSpace(text[|run|]) != IsSpace(text[0]))
  {
    hide IsSpace;
    if |text| > 1 && IsSpace(text[0]) == IsSpace(text[1]) {
      RunIsUniform(text[1..]);
      var run, rest := text[..RunLength(text)], text[1..][..RunLength(text[1..])];
      assert forall k :: 1 <= k < |run| ==> run[k] == rest[k - 1];
    }
  }

  /** Each word is all white space or holds none, and neighbours differ in that: the words are the maximal runs. */
  lemma {:induction false} WordsAlternate(text: string, i: nat)
    requires i < |TokenizeWords(text)|
    ensures var words := TokenizeWords(text);
            && words[i] != "" && (AllSpace(words[i]) || NoSpace(words[i]))
            && (i == 0 ==> words[0][0] == text[0])
            && (i > 0 ==> words[i - 1] != "" && (AllSpace(words[i - 1]) <==> NoSpace(words[i])))
    decreases |text|
  {
    hide IsSpace;
    var n := RunLength(text);
    var words, rest := TokenizeWords(text), TokenizeWords(text[n..]);
    RunIsUniform(text);
    assert words[0][0] == text[0];
    if i > 0 {
      WordsAlternate(text[n..], i - 1);
      assert words[i] == rest[i - 1];
      if i > 1 {
        assert words[i - 1] == rest[i - 2];
      } else {
        assert text[n..][0] == text[n] == words[1][0];
      }
    }
  }

  function Texts(segments: seq<Segment>): (r: seq<string>)
    ensures |r| == |segments|
  {
    seq(|segments|, i requires 0 <= i < |segments| => segments[i].text)
  }

  /** The texts of the unchanged segments. */
  function EqualTexts(segments: seq<Segment>): seq<string> {
    if segments == [] then []
    else EqualTexts(segments[..|segments| - 1])
         + if segments[|segments| - 1].kind.Equal? then [segments[|segments| - 1].text] else []
  }

  /** The segments spell the text, and each is either unchanged or of the line's own kind. */
  ghost predicate Spells(segments: seq<Segment>, text: string, kind: Kind) {
    && Concat(Texts(segments)) == text
    && forall i :: 0 <= i < |segments| ==> segments[i].kind == Equal || segments[i].kind == kind
  }

  lemma SpellsPush(segments: seq<Segment>, words: seq<string>, from: nat, to: nat, kind: Kind, s: Segment)
    requires from <= to <= |words| && Spells(segments, Concat(words[..from]), kind)
    requires s.text == Concat(words[from..to]) && (s.kind == Equal || s.kind == kind)
    ensures Spells(segments + [s], Concat(words[..to]), kind)
    ensures EqualTexts(segments + [s]) == EqualTexts(segments) + if s.kind.Equal? then [s.text] else []
  {
    hide Concat, EqualTexts;
    assert Texts(segments + [s]) == Texts(segments) + [s.text];
    ConcatPush(Texts(segments), s.text);
    assert words[..to] == words[..from] + words[from..to];
    ConcatAppend(words[..from], words[from..to]);
    EqualTextsPush(segments, s);
  }

  lemma EqualTextsPush(segments: seq<Segment>, s: Segment)
    ensures EqualTexts(segments + [s]) == EqualTexts(segments) + if s.kind.Equal? then [s.text] else []
  {
    assert (segments + [s])[..|segments|] == segments;
  }

  /** A whole run of the script, read from (i, j). */
  lemma {:induction false} RunAdvances<T>(kind: Kind, count: nat, rest: seq<Kind>, a: seq<T>, b: seq<T>, i: nat, j: nat)
    requires i <= |a| && j <= |b| && Replays(Run(kind, count) + rest, a, b, i, j)
    ensures var i' := if kind.Insert? then i else i + count;
            var j' := if kind.Delete? then j else j + count;
            && i' <= |a| && j' <= |b| && Replays(rest, a, b, i', j')
            && (kind.Equal? ==> a[i..i'] == b[j..j'])
    decreases count
  {
    hide Replays;
    if count == 0 {
      assert Run(kind, count) + rest == rest;
    } else {
      NextSteps(kind, count, rest, a, b, i, j);
      var i' := if kind.Insert? then i else i + 1;
      var j' := if kind.Delete? then j else j + 1;
      RunAdvances(kind, count - 1, rest, a, b, i', j');
      if kind.Equal? {
        assert a[i..i + count] == [a[i]] + a[i + 1..i + count];
        assert b[j..j + count] == [b[j]] + b[j + 1..j + count];
      }
    }
  }

  /** What a whole run keeps, read from i. */
  lemma {:induction false} KeptRun<T>(kind: Kind, count: nat, rest: seq<Kind>, a: seq<T>, i: nat)
    requires kind.Insert? || i + count <= |a|
    ensures Kept(Run(kind, count) + rest, a, i)
            == (if kind.Equal? then a[i..i + count] else []) + Kept(rest, a, if kind.Insert? then i else i + count)
    decreases count
  {
    var steps := Run(kind, count) + rest;
    if count == 0 {
      assert steps == rest;
    } else {
      assert steps[0] == kind && steps[1..] == Run(kind, count - 1) + rest;
      KeptRun(kind, count - 1, rest, a, if kind.Insert? then i else i + 1);
      hide Run;
      var later := Kept(rest, a, if kind.Insert? then i else i + count);
      if kind.Equal? {
        assert a[i..i + count] + later == [a[i]] + (a[i + 1..i + count] + later);
      } else {
        assert [] + later == later;
      }
    }
  }

  /** The unchanged text of the segments is that of a longest common subsequence of the words. */
  ghost predicate KeepsLongest(segments: seq<Segment>, leftWords: seq<string>, rightWords: seq<string>) {
    exists c :: LongestCommon(c, leftWords, rightWords) && Concat(EqualTexts(segments)) == Concat(c)
  }

  /** The unchanged text so far and what the rest of the script keeps make up what the whole script keeps. */
  ghost predicate Keeping(ls: seq<Segment>, rest: seq<Kind>, words: seq<string>, i: nat, all: string) {
    Concat(EqualTexts(ls)) + Concat(Kept(rest, words, i)) == all
  }

  lemma KeepingStep(ls: seq<Segment>, next: seq<Segment>, kind: Kind, count: nat, rest: seq<Kind>,
          words: seq<string>, i: nat, all: string)
    requires Keeping(ls, Run(kind, count) + rest, words, i, all) && (kind.Insert? || i + count <= |words|)
    requires EqualTexts(next) == EqualTexts(ls) + if kind.Equal? then [Concat(words[i..i + count])] else []
    ensures Keeping(next, rest, words, if kind.Insert? then i else i + count, all)
  {
    hide EqualTexts, Concat, Kept;
    KeptRun(kind, count, rest, words, i);
    var later := Kept(rest, words, if kind.Insert? then i else i + count);
    if kind.Equal? {
      ConcatPush(EqualTexts(ls), Concat(words[i..i + count]));
      ConcatAppend(words[i..i + count], later);
    } else {
      assert [] + later == later;
      assert EqualTexts(next) == EqualTexts(ls);
    }
  }

  lemma KeepingEnds(ls: seq<Segment>, script: seq<EditOp>, leftWords: seq<string>, rightWords: seq<string>, i: nat)
    requires LongestCommon(Kept(Expand(script), leftWords, 0), leftWords, rightWords)
    requires Keeping(ls, [], leftWords, i, Concat(Kept(Expand(script), leftWords, 0)))
    ensures KeepsLongest(ls, leftWords, rightWords)
  {
    hide LongestCommon, EqualTexts, Expand;
    assert Kept([], leftWords, i) == [];
  }

  /** The segments of one pair of lines: each side spells its own line, and both agree on the unchanged text. */
  method WordSegments(leftWords: seq<string>, rightWords: seq<string>) returns (ls: seq<Segment>, rs: seq<Segment>)
    ensures Spells(ls, Concat(leftWords), Delete) && Spells(rs, Concat(rightWords), Insert)
    ensures EqualTexts(ls) == EqualTexts(rs) && KeepsLongest(ls, leftWords, rightWords)
  {
    hide Replays, Expand, Spells, EqualTexts, Concat, LongestCommon, Run, Kept, Keeping;
    var script := MyersDiff(leftWords, rightWords);
    ghost var all := Concat(Kept(Expand(script), leftWords, 0));
    KeepingBegins(Expand(script), leftWords);
    ls, rs := [], [];
    SpellsNothing();
    var li, ri := 0, 0;
    ExpandEnds(script);
    for o := 0 to |script|
      invariant 0 <= li <= |leftWords| && 0 <= ri <= |rightWords|
      invariant Replays(Expand(script[o..]), leftWords, rightWords, li, ri)
      invariant Spells(ls, Concat(leftWords[..li]), Delete) && Spells(rs, Concat(rightWords[..ri]), Insert)
      invariant EqualTexts(ls) == EqualTexts(rs) && Keeping(ls, Expand(script[o..]), leftWords, li, all)
    {
      var op := script[o];
      ghost var before, from := ls, li;
      ExpandSuffix(script, o);
      RunAdvances(op.kind, op.count, Expand(script[o + 1..]), leftWords, rightWords, li, ri);
      match op.kind {
        case Equal =>
          var text := Concat(leftWords[li..li + op.count]);
          SpellsPush(ls, leftWords, li, li + op.count, Delete, Segment(Equal, text));
          SpellsPush(rs, rightWords, ri, ri + op.count, Insert, Segment(Equal, text));
          ls := ls + [Segment(Equal, text)];
          rs := rs + [Segment(Equal, text)];
          li := li + op.count;
          ri := ri + op.count;
        case Delete =>
          var text := Concat(leftWords[li..li + op.count]);
          SpellsPush(ls, leftWords, li, li + op.count, Delete, Segment(Delete, text));
          ls := ls + [Segment(Delete, text)];
          li := li + op.count;
        case Insert =>
          var text := Concat(rightWords[ri..ri + op.count]);
          SpellsPush(rs, rightWords, ri, ri + op.count, Insert, Segment(Insert, text));
          rs := rs + [Segment(Insert, text)];
          ri := ri + op.count;
      }
      KeepingStep(before, ls, op.kind, op.count, Expand(script[o + 1..]), leftWords, from, all);
    }
    KeepingEnds(ls, script, leftWords, rightWords, li);
    ReplayEnds(leftWords, rightWords, li, ri);
    assert leftWords[..li] == leftWords && rightWords[..ri] == rightWords;
  }

  lemma KeepingBegins(steps: seq<Kind>, words: seq<string>)
    ensures Keeping([], steps, words, 0, Concat(Kept(steps, words, 0)))
  {
    hide Kept;
    assert EqualTexts([]) == [] && Concat([]) == "";
  }

  lemma ReplayEnds<T>(a: seq<T>, b: seq<T>, i: nat, j: nat)
    requires Replays([], a, b, i, j)
    ensures i == |a| && j == |b|
  {
  }

  lemma SpellsNothing()
    ensures Spells([], Concat([]), Delete) && Spells([], Concat([]), Insert) && EqualTexts([]) == []
  {
  }

  /** Line t is a delete that gets compared word by word with the insert after it. */
  predicate Paired(lines: seq<DiffLine>, similar: (string, string) -> bool, t: int) {
    && 0 <= t < |lines| - 1 && lines[t].kind == Delete && lines[t + 1].kind == Insert
    && !(t + 2 < |lines| && lines[t + 2].kind == Insert)
    && similar(lines[t].text, lines[t + 1].text)
  }

  ghost predicate PairShows(lines: seq<DiffLine>, t: int)
    requires 0 <= t < |lines| - 1
  {
    && lines[t].words.Some? && lines[t + 1].words.Some?
    && Spells(lines[t].words.value, lines[t].text, Delete) && Spells(lines[t + 1].words.value, lines[t + 1].text, Insert)
    && EqualTexts(lines[t].words.value) == EqualTexts(lines[t + 1].words.value)
    && KeepsLongest(lines[t].words.value, TokenizeWords(lines[t].text), TokenizeWords(lines[t + 1].text))
  }

  /** Line t has been compared, as either line of a pair. */
  predicate InPair(lines: seq<DiffLine>, similar: (string, string) -> bool, upto: int, t: int) {
    (t < upto && Paired(lines, similar, t)) || (t - 1 < upto && Paired(lines, similar, t - 1))
  }

  /** Line t of the pass up to `upto`: only the words differ, only on paired lines, and there they are right. */
  ghost predicate LineAnnotated(before: seq<DiffLine>, after: seq<DiffLine>, similar: (string, string) -> bool,
          upto: int, t: int)
    requires |before| == |after| && 0 <= t < |after|
  {
    && after[t].(words := None) == before[t]
    && (!InPair(before, similar, upto, t) ==> after[t].words == None)
    && (t < upto && Paired(before, similar, t) ==> PairShows(after, t))
  }

  ghost predicate Annotated(before: seq<DiffLine>, after: seq<DiffLine>, similar: (string, string) -> bool, upto: int) {
    |after| == |before| && forall t :: 0 <= t < |after| ==> LineAnnotated(before, after, similar, upto, t)
  }

  lemma AnnotatedSkip(before: seq<DiffLine>, after: seq<DiffLine>, similar: (string, string) -> bool, i: nat)
    requires Annotated(before, after, similar, i) && !Paired(before, similar, i)
    ensures Annotated(before, after, similar, i + 1)
  {
    hide Paired, PairShows;
    var upto := i + 1;
    forall t | 0 <= t < |after|
      ensures LineAnnotated(before, after, similar, upto, t)
    {
      assert LineAnnotated(before, after, similar, i, t);
    }
  }

  lemma AnnotatedPair(before: seq<DiffLine>, after: seq<DiffLine>, similar: (string, string) -> bool, i: nat,
                      ls: seq<Segment>, rs: seq<Segment>)
    requires Annotated(before, after, similar, i) && Paired(before, similar, i)
    requires Spells(ls, before[i].text, Delete) && Spells(rs, before[i + 1].text, Insert) && EqualTexts(ls) == EqualTexts(rs)
    requires KeepsLongest(ls, TokenizeWords(before[i].text), TokenizeWords(before[i + 1].text))
    ensures Annotated(before, after[i := after[i].(words := Some(ls))][i + 1 := after[i + 1].(words := Some(rs))], similar, i + 2)
  {
    hide Spells, EqualTexts, KeepsLongest, TokenizeWords;
    var next := after[i := after[i].(words := Some(ls))][i + 1 := after[i + 1].(words := Some(rs))];
    assert LineAnnotated(before, after, similar, i, i) && LineAnnotated(before, after, similar, i, i + 1);
    var upto := i + 2;
    forall t | 0 <= t < |next|
      ensures LineAnnotated(before, next, similar, upto, t)
    {
      assert LineAnnotated(before, after, similar, i, t);
    }
  }

  lemma AnnotatedLine(before: seq<DiffLine>, after: seq<DiffLine>,
          similar: (string, string) -> bool, i: nat, t: nat)
    requires Annotated(before, after, similar, i) && t < |after|
    ensures t < |before| && after[t].kind == before[t].kind && after[t].text == before[t].text
  {
    assert LineAnnotated(before, after, similar, i, t);
  }

  /** The word-level pass, with the similarity test as a parameter. */
  method AnnotateWordChanges(lines: seq<DiffLine>, similar: (string, string) -> bool) returns (out: seq<DiffLine>)
    requires forall t :: 0 <= t < |lines| ==> lines[t].words == None
    ensures Annotated(lines, out, similar, |lines|)
  {
    out := lines;
    var i := 0;
    while i < |out| - 1
      invariant 0 <= i <= |lines| + 1 && |out| == |lines|
      invariant Annotated(lines, out, similar, i)
    {
      hide Spells, EqualTexts, Concat, Annotated, TokenizeWords, KeepsLongest;
      var left := out[i];
      var right := out[i + 1];
      AnnotatedLine(lines, out, similar, i, i);
      AnnotatedLine(lines, out, similar, i, i + 1);
      if left.kind != Delete || right.kind != Insert {
        AnnotatedSkip(lines, out, similar, i);
        i := i + 1;
        continue;
      }
      if i + 2 < |out| {
        AnnotatedLine(lines, out, similar, i, i + 2);
        if out[i + 2].kind == Insert {
          AnnotatedSkip(lines, out, similar, i);
          i := i + 1;
          continue;
        }
      }
      if !similar(left.text, right.text) {
        AnnotatedSkip(lines, out, similar, i);
        i := i + 1;
        continue;
      }
      var leftWords := TokenizeWords(left.text);
      var rightWords := TokenizeWords(right.text);
      TokensKeepText(left.text);
      TokensKeepText(right.text);
      var ls, rs := WordSegments(leftWords, rightWords);
      AnnotatedPair(lines, out, similar, i, ls, rs);
      out := out[i := out[i].(words := Some(ls))];
      out := out[i + 1 := out[i + 1].(words := Some(rs))];
      i := i + 2;
    }
    AnnotatedAll(lines, out, similar, i);
  }

  lemma AnnotatedAll(before: seq<DiffLine>, after: seq<DiffLine>, similar: (string, string) -> bool, i: nat)
    requires Annotated(before, after, similar, i) && i >= |before| - 1
    ensures Annotated(before, after, similar, |before|)
  {
    hide PairShows;
    forall t | 0 <= t < |after|
      ensures LineAnnotated(before, after, similar, |before|, t)
    {
      assert LineAnnotated(before, after, similar, i, t);
    }
  }

  /** After several deletes it is the last one that gets paired with the insert. */
  lemma LastDeleteIsPaired(a: string, b: string, c: string, similar: (string, string) -> bool)
    requires similar(b, c)
    ensures var lines := [DiffLine(Delete, Some(1), None, a, None), DiffLine(Delete, Some(2), None, b, None),
                          DiffLine(Insert, None, Some(1), c, None)];
            Paired(lines, similar, 1) && !Paired(lines, similar, 0)
  {
  }
}
