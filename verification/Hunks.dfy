/** Grouping the lines into unified hunks, and applying the hunks as a patch. */
module Hunks {
  import opened EditGraph
  import opened Diff
  import opened Basics

  // ---------- Building ----------

  /** The defined line numbers of one side. */
  function LeftNumbers(lines: seq<DiffLine>): seq<nat> {
    if lines == [] then [] else (if lines[0].leftNumber.Some? then [lines[0].leftNumber.value] else []) + LeftNumbers(lines[1..])
  }

  function RightNumbers(lines: seq<DiffLine>): seq<nat> {
    if lines == [] then [] else (if lines[0].rightNumber.Some? then [lines[0].rightNumber.value] else []) + RightNumbers(lines[1..])
  }

  /** The hunk of the lines start .. end, both included. */
  function MakeHunk(lines: seq<DiffLine>, start: nat, end: nat): Hunk
    requires start <= end < |lines|
  {
    var slice := lines[start..end + 1];
    var ls, rs := LeftNumbers(slice), RightNumbers(slice);
    Hunk(if ls == [] then 0 else ls[0], |ls|, if rs == [] then 0 else rs[0], |rs|, slice)
  }

  datatype Span = Span(start: nat, end: nat)

  predicate Changed(lines: seq<DiffLine>, i: int) {
    0 <= i < |lines| && lines[i].kind != Equal
  }

  /** Line i is within `context` lines of a changed line. */
  ghost predicate NearChange(lines: seq<DiffLine>, context: nat, i: int) {
    exists c :: Changed(lines, c) && c - context <= i <= c + context
  }

  predicate InSpan(s: Span, i: int) {
    s.start <= i <= s.end
  }

  ghost predicate Covered(spans: seq<Span>, i: int) {
    exists h :: 0 <= h < |spans| && InSpan(spans[h], i)
  }

  /** The spans are in order and at least one uncovered line lies between two of them. */
  ghost predicate Separate(spans: seq<Span>, n: nat) {
    && (forall h :: 0 <= h < |spans| ==> spans[h].start <= spans[h].end < n)
    && (forall h, g :: 0 <= h < g < |spans| ==> spans[h].end + 1 < spans[g].start)
  }

  /** The spans hold exactly the changed lines and the lines within `context` of one. */
  ghost predicate Spanned(lines: seq<DiffLine>, context: nat, spans: seq<Span>) {
    && Separate(spans, |lines|)
    && forall i :: 0 <= i < |lines| ==> (Covered(spans, i) <==> NearChange(lines, context, i))
  }

  /** The indexes kept by the filter, in order. */
  function ChangedIndexes(lines: seq<DiffLine>): (r: seq<nat>)
    ensures forall q :: 0 <= q < |r| ==> Changed(lines, r[q])
    ensures forall q, p :: 0 <= q < p < |r| ==> r[q] < r[p]
    ensures forall c :: Changed(lines, c) ==> c in r
  {
    if lines == [] then []
    else
      var n := |lines| - 1;
      var r := ChangedIndexes(lines[..n]);
      assert forall q :: 0 <= q < |r| ==> Changed(lines[..n], r[q]);
      assert forall c :: 0 <= c < n ==> Changed(lines, c) == Changed(lines[..n], c);
      if lines[n].kind == Equal then r else r + [n]
  }

  predicate Near(c: nat, context: nat, i: int) {
    c - context <= i <= c + context
  }

  ghost predicate NearOne(cs: seq<nat>, context: nat, i: int) {
    exists q :: 0 <= q < |cs| && Near(cs[q], context, i)
  }

  function Before(c: nat, context: nat): nat {
    if c >= context then c - context else 0
  }

  function After(c: nat, context: nat, n: nat): (r: nat)
    requires c < n
    ensures c <= r < n
  {
    if c + context <= n - 1 then c + context else n - 1
  }

  /** After the changed indexes cs: the finished spans and the open one hold exactly what is near one of them. */
  ghost predicate Grouped(cs: seq<nat>, context: nat, n: nat, spans: seq<Span>, start: nat, end: nat) {
    && cs != [] && cs[|cs| - 1] < n && end == After(cs[|cs| - 1], context, n)
    && start <= Before(cs[|cs| - 1], context)
    && Separate(spans + [Span(start, end)], n)
    && forall i :: 0 <= i < n ==> (Covered(spans + [Span(start, end)], i) <==> NearOne(cs, context, i))
  }

  lemma NearOnePush(cs: seq<nat>, c: nat, context: nat, i: int)
    ensures NearOne(cs + [c], context, i) <==> NearOne(cs, context, i) || Near(c, context, i)
  {
    var more := cs + [c];
    if NearOne(cs, context, i) {
      var q :| 0 <= q < |cs| && Near(cs[q], context, i);
      assert Near(more[q], context, i);
    }
    if Near(c, context, i) {
      assert Near(more[|cs|], context, i);
    }
  }

  lemma CoveredPush(spans: seq<Span>, s: Span, i: int)
    ensures Covered(spans + [s], i) <==> Covered(spans, i) || InSpan(s, i)
  {
    var more := spans + [s];
    if Covered(spans, i) {
      var h :| 0 <= h < |spans| && InSpan(spans[h], i);
      assert InSpan(more[h], i);
    }
    if InSpan(s, i) {
      assert InSpan(more[|spans|], i);
    }
  }

  lemma GroupFirst(c: nat, context: nat, n: nat)
    requires c < n
    ensures Grouped([c], context, n, [], Before(c, context), After(c, context, n))
  {
    var s := Span(Before(c, context), After(c, context, n));
    forall i | 0 <= i < n
      ensures Covered([] + [s], i) <==> NearOne([c], context, i)
    {
      CoveredPush([], s, i);
      NearOnePush([], c, context, i);
      assert [] + [c] == [c];
    }
  }

  lemma GroupExtend(cs: seq<nat>, c: nat, context: nat, n: nat, spans: seq<Span>, start: nat, end: nat)
    requires Grouped(cs, context, n, spans, start, end)
    requires cs[|cs| - 1] < c < n && c - context <= end + 1
    ensures Grouped(cs + [c], context, n, spans, start, After(c, context, n))
  {
    var s, t := Span(start, end), Span(start, After(c, context, n));
    assert forall h :: 0 <= h < |spans| ==> (spans + [s])[h] == (spans + [t])[h];
    assert (spans + [s])[|spans|] == s;
    forall i | 0 <= i < n
      ensures Covered(spans + [t], i) <==> NearOne(cs + [c], context, i)
    {
      CoveredPush(spans, s, i);
      CoveredPush(spans, t, i);
      NearOnePush(cs, c, context, i);
      assert Covered(spans + [s], i) <==> NearOne(cs, context, i);
    }
  }

  lemma GroupSplit(cs: seq<nat>, c: nat, context: nat, n: nat, spans: seq<Span>, start: nat, end: nat)
    requires Grouped(cs, context, n, spans, start, end)
    requires cs[|cs| - 1] < c < n && c - context > end + 1
    ensures Grouped(cs + [c], context, n, spans + [Span(start, end)], Before(c, context), After(c, context, n))
  {
    var done := spans + [Span(start, end)];
    var t := Span(Before(c, context), After(c, context, n));
    assert done[|spans|] == Span(start, end);
    forall h, g | 0 <= h < g < |done + [t]|
      ensures (done + [t])[h].end + 1 < (done + [t])[g].start
    {
      if g == |done| && h < |spans| {
        assert done[h].end + 1 < done[|spans|].start;
      }
    }
    forall i | 0 <= i < n
      ensures Covered(done + [t], i) <==> NearOne(cs + [c], context, i)
    {
      CoveredPush(done, t, i);
      NearOnePush(cs, c, context, i);
      assert Covered(done, i) <==> NearOne(cs, context, i);
    }
  }

  lemma GroupsDone(lines: seq<DiffLine>, context: nat, spans: seq<Span>)
    requires Separate(spans, |lines|)
    requires forall i :: 0 <= i < |lines| ==> (Covered(spans, i) <==> NearOne(ChangedIndexes(lines), context, i))
    ensures Spanned(lines, context, spans)
  {
    var cs := ChangedIndexes(lines);
    forall i | 0 <= i < |lines|
      ensures Covered(spans, i) <==> NearChange(lines, context, i)
    {
      if NearChange(lines, context, i) {
        var c :| Changed(lines, c) && c - context <= i <= c + context;
        var q :| 0 <= q < |cs| && cs[q] == c;
        assert Near(cs[q], context, i);
      }
      if NearOne(cs, context, i) {
        var q :| 0 <= q < |cs| && Near(cs[q], context, i);
        assert Changed(lines, cs[q]);
      }
    }
  }

  lemma NoGroups(lines: seq<DiffLine>, context: nat)
    requires ChangedIndexes(lines) == []
    ensures Spanned(lines, context, [])
  {
    GroupsDone(lines, context, []);
  }

  lemma {:induction false} LastGroup(lines: seq<DiffLine>, context: nat, spans: seq<Span>, start: nat, end: nat)
    requires Grouped(ChangedIndexes(lines), context, |lines|, spans, start, end)
    ensures Spanned(lines, context, spans + [Span(start, end)])
  {
    GroupsDone(lines, context, spans + [Span(start, end)]);
  }

  lemma GroupedFacts(cs: seq<nat>, context: nat, n: nat, spans: seq<Span>, start: nat, end: nat)
    requires Grouped(cs, context, n, spans, start, end)
    ensures cs != [] && start <= cs[|cs| - 1] <= end < n
  {
  }

  /** Each hunk is the one of its span. */
  ghost predicate Made(lines: seq<DiffLine>, spans: seq<Span>, hunks: seq<Hunk>) {
    && |hunks| == |spans|
    && forall h :: 0 <= h < |hunks| ==> spans[h].start <= spans[h].end < |lines| && hunks[h] == MakeHunk(lines, spans[h].start, spans[h].end)
  }

  lemma MadePush(lines: seq<DiffLine>, spans: seq<Span>, hunks: seq<Hunk>, start: nat, end: nat)
    requires Made(lines, spans, hunks) && start <= end < |lines|
    ensures Made(lines, spans + [Span(start, end)], hunks + [MakeHunk(lines, start, end)])
  {
  }

  /** The hunks are the maximal stretches of lines within `context` of a change, in order. */
  method BuildHunks(lines: seq<DiffLine>, context: nat) returns (hunks: seq<Hunk>, ghost spans: seq<Span>)
    ensures Spanned(lines, context, spans)
    ensures Made(lines, spans, hunks)
    ensures exists s :: Spanned(lines, context, s) && Made(lines, s, hunks)
  {
    hide MakeHunk, Grouped, ChangedIndexes, Before, After, Separate, Covered, NearOne, Spanned;
    var changedIndexes := ChangedIndexes(lines);
    hunks, spans := [], [];
    if |changedIndexes| == 0 {
      NoGroups(lines, context);
      return;
    }
    var n := |lines|;
    assert Changed(lines, changedIndexes[0]);
    var start: nat := Before(changedIndexes[0], context);
    var end: nat := After(changedIndexes[0], context, n);
    GroupFirst(changedIndexes[0], context, n);
    assert changedIndexes[..1] == [changedIndexes[0]];
    for p := 1 to |changedIndexes|
      invariant Grouped(changedIndexes[..p], context, n, spans, start, end)
      invariant Made(lines, spans, hunks)
    {
      hide Made;
      var index := changedIndexes[p];
      assert Changed(lines, index);
      assert changedIndexes[..p + 1] == changedIndexes[..p] + [index];
      GroupedFacts(changedIndexes[..p], context, n, spans, start, end);
      if index - context <= end + 1 {
        GroupExtend(changedIndexes[..p], index, context, n, spans, start, end);
        end := After(index, context, n);
      } else {
        GroupSplit(changedIndexes[..p], index, context, n, spans, start, end);
        MadePush(lines, spans, hunks, start, end);
        hunks := hunks + [MakeHunk(lines, start, end)];
        spans := spans + [Span(start, end)];
        start := Before(index, context);
        end := After(index, context, n);
      }
    }
    hide Made;
    assert changedIndexes[..|changedIndexes|] == changedIndexes;
    GroupedFacts(changedIndexes, context, n, spans, start, end);
    MadePush(lines, spans, hunks, start, end);
    LastGroup(lines, context, spans, start, end);
    hunks := hunks + [MakeHunk(lines, start, end)];
    spans := spans + [Span(start, end)];
  }

  // ---------- Applying the hunks ----------

  function LeftTexts(lines: seq<DiffLine>): seq<string> {
    if lines == [] then []
    else LeftTexts(lines[..|lines| - 1]) + if OnLeft(lines[|lines| - 1]) then [lines[|lines| - 1].text] else []
  }

  function RightTexts(lines: seq<DiffLine>): seq<string> {
    if lines == [] then []
    else RightTexts(lines[..|lines| - 1]) + if OnRight(lines[|lines| - 1]) then [lines[|lines| - 1].text] else []
  }

  /** Where a hunk applies, as the number of left lines before it: a hunk that removes nothing inserts after line leftStart. */
  function Position(h: Hunk): nat {
    if h.leftCount == 0 || h.leftStart == 0 then h.leftStart else h.leftStart - 1
  }

  /** Applies the hunks to left[from..]: each must come after the previous one and find the left lines it names. */
  function Patched(left: seq<string>, hunks: seq<Hunk>, from: nat): Option<seq<string>>
    decreases |hunks|
  {
    if hunks == [] then
      if from <= |left| then Some(left[from..]) else None
    else
      var h, at := hunks[0], Position(hunks[0]);
      if from <= at && at + h.leftCount <= |left| && left[at..at + h.leftCount] == LeftTexts(h.lines) then
        match Patched(left, hunks[1..], at + h.leftCount)
        case None => None
        case Some(rest) => Some(left[from..at] + RightTexts(h.lines) + rest)
      else
        None
  }

  /** The left half of the header of span s names the place where its lines are. */
  ghost predicate LeftExact(lines: seq<DiffLine>, s: Span, h: Hunk)
    requires s.start <= s.end < |lines|
  {
    Position(h) == LeftCount(lines[..s.start])
  }

  ghost predicate LeftsExact(lines: seq<DiffLine>, spans: seq<Span>, hunks: seq<Hunk>)
    requires Made(lines, spans, hunks)
  {
    forall h :: 0 <= h < |hunks| ==> LeftExact(lines, spans[h], hunks[h])
  }

  lemma {:induction false} TextsAppend(s: seq<DiffLine>, t: seq<DiffLine>)
    ensures LeftTexts(s + t) == LeftTexts(s) + LeftTexts(t)
    ensures RightTexts(s + t) == RightTexts(s) + RightTexts(t)
    decreases |t|
  {
    if t == [] {
      assert s + t == s;
    } else {
      var n := |t| - 1;
      assert (s + t)[..|s + t| - 1] == s + t[..n];
      TextsAppend(s, t[..n]);
    }
  }

  lemma {:induction false} CountIsTexts(s: seq<DiffLine>)
    ensures LeftCount(s) == |LeftTexts(s)|
    ensures RightCount(s) == |RightTexts(s)|
  {
    if s != [] {
      CountIsTexts(s[..|s| - 1]);
    }
  }

  /** The left texts of the first t lines are the first left lines. */
  lemma {:induction false} LeftPrefix(lines: seq<DiffLine>, left: seq<string>, right: seq<string>,
          normalize: string -> string, t: nat)
    requires Shows(lines, left, right, normalize) && t <= |lines|
    ensures LeftCount(lines[..t]) <= |left| && LeftTexts(lines[..t]) == left[..LeftCount(lines[..t])]
    decreases t
  {
    if t > 0 {
      LeftPrefix(lines, left, right, normalize, t - 1);
      assert lines[..t][..t - 1] == lines[..t - 1];
      assert LineShows(lines, left, right, normalize, t - 1);
    }
  }

  /** The left texts of a stretch of lines are a stretch of the left document. */
  lemma LeftStretch(lines: seq<DiffLine>, left: seq<string>, right: seq<string>,
          normalize: string -> string, p: nat, q: nat)
    requires Shows(lines, left, right, normalize) && p <= q <= |lines|
    ensures var l, m := LeftCount(lines[..p]), LeftCount(lines[..q]);
            l <= m <= |left| && LeftTexts(lines[p..q]) == left[l..m] && LeftCount(lines[p..q]) == m - l
  {
    hide Shows, LeftTexts, LeftCount;
    LeftPrefix(lines, left, right, normalize, p);
    LeftPrefix(lines, left, right, normalize, q);
    assert lines[..q] == lines[..p] + lines[p..q];
    TextsAppend(lines[..p], lines[p..q]);
    CountIsTexts(lines[..p]);
    CountIsTexts(lines[p..q]);
    CountIsTexts(lines[..q]);
    var l, m := LeftCount(lines[..p]), LeftCount(lines[..q]);
    assert left[..m] == left[..l] + LeftTexts(lines[p..q]);
    assert left[l..m] == left[..m][l..];
  }

  /** Unchanged lines read the same on both sides. */
  lemma {:induction false} UnchangedTexts(lines: seq<DiffLine>)
    requires forall i :: 0 <= i < |lines| ==> lines[i].kind == Equal
    ensures LeftTexts(lines) == RightTexts(lines)
  {
    if lines != [] {
      UnchangedTexts(lines[..|lines| - 1]);
    }
  }

  /** The line numbers a hunk collects: one for each left line, the first one being the next left line. */
  lemma {:induction false} FirstNumber(lines: seq<DiffLine>, left: seq<string>, right: seq<string>,
          normalize: string -> string, p: nat, q: nat)
    requires Shows(lines, left, right, normalize) && p <= q <= |lines|
    ensures |LeftNumbers(lines[p..q])| == LeftCount(lines[p..q])
    ensures LeftNumbers(lines[p..q]) != [] ==> LeftNumbers(lines[p..q])[0] == LeftCount(lines[..p]) + 1
    decreases q - p
  {
    hide LineShows, Shows, LeftCount, LeftNumbers;
    if p < q {
      var line, rest := lines[p], lines[p + 1..q];
      FirstNumber(lines, left, right, normalize, p + 1, q);
      FirstLine(lines, left, right, normalize, p);
      assert lines[p..q] == [line] + rest;
      assert lines[..p + 1] == lines[..p] + [line];
      CountAppendOne(line, rest);
      CountPush(lines[..p], line);
      NumbersFront(line, rest);
    } else {
      assert lines[p..q] == [];
      NothingNumbered();
    }
  }

  lemma NothingNumbered()
    ensures LeftNumbers([]) == [] && LeftCount([]) == 0
  {
  }

  lemma NumbersFront(line: DiffLine, rest: seq<DiffLine>)
    ensures LeftNumbers([line] + rest) == (if line.leftNumber.Some? then [line.leftNumber.value] else []) + LeftNumbers(rest)
  {
    assert ([line] + rest)[1..] == rest;
  }

  lemma FirstLine(lines: seq<DiffLine>, left: seq<string>, right: seq<string>,
          normalize: string -> string, p: nat)
    requires Shows(lines, left, right, normalize) && p < |lines|
    ensures if OnLeft(lines[p]) then lines[p].leftNumber == Some(LeftCount(lines[..p]) + 1) else lines[p].leftNumber == None
  {
    assert LineShows(lines, left, right, normalize, p);
  }

  lemma CountAppendOne(line: DiffLine, rest: seq<DiffLine>)
    ensures LeftCount([line] + rest) == (if OnLeft(line) then 1 else 0) + LeftCount(rest)
  {
    TextsAppend([line], rest);
    CountIsTexts([line]);
    CountIsTexts(rest);
    CountIsTexts([line] + rest);
    assert [line][..0] == [];
  }

  /** The left half of a header is off exactly when the hunk only inserts and some left line comes before it. */
  lemma LeftExactIff(lines: seq<DiffLine>, left: seq<string>, right: seq<string>,
          normalize: string -> string, s: Span)
    requires Shows(lines, left, right, normalize) && s.start <= s.end < |lines|
    ensures var h := MakeHunk(lines, s.start, s.end);
            && h.leftCount == LeftCount(h.lines)
            && (LeftExact(lines, s, h) <==> h.leftCount > 0 || LeftCount(lines[..s.start]) == 0)
  {
    hide Shows, LeftNumbers, LeftCount, RightNumbers;
    FirstNumber(lines, left, right, normalize, s.start, s.end + 1);
  }

  ghost predicate NothingBetween(lines: seq<DiffLine>, p: nat, q: nat) {
    q <= |lines| && forall i :: p <= i < q ==> lines[i].kind == Equal
  }

  /** The line after the h-th span, from which the rest is patched. */
  function Resume(spans: seq<Span>, h: nat): nat
    requires h <= |spans|
  {
    if h == 0 then 0 else spans[h - 1].end + 1
  }

  lemma GapUnchanged(lines: seq<DiffLine>, context: nat, spans: seq<Span>, h: nat)
    requires Spanned(lines, context, spans) && h <= |spans|
    ensures var p, q := Resume(spans, h), if h < |spans| then spans[h].start else |lines|;
            p <= q && NothingBetween(lines, p, q)
  {
    var p, q := Resume(spans, h), if h < |spans| then spans[h].start else |lines|;
    forall i | p <= i < q
      ensures lines[i].kind == Equal
    {
      forall g | 0 <= g < |spans|
        ensures !InSpan(spans[g], i)
      {
        assert g < h - 1 ==> spans[g].end + 1 < spans[h - 1].start;
        assert g > h ==> spans[h].end + 1 < spans[g].start;
      }
      assert !Covered(spans, i) && !NearChange(lines, context, i);
      assert Changed(lines, i) ==> NearChange(lines, context, i);
    }
  }

  lemma {:induction false} PatchFrom(lines: seq<DiffLine>, left: seq<string>, right: seq<string>,
          normalize: string -> string, context: nat,
                  spans: seq<Span>, hunks: seq<Hunk>, h: nat)
    requires Shows(lines, left, right, normalize) && Spanned(lines, context, spans) && Made(lines, spans, hunks)
    requires h <= |spans| && forall g :: h <= g < |hunks| ==> LeftExact(lines, spans[g], hunks[g])
    ensures Resume(spans, h) <= |lines|
    ensures Patched(left, hunks[h..], LeftCount(lines[..Resume(spans, h)])) == Some(RightTexts(lines[Resume(spans, h)..]))
    decreases |spans| - h
  {
    hide Shows, Spanned, LeftCount, LeftTexts, RightTexts, LeftNumbers, RightNumbers, LeftExact;
    GapUnchanged(lines, context, spans, h);
    var p := Resume(spans, h);
    if h == |spans| {
      LeftStretch(lines, left, right, normalize, p, |lines|);
      WholeLeft(lines, left, right, normalize);
      UnchangedTexts(lines[p..|lines|]);
      assert left[LeftCount(lines[..p])..|left|] == left[LeftCount(lines[..p])..];
      assert lines[p..|lines|] == lines[p..];
    } else {
      var s, e := spans[h].start, spans[h].end + 1;
      PatchFrom(lines, left, right, normalize, context, spans, hunks, h + 1);
      PatchOne(lines, left, right, normalize, p, spans[h], hunks[h..]);
    }
  }

  lemma WholeLeft(lines: seq<DiffLine>, left: seq<string>, right: seq<string>, normalize: string -> string)
    requires Shows(lines, left, right, normalize)
    ensures LeftCount(lines[..|lines|]) == |left|
  {
    assert lines[..|lines|] == lines;
  }

  /** One hunk, after unchanged lines p .. s.start, and before hunks that patch the rest. */
  lemma PatchOne(lines: seq<DiffLine>, left: seq<string>, right: seq<string>,
          normalize: string -> string, p: nat, s: Span, hunks: seq<Hunk>)
    requires Shows(lines, left, right, normalize) && p <= s.start <= s.end < |lines| && NothingBetween(lines, p, s.start)
    requires hunks != [] && hunks[0] == MakeHunk(lines, s.start, s.end) && LeftExact(lines, s, hunks[0])
    requires Patched(left, hunks[1..], LeftCount(lines[..s.end + 1])) == Some(RightTexts(lines[s.end + 1..]))
    ensures Patched(left, hunks, LeftCount(lines[..p])) == Some(RightTexts(lines[p..]))
  {
    hide Shows, LeftCount, LeftTexts, RightTexts, LeftNumbers, RightNumbers;
    var e := s.end + 1;
    LeftStretch(lines, left, right, normalize, p, s.start);
    LeftStretch(lines, left, right, normalize, s.start, e);
    UnchangedTexts(lines[p..s.start]);
    LeftExactIff(lines, left, right, normalize, s);
    assert lines[p..] == lines[p..s.start] + (lines[s.start..e] + lines[e..]);
    TextsAppend(lines[p..s.start], lines[s.start..e] + lines[e..]);
    TextsAppend(lines[s.start..e], lines[e..]);
    var h, from, at := hunks[0], LeftCount(lines[..p]), LeftCount(lines[..s.start]);
    assert h.lines == lines[s.start..e] && Position(h) == at && at + h.leftCount == LeftCount(lines[..e]);
    assert RightTexts(lines[p..]) == left[from..at] + RightTexts(h.lines) + RightTexts(lines[e..]);
  }

  /** The patch theorem: hunks that name the right places turn the left document into the non-delete lines. */
  lemma PatchTheorem(lines: seq<DiffLine>, left: seq<string>, right: seq<string>,
          normalize: string -> string, context: nat,
                     spans: seq<Span>, hunks: seq<Hunk>)
    requires Shows(lines, left, right, normalize) && Spanned(lines, context, spans) && Made(lines, spans, hunks)
    requires LeftsExact(lines, spans, hunks)
    ensures Patched(left, hunks, 0) == Some(RightTexts(lines))
  {
    PatchFrom(lines, left, right, normalize, context, spans, hunks, 0);
    assert hunks[0..] == hunks && lines[0..] == lines && lines[..0] == [];
  }

  /** The non-delete lines are the right document, up to the normalisation. */
  lemma {:induction false} RightPrefix(lines: seq<DiffLine>, left: seq<string>, right: seq<string>,
          normalize: string -> string, t: nat)
    requires Shows(lines, left, right, normalize) && t <= |lines|
    ensures |RightTexts(lines[..t])| == RightCount(lines[..t]) <= |right|
    ensures Normalized(RightTexts(lines[..t]), normalize) == Normalized(right[..RightCount(lines[..t])], normalize)
    decreases t
  {
    hide LeftCount, LeftTexts;
    CountIsTexts(lines[..t]);
    if t > 0 {
      RightPrefix(lines, left, right, normalize, t - 1);
      assert lines[..t][..t - 1] == lines[..t - 1];
      assert LineShows(lines, left, right, normalize, t - 1);
      var r := RightCount(lines[..t - 1]);
      if OnRight(lines[t - 1]) {
        assert right[..r + 1] == right[..r] + [right[r]];
      }
    }
  }

  // ---------- When the left halves of the headers are exact ----------

  /** t .. e is a maximal run of changed lines. */
  ghost predicate ChangedRun(lines: seq<DiffLine>, t: nat, e: nat) {
    && t <= e < |lines| && (forall u :: t <= u <= e ==> Changed(lines, u))
    && !Changed(lines, t - 1) && !Changed(lines, e + 1)
  }

  /** Every maximal run of changed lines that comes after an unchanged line removes something. */
  ghost predicate NoBareInsertion(lines: seq<DiffLine>) {
    forall t, e :: t > 0 && ChangedRun(lines, t, e) ==> LeftCount(lines[t..e + 1]) > 0
  }

  lemma {:induction false} InsertsOnly(lines: seq<DiffLine>)
    ensures LeftCount(lines) == 0 <==> forall i :: 0 <= i < |lines| ==> lines[i].kind == Insert
  {
    if lines != [] {
      InsertsOnly(lines[..|lines| - 1]);
    }
  }

  /** The line before a span and the line after it are not in any span. */
  lemma SpanEdges(lines: seq<DiffLine>, context: nat, spans: seq<Span>, h: nat)
    requires Spanned(lines, context, spans) && h < |spans|
    ensures spans[h].start > 0 ==> !NearChange(lines, context, spans[h].start - 1)
    ensures spans[h].end + 1 < |lines| ==> !NearChange(lines, context, spans[h].end + 1)
    ensures forall i :: spans[h].start <= i <= spans[h].end ==> NearChange(lines, context, i)
  {
    hide NearChange;
    forall g | 0 <= g < |spans|
      ensures !InSpan(spans[g], spans[h].start - 1) && !InSpan(spans[g], spans[h].end + 1)
    {
      assert g < h ==> spans[g].end + 1 < spans[h].start;
      assert g > h ==> spans[h].end + 1 < spans[g].start;
    }
    forall i | spans[h].start <= i <= spans[h].end
      ensures NearChange(lines, context, i)
    {
      assert InSpan(spans[h], i);
      assert Covered(spans, i);
    }
    assert spans[h].start > 0 ==> !Covered(spans, spans[h].start - 1);
    assert !Covered(spans, spans[h].end + 1);
  }

  /** With context, a hunk without left lines can only be the first lines of all. */
  lemma ContextKeepsHeaders(lines: seq<DiffLine>, context: nat, spans: seq<Span>, h: nat)
    requires context >= 1 && Spanned(lines, context, spans) && h < |spans|
    ensures spans[h].start <= spans[h].end < |lines|
    ensures LeftCount(lines[spans[h].start..spans[h].end + 1]) > 0 || spans[h].start == 0
  {
    hide Spanned, NearChange;
    SpanBounds(lines, context, spans, h);
    var s := spans[h];
    var inside := lines[s.start..s.end + 1];
    InsertsOnly(inside);
    if s.start > 0 {
      SpanEdges(lines, context, spans, h);
      if Changed(lines, s.start) {
        NextToChange(lines, context, s.start);
        assert false;
      }
      assert inside[0] == lines[s.start];
    }
  }

  lemma NextToChange(lines: seq<DiffLine>, context: nat, i: nat)
    requires context >= 1 && Changed(lines, i)
    ensures NearChange(lines, context, i - 1)
  {
    assert i - context <= i - 1 <= i + context;
  }

  lemma SpanBounds(lines: seq<DiffLine>, context: nat, spans: seq<Span>, h: nat)
    requires Spanned(lines, context, spans) && h < |spans|
    ensures spans[h].start <= spans[h].end < |lines|
  {
  }

  lemma NearWithoutContext(lines: seq<DiffLine>, i: int)
    ensures NearChange(lines, 0, i) <==> Changed(lines, i)
  {
    assert Changed(lines, i) ==> i - 0 <= i <= i + 0;
  }

  /** Without context the spans are the maximal runs of changed lines. */
  lemma SpanIsRun(lines: seq<DiffLine>, spans: seq<Span>, h: nat)
    requires Spanned(lines, 0, spans) && h < |spans|
    ensures ChangedRun(lines, spans[h].start, spans[h].end)
  {
    hide Spanned, NearChange;
    SpanBounds(lines, 0, spans, h);
    SpanEdges(lines, 0, spans, h);
    var s := spans[h];
    NearWithoutContext(lines, s.start - 1);
    NearWithoutContext(lines, s.end + 1);
    forall i | s.start <= i <= s.end
      ensures Changed(lines, i)
    {
      NearWithoutContext(lines, i);
    }
  }

  lemma RunIsSpan(lines: seq<DiffLine>, spans: seq<Span>, t: nat, e: nat) returns (h: nat)
    requires Spanned(lines, 0, spans) && ChangedRun(lines, t, e)
    ensures h < |spans| && spans[h] == Span(t, e)
  {
    NearWithoutContext(lines, t);
    assert Covered(spans, t);
    var g :| 0 <= g < |spans| && InSpan(spans[g], t);
    h := g;
    SpanIsRun(lines, spans, h);
    var s := spans[h];
    assert s.start < t ==> Changed(lines, t - 1);
    assert s.end > e ==> Changed(lines, e + 1);
    assert s.end < e ==> Changed(lines, s.end + 1);
  }

  /** The left halves are exact when there is context to anchor them, or nothing is only inserted after an unchanged
      line, and not otherwise. */
  lemma LeftsExactIff(lines: seq<DiffLine>, left: seq<string>, right: seq<string>,
          normalize: string -> string, context: nat,
                        spans: seq<Span>, hunks: seq<Hunk>)
    requires Shows(lines, left, right, normalize) && Spanned(lines, context, spans) && Made(lines, spans, hunks)
    ensures LeftsExact(lines, spans, hunks) <==> context >= 1 || NoBareInsertion(lines)
  {
    hide Shows, Spanned, LeftCount, LeftExact, Patched;
    forall h | 0 <= h < |hunks|
      ensures LeftExact(lines, spans[h], hunks[h]) <==>
                LeftCount(lines[spans[h].start..spans[h].end + 1]) > 0 || LeftCount(lines[..spans[h].start]) == 0
    {
      LeftExactIff(lines, left, right, normalize, spans[h]);
    }
    InsertsOnly([]);
    if context >= 1 {
      forall h | 0 <= h < |hunks|
        ensures LeftExact(lines, spans[h], hunks[h])
      {
        ContextKeepsHeaders(lines, context, spans, h);
        assert lines[..0] == [];
      }
    } else {
      if NoBareInsertion(lines) {
        forall h | 0 <= h < |hunks|
          ensures LeftExact(lines, spans[h], hunks[h])
        {
          SpanIsRun(lines, spans, h);
          assert lines[..0] == [];
        }
      }
      if LeftsExact(lines, spans, hunks) {
        forall t: nat, e: nat | t > 0 && ChangedRun(lines, t, e)
          ensures e < |lines| && LeftCount(lines[t..e + 1]) > 0
        {
          var h := RunIsSpan(lines, spans, t, e);
          RunBounds(lines, t, e);
          assert LeftExact(lines, spans[h], hunks[h]);
          InsertsOnly(lines[..t]);
          assert lines[..t][t - 1].kind == Equal;
        }
      }
    }
  }

  lemma RunBounds(lines: seq<DiffLine>, t: nat, e: nat)
    requires ChangedRun(lines, t, e)
    ensures t <= e < |lines| && (t > 0 ==> lines[t - 1].kind == Equal)
  {
  }

  // ---------- When the patch is right ----------

  /** The texts of the lines only the right document has. */
  function InsertedTexts(lines: seq<DiffLine>): seq<string> {
    if lines == [] then []
    else
      var n := |lines| - 1;
      InsertedTexts(lines[..n]) + if lines[n].kind == Insert then [lines[n].text] else []
  }

  predicate OnlyInserts(lines: seq<DiffLine>, s: Span)
    requires s.start <= s.end < |lines|
  {
    LeftCount(lines[s.start..s.end + 1]) == 0
  }

  /** Span s only inserts, behind a line of the left document: its header names place 0 instead. */
  predicate Bare(lines: seq<DiffLine>, s: Span)
    requires s.start <= s.end < |lines|
  {
    OnlyInserts(lines, s) && LeftCount(lines[..s.start]) > 0
  }

  ghost predicate LastBare(lines: seq<DiffLine>, spans: seq<Span>, last: int)
    requires Separate(spans, |lines|)
  {
    0 <= last < |spans| && Bare(lines, spans[last]) && forall h :: last < h < |spans| ==> !Bare(lines, spans[h])
  }

  /** If some span is bare, then up to the last such span nothing is removed, and putting all the inserted lines in
      front of the left ones makes no difference. */
  ghost predicate PatchesRight(lines: seq<DiffLine>, spans: seq<Span>)
    requires Separate(spans, |lines|)
  {
    forall last :: LastBare(lines, spans, last) ==>
                     var front := lines[..spans[last].end + 1];
                     && (forall h :: 0 <= h < last ==> OnlyInserts(lines, spans[h]))
                     && InsertedTexts(front) + LeftTexts(front) == RightTexts(front)
  }

  /** Behind the first line no hunk applies that names place 0. */
  lemma {:induction false} TooLate(left: seq<string>, hunks: seq<Hunk>, from: nat, k: nat)
    requires from > 0 && k < |hunks| && Position(hunks[k]) == 0
    ensures Patched(left, hunks, from) == None
    decreases k
  {
    hide LeftTexts, RightTexts;
    if k > 0 {
      var h := hunks[0];
      if from <= Position(h) {
        assert hunks[1..][k - 1] == hunks[k];
        TooLate(left, hunks[1..], Position(h) + h.leftCount, k - 1);
      }
    }
  }

  /** No hunk that removes lines can come before one that names place 0. */
  lemma {:induction false} NothingRemovedBefore(left: seq<string>, hunks: seq<Hunk>, from: nat, h: nat, k: nat)
    requires h < k < |hunks| && hunks[h].leftCount > 0 && Position(hunks[k]) == 0
    ensures Patched(left, hunks, from) == None
    decreases h
  {
    hide LeftTexts, RightTexts;
    var at := Position(hunks[0]);
    assert hunks[1..][k - 1] == hunks[k];
    if h == 0 {
      TooLate(left, hunks[1..], at + hunks[0].leftCount, k - 1);
    } else {
      assert hunks[1..][h - 1] == hunks[h];
      NothingRemovedBefore(left, hunks[1..], at + hunks[0].leftCount, h - 1, k - 1);
    }
  }

  /** Patching from an earlier line on keeps the lines between. */
  lemma PatchEarlier(left: seq<string>, hunks: seq<Hunk>, earlier: nat, from: nat, patched: seq<string>)
    requires earlier <= from <= |left| && Patched(left, hunks, from) == Some(patched)
    ensures Patched(left, hunks, earlier) == Some(left[earlier..from] + patched)
  {
    hide LeftTexts, RightTexts;
    if hunks == [] {
      assert left[earlier..] == left[earlier..from] + left[from..];
    } else {
      var h, at := hunks[0], Position(hunks[0]);
      var rest := Patched(left, hunks[1..], at + h.leftCount).value;
      assert left[earlier..at] == left[earlier..from] + left[from..at];
      assert left[earlier..at] + RightTexts(h.lines) + rest == left[earlier..from] + (left[from..at] + RightTexts(h.lines) + rest);
    }
  }

  lemma {:induction false} InsertedAppend(s: seq<DiffLine>, t: seq<DiffLine>)
    ensures InsertedTexts(s + t) == InsertedTexts(s) + InsertedTexts(t)
    decreases |t|
  {
    if t == [] {
      assert s + t == s;
    } else {
      var n := |t| - 1;
      assert (s + t)[..|s + t| - 1] == s + t[..n];
      InsertedAppend(s, t[..n]);
    }
  }

  lemma {:induction false} NothingInserted(lines: seq<DiffLine>)
    requires forall i :: 0 <= i < |lines| ==> lines[i].kind == Equal
    ensures InsertedTexts(lines) == []
  {
    if lines != [] {
      NothingInserted(lines[..|lines| - 1]);
    }
  }

  lemma {:induction false} AllInserted(lines: seq<DiffLine>)
    requires LeftCount(lines) == 0
    ensures InsertedTexts(lines) == RightTexts(lines) && LeftTexts(lines) == []
  {
    if lines != [] {
      AllInserted(lines[..|lines| - 1]);
    }
  }

  /** The hunk of a span that only inserts names place 0 and puts its inserted lines there. */
  lemma InsertHunk(lines: seq<DiffLine>, left: seq<string>, right: seq<string>,
          normalize: string -> string, s: Span)
    requires Shows(lines, left, right, normalize) && s.start <= s.end < |lines|
    ensures var h := MakeHunk(lines, s.start, s.end);
            && (h.leftCount == 0 <==> OnlyInserts(lines, s))
            && (OnlyInserts(lines, s) ==>
                  Position(h) == 0 && LeftTexts(h.lines) == [] && RightTexts(h.lines) == InsertedTexts(h.lines))
  {
    hide Shows, LeftNumbers, LeftCount, RightNumbers, LeftTexts, RightTexts, InsertedTexts;
    FirstNumber(lines, left, right, normalize, s.start, s.end + 1);
    if OnlyInserts(lines, s) {
      AllInserted(lines[s.start..s.end + 1]);
    }
  }

  /** Hunks that only insert all put their lines in front of the left document, one behind the other. */
  lemma {:induction false} PiledUp(lines: seq<DiffLine>, left: seq<string>, right: seq<string>,
          normalize: string -> string, context: nat, spans: seq<Span>, hunks: seq<Hunk>, k: nat, last: nat, rest: seq<string>)
    requires Shows(lines, left, right, normalize) && Spanned(lines, context, spans) && Made(lines, spans, hunks)
    requires k <= last < |spans| && forall h :: k <= h <= last ==> OnlyInserts(lines, spans[h])
    requires Patched(left, hunks[last + 1..], 0) == Some(rest)
    ensures Resume(spans, k) <= Resume(spans, last + 1) <= |lines|
    ensures Patched(left, hunks[k..], 0) == Some(InsertedTexts(lines[Resume(spans, k)..Resume(spans, last + 1)]) + rest)
    decreases last - k
  {
    hide Shows, Spanned, MakeHunk, OnlyInserts, InsertedTexts, LeftTexts, RightTexts, Position, Patched;
    var p, e, q := Resume(spans, k), spans[k].end + 1, Resume(spans, last + 1);
    SpanInserts(lines, left, right, normalize, context, spans, hunks, k);
    var inserted := InsertedTexts(lines[p..e]);
    assert hunks[k..][1..] == hunks[k + 1..];
    if k == last {
      PileOne(left, hunks[k..], inserted, rest);
    } else {
      PiledUp(lines, left, right, normalize, context, spans, hunks, k + 1, last, rest);
      PileOne(left, hunks[k..], inserted, InsertedTexts(lines[e..q]) + rest);
      InsertedAppend(lines[p..e], lines[e..q]);
      assert lines[p..q] == lines[p..e] + lines[e..q];
      assert inserted + (InsertedTexts(lines[e..q]) + rest) == InsertedTexts(lines[p..q]) + rest;
    }
  }

  /** A hunk that only inserts puts at place 0 what is inserted since the hunk before it. */
  lemma SpanInserts(lines: seq<DiffLine>, left: seq<string>, right: seq<string>,
          normalize: string -> string, context: nat, spans: seq<Span>, hunks: seq<Hunk>, k: nat)
    requires Shows(lines, left, right, normalize) && Spanned(lines, context, spans) && Made(lines, spans, hunks)
    requires k < |spans| && OnlyInserts(lines, spans[k])
    ensures Resume(spans, k) <= Resume(spans, k + 1) <= |lines| && hunks[k].leftCount == 0 == Position(hunks[k])
    ensures LeftTexts(hunks[k].lines) == []
    ensures RightTexts(hunks[k].lines) == InsertedTexts(lines[Resume(spans, k)..Resume(spans, k + 1)])
  {
    hide Shows, Spanned, MakeHunk, OnlyInserts, InsertedTexts, LeftTexts, RightTexts, Position;
    var p, s, e := Resume(spans, k), spans[k].start, spans[k].end + 1;
    GapUnchanged(lines, context, spans, k);
    NothingInserted(lines[p..s]);
    InsertHunk(lines, left, right, normalize, spans[k]);
    HunkLines(lines, s, spans[k].end);
    InsertedAppend(lines[p..s], lines[s..e]);
    assert lines[p..e] == lines[p..s] + lines[s..e];
    assert [] + InsertedTexts(lines[s..e]) == InsertedTexts(lines[s..e]);
  }

  lemma HunkLines(lines: seq<DiffLine>, start: nat, end: nat)
    requires start <= end < |lines|
    ensures MakeHunk(lines, start, end).lines == lines[start..end + 1]
  {
  }

  lemma PileOne(left: seq<string>, hunks: seq<Hunk>, inserted: seq<string>, rest: seq<string>)
    requires hunks != [] && Position(hunks[0]) == 0 && hunks[0].leftCount == 0
    requires LeftTexts(hunks[0].lines) == [] && RightTexts(hunks[0].lines) == inserted
    requires Patched(left, hunks[1..], 0) == Some(rest)
    ensures Patched(left, hunks, 0) == Some(inserted + rest)
  {
    var none := left[0..0];
    assert none == [] && none + inserted + rest == inserted + rest;
  }

  /** The last bare span decides. */
  lemma PatchedAtLast(lines: seq<DiffLine>, left: seq<string>, right: seq<string>,
          normalize: string -> string, context: nat, spans: seq<Span>, hunks: seq<Hunk>, last: nat)
    requires Shows(lines, left, right, normalize) && Spanned(lines, context, spans) && Made(lines, spans, hunks)
    requires LastBare(lines, spans, last)
    ensures var front := lines[..spans[last].end + 1];
            Patched(left, hunks, 0) == Some(RightTexts(lines)) <==>
              && (forall h :: 0 <= h < last ==> OnlyInserts(lines, spans[h]))
              && InsertedTexts(front) + LeftTexts(front) == RightTexts(front)
  {
    hide Shows, Covered, MakeHunk, OnlyInserts, InsertedTexts, LeftTexts, RightTexts, LeftCount, Position, Patched, LeftExact;
    var e := spans[last].end + 1;
    var front := lines[..e];
    InsertHunk(lines, left, right, normalize, spans[last]);
    if h :| 0 <= h < last && !OnlyInserts(lines, spans[h]) {
      InsertHunk(lines, left, right, normalize, spans[h]);
      NothingRemovedBefore(left, hunks, 0, h, last);
    } else {
      ExactBehind(lines, left, right, normalize, spans, hunks, last);
      PatchFrom(lines, left, right, normalize, context, spans, hunks, last + 1);
      LeftPrefix(lines, left, right, normalize, e);
      PatchEarlier(left, hunks[last + 1..], 0, LeftCount(front), RightTexts(lines[e..]));
      var rest := LeftTexts(front) + RightTexts(lines[e..]);
      assert left[0..LeftCount(front)] == LeftTexts(front);
      PiledUp(lines, left, right, normalize, context, spans, hunks, 0, last, rest);
      assert hunks[0..] == hunks && lines[0..e] == front;
      TextsAppend(front, lines[e..]);
      assert lines == front + lines[e..];
      SameTail(InsertedTexts(front) + LeftTexts(front), RightTexts(front), RightTexts(lines[e..]));
      assert InsertedTexts(front) + rest == InsertedTexts(front) + LeftTexts(front) + RightTexts(lines[e..]);
    }
  }

  lemma SameTail(x: seq<string>, y: seq<string>, tail: seq<string>)
    ensures x + tail == y + tail <==> x == y
  {
    if x + tail == y + tail {
      assert x == (x + tail)[..|x|] && y == (y + tail)[..|y|];
    }
  }

  lemma ExactBehind(lines: seq<DiffLine>, left: seq<string>, right: seq<string>,
          normalize: string -> string, spans: seq<Span>, hunks: seq<Hunk>, last: int)
    requires Shows(lines, left, right, normalize) && Separate(spans, |lines|) && Made(lines, spans, hunks)
    requires -1 <= last && forall h :: last < h < |spans| ==> !Bare(lines, spans[h])
    ensures forall h :: last < h < |hunks| ==> LeftExact(lines, spans[h], hunks[h])
  {
    hide Shows, LeftCount, MakeHunk, LeftExact;
    forall h | last < h < |hunks|
      ensures LeftExact(lines, spans[h], hunks[h])
    {
      LeftExactIff(lines, left, right, normalize, spans[h]);
      HunkLines(lines, spans[h].start, spans[h].end);
      assert !Bare(lines, spans[h]);
    }
  }

  lemma {:induction false} FindLastBare(lines: seq<DiffLine>, spans: seq<Span>, h: nat) returns (last: int)
    requires Separate(spans, |lines|) && h <= |spans|
    requires forall g :: h <= g < |spans| ==> !Bare(lines, spans[g])
    ensures last == -1 || LastBare(lines, spans, last)
    ensures last == -1 ==> forall g :: 0 <= g < |spans| ==> !Bare(lines, spans[g])
  {
    hide Bare;
    if h == 0 {
      last := -1;
    } else if Bare(lines, spans[h - 1]) {
      last := h - 1;
    } else {
      last := FindLastBare(lines, spans, h - 1);
    }
  }

  /** The patch theorem, exactly: for any context, the hunks turn the left document into the non-delete lines if and
      only if no span is bare, or up to the last bare one nothing is removed and the inserted lines may as well stand
      in front. */
  lemma PatchedIff(lines: seq<DiffLine>, left: seq<string>, right: seq<string>,
          normalize: string -> string, context: nat, spans: seq<Span>, hunks: seq<Hunk>)
    requires Shows(lines, left, right, normalize) && Spanned(lines, context, spans) && Made(lines, spans, hunks)
    ensures Patched(left, hunks, 0) == Some(RightTexts(lines)) <==> PatchesRight(lines, spans)
  {
    hide Shows, Bare, OnlyInserts, InsertedTexts, LeftTexts, RightTexts, Patched, LeftExact, Covered;
    forall last | LastBare(lines, spans, last)
      ensures var front := lines[..spans[last].end + 1];
              Patched(left, hunks, 0) == Some(RightTexts(lines)) <==>
                && (forall h :: 0 <= h < last ==> OnlyInserts(lines, spans[h]))
                && InsertedTexts(front) + LeftTexts(front) == RightTexts(front)
    {
      PatchedAtLast(lines, left, right, normalize, context, spans, hunks, last);
    }
    var last := FindLastBare(lines, spans, |spans|);
    if last == -1 {
      ExactBehind(lines, left, right, normalize, spans, hunks, -1);
      PatchTheorem(lines, left, right, normalize, context, spans, hunks);
      assert !exists l :: LastBare(lines, spans, l);
    }
  }

  // ---------- The diff read backwards ----------

  function MirroredLine(line: DiffLine): DiffLine {
    var kind := match line.kind case Equal => Equal case Insert => Delete case Delete => Insert;
    DiffLine(kind, line.rightNumber, line.leftNumber, line.text, line.words)
  }

  /** The same lines as a diff from the right document to the left one. */
  function Mirrored(lines: seq<DiffLine>): (r: seq<DiffLine>)
    ensures |r| == |lines| && forall i :: 0 <= i < |r| ==> r[i] == MirroredLine(lines[i])
  {
    seq(|lines|, i requires 0 <= i < |lines| => MirroredLine(lines[i]))
  }

  /** A hunk with its two sides exchanged, and all hunks of a diff so: the patch applied backwards. */
  function MirroredHunk(h: Hunk): Hunk {
    Hunk(h.rightStart, h.rightCount, h.leftStart, h.leftCount, Mirrored(h.lines))
  }

  function Backwards(hunks: seq<Hunk>): (r: seq<Hunk>)
    ensures |r| == |hunks| && forall h :: 0 <= h < |r| ==> r[h] == MirroredHunk(hunks[h])
  {
    seq(|hunks|, h requires 0 <= h < |hunks| => MirroredHunk(hunks[h]))
  }

  lemma {:induction false} MirroredCounts(lines: seq<DiffLine>)
    ensures LeftCount(Mirrored(lines)) == RightCount(lines) && RightCount(Mirrored(lines)) == LeftCount(lines)
    ensures LeftTexts(Mirrored(lines)) == RightTexts(lines) && RightTexts(Mirrored(lines)) == LeftTexts(lines)
  {
    if lines != [] {
      var n := |lines| - 1;
      MirroredCounts(lines[..n]);
      assert Mirrored(lines)[..n] == Mirrored(lines[..n]);
    }
  }

  lemma {:induction false} MirroredNumbers(lines: seq<DiffLine>)
    ensures LeftNumbers(Mirrored(lines)) == RightNumbers(lines) && RightNumbers(Mirrored(lines)) == LeftNumbers(lines)
  {
    if lines != [] {
      MirroredNumbers(lines[1..]);
      assert Mirrored(lines)[1..] == Mirrored(lines[1..]);
    }
  }

  lemma MirroredMake(lines: seq<DiffLine>, start: nat, end: nat)
    requires start <= end < |lines|
    ensures MakeHunk(Mirrored(lines), start, end) == MirroredHunk(MakeHunk(lines, start, end))
  {
    MirroredNumbers(lines[start..end + 1]);
    assert Mirrored(lines)[start..end + 1] == Mirrored(lines[start..end + 1]);
  }

  lemma MirroredMade(lines: seq<DiffLine>, spans: seq<Span>, hunks: seq<Hunk>)
    requires Made(lines, spans, hunks)
    ensures Made(Mirrored(lines), spans, Backwards(hunks))
  {
    hide MakeHunk, MirroredHunk;
    forall h | 0 <= h < |hunks|
      ensures Backwards(hunks)[h] == MakeHunk(Mirrored(lines), spans[h].start, spans[h].end)
    {
      MirroredMake(lines, spans[h].start, spans[h].end);
    }
  }

  lemma MirroredSpanned(lines: seq<DiffLine>, context: nat, spans: seq<Span>)
    requires Spanned(lines, context, spans)
    ensures Spanned(Mirrored(lines), context, spans)
  {
    hide Covered, Separate;
    forall i | 0 <= i < |lines|
      ensures NearChange(Mirrored(lines), context, i) <==> NearChange(lines, context, i)
    {
      assert forall c :: Changed(Mirrored(lines), c) <==> Changed(lines, c);
    }
  }

  /** Backwards, the lines lead from the non-delete lines to the left document, with nothing to normalise. */
  lemma MirroredShows(lines: seq<DiffLine>, left: seq<string>, right: seq<string>,
          normalize: string -> string)
    requires Shows(lines, left, right, normalize)
    ensures Shows(Mirrored(lines), RightTexts(lines), left, Plain)
  {
    hide LeftCount, RightCount, LeftTexts, RightTexts, LineShows;
    MirroredCounts(lines);
    CountIsTexts(lines);
    forall t | 0 <= t < |lines|
      ensures LineShows(Mirrored(lines), RightTexts(lines), left, Plain, t)
    {
      assert LineShows(lines, left, right, normalize, t);
      MirroredLineShows(lines, left, right, normalize, t);
    }
  }

  lemma MirroredPrefix(lines: seq<DiffLine>, t: nat)
    requires t <= |lines|
    ensures Mirrored(lines)[..t] == Mirrored(lines[..t])
  {
  }

  lemma MirroredLineShows(lines: seq<DiffLine>, left: seq<string>, right: seq<string>,
          normalize: string -> string, t: nat)
    requires t < |lines| && LineShows(lines, left, right, normalize, t)
    ensures LineShows(Mirrored(lines), RightTexts(lines), left, Plain, t)
  {
    hide LeftCount, RightCount, LeftTexts, RightTexts, Mirrored;
    MirroredPrefix(lines, t);
    MirroredCounts(lines[..t]);
    if OnRight(lines[t]) {
      RightTextAt(lines, t);
    }
  }

  /** A line of the right side stands in the right texts behind those of the lines before it. */
  lemma RightTextAt(lines: seq<DiffLine>, t: nat)
    requires t < |lines| && OnRight(lines[t])
    ensures RightCount(lines[..t]) < |RightTexts(lines)| && RightTexts(lines)[RightCount(lines[..t])] == lines[t].text
  {
    hide LeftCount, RightCount, LeftTexts, RightTexts;
    assert lines == lines[..t] + ([lines[t]] + lines[t + 1..]);
    TextsAppend(lines[..t], [lines[t]] + lines[t + 1..]);
    TextsAppend([lines[t]], lines[t + 1..]);
    TextsOfOne(lines[t]);
    CountIsTexts(lines[..t]);
  }

  /** Every maximal run of changed lines that comes after an unchanged line adds something. */
  ghost predicate NoBareDeletion(lines: seq<DiffLine>) {
    forall t, e :: t > 0 && ChangedRun(lines, t, e) ==> RightCount(lines[t..e + 1]) > 0
  }

  lemma MirroredBare(lines: seq<DiffLine>)
    ensures NoBareInsertion(Mirrored(lines)) <==> NoBareDeletion(lines)
  {
    hide LeftCount, RightCount;
    forall t: nat, e: nat
      ensures ChangedRun(Mirrored(lines), t, e) <==> ChangedRun(lines, t, e)
      ensures ChangedRun(lines, t, e) ==> LeftCount(Mirrored(lines)[t..e + 1]) == RightCount(lines[t..e + 1])
    {
      assert forall u :: Changed(Mirrored(lines), u) <==> Changed(lines, u);
      if ChangedRun(lines, t, e) {
        assert Mirrored(lines)[t..e + 1] == Mirrored(lines[t..e + 1]);
        MirroredCounts(lines[t..e + 1]);
      }
    }
  }

  // ---------- When the headers are exact ----------

  /** Where the right half of a header says the hunk is, as the number of right lines before it. */
  function RightPosition(h: Hunk): nat {
    if h.rightCount == 0 || h.rightStart == 0 then h.rightStart else h.rightStart - 1
  }

  /** Both halves of the header name the place where the lines of span s are. */
  ghost predicate HeaderExact(lines: seq<DiffLine>, s: Span, h: Hunk)
    requires s.start <= s.end < |lines|
  {
    && Position(h) == LeftCount(lines[..s.start]) && h.leftCount == LeftCount(h.lines)
    && RightPosition(h) == RightCount(lines[..s.start]) && h.rightCount == RightCount(h.lines)
  }

  ghost predicate HeadersExact(lines: seq<DiffLine>, spans: seq<Span>, hunks: seq<Hunk>)
    requires Made(lines, spans, hunks)
  {
    forall h :: 0 <= h < |hunks| ==> HeaderExact(lines, spans[h], hunks[h])
  }

  /** A header is off exactly when its hunk only inserts behind a left line, or only deletes behind a right line. */
  lemma HeaderExactIff(lines: seq<DiffLine>, left: seq<string>, right: seq<string>,
          normalize: string -> string, s: Span)
    requires Shows(lines, left, right, normalize) && s.start <= s.end < |lines|
    ensures var h := MakeHunk(lines, s.start, s.end);
            HeaderExact(lines, s, h) <==>
              && (h.leftCount > 0 || LeftCount(lines[..s.start]) == 0)
              && (h.rightCount > 0 || RightCount(lines[..s.start]) == 0)
  {
    hide Shows, LeftCount, RightCount, MakeHunk, Position, RightPosition;
    var h := MakeHunk(lines, s.start, s.end);
    LeftExactIff(lines, left, right, normalize, s);
    MirroredShows(lines, left, right, normalize);
    MirroredMake(lines, s.start, s.end);
    LeftExactIff(Mirrored(lines), RightTexts(lines), left, Plain, s);
    MirroredHalf(lines, s, h);
    MirroredCounts(h.lines);
  }

  /** The right half of a header is the left half of the mirrored one. */
  lemma MirroredHalf(lines: seq<DiffLine>, s: Span, h: Hunk)
    requires s.start <= s.end < |lines|
    ensures Position(MirroredHunk(h)) == RightPosition(h)
    ensures LeftExact(Mirrored(lines), s, MirroredHunk(h)) <==> RightPosition(h) == RightCount(lines[..s.start])
    ensures LeftCount(Mirrored(lines)[..s.start]) == RightCount(lines[..s.start])
  {
    assert Mirrored(lines)[..s.start] == Mirrored(lines[..s.start]);
    MirroredCounts(lines[..s.start]);
  }

  /** The headers are exact in both halves if and only if there is context to anchor them, or behind an unchanged line
      nothing is only inserted and nothing is only deleted. */
  lemma HeadersExactIff(lines: seq<DiffLine>, left: seq<string>, right: seq<string>,
          normalize: string -> string, context: nat, spans: seq<Span>, hunks: seq<Hunk>)
    requires Shows(lines, left, right, normalize) && Spanned(lines, context, spans) && Made(lines, spans, hunks)
    ensures HeadersExact(lines, spans, hunks) <==> context >= 1 || (NoBareInsertion(lines) && NoBareDeletion(lines))
  {
    hide Shows, Spanned, Made, LeftExact, HeaderExact;
    MirroredShows(lines, left, right, normalize);
    MirroredMade(lines, spans, hunks);
    MirroredSpanned(lines, context, spans);
    MirroredBare(lines);
    LeftsExactIff(lines, left, right, normalize, context, spans, hunks);
    LeftsExactIff(Mirrored(lines), RightTexts(lines), left, Plain, context, spans, Backwards(hunks));
    HalvesMakeHeaders(lines, left, right, normalize, spans, hunks);
  }

  lemma HalvesMakeHeaders(lines: seq<DiffLine>, left: seq<string>, right: seq<string>,
          normalize: string -> string, spans: seq<Span>, hunks: seq<Hunk>)
    requires Shows(lines, left, right, normalize) && Made(lines, spans, hunks) && Made(Mirrored(lines), spans, Backwards(hunks))
    ensures HeadersExact(lines, spans, hunks) <==>
              LeftsExact(lines, spans, hunks) && LeftsExact(Mirrored(lines), spans, Backwards(hunks))
  {
    hide Shows, MakeHunk, LeftExact, HeaderExact;
    forall h | 0 <= h < |hunks|
      ensures HeaderExact(lines, spans[h], hunks[h]) <==>
                LeftExact(lines, spans[h], hunks[h]) && LeftExact(Mirrored(lines), spans[h], Backwards(hunks)[h])
    {
      HalvesMakeHeader(lines, left, right, normalize, spans[h]);
    }
  }

  lemma HalvesMakeHeader(lines: seq<DiffLine>, left: seq<string>, right: seq<string>,
          normalize: string -> string, s: Span)
    requires Shows(lines, left, right, normalize) && s.start <= s.end < |lines|
    ensures var h := MakeHunk(lines, s.start, s.end);
            HeaderExact(lines, s, h) <==> LeftExact(lines, s, h) && LeftExact(Mirrored(lines), s, MirroredHunk(h))
  {
    hide Shows, LeftCount, RightCount, MakeHunk, Position, RightPosition;
    var h := MakeHunk(lines, s.start, s.end);
    LeftExactIff(lines, left, right, normalize, s);
    MirroredShows(lines, left, right, normalize);
    MirroredMake(lines, s.start, s.end);
    LeftExactIff(Mirrored(lines), RightTexts(lines), left, Plain, s);
    MirroredHalf(lines, s, h);
    MirroredCounts(h.lines);
  }

  /** Applied backwards, hunks with exact headers turn the non-delete lines back into the left document. */
  lemma BackwardsPatch(lines: seq<DiffLine>, left: seq<string>, right: seq<string>,
          normalize: string -> string, context: nat, spans: seq<Span>, hunks: seq<Hunk>)
    requires Shows(lines, left, right, normalize) && Spanned(lines, context, spans) && Made(lines, spans, hunks)
    requires context >= 1 || NoBareDeletion(lines)
    ensures Patched(RightTexts(lines), Backwards(hunks), 0) == Some(left)
  {
    hide Shows, Spanned, Made, LeftsExact, LeftTexts, RightTexts, LeftCount, Patched, NoBareInsertion, NoBareDeletion;
    MirroredShows(lines, left, right, normalize);
    MirroredMade(lines, spans, hunks);
    MirroredSpanned(lines, context, spans);
    MirroredBare(lines);
    LeftsExactIff(Mirrored(lines), RightTexts(lines), left, Plain, context, spans, Backwards(hunks));
    PatchTheorem(Mirrored(lines), RightTexts(lines), left, Plain, context, spans, Backwards(hunks));
    MirroredCounts(lines);
    LeftPrefix(lines, left, right, normalize, |lines|);
    assert lines[..|lines|] == lines;
    WholeLeft(lines, left, right, normalize);
    assert left[..|left|] == left;
  }

  /** Backwards the hunks give the left document exactly if they would patch the mirrored diff right. */
  lemma BackwardsPatchedIff(lines: seq<DiffLine>, left: seq<string>, right: seq<string>,
          normalize: string -> string, context: nat, spans: seq<Span>, hunks: seq<Hunk>)
    requires Shows(lines, left, right, normalize) && Spanned(lines, context, spans) && Made(lines, spans, hunks)
    ensures Patched(RightTexts(lines), Backwards(hunks), 0) == Some(left) <==> PatchesRight(Mirrored(lines), spans)
  {
    hide Shows, Made, LeftTexts, RightTexts, LeftCount, Patched, PatchesRight, Covered;
    MirroredShows(lines, left, right, normalize);
    MirroredMade(lines, spans, hunks);
    MirroredSpanned(lines, context, spans);
    PatchedIff(Mirrored(lines), RightTexts(lines), left, Plain, context, spans, Backwards(hunks));
    MirroredCounts(lines);
    LeftPrefix(lines, left, right, normalize, |lines|);
    assert lines[..|lines|] == lines;
    WholeLeft(lines, left, right, normalize);
    assert left[..|left|] == left;
  }

  function Plain(text: string): string {
    text
  }

  lemma TextsOfOne(line: DiffLine)
    ensures LeftTexts([line]) == if OnLeft(line) then [line.text] else []
    ensures RightTexts([line]) == if OnRight(line) then [line.text] else []
  {
    var one := [line];
    assert one[..|one| - 1] == [];
  }

  /** The two lines of a diff from [a] to [a, b]. */
  function InsertBehind(a: string, b: string): seq<DiffLine> {
    [DiffLine(Equal, Some(1), Some(1), a, None), DiffLine(Insert, None, Some(2), b, None)]
  }

  /** The two lines of a diff from [a, b] to [a]. */
  function DeleteBehind(a: string, b: string): seq<DiffLine> {
    [DiffLine(Equal, Some(1), Some(1), a, None), DiffLine(Delete, Some(2), None, b, None)]
  }

  lemma InsertBehindShows(a: string, b: string)
    ensures Shows(InsertBehind(a, b), [a], [a, b], Plain) && Spanned(InsertBehind(a, b), 0, [Span(1, 1)])
    ensures MakeHunk(InsertBehind(a, b), 1, 1) == Hunk(0, 0, 2, 1, [InsertBehind(a, b)[1]])
  {
    var lines := InsertBehind(a, b);
    var one := [lines[1]];
    assert lines[..0] == [] && lines[..1] == [lines[0]] && lines[..2] == lines && lines[1..2] == one;
    assert [lines[0]][..0] == [] && one[1..] == [];
    assert LineShows(lines, [a], [a, b], Plain, 0) && LineShows(lines, [a], [a, b], Plain, 1);
    forall i | 0 <= i < 2
      ensures Covered([Span(1, 1)], i) <==> NearChange(lines, 0, i)
    {
      NearWithoutContext(lines, i);
      CoveredPush([], Span(1, 1), i);
    }
    assert LeftNumbers(one) == LeftNumbers([]) && RightNumbers(one) == [2] + RightNumbers([]);
  }

  /** Without context an insertion can go to the wrong place: here the inserted line lands in front, which is wrong
      exactly if the two lines differ. */
  lemma ZeroContextMisplaces(a: string, b: string)
    ensures var lines := InsertBehind(a, b);
            && Shows(lines, [a], [a, b], Plain) && Spanned(lines, 0, [Span(1, 1)])
            && !HeaderExact(lines, Span(1, 1), MakeHunk(lines, 1, 1))
            && Patched([a], [MakeHunk(lines, 1, 1)], 0) == Some([b, a])
    ensures Patched([a], [MakeHunk(InsertBehind(a, b), 1, 1)], 0) == Some([a, b]) <==> a == b
  {
    hide Shows, Spanned, MakeHunk;
    var lines := InsertBehind(a, b);
    var one := [lines[1]];
    InsertBehindShows(a, b);
    HeaderExactIff(lines, [a], [a, b], Plain, Span(1, 1));
    CountOfOne(lines[0]);
    assert lines[..1] == [lines[0]];
    var h := MakeHunk(lines, 1, 1);
    TextsOfOne(lines[1]);
    assert [a][0..0] == [] && [h][1..] == [];
    assert [a][0..] == [a] && Patched([a], [], 0) == Some([a]);
    assert [a][0..0] + RightTexts(one) + [a] == [b, a];
    assert [b, a][0] == b && [a, b][0] == a;
  }

  lemma CountOfOne(line: DiffLine)
    ensures LeftCount([line]) == if OnLeft(line) then 1 else 0
  {
    assert [line][..0] == [];
  }

  /** A deletion without context has the same fault in the right half of its header: backwards, the deleted line lands in front. */
  lemma ZeroContextMisplacesDeletion(a: string, b: string)
    ensures var lines := DeleteBehind(a, b);
            && Shows(lines, [a, b], [a], Plain) && Spanned(lines, 0, [Span(1, 1)])
            && NoBareInsertion(lines) && !HeaderExact(lines, Span(1, 1), MakeHunk(lines, 1, 1))
            && Patched([a], Backwards([MakeHunk(lines, 1, 1)]), 0) == Some([b, a])
  {
    hide Shows, Spanned, MakeHunk, Patched, HeaderExact, NoBareInsertion, NoBareDeletion;
    var lines, back := DeleteBehind(a, b), InsertBehind(a, b);
    assert Mirrored(back) == lines;
    assert Mirrored(lines) == back;
    InsertBehindShows(a, b);
    MirroredShows(back, [a], [a, b], Plain);
    RightTextsBehind(a, b);
    MirroredSpanned(back, 0, [Span(1, 1)]);
    ZeroContextMisplaces(a, b);
    MirroredMake(lines, 1, 1);
    assert Backwards([MakeHunk(lines, 1, 1)]) == [MakeHunk(back, 1, 1)];
    DeletesSomething(a, b);
    OffBothWays(lines, [a, b], [a]);
  }

  lemma RightTextsBehind(a: string, b: string)
    ensures RightTexts(InsertBehind(a, b)) == [a, b]
  {
    var lines := InsertBehind(a, b);
    assert lines[..1] == [lines[0]];
    TextsOfOne(lines[0]);
  }

  lemma DeletesSomething(a: string, b: string)
    ensures NoBareInsertion(DeleteBehind(a, b))
  {
    var lines := DeleteBehind(a, b);
    forall t, e | t > 0 && ChangedRun(lines, t, e)
      ensures LeftCount(lines[t..e + 1]) > 0
    {
      assert lines[t..e + 1] == [lines[1]];
      CountOfOne(lines[1]);
    }
  }

  /** The mirrored hunk of an inexact one is inexact. */
  lemma OffBothWays(lines: seq<DiffLine>, left: seq<string>, right: seq<string>)
    requires |lines| == 2 && lines[0].kind == Equal && lines[1].kind == Delete && Shows(lines, left, right, Plain)
    ensures !HeaderExact(lines, Span(1, 1), MakeHunk(lines, 1, 1))
  {
    HeaderExactIff(lines, left, right, Plain, Span(1, 1));
    assert lines[1..2] == [lines[1]] && lines[..1] == [lines[0]];
    assert [lines[1]][..0] == [] && [lines[0]][..0] == [];
    MirroredNumbers([lines[1]]);
    assert LineShows(lines, left, right, Plain, 1);
    assert [lines[1]][1..] == [];
  }
}
