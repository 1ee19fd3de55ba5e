/** From the edit script to numbered lines and unified hunks. */
module Diff {
  import opened EditGraph
  import opened Myers
  import opened Text
  import opened Basics

  datatype Segment = Segment(kind: Kind, text: string)

  datatype DiffLine = DiffLine(kind: Kind, leftNumber: Option<nat>, rightNumber: Option<nat>, text: string,
                               words: Option<seq<Segment>>)

  datatype Hunk = Hunk(leftStart: nat, leftCount: nat, rightStart: nat, rightCount: nat, lines: seq<DiffLine>)

  datatype Stats = Stats(added: nat, removed: nat, same: nat)

  /** What the result points out: texts that differ although no line does under the options, and a final line feed on
      one side only. */
  datatype Note = IgnoredDifference(whitespace: bool, letterCase: bool) | TrailingNewline

  datatype DiffResult = DiffResult(lines: seq<DiffLine>, hunks: seq<Hunk>, stats: Stats, identical: bool, notes: seq<Note>)

  // ---------- What the lines mean ----------

  predicate OnLeft(line: DiffLine) {
    !line.kind.Insert?
  }

  predicate OnRight(line: DiffLine) {
    !line.kind.Delete?
  }

  /** How many of the lines belong to the left document. */
  function LeftCount(lines: seq<DiffLine>): nat {
    if lines == [] then 0 else LeftCount(lines[..|lines| - 1]) + if OnLeft(lines[|lines| - 1]) then 1 else 0
  }

  function RightCount(lines: seq<DiffLine>): nat {
    if lines == [] then 0 else RightCount(lines[..|lines| - 1]) + if OnRight(lines[|lines| - 1]) then 1 else 0
  }

  /** Line t shows the next line of each side it belongs to, under its 1-based number there. */
  ghost predicate LineShows(lines: seq<DiffLine>, left: seq<string>, right: seq<string>, normalize: string -> string, t: nat)
    requires t < |lines|
  {
    var l, r := LeftCount(lines[..t]), RightCount(lines[..t]);
    match lines[t].kind
    case Equal =>
      && l < |left| && r < |right| && normalize(left[l]) == normalize(right[r])
      && lines[t].leftNumber == Some(l + 1) && lines[t].rightNumber == Some(r + 1) && lines[t].text == left[l]
    case Delete =>
      l < |left| && lines[t].leftNumber == Some(l + 1) && lines[t].rightNumber == None && lines[t].text == left[l]
    case Insert =>
      r < |right| && lines[t].leftNumber == None && lines[t].rightNumber == Some(r + 1) && lines[t].text == right[r]
  }

  /** The lines show all of both documents, in order. */
  ghost predicate Shows(lines: seq<DiffLine>, left: seq<string>, right: seq<string>, normalize: string -> string) {
    && LeftCount(lines) == |left| && RightCount(lines) == |right|
    && forall t :: 0 <= t < |lines| ==> LineShows(lines, left, right, normalize, t)
  }

  ghost predicate ShowsSoFar(lines: seq<DiffLine>, left: seq<string>, right: seq<string>, normalize: string -> string) {
    forall t :: 0 <= t < |lines| ==> LineShows(lines, left, right, normalize, t)
  }

  lemma CountPush(lines: seq<DiffLine>, line: DiffLine)
    ensures LeftCount(lines + [line]) == LeftCount(lines) + if OnLeft(line) then 1 else 0
    ensures RightCount(lines + [line]) == RightCount(lines) + if OnRight(line) then 1 else 0
  {
    assert (lines + [line])[..|lines + [line]| - 1] == lines;
  }

  lemma ShowsPush(lines: seq<DiffLine>, line: DiffLine, left: seq<string>, right: seq<string>,
          normalize: string -> string)
    requires ShowsSoFar(lines, left, right, normalize)
    requires LineShows(lines + [line], left, right, normalize, |lines|)
    ensures ShowsSoFar(lines + [line], left, right, normalize)
  {
    var more := lines + [line];
    forall t | 0 <= t < |more|
      ensures LineShows(more, left, right, normalize, t)
    {
      if t < |lines| {
        assert more[..t] == lines[..t];
        assert LineShows(lines, left, right, normalize, t);
      }
    }
  }

  function Normalized(lines: seq<string>, normalize: string -> string): (r: seq<string>)
    ensures |r| == |lines| && forall i :: 0 <= i < |lines| ==> r[i] == normalize(lines[i])
  {
    seq(|lines|, i requires 0 <= i < |lines| => normalize(lines[i]))
  }

  // ---------- Building the lines ----------

  /** The steps still to be rendered from (i, j) on. */
  lemma NextSteps<T>(kind: Kind, count: nat, rest: seq<Kind>, a: seq<T>, b: seq<T>, i: nat, j: nat)
    requires count > 0 && Replays(Run(kind, count) + rest, a, b, i, j)
    ensures match kind
            case Equal => Match(a, b, i, j) && Replays(Run(kind, count - 1) + rest, a, b, i + 1, j + 1)
            case Delete => i < |a| && Replays(Run(kind, count - 1) + rest, a, b, i + 1, j)
            case Insert => j < |b| && Replays(Run(kind, count - 1) + rest, a, b, i, j + 1)
  {
    assert (Run(kind, count) + rest)[1..] == Run(kind, count - 1) + rest;
  }

  function Kinds(lines: seq<DiffLine>): (r: seq<Kind>)
    ensures |r| == |lines|
  {
    seq(|lines|, i requires 0 <= i < |lines| => lines[i].kind)
  }

  /** The line rendered for one step at (l, r). */
  function RenderLine(kind: Kind, left: seq<string>, right: seq<string>, l: nat, r: nat): DiffLine
    requires OnLeft(DiffLine(kind, None, None, "", None)) ==> l < |left|
    requires kind.Insert? ==> r < |right|
  {
    match kind
    case Equal => DiffLine(Equal, Some(l + 1), Some(r + 1), left[l], None)
    case Delete => DiffLine(Delete, Some(l + 1), None, left[l], None)
    case Insert => DiffLine(Insert, None, Some(r + 1), right[r], None)
  }

  /** The state of the rendering loop: the lines so far, and the steps still to be replayed out of all the steps. */
  ghost predicate Rendering(steps: seq<Kind>, lines: seq<DiffLine>, rest: seq<Kind>, left: seq<string>, right: seq<string>,
                            normalize: string -> string, l: nat, r: nat) {
    && Kinds(lines) + rest == steps
    && (forall t :: 0 <= t < |lines| ==> lines[t].words == None)
    && l == LeftCount(lines) && r == RightCount(lines)
    && ShowsSoFar(lines, left, right, normalize)
    && Replays(rest, Normalized(left, normalize), Normalized(right, normalize), l, r)
  }

  lemma RenderStep(steps: seq<Kind>, lines: seq<DiffLine>, kind: Kind, count: nat, rest: seq<Kind>,
          left: seq<string>,
                   right: seq<string>, normalize: string -> string, l: nat, r: nat)
    requires count > 0 && Rendering(steps, lines, Run(kind, count) + rest, left, right, normalize, l, r)
    ensures !kind.Insert? ==> l < |left|
    ensures !kind.Delete? ==> r < |right|
    ensures var l' := if kind.Insert? then l else l + 1;
            var r' := if kind.Delete? then r else r + 1;
            var line := RenderLine(kind, left, right, l, r);
            Rendering(steps, lines + [line], Run(kind, count - 1) + rest, left, right, normalize, l', r')
  {
    hide Replays, LeftCount, RightCount, ShowsSoFar, Run;
    NextSteps(kind, count, rest, Normalized(left, normalize), Normalized(right, normalize), l, r);
    var line := RenderLine(kind, left, right, l, r);
    CountPush(lines, line);
    assert (lines + [line])[..|lines|] == lines;
    ShowsPush(lines, line, left, right, normalize);
    assert Kinds(lines + [line]) == Kinds(lines) + [kind];
    assert Run(kind, count) == [kind] + Run(kind, count - 1);
  }

  lemma RenderDone(steps: seq<Kind>, lines: seq<DiffLine>, left: seq<string>, right: seq<string>,
          normalize: string -> string, l: nat, r: nat)
    requires Rendering(steps, lines, [], left, right, normalize, l, r)
    ensures Shows(lines, left, right, normalize) && Kinds(lines) == steps
    ensures forall t :: 0 <= t < |lines| ==> lines[t].words == None
  {
  }

  lemma RenderBegins(steps: seq<Kind>, left: seq<string>, right: seq<string>, normalize: string -> string)
    requires Replays(steps, Normalized(left, normalize), Normalized(right, normalize), 0, 0)
    ensures Rendering(steps, [], steps, left, right, normalize, 0, 0)
  {
    assert Kinds([]) + steps == steps;
  }

  lemma ExpandSuffix(ops: seq<EditOp>, o: nat)
    requires o < |ops|
    ensures Expand(ops[o..]) == Run(ops[o].kind, ops[o].count) + Expand(ops[o + 1..])
    ensures Run(ops[o].kind, 0) + Expand(ops[o + 1..]) == Expand(ops[o + 1..])
  {
    assert ops[o..][1..] == ops[o + 1..];
  }

  lemma ExpandEnds(ops: seq<EditOp>)
    ensures Expand(ops[0..]) == Expand(ops) && Expand(ops[|ops|..]) == []
  {
    assert ops[0..] == ops;
  }

  /** The loop over the script: one line per step, numbered on the sides it belongs to. */
  method RenderLines(script: seq<EditOp>, left: seq<string>, right: seq<string>, normalize: string -> string)
    returns (lines: seq<DiffLine>)
    requires Transforms(script, Normalized(left, normalize), Normalized(right, normalize))
    ensures Shows(lines, left, right, normalize)
    ensures Kinds(lines) == Expand(script)
    ensures forall t :: 0 <= t < |lines| ==> lines[t].words == None
  {
    RenderBegins(Expand(script), left, right, normalize);
    hide Replays, Rendering, Expand, Transforms, Shows, Normalized, Run, Kinds, RenderLine;
    lines := [];
    var leftIndex, rightIndex := 0, 0;
    ExpandEnds(script);
    for o := 0 to |script|
      invariant Rendering(Expand(script), lines, Expand(script[o..]), left, right, normalize, leftIndex, rightIndex)
    {
      var op := script[o];
      ghost var rest := Expand(script[o + 1..]);
      ExpandSuffix(script, o);
      for i := 0 to op.count
        invariant Rendering(Expand(script), lines, Run(op.kind, op.count - i) + rest, left, right, normalize, leftIndex, rightIndex)
      {
        RenderStep(Expand(script), lines, op.kind, op.count - i, rest, left, right, normalize, leftIndex, rightIndex);
        lines := lines + [RenderLine(op.kind, left, right, leftIndex, rightIndex)];
        match op.kind
        case Equal =>
          leftIndex := leftIndex + 1;
          rightIndex := rightIndex + 1;
        case Delete =>
          leftIndex := leftIndex + 1;
        case Insert =>
          rightIndex := rightIndex + 1;
      }
    }
    RenderDone(Expand(script), lines, left, right, normalize, leftIndex, rightIndex);
  }
}
