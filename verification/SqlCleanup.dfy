/** The formatter's closing replacements, which work on the text without regard to tokens. */
module SqlCleanup {
  import opened Text

  predicate IsBlank(c: char) {
    c == ' ' || c == '\t'
  }

  /** What $ stands before under the m flag. */
  predicate IsLineEnd(c: char) {
    c == '\n' || c == '\r' || c == '\U{2028}' || c == '\U{2029}'
  }

  predicate TripleAhead(s: string) {
    |s| >= 3 && s[0] == '\n' && s[1] == '\n' && s[2] == '\n'
  }

  /** replace(/\n{3,}/g, '\n\n') */
  function Collapse(s: string): (r: string)
    ensures |r| <= |s|
  {
    if s == "" then "" else if TripleAhead(s) then Collapse(s[1..]) else [s[0]] + Collapse(s[1..])
  }

  /** Nothing but blanks before the line or the text ends. */
  predicate BlankAhead(s: string) {
    s == "" || IsLineEnd(s[0]) || (IsBlank(s[0]) && BlankAhead(s[1..]))
  }

  /** replace(/[ \t]+$/gm, '') */
  function Strip(s: string): (r: string)
    ensures |r| <= |s|
  {
    if s == "" then "" else if IsBlank(s[0]) && BlankAhead(s) then Strip(s[1..]) else [s[0]] + Strip(s[1..])
  }

  /** What is left of the text of a token. */
  function Clean(s: string): (r: string)
    ensures |r| <= |s|
  {
    Strip(Collapse(TrimEnd(s)))
  }

  /** No white space at the end, no blank before a line end, no three line feeds in a row. */
  predicate Tidy(s: string) {
    (s != "" ==> !IsSpace(s[|s| - 1])) && !HasTriple(s) && !HasBlankEnd(s)
  }

  predicate HasTriple(s: string) {
    s != "" && (TripleAhead(s) || HasTriple(s[1..]))
  }

  predicate HasBlankEnd(s: string) {
    s != "" && ((IsBlank(s[0]) && BlankAhead(s)) || HasBlankEnd(s[1..]))
  }

  /** The text without its white space. */
  function Bare(s: string): string {
    if s == "" then "" else (if IsSpace(s[0]) then "" else [s[0]]) + Bare(s[1..])
  }

  lemma {:induction false} CollapseFixed(s: string)
    ensures Collapse(s) == s <==> !HasTriple(s)
  {
    if s != "" {
      CollapseFixed(s[1..]);
      if TripleAhead(s) {
        assert |Collapse(s)| < |s|;
      } else {
        assert Collapse(s)[1..] == Collapse(s[1..]);
        assert s == [s[0]] + s[1..];
      }
    }
  }

  lemma {:induction false} StripFixed(s: string)
    ensures Strip(s) == s <==> !HasBlankEnd(s)
  {
    hide BlankAhead;
    if s != "" {
      StripFixed(s[1..]);
      if IsBlank(s[0]) && BlankAhead(s) {
        assert |Strip(s)| < |s|;
      } else {
        assert Strip(s)[1..] == Strip(s[1..]);
        assert s == [s[0]] + s[1..];
      }
    }
  }

  /** A text survives the clean-up exactly if it is tidy. */
  lemma CleanFixed(s: string)
    ensures Clean(s) == s <==> Tidy(s)
  {
    hide Collapse, Strip, HasTriple, HasBlankEnd;
    var t := TrimEnd(s);
    CollapseFixed(t);
    StripFixed(Collapse(t));
    if Clean(s) == s {
      assert |t| == |s| && t == s;
      assert |Collapse(t)| == |t|;
      CollapseShorter(t);
    }
  }

  lemma {:induction false} DarkIsTidy(s: string)
    requires forall k :: 0 <= k < |s| ==> !IsSpace(s[k])
    ensures Tidy(s)
  {
    if s != "" {
      NotSpace(s[0]);
      DarkIsTidy(s[1..]);
    }
  }

  lemma {:induction false} CollapseShorter(s: string)
    ensures |Collapse(s)| == |s| ==> Collapse(s) == s
  {
    if s != "" {
      CollapseShorter(s[1..]);
    }
  }

  // ---------- No character but white space is touched ----------

  lemma {:induction false} BareAppend(a: string, b: string)
    ensures Bare(a + b) == Bare(a) + Bare(b)
  {
    hide IsSpace;
    if a == "" {
      assert a + b == b;
    } else {
      assert (a + b)[1..] == a[1..] + b;
      BareAppend(a[1..], b);
    }
  }

  lemma {:induction false} BareCollapse(s: string)
    ensures Bare(Collapse(s)) == Bare(s)
  {
    if s != "" {
      BareCollapse(s[1..]);
      if !TripleAhead(s) {
        BareAppend([s[0]], Collapse(s[1..]));
        BareAppend([s[0]], s[1..]);
        assert s == [s[0]] + s[1..];
      }
    }
  }

  lemma {:induction false} BareStrip(s: string)
    ensures Bare(Strip(s)) == Bare(s)
  {
    if s != "" {
      BareStrip(s[1..]);
      if !(IsBlank(s[0]) && BlankAhead(s)) {
        BareAppend([s[0]], Strip(s[1..]));
        BareAppend([s[0]], s[1..]);
        assert s == [s[0]] + s[1..];
      }
    }
  }

  lemma {:induction false} BareTrimEnd(s: string)
    ensures Bare(TrimEnd(s)) == Bare(s)
  {
    if s != "" && IsSpace(s[|s| - 1]) {
      var n := |s| - 1;
      BareTrimEnd(s[..n]);
      BareAppend(s[..n], [s[n]]);
      assert s == s[..n] + [s[n]];
      assert Bare([s[n]]) == "";
    }
  }

  lemma BareClean(s: string)
    ensures Bare(Clean(s)) == Bare(s)
  {
    BareTrimEnd(s);
    BareCollapse(TrimEnd(s));
    BareStrip(Collapse(TrimEnd(s)));
  }

  /** A text without other characters than white space. */
  lemma {:induction false} BareNothing(s: string)
    ensures Bare(s) == "" <==> forall k :: 0 <= k < |s| ==> IsSpace(s[k])
  {
    hide IsSpace;
    if s != "" {
      BareNothing(s[1..]);
      if forall k :: 0 <= k < |s[1..]| ==> IsSpace(s[1..][k]) {
        assert forall k :: 0 < k < |s| ==> s[k] == s[1..][k - 1];
      } else {
        var k :| 0 <= k < |s[1..]| && !IsSpace(s[1..][k]);
        assert !IsSpace(s[k + 1]);
      }
    }
  }

  // ---------- The replacements, piece by piece ----------

  lemma {:induction false} CollapseSplit(a: string, b: string)
    requires a == "" || b == "" || a[|a| - 1] != '\n' || b[0] != '\n'
    ensures Collapse(a + b) == Collapse(a) + Collapse(b)
  {
    if a == "" {
      assert a + b == b;
    } else {
      assert (a + b)[1..] == a[1..] + b;
      CollapseSplit(a[1..], b);
      TripleSplit(a, b);
    }
  }

  lemma TripleSplit(a: string, b: string)
    requires a != "" && (b == "" || a[|a| - 1] != '\n' || b[0] != '\n')
    ensures TripleAhead(a + b) == TripleAhead(a)
  {
    assert |a| == 1 ==> (b != "" ==> (a + b)[1] == b[0]);
    assert |a| == 2 ==> (b != "" ==> (a + b)[2] == b[0]);
  }

  lemma {:induction false} StripSplit(a: string, b: string)
    requires a != "" ==> !IsBlank(a[|a| - 1])
    ensures Strip(a + b) == Strip(a) + Strip(b)
  {
    if a == "" {
      assert a + b == b;
    } else {
      assert (a + b)[1..] == a[1..] + b;
      StripSplit(a[1..], b);
      BlankSplit(a, b);
      hide BlankAhead;
    }
  }

  lemma {:induction false} BlankSplit(a: string, b: string)
    requires a != "" && !IsBlank(a[|a| - 1])
    ensures BlankAhead(a + b) == BlankAhead(a)
  {
    if IsBlank(a[0]) {
      assert (a + b)[1..] == a[1..] + b;
      BlankSplit(a[1..], b);
    }
  }

  /** n line feeds and m spaces. */
  function Lines(n: nat, m: nat): (r: string)
    ensures |r| == n + m
    ensures forall k :: 0 <= k < |r| ==> r[k] == if k < n then '\n' else ' '
  {
    seq(n + m, k => if k < n then '\n' else ' ')
  }

  /** At most two line feeds before indentation and the start of a token stay as they are. */
  lemma {:induction false} GapStays(n: nat, m: nat, x: string)
    requires n <= 2 && x != "" && !IsSpace(x[0])
    ensures Collapse(Lines(n, m) + x) == Lines(n, m) + Collapse(x)
    ensures Strip(Lines(n, m) + x) == Lines(n, m) + Strip(x)
    decreases n + m
  {
    hide IsSpace, Collapse, Strip, TripleAhead, BlankAhead;
    if n > 0 {
      GapStays(n - 1, m, x);
      GapStep(n, m, x);
    } else if m > 0 {
      GapStays(0, m - 1, x);
      GapStep(n, m, x);
    } else {
      assert Lines(n, m) + x == x;
      assert Lines(n, m) + Collapse(x) == Collapse(x);
      assert Lines(n, m) + Strip(x) == Strip(x);
    }
  }

  /** The first character of a gap stays. */
  lemma GapStep(n: nat, m: nat, x: string)
    requires n <= 2 && x != "" && !IsSpace(x[0]) && n + m > 0
    ensures var rest := if n > 0 then Lines(n - 1, m) else Lines(0, m - 1);
            && Collapse(Lines(n, m) + x) == Lines(n, m)[..1] + Collapse(rest + x)
            && Strip(Lines(n, m) + x) == Lines(n, m)[..1] + Strip(rest + x)
            && Lines(n, m) == Lines(n, m)[..1] + rest
  {
    hide IsSpace, BlankAhead;
    var rest := if n > 0 then Lines(n - 1, m) else Lines(0, m - 1);
    var s := Lines(n, m) + x;
    assert x[0] != '\n' && !IsBlank(x[0]) && !IsLineEnd(x[0]) by { NotSpace(x[0]); }
    assert s[1..] == rest + x;
    assert s[n + m] == x[0];
    if n == 0 {
      NotBlank(m, x);
    }
    assert !TripleAhead(s);
    assert Lines(n, m)[..1] == [s[0]];
  }

  lemma NotSpace(c: char)
    requires !IsSpace(c)
    ensures !IsBlank(c) && !IsLineEnd(c)
  {
  }

  lemma {:induction false} NotBlank(m: nat, x: string)
    requires x != "" && !IsBlank(x[0]) && !IsLineEnd(x[0])
    ensures !BlankAhead(Lines(0, m) + x)
  {
    if m > 0 {
      assert (Lines(0, m) + x)[1..] == Lines(0, m - 1) + x;
      NotBlank(m - 1, x);
    } else {
      assert Lines(0, m) + x == x;
    }
  }

  /** First and last character of a cleaned text. */
  lemma {:induction false} CleanEnds(s: string)
    requires s != "" && !IsSpace(s[0])
    ensures Clean(s) != "" && Clean(s)[0] == s[0] && !IsSpace(Clean(s)[|Clean(s)| - 1])
    ensures TrimEnd(s) != "" && TrimEnd(s)[0] == s[0] && !IsSpace(TrimEnd(s)[|TrimEnd(s)| - 1])
  {
    TrimEndEnds(s);
    var t := TrimEnd(s);
    NotSpace(t[0]);
    CollapseEnds(t);
    StripEnds(Collapse(t));
    hide IsSpace, TrimEnd;
  }

  lemma {:induction false} TrimEndEnds(s: string)
    requires s != "" && !IsSpace(s[0])
    ensures TrimEnd(s) != "" && TrimEnd(s)[0] == s[0] && !IsSpace(TrimEnd(s)[|TrimEnd(s)| - 1])
  {
    hide IsSpace;
    if IsSpace(s[|s| - 1]) {
      TrimEndEnds(s[..|s| - 1]);
    }
  }

  lemma {:induction false} CollapseEnds(s: string)
    requires s != "" && !IsSpace(s[|s| - 1])
    ensures Collapse(s) != "" && Collapse(s)[|Collapse(s)| - 1] == s[|s| - 1]
    ensures s[0] != '\n' ==> Collapse(s)[0] == s[0]
  {
    if |s| > 1 {
      CollapseEnds(s[1..]);
    }
  }

  lemma {:induction false} StripEnds(s: string)
    requires s != "" && !IsSpace(s[|s| - 1])
    ensures Strip(s) != "" && Strip(s)[|Strip(s)| - 1] == s[|s| - 1]
    ensures !IsBlank(s[0]) ==> Strip(s)[0] == s[0]
  {
    if |s| > 1 {
      hide BlankAhead;
      StripEnds(s[1..]);
    } else {
      NotSpace(s[0]);
    }
  }

  /** Trimming takes white space off both ends of a text that begins and ends with something else. */
  lemma TrimAround(w: string, x: string, v: string)
    requires x != "" && !IsSpace(x[0]) && !IsSpace(x[|x| - 1])
    requires forall k :: 0 <= k < |w| ==> IsSpace(w[k])
    requires forall k :: 0 <= k < |v| ==> IsSpace(v[k])
    ensures Trim(w + x + v) == x
  {
    hide IsSpace;
    TrimEndTakes(w + x, v);
    TrimStartTakes(w, x);
  }

  lemma {:induction false} TrimEndTakes(x: string, v: string)
    requires x != "" && !IsSpace(x[|x| - 1])
    requires forall k :: 0 <= k < |v| ==> IsSpace(v[k])
    ensures TrimEnd(x + v) == x
  {
    hide IsSpace;
    if v == "" {
      assert x + v == x;
    } else {
      assert (x + v)[..|x + v| - 1] == x + v[..|v| - 1];
      TrimEndTakes(x, v[..|v| - 1]);
    }
  }

  lemma {:induction false} TrimStartTakes(w: string, x: string)
    requires x != "" && !IsSpace(x[0])
    requires forall k :: 0 <= k < |w| ==> IsSpace(w[k])
    ensures TrimStart(w + x) == x
  {
    hide IsSpace;
    if w == "" {
      assert w + x == x;
    } else {
      assert (w + x)[1..] == w[1..] + x;
      TrimStartTakes(w[1..], x);
    }
  }

  /** trimEnd looks only at the part that holds something else than white space. */
  lemma {:induction false} TrimEndAppend(a: string, b: string)
    requires b != "" && !IsSpace(b[0])
    ensures TrimEnd(a + b) == a + TrimEnd(b)
  {
    hide IsSpace;
    if IsSpace(b[|b| - 1]) {
      assert (a + b)[..|a + b| - 1] == a + b[..|b| - 1];
      TrimEndAppend(a, b[..|b| - 1]);
    }
  }
}
