/** What the closing replacements leave of a token: white space goes only in front of other white space or at the end,
    so no mark of a token is lost, moved or made. */
module SqlThinning {
  import opened Text
  import opened SqlLexer
  import opened SqlCleanup

  /** y is x without some white space, none of it in front of another character of y than white space. */
  predicate Thinned(x: string, y: string)
    decreases |x|
  {
    if x == "" then y == ""
    else
      || (y != "" && x[0] == y[0] && Thinned(x[1..], y[1..]))
      || (IsSpace(x[0]) && (y == "" || IsSpace(y[0])) && Thinned(x[1..], y))
  }

  /** The token with its text cleaned. */
  function Cleaned(t: Token): Token {
    Token(t.kind, Clean(t.value))
  }

  // ---------- The replacements thin ----------

  lemma {:induction false} ThinnedTwice(x: string, y: string, z: string)
    requires Thinned(x, y) && Thinned(y, z)
    ensures Thinned(x, z)
    decreases |x|
  {
    hide IsSpace;
    if x != "" {
      if y != "" && x[0] == y[0] && Thinned(x[1..], y[1..]) {
        if z != "" && y[0] == z[0] && Thinned(y[1..], z[1..]) {
          ThinnedTwice(x[1..], y[1..], z[1..]);
        } else {
          ThinnedTwice(x[1..], y[1..], z);
        }
      } else {
        ThinnedTwice(x[1..], y, z);
      }
    }
  }

  lemma {:induction false} CollapseThins(s: string)
    ensures Thinned(s, Collapse(s))
    ensures s != "" && s[0] == '\n' ==> Collapse(s) != "" && Collapse(s)[0] == '\n'
  {
    if s != "" {
      CollapseThins(s[1..]);
      if !TripleAhead(s) {
        assert Collapse(s)[1..] == Collapse(s[1..]);
      }
    }
  }

  lemma {:induction false} StripThins(s: string)
    ensures Thinned(s, Strip(s))
    ensures BlankAhead(s) ==> Strip(s) == "" || IsSpace(Strip(s)[0])
  {
    if s != "" {
      StripThins(s[1..]);
      assert IsBlank(s[0]) || IsLineEnd(s[0]) ==> IsSpace(s[0]);
      if !(IsBlank(s[0]) && BlankAhead(s)) {
        assert Strip(s)[1..] == Strip(s[1..]);
      }
    }
  }

  lemma {:induction false} SpaceAtEnd(x: string, y: string, c: char)
    requires Thinned(x, y) && IsSpace(c)
    ensures Thinned(x + [c], y)
    decreases |x|
  {
    hide IsSpace;
    if x == "" {
      assert (x + [c])[1..] == "";
    } else {
      assert (x + [c])[1..] == x[1..] + [c];
      if y != "" && x[0] == y[0] && Thinned(x[1..], y[1..]) {
        SpaceAtEnd(x[1..], y[1..], c);
      } else {
        SpaceAtEnd(x[1..], y, c);
      }
    }
  }

  lemma {:induction false} ThinnedSelf(s: string)
    ensures Thinned(s, s)
  {
    if s != "" {
      ThinnedSelf(s[1..]);
    }
  }

  lemma {:induction false} TrimEndThins(s: string)
    ensures Thinned(s, TrimEnd(s))
  {
    hide IsSpace, Thinned;
    if s != "" && IsSpace(s[|s| - 1]) {
      var n := |s| - 1;
      TrimEndThins(s[..n]);
      SpaceAtEnd(s[..n], TrimEnd(s[..n]), s[n]);
      assert s[..n] + [s[n]] == s;
    } else {
      ThinnedSelf(s);
    }
  }

  lemma CleanThins(s: string)
    ensures Thinned(s, Clean(s))
  {
    hide Thinned, TrimEnd, Collapse, Strip;
    var t := TrimEnd(s);
    TrimEndThins(s);
    CollapseThins(t);
    StripThins(Collapse(t));
    ThinnedTwice(s, t, Collapse(t));
    ThinnedTwice(s, Collapse(t), Clean(s));
  }

  // ---------- What thinning keeps ----------

  /** Another character than white space is next on both sides or on neither. */
  lemma SameMark(x: string, y: string, c: char)
    requires Thinned(x, y) && !IsSpace(c)
    ensures (x != "" && x[0] == c) <==> (y != "" && y[0] == c)
    ensures x != "" && x[0] == c ==> Thinned(x[1..], y[1..])
  {
    hide IsSpace;
  }

  lemma {:induction false} NothingNew(x: string, y: string, c: char)
    requires Thinned(x, y) && c !in x
    ensures c !in y
    decreases |x|
  {
    hide IsSpace;
    if x != "" {
      if y != "" && x[0] == y[0] && Thinned(x[1..], y[1..]) {
        NothingNew(x[1..], y[1..], c);
        assert y == [y[0]] + y[1..];
      } else {
        NothingNew(x[1..], y, c);
      }
    }
  }

  /** The scanners of texts that can hold white space and have a closing mark. */
  predicate HasClosing(m: Scanner) {
    m.ToBlockEnd? || m.ToQuote? || (m.ToClose? && !IsSpace(m.close))
  }

  /** White space is stepped over one character at a time. */
  lemma SpaceAdvances(m: Scanner, s: string, i: nat)
    requires HasClosing(m) && i < |s| && IsSpace(s[i])
    ensures Advance(m, s, i) == 1
  {
  }

  /** At a character kept by the thinning both scans step alike. */
  lemma SameAdvance(m: Scanner, x: string, y: string, i: nat, j: nat)
    requires HasClosing(m) && i < |x| && j < |y| && x[i] == y[j] && Thinned(x[i + 1..], y[j + 1..])
    ensures Advance(m, x, i) == Advance(m, y, j)
    ensures Thinned(x[i + Advance(m, x, i)..], y[j + Advance(m, y, j)..])
                || Advance(m, x, i) == 0
  {
    hide IsSpace, Thinned;
    assert !IsSpace('\'') && !IsSpace('/') by { Marks(); }
    var mark := if m.ToBlockEnd? then '/' else '\'';
    SameMark(x[i + 1..], y[j + 1..], mark);
    assert x[i + 1..] != "" ==> x[i + 1..][0] == x[i + 1] && x[i + 1..][1..] == x[i + 2..];
    assert y[j + 1..] != "" ==> y[j + 1..][0] == y[j + 1] && y[j + 1..][1..] == y[j + 2..];
  }

  lemma Marks()
    ensures forall c :: c in "'/*-\"`[]" ==> !IsSpace(c)
  {
  }

  /** The scans of a text and of the thinned text stop at the same mark. */
  lemma {:induction false} ReachThinned(m: Scanner, x: string, y: string, i: nat, j: nat)
    requires HasClosing(m) && i <= |x| && j <= |y| && Thinned(x[i..], y[j..])
    ensures Thinned(x[Reach(m, x, i)..], y[Reach(m, y, j)..])
    decreases |x| - i
  {
    hide IsSpace, Advance, HasClosing;
    if i < |x| {
      assert x[i..][1..] == x[i + 1..];
      if j < |y| && x[i] == y[j] && Thinned(x[i + 1..], y[j + 1..]) {
        SameAdvance(m, x, y, i, j);
        if Advance(m, x, i) > 0 {
          ReachThinned(m, x, y, i + Advance(m, x, i), j + Advance(m, y, j));
        }
      } else {
        assert j < |y| ==> y[j..][1..] == y[j + 1..];
        SpaceAdvances(m, x, i);
        ReachThinned(m, x, y, i + 1, j);
      }
    }
  }

  // ---------- The cleaned token ----------

  lemma {:induction false} RunIsDark(m: Scanner, s: string, i: nat)
    requires i <= |s| && (m.Digits? || m.Name? || m.Numeric? || m.Word?)
    ensures forall k :: i <= k < Reach(m, s, i) ==> !IsSpace(s[k])
    decreases |s| - i
  {
    hide IsSpace;
    if i < |s| && Advance(m, s, i) > 0 {
      DarkWordChar(s[i]);
      RunIsDark(m, s, i + Advance(m, s, i));
    }
  }

  /** Words, numbers, parameters, operators and punctuation marks hold no white space. */
  lemma DarkToken(t: Token)
    requires Lexeme(t)
    requires var o := OpeningOf(t.value); o.Scanned? ==> Ending(o.scanner) == 0 && o.scanner != ToLineEnd
    ensures Cleaned(t) == t
  {
    hide IsSpace, IsReserved, Upper, Reach, KindOf, Clean, Advance, Tidy;
    var x := t.value;
    var o := OpeningOf(x);
    if o.Scanned? {
      RunIsDark(o.scanner, x, o.start);
      assert o.start <= 1;
    } else if o.length == 2 {
      TwoCharEnds(x);
      DarkWordChar(x[1]);
    }
    assert forall k :: 0 <= k < |x| ==> !IsSpace(x[k]);
    DarkIsTidy(x);
    CleanFixed(x);
  }

  lemma {:induction false} WholeLine(s: string, i: nat)
    requires i <= |s| && '\n' !in s
    ensures Reach(ToLineEnd, s, i) == |s|
    decreases |s| - i
  {
    if i < |s| {
      WholeLine(s, i + 1);
    }
  }

  lemma LineLexeme(y: string)
    requires |y| >= 2 && y[0] == '-' && y[1] == '-' && '\n' !in y
    ensures Lexeme(Token(Comment, y)) && Whole(Token(Comment, y))
  {
    hide Reach;
    WholeLine(y, 0);
    assert y[..|y|] == y && OpeningOf(y) == Scanned(ToLineEnd, 0);
  }

  /** The first two characters of a cleaned text, where they are no white space. */
  lemma CleanBegins(x: string, y: string)
    requires Thinned(x, y) && x != "" && !IsSpace(x[0])
    ensures y != "" && y[0] == x[0] && Thinned(x[1..], y[1..])
    ensures |x| >= 2 && !IsSpace(x[1]) ==> |y| >= 2 && y[1] == x[1] && Thinned(x[2..], y[2..])
  {
    hide IsSpace, Thinned;
    SameMark(x, y, x[0]);
    if |x| >= 2 && !IsSpace(x[1]) {
      SameMark(x[1..], y[1..], x[1]);
      assert x[1..][1..] == x[2..] && y[1..][0] == y[1] && y[1..][1..] == y[2..];
    }
  }

  lemma CleanedLine(t: Token)
    requires Lexeme(t) && IsLineComment(t)
    ensures Lexeme(Cleaned(t)) && Whole(Cleaned(t)) && IsLineComment(Cleaned(t))
  {
    hide Lexeme, Whole, Thinned, Clean, IsSpace;
    LineCommentIsOneLine(t);
    CleanThins(t.value);
    Marks();
    CleanBegins(t.value, Clean(t.value));
    NothingNew(t.value, Clean(t.value), '\n');
    LineLexeme(Clean(t.value));
  }

  /** A thinned text opens as before, if it can hold white space. */
  lemma OpeningThinned(x: string, y: string)
    requires Thinned(x, y) && x != "" && !IsSpace(x[0]) && OpeningOf(x).Scanned? && HasClosing(OpeningOf(x).scanner)
    ensures y != "" && OpeningOf(y) == OpeningOf(x) && Thinned(x[OpeningOf(x).start..], y[OpeningOf(x).start..])
  {
    hide Thinned, IsSpace;
    Marks();
    CleanBegins(x, y);
  }

  lemma OpensWithMark(s: string)
    requires s != "" && OpeningOf(s).Scanned? && Ending(OpeningOf(s).scanner) > 0
    ensures HasClosing(OpeningOf(s).scanner)
  {
    Marks();
    hide IsSpace;
  }

  /** What stands behind a closed scan is its mark, which thinning leaves alone. */
  lemma {:induction false} MarkStays(mark: string, y: string)
    requires Thinned(mark, y) && forall k :: 0 <= k < |mark| ==> !IsSpace(mark[k])
    ensures y == mark
  {
    hide IsSpace;
    if mark != "" {
      SameMark(mark, y, mark[0]);
      MarkStays(mark[1..], y[1..]);
      assert y == [y[0]] + y[1..] && mark == [mark[0]] + mark[1..];
    }
  }

  /** Where a scan with a closing mark ends: at the mark, or at the end of the text. */
  lemma MarkAhead(m: Scanner, s: string, i: nat)
    requires HasClosing(m) && i <= |s|
    ensures var r := Reach(m, s, i);
            r == |s| || (r + Ending(m) <= |s| && forall k :: r <= k < r + Ending(m) ==> !IsSpace(s[k]))
  {
    ReachStops(m, s, i);
    Marks();
    hide IsSpace, Reach;
  }

  /** A thinned text is scanned to its end or its closing mark, as before. */
  lemma ScanThinned(m: Scanner, x: string, y: string, i: nat)
    requires HasClosing(m) && i <= |x| && i <= |y| && Thinned(x[i..], y[i..]) && Reach(m, x, i) + Ending(m) >= |x|
    ensures Reach(m, y, i) + Ending(m) >= |y|
    ensures Reach(m, x, i) + Ending(m) == |x| ==> Reach(m, y, i) + Ending(m) == |y|
  {
    hide IsSpace, Reach, Thinned, HasClosing;
    var r, q := Reach(m, x, i), Reach(m, y, i);
    ReachThinned(m, x, y, i, i);
    MarkAhead(m, x, i);
    if r == |x| {
      assert x[r..] == "";
    }
    MarkStays(x[r..], y[q..]);
  }

  lemma CleanedMarked(t: Token)
    requires Lexeme(t)
    requires var o := OpeningOf(t.value); o.Scanned? && Ending(o.scanner) > 0
    ensures Lexeme(Cleaned(t)) && (Whole(t) ==> Whole(Cleaned(t))) && OpeningOf(Cleaned(t).value) == OpeningOf(t.value)
  {
    hide IsSpace, Reach, Thinned, HasClosing, Clean, IsReserved, Upper, Opens;
    var x, y := t.value, Clean(t.value);
    var o := OpeningOf(x);
    CleanThins(x);
    OpensWithMark(x);
    OpeningThinned(x, y);
    CleanBegins(x, y);
    assert Length(x) == |x|;
    ScanThinned(o.scanner, x, y, o.start);
    assert y[..|y|] == y;
  }

  /** The cleaned text of a token is a token of the same kind, closed if the token was; only literals, comments and
      quoted identifiers can change at all. */
  lemma CleanedLexeme(t: Token)
    requires Lexeme(t)
    ensures Lexeme(Cleaned(t)) && (Whole(t) ==> Whole(Cleaned(t))) && (IsLineComment(Cleaned(t)) <==> IsLineComment(t))
    ensures t.kind.Literal? || t.kind.Comment? || t.kind.Identifier? || Cleaned(t) == t
  {
    hide IsSpace, Reach, Clean, IsReserved, Upper, Whole;
    var o := OpeningOf(t.value);
    if o == Scanned(ToLineEnd, 0) {
      CleanedLine(t);
    } else if o.Scanned? && Ending(o.scanner) > 0 {
      CleanedMarked(t);
      LineOpens(t.value);
      LineOpens(Clean(t.value));
    } else {
      DarkToken(t);
    }
  }

  lemma LineOpens(s: string)
    requires s != ""
    ensures OpeningOf(s) == Scanned(ToLineEnd, 0) <==> |s| >= 2 && s[0] == '-' && s[1] == '-'
  {
    hide IsTwoCharOperator;
  }
}
