/** HTML escaping: five global replacements in a row, undone by five others in another order. */
module Html {

  /** replace(/c/g, code) */
  function ReplaceChar(s: string, c: char, code: string): string {
    if s == "" then "" else (if s[0] == c then code else [s[0]]) + ReplaceChar(s[1..], c, code)
  }

  /** replace(/code/g, c): the leftmost occurrences that do not overlap. */
  function ReplaceCode(s: string, code: string, c: char): string
    requires code != ""
  {
    if s == "" then ""
    else if code <= s then [c] + ReplaceCode(s[|code|..], code, c)
    else [s[0]] + ReplaceCode(s[1..], code, c)
  }

  function HtmlEscape(input: string): string {
    var s1 := ReplaceChar(input, '&', "&amp;");
    var s2 := ReplaceChar(s1, '<', "&lt;");
    var s3 := ReplaceChar(s2, '>', "&gt;");
    var s4 := ReplaceChar(s3, '"', "&quot;");
    ReplaceChar(s4, '\'', "&#039;")
  }

  function HtmlUnescape(input: string): string {
    var s1 := ReplaceCode(input, "&quot;", '"');
    var s2 := ReplaceCode(s1, "&#039;", '\'');
    var s3 := ReplaceCode(s2, "&lt;", '<');
    var s4 := ReplaceCode(s3, "&gt;", '>');
    ReplaceCode(s4, "&amp;", '&')
  }

  // ---------- What each stage of the two chains stands for ----------

  const SPECIAL := {'&', '<', '>', '"', '\''}

  function Entity(c: char): (code: string)
    requires c in SPECIAL
    ensures |code| >= 4 && code[0] == '&' && forall k :: 0 < k < |code| ==> code[k] !in SPECIAL
  {
    match c
    case '&' => "&amp;"
    case '<' => "&lt;"
    case '>' => "&gt;"
    case '"' => "&quot;"
    case _ => "&#039;"
  }

  /** Every character of the set written as its entity. */
  function Coded(s: string, on: set<char>): string
    requires on <= SPECIAL
  {
    if s == "" then "" else (if s[0] in on then Entity(s[0]) else [s[0]]) + Coded(s[1..], on)
  }

  lemma {:induction false} ReplaceCharAppend(a: string, b: string, c: char, code: string)
    ensures ReplaceChar(a + b, c, code) == ReplaceChar(a, c, code) + ReplaceChar(b, c, code)
  {
    if a == "" {
      assert a + b == b;
    } else {
      assert (a + b)[1..] == a[1..] + b;
      ReplaceCharAppend(a[1..], b, c, code);
    }
  }

  lemma {:induction false} ReplaceCharAbsent(s: string, c: char, code: string)
    requires c !in s
    ensures ReplaceChar(s, c, code) == s
  {
    if s != "" {
      ReplaceCharAbsent(s[1..], c, code);
    }
  }

  /** An escaping step codes one more character; the ampersand has to come first. */
  lemma {:induction false} EscapeStep(s: string, on: set<char>, c: char)
    requires on <= SPECIAL && c in SPECIAL - on && (c == '&' ==> on == {})
    ensures ReplaceChar(Coded(s, on), c, Entity(c)) == Coded(s, on + {c})
  {
    if s != "" {
      EscapeStep(s[1..], on, c);
      var head := if s[0] in on then Entity(s[0]) else [s[0]];
      ReplaceCharAppend(head, Coded(s[1..], on), c, Entity(c));
      if s[0] == c {
        assert head == [c] && ReplaceChar(head[1..], c, Entity(c)) == "";
      } else {
        assert c !in head;
        ReplaceCharAbsent(head, c, Entity(c));
      }
    }
  }

  lemma {:induction false} CodedNone(s: string)
    ensures Coded(s, {}) == s
  {
    if s != "" {
      CodedNone(s[1..]);
    }
  }

  /** The chain of five replacements is one pass over the characters. */
  lemma EscapeIsCoding(input: string)
    ensures HtmlEscape(input) == Coded(input, SPECIAL)
  {
    hide Coded, ReplaceChar;
    CodedNone(input);
    EscapeStep(input, {}, '&');
    EscapeStep(input, {'&'}, '<');
    EscapeStep(input, {'&', '<'}, '>');
    EscapeStep(input, {'&', '<', '>'}, '"');
    EscapeStep(input, {'&', '<', '>', '"'}, '\'');
    assert {} + {'&'} == {'&'} && {'&'} + {'<'} == {'&', '<'} && {'&', '<'} + {'>'} == {'&', '<', '>'};
    assert {'&', '<', '>'} + {'"'} == {'&', '<', '>', '"'} && {'&', '<', '>', '"'} + {'\''} == SPECIAL;
  }

  /** No entity begins inside a text without an ampersand. */
  lemma {:induction false} ReplaceCodePasses(a: string, b: string, code: string, c: char)
    requires code != "" && code[0] == '&' && '&' !in a
    ensures ReplaceCode(a + b, code, c) == a + ReplaceCode(b, code, c)
  {
    if a == "" {
      assert a + b == b;
    } else {
      assert (a + b)[1..] == a[1..] + b;
      assert (a + b)[0] != code[0];
      ReplaceCodePasses(a[1..], b, code, c);
    }
  }

  /** Two entities differ in their second character. */
  lemma EntitiesDiffer(c: char, d: char)
    requires c in SPECIAL && d in SPECIAL && c != d
    ensures Entity(c)[1] != Entity(d)[1]
  {
  }

  /** The entity of one character holds no occurrence of another's. */
  lemma OtherEntityStays(d: char, rest: string, c: char)
    requires c in SPECIAL && d in SPECIAL && c != d
    ensures ReplaceCode(Entity(d) + rest, Entity(c), c) == Entity(d) + ReplaceCode(rest, Entity(c), c)
  {
    hide Entity;
    var e, s := Entity(d), Entity(d) + rest;
    EntitiesDiffer(c, d);
    assert s[0] == '&' && s[1] == e[1] && s[1..] == e[1..] + rest;
    ReplaceCodePasses(e[1..], rest, Entity(c), c);
    assert e == ['&'] + e[1..];
  }

  lemma OwnEntityGoes(rest: string, c: char)
    requires c in SPECIAL
    ensures ReplaceCode(Entity(c) + rest, Entity(c), c) == [c] + ReplaceCode(rest, Entity(c), c)
  {
    hide Entity;
    assert (Entity(c) + rest)[|Entity(c)|..] == rest;
  }

  /** An unescaping step decodes one character, as long as every ampersand in the text begins an entity. */
  lemma {:induction false} UnescapeStep(s: string, on: set<char>, c: char)
    requires on <= SPECIAL && c in on && '&' in on
    ensures ReplaceCode(Coded(s, on), Entity(c), c) == Coded(s, on - {c})
  {
    if s == "" {
      assert Coded(s, on) == "";
    } else {
      hide Entity, ReplaceCode;
      UnescapeStep(s[1..], on, c);
      var rest := Coded(s[1..], on);
      if s[0] == c {
        OwnEntityGoes(rest, c);
      } else if s[0] in on {
        OtherEntityStays(s[0], rest, c);
      } else {
        ReplaceCodePasses([s[0]], rest, Entity(c), c);
      }
    }
  }

  /** Unescaping undoes escaping on every string. */
  lemma UnescapeEscape(s: string)
    ensures HtmlUnescape(HtmlEscape(s)) == s
  {
    hide Coded, ReplaceCode, HtmlEscape;
    EscapeIsCoding(s);
    UnescapeStep(s, SPECIAL, '"');
    UnescapeStep(s, {'&', '<', '>', '\''}, '\'');
    UnescapeStep(s, {'&', '<', '>'}, '<');
    UnescapeStep(s, {'&', '>'}, '>');
    UnescapeStep(s, {'&'}, '&');
    assert SPECIAL - {'"'} == {'&', '<', '>', '\''} && {'&', '<', '>', '\''} - {'\''} == {'&', '<', '>'};
    assert {'&', '<', '>'} - {'<'} == {'&', '>'} && {'&', '>'} - {'>'} == {'&'} && {'&'} - {'&'} == {};
    CodedNone(s);
  }

  /** Escaped text holds no markup: of the special characters only ampersands remain, each at the head of an entity. */
  lemma EscapedIsInert(s: string, k: nat)
    requires k < |HtmlEscape(s)| && HtmlEscape(s)[k] in SPECIAL
    ensures HtmlEscape(s)[k] == '&' && exists c :: c in SPECIAL && c in s && Entity(c) <= HtmlEscape(s)[k..]
  {
    EscapeIsCoding(s);
    hide HtmlEscape;
    CodedIsInert(s, k);
  }

  lemma {:induction false} CodedIsInert(s: string, k: nat)
    requires k < |Coded(s, SPECIAL)| && Coded(s, SPECIAL)[k] in SPECIAL
    ensures Coded(s, SPECIAL)[k] == '&' && exists c :: c in SPECIAL && c in s && Entity(c) <= Coded(s, SPECIAL)[k..]
  {
    var head := if s[0] in SPECIAL then Entity(s[0]) else [s[0]];
    var rest := Coded(s[1..], SPECIAL);
    if k < |head| {
      assert (head + rest)[k] == head[k];
      assert k == 0 && s[0] in SPECIAL && Entity(s[0]) <= (head + rest)[0..];
    } else {
      assert (head + rest)[k] == rest[k - |head|] && (head + rest)[k..] == rest[k - |head|..];
      CodedIsInert(s[1..], k - |head|);
      var c :| c in SPECIAL && c in s[1..] && Entity(c) <= rest[k - |head|..];
      assert c in s;
    }
  }

  /** The text is escaped character by character. */
  lemma EscapeAppend(s: string, t: string)
    ensures HtmlEscape(s + t) == HtmlEscape(s) + HtmlEscape(t)
  {
    EscapeIsCoding(s + t);
    EscapeIsCoding(s);
    EscapeIsCoding(t);
    hide HtmlEscape;
    CodedAppend(s, t);
  }

  lemma {:induction false} CodedAppend(s: string, t: string)
    ensures Coded(s + t, SPECIAL) == Coded(s, SPECIAL) + Coded(t, SPECIAL)
  {
    hide Entity;
    if s == "" {
      assert s + t == t;
    } else {
      assert (s + t)[1..] == s[1..] + t;
      CodedAppend(s[1..], t);
    }
  }

  /** The five special characters become these entities, any other character stays. */
  lemma EscapeOne(c: char)
    ensures HtmlEscape("&") == "&amp;" && HtmlEscape("<") == "&lt;" && HtmlEscape(">") == "&gt;"
    ensures HtmlEscape("\"") == "&quot;" && HtmlEscape("'") == "&#039;"
    ensures c !in "&<>\"'" ==> HtmlEscape([c]) == [c]
  {
    hide HtmlEscape;
    forall d: char
      ensures HtmlEscape([d]) == if d in SPECIAL then Entity(d) else [d]
    {
      EscapeIsCoding([d]);
      CodedOne(d);
    }
    assert HtmlEscape(['&']) == Entity('&') && HtmlEscape(['<']) == Entity('<') && HtmlEscape(['>']) == Entity('>');
    assert HtmlEscape(['"']) == Entity('"') && HtmlEscape(['\'']) == Entity('\'');
    assert "&" == ['&'] && "<" == ['<'] && ">" == ['>'] && "\"" == ['"'] && "'" == ['\''];
  }

  lemma CodedOne(d: char)
    ensures Coded([d], SPECIAL) == if d in SPECIAL then Entity(d) else [d]
  {
    hide Entity;
    assert [d][1..] == "" && Coded("", SPECIAL) == "";
  }
}
