/** The few JavaScript string facts several of the modelled files rely on. */
module Text {

  /** The characters of the regular-expression class \s, which are also the ones trim() removes. */
  predicate IsSpace(c: char) {
    || '\t' <= c <= '\r' || c == ' ' || c == '\U{A0}' || c == '\U{1680}' || '\U{2000}' <= c <= '\U{200A}'
    || c == '\U{2028}' || c == '\U{2029}' || c == '\U{202F}' || c == '\U{205F}' || c == '\U{3000}' || c == '\U{FEFF}'
  }

  predicate AllSpace(s: string) {
    forall k :: 0 <= k < |s| ==> IsSpace(s[k])
  }

  predicate IsDigit(c: char) {
    '0' <= c <= '9'
  }

  /** trim(), from its two ends. */
  function TrimEnd(s: string): (r: string)
    ensures r <= s
  {
    if s == "" then "" else if IsSpace(s[|s| - 1]) then TrimEnd(s[..|s| - 1]) else s
  }

  function TrimStart(s: string): (r: string)
    ensures |r| <= |s|
  {
    if s == "" then "" else if IsSpace(s[0]) then TrimStart(s[1..]) else s
  }

  function Trim(s: string): string {
    TrimStart(TrimEnd(s))
  }

  /** join('') of an array of strings. */
  function Concat(parts: seq<string>): string {
    if parts == [] then "" else parts[0] + Concat(parts[1..])
  }

  lemma {:induction false} ConcatAppend(s: seq<string>, t: seq<string>)
    ensures Concat(s + t) == Concat(s) + Concat(t)
  {
    if s == [] {
      assert s + t == t;
    } else {
      assert (s + t)[1..] == s[1..] + t;
      ConcatAppend(s[1..], t);
    }
  }

  lemma ConcatPush(s: seq<string>, x: string)
    ensures Concat(s + [x]) == Concat(s) + x
  {
    ConcatAppend(s, [x]);
    assert [x][1..] == [];
  }
}
