/** White space and trimming of texts. */
module Texts {

  /** `str.isspace` of one character, which is also what `\s` matches. */
  predicate IsSpace(c: char) {
    '\t' <= c <= '\r' || '\U{1C}' <= c <= ' ' || c == '\U{85}' || c == '\U{A0}' || c == '\U{1680}'
    || '\U{2000}' <= c <= '\U{200A}' || c == '\U{2028}' || c == '\U{2029}' || c == '\U{202F}' || c == '\U{205F}'
    || c == '\U{3000}'
  }

  function StripRight(s: string): string {
    if s != [] && IsSpace(s[|s| - 1]) then StripRight(s[..|s| - 1]) else s
  }

  function StripLeft(s: string): string {
    if s != [] && IsSpace(s[0]) then StripLeft(s[1..]) else s
  }

  function Strip(s: string): string { StripLeft(StripRight(s)) }

  lemma StripDropsNewline(s: string)
    ensures Strip(s + ['\n']) == Strip(s)
  {
    assert (s + ['\n'])[..|s|] == s;
  }

  predicate AllSpace(s: string) { forall i :: 0 <= i < |s| ==> IsSpace(s[i]) }

  lemma {:induction false} StripRightLeaves(s: string)
    ensures var r := StripRight(s);
            r <= s && AllSpace(s[|r|..]) && (r != [] ==> !IsSpace(r[|r| - 1]))
  {
    if s != [] && IsSpace(s[|s| - 1]) {
      var front := s[..|s| - 1];
      StripRightLeaves(front);
      var r := StripRight(front);
      assert s[|r|..] == front[|r|..] + [s[|s| - 1]];
    }
  }

  lemma {:induction false} StripLeftLeaves(s: string)
    ensures var r := StripLeft(s);
            |r| <= |s| && r == s[|s| - |r|..] && AllSpace(s[..|s| - |r|]) && (r != [] ==> !IsSpace(r[0]))
  {
    if s != [] && IsSpace(s[0]) {
      StripLeftLeaves(s[1..]);
      var r := StripLeft(s[1..]);
      assert s[..|s| - |r|] == [s[0]] + s[1..][..|s| - 1 - |r|];
    }
  }

  /** Stripping takes white space off both ends and nothing else, and leaves none at either end. */
  lemma StripTakesOffEnds(s: string) returns (left: nat)
    ensures var r := Strip(s);
            && left + |r| <= |s| && r == s[left..left + |r|]
            && AllSpace(s[..left]) && AllSpace(s[left + |r|..])
            && (r != [] ==> !IsSpace(r[0]) && !IsSpace(r[|r| - 1]))
  {
    var right := StripRight(s);
    StripRightLeaves(s);
    StripLeftLeaves(right);
    var r := Strip(s);
    left := |right| - |r|;
    assert s[..left] == right[..left];
    assert r == right[left..] == s[left..left + |r|];
    assert s[left + |r|..] == s[|right|..];
  }

  /** The white space of Unicode, by code point. */
  lemma SpaceCodes(c: char)
    ensures IsSpace(c) <==>
      var code := c as int;
      || code in {0x20, 0x85, 0xA0, 0x1680, 0x2028, 0x2029, 0x202F, 0x205F, 0x3000}
      || 0x09 <= code <= 0x0D || 0x1C <= code <= 0x1F || 0x2000 <= code <= 0x200A
  {
  }
}
