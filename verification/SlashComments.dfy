/** The line-comment extractor for JavaScript and TypeScript, line by line and with a one-character
    look-ahead, shown equal to an automaton without look-ahead. */
module SlashComments {
  import opened CommentRules
  import opened Texts
  import opened Wrappers

  datatype Mode = Code | Slash | Str(q: char, escaped: bool) | Comment

  predicate IsQuote(c: char) { c == '\'' || c == '"' || c == '`' }

  function ReadCode(c: char): Mode {
    if IsQuote(c) then Str(c, false) else if c == '/' then Slash else Code
  }

  function Read(m: Mode, c: char): Mode {
    match m
    case Code => ReadCode(c)
    case Slash => if c == '/' then Comment else ReadCode(c)
    case Str(q, escaped) =>
      if escaped then Str(q, false) else if c == '\\' then Str(q, true) else if c == q then Code else m
    case Comment => Comment
  }

  function ModeAfter(s: string): Mode {
    if s == [] then Code else Read(ModeAfter(s[..|s| - 1]), s[|s| - 1])
  }

  /** What the automaton reads after the two slashes. */
  function CommentText(s: string): string {
    if s == [] then []
    else CommentText(s[..|s| - 1]) + if ModeAfter(s[..|s| - 1]) == Comment then [s[|s| - 1]] else []
  }

  lemma ReadNext(line: string, i: nat)
    requires i < |line|
    ensures ModeAfter(line[..i + 1]) == Read(ModeAfter(line[..i]), line[i])
    ensures CommentText(line[..i + 1])
         == CommentText(line[..i]) + if ModeAfter(line[..i]) == Comment then [line[i]] else []
  {
    assert line[..i + 1][..i] == line[..i];
  }

  lemma {:induction false} CommentRuns(line: string, start: nat, p: nat)
    requires start <= p <= |line| && ModeAfter(line[..start]) == Comment && CommentText(line[..start]) == []
    ensures ModeAfter(line[..p]) == Comment && CommentText(line[..p]) == line[start..p]
  {
    if start == p {
    } else {
      CommentRuns(line, start, p - 1);
      ReadNext(line, p - 1);
      assert line[start..p] == line[start..p - 1] + [line[p - 1]];
    }
  }

  /** No slash, no quotes. */
  predicate IsPlain(s: string) {
    forall i :: 0 <= i < |s| ==> s[i] != '/' && s[i] != '\'' && s[i] != '"' && s[i] != '`'
  }

  lemma {:induction false} PlainStaysCode(s: string)
    requires IsPlain(s)
    ensures ModeAfter(s) == Code && CommentText(s) == []
  {
    if s == [] {
    } else {
      PlainStaysCode(s[..|s| - 1]);
    }
  }

  /** After plain code, two slashes start a comment that goes to the end of the line. */
  lemma SlashesStartComment(code: string, comment: string)
    requires IsPlain(code)
    ensures CommentText(code + ("//" + comment)) == comment
  {
    var s, n := code + ("//" + comment), |code|;
    PlainStaysCode(code);
    assert s[..n] == code;
    ReadNext(s, n);
    ReadNext(s, n + 1);
    CommentRuns(s, n + 2, |s|);
    assert s[..|s|] == s && s[n + 2..] == comment;
  }

  lemma {:induction false} StringRuns(s: string, start: nat, p: nat, q: char)
    requires start <= p <= |s| && ModeAfter(s[..start]) == Str(q, false) && CommentText(s[..start]) == []
    requires forall i :: start <= i < p ==> s[i] != q && s[i] != '\\'
    ensures ModeAfter(s[..p]) == Str(q, false) && CommentText(s[..p]) == []
  {
    if start == p {
    } else {
      StringRuns(s, start, p - 1, q);
      ReadNext(s, p - 1);
    }
  }

  /** A string after plain code hides what it contains, slashes too, and code goes on after it. */
  lemma StringHides(code: string, q: char, body: string)
    requires q == '\'' || q == '"' || q == '`'
    requires IsPlain(code) && q !in body && '\\' !in body
    ensures ModeAfter(code + ([q] + body + [q])) == Code && CommentText(code + ([q] + body + [q])) == []
  {
    var s, n := code + ([q] + body + [q]), |code|;
    PlainStaysCode(code);
    assert s[..n] == code;
    ReadNext(s, n);
    forall i | n + 1 <= i < n + 1 + |body| ensures s[i] != q && s[i] != '\\' { assert s[i] == body[i - n - 1]; }
    StringRuns(s, n + 1, n + 1 + |body|, q);
    ReadNext(s, n + 1 + |body|);
    assert s[..|s|] == s;
  }

  ghost predicate Tracks(line: string, i: nat, quote: Option<char>, escaped: bool) {
    && i <= |line| && CommentText(line[..i]) == []
    && (i < |line| ==>
          var m := ModeAfter(line[..i]);
          match quote
          case None => !escaped && (m == Code || (m == Slash && line[i] != '/'))
          case Some(q) => m == Str(q, escaped))
  }

  method ExtractSlashComment(line: string) returns (comment: string)
    ensures comment == Strip(CommentText(line))
  {
    var quote: Option<char> := None;
    var escaped := false;
    var i := 0;
    assert line[..|line|] == line;
    while i < |line| - 1
      invariant Tracks(line, i, quote, escaped)
      invariant |line| > 0 ==> i < |line|
    {
      var c := line[i];
      ReadNext(line, i);
      if quote.Some? {
        if escaped {
          escaped := false;
        } else if c == '\\' {
          escaped := true;
        } else if c == quote.value {
          quote := None;
        }
        i := i + 1;
        continue;
      }
      if IsQuote(c) {
        quote := Some(c);
        i := i + 1;
        continue;
      }
      if c == '/' && line[i + 1] == '/' {
        ReadNext(line, i + 1);
        CommentRuns(line, i + 2, |line|);
        assert line[i + 2..|line|] == line[i + 2..];
        return Strip(line[i + 2..]);
      }
      i := i + 1;
    }
    if line != [] { ReadNext(line, i); }
    return "";
  }

  /** One comment text per line, each line read from code on. */
  function CommentsOf(lines: seq<string>): seq<string> {
    if lines == [] then []
    else CommentsOf(lines[..|lines| - 1]) + [Strip(CommentText(lines[|lines| - 1]))]
  }

  /** The violations of a JavaScript or TypeScript file are exactly those of the comments in its lines. */
  method CheckSlashFile(lines: seq<string>, classes: Classes) returns (violations: seq<Violation>)
    ensures AreViolations(violations, CommentsOf(lines), classes)
  {
    violations := [];
    var k := 0;
    while k < |lines|
      invariant 0 <= k <= |lines| && |CommentsOf(lines[..k])| == k
      invariant AreViolations(violations, CommentsOf(lines[..k]), classes)
    {
      var comment := ExtractSlashComment(lines[k]);
      assert lines[..k + 1][..k] == lines[..k];
      k := k + 1;
      var found := CheckComment(comment, k, classes);
      LineAdds(violations, CommentsOf(lines[..k - 1]), comment, found, classes);
      violations := violations + found;
    }
    assert lines[..k] == lines;
  }
}
