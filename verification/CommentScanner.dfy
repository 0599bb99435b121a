/** The comment extractor: a scanner that jumps through each line and carries an open
    triple quote from line to line, shown equal to one finite automaton that reads the whole
    text a character at a time. */
module CommentScanner {
  import opened CommentRules
  import opened Texts
  import opened Wrappers

  // ---------- Text ----------

  predicate EndsLine(s: string) { s != [] && s[|s| - 1] == '\n' }

  /** A newline can only be the last character. */
  ghost predicate IsLine(s: string) {
    forall i :: 0 <= i < |s| - 1 ==> s[i] != '\n'
  }

  /** What `readlines` can return. */
  ghost predicate IsFile(lines: seq<string>) {
    forall k :: 0 <= k < |lines| ==> lines[k] != [] && IsLine(lines[k]) && (k < |lines| - 1 ==> EndsLine(lines[k]))
  }

  function Concat(lines: seq<string>): string {
    if lines == [] then [] else Concat(lines[..|lines| - 1]) + lines[|lines| - 1]
  }

  // ---------- The automaton ----------

  datatype Mode =
    | Code
    | One(q: char)                   // one quote read in code
    | Two(q: char)                   // two equal quotes read in code
    | Str(q: char, escaped: bool)
    | Triple(q: char, run: nat)      // inside triple quotes, after `run` closing candidates
    | Comment

  predicate IsQuote(c: char) { c == '\'' || c == '"' }

  function ReadCode(c: char): Mode {
    if IsQuote(c) then One(c) else if c == '#' then Comment else Code
  }

  /** A newline ends comments and ordinary strings, but not triple-quoted ones. */
  function Read(m: Mode, c: char): Mode {
    match m
    case Code => ReadCode(c)
    case One(q) => if c == q then Two(q) else if c == '\n' then Code else Str(q, c == '\\')
    case Two(q) => if c == q then Triple(q, 0) else ReadCode(c)
    case Str(q, escaped) =>
      if c == '\n' then Code else if escaped then Str(q, false) else if c == '\\' then Str(q, true)
      else if c == q then Code else m
    case Triple(q, run) => if c != q then Triple(q, 0) else if run >= 2 then Code else Triple(q, run + 1)
    case Comment => if c == '\n' then Code else Comment
  }

  /** The whole run: current mode, the finished lines' comments, and the unfinished line so far. */
  datatype Scan = Scan(mode: Mode, finished: seq<string>, pending: string, open: bool)

  function ReadOn(s: Scan, c: char): Scan {
    if c == '\n' then Scan(Read(s.mode, c), s.finished + [Strip(s.pending)], "", false)
    else s.(mode := Read(s.mode, c), pending := if s.mode == Comment then s.pending + [c] else s.pending, open := true)
  }

  function ScanText(text: string): Scan {
    if text == [] then Scan(Code, [], "", false) else ReadOn(ScanText(text[..|text| - 1]), text[|text| - 1])
  }

  /** One comment text per line, empty where the line has none. */
  function CommentsOf(text: string): seq<string> {
    var s := ScanText(text);
    s.finished + if s.open then [Strip(s.pending)] else []
  }

  // The same run restricted to one line.

  function ModeAfter(m: Mode, s: string): Mode {
    if s == [] then m else Read(ModeAfter(m, s[..|s| - 1]), s[|s| - 1])
  }

  function CommentText(m: Mode, s: string): string {
    if s == [] then []
    else
      var before := s[..|s| - 1];
      CommentText(m, before) + if ModeAfter(m, before) == Comment && s[|s| - 1] != '\n' then [s[|s| - 1]] else []
  }

  lemma ReadNext(m: Mode, line: string, i: nat)
    requires i < |line|
    ensures ModeAfter(m, line[..i + 1]) == Read(ModeAfter(m, line[..i]), line[i])
    ensures CommentText(m, line[..i + 1])
         == CommentText(m, line[..i]) + if ModeAfter(m, line[..i]) == Comment && line[i] != '\n' then [line[i]] else []
  {
    assert line[..i + 1][..i] == line[..i];
  }

  // ---------- What the automaton means ----------

  lemma {:induction false} RunsCompose(m: Mode, a: string, b: string)
    ensures ModeAfter(m, a + b) == ModeAfter(ModeAfter(m, a), b)
    ensures CommentText(m, a + b) == CommentText(m, a) + CommentText(ModeAfter(m, a), b)
  {
    if b == [] {
      assert a + b == a;
    } else {
      assert (a + b)[..|a + b| - 1] == a + b[..|b| - 1];
      RunsCompose(m, a, b[..|b| - 1]);
    }
  }

  lemma ReadOne(m: Mode, c: char)
    ensures ModeAfter(m, [c]) == Read(m, c)
    ensures CommentText(m, [c]) == if m == Comment && c != '\n' then [c] else []
  {
    assert [c][..0] == [];
  }

  /** No hash, no quotes. */
  predicate IsPlain(s: string) { forall i :: 0 <= i < |s| ==> s[i] != '#' && s[i] != '\'' && s[i] != '"' }

  lemma {:induction false} PlainStaysCode(s: string)
    requires IsPlain(s)
    ensures ModeAfter(Code, s) == Code && CommentText(Code, s) == []
  {
    if s == [] {
    } else {
      PlainStaysCode(s[..|s| - 1]);
    }
  }

  lemma {:induction false} CommentStays(s: string)
    requires '\n' !in s
    ensures ModeAfter(Comment, s) == Comment && CommentText(Comment, s) == s
  {
    if s == [] {
    } else {
      assert s[|s| - 1] in s && s == s[..|s| - 1] + [s[|s| - 1]];
      CommentStays(s[..|s| - 1]);
    }
  }

  /** After plain code, a hash starts a comment that goes to the end of the line. */
  lemma HashStartsComment(code: string, comment: string)
    requires IsPlain(code) && '\n' !in comment
    ensures CommentText(Code, code + ("#" + comment)) == comment
    ensures ModeAfter(Code, code + ("#" + comment) + "\n") == Code
  {
    PlainStaysCode(code);
    RunsCompose(Code, code, "#" + comment);
    RunsCompose(Code, "#", comment);
    ReadOne(Code, '#');
    CommentStays(comment);
    RunsCompose(Code, code + ("#" + comment), "\n");
    ReadOne(Comment, '\n');
  }

  /** No closing quote, no backslash, no newline; anything else, a hash too. */
  predicate IsStringBody(s: string, q: char) {
    s != [] && forall i :: 0 <= i < |s| ==> s[i] != q && s[i] != '\\' && s[i] != '\n'
  }

  lemma {:induction false} StringBodyStays(s: string, q: char)
    requires IsQuote(q) && IsStringBody(s, q)
    ensures ModeAfter(One(q), s) == Str(q, false) && CommentText(One(q), s) == []
  {
    if |s| == 1 {
      assert s[..0] == [];
    } else {
      StringBodyStays(s[..|s| - 1], q);
    }
  }

  /** An ordinary string hides what it contains, and code goes on after it. */
  lemma StringHides(q: char, body: string)
    requires (q == '\'' || q == '"') && IsStringBody(body, q)
    ensures ModeAfter(Code, [q] + (body + [q])) == Code && CommentText(Code, [q] + (body + [q])) == []
  {
    RunsCompose(Code, [q], body + [q]);
    RunsCompose(One(q), body, [q]);
    ReadOne(Code, q);
    StringBodyStays(body, q);
    ReadOne(Str(q, false), q);
  }

  /** In a string, a backslash takes the next character with it, a quote too; a newline ends the string regardless. */
  lemma EscapesAndNewlines(q: char, c: char)
    requires IsQuote(q)
    ensures c != '\n' ==> ModeAfter(Str(q, false), ['\\', c]) == Str(q, false)
    ensures ModeAfter(Str(q, false), "\n") == Code && ModeAfter(Comment, "\n") == Code
    ensures forall run: nat :: ModeAfter(Triple(q, run), "\n") == Triple(q, 0)
  {
    assert ['\\', c][..1] == ['\\'];
    ReadOne(Str(q, false), '\\');
    ReadOne(Str(q, false), '\n');
    ReadOne(Comment, '\n');
    forall run: nat ensures ModeAfter(Triple(q, run), "\n") == Triple(q, 0) { ReadOne(Triple(q, run), '\n'); }
  }

  lemma {:induction false} TripleBodyStays(body: string, q: char)
    requires IsQuote(q) && q !in body
    ensures ModeAfter(Triple(q, 0), body) == Triple(q, 0) && CommentText(Triple(q, 0), body) == []
  {
    if body == [] {
    } else {
      assert body[|body| - 1] in body;
      TripleBodyStays(body[..|body| - 1], q);
    }
  }

  lemma ThreeQuotes(q: char)
    requires IsQuote(q)
    ensures ModeAfter(Code, [q, q, q]) == Triple(q, 0) && CommentText(Code, [q, q, q]) == []
    ensures ModeAfter(Triple(q, 0), [q, q, q]) == Code && CommentText(Triple(q, 0), [q, q, q]) == []
  {
    assert [q, q, q][..2] == [q, q] && [q, q][..1] == [q];
    ReadOne(Code, q);
    ReadOne(Triple(q, 0), q);
  }

  /** A triple-quoted string hides what it contains over any number of lines. */
  lemma TripleHides(q: char, body: string)
    requires (q == '\'' || q == '"') && q !in body
    ensures var s := [q, q, q] + (body + [q, q, q]);
            ModeAfter(Code, s) == Code && CommentText(Code, s) == []
  {
    ThreeQuotes(q);
    TripleBodyStays(body, q);
    RunsCompose(Code, [q, q, q], body + [q, q, q]);
    RunsCompose(Triple(q, 0), body, [q, q, q]);
  }

  // ---------- The jumps ----------

  predicate TripleAt(line: string, q: char, i: nat) {
    i + 3 <= |line| && line[i] == q && line[i + 1] == q && line[i + 2] == q
  }

  /** `line.find(marker, from)` for the marker of three quotes q. */
  function Find(line: string, q: char, from: nat): (end: Option<nat>)
    ensures end.Some? ==> from <= end.value && TripleAt(line, q, end.value)
    ensures forall j: nat :: from <= j && (end.Some? ==> j < end.value) ==> !TripleAt(line, q, j)
    decreases |line| - from
  {
    if from >= |line| then None else if TripleAt(line, q, from) then Some(from) else Find(line, q, from + 1)
  }

  /** How many quotes in a row, at most two, end at p, counted from `from`. */
  function RunBefore(line: string, q: char, from: nat, p: nat): nat
    requires from <= p <= |line|
  {
    if p == from || line[p - 1] != q then 0 else if p == from + 1 || line[p - 2] != q then 1 else 2
  }

  lemma TripleCharacter(m: Mode, line: string, q: char, from: nat, p: nat)
    requires from < p <= |line| && ModeAfter(m, line[..p - 1]) == Triple(q, RunBefore(line, q, from, p - 1))
    requires p - 3 >= from ==> !TripleAt(line, q, p - 3)
    ensures ModeAfter(m, line[..p]) == Triple(q, RunBefore(line, q, from, p))
    ensures CommentText(m, line[..p]) == CommentText(m, line[..p - 1])
  {
    ReadNext(m, line, p - 1);
  }

  /** Inside triple quotes nothing happens until the first closing marker is complete. */
  lemma {:induction false} StaysTriple(m: Mode, line: string, q: char, from: nat, p: nat)
    requires from <= p <= |line| && ModeAfter(m, line[..from]) == Triple(q, 0)
    requires forall j: nat :: from <= j && j + 3 <= p ==> !TripleAt(line, q, j)
    ensures ModeAfter(m, line[..p]) == Triple(q, RunBefore(line, q, from, p))
    ensures CommentText(m, line[..p]) == CommentText(m, line[..from])
  {
    if from == p {
    } else {
      StaysTriple(m, line, q, from, p - 1);
      TripleCharacter(m, line, q, from, p);
    }
  }

  lemma JumpToClose(m: Mode, line: string, q: char, from: nat, end: nat)
    requires from <= end && TripleAt(line, q, end) && ModeAfter(m, line[..from]) == Triple(q, 0)
    requires forall j: nat :: from <= j < end ==> !TripleAt(line, q, j)
    ensures ModeAfter(m, line[..end + 3]) == Code
    ensures CommentText(m, line[..end + 3]) == CommentText(m, line[..from])
  {
    StaysTriple(m, line, q, from, end + 2);
    ReadNext(m, line, end + 2);
  }

  /** The end of the line's content, before its newline if it has one. */
  function ContentEnd(line: string): nat { if EndsLine(line) then |line| - 1 else |line| }

  lemma {:induction false} CommentRuns(m: Mode, line: string, start: nat, p: nat)
    requires IsLine(line) && start <= p <= ContentEnd(line)
    requires ModeAfter(m, line[..start]) == Comment && CommentText(m, line[..start]) == []
    ensures ModeAfter(m, line[..p]) == Comment && CommentText(m, line[..p]) == line[start..p]
  {
    if start == p {
    } else {
      CommentRuns(m, line, start, p - 1);
      ReadNext(m, line, p - 1);
      assert line[start..p] == line[start..p - 1] + [line[p - 1]];
    }
  }

  /** The automaton's mode at the start of a line, from the carried quote. */
  function Carried(open: Option<char>): Mode {
    if open.Some? then Triple(open.value, 0) else Code
  }

  /** How the scanner's variables at index i show the automaton's mode there. */
  ghost predicate Shows(line: string, i: nat, quote: Option<char>, escaped: bool, m: Mode) {
    match quote
    case None => m == Code || (m.Two? && (i < |line| ==> line[i] != m.q))
    case Some(q) =>
      IsQuote(q) && (m == Str(q, escaped) ||
                     (m == One(q) && !escaped && !(i + 1 < |line| && line[i] == q == line[i + 1])))
  }

  /** A comment found at index i is all the automaton reads as comment in this line. */
  lemma FoundComment(m: Mode, line: string, i: nat)
    requires IsLine(line) && i < |line| && line[i] == '#'
    requires Shows(line, i, None, false, ModeAfter(m, line[..i])) && CommentText(m, line[..i]) == []
    ensures Strip(line[i + 1..]) == Strip(CommentText(m, line))
    ensures EndsLine(line) ==> ModeAfter(m, line) == Code
  {
    ReadNext(m, line, i);
    var n := ContentEnd(line);
    CommentRuns(m, line, i + 1, n);
    assert line[..|line|] == line;
    if EndsLine(line) {
      ReadNext(m, line, n);
      assert line[..n + 1] == line;
      assert line[i + 1..] == line[i + 1..n] + ['\n'];
      assert CommentText(m, line) == line[i + 1..n];
      StripDropsNewline(line[i + 1..n]);
    } else {
      assert line[i + 1..] == line[i + 1..n];
    }
  }

  /** The scanner's variables at index i, with nothing but code and strings read so far. */
  ghost predicate Tracks(m: Mode, line: string, i: nat, open: Option<char>, quote: Option<char>, escaped: bool) {
    && i <= |line|
    && CommentText(m, line[..i]) == []
    && (quote == None ==> !escaped)
    && match open
       case Some(q) => IsQuote(q) && quote == None && ModeAfter(m, line[..i]) == Triple(q, 0)
       case None =>
         && (i < |line| ==> Shows(line, i, quote, escaped, ModeAfter(m, line[..i])))
         && (i == |line| && EndsLine(line) ==> ModeAfter(m, line[..i]) == Code)
  }

  lemma StringCharacter(m: Mode, line: string, i: nat, q: char, escaped: bool)
    requires IsLine(line) && i < |line| && Tracks(m, line, i, None, Some(q), escaped)
    ensures var c := line[i];
            if escaped then Tracks(m, line, i + 1, None, Some(q), false)
            else if c == '\\' then Tracks(m, line, i + 1, None, Some(q), true)
            else Tracks(m, line, i + 1, None, if c == q then None else Some(q), false)
  {
    ReadNext(m, line, i);
  }

  lemma CodeCharacter(m: Mode, line: string, i: nat)
    requires IsLine(line) && i < |line| && Tracks(m, line, i, None, None, false)
    requires !TripleAt(line, '"', i) && !TripleAt(line, '\'', i) && line[i] != '#'
    ensures Tracks(m, line, i + 1, None, if IsQuote(line[i]) then Some(line[i]) else None, false)
  {
    ReadNext(m, line, i);
  }

  lemma TripleOpens(m: Mode, line: string, i: nat, q: char)
    requires IsQuote(q) && TripleAt(line, q, i) && Tracks(m, line, i, None, None, false)
    ensures Tracks(m, line, i + 3, Some(q), None, false)
  {
    ReadNext(m, line, i);
    ReadNext(m, line, i + 1);
    ReadNext(m, line, i + 2);
  }

  /** Jumping to the closing marker, or to the end of the line, matches the automaton. */
  lemma TripleJumps(m: Mode, line: string, i: nat, q: char)
    requires IsLine(line) && Tracks(m, line, i, Some(q), None, false)
    ensures match Find(line, q, i)
            case Some(end) => Tracks(m, line, end + 3, None, None, false)
            case None => CommentText(m, line) == [] && (EndsLine(line) ==> ModeAfter(m, line) == Triple(q, 0))
  {
    assert line[..|line|] == line;
    var end := Find(line, q, i);
    if end.Some? { JumpToClose(m, line, q, i, end.value); } else { StaysTriple(m, line, q, i, |line|); }
  }

  /** The comment of one line and the carried quote, computed with jumps, are those of the automaton. */
  method ExtractPythonComment(line: string, multilineQuote: Option<char>)
    returns (open: Option<char>, comment: string)
    requires IsLine(line)
    requires multilineQuote.Some? ==> IsQuote(multilineQuote.value)
    ensures open.Some? ==> IsQuote(open.value)
    ensures comment == Strip(CommentText(Carried(multilineQuote), line))
    ensures EndsLine(line) ==> ModeAfter(Carried(multilineQuote), line) == Carried(open)
  {
    ghost var m := Carried(multilineQuote);
    open := multilineQuote;
    var i := 0;
    var quote: Option<char> := None;
    var escaped := false;
    while i < |line|
      invariant Tracks(m, line, i, open, quote, escaped)
    {
      if open.Some? {
        TripleJumps(m, line, i, open.value);
        var end := Find(line, open.value, i);
        if end.None? {
          return open, "";
        }
        i := end.value + 3;
        open := None;
        continue;
      }
      var c := line[i];
      if quote.Some? {
        StringCharacter(m, line, i, quote.value, escaped);
        if escaped {
          escaped := false;
        } else if c == '\\' {
          escaped := true;
        } else if c == quote.value {
          quote := None;
        }
        i := i + 1;
        continue;
      }
      if TripleAt(line, '"', i) || TripleAt(line, '\'', i) {
        TripleOpens(m, line, i, c);
        TripleJumps(m, line, i + 3, c);
        var end := Find(line, c, i + 3);
        if end.None? {
          return Some(c), "";
        }
        i := end.value + 3;
        continue;
      }
      if IsQuote(c) {
        CodeCharacter(m, line, i);
        quote := Some(c);
        i := i + 1;
        continue;
      }
      if c == '#' {
        FoundComment(m, line, i);
        return open, Strip(line[i + 1..]);
      }
      CodeCharacter(m, line, i);
      i := i + 1;
    }
    assert line[..|line|] == line;
    return open, "";
  }

  // ---------- Whole files ----------

  /** A character starts a new line after a newline, and otherwise extends the last line. */
  function Extended(lines: seq<string>, c: char): seq<string> {
    if lines == [] || EndsLine(lines[|lines| - 1]) then lines + [[c]]
    else lines[..|lines| - 1] + [lines[|lines| - 1] + [c]]
  }

  /** The lines of a text, each with its newline. */
  function ReadLines(text: string): seq<string> {
    if text == [] then [] else Extended(ReadLines(text[..|text| - 1]), text[|text| - 1])
  }

  lemma ConcatAppend(lines: seq<string>, line: string)
    ensures Concat(lines + [line]) == Concat(lines) + line
  {
    assert (lines + [line])[..|lines|] == lines;
  }

  lemma ExtendedIsFile(lines: seq<string>, c: char)
    requires IsFile(lines)
    ensures IsFile(Extended(lines, c))
  {
  }

  lemma ExtendedConcat(lines: seq<string>, c: char)
    ensures Concat(Extended(lines, c)) == Concat(lines) + [c]
  {
    if lines == [] || EndsLine(lines[|lines| - 1]) {
      ConcatAppend(lines, [c]);
    } else {
      ConcatAppend(lines[..|lines| - 1], lines[|lines| - 1] + [c]);
    }
  }

  lemma {:induction false} ReadLinesIsFile(text: string)
    ensures IsFile(ReadLines(text))
    ensures Concat(ReadLines(text)) == text
  {
    if text == [] {
    } else {
      var before, c := text[..|text| - 1], text[|text| - 1];
      ReadLinesIsFile(before);
      ExtendedIsFile(ReadLines(before), c);
      ExtendedConcat(ReadLines(before), c);
      assert text == before + [c];
    }
  }

  lemma ScanNext(text: string, c: char)
    ensures ScanText(text + [c]) == ReadOn(ScanText(text), c)
  {
    assert (text + [c])[..|text|] == text;
  }

  /** The run after some characters of a line, none of them its newline, that began in state s. */
  ghost function LineScan(s: Scan, read: string): Scan {
    Scan(ModeAfter(s.mode, read), s.finished, CommentText(s.mode, read), read != [])
  }

  lemma LineScanNext(s: Scan, read: string, c: char)
    requires c != '\n'
    ensures LineScan(s, read + [c]) == ReadOn(LineScan(s, read), c)
  {
    assert (read + [c])[..|read|] == read;
  }

  /** Reading on over the content of one line from the start of that line. */
  lemma {:induction false} ScanContent(text: string, line: string, p: nat)
    requires IsLine(line) && p <= ContentEnd(line) && !ScanText(text).open && ScanText(text).pending == []
    ensures ScanText(text + line[..p]) == LineScan(ScanText(text), line[..p])
  {
    if p == 0 {
      assert text + line[..0] == text;
    } else {
      var read, c := line[..p - 1], line[p - 1];
      ScanContent(text, line, p - 1);
      LineScanNext(ScanText(text), read, c);
      ScanNext(text + read, c);
      assert line[..p] == read + [c];
      assert text + (read + [c]) == text + read + [c];
    }
  }

  lemma NewlineEndsLine(s: Scan, read: string)
    ensures ReadOn(LineScan(s, read), '\n')
         == Scan(ModeAfter(s.mode, read + ['\n']), s.finished + [Strip(CommentText(s.mode, read + ['\n']))], [], false)
  {
    assert (read + ['\n'])[..|read|] == read;
    assert CommentText(s.mode, read + ['\n']) == CommentText(s.mode, read);
  }

  lemma ScanNewline(text: string, line: string)
    requires IsLine(line) && EndsLine(line) && !ScanText(text).open && ScanText(text).pending == []
    ensures var s := ScanText(text);
            ScanText(text + line) ==
            Scan(ModeAfter(s.mode, line), s.finished + [Strip(CommentText(s.mode, line))], [], false)
  {
    var read := line[..|line| - 1];
    ScanContent(text, line, |line| - 1);
    NewlineEndsLine(ScanText(text), read);
    ScanNext(text + read, '\n');
    assert line == read + ['\n'];
    assert text + (read + ['\n']) == text + read + ['\n'];
  }

  /** Reading on over one whole line adds that line's comment. */
  lemma ScanLine(text: string, line: string)
    requires IsLine(line) && line != [] && !ScanText(text).open && ScanText(text).pending == []
    ensures CommentsOf(text + line) == CommentsOf(text) + [Strip(CommentText(ScanText(text).mode, line))]
    ensures EndsLine(line) ==>
              ScanText(text + line) == Scan(ModeAfter(ScanText(text).mode, line), CommentsOf(text + line), [], false)
  {
    if EndsLine(line) {
      ScanNewline(text, line);
    } else {
      ScanContent(text, line, |line|);
      assert line[..|line|] == line;
    }
  }

  /** After k lines: the comments so far are the automaton's, and it stands where the carried quote says. */
  ghost predicate InStep(lines: seq<string>, k: nat, open: Option<char>, comments: seq<string>) {
    && k <= |lines| && |comments| == k
    && (open.Some? ==> IsQuote(open.value))
    && comments == CommentsOf(Concat(lines[..k]))
    && (k == 0 || EndsLine(lines[k - 1]) ==> ScanText(Concat(lines[..k])) == Scan(Carried(open), comments, [], false))
  }

  lemma NextLine(lines: seq<string>, k: nat, before: Option<char>, comments: seq<string>, after: Option<char>)
    requires IsFile(lines) && k < |lines| && InStep(lines, k, before, comments)
    requires after.Some? ==> IsQuote(after.value)
    requires EndsLine(lines[k]) ==> ModeAfter(Carried(before), lines[k]) == Carried(after)
    ensures InStep(lines, k + 1, after, comments + [Strip(CommentText(Carried(before), lines[k]))])
  {
    assert lines[..k + 1][..k] == lines[..k];
    ScanLine(Concat(lines[..k]), lines[k]);
  }

  /** The violations of a Python file are exactly those of the comments the automaton finds in the whole text. */
  method CheckPythonFile(lines: seq<string>, classes: Classes) returns (violations: seq<Violation>)
    requires IsFile(lines)
    ensures AreViolations(violations, CommentsOf(Concat(lines)), classes)
    ensures |CommentsOf(Concat(lines))| == |lines|
  {
    violations := [];
    var open: Option<char> := None;
    var k := 0;
    ghost var comments: seq<string> := [];
    while k < |lines|
      invariant 0 <= k <= |lines| && InStep(lines, k, open, comments)
      invariant AreViolations(violations, comments, classes)
    {
      var carried := open;
      var comment: string;
      open, comment := ExtractPythonComment(lines[k], carried);
      NextLine(lines, k, carried, comments, open);
      k := k + 1;
      var found := CheckComment(comment, k, classes);
      LineAdds(violations, comments, comment, found, classes);
      violations := violations + found;
      comments := comments + [comment];
    }
    assert lines[..k] == lines;
  }

  lemma TodoLineComment()
    ensures CommentsOf("# TODO: x") == ["TODO: x"]
  {
    var line, rest := "# TODO: x", " TODO: x";
    assert line[..0] == [] && line[1..] == rest && rest[1..] == "TODO: x";
    assert !IsSpace(rest[|rest| - 1]) && IsSpace(rest[0]) && !IsSpace("TODO: x"[0]);
    assert Strip(rest) == "TODO: x";
    FoundComment(Code, line, 0);
    ScanLine([], line);
    assert [] + line == line;
  }

  /** A file whose one line is "# TODO: x" violates the step rule, and no check of it says so. */
  lemma TodoLineIsMissed(classes: Classes, violations: seq<Violation>)
    requires AreViolations(violations, CommentsOf("# TODO: x"), classes)
    ensures Violates(classes, StepRecord, CommentsOf("# TODO: x")[0])
    ensures forall v :: v in violations ==> v.rule != StepRecord
  {
    TodoLineComment();
    LeadingTodoIsMissed(classes);
  }
}
