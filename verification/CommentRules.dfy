/** The comment rules: four patterns, where the code searches for them, and exactly which comments that misses.

    Character classes beyond white space, and case folding, are arbitrary. */
module CommentRules {
  import opened Texts

  datatype Rule = Chinese | StepRecord | NonFunctional | Emoji

  /** `\d`, `\w`, and what the case-insensitivity flag identifies. */
  datatype Classes = Classes(isDigit: char -> bool, isWord: char -> bool, fold: char -> char)

  // ---------- Matching at one position ----------

  predicate Same(classes: Classes, anyCase: bool, c: char, d: char) {
    c == d || (anyCase && classes.fold(c) == classes.fold(d))
  }

  predicate TextAt(classes: Classes, anyCase: bool, text: string, s: string, i: nat) {
    i + |text| <= |s| && forall k :: 0 <= k < |text| ==> Same(classes, anyCase, s[i + k], text[k])
  }

  /** `\b` at position i */
  predicate Boundary(classes: Classes, s: string, i: nat) {
    (0 < i <= |s| && classes.isWord(s[i - 1])) != (i < |s| && classes.isWord(s[i]))
  }

  /** `\s+\d+` from j on; `some` says that white space was read already. */
  predicate SpacesThenDigit(classes: Classes, s: string, j: nat, some: bool)
    decreases |s| - j
  {
    j < |s| && ((some && classes.isDigit(s[j])) || (IsSpace(s[j]) && SpacesThenDigit(classes, s, j + 1, true)))
  }

  /** A text between word boundaries. */
  predicate WordAt(classes: Classes, anyCase: bool, text: string, s: string, i: nat) {
    TextAt(classes, anyCase, text, s, i) && Boundary(classes, s, i) && Boundary(classes, s, i + |text|)
  }

  predicate ChineseAt(s: string, i: nat) { i < |s| && '\U{4E00}' <= s[i] <= '\U{9FFF}' }

  predicate StepRecordAt(classes: Classes, anyCase: bool, s: string, i: nat) {
    || (TextAt(classes, anyCase, "Step", s, i) && SpacesThenDigit(classes, s, i + 4, false))
    || TextAt(classes, anyCase, "\U{6B65}\U{9A5F}", s, i)
    || TextAt(classes, anyCase, "TODO", s, i)
    || TextAt(classes, anyCase, "FIXME", s, i)
    || TextAt(classes, anyCase, "XXX", s, i)
    || TextAt(classes, anyCase, "HACK", s, i)
    || TextAt(classes, anyCase, "NOTE:", s, i)
    || TextAt(classes, anyCase, "FIXED", s, i)
    || TextAt(classes, anyCase, "Fixed", s, i)
    || TextAt(classes, anyCase, "Added", s, i)
    || TextAt(classes, anyCase, "Removed", s, i)
    || TextAt(classes, anyCase, "Changed", s, i)
    || TextAt(classes, anyCase, "Updated", s, i)
    || TextAt(classes, anyCase, "\U{8A18}\U{9304}", s, i)
    || TextAt(classes, anyCase, "\U{7D00}\U{9304}", s, i)
  }

  /** In `don.t forget` the point stands for any one character but a newline. */
  predicate DontForgetAt(classes: Classes, anyCase: bool, s: string, i: nat) {
    && TextAt(classes, anyCase, "don", s, i)
    && i + 3 < |s| && s[i + 3] != '\n'
    && TextAt(classes, anyCase, "t forget", s, i + 4)
  }

  predicate NonFunctionalAt(classes: Classes, anyCase: bool, s: string, i: nat) {
    || WordAt(classes, anyCase, "important", s, i)
    || TextAt(classes, anyCase, "\U{91CD}\U{8981}", s, i)
    || DontForgetAt(classes, anyCase, s, i)
    || TextAt(classes, anyCase, "\U{5225}\U{5FD8}\U{8A18}", s, i)
    || WordAt(classes, anyCase, "temporary", s, i)
    || TextAt(classes, anyCase, "\U{81E8}\U{6642}", s, i)
    || WordAt(classes, anyCase, "temp", s, i)
    || TextAt(classes, anyCase, "\U{66AB}\U{6642}", s, i)
    || WordAt(classes, anyCase, "This is", s, i)
    || TextAt(classes, anyCase, "\U{9019}\U{662F}", s, i)
  }

  predicate IsEmoji(c: char) {
    c == '\U{2705}' || c == '\U{274C}' || c == '\U{26A0}' || c == '\U{FE0F}' || c == '\U{1F680}' || c == '\U{1F4A1}'
    || c == '\U{1F527}' || c == '\U{1F4DD}' || c == '\U{1F3AF}' || c == '\U{1F525}' || c == '\U{1F4AF}'
    || c == '\U{2B50}' || c == '\U{1F31F}'
  }

  /** The rule's pattern matches at position i. */
  predicate OccursAt(classes: Classes, anyCase: bool, rule: Rule, s: string, i: nat) {
    match rule
    case Chinese => ChineseAt(s, i)
    case StepRecord => StepRecordAt(classes, anyCase, s, i)
    case NonFunctional => NonFunctionalAt(classes, anyCase, s, i)
    case Emoji => i < |s| && IsEmoji(s[i])
  }

  /** `pattern.search(s, start)` of a pattern compiled without flags; a start beyond the end is the end. */
  predicate Search(classes: Classes, rule: Rule, s: string, start: nat) {
    exists i | 0 <= i <= |s| :: (i >= start || i == |s|) && OccursAt(classes, false, rule, s, i)
  }

  /** The value of the case-insensitivity flag. */
  const IGNORE_CASE := 2

  /** The rules that are searched with the flag. */
  predicate IgnoresCase(rule: Rule) { rule.StepRecord? || rule.NonFunctional? }

  /** The flag is passed where a compiled pattern takes its start position. */
  function StartOf(rule: Rule): nat { if IgnoresCase(rule) then IGNORE_CASE else 0 }

  /** What the code reports: nothing for an empty comment. */
  predicate Reported(classes: Classes, rule: Rule, comment: string) {
    comment != [] && Search(classes, rule, comment, StartOf(rule))
  }

  /** What the flag asks for: the pattern anywhere, in any case for two of the rules. */
  predicate Violates(classes: Classes, rule: Rule, comment: string) {
    exists i | 0 <= i < |comment| :: OccursAt(classes, IgnoresCase(rule), rule, comment, i)
  }

  // ---------- What the patterns are ----------

  /** The text stands at position i. */
  predicate StandsAt(text: string, s: string, i: nat) { i <= |s| && text <= s[i..] }

  lemma TextStands(classes: Classes, text: string, s: string, i: nat)
    ensures TextAt(classes, false, text, s, i) <==> StandsAt(text, s, i)
  {
    if TextAt(classes, false, text, s, i) {
      forall k | 0 <= k < |text| ensures s[i..][k] == text[k] { assert Same(classes, false, s[i + k], text[k]); }
    }
  }

  /** White space from j on, at least once, and then a digit at k. */
  ghost predicate NumberAt(classes: Classes, s: string, j: nat, k: nat) {
    j < k < |s| && (forall m :: j <= m < k ==> IsSpace(s[m])) && classes.isDigit(s[k])
  }

  ghost predicate NumberFollows(classes: Classes, s: string, j: nat) { exists k: nat :: NumberAt(classes, s, j, k) }

  lemma {:induction false} SpacesThenDigitIs(classes: Classes, s: string, j: nat, some: bool)
    ensures SpacesThenDigit(classes, s, j, some)
       <==> NumberFollows(classes, s, j) || (some && j < |s| && classes.isDigit(s[j]))
    decreases |s| - j
  {
    if j >= |s| {
    } else {
      var next := j + 1;
      SpacesThenDigitIs(classes, s, next, true);
      if IsSpace(s[j]) {
        if NumberFollows(classes, s, next) {
          var k: nat :| NumberAt(classes, s, next, k);
          assert NumberAt(classes, s, j, k);
        }
        if next < |s| && classes.isDigit(s[next]) { assert NumberAt(classes, s, j, next); }
      }
      if k: nat :| NumberAt(classes, s, j, k) {
        assert IsSpace(s[j]);
        if k > next { assert NumberAt(classes, s, next, k); }
      }
    }
  }

  ghost const STEP_TEXTS := {
    "\U{6B65}\U{9A5F}", "TODO", "FIXME", "XXX", "HACK", "NOTE:", "FIXED", "Fixed", "Added", "Removed", "Changed",
    "Updated", "\U{8A18}\U{9304}", "\U{7D00}\U{9304}"}

  /** The step rule matches wherever one of its texts stands, or "Step" and a number after white space. */
  lemma StepTextsMatch(classes: Classes, text: string, s: string, i: nat)
    requires StandsAt(text, s, i)
    requires text in STEP_TEXTS || (text == "Step" && NumberFollows(classes, s, i + 4))
    ensures OccursAt(classes, false, StepRecord, s, i)
  {
    TextStands(classes, text, s, i);
    SpacesThenDigitIs(classes, s, i + 4, false);
  }

  /** And nowhere else. */
  lemma OnlyStepTextsMatch(classes: Classes, s: string, i: nat) returns (text: string)
    requires OccursAt(classes, false, StepRecord, s, i)
    ensures StandsAt(text, s, i)
    ensures text in STEP_TEXTS || (text == "Step" && NumberFollows(classes, s, i + 4))
  {
    SpacesThenDigitIs(classes, s, i + 4, false);
    if TextAt(classes, false, "Step", s, i) && NumberFollows(classes, s, i + 4) {
      text := "Step";
    } else {
      text :| text in STEP_TEXTS && TextAt(classes, false, text, s, i);
    }
    TextStands(classes, text, s, i);
  }

  /** A word character on just one side. */
  ghost predicate IsEdge(classes: Classes, s: string, i: nat) {
    var before, after := 0 < i <= |s| && classes.isWord(s[i - 1]), i < |s| && classes.isWord(s[i]);
    (before && !after) || (!before && after)
  }

  ghost const FREE_TEXTS := {
    "\U{91CD}\U{8981}", "\U{5225}\U{5FD8}\U{8A18}", "\U{81E8}\U{6642}", "\U{66AB}\U{6642}", "\U{9019}\U{662F}"}

  ghost const WORDS := {"important", "temporary", "temp", "This is"}

  /** The non-functional rule matches wherever one of its texts stands, one of its words between word boundaries, or
      "don", any character but a newline, and "t forget". */
  ghost predicate NonFunctionalBy(classes: Classes, text: string, s: string, i: nat) {
    StandsAt(text, s, i)
    && (|| text in FREE_TEXTS
        || (text in WORDS && IsEdge(classes, s, i) && IsEdge(classes, s, i + |text|))
        || (text == "don" && i + 3 < |s| && s[i + 3] != '\n' && StandsAt("t forget", s, i + 4)))
  }

  lemma NonFunctionalTextsMatch(classes: Classes, text: string, s: string, i: nat)
    requires NonFunctionalBy(classes, text, s, i)
    ensures OccursAt(classes, false, NonFunctional, s, i)
  {
    TextStands(classes, text, s, i);
    TextStands(classes, "t forget", s, i + 4);
  }

  lemma OnlyNonFunctionalTextsMatch(classes: Classes, s: string, i: nat) returns (text: string)
    requires OccursAt(classes, false, NonFunctional, s, i)
    ensures NonFunctionalBy(classes, text, s, i)
  {
    if DontForgetAt(classes, false, s, i) {
      text := "don";
      TextStands(classes, "t forget", s, i + 4);
    } else if word :| word in WORDS && WordAt(classes, false, word, s, i) {
      text := word;
    } else {
      text :| text in FREE_TEXTS && TextAt(classes, false, text, s, i);
    }
    TextStands(classes, text, s, i);
  }

  /** The other two rules look at one character. */
  lemma OneCharacterRules(classes: Classes, anyCase: bool, s: string, i: nat)
    ensures OccursAt(classes, anyCase, Chinese, s, i) <==> i < |s| && 0x4E00 <= s[i] as int <= 0x9FFF
    ensures OccursAt(classes, anyCase, Emoji, s, i)
       <==> i < |s| && s[i] as int in {0x2705, 0x274C, 0x26A0, 0xFE0F, 0x1F680, 0x1F4A1, 0x1F527, 0x1F4DD, 0x1F3AF,
                                       0x1F525, 0x1F4AF, 0x2B50, 0x1F31F}
  {
  }

  /** In any case, the same with each character up to folding. */
  lemma AnyCaseTexts(classes: Classes, text: string, s: string, i: nat)
    ensures TextAt(classes, true, text, s, i)
       <==> i + |text| <= |s| && forall k :: 0 <= k < |text| ==>
              s[i + k] == text[k] || classes.fold(s[i + k]) == classes.fold(text[k])
  {
    if i + |text| <= |s| {
      if forall k :: 0 <= k < |text| ==> s[i + k] == text[k] || classes.fold(s[i + k]) == classes.fold(text[k]) {
        forall k | 0 <= k < |text| ensures Same(classes, true, s[i + k], text[k]) { }
      }
    }
  }

  // ---------- What is missed ----------

  lemma OccurrenceIsInside(classes: Classes, anyCase: bool, rule: Rule, s: string, i: nat)
    requires OccursAt(classes, anyCase, rule, s, i)
    ensures i < |s|
  {
  }

  lemma TextInAnyCase(classes: Classes, s: string, i: nat)
    ensures forall text :: TextAt(classes, false, text, s, i) ==> TextAt(classes, true, text, s, i)
  {
  }

  lemma AnyCaseIsMore(classes: Classes, rule: Rule, s: string, i: nat)
    requires OccursAt(classes, false, rule, s, i)
    ensures OccursAt(classes, true, rule, s, i)
  {
    TextInAnyCase(classes, s, i);
    TextInAnyCase(classes, s, i + 4);
  }

  ghost predicate OccursFrom(classes: Classes, rule: Rule, s: string, start: nat) {
    exists i: nat :: start <= i && OccursAt(classes, false, rule, s, i)
  }

  /** A rule is reported exactly when its pattern occurs, in its own case, at the start position or later. */
  lemma ReportedIffOccursFromStart(classes: Classes, rule: Rule, comment: string)
    ensures Reported(classes, rule, comment) <==> OccursFrom(classes, rule, comment, StartOf(rule))
    ensures StartOf(rule) == if rule == StepRecord || rule == NonFunctional then 2 else 0
  {
    if Reported(classes, rule, comment) {
      var i :| 0 <= i <= |comment| && (i >= StartOf(rule) || i == |comment|) &&
               OccursAt(classes, false, rule, comment, i);
      OccurrenceIsInside(classes, false, rule, comment, i);
    }
    if OccursFrom(classes, rule, comment, StartOf(rule)) {
      var i: nat :| StartOf(rule) <= i && OccursAt(classes, false, rule, comment, i);
      OccurrenceIsInside(classes, false, rule, comment, i);
    }
  }

  /** In the pattern's own case, a rule reports what occurs anywhere exactly when no occurrence starts at 0 or 1
      or another one starts later; the two rules without the flag always do. */
  lemma FirstTwoPositionsAreLost(classes: Classes, rule: Rule, comment: string)
    ensures (Reported(classes, rule, comment) <==> OccursFrom(classes, rule, comment, 0))
       <==> || !IgnoresCase(rule)
            || (!OccursAt(classes, false, rule, comment, 0) && !OccursAt(classes, false, rule, comment, 1))
            || OccursFrom(classes, rule, comment, 2)
  {
    ReportedIffOccursFromStart(classes, rule, comment);
    if OccursFrom(classes, rule, comment, 0) && !OccursFrom(classes, rule, comment, 2) {
      var i: nat :| OccursAt(classes, false, rule, comment, i);
      assert i < 2;
    }
  }

  /** The exact failure: a comment that violates a rule goes unreported if and only if every occurrence of the
      pattern, in any case, starts before the start position or differs from the pattern in case. So nothing is
      missed by the two rules without the flag. */
  lemma MissedExactlyWhen(classes: Classes, rule: Rule, comment: string)
    requires Violates(classes, rule, comment)
    ensures !Reported(classes, rule, comment)
       <==> forall i: nat :: OccursAt(classes, IgnoresCase(rule), rule, comment, i) ==>
              i < StartOf(rule) || !OccursAt(classes, false, rule, comment, i)
    ensures !Reported(classes, rule, comment) ==> IgnoresCase(rule)
  {
    ReportedIffOccursFromStart(classes, rule, comment);
    forall i: nat | OccursAt(classes, false, rule, comment, i)
      ensures OccursAt(classes, IgnoresCase(rule), rule, comment, i)
    {
      if IgnoresCase(rule) { AnyCaseIsMore(classes, rule, comment, i); }
    }
  }

  lemma ReportsAreViolations(classes: Classes, rule: Rule, comment: string)
    requires Reported(classes, rule, comment)
    ensures Violates(classes, rule, comment)
  {
    ReportedIffOccursFromStart(classes, rule, comment);
    var i: nat :| StartOf(rule) <= i && OccursAt(classes, false, rule, comment, i);
    OccurrenceIsInside(classes, false, rule, comment, i);
    if IgnoresCase(rule) { AnyCaseIsMore(classes, rule, comment, i); }
  }

  // ---------- Missed comments ----------

  /** Every alternative of the step rule starts with one of these. */
  const STEP_STARTS := {'S', '\U{6B65}', 'T', 'F', 'X', 'H', 'N', 'A', 'R', 'C', 'U', '\U{8A18}', '\U{7D00}'}

  lemma StepStarts(classes: Classes, s: string, i: nat)
    requires OccursAt(classes, false, StepRecord, s, i)
    ensures i < |s| && s[i] in STEP_STARTS
  {
    forall text | text != [] && TextAt(classes, false, text, s, i) ensures i < |s| && s[i] == text[0] {
      assert Same(classes, false, s[i + 0], text[0]);
    }
  }

  lemma NoStepAfterTwo(classes: Classes, s: string)
    requires forall i :: 2 <= i < |s| ==> s[i] !in STEP_STARTS
    ensures !Reported(classes, StepRecord, s)
  {
    ReportedIffOccursFromStart(classes, StepRecord, s);
    if i: nat :| 2 <= i && OccursAt(classes, false, StepRecord, s, i) { StepStarts(classes, s, i); }
  }

  lemma StepTextViolates(classes: Classes, s: string, i: nat)
    requires i < |s| && TextAt(classes, true, "TODO", s, i)
    ensures Violates(classes, StepRecord, s)
  {
    assert OccursAt(classes, IgnoresCase(StepRecord), StepRecord, s, i);
  }

  /** "TODO: x" is the very comment the rule is for, and it is missed. */
  lemma LeadingTodoIsMissed(classes: Classes)
    ensures Violates(classes, StepRecord, "TODO: x") && !Reported(classes, StepRecord, "TODO: x")
  {
    var s := "TODO: x";
    StepTextViolates(classes, s, 0);
    assert s[2] == 'D' && s[3] == 'O' && s[4] == ':' && s[5] == ' ' && s[6] == 'x';
    NoStepAfterTwo(classes, s);
  }

  /** So is a "todo" further in, because the search is not case-insensitive. */
  lemma LowerCaseTodoIsMissed(classes: Classes)
    requires classes.fold('t') == classes.fold('T') && classes.fold('o') == classes.fold('O')
    requires classes.fold('d') == classes.fold('D')
    ensures Violates(classes, StepRecord, "a todo") && !Reported(classes, StepRecord, "a todo")
  {
    var s := "a todo";
    assert s[2] == 't' && s[3] == 'o' && s[4] == 'd' && s[5] == 'o';
    StepTextViolates(classes, s, 2);
    NoStepAfterTwo(classes, s);
  }

  // ---------- Checking one comment ----------

  datatype Violation = Violation(lineNumber: nat, rule: Rule)

  function Rank(rule: Rule): nat {
    match rule
    case Chinese => 0
    case StepRecord => 1
    case NonFunctional => 2
    case Emoji => 3
  }

  predicate Before(v: Violation, w: Violation) {
    v.lineNumber < w.lineNumber || (v.lineNumber == w.lineNumber && Rank(v.rule) < Rank(w.rule))
  }

  /** By line and, within a line, in the order of the rules, each at most once. */
  ghost predicate InOrder(violations: seq<Violation>) {
    forall a, b :: 0 <= a < b < |violations| ==> Before(violations[a], violations[b])
  }

  /** The comment's violations of the rules below a rank. */
  ghost predicate FoundBelow(
    found: seq<Violation>, comment: string, lineNumber: nat, classes: Classes, rank: nat)
  {
    && InOrder(found)
    && forall v :: v in found <==>
         v.lineNumber == lineNumber && Rank(v.rule) < rank && Reported(classes, v.rule, comment)
  }

  lemma RuleAdds(
    found: seq<Violation>, comment: string, lineNumber: nat, classes: Classes, rule: Rule)
    requires FoundBelow(found, comment, lineNumber, classes, Rank(rule))
    ensures var more := if Reported(classes, rule, comment) then found + [Violation(lineNumber, rule)] else found;
            FoundBelow(more, comment, lineNumber, classes, Rank(rule) + 1)
  {
    forall a | 0 <= a < |found| ensures Before(found[a], Violation(lineNumber, rule)) { assert found[a] in found; }
    forall v: Violation | Rank(v.rule) == Rank(rule) ensures v.rule == rule { }
  }

  /** Exactly the reported rules, in order, at this line. */
  method CheckComment(comment: string, lineNumber: nat, classes: Classes) returns (found: seq<Violation>)
    ensures InOrder(found)
    ensures forall v :: v in found <==> v.lineNumber == lineNumber && Reported(classes, v.rule, comment)
  {
    found := [];
    if comment != [] {
      RuleAdds(found, comment, lineNumber, classes, Chinese);
      if Search(classes, Chinese, comment, 0) { found := found + [Violation(lineNumber, Chinese)]; }
      RuleAdds(found, comment, lineNumber, classes, StepRecord);
      if Search(classes, StepRecord, comment, IGNORE_CASE) { found := found + [Violation(lineNumber, StepRecord)]; }
      RuleAdds(found, comment, lineNumber, classes, NonFunctional);
      if Search(classes, NonFunctional, comment, IGNORE_CASE) {
        found := found + [Violation(lineNumber, NonFunctional)]; }
      RuleAdds(found, comment, lineNumber, classes, Emoji);
      if Search(classes, Emoji, comment, 0) { found := found + [Violation(lineNumber, Emoji)]; }
    }
  }

  // ---------- Checking the comments of a file ----------

  /** Exactly what is reported of each line's comment, in order; lines are numbered from one. */
  ghost predicate AreViolations(violations: seq<Violation>, comments: seq<string>, classes: Classes) {
    && InOrder(violations)
    && forall v :: v in violations <==>
         1 <= v.lineNumber <= |comments| && Reported(classes, v.rule, comments[v.lineNumber - 1])
  }

  lemma LineAdds(
    violations: seq<Violation>, comments: seq<string>, comment: string, found: seq<Violation>, classes: Classes)
    requires AreViolations(violations, comments, classes) && InOrder(found)
    requires forall v :: v in found <==> v.lineNumber == |comments| + 1 && Reported(classes, v.rule, comment)
    ensures AreViolations(violations + found, comments + [comment], classes)
  {
    forall a, b | 0 <= a < |violations| && 0 <= b < |found| ensures Before(violations[a], found[b]) {
      assert violations[a] in violations && found[b] in found;
    }
  }
}
