/** Reading the connector's config version out of its metrics text: one unlabelled sample of one
    gauge among any other lines, with an exact decimal value that must be a 31-bit integer. */
module IngressMetric {
  import opened Texts
  import opened Wrappers

  const METRIC_NAME := "cloudflared_orchestration_config_version"
  const MAX_METRICS_BYTES := 262144
  const MAX_VERSION := 2147483647

  datatype ParseError = TooLarge | Undecodable | MetricMismatch | Malformed

  // ---------- Lines and fields ----------

  /** Where `splitlines` breaks; a carriage return and line feed make one blank line more here, which is ignored. */
  predicate IsBreak(c: char) {
    '\n' <= c <= '\r' || '\U{1C}' <= c <= '\U{1E}' || c == '\U{85}' || c == '\U{2028}' || c == '\U{2029}'
  }

  function Lines(text: string): seq<string> {
    if text == [] then [[]] else WithCharacter(Lines(text[..|text| - 1]), text[|text| - 1])
  }

  /** A break starts a new line; any other character extends the last one. */
  function WithCharacter(lines: seq<string>, c: char): seq<string> {
    if IsBreak(c) then lines + [[]]
    else if lines == [] then [[c]] else lines[..|lines| - 1] + [lines[|lines| - 1] + [c]]
  }

  /** `split()`: the maximal runs without white space; `run` is the one being read. */
  function FieldsFrom(s: string, run: string): seq<string> {
    if s == [] then (if run == [] then [] else [run])
    else if IsSpace(s[0]) then (if run == [] then [] else [run]) + FieldsFrom(s[1..], [])
    else FieldsFrom(s[1..], run + [s[0]])
  }

  function BeforeBrace(s: string): string {
    if s == [] || s[0] == '{' then [] else [s[0]] + BeforeBrace(s[1..])
  }

  function Fields(line: string): seq<string> { FieldsFrom(Strip(line), []) }

  /** The line is a sample of the gauge, labelled or not. */
  predicate IsSample(line: string) {
    var stripped := Strip(line);
    stripped != [] && stripped[0] != '#' && Fields(line) != [] && BeforeBrace(Fields(line)[0]) == METRIC_NAME
  }

  // ---------- Decimals ----------

  datatype Decimal = Finite(negative: bool, coefficient: nat, exponent: int) | Special

  predicate IsDigit(c: char) { '0' <= c <= '9' }

  predicate AllDigits(s: string) { forall i :: 0 <= i < |s| ==> IsDigit(s[i]) }

  function Number(digits: string): nat
    requires AllDigits(digits)
  {
    if digits == [] then 0 else 10 * Number(digits[..|digits| - 1]) + (digits[|digits| - 1] - '0') as nat
  }

  function DropUnderscores(s: string): string {
    if s == [] then [] else (if s[0] == '_' then [] else [s[0]]) + DropUnderscores(s[1..])
  }

  function Lower(c: char): char { if 'A' <= c <= 'Z' then c - 'A' + 'a' else c }

  function Lowered(s: string): string { seq(|s|, i requires 0 <= i < |s| => Lower(s[i])) }

  /** The length of the run of digits at the start. */
  function DigitRun(s: string): (n: nat)
    ensures n <= |s| && AllDigits(s[..n])
    ensures n < |s| ==> !IsDigit(s[n])
  {
    if s == [] || !IsDigit(s[0]) then 0 else
    var n := DigitRun(s[1..]) + 1;
    assert s[..n] == [s[0]] + s[1..][..n - 1];
    n
  }

  predicate IsSigned(s: string) { s != [] && (s[0] == '+' || s[0] == '-') }

  function Unsigned(s: string): string { if IsSigned(s) then s[1..] else s }

  function Signed(negative: bool, n: int): int { if negative then -n else n }

  /** An exponent part: nothing, or 'e', an optional sign and at least one digit. */
  function ReadExponent(s: string): Option<int> {
    if s == [] then Some(0)
    else if Lower(s[0]) != 'e' then None
    else
      var digits := Unsigned(s[1..]);
      if digits == [] || DigitRun(digits) != |digits| then None
      else
        assert digits[..|digits|] == digits;
        Some(Signed(s[1] == '-', Number(digits)))
  }

  /** The text `nan` or `snan` with optional digits. */
  predicate IsNan(s: string) {
    ("nan" <= s && DigitRun(s[3..]) == |s| - 3) || ("snan" <= s && DigitRun(s[4..]) == |s| - 4)
  }

  /** `Decimal(text)`; None is InvalidOperation. */
  function ReadDecimal(text: string): Option<Decimal> { ReadPlain(DropUnderscores(text)) }

  function ReadPlain(s: string): Option<Decimal> {
    if IsSpecial(Lowered(Unsigned(s))) then Some(Special)
    else ReadParts(s != [] && s[0] == '-', Split(Unsigned(s)))
  }

  predicate IsSpecial(body: string) { body == "inf" || body == "infinity" || IsNan(body) }

  /** A number without its sign: digits, a point and more digits or not, and what follows. */
  datatype Parts = Parts(whole: string, point: bool, fraction: string, tail: string)

  function Split(body: string): (p: Parts)
    ensures AllDigits(p.whole) && AllDigits(p.fraction)
  {
    var whole := DigitRun(body);
    var rest := body[whole..];
    if rest != [] && rest[0] == '.' then
      var fraction := DigitRun(rest[1..]);
      Parts(body[..whole], true, rest[1..][..fraction], rest[1..][fraction..])
    else Parts(body[..whole], false, "", rest)
  }

  function ReadParts(negative: bool, p: Parts): Option<Decimal>
    requires AllDigits(p.whole) && AllDigits(p.fraction)
  {
    if p.whole == "" && p.fraction == "" then None
    else
      match ReadExponent(p.tail)
      case None => None
      case Some(e) => Some(Finite(negative, Number(p.whole + p.fraction), e - |p.fraction|))
  }

  function Pow10(n: nat): (p: nat)
    ensures p > 0
  {
    if n == 0 then 1 else 10 * Pow10(n - 1)
  }

  /** The decimal is exactly the integer v: both sides scaled to whole numbers. */
  predicate Denotes(d: Decimal, v: int) {
    d.Finite?
    && Signed(d.negative, d.coefficient) * (if d.exponent >= 0 then Pow10(d.exponent) else 1)
       == v * (if d.exponent >= 0 then 1 else Pow10(-d.exponent))
  }

  /** `int(value)`, if the value is finite and integral. */
  function IntegralValue(d: Decimal): Option<int> {
    if d.Special? then None
    else if d.exponent >= 0 then
      Some(Signed(d.negative, d.coefficient * Pow10(d.exponent)))
    else if d.coefficient % Pow10(-d.exponent) == 0 then
      Some(Signed(d.negative, d.coefficient / Pow10(-d.exponent)))
    else None
  }

  lemma SmallMultiple(k: int, p: int, r: int)
    requires 0 <= r < p && k * p == r
    ensures k == 0 && r == 0
  {
    assert (k - 1) * p == r - p && (k + 1) * p == r + p;
    assert k >= 1 ==> (k - 1) * p >= 0;
    assert k <= -1 ==> (k + 1) * p <= 0;
  }

  lemma QuotientIsExact(c: int, p: int, m: int)
    requires p > 0
    ensures c % p == 0 && c / p == m <==> c == m * p
  {
    var q, r := c / p, c % p;
    assert c == q * p + r;
    if c == m * p {
      assert (m - q) * p == r;
      SmallMultiple(m - q, p, r);
    }
  }

  lemma SignsCancel(negative: bool, c: int, v: int, p: int)
    ensures Signed(negative, c) == v * p <==> c == Signed(negative, v) * p
  {
  }

  lemma SignedProduct(negative: bool, c: int, p: int)
    ensures Signed(negative, c * p) == Signed(negative, c) * p
  {
  }

  /** The value read off by division is the only integer the decimal denotes, and there is one only then. */
  lemma IntegralIffDenotes(d: Decimal, v: int)
    ensures IntegralValue(d) == Some(v) <==> Denotes(d, v)
  {
    if d.Finite? && d.exponent < 0 {
      var p := Pow10(-d.exponent);
      SignsCancel(d.negative, d.coefficient, v, p);
      QuotientIsExact(d.coefficient, p, Signed(d.negative, v));
    } else if d.Finite? {
      var p := Pow10(d.exponent);
      SignedProduct(d.negative, d.coefficient, p);
      assert v * 1 == v;
    }
  }

  // ---------- The parser ----------

  function SampleLines(lines: seq<string>): seq<string> {
    if lines == [] then []
    else
      var last := lines[|lines| - 1];
      SampleLines(lines[..|lines| - 1]) + if IsSample(last) then [last] else []
  }

  /** The result for the gauge's sample lines. */
  function VersionOf(samples: seq<string>): Result<int, ParseError> {
    if |samples| != 1 || |Fields(samples[0])| != 2 || Fields(samples[0])[0] != METRIC_NAME then Failure(MetricMismatch)
    else
      match ReadDecimal(Fields(samples[0])[1])
      case None => Failure(Malformed)
      case Some(d) =>
        match IntegralValue(d)
        case None => Failure(Malformed)
        case Some(v) => if 0 <= v <= MAX_VERSION then Success(v) else Failure(Malformed)
  }

  function FieldsOfEach(lines: seq<string>): (r: seq<seq<string>>)
    ensures |r| == |lines| && forall i :: 0 <= i < |r| ==> r[i] == Fields(lines[i])
  {
    seq(|lines|, i requires 0 <= i < |lines| => Fields(lines[i]))
  }

  lemma FieldsAppend(lines: seq<string>, line: string)
    ensures FieldsOfEach(lines + [line]) == FieldsOfEach(lines) + [Fields(line)]
  {
  }

  /** `size` is the length in bytes; `text` is None when the bytes are not UTF-8. */
  method ParseLiveConfigVersion(size: nat, text: Option<string>) returns (r: Result<int, ParseError>)
    ensures r == if size > 262144 then Failure(TooLarge)
                 else if text.None? then Failure(Undecodable)
                 else VersionOf(SampleLines(Lines(text.value)))
  {
    if size > MAX_METRICS_BYTES { return Failure(TooLarge); }
    if text.None? { return Failure(Undecodable); }
    var lines := Lines(text.value);
    var samples: seq<seq<string>> := [];
    var n := 0;
    while n < |lines|
      invariant 0 <= n <= |lines|
      invariant samples == FieldsOfEach(SampleLines(lines[..n]))
    {
      assert lines[..n + 1][..n] == lines[..n];
      FieldsAppend(SampleLines(lines[..n]), lines[n]);
      var stripped := Strip(lines[n]);
      if stripped != [] && stripped[0] != '#' {
        var fields := FieldsFrom(stripped, []);
        if fields != [] && BeforeBrace(fields[0]) == METRIC_NAME { samples := samples + [fields]; }
      }
      n := n + 1;
    }
    assert lines[..n] == lines;
    if |samples| != 1 || |samples[0]| != 2 || samples[0][0] != METRIC_NAME { return Failure(MetricMismatch); }
    var value := ReadDecimal(samples[0][1]);
    if value.None? { return Failure(Malformed); }
    var version := IntegralValue(value.value);
    if version.None? || !(0 <= version.value <= MAX_VERSION) { return Failure(Malformed); }
    return Success(version.value);
  }

  // ---------- What is accepted ----------

  lemma {:induction false} SampleLinesCount(lines: seq<string>, x: string)
    ensures multiset(SampleLines(lines))[x] == if IsSample(x) then multiset(lines)[x] else 0
  {
    if lines == [] {
    } else {
      var front, last := lines[..|lines| - 1], lines[|lines| - 1];
      SampleLinesCount(front, x);
      assert lines == front + [last];
      assert multiset(lines) == multiset(front) + multiset{last};
    }
  }

  /** The one sample line, anywhere in the text. */
  ghost predicate IsOnlySample(lines: seq<string>, line: string) {
    IsSample(line) && multiset(lines)[line] == 1 && forall other :: other in lines && other != line ==> !IsSample(other)
  }

  lemma OnlySampleIs(lines: seq<string>, line: string)
    ensures SampleLines(lines) == [line] <==> IsOnlySample(lines, line)
  {
    var samples := SampleLines(lines);
    forall x ensures multiset(samples)[x] == if IsSample(x) then multiset(lines)[x] else 0 {
      SampleLinesCount(lines, x); }
    if IsOnlySample(lines, line) {
      assert multiset(samples) == multiset{line};
      assert |samples| == |multiset(samples)| == 1;
      assert samples[0] in multiset(samples);
    }
    if samples == [line] {
      assert multiset(samples) == multiset{line};
      forall other | other in lines && other != line ensures !IsSample(other) {
        assert other in multiset(lines);
        assert multiset(samples)[other] == 0;
      }
      assert multiset(samples)[line] == 1;
    }
  }

  /** The text between the metric name and the end of the line denotes v. */
  ghost predicate Carries(line: string, v: int) {
    |Fields(line)| == 2 && Fields(line)[0] == METRIC_NAME
    && ReadDecimal(Fields(line)[1]).Some? && Denotes(ReadDecimal(Fields(line)[1]).value, v)
  }

  lemma AcceptsExactly(line: string, v: int)
    ensures VersionOf([line]) == Success(v) <==> 0 <= v <= MAX_VERSION && Carries(line, v)
  {
    if |Fields(line)| == 2 && Fields(line)[0] == METRIC_NAME && ReadDecimal(Fields(line)[1]).Some? {
      IntegralIffDenotes(ReadDecimal(Fields(line)[1]).value, v);
    }
  }

  /** A version is returned exactly when the gauge has one sample line in the whole text, unlabelled and with two
      fields, and its decimal is exactly that integer, in range. */
  lemma VersionExactlyWhen(lines: seq<string>, v: int)
    ensures VersionOf(SampleLines(lines)) == Success(v)
       <==> 0 <= v <= 2147483647 && exists line :: IsOnlySample(lines, line) && Carries(line, v)
  {
    var samples := SampleLines(lines);
    if |samples| == 1 {
      OnlySampleIs(lines, samples[0]);
      assert samples == [samples[0]];
      AcceptsExactly(samples[0], v);
    }
    forall line | IsOnlySample(lines, line) ensures samples == [line] { OnlySampleIs(lines, line); }
  }

  lemma SameSamples(a: seq<string>, b: seq<string>)
    requires multiset(a) == multiset(b)
    ensures multiset(SampleLines(a)) == multiset(SampleLines(b))
  {
    forall s ensures multiset(SampleLines(a))[s] == multiset(SampleLines(b))[s] {
      SampleLinesCount(a, s);
      SampleLinesCount(b, s);
    }
  }

  lemma SingletonsAgree(x: seq<string>, y: seq<string>)
    requires multiset(x) == multiset(y)
    ensures |x| == |y| && (|x| == 1 ==> x == y)
  {
    assert |x| == |multiset(x)| && |y| == |multiset(y)|;
    if |x| == 1 { assert x[0] in multiset(y); }
  }

  /** Reordering the lines never changes the result. */
  lemma OrderIsIrrelevant(a: seq<string>, b: seq<string>)
    requires multiset(a) == multiset(b)
    ensures VersionOf(SampleLines(a)) == VersionOf(SampleLines(b))
  {
    SameSamples(a, b);
    SingletonsAgree(SampleLines(a), SampleLines(b));
  }

  /** Comments, blank lines and other metrics never change the result, wherever they stand. */
  lemma UnrelatedLinesAreIrrelevant(before: seq<string>, line: string, after: seq<string>)
    requires !IsSample(line)
    ensures VersionOf(SampleLines(before + [line] + after)) == VersionOf(SampleLines(before + after))
  {
    var rest := before + after;
    assert multiset(before + [line] + after) == multiset(rest + [line]);
    OrderIsIrrelevant(before + [line] + after, rest + [line]);
    assert (rest + [line])[..|rest|] == rest;
  }

  // ---------- Writing and reading back ----------

  function Rendered(n: nat): string {
    if n < 10 then ['0' + n as char] else Rendered(n / 10) + ['0' + (n % 10) as char]
  }

  lemma {:induction false} RenderedIsNumber(n: nat)
    ensures Rendered(n) != [] && AllDigits(Rendered(n))
    ensures Number(Rendered(n)) == n
  {
    var s := Rendered(n);
    if n < 10 {
      assert s[..0] == [];
    } else {
      RenderedIsNumber(n / 10);
      assert s[..|s| - 1] == Rendered(n / 10);
    }
  }

  lemma {:induction false} DigitsKeepUnderscores(s: string)
    requires AllDigits(s)
    ensures DropUnderscores(s) == s
  {
    if s == [] {
    } else {
      DigitsKeepUnderscores(s[1..]);
    }
  }

  lemma DigitsAreNoName(s: string)
    requires s != [] && IsDigit(s[0])
    ensures !IsSigned(s) && !IsSpecial(Lowered(s))
  {
    assert Lowered(s)[0] == s[0];
    assert "inf"[0] == "infinity"[0] == 'i' && "nan"[0] == 'n' && "snan"[0] == 's';
  }

  lemma DigitsRead(s: string)
    requires s != [] && AllDigits(s)
    ensures ReadDecimal(s) == Some(Finite(false, Number(s), 0))
  {
    DigitsKeepUnderscores(s);
    DigitsAreNoName(s);
    var n := DigitRun(s);
    assert n == |s| && s[..n] == s && s[n..] == [] && s[..n] + [] == s;
  }

  predicate IsNameChar(c: char) { 'a' <= c <= 'z' || c == '_' }

  lemma MetricNameIsPlain()
    ensures forall i :: 0 <= i < |METRIC_NAME| ==> IsNameChar(METRIC_NAME[i])
  {
  }

  lemma {:induction false} FieldsAfterWord(word: string, rest: string, run: string)
    requires forall i :: 0 <= i < |word| ==> !IsSpace(word[i])
    ensures FieldsFrom(word + rest, run) == FieldsFrom(rest, run + word)
    decreases |word|
  {
    if word == [] {
      assert word + rest == rest && run + word == run;
    } else {
      assert (word + rest)[1..] == word[1..] + rest;
      FieldsAfterWord(word[1..], rest, run + [word[0]]);
      assert run + [word[0]] + word[1..] == run + word;
    }
  }

  lemma {:induction false} NamesHaveNoBrace(name: string)
    requires forall i :: 0 <= i < |name| ==> IsNameChar(name[i])
    ensures BeforeBrace(name) == name
  {
    if name == [] {
    } else {
      NamesHaveNoBrace(name[1..]);
    }
  }

  predicate NoSpace(s: string) { forall i :: 0 <= i < |s| ==> !IsSpace(s[i]) }

  lemma TwoWords(a: string, b: string)
    requires a != [] && b != [] && NoSpace(a) && NoSpace(b)
    ensures Strip(a + (" " + b)) == a + (" " + b)
    ensures Fields(a + (" " + b)) == [a, b]
  {
    var line, tail := a + (" " + b), " " + b;
    assert line[0] == a[0] && line[|line| - 1] == b[|b| - 1];
    FieldsAfterWord(a, tail, []);
    assert [] + a == a && tail[1..] == b;
    FieldsAfterWord(b, [], []);
    assert b + [] == b && [] + b == b;
  }

  /** The gauge's plain sample line for a version. */
  function SampleLine(v: nat): string { METRIC_NAME + (" " + Rendered(v)) }

  lemma SampleLineCarries(v: nat)
    ensures IsSample(SampleLine(v)) && Carries(SampleLine(v), v)
  {
    RenderedIsNumber(v);
    MetricNameIsPlain();
    TwoWords(METRIC_NAME, Rendered(v));
    NamesHaveNoBrace(METRIC_NAME);
    assert IsNameChar(SampleLine(v)[0]);
    DigitsRead(Rendered(v));
  }

  lemma {:induction false} SampleLinesConcat(a: seq<string>, b: seq<string>)
    ensures SampleLines(a + b) == SampleLines(a) + SampleLines(b)
  {
    if b == [] {
      assert a + b == a;
    } else {
      assert (a + b)[..|a + b| - 1] == a + b[..|b| - 1];
      SampleLinesConcat(a, b[..|b| - 1]);
    }
  }

  lemma {:induction false} NoSampleLines(lines: seq<string>)
    requires forall line :: line in lines ==> !IsSample(line)
    ensures SampleLines(lines) == []
  {
    if lines == [] {
    } else {
      NoSampleLines(lines[..|lines| - 1]);
    }
  }

  lemma OneSampleLine(before: seq<string>, line: string, after: seq<string>)
    requires forall other :: other in before || other in after ==> !IsSample(other)
    requires IsSample(line)
    ensures SampleLines(before + [line] + after) == [line]
  {
    SampleLinesConcat(before + [line], after);
    SampleLinesConcat(before, [line]);
    NoSampleLines(before);
    NoSampleLines(after);
    assert SampleLines([line]) == [line] by { assert [line][..0] == []; }
  }

  lemma CarriedVersion(line: string, v: nat)
    requires Carries(line, v)
    ensures VersionOf([line]) == if v <= MAX_VERSION then Success(v) else Failure(Malformed)
  {
    IntegralIffDenotes(ReadDecimal(Fields(line)[1]).value, v);
  }

  /** A version written in plain decimal, among any unrelated lines, is read back exactly when it is in range. */
  lemma WrittenVersionReadsBack(before: seq<string>, v: nat, after: seq<string>)
    requires forall line :: line in before || line in after ==> !IsSample(line)
    ensures VersionOf(SampleLines(before + [SampleLine(v)] + after))
         == if v <= MAX_VERSION then Success(v) else Failure(Malformed)
  {
    SampleLineCarries(v);
    OneSampleLine(before, SampleLine(v), after);
    CarriedVersion(SampleLine(v), v);
  }

  // ---------- Numerals ----------

  datatype Numeral = Numeral(sign: string, whole: string, point: bool, fraction: string, exponent: Option<Exponent>)

  datatype Exponent = Exponent(letter: char, sign: string, digits: string)

  predicate IsSign(s: string) { s == "" || s == "+" || s == "-" }

  /** Digits before or after an optional point, a sign before them or none, and an exponent after them or none. */
  predicate IsNumeral(n: Numeral) {
    && IsSign(n.sign) && AllDigits(n.whole) && AllDigits(n.fraction) && |n.whole| + |n.fraction| > 0
    && (!n.point ==> n.fraction == "")
    && (n.exponent.Some? ==>
          && (n.exponent.value.letter == 'e' || n.exponent.value.letter == 'E') && IsSign(n.exponent.value.sign)
          && n.exponent.value.digits != "" && AllDigits(n.exponent.value.digits))
  }

  function FractionText(n: Numeral): string { if n.point then "." + n.fraction else "" }

  function ExponentText(e: Option<Exponent>): string {
    if e.None? then "" else [e.value.letter] + (e.value.sign + e.value.digits)
  }

  function Written(n: Numeral): string { n.sign + (n.whole + (FractionText(n) + ExponentText(n.exponent))) }

  /** The digits as one number, the point moved past the fraction and by the exponent. */
  function ValueOf(n: Numeral): Decimal
    requires IsNumeral(n)
  {
    var e := if n.exponent.None? then 0
             else Signed(n.exponent.value.sign == "-", Number(n.exponent.value.digits));
    Finite(n.sign == "-", Number(n.whole + n.fraction), e - |n.fraction|)
  }

  lemma DigitRunStops(digits: string, rest: string)
    requires AllDigits(digits) && (rest == [] || !IsDigit(rest[0]))
    ensures DigitRun(digits + rest) == |digits|
  {
    if digits == [] {
      assert digits + rest == rest;
    } else {
      assert (digits + rest)[1..] == digits[1..] + rest;
      DigitRunStops(digits[1..], rest);
    }
  }

  lemma SignTakenOff(sign: string, body: string)
    requires IsSign(sign) && body != [] && body[0] != '+' && body[0] != '-'
    ensures Unsigned(sign + body) == body && ((sign + body)[0] == '-' <==> sign == "-")
  {
    if sign == "" { assert sign + body == body; } else { assert (sign + body)[1..] == body; }
  }

  lemma ExponentReads(e: Option<Exponent>)
    requires e.Some? ==> (e.value.letter == 'e' || e.value.letter == 'E') && IsSign(e.value.sign)
                         && e.value.digits != "" && AllDigits(e.value.digits)
    ensures ReadExponent(ExponentText(e))
         == Some(if e.None? then 0 else Signed(e.value.sign == "-", Number(e.value.digits)))
  {
    if e.Some? {
      var text, digits := ExponentText(e), e.value.digits;
      assert text[1..] == e.value.sign + digits && IsDigit(digits[0]);
      SignTakenOff(e.value.sign, digits);
      assert text[1] == (e.value.sign + digits)[0];
      DigitRunStops(digits, []);
      assert digits + [] == digits;
    }
  }

  lemma NumeralIsNoName(s: string)
    requires s != [] && (IsDigit(s[0]) || s[0] == '.')
    ensures !IsSigned(s) && !IsSpecial(Lowered(s))
  {
    assert Lowered(s)[0] == s[0];
    assert "inf"[0] == "infinity"[0] == 'i' && "nan"[0] == 'n' && "snan"[0] == 's';
  }

  function PartsText(p: Parts): string { p.whole + ((if p.point then "." + p.fraction else "") + p.tail) }

  predicate AreParts(p: Parts) {
    && AllDigits(p.whole) && AllDigits(p.fraction) && (!p.point ==> p.fraction == "")
    && (p.tail == "" || (!IsDigit(p.tail[0]) && p.tail[0] != '.'))
  }

  lemma SplitUndoesJoin(p: Parts)
    requires AreParts(p)
    ensures Split(PartsText(p)) == p
  {
    var rest := (if p.point then "." + p.fraction else "") + p.tail;
    var body := PartsText(p);
    DigitRunStops(p.whole, rest);
    assert body[..|p.whole|] == p.whole && body[|p.whole|..] == rest;
    if p.point {
      assert rest[1..] == p.fraction + p.tail;
      DigitRunStops(p.fraction, p.tail);
      assert rest[1..][..|p.fraction|] == p.fraction && rest[1..][|p.fraction|..] == p.tail;
    } else {
      assert rest == p.tail;
    }
  }

  lemma FractionJoins(rest: string, n: nat)
    requires rest != [] && rest[0] == '.' && n <= |rest| - 1
    ensures ("." + rest[1..][..n]) + rest[1..][n..] == rest
  {
  }

  lemma JoinUndoesSplit(body: string)
    ensures PartsText(Split(body)) == body
    ensures !Split(body).point ==> Split(body).fraction == ""
  {
    var p := Split(body);
    var rest := body[|p.whole|..];
    assert body == p.whole + rest;
    if p.point {
      FractionJoins(rest, |p.fraction|);
    } else {
      assert "" + p.tail == rest;
    }
  }

  lemma PlainReadsBody(sign: string, body: string)
    requires IsSign(sign) && body != [] && (IsDigit(body[0]) || body[0] == '.')
    ensures ReadPlain(sign + body) == ReadParts(sign == "-", Split(body))
  {
    NumeralIsNoName(body);
    SignTakenOff(sign, body);
  }

  function PartsOf(n: Numeral): Parts { Parts(n.whole, n.point, n.fraction, ExponentText(n.exponent)) }

  lemma PartsRead(n: Numeral)
    requires IsNumeral(n)
    ensures ReadParts(n.sign == "-", PartsOf(n)) == Some(ValueOf(n))
  {
    ExponentReads(n.exponent);
  }

  lemma BodyStarts(n: Numeral)
    requires IsNumeral(n)
    ensures var body := PartsText(PartsOf(n)); body != [] && (IsDigit(body[0]) || body[0] == '.')
  {
    var body := PartsText(PartsOf(n));
    assert body[0] == if n.whole != "" then n.whole[0] else '.';
  }

  lemma PlainNumeralReads(n: Numeral)
    requires IsNumeral(n)
    ensures ReadPlain(Written(n)) == Some(ValueOf(n))
  {
    BodyStarts(n);
    PlainReadsBody(n.sign, PartsText(PartsOf(n)));
    SplitUndoesJoin(PartsOf(n));
    PartsRead(n);
  }

  lemma ExponentIsRead(s: string) returns (e: Option<Exponent>)
    requires ReadExponent(s).Some?
    ensures ExponentText(e) == s
    ensures e.Some? ==> (e.value.letter == 'e' || e.value.letter == 'E') && IsSign(e.value.sign)
                        && e.value.digits != "" && AllDigits(e.value.digits)
  {
    if s == [] {
      e := None;
    } else {
      var signed := IsSigned(s[1..]);
      var digits := Unsigned(s[1..]);
      assert digits[..|digits|] == digits;
      e := Some(Exponent(s[0], if signed then [s[1]] else "", digits));
      assert s == [s[0]] + s[1..];
      assert s[1..] == e.value.sign + digits;
    }
  }

  lemma SignJoins(s: string) returns (sign: string)
    ensures IsSign(sign) && s == sign + Unsigned(s)
  {
    sign := if IsSigned(s) then [s[0]] else "";
  }

  /** Whatever reads as a number is a numeral: nothing else is accepted. */
  lemma WhatReadsIsNumeral(s: string) returns (n: Numeral)
    requires ReadPlain(s).Some? && ReadPlain(s).value.Finite?
    ensures IsNumeral(n) && s == Written(n)
  {
    var p := Split(Unsigned(s));
    JoinUndoesSplit(Unsigned(s));
    var e := ExponentIsRead(p.tail);
    var sign := SignJoins(s);
    n := Numeral(sign, p.whole, p.point, p.fraction, e);
    assert PartsOf(n) == p;
  }

  /** A text denotes a number exactly when it is a numeral, up to underscores; and then it is that numeral's value. */
  lemma NumeralsAreReadExactly(text: string, d: Decimal)
    requires d.Finite?
    ensures ReadDecimal(text) == Some(d)
       <==> exists n :: IsNumeral(n) && DropUnderscores(text) == Written(n) && ValueOf(n) == d
  {
    if ReadDecimal(text) == Some(d) {
      var n := WhatReadsIsNumeral(DropUnderscores(text));
      PlainNumeralReads(n);
    }
    if n :| IsNumeral(n) && DropUnderscores(text) == Written(n) && ValueOf(n) == d { PlainNumeralReads(n); }
  }

  /** Exactly the underscores are dropped. */
  lemma {:induction false} UnderscoresAreDropped(s: string, c: char)
    ensures DropUnderscores([c] + s) == if c == '_' then DropUnderscores(s) else [c] + DropUnderscores(s)
    ensures '_' !in DropUnderscores(s)
  {
    assert ([c] + s)[1..] == s;
    if s == [] {
    } else {
      UnderscoresAreDropped(s[1..], c);
    }
  }

  // ---------- Lines and fields of a text ----------

  /** The line boundaries of `splitlines`, by code point. */
  lemma BreakCodes(c: char)
    ensures IsBreak(c) <==> c as int in {0x0A, 0x0B, 0x0C, 0x0D, 0x1C, 0x1D, 0x1E, 0x85, 0x2028, 0x2029}
  {
  }

  lemma {:induction false} LinesNotEmpty(s: string)
    ensures Lines(s) != []
  {
    if s == [] {
    } else {
      LinesNotEmpty(s[..|s| - 1]);
    }
  }

  lemma CharacterInBack(front: seq<string>, back: seq<string>, c: char)
    requires back != []
    ensures WithCharacter(front + back, c) == front + WithCharacter(back, c)
  {
    assert (front + back)[..|front + back| - 1] == front + back[..|back| - 1];
  }

  lemma {:induction false} LinesAcrossBreak(a: string, c: char, b: string)
    requires IsBreak(c)
    ensures Lines(a + [c] + b) == Lines(a) + Lines(b)
  {
    var s := a + [c] + b;
    if b == [] {
      assert s[..|s| - 1] == a;
    } else {
      var front, last := b[..|b| - 1], b[|b| - 1];
      assert s[..|s| - 1] == a + [c] + front;
      LinesAcrossBreak(a, c, front);
      LinesNotEmpty(front);
      CharacterInBack(Lines(a), Lines(front), last);
    }
  }

  lemma {:induction false} UnbrokenIsOneLine(s: string)
    requires forall i :: 0 <= i < |s| ==> !IsBreak(s[i])
    ensures Lines(s) == [s]
  {
    if s == [] {
    } else {
      UnbrokenIsOneLine(s[..|s| - 1]);
      assert s == s[..|s| - 1] + [s[|s| - 1]];
    }
  }

  /** White space separates fields, and fields have none. */
  lemma {:induction false} FieldsAcrossSpace(a: string, c: char, b: string, run: string)
    requires IsSpace(c)
    ensures FieldsFrom(a + [c] + b, run) == FieldsFrom(a, run) + FieldsFrom(b, [])
    decreases |a|
  {
    var s := a + [c] + b;
    if a == [] {
      assert s[1..] == b;
    } else {
      assert s[1..] == a[1..] + [c] + b && s[0] == a[0];
      FieldsAcrossSpace(a[1..], c, b, if IsSpace(a[0]) then [] else run + [a[0]]);
    }
  }

  lemma WordIsOneField(word: string)
    requires NoSpace(word)
    ensures FieldsFrom(word, []) == if word == "" then [] else [word]
  {
    FieldsAfterWord(word, [], []);
    assert word + [] == word && [] + word == word;
  }

  /** A comment is never a sample. */
  lemma CommentIsNoSample(rest: string)
    ensures !IsSample("#" + rest)
  {
    var line := "#" + rest;
    StripRightLeaves(line);
    assert Strip(line) == StripRight(line);
  }

  lemma {:induction false} NameBeforeBrace(name: string, rest: string)
    requires forall i :: 0 <= i < |name| ==> IsNameChar(name[i])
    ensures BeforeBrace(name + ("{" + rest)) == name
  {
    if name == [] {
      assert name + ("{" + rest) == "{" + rest;
    } else {
      assert (name + ("{" + rest))[1..] == name[1..] + ("{" + rest);
      NameBeforeBrace(name[1..], rest);
    }
  }

  /** A labelled sample of the gauge is a sample all the same, so no version is read beside it or from it. */
  lemma LabelledSampleMismatches(before: seq<string>, labels: string, value: string, after: seq<string>)
    requires NoSpace(labels) && NoSpace(value) && value != ""
    ensures VersionOf(SampleLines(before + [METRIC_NAME + ("{" + labels) + (" " + value)] + after))
         == Failure(MetricMismatch)
  {
    var word := METRIC_NAME + ("{" + labels);
    var line := word + (" " + value);
    MetricNameIsPlain();
    TwoWords(word, value);
    NameBeforeBrace(METRIC_NAME, labels);
    assert line[0] == METRIC_NAME[0] && IsNameChar(METRIC_NAME[0]);
    assert IsSample(line);
    SampleLinesConcat(before + [line], after);
    SampleLinesConcat(before, [line]);
    assert [line][..0] == [];
    var samples := SampleLines(before + [line] + after);
    assert samples == SampleLines(before) + [line] + SampleLines(after);
    if |samples| == 1 { assert samples[0] == line; }
  }

  lemma SampleLineIsUnbroken(v: nat)
    ensures Lines(SampleLine(v)) == [SampleLine(v)]
  {
    RenderedIsNumber(v);
    MetricNameIsPlain();
    UnbrokenIsOneLine(SampleLine(v));
  }

  /** The same for whole texts: the sample on a line of its own, between any texts without another sample. */
  lemma WrittenVersionReadsBackInText(before: string, v: nat, after: string)
    requires forall line :: line in Lines(before) || line in Lines(after) ==> !IsSample(line)
    ensures VersionOf(SampleLines(Lines(before + "\n" + (SampleLine(v) + "\n" + after))))
         == if v <= 2147483647 then Success(v) else Failure(Malformed)
  {
    LinesAcrossBreak(before, '\n', SampleLine(v) + "\n" + after);
    LinesAcrossBreak(SampleLine(v), '\n', after);
    SampleLineIsUnbroken(v);
    assert Lines(before) + ([SampleLine(v)] + Lines(after)) == Lines(before) + [SampleLine(v)] + Lines(after);
    WrittenVersionReadsBack(Lines(before), v, Lines(after));
  }
}
