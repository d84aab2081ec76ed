/** The parser of test reports. */
module ReportParser {
  import opened Bytes
  import opened Decimal

  /** Splits at the first `c`. */
  function Split(s: string, c: char): Option<(string, string)> {
    if s == [] then None
    else if s[0] == c then Some(([], s[1..]))
    else
      match Split(s[1..], c)
      case None => None
      case Some((a, b)) => Some(([s[0]] + a, b))
  }

  lemma {:induction false} SplitJoined(a: string, c: char, b: string)
    requires c !in a
    ensures Split(a + [c] + b, c) == Some((a, b))
  {
    var s := a + [c] + b;
    if a == [] {
      assert s[0] == c && s[1..] == b;
    } else {
      assert s[0] == a[0] && s[1..] == a[1..] + [c] + b;
      SplitJoined(a[1..], c, b);
      assert [a[0]] + a[1..] == a;
    }
  }

  lemma {:induction false} SplitParts(s: string, c: char)
    ensures Split(s, c).Some? ==>
              var (a, b) := Split(s, c).value;
              c !in a && s == a + [c] + b
  {
    if s != [] && s[0] != c && Split(s[1..], c).Some? {
      SplitParts(s[1..], c);
      var (a, b) := Split(s[1..], c).value;
      assert s == [s[0]] + s[1..];
    }
  }

  predicate IsBlank(c: char) {
    c == ' ' || '\t' <= c <= '\r'
  }

  /** A string without the blanks at its ends. */
  function Stripped(s: string): string
    decreases |s|
  {
    if s != [] && IsBlank(s[0]) then Stripped(s[1..])
    else if s != [] && IsBlank(s[|s| - 1]) then Stripped(s[..|s| - 1])
    else s
  }

  /** `int`: blanks around it, a sign, and decimal digits. */
  function ParseInt(text: string): Option<int> {
    var s := Stripped(text);
    var signed := s != [] && (s[0] == '-' || s[0] == '+');
    var digits := if signed then s[1..] else s;
    if digits != [] && forall k :: 0 <= k < |digits| ==> IsDigit(digits[k])
    then Some(if signed && s[0] == '-' then -Number(digits) else Number(digits))
    else None
  }

  lemma NumeralParses(i: int)
    ensures ParseInt(Numeral(i)) == Some(i)
  {
    hide Digits, Number;
    var n := if i < 0 then -i else i;
    var digits, s := Digits(n), Numeral(i);
    DigitsValue(n);
    NumeralReadBack(n, "");
    assert Numeral(n) + "" == digits;
    assert s[|s| - 1] == digits[|digits| - 1] && IsDigit(s[|s| - 1]);
    if i < 0 {
      assert s[0] == '-' && s[1..] == digits;
    } else {
      assert s[0] == digits[0] && IsDigit(s[0]);
    }
    assert Stripped(s) == s;
  }

  predicate IsPrefix(s: string, prefix: string) {
    |s| > |prefix| && s[|prefix|] == '.' && s[..|prefix|] == prefix
  }

  datatype Asserts = Asserts(total: int, passed: int)

  datatype Test = Test(result: string, asserts: Asserts, time: Option<string>)

  datatype Suite = Suite(tests: map<string, Test>, result: Option<int>, asserts: Asserts)

  datatype Summary = Summary(passed: int, failed: int, segfault: int)

  datatype Parsed = Parsed(summary: Summary, messages: map<string, int>, suites: map<string, Suite>)

  const NEW_TEST := Test("", Asserts(0, 0), None)
  const NEW_SUITE := Suite(map[], None, Asserts(0, 0))
  const NOTHING := Parsed(Summary(0, 0, 0), map[], map[])

  function SummaryItem(s: Summary, key: string, value: string): Option<Summary> {
    match ParseInt(value)
    case None => None
    case Some(n) =>
      if key == "passed" then Some(s.(passed := n))
      else if key == "failed" then Some(s.(failed := n))
      else Some(s.(segfault := n))
  }

  function AssertsItem(a: Asserts, key: string, value: string): Option<Asserts> {
    match ParseInt(value)
    case None => None
    case Some(n) => if key == "passed" then Some(a.(passed := n)) else Some(a.(total := n))
  }

  /** The part of a key behind the first dot, for the assertion counts. */
  function AssertsKey(a: Asserts, key: string, value: string): Option<Asserts> {
    match Split(key, '.')
    case None => None
    case Some((_, rest)) => AssertsItem(a, rest, value)
  }

  function TestItem(t: Test, key: string, value: string): Option<Test> {
    if key == "result" then Some(t.(result := value))
    else if key == "time" then Some(t.(time := Some(value)))
    else if IsPrefix(key, "asserts") then
      match AssertsKey(t.asserts, key, value)
      case None => None
      case Some(a) => Some(t.(asserts := a))
    else Some(t)
  }

  /** An item of the test `name`, which is created with its first one. */
  function NamedTestItem(s: Suite, name: string, key: string, value: string): Option<Suite> {
    var t := if name in s.tests then s.tests[name] else NEW_TEST;
    match TestItem(t, key, value)
    case None => None
    case Some(u) => Some(s.(tests := s.tests[name := u]))
  }

  function SuiteItem(s: Suite, key: string, value: string): Option<Suite> {
    if IsPrefix(key, "test") then
      match Split(key, '.')
      case None => None
      case Some((_, behind)) =>
        match Split(behind, '.')
        case None => None
        case Some((name, rest)) => NamedTestItem(s, name, rest, value)
    else if key == "result" then
      match ParseInt(value)
      case None => None
      case Some(n) => Some(s.(result := Some(n)))
    else if IsPrefix(key, "asserts") then
      match AssertsKey(s.asserts, key, value)
      case None => None
      case Some(a) => Some(s.(asserts := a))
    else Some(s)
  }

  function NamedSuiteItem(p: Parsed, name: string, key: string, value: string): Option<Parsed> {
    var s := if name in p.suites then p.suites[name] else NEW_SUITE;
    match SuiteItem(s, key, value)
    case None => None
    case Some(t) => Some(p.(suites := p.suites[name := t]))
  }

  function ClassItem(p: Parsed, cls: string, rest: string, value: string): Option<Parsed> {
    if cls == "summary" then
      match SummaryItem(p.summary, rest, value)
      case None => None
      case Some(s) => Some(p.(summary := s))
    else if cls == "message" then
      match ParseInt(value)
      case None => None
      case Some(n) => Some(p.(messages := p.messages[rest := n]))
    else if cls == "suite" then
      match Split(rest, '.')
      case None => None
      case Some((name, key)) => NamedSuiteItem(p, name, key, value)
    else Some(p)
  }

  /** One line; none if an exception ends the parsing. */
  function ParseLine(p: Parsed, line: string): Option<Parsed> {
    match Split(line, '=')
    case None => None
    case Some((key, value)) =>
      match Split(key, '.')
      case None => None
      case Some((cls, rest)) => ClassItem(p, cls, rest, value)
  }

  /** The part of an item's key that names a test, if it does. */
  function TestNameOf(item: string): Option<string> {
    if !IsPrefix(item, "test") then None
    else
      match Split(item, '.')
      case None => None
      case Some((_, behind)) =>
        match Split(behind, '.')
        case None => None
        case Some((name, _)) => Some(name)
  }

  /** A suite with the test that an item names. */
  function WithTestOf(s: Suite, item: string): Suite {
    match TestNameOf(item)
    case None => s
    case Some(name) => if name in s.tests then s else s.(tests := s.tests[name := NEW_TEST])
  }

  function SuiteLeftBehind(p: Parsed, name: string, item: string): Parsed {
    var s := if name in p.suites then p.suites[name] else NEW_SUITE;
    p.(suites := p.suites[name := WithTestOf(s, item)])
  }

  /** What a line that raises an exception leaves behind. */
  function LeftBehind(p: Parsed, line: string): Parsed {
    match Split(line, '=')
    case None => p
    case Some((key, _)) =>
      match Split(key, '.')
      case None => p
      case Some((cls, rest)) =>
        if cls != "suite" then p
        else
          match Split(rest, '.')
          case None => p
          case Some((name, item)) => SuiteLeftBehind(p, name, item)
  }

  function ParseLines(p: Parsed, lines: seq<string>): Option<Parsed>
    decreases lines
  {
    if lines == [] then Some(p)
    else
      match ParseLine(p, lines[0])
      case None => None
      case Some(q) => ParseLines(q, lines[1..])
  }

  /** The lines of a file, without their ends. */
  function FileLines(text: string): seq<string>
    decreases |text|
  {
    if text == [] then []
    else
      match Split(text, '\n')
      case None => [text]
      case Some((a, b)) =>
        SplitParts(text, '\n');
        [if a != [] && a[|a| - 1] == '\r' then a[..|a| - 1] else a] + FileLines(b)
  }

  /** What a report file is read as. */
  function ParseFile(text: string): Option<Parsed> {
    ParseLines(NOTHING, FileLines(text))
  }

  lemma {:induction false} ParseAppend(p: Parsed, a: seq<string>, b: seq<string>)
    ensures ParseLines(p, a + b)
            == match ParseLines(p, a) case None => None case Some(q) => ParseLines(q, b)
    decreases a
  {
    if a == [] {
      assert a + b == b;
    } else {
      assert (a + b)[0] == a[0] && (a + b)[1..] == a[1..] + b;
      if ParseLine(p, a[0]).Some? {
        ParseAppend(ParseLine(p, a[0]).value, a[1..], b);
      }
    }
  }

  // ---------- The names a parser can see ----------

  /** A name free of the characters that structure a line. */
  predicate Clean(name: string) {
    '.' !in name && '=' !in name
  }

  /** Every suite and test has a clean name. */
  ghost predicate CleanKeys(p: Parsed) {
    forall s :: s in p.suites ==> Clean(s) && forall t :: t in p.suites[s].tests ==> Clean(t)
  }

  lemma LineKeepsKeysClean(p: Parsed, line: string)
    requires CleanKeys(p)
    ensures ParseLine(p, line).Some? ==> CleanKeys(ParseLine(p, line).value)
  {
    hide SuiteItem;
    SplitParts(line, '=');
    if Split(line, '=').Some? {
      var (key, value) := Split(line, '=').value;
      SplitParts(key, '.');
      if Split(key, '.').Some? {
        var (cls, rest) := Split(key, '.').value;
        SplitParts(rest, '.');
        if Split(rest, '.').Some? {
          var (name, item) := Split(rest, '.').value;
          var s := if name in p.suites then p.suites[name] else NEW_SUITE;
          SuiteKeepsKeysClean(s, item, value);
        }
      }
    }
  }

  lemma SuiteKeepsKeysClean(s: Suite, key: string, value: string)
    requires '=' !in key && forall t :: t in s.tests ==> Clean(t)
    ensures SuiteItem(s, key, value).Some? ==> forall t :: t in SuiteItem(s, key, value).value.tests ==> Clean(t)
  {
    SplitParts(key, '.');
    if IsPrefix(key, "test") && Split(key, '.').Some? {
      SplitParts(Split(key, '.').value.1, '.');
    }
  }

  lemma {:induction false} LinesKeepKeysClean(p: Parsed, lines: seq<string>)
    requires CleanKeys(p)
    ensures ParseLines(p, lines).Some? ==> CleanKeys(ParseLines(p, lines).value)
    decreases lines
  {
    if lines != [] {
      LineKeepsKeysClean(p, lines[0]);
      if ParseLine(p, lines[0]).Some? {
        LinesKeepKeysClean(ParseLine(p, lines[0]).value, lines[1..]);
      }
    }
  }

  /** The parser of a file, working line by line. */
  class TinuResult {
    var summary: Summary
    var messages: map<string, int>
    var suites: map<string, Suite>

    ghost function Now(): Parsed
      reads this
    {
      Parsed(summary, messages, suites)
    }

    constructor ()
      ensures Now() == NOTHING
    {
      summary, messages, suites := Summary(0, 0, 0), map[], map[];
    }

    /** One line. A line that raises an exception leaves the suite and the test it
        names behind, created if they were new, and changes nothing else. */
    method ParseItem(line: string) returns (ok: bool)
      modifies this
      ensures ok <==> ParseLine(old(Now()), line).Some?
      ensures Now() == if ok then ParseLine(old(Now()), line).value else LeftBehind(old(Now()), line)
    {
      var split := Split(line, '=');
      if split.None? {
        return false;
      }
      var (key, value) := split.value;
      split := Split(key, '.');
      if split.None? {
        return false;
      }
      var (cls, rest) := split.value;
      if cls == "summary" {
        var s := SummaryItem(summary, rest, value);
        if s.None? {
          return false;
        }
        summary := s.value;
      } else if cls == "message" {
        var n := ParseInt(value);
        if n.None? {
          return false;
        }
        messages := messages[rest := n.value];
      } else if cls == "suite" {
        split := Split(rest, '.');
        if split.None? {
          return false;
        }
        var (name, item) := split.value;
        ok := ParseSuiteItem(name, item, value);
        return;
      }
      return true;
    }

    method ParseSuiteItem(name: string, item: string, value: string) returns (ok: bool)
      modifies this`suites
      ensures ok <==> NamedSuiteItem(old(Now()), name, item, value).Some?
      ensures Now() == if ok then NamedSuiteItem(old(Now()), name, item, value).value
                       else SuiteLeftBehind(old(Now()), name, item)
    {
      if name !in suites {
        suites := suites[name := NEW_SUITE];
      }
      var s := SuiteItem(suites[name], item, value);
      ok := s.Some?;
      suites := suites[name := if ok then s.value else WithTestOf(suites[name], item)];
    }

    method ParseAll(lines: seq<string>) returns (ok: bool)
      modifies this
      ensures ok <==> ParseLines(old(Now()), lines).Some?
      ensures ok ==> Now() == ParseLines(old(Now()), lines).value
    {
      for i := 0 to |lines|
        invariant ParseLines(old(Now()), lines) == ParseLines(Now(), lines[i..])
      {
        assert lines[i..][1..] == lines[i + 1..];
        ok := ParseItem(lines[i]);
        if !ok {
          return false;
        }
      }
      return true;
    }
  }
}
