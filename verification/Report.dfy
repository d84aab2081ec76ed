/** Test reports: how they are printed, and that the parser recovers what was printed. */
module Report {
  import opened Bytes
  import opened Decimal
  import opened Statistics
  import opened ReportParser

  const LOG_CRIT := 2
  const LOG_DEBUG := 7

  function PriorityName(i: nat): string {
    match i
    case 0 => "emergency"
    case 1 => "alert"
    case 2 => "critical"
    case 3 => "error"
    case 4 => "warning"
    case 5 => "notice"
    case 6 => "info"
    case _ => "debug"
  }

  function ResultName(r: TestResult): string {
    match r
    case NotRun => "none"
    case Passed => "passed"
    case Failed => "failed"
    case Aborted => "abort"
    case Segfault => "segfault"
    case Internal => "internal"
  }

  /** A 32-bit counter, printed as a signed number. */
  function Signed(n: nat): int {
    if n < 0x8000_0000 then n else n - 0x1_0000_0000
  }

  function Count(n: nat): string {
    Numeral(Signed(n))
  }

  /** What one print leaves in the file, without the end of the line. */
  function Line(prefix: string, key: string, value: string): string {
    prefix + "." + key + "=" + value
  }

  function SummaryLines(s: Stats): seq<string> {
    [Line("summary", "passed", Count(s.passed)), Line("summary", "failed", Count(s.failed)),
     Line("summary", "segfault", Count(s.segfaults))]
  }

  function SuitePrefix(suite: string): string {
    "suite." + suite
  }

  function TestPrefix(suite: string, test: string): string {
    "suite." + suite + ".test." + test
  }

  function SuiteHead(su: SuiteInfo): seq<string> {
    var p := SuitePrefix(su.name);
    [Line(p, "result", Numeral(if su.result then 1 else 0)), Line(p, "asserts.passed", Count(su.passed)),
     Line(p, "asserts.total", Count(su.total)), Line(p, "time", su.time)]
  }

  function TestLines(suite: string, t: TestInfo): seq<string> {
    var p := TestPrefix(suite, t.name);
    [Line(p, "result", ResultName(t.result)), Line(p, "asserts.passed", Count(t.passed)),
     Line(p, "asserts.total", Count(t.total)), Line(p, "time", t.time)]
  }

  function TestsLines(suite: string, tests: seq<TestInfo>): seq<string> {
    if tests == [] then []
    else
      var k := |tests| - 1;
      TestsLines(suite, tests[..k]) + TestLines(suite, tests[k])
  }

  function SuiteLines(su: SuiteInfo): seq<string> {
    SuiteHead(su) + TestsLines(su.name, su.tests)
  }

  function SuitesLines(suites: seq<SuiteInfo>): seq<string> {
    if suites == [] then []
    else
      var k := |suites| - 1;
      SuitesLines(suites[..k]) + SuiteLines(suites[k])
  }

  /** The message counts of the priorities below `k`, from critical. */
  function MessageLines(messages: seq<nat>, k: nat): seq<string>
    requires k <= |messages|
  {
    if k <= LOG_CRIT then []
    else MessageLines(messages, k - 1) + [Line("message", PriorityName(k - 1), Count(messages[k - 1]))]
  }

  function Lines(s: Stats): seq<string>
    requires |s.messages| == LOG_DEBUG + 1
  {
    SummaryLines(s) + SuitesLines(s.suites) + MessageLines(s.messages, LOG_DEBUG + 1)
  }

  // ---------- What a report says ----------

  function ExpectedTests(tests: seq<TestInfo>): map<string, Test> {
    if tests == [] then map[]
    else
      var k := |tests| - 1;
      ExpectedTests(tests[..k])[tests[k].name := ExpectedTest(tests[k])]
  }

  function ExpectedTest(t: TestInfo): Test {
    Test(ResultName(t.result), Asserts(Signed(t.total), Signed(t.passed)), Some(t.time))
  }

  function ExpectedSuite(su: SuiteInfo): Suite {
    Suite(ExpectedTests(su.tests), Some(if su.result then 1 else 0), Asserts(Signed(su.total), Signed(su.passed)))
  }

  function ExpectedSuites(suites: seq<SuiteInfo>): map<string, Suite> {
    if suites == [] then map[]
    else
      var k := |suites| - 1;
      ExpectedSuites(suites[..k])[suites[k].name := ExpectedSuite(suites[k])]
  }

  function ExpectedMessages(messages: seq<nat>, k: nat): map<string, int>
    requires k <= |messages|
  {
    if k <= LOG_CRIT then map[]
    else ExpectedMessages(messages, k - 1)[PriorityName(k - 1) := Signed(messages[k - 1])]
  }

  function ExpectedSummary(s: Stats): Summary {
    Summary(Signed(s.passed), Signed(s.failed), Signed(s.segfaults))
  }

  /** The statistics, as far as a report shows them. */
  function Expected(s: Stats): Parsed
    requires |s.messages| == LOG_DEBUG + 1
  {
    Parsed(ExpectedSummary(s), ExpectedMessages(s.messages, LOG_DEBUG + 1), ExpectedSuites(s.suites))
  }

  predicate UniqueTests(tests: seq<TestInfo>) {
    forall i, j :: 0 <= i < j < |tests| ==> tests[i].name != tests[j].name
  }

  predicate UniqueNames(suites: seq<SuiteInfo>) {
    && (forall i, j :: 0 <= i < j < |suites| ==> suites[i].name != suites[j].name)
    && forall i :: 0 <= i < |suites| ==> UniqueTests(suites[i].tests)
  }

  /** No name contains a dot or an equals sign. */
  predicate CleanSuite(su: SuiteInfo) {
    Clean(su.name) && forall i :: 0 <= i < |su.tests| ==> Clean(su.tests[i].name)
  }

  predicate CleanNames(suites: seq<SuiteInfo>) {
    forall i :: 0 <= i < |suites| ==> CleanSuite(suites[i])
  }

  // ---------- Reading a line back ----------

  /** A line whose key is a class and an item. */
  lemma LineRead(p: Parsed, cls: string, key: string, value: string)
    requires Clean(cls) && '=' !in key
    ensures ParseLine(p, Line(cls, key, value)) == ClassItem(p, cls, key, value)
  {
    hide ClassItem;
    var whole := cls + ['.'] + key;
    assert Line(cls, key, value) == whole + ['='] + value;
    SplitJoined(whole, '=', value);
    SplitJoined(cls, '.', key);
  }

  lemma SuiteLineRead(p: Parsed, suite: string, key: string, value: string)
    requires Clean(suite) && '=' !in key
    ensures ParseLine(p, Line(SuitePrefix(suite), key, value)) == NamedSuiteItem(p, suite, key, value)
  {
    hide NamedSuiteItem, ParseLine;
    var rest := suite + ['.'] + key;
    assert Line(SuitePrefix(suite), key, value) == Line("suite", rest, value);
    LineRead(p, "suite", rest, value);
    SplitJoined(suite, '.', key);
  }

  lemma TestItemRead(s: Suite, test: string, key: string, value: string)
    requires Clean(test)
    ensures SuiteItem(s, "test." + test + "." + key, value) == NamedTestItem(s, test, key, value)
  {
    hide NamedTestItem;
    var rest := test + ['.'] + key;
    assert "test." + test + "." + key == "test" + ['.'] + rest;
    SplitJoined("test", '.', rest);
    SplitJoined(test, '.', key);
    assert ("test" + ['.'] + rest)[..4] == "test";
  }

  lemma TestLineRead(p: Parsed, suite: string, test: string, key: string, value: string)
    requires Clean(suite) && Clean(test) && '=' !in key
    ensures ParseLine(p, Line(TestPrefix(suite, test), key, value))
            == NamedSuiteItem(p, suite, "test." + test + "." + key, value)
  {
    hide NamedSuiteItem, ParseLine;
    var item := "test." + test + "." + key;
    assert Line(TestPrefix(suite, test), key, value) == Line(SuitePrefix(suite), item, value);
    SuiteLineRead(p, suite, item, value);
  }

  lemma CountParses(n: nat)
    ensures ParseInt(Count(n)) == Some(Signed(n))
  {
    NumeralParses(Signed(n));
  }

  lemma AssertsKeyRead(a: Asserts, key: string, n: nat)
    requires '.' !in key
    ensures AssertsKey(a, "asserts." + key, Count(n))
            == Some(if key == "passed" then a.(passed := Signed(n)) else a.(total := Signed(n)))
    ensures IsPrefix("asserts." + key, "asserts") && !IsPrefix("asserts." + key, "test")
    ensures "asserts." + key != "result" && "asserts." + key != "time"
  {
    CountParses(n);
    assert "asserts." + key == "asserts" + ['.'] + key;
    SplitJoined("asserts", '.', key);
    assert ("asserts." + key)[..7] == "asserts";
    assert ("asserts." + key)[0] == 'a' && "result"[0] == 'r' && "time"[0] == 't';
  }

  lemma PassedRead(a: Asserts, n: nat)
    ensures AssertsKey(a, "asserts.passed", Count(n)) == Some(a.(passed := Signed(n)))
    ensures IsPrefix("asserts.passed", "asserts") && !IsPrefix("asserts.passed", "test")
    ensures "asserts.passed" != "result" && "asserts.passed" != "time"
  {
    hide *;
    AssertsKeyRead(a, "passed", n);
    assert "asserts." + "passed" == "asserts.passed";
  }

  lemma TotalRead(a: Asserts, n: nat)
    ensures AssertsKey(a, "asserts.total", Count(n)) == Some(a.(total := Signed(n)))
    ensures IsPrefix("asserts.total", "asserts") && !IsPrefix("asserts.total", "test")
    ensures "asserts.total" != "result" && "asserts.total" != "time"
  {
    hide *;
    AssertsKeyRead(a, "total", n);
    assert "asserts." + "total" == "asserts.total";
    assert "total"[0] == 't' && "passed"[0] == 'p';
  }

  lemma PlainKeys()
    ensures !IsPrefix("result", "test") && !IsPrefix("time", "test") && !IsPrefix("time", "asserts")
    ensures "time" != "result"
  {
    assert "time"[0] == 't' && "result"[0] == 'r';
  }

  lemma SuiteKeysRead(s: Suite, result: nat, passed: nat, total: nat, time: string)
    ensures SuiteItem(s, "result", Numeral(result)) == Some(s.(result := Some(result)))
    ensures SuiteItem(s, "asserts.passed", Count(passed)) == Some(s.(asserts := s.asserts.(passed := Signed(passed))))
    ensures SuiteItem(s, "asserts.total", Count(total)) == Some(s.(asserts := s.asserts.(total := Signed(total))))
    ensures SuiteItem(s, "time", time) == Some(s)
  {
    hide IsPrefix, AssertsKey, ParseInt, Numeral, Count, Signed, Split;
    PlainKeys();
    NumeralParses(result);
    PassedRead(s.asserts, passed);
    TotalRead(s.asserts, total);
  }

  lemma TestKeysRead(t: Test, result: string, passed: nat, total: nat, time: string)
    ensures TestItem(t, "result", result) == Some(t.(result := result))
    ensures TestItem(t, "asserts.passed", Count(passed)) == Some(t.(asserts := t.asserts.(passed := Signed(passed))))
    ensures TestItem(t, "asserts.total", Count(total)) == Some(t.(asserts := t.asserts.(total := Signed(total))))
    ensures TestItem(t, "time", time) == Some(t.(time := Some(time)))
  {
    hide IsPrefix, AssertsKey, ParseInt, Numeral, Count, Signed, Split;
    PlainKeys();
    PassedRead(t.asserts, passed);
    TotalRead(t.asserts, total);
  }

  // ---------- Reading the parts of a report back ----------

  function Put(p: Parsed, suite: string, s: Suite): Parsed {
    p.(suites := p.suites[suite := s])
  }

  lemma NextLine(p: Parsed, q: Parsed, lines: seq<string>, k: nat)
    requires k < |lines| && ParseLine(p, lines[k]) == Some(q)
    ensures ParseLines(p, lines[k..]) == ParseLines(q, lines[k + 1..])
  {
    hide ParseLine;
    assert lines[k..][1..] == lines[k + 1..];
  }

  lemma NoLines(p: Parsed, lines: seq<string>)
    requires lines == []
    ensures ParseLines(p, lines) == Some(p)
  {
  }

  /** Four lines in a row. */
  lemma FourLines(p: Parsed, a: Parsed, b: Parsed, c: Parsed, d: Parsed, lines: seq<string>)
    requires |lines| == 4
    requires ParseLine(p, lines[0]) == Some(a) && ParseLine(a, lines[1]) == Some(b)
    requires ParseLine(b, lines[2]) == Some(c) && ParseLine(c, lines[3]) == Some(d)
    ensures ParseLines(p, lines) == Some(d)
  {
    hide ParseLine, ParseLines;
    NextLine(p, a, lines, 0);
    NextLine(a, b, lines, 1);
    NextLine(b, c, lines, 2);
    NextLine(c, d, lines, 3);
    NoLines(d, lines[4..]);
    assert lines[0..] == lines;
  }

  lemma PutItem(p: Parsed, suite: string, s: Suite, key: string, value: string)
    requires SuiteItem(s, key, value).Some?
    ensures NamedSuiteItem(Put(p, suite, s), suite, key, value) == Some(Put(p, suite, SuiteItem(s, key, value).value))
    ensures suite !in p.suites && s == NEW_SUITE ==>
              NamedSuiteItem(p, suite, key, value) == Some(Put(p, suite, SuiteItem(s, key, value).value))
  {
    hide SuiteItem;
    var t := SuiteItem(s, key, value).value;
    assert p.suites[suite := s][suite := t] == p.suites[suite := t];
  }

  lemma HeadRead(p: Parsed, su: SuiteInfo)
    requires Clean(su.name) && su.name !in p.suites
    ensures ParseLines(p, SuiteHead(su)) == Some(Put(p, su.name, ExpectedSuite(su).(tests := map[])))
  {
    hide ParseLine, NamedSuiteItem, SuiteItem, Line, Count, Numeral, Signed, SuitePrefix, Put, ExpectedTests;
    var n, prefix, result := su.name, SuitePrefix(su.name), if su.result then 1 else 0;
    var a := NEW_SUITE.(result := Some(result));
    var b := a.(asserts := a.asserts.(passed := Signed(su.passed)));
    var c := b.(asserts := b.asserts.(total := Signed(su.total)));
    SuiteKeysRead(NEW_SUITE, result, su.passed, su.total, su.time);
    SuiteKeysRead(a, result, su.passed, su.total, su.time);
    SuiteKeysRead(b, result, su.passed, su.total, su.time);
    SuiteKeysRead(c, result, su.passed, su.total, su.time);
    PutItem(p, n, NEW_SUITE, "result", Numeral(result));
    PutItem(p, n, a, "asserts.passed", Count(su.passed));
    PutItem(p, n, b, "asserts.total", Count(su.total));
    PutItem(p, n, c, "time", su.time);
    SuiteLineRead(p, n, "result", Numeral(result));
    SuiteLineRead(Put(p, n, a), n, "asserts.passed", Count(su.passed));
    SuiteLineRead(Put(p, n, b), n, "asserts.total", Count(su.total));
    SuiteLineRead(Put(p, n, c), n, "time", su.time);
    FourLines(p, Put(p, n, a), Put(p, n, b), Put(p, n, c), Put(p, n, c), SuiteHead(su));
  }

  function PutTest(s: Suite, test: string, t: Test): Suite {
    s.(tests := s.tests[test := t])
  }

  lemma PutTestItem(s: Suite, test: string, t: Test, key: string, value: string)
    requires TestItem(t, key, value).Some?
    ensures NamedTestItem(PutTest(s, test, t), test, key, value)
         == Some(PutTest(s, test, TestItem(t, key, value).value))
    ensures test !in s.tests && t == NEW_TEST ==>
              NamedTestItem(s, test, key, value) == Some(PutTest(s, test, TestItem(t, key, value).value))
  {
    hide TestItem;
    var u := TestItem(t, key, value).value;
    assert s.tests[test := t][test := u] == s.tests[test := u];
  }

  /** One line of a test, in a suite that is being read. */
  lemma TestStep(p: Parsed, suite: string, s: Suite, test: string, key: string, value: string, s': Suite)
    requires Clean(suite) && Clean(test) && '=' !in key && NamedTestItem(s, test, key, value) == Some(s')
    ensures ParseLine(Put(p, suite, s), Line(TestPrefix(suite, test), key, value)) == Some(Put(p, suite, s'))
  {
    hide ParseLine, NamedSuiteItem, NamedTestItem, SuiteItem, Put, Line, TestPrefix, Clean;
    var item := "test." + test + "." + key;
    TestLineRead(Put(p, suite, s), suite, test, key, value);
    TestItemRead(s, test, key, value);
    PutItem(p, suite, s, item, value);
  }

  lemma OneTestRead(p: Parsed, suite: string, s: Suite, t: TestInfo)
    requires Clean(suite) && Clean(t.name) && t.name !in s.tests
    ensures ParseLines(Put(p, suite, s), TestLines(suite, t))
         == Some(Put(p, suite, PutTest(s, t.name, ExpectedTest(t))))
  {
    hide ParseLine, NamedTestItem, TestItem, Put, PutTest, Line, TestPrefix, Count, Numeral, Signed, ResultName;
    var n, result := t.name, ResultName(t.result);
    var a := NEW_TEST.(result := result);
    var b := a.(asserts := a.asserts.(passed := Signed(t.passed)));
    var c := b.(asserts := b.asserts.(total := Signed(t.total)));
    var d := c.(time := Some(t.time));
    TestKeysRead(NEW_TEST, result, t.passed, t.total, t.time);
    TestKeysRead(a, result, t.passed, t.total, t.time);
    TestKeysRead(b, result, t.passed, t.total, t.time);
    TestKeysRead(c, result, t.passed, t.total, t.time);
    PutTestItem(s, n, NEW_TEST, "result", result);
    PutTestItem(s, n, a, "asserts.passed", Count(t.passed));
    PutTestItem(s, n, b, "asserts.total", Count(t.total));
    PutTestItem(s, n, c, "time", t.time);
    var sa, sb, sc, sd := PutTest(s, n, a), PutTest(s, n, b), PutTest(s, n, c), PutTest(s, n, d);
    TestStep(p, suite, s, n, "result", result, sa);
    TestStep(p, suite, sa, n, "asserts.passed", Count(t.passed), sb);
    TestStep(p, suite, sb, n, "asserts.total", Count(t.total), sc);
    TestStep(p, suite, sc, n, "time", t.time, sd);
    FourLines(Put(p, suite, s), Put(p, suite, sa), Put(p, suite, sb), Put(p, suite, sc), Put(p, suite, sd),
              TestLines(suite, t));
  }

  lemma {:induction false} TestNames(tests: seq<TestInfo>)
    ensures forall n :: n in ExpectedTests(tests) <==> exists i :: 0 <= i < |tests| && tests[i].name == n
  {
    if tests != [] {
      var k := |tests| - 1;
      TestNames(tests[..k]);
    }
  }

  lemma {:induction false} SuiteNames(suites: seq<SuiteInfo>)
    ensures forall n :: n in ExpectedSuites(suites) <==> exists i :: 0 <= i < |suites| && suites[i].name == n
  {
    if suites != [] {
      var k := |suites| - 1;
      SuiteNames(suites[..k]);
    }
  }

  lemma {:induction false} TestsRead(p: Parsed, suite: string, s: Suite, tests: seq<TestInfo>)
    requires Clean(suite) && s.tests == map[] && UniqueTests(tests)
    requires forall i :: 0 <= i < |tests| ==> Clean(tests[i].name)
    ensures ParseLines(Put(p, suite, s), TestsLines(suite, tests))
            == Some(Put(p, suite, s.(tests := ExpectedTests(tests))))
    decreases |tests|
  {
    hide ParseLine, Put, TestLines, ExpectedTest, Clean;
    if tests == [] {
      NoLines(Put(p, suite, s), []);
    } else {
      var k := |tests| - 1;
      var sofar := s.(tests := ExpectedTests(tests[..k]));
      TestsRead(p, suite, s, tests[..k]);
      TestNames(tests[..k]);
      OneTestRead(p, suite, sofar, tests[k]);
      ParseAppend(Put(p, suite, s), TestsLines(suite, tests[..k]), TestLines(suite, tests[k]));
    }
  }

  lemma OneSuiteRead(p: Parsed, su: SuiteInfo)
    requires CleanSuite(su) && UniqueTests(su.tests) && su.name !in p.suites
    ensures ParseLines(p, SuiteLines(su)) == Some(Put(p, su.name, ExpectedSuite(su)))
  {
    hide ParseLines, Put, SuiteHead, TestsLines, ExpectedTests, UniqueTests, Signed;
    HeadRead(p, su);
    TestsRead(p, su.name, ExpectedSuite(su).(tests := map[]), su.tests);
    ParseAppend(p, SuiteHead(su), TestsLines(su.name, su.tests));
  }

  lemma {:induction false} SuitesRead(p: Parsed, suites: seq<SuiteInfo>)
    requires p.suites == map[] && CleanNames(suites) && UniqueNames(suites)
    ensures ParseLines(p, SuitesLines(suites)) == Some(p.(suites := ExpectedSuites(suites)))
    decreases |suites|
  {
    hide ParseLine, SuiteLines, ExpectedSuite, CleanSuite, UniqueTests;
    if suites != [] {
      var k := |suites| - 1;
      SuitesRead(p, suites[..k]);
      SuiteNames(suites[..k]);
      OneSuiteRead(p.(suites := ExpectedSuites(suites[..k])), suites[k]);
      ParseAppend(p, SuitesLines(suites[..k]), SuiteLines(suites[k]));
    } else {
      NoLines(p, []);
    }
  }

  lemma SummaryRead(s: Stats)
    ensures ParseLines(NOTHING, SummaryLines(s)) == Some(NOTHING.(summary := ExpectedSummary(s)))
  {
    hide ParseLine, ParseLines, Line, Count, Signed, ParseInt, ClassItem;
    var lines := SummaryLines(s);
    var a := NOTHING.(summary := Summary(Signed(s.passed), 0, 0));
    var b := a.(summary := a.summary.(failed := Signed(s.failed)));
    var c := b.(summary := b.summary.(segfault := Signed(s.segfaults)));
    SummaryLineRead(NOTHING, "passed", s.passed);
    SummaryLineRead(a, "failed", s.failed);
    SummaryLineRead(b, "segfault", s.segfaults);
    assert "failed"[0] != "passed"[0] && "segfault"[0] != "passed"[0] && "segfault"[0] != "failed"[0];
    NextLine(NOTHING, a, lines, 0);
    NextLine(a, b, lines, 1);
    NextLine(b, c, lines, 2);
    NoLines(c, lines[3..]);
    assert lines[0..] == lines;
  }

  lemma SummaryLineRead(p: Parsed, key: string, n: nat)
    requires '=' !in key
    ensures ParseLine(p, Line("summary", key, Count(n)))
            == Some(p.(summary := if key == "passed" then p.summary.(passed := Signed(n))
                                  else if key == "failed" then p.summary.(failed := Signed(n))
                                  else p.summary.(segfault := Signed(n))))
  {
    hide ParseLine, Line, Count, Signed, ParseInt;
    LineRead(p, "summary", key, Count(n));
    CountParses(n);
  }

  lemma MessageLineRead(p: Parsed, key: string, n: nat)
    requires '=' !in key
    ensures ParseLine(p, Line("message", key, Count(n))) == Some(p.(messages := p.messages[key := Signed(n)]))
  {
    hide ParseLine, Line, Count, Signed, ParseInt;
    LineRead(p, "message", key, Count(n));
    CountParses(n);
    assert "message"[0] != "summary"[0];
  }

  lemma {:induction false} MessagesRead(p: Parsed, messages: seq<nat>, k: nat)
    requires p.messages == map[] && k <= |messages|
    ensures ParseLines(p, MessageLines(messages, k)) == Some(p.(messages := ExpectedMessages(messages, k)))
    decreases k
  {
    hide ParseLine, Line, Count, Signed;
    if k <= LOG_CRIT {
      NoLines(p, []);
    } else {
      var q, key := p.(messages := ExpectedMessages(messages, k - 1)), PriorityName(k - 1);
      var last := [Line("message", key, Count(messages[k - 1]))];
      MessagesRead(p, messages, k - 1);
      MessageLineRead(q, key, messages[k - 1]);
      NextLine(q, q.(messages := q.messages[key := Signed(messages[k - 1])]), last, 0);
      assert last[0..] == last;
      ParseAppend(p, MessageLines(messages, k - 1), last);
    }
  }

  lemma LinesRead(s: Stats)
    requires |s.messages| == LOG_DEBUG + 1 && UniqueNames(s.suites) && CleanNames(s.suites)
    ensures ParseLines(NOTHING, Lines(s)) == Some(Expected(s))
  {
    hide ParseLines, SummaryLines, SuitesLines, MessageLines, ExpectedSuites, ExpectedMessages, ExpectedSummary,
      UniqueNames, CleanNames;
    var a := NOTHING.(summary := ExpectedSummary(s));
    var b := a.(suites := ExpectedSuites(s.suites));
    SummaryRead(s);
    SuitesRead(a, s.suites);
    MessagesRead(b, s.messages, LOG_DEBUG + 1);
    ParseAppend(NOTHING, SummaryLines(s), SuitesLines(s.suites));
    ParseAppend(NOTHING, SummaryLines(s) + SuitesLines(s.suites), MessageLines(s.messages, LOG_DEBUG + 1));
  }

  lemma {:induction false} SuiteAt(suites: seq<SuiteInfo>, i: nat)
    requires UniqueNames(suites) && i < |suites|
    ensures suites[i].name in ExpectedSuites(suites)
    ensures ExpectedSuites(suites)[suites[i].name] == ExpectedSuite(suites[i])
  {
    hide ExpectedSuite;
    var k := |suites| - 1;
    if i < k {
      SuiteAt(suites[..k], i);
    }
  }

  /** The parser recovers a report exactly if no name contains a dot or an equals sign. */
  lemma ReportReadBack(s: Stats)
    requires |s.messages| == LOG_DEBUG + 1 && UniqueNames(s.suites)
    ensures ParseLines(NOTHING, Lines(s)) == Some(Expected(s)) <==> CleanNames(s.suites)
  {
    hide ParseLines, Lines, ExpectedSuites, ExpectedMessages, ExpectedSummary, Clean;
    if CleanNames(s.suites) {
      LinesRead(s);
    }
    if ParseLines(NOTHING, Lines(s)) == Some(Expected(s)) {
      LinesKeepKeysClean(NOTHING, Lines(s));
      forall i | 0 <= i < |s.suites|
        ensures CleanSuite(s.suites[i])
      {
        SuiteAt(s.suites, i);
        TestNames(s.suites[i].tests);
      }
    }
  }

  /** What dotted names lose: the lines of a suite without tests whose name has a dot
      leave nothing but an empty suite named by what is in front of it, so that any two
      such suites are read alike. */
  lemma DottedSuiteLost(p: Parsed, front: string, behind: string, su: SuiteInfo)
    requires Clean(front) && Clean(behind) && behind != "test" && behind != "asserts"
    requires su.name == front + "." + behind && su.tests == [] && front !in p.suites
    ensures ParseLines(p, SuiteLines(su)) == Some(Put(p, front, NEW_SUITE))
  {
    hide ParseLine, SuiteItem, NamedSuiteItem, Line, Count, Numeral, SuitePrefix, Put;
    var q := Put(p, front, NEW_SUITE);
    DottedLine(p, front, behind, "result", Numeral(if su.result then 1 else 0));
    DottedLine(p, front, behind, "asserts.passed", Count(su.passed));
    DottedLine(p, front, behind, "asserts.total", Count(su.total));
    DottedLine(p, front, behind, "time", su.time);
    FourLines(p, q, q, q, q, SuiteHead(su));
    assert SuiteHead(su) + [] == SuiteHead(su);
  }

  lemma DottedLine(p: Parsed, front: string, behind: string, key: string, value: string)
    requires Clean(front) && Clean(behind) && behind != "test" && behind != "asserts" && '=' !in key
    requires front !in p.suites
    ensures var line, q := Line(SuitePrefix(front + "." + behind), key, value), Put(p, front, NEW_SUITE);
            ParseLine(p, line) == Some(q) && ParseLine(q, line) == Some(q)
  {
    hide ParseLine, SuiteItem, NamedSuiteItem, Put;
    var item := behind + "." + key;
    assert Line(SuitePrefix(front + "." + behind), key, value) == Line(SuitePrefix(front), item, value);
    SuiteLineRead(p, front, item, value);
    SuiteLineRead(Put(p, front, NEW_SUITE), front, item, value);
    NoPrefix(behind, key, "test");
    NoPrefix(behind, key, "asserts");
    UnknownItem(item, value);
    PutItem(p, front, NEW_SUITE, item, value);
  }

  lemma NoPrefix(behind: string, key: string, word: string)
    requires Clean(behind) && Clean(word) && behind != word
    ensures !IsPrefix(behind + "." + key, word)
    ensures behind + "." + key != word
  {
    var s := behind + "." + key;
    assert s[|behind|] == '.';
    assert s[..|behind|] == behind;
    assert forall k :: 0 <= k < |behind| ==> s[k] == behind[k];
    assert |s| > |word| ==> forall k :: 0 <= k < |word| ==> s[..|word|][k] == s[k];
  }

  lemma UnknownItem(item: string, value: string)
    requires '.' in item && !IsPrefix(item, "test") && !IsPrefix(item, "asserts")
    ensures SuiteItem(NEW_SUITE, item, value) == Some(NEW_SUITE)
  {
    assert '.' !in "result";
  }
}
