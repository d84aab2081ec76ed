/** Running tests: the outcome of each, the statistics that the hooks gather over a whole
    run, and the registry of suites and tests. */
module TestRunner {
  import opened Statistics
  import opened ReportParser
  import opened Report

  type Priority = n: nat | n <= LOG_DEBUG

  /** What a test does that the runner can see: assertions, messages of its own, and
      signals with the frames of their backtraces. A signal ends the test. */
  datatype Step =
    | Assert(condition: bool)
    | Message(priority: Priority)
    | Abort(frames: nat)
    | Segv(frames: nat)
  {
    predicate IsSignal() {
      Abort? || Segv?
    }
  }

  /** A test, with what setup, function and cleanup together do when it is run, and the
      time that takes. */
  datatype TestCase = TestCase(name: string, script: seq<Step>, time: string)

  datatype TestSuite = TestSuite(name: string, tests: seq<TestCase>, time: string)

  // ---------- What a run amounts to ----------

  /** The steps up to the first signal, without it. */
  function Executed(script: seq<Step>): seq<Step> {
    if script == [] || script[0].IsSignal() then [] else [script[0]] + Executed(script[1..])
  }

  function Outcome(script: seq<Step>): TestResult {
    var n := |Executed(script)|;
    ExecutedIsPrefix(script);
    if n < |script| then (if script[n].Abort? then Aborted else Segfault)
    else if Assert(false) in script then Failed
    else Passed
  }

  lemma {:induction false} ExecutedIsPrefix(script: seq<Step>)
    ensures Executed(script) <= script
    ensures |Executed(script)| < |script| ==> script[|Executed(script)|].IsSignal()
    ensures forall s :: s in Executed(script) ==> !s.IsSignal()
  {
    if script != [] && !script[0].IsSignal() {
      ExecutedIsPrefix(script[1..]);
      assert script == [script[0]] + script[1..];
    }
  }

  /** A test passes exactly if none of its assertions fails and no signal arrives. */
  lemma PassesIff(script: seq<Step>)
    ensures Outcome(script) == Passed <==> forall s :: s in script ==> s == Assert(true) || s.Message?
  {
    ExecutedIsPrefix(script);
    var n := |Executed(script)|;
    if n < |script| {
      assert script[n] in script;
    } else {
      assert Executed(script) == script;
    }
  }

  function CountAsserts(steps: seq<Step>, onlyPassed: bool): nat {
    if steps == [] then 0
    else
      var k := |steps| - 1;
      CountAsserts(steps[..k], onlyPassed)
      + if steps[k] == Assert(true) || (!onlyPassed && steps[k].Assert?) then 1 else 0
  }

  // ---------- The messages of a run ----------

  const LOG_ERR := 3
  const LOG_WARNING := 4
  const LOG_NOTICE := 5

  /** The priorities of the messages that a step leads to: one for an assertion; for a
      signal one, and one for every frame of its backtrace, whose being empty is
      reported, too. */
  function StepLog(s: Step): seq<Priority> {
    match s
    case Assert(condition) => [if condition then LOG_DEBUG else LOG_ERR]
    case Message(priority) => [priority]
    case Abort(frames) => SignalLog(frames)
    case Segv(frames) => SignalLog(frames)
  }

  function SignalLog(frames: nat): seq<Priority> {
    (if frames == 0 then [LOG_WARNING] else []) + [LOG_ERR] + seq(frames, _ => LOG_ERR)
  }

  function StepsLog(steps: seq<Step>): seq<Priority> {
    if steps == [] then [] else StepsLog(steps[..|steps| - 1]) + StepLog(steps[|steps| - 1])
  }

  function ResultLog(r: TestResult): seq<Priority> {
    match r
    case NotRun => []
    case Passed => [LOG_NOTICE]
    case Failed => [LOG_WARNING]
    case Aborted => [LOG_ERR]
    case Segfault => [LOG_ERR]
    case Internal => [LOG_CRIT]
  }

  /** A test's steps, up to and with the first signal, and its result. */
  function TestLog(t: TestCase): seq<Priority> {
    var n := |Executed(t.script)|;
    ExecutedIsPrefix(t.script);
    StepsLog(Executed(t.script)) + (if n < |t.script| then StepLog(t.script[n]) else []) + ResultLog(Outcome(t.script))
  }

  function TestsLog(tests: seq<TestCase>): seq<Priority> {
    if tests == [] then [] else TestsLog(tests[..|tests| - 1]) + TestLog(tests[|tests| - 1])
  }

  function SuiteLog(s: TestSuite): seq<Priority> {
    TestsLog(s.tests) + [if SuiteStat(s).result then LOG_DEBUG else LOG_WARNING]
  }

  function RunLog(suites: seq<TestSuite>): seq<Priority> {
    if suites == [] then [] else RunLog(suites[..|suites| - 1]) + SuiteLog(suites[|suites| - 1])
  }

  /** Counters after some messages. */
  function Tally(counters: seq<nat>, log: seq<Priority>): (r: seq<nat>)
    requires |counters| == LOG_DEBUG + 1
    ensures |r| == |counters|
  {
    if log == [] then counters
    else
      var before, p := Tally(counters, log[..|log| - 1]), log[|log| - 1];
      before[p := before[p] + 1]
  }

  lemma {:induction false} TallyAppend(counters: seq<nat>, a: seq<Priority>, b: seq<Priority>)
    requires |counters| == LOG_DEBUG + 1
    ensures Tally(Tally(counters, a), b) == Tally(counters, a + b)
    decreases |b|
  {
    if b == [] {
      assert a + b == a;
    } else {
      TallyAppend(counters, a, b[..|b| - 1]);
      assert (a + b)[..|a + b| - 1] == a + b[..|b| - 1];
    }
  }

  /** Each counter goes up by the number of messages of its priority. */
  lemma {:induction false} TallyCounts(counters: seq<nat>, log: seq<Priority>, p: Priority)
    requires |counters| == LOG_DEBUG + 1
    ensures Tally(counters, log)[p] == counters[p] + multiset(log)[p]
  {
    if log != [] {
      TallyCounts(counters, log[..|log| - 1], p);
      assert log == log[..|log| - 1] + [log[|log| - 1]];
    }
  }

  lemma TallyNothing(counters: seq<nat>)
    requires |counters| == LOG_DEBUG + 1
    ensures Tally(counters, []) == counters
  {
  }

  lemma TallyNext(counters: seq<nat>, log: seq<Priority>, p: Priority)
    requires |counters| == LOG_DEBUG + 1
    ensures Tally(counters, log + [p]) == Tally(counters, log)[p := Tally(counters, log)[p] + 1]
  {
    assert (log + [p])[..|log|] == log;
  }

  lemma TallyOne(counters: seq<nat>, p: Priority)
    requires |counters| == LOG_DEBUG + 1
    ensures Tally(counters, [p]) == counters[p := counters[p] + 1]
  {
    hide Tally;
    TallyNothing(counters);
    TallyNext(counters, [], p);
    assert [] + [p] == [p];
  }

  function TestStat(t: TestCase): TestInfo {
    var steps := Executed(t.script);
    TestInfo(t.name, Outcome(t.script), CountAsserts(steps, true), CountAsserts(steps, false), t.time)
  }

  function TestStats(tests: seq<TestCase>): seq<TestInfo> {
    seq(|tests|, i requires 0 <= i < |tests| => TestStat(tests[i]))
  }

  function SumPassed(tests: seq<TestInfo>): nat {
    if tests == [] then 0 else SumPassed(tests[..|tests| - 1]) + tests[|tests| - 1].passed
  }

  function SumTotal(tests: seq<TestInfo>): nat {
    if tests == [] then 0 else SumTotal(tests[..|tests| - 1]) + tests[|tests| - 1].total
  }

  predicate AllPassed(tests: seq<TestInfo>) {
    forall i :: 0 <= i < |tests| ==> tests[i].result == Passed
  }

  function SuiteStat(s: TestSuite): SuiteInfo {
    var tests := TestStats(s.tests);
    SuiteInfo(s.name, AllPassed(tests), SumPassed(tests), SumTotal(tests), s.time, tests)
  }

  function SuiteStats(suites: seq<TestSuite>): seq<SuiteInfo> {
    seq(|suites|, i requires 0 <= i < |suites| => SuiteStat(suites[i]))
  }

  /** How many tests have one of the results. */
  function CountResults(tests: seq<TestInfo>, results: set<TestResult>): nat {
    if tests == [] then 0
    else CountResults(tests[..|tests| - 1], results) + if tests[|tests| - 1].result in results then 1 else 0
  }

  function CountAll(suites: seq<SuiteInfo>, results: set<TestResult>): nat {
    if suites == [] then 0
    else CountAll(suites[..|suites| - 1], results) + CountResults(suites[|suites| - 1].tests, results)
  }

  function CountTests(suites: seq<TestSuite>): nat {
    if suites == [] then 0 else CountTests(suites[..|suites| - 1]) + |suites[|suites| - 1].tests|
  }

  const FAILURES := {Failed, Aborted, Internal, Segfault}

  lemma {:induction false} ResultsOfSuite(tests: seq<TestInfo>)
    requires forall i :: 0 <= i < |tests| ==> tests[i].result != NotRun
    ensures CountResults(tests, {Passed}) + CountResults(tests, FAILURES) == |tests|
    ensures CountResults(tests, {Segfault}) <= CountResults(tests, FAILURES)
    ensures AllPassed(tests) <==> CountResults(tests, FAILURES) == 0
  {
    if tests != [] {
      var k := |tests| - 1;
      ResultsOfSuite(tests[..k]);
      assert AllPassed(tests) <==> AllPassed(tests[..k]) && tests[k].result == Passed;
    }
  }

  /** Over a full run: every test has either passed or failed, segmentation faults are
      failures, and all suites succeeded exactly if nothing failed. */
  lemma {:induction false} RunTotals(suites: seq<TestSuite>)
    ensures var infos := SuiteStats(suites);
            && CountAll(infos, {Passed}) + CountAll(infos, FAILURES) == CountTests(suites)
            && CountAll(infos, {Segfault}) <= CountAll(infos, FAILURES)
            && ((forall i :: 0 <= i < |suites| ==> infos[i].result) <==> CountAll(infos, FAILURES) == 0)
  {
    hide SuiteStat, CountResults;
    if suites != [] {
      var k := |suites| - 1;
      var infos := SuiteStats(suites);
      RunTotals(suites[..k]);
      assert infos[..k] == SuiteStats(suites[..k]);
      assert infos[k] == SuiteStat(suites[k]);
      SuiteTotals(suites[k]);
      assert forall i :: 0 <= i < k ==> infos[i] == infos[..k][i];
    }
  }

  lemma SuiteTotals(s: TestSuite)
    ensures var info := SuiteStat(s);
            && CountResults(info.tests, {Passed}) + CountResults(info.tests, FAILURES) == |s.tests|
            && CountResults(info.tests, {Segfault}) <= CountResults(info.tests, FAILURES)
            && (info.result <==> CountResults(info.tests, FAILURES) == 0)
  {
    ResultsOfSuite(SuiteStat(s).tests);
  }

  // ---------- The statistics hooks ----------

  /** A test begins; an assertion is counted for it and its suite; it ends. */
  function Begun(su: SuiteInfo, name: string): SuiteInfo {
    su.(tests := su.tests + [TestInfo(name, NotRun, 0, 0, "")])
  }

  function Asserted(su: SuiteInfo, condition: bool): SuiteInfo
    requires su.tests != []
  {
    var k, one := |su.tests| - 1, if condition then 1 else 0;
    var t := su.tests[k];
    su.(passed := su.passed + one, total := su.total + 1,
        tests := su.tests[..k] + [t.(passed := t.passed + one, total := t.total + 1)])
  }

  function Ended(su: SuiteInfo, result: TestResult, time: string): SuiteInfo
    requires su.tests != []
  {
    var k := |su.tests| - 1;
    su.(tests := su.tests[..k] + [su.tests[k].(result := result, time := time)])
  }

  class TestStatistics {
    var passed: nat
    var failed: nat
    var segfaults: nat
    var messages: seq<nat>
    var suites: seq<SuiteInfo>
    /** Whether a suite and a test are current; they are the last ones of their lists. */
    var inSuite: bool
    var inTest: bool

    ghost predicate Valid()
      reads this
    {
      && (inSuite ==> suites != []) && (inTest ==> inSuite && suites[|suites| - 1].tests != [])
      && |messages| == LOG_DEBUG + 1
    }

    function Current(): SuiteInfo
      requires suites != []
      reads this
    {
      suites[|suites| - 1]
    }

    constructor ()
      ensures Valid() && !inSuite && !inTest && suites == [] && passed == failed == segfaults == 0
      ensures messages == [0, 0, 0, 0, 0, 0, 0, 0]
    {
      passed, failed, segfaults, suites, inSuite, inTest := 0, 0, 0, [], false, false;
      messages := [0, 0, 0, 0, 0, 0, 0, 0];
    }

    /** `_stat_message_counter` */
    method CountMessage(priority: Priority)
      requires Valid()
      modifies this`messages
      ensures Valid() && messages == Tally(old(messages), [priority])
    {
      TallyOne(messages, priority);
      messages := messages[priority := messages[priority] + 1];
    }

    /** Messages in a row. */
    method CountMessages(log: seq<Priority>)
      requires Valid()
      modifies this`messages
      ensures Valid() && messages == Tally(old(messages), log)
    {
      for i := 0 to |log|
        invariant Valid() && messages == Tally(old(messages), log[..i])
      {
        TallyAppend(old(messages), log[..i], [log[i]]);
        assert log[..i + 1] == log[..i] + [log[i]];
        CountMessage(log[i]);
      }
      assert log[..|log|] == log;
    }

    method SetCurrent(su: SuiteInfo)
      requires suites != []
      modifies this`suites
      ensures suites == old(suites)[..|old(suites)| - 1] + [su]
    {
      suites := suites[..|suites| - 1] + [su];
    }

    method HookSuiteBegin(name: string)
      requires Valid() && !inSuite
      modifies this`suites, this`inSuite
      ensures Valid() && inSuite && suites == old(suites) + [SuiteInfo(name, false, 0, 0, "", [])]
    {
      suites := suites + [SuiteInfo(name, false, 0, 0, "", [])];
      inSuite := true;
    }

    method HookSuiteEnd(name: string, result: bool, time: string)
      requires Valid() && inSuite && !inTest && Current().name == name
      modifies this`suites, this`inSuite
      ensures Valid() && !inSuite
      ensures suites == old(suites)[..|old(suites)| - 1] + [old(Current()).(result := result, time := time)]
    {
      SetCurrent(Current().(result := result, time := time));
      inSuite := false;
    }

    method HookCaseBegin(name: string)
      requires Valid() && inSuite && !inTest
      modifies this`suites, this`inTest
      ensures Valid() && inTest
      ensures suites == old(suites)[..|old(suites)| - 1] + [Begun(old(Current()), name)]
    {
      SetCurrent(Current().(tests := Current().tests + [TestInfo(name, NotRun, 0, 0, "")]));
      inTest := true;
    }

    /** `_stat_hook_assert` */
    method HookAssert(condition: bool)
      requires Valid() && inTest
      modifies this`suites
      ensures Valid()
      ensures suites == old(suites)[..|old(suites)| - 1] + [Asserted(old(Current()), condition)]
    {
      var su := Current();
      var k := |su.tests| - 1;
      var t := su.tests[k];
      if condition {
        su := su.(passed := su.passed + 1);
        t := t.(passed := t.passed + 1);
      }
      su := su.(total := su.total + 1);
      t := t.(total := t.total + 1);
      SetCurrent(su.(tests := su.tests[..k] + [t]));
    }

    /** `_stat_hook_case_end` */
    method HookCaseEnd(name: string, result: TestResult, time: string)
      requires Valid() && inTest && result != NotRun
      requires Current().tests[|Current().tests| - 1].name == name
      modifies this`suites, this`inTest, this`passed, this`failed, this`segfaults
      ensures Valid() && !inTest
      ensures suites == old(suites)[..|old(suites)| - 1] + [Ended(old(Current()), result, time)]
      ensures passed == old(passed) + if result == Passed then 1 else 0
      ensures failed == old(failed) + if result in FAILURES then 1 else 0
      ensures segfaults == old(segfaults) + if result == Segfault then 1 else 0
    {
      var su := Current();
      var k := |su.tests| - 1;
      SetCurrent(su.(tests := su.tests[..k] + [su.tests[k].(result := result, time := time)]));
      inTest := false;
      match result
      case Passed => passed := passed + 1;
      case Segfault =>
        segfaults := segfaults + 1;
        failed := failed + 1;
      case Aborted | Internal | Failed => failed := failed + 1;
      case NotRun => assert false;
    }
  }

  // ---------- Running ----------

  /** The current test of a suite has made the first `n` steps of a script. */
  ghost predicate Midway(before: SuiteInfo, now: SuiteInfo, t: TestCase, n: nat)
    requires n <= |t.script|
  {
    var steps := t.script[..n];
    now == before.(passed := before.passed + CountAsserts(steps, true),
                   total := before.total + CountAsserts(steps, false),
                   tests := before.tests + [TestInfo(t.name, NotRun, CountAsserts(steps, true),
                                                     CountAsserts(steps, false), "")])
  }

  /** What a finished test adds to its suite. */
  function WithTest(before: SuiteInfo, t: TestCase): SuiteInfo {
    var info := TestStat(t);
    before.(passed := before.passed + info.passed, total := before.total + info.total, tests := before.tests + [info])
  }

  lemma NextCounts(script: seq<Step>, n: nat, onlyPassed: bool)
    requires n < |script|
    ensures CountAsserts(script[..n + 1], onlyPassed)
         == CountAsserts(script[..n], onlyPassed)
            + if script[n].Assert? && (script[n].condition || !onlyPassed) then 1 else 0
  {
    assert script[..n + 1][..n] == script[..n];
  }

  lemma MidwayBegins(su: SuiteInfo, t: TestCase)
    ensures Midway(su, Begun(su, t.name), t, 0)
  {
  }

  lemma MidwayStep(before: SuiteInfo, now: SuiteInfo, t: TestCase, n: nat)
    requires n < |t.script| && !t.script[n].IsSignal() && Midway(before, now, t, n)
    ensures now.tests != []
    ensures Midway(before, if t.script[n].Assert? then Asserted(now, t.script[n].condition) else now, t, n + 1)
  {
    NextCounts(t.script, n, true);
    NextCounts(t.script, n, false);
    assert now.tests[..|now.tests| - 1] == before.tests;
  }

  lemma MidwayEnds(before: SuiteInfo, now: SuiteInfo, t: TestCase, n: nat)
    requires n <= |t.script| && Midway(before, now, t, n) && Executed(t.script) == t.script[..n]
    ensures now.tests != [] && now.tests[|now.tests| - 1].name == t.name
    ensures Ended(now, Outcome(t.script), t.time) == WithTest(before, t)
  {
    hide Outcome;
    assert now.tests[..|now.tests| - 1] == before.tests;
  }

  /** The running result while the assertions go on. */
  function SoFar(script: seq<Step>, n: nat): TestResult
    requires n <= |script|
  {
    if Assert(false) in script[..n] then Failed else NotRun
  }

  lemma NothingSoFar(script: seq<Step>)
    ensures SoFar(script, 0) == NotRun
  {
  }

  lemma NextSoFar(script: seq<Step>, n: nat)
    requires n < |script|
    ensures SoFar(script, n + 1) == if script[n] == Assert(false) then Failed else SoFar(script, n)
  {
    assert script[..n + 1] == script[..n] + [script[n]];
  }

  lemma OutcomeAt(script: seq<Step>, n: nat)
    requires n <= |script| && Executed(script) == script[..n]
    ensures Outcome(script) == if n < |script| then (if script[n].Abort? then Aborted else Segfault)
                               else if SoFar(script, n) == NotRun then Passed else SoFar(script, n)
    ensures Outcome(script) != NotRun
  {
    if n == |script| {
      assert script[..n] == script;
    }
  }

  lemma {:induction false} ExecutedLength(script: seq<Step>, n: nat)
    requires n <= |script| && (forall k :: 0 <= k < n ==> !script[k].IsSignal())
    requires n < |script| ==> script[n].IsSignal()
    ensures Executed(script) == script[..n]
  {
    if n > 0 {
      ExecutedLength(script[1..], n - 1);
      assert script[..n] == [script[0]] + script[1..][..n - 1];
    }
  }

  lemma NothingLogged(counters: seq<nat>, script: seq<Step>)
    requires |counters| == LOG_DEBUG + 1
    ensures Tally(counters, StepsLog(script[..0])) == counters
  {
  }

  lemma NextLogged(counters: seq<nat>, script: seq<Step>, n: nat)
    requires |counters| == LOG_DEBUG + 1 && n < |script|
    ensures Tally(Tally(counters, StepsLog(script[..n])), StepLog(script[n]))
         == Tally(counters, StepsLog(script[..n + 1]))
  {
    hide Tally, StepLog;
    assert script[..n + 1][..n] == script[..n];
    TallyAppend(counters, StepsLog(script[..n]), StepLog(script[n]));
  }

  lemma TestLogged(counters: seq<nat>, t: TestCase, n: nat)
    requires |counters| == LOG_DEBUG + 1 && n <= |t.script| && Executed(t.script) == t.script[..n]
    ensures var steps := Tally(counters, StepsLog(t.script[..n]));
            Tally(Tally(steps, if n < |t.script| then StepLog(t.script[n]) else []), ResultLog(Outcome(t.script)))
            == Tally(counters, TestLog(t))
  {
    hide Tally, StepLog, StepsLog, ResultLog, Outcome;
    var a, b := StepsLog(t.script[..n]), if n < |t.script| then StepLog(t.script[n]) else [];
    TallyAppend(counters, a, b);
    TallyAppend(counters, a + b, ResultLog(Outcome(t.script)));
  }

  lemma NoTestLogged(counters: seq<nat>, tests: seq<TestCase>)
    requires |counters| == LOG_DEBUG + 1
    ensures Tally(counters, TestsLog(tests[..0])) == counters
  {
  }

  lemma NoSuiteLogged(counters: seq<nat>, suites: seq<TestSuite>)
    requires |counters| == LOG_DEBUG + 1
    ensures Tally(counters, RunLog(suites[..0])) == counters
  {
  }

  lemma NextTestLogged(counters: seq<nat>, tests: seq<TestCase>, i: nat)
    requires |counters| == LOG_DEBUG + 1 && i < |tests|
    ensures Tally(Tally(counters, TestsLog(tests[..i])), TestLog(tests[i])) == Tally(counters, TestsLog(tests[..i + 1]))
  {
    hide Tally, TestLog;
    assert tests[..i + 1][..i] == tests[..i];
    TallyAppend(counters, TestsLog(tests[..i]), TestLog(tests[i]));
  }

  lemma SuiteLogged(counters: seq<nat>, s: TestSuite, res: bool)
    requires |counters| == LOG_DEBUG + 1 && res == SuiteStat(s).result
    ensures Tally(Tally(counters, TestsLog(s.tests)), [if res then LOG_DEBUG else LOG_WARNING])
         == Tally(counters, SuiteLog(s))
  {
    hide Tally, SuiteStat, TestsLog;
    TallyAppend(counters, TestsLog(s.tests), [if res then LOG_DEBUG else LOG_WARNING]);
  }

  lemma NextSuiteLogged(counters: seq<nat>, suites: seq<TestSuite>, i: nat)
    requires |counters| == LOG_DEBUG + 1 && i < |suites|
    ensures Tally(Tally(counters, RunLog(suites[..i])), SuiteLog(suites[i])) == Tally(counters, RunLog(suites[..i + 1]))
  {
    hide Tally, SuiteLog;
    assert suites[..i + 1][..i] == suites[..i];
    TallyAppend(counters, RunLog(suites[..i]), SuiteLog(suites[i]));
  }

  /** The registry of suites and tests, and the statistics that watch it. */
  class TestContext {
    const stat: TestStatistics
    var suites: seq<TestSuite>

    constructor (stat: TestStatistics)
      ensures this.stat == stat && suites == []
    {
      this.stat, suites := stat, [];
    }

    /** `_test_case_run_single_test`, where contexts can be switched. */
    method RunSingleTest(t: TestCase) returns (result: TestResult)
      requires stat.Valid() && stat.inSuite && !stat.inTest
      modifies stat
      ensures stat.Valid() && stat.inSuite && !stat.inTest && result == Outcome(t.script)
      ensures stat.suites == old(stat.suites)[..|old(stat.suites)| - 1] + [WithTest(old(stat.Current()), t)]
      ensures stat.passed == old(stat.passed) + if result == Passed then 1 else 0
      ensures stat.failed == old(stat.failed) + if result in FAILURES then 1 else 0
      ensures stat.segfaults == old(stat.segfaults) + if result == Segfault then 1 else 0
      ensures stat.messages == Tally(old(stat.messages), TestLog(t))
    {
      hide Midway, Outcome, SoFar, Executed, WithTest, Begun, Asserted, Ended, Tally, StepLog, StepsLog, ResultLog,
        TestLog;
      ghost var su, others := stat.Current(), stat.suites[..|stat.suites| - 1];
      result := NotRun;
      stat.HookCaseBegin(t.name);
      MidwayBegins(su, t);
      NothingSoFar(t.script);
      NothingLogged(stat.messages, t.script);
      var n := 0;
      while n < |t.script| && !t.script[n].IsSignal()
        invariant 0 <= n <= |t.script| && forall k :: 0 <= k < n ==> !t.script[k].IsSignal()
        invariant stat.Valid() && stat.inTest
        invariant stat.messages == Tally(old(stat.messages), StepsLog(t.script[..n]))
        invariant stat.passed == old(stat.passed) && stat.failed == old(stat.failed)
        invariant stat.segfaults == old(stat.segfaults)
        invariant stat.suites[..|stat.suites| - 1] == others && Midway(su, stat.Current(), t, n)
        invariant result == SoFar(t.script, n)
      {
        MidwayStep(su, stat.Current(), t, n);
        NextSoFar(t.script, n);
        NextLogged(old(stat.messages), t.script, n);
        if t.script[n].Assert? {
          stat.HookAssert(t.script[n].condition);
          if !t.script[n].condition {
            result := Failed;
          }
        }
        stat.CountMessages(StepLog(t.script[n]));
        n := n + 1;
      }
      ExecutedLength(t.script, n);
      OutcomeAt(t.script, n);
      MidwayEnds(su, stat.Current(), t, n);
      TestLogged(old(stat.messages), t, n);
      if n == |t.script| {
        TallyNothing(stat.messages);
        if result == NotRun {
          result := Passed;
        }
      } else {
        stat.CountMessages(StepLog(t.script[n]));
        result := if t.script[n].Abort? then Aborted else Segfault;
      }
      stat.CountMessages(ResultLog(result));
      stat.HookCaseEnd(t.name, result, t.time);
    }

    /** `_test_suite_run` of a whole suite. */
    method RunSuite(s: TestSuite) returns (res: bool)
      requires stat.Valid() && !stat.inSuite && !stat.inTest
      modifies stat
      ensures stat.Valid() && !stat.inSuite && !stat.inTest
      ensures stat.messages == Tally(old(stat.messages), SuiteLog(s))
      ensures stat.suites == old(stat.suites) + [SuiteStat(s)] && res == SuiteStat(s).result
      ensures Counted(SuiteStat(s).tests, old(stat.passed), old(stat.failed), old(stat.segfaults),
                      stat.passed, stat.failed, stat.segfaults)
    {
      hide PartialSuite, Counted, SuiteStat, WithTest, Outcome, Tally, TestLog, SuiteLog, TestsLog;
      ghost var others := stat.suites;
      NoTestLogged(stat.messages, s.tests);
      res := true;
      stat.HookSuiteBegin(s.name);
      PartialBegins(s, stat.passed, stat.failed, stat.segfaults);
      for i := 0 to |s.tests|
        invariant stat.Valid() && stat.inSuite && !stat.inTest
        invariant stat.messages == Tally(old(stat.messages), TestsLog(s.tests[..i]))
        invariant stat.suites == others + [PartialSuite(s, i)]
        invariant res == AllPassed(TestStats(s.tests[..i]))
        invariant Counted(TestStats(s.tests[..i]), old(stat.passed), old(stat.failed), old(stat.segfaults),
                          stat.passed, stat.failed, stat.segfaults)
      {
        ghost var p, f, g := stat.passed, stat.failed, stat.segfaults;
        assert (others + [PartialSuite(s, i)])[..|others|] == others;
        var result := RunSingleTest(s.tests[i]);
        PartialStep(s, i);
        NextTestLogged(old(stat.messages), s.tests, i);
        CountedStep(s, i, old(stat.passed), old(stat.failed), old(stat.segfaults), p, f, g,
                    stat.passed, stat.failed, stat.segfaults);
        res := res && result == Passed;
      }
      PartialEnds(s);
      assert s.tests[..|s.tests|] == s.tests;
      assert (others + [PartialSuite(s, |s.tests|)])[..|others|] == others;
      SuiteLogged(old(stat.messages), s, res);
      stat.CountMessages([if res then LOG_DEBUG else LOG_WARNING]);
      stat.HookSuiteEnd(s.name, res, s.time);
    }

    /** `tinu_test_all_run`: with fresh statistics, they add up. */
    method RunAll() returns (res: bool)
      requires stat.Valid() && !stat.inSuite && !stat.inTest && stat.suites == []
      requires stat.passed == stat.failed == stat.segfaults == 0
      modifies stat
      ensures stat.Valid() && !stat.inSuite && !stat.inTest && stat.suites == SuiteStats(suites)
      ensures stat.passed + stat.failed == CountTests(suites) && stat.segfaults <= stat.failed
      ensures stat.passed == CountAll(stat.suites, {Passed}) && stat.failed == CountAll(stat.suites, FAILURES)
      ensures stat.segfaults == CountAll(stat.suites, {Segfault})
      ensures res <==> stat.failed == 0
      ensures stat.messages == Tally(old(stat.messages), RunLog(suites))
    {
      hide SuiteStat, CountResults, Tally, SuiteLog, RunLog;
      NoSuiteLogged(stat.messages, suites);
      res := true;
      for i := 0 to |suites|
        invariant stat.Valid() && !stat.inSuite && !stat.inTest
        invariant stat.suites == SuiteStats(suites[..i])
        invariant stat.messages == Tally(old(stat.messages), RunLog(suites[..i]))
        invariant stat.passed == CountAll(stat.suites, {Passed}) && stat.failed == CountAll(stat.suites, FAILURES)
        invariant stat.segfaults == CountAll(stat.suites, {Segfault})
        invariant res <==> forall k :: 0 <= k < i ==> stat.suites[k].result
      {
        ghost var before := stat.suites;
        NextSuiteLogged(old(stat.messages), suites, i);
        var ok := RunSuite(suites[i]);
        assert stat.suites[..i] == before;
        assert stat.suites == SuiteStats(suites[..i + 1]);
        res := res && ok;
      }
      assert suites[..|suites|] == suites;
      RunTotals(suites);
    }

    /** `_test_validate_name` */
    method ValidateName(name: string) returns (ok: bool)
      ensures ok <==> Clean(name)
    {
      for i := 0 to |name|
        invariant '.' !in name[..i] && '=' !in name[..i]
      {
        if name[i] == '.' || name[i] == '=' {
          return false;
        }
      }
      assert name[..|name|] == name;
      return true;
    }

    /** `test_add_extended`: a name that is not clean is refused with an assertion
        failure. A test that exists already is replaced. */
    method AddExtended(suite: string, test: TestCase) returns (accepted: bool)
      modifies this
      ensures accepted <==> Clean(suite) && Clean(test.name)
      ensures suites == if accepted then Added(old(suites), suite, test) else old(suites)
    {
      accepted := ValidateName(suite);
      if accepted {
        accepted := ValidateName(test.name);
      }
      if !accepted {
        return;
      }
      var i := 0;
      while i < |suites| && suites[i].name != suite
        invariant 0 <= i <= |suites| && forall k :: 0 <= k < i ==> suites[k].name != suite
      {
        i := i + 1;
      }
      SuiteFound(suites, suite, i);
      if i == |suites| {
        suites := suites + [TestSuite(suite, [], "")];
      }
      var tests := suites[i].tests;
      var j := 0;
      while j < |tests| && tests[j].name != test.name
        invariant 0 <= j <= |tests| && forall k :: 0 <= k < j ==> tests[k].name != test.name
      {
        j := j + 1;
      }
      TestFound(tests, test.name, j);
      if j < |tests| {
        tests := tests[j := test];
      } else {
        tests := tests + [test];
        assert j == 0 ==> tests == [test];
      }
      suites := suites[i := suites[i].(tests := tests)];
      assert i == |old(suites)| ==> suites == old(suites) + [TestSuite(suite, [test], "")];
    }
  }

  // ---------- Whole suites ----------

  /** The statistics of a suite after its first `i` tests. */
  function PartialSuite(s: TestSuite, i: nat): SuiteInfo
    requires i <= |s.tests|
  {
    var tests := TestStats(s.tests[..i]);
    SuiteInfo(s.name, false, SumPassed(tests), SumTotal(tests), "", tests)
  }

  /** The counters after some tests. */
  ghost predicate Counted(tests: seq<TestInfo>, p0: nat, f0: nat, s0: nat, p: nat, f: nat, s: nat) {
    && p == p0 + CountResults(tests, {Passed}) && f == f0 + CountResults(tests, FAILURES)
    && s == s0 + CountResults(tests, {Segfault})
  }

  lemma PartialBegins(s: TestSuite, p: nat, f: nat, g: nat)
    ensures PartialSuite(s, 0) == SuiteInfo(s.name, false, 0, 0, "", [])
    ensures Counted(TestStats(s.tests[..0]), p, f, g, p, f, g) && AllPassed(TestStats(s.tests[..0]))
  {
  }

  lemma PartialStep(s: TestSuite, i: nat)
    requires i < |s.tests|
    ensures WithTest(PartialSuite(s, i), s.tests[i]) == PartialSuite(s, i + 1)
    ensures AllPassed(TestStats(s.tests[..i + 1]))
            <==> AllPassed(TestStats(s.tests[..i])) && Outcome(s.tests[i].script) == Passed
  {
    hide Outcome, CountAsserts;
    var so, more := TestStats(s.tests[..i]), TestStats(s.tests[..i + 1]);
    assert more == so + [TestStat(s.tests[i])];
    assert more[..i] == so;
  }

  lemma CountedStep(s: TestSuite, i: nat, p0: nat, f0: nat, s0: nat, p: nat, f: nat, g: nat, p': nat, f': nat, g': nat)
    requires i < |s.tests| && Counted(TestStats(s.tests[..i]), p0, f0, s0, p, f, g)
    requires var result := Outcome(s.tests[i].script);
             && p' == p + (if result == Passed then 1 else 0)
             && f' == f + (if result in FAILURES then 1 else 0)
             && g' == g + if result == Segfault then 1 else 0
    ensures Counted(TestStats(s.tests[..i + 1]), p0, f0, s0, p', f', g')
  {
    hide Outcome, CountAsserts;
    var so, more := TestStats(s.tests[..i]), TestStats(s.tests[..i + 1]);
    assert more == so + [TestStat(s.tests[i])];
    assert more[..i] == so;
  }

  lemma PartialEnds(s: TestSuite)
    ensures SuiteStat(s) == PartialSuite(s, |s.tests|).(result := AllPassed(TestStats(s.tests)), time := s.time)
    ensures PartialSuite(s, |s.tests|).name == s.name && SuiteStat(s).tests == TestStats(s.tests)
  {
    assert s.tests[..|s.tests|] == s.tests;
  }

  // ---------- The registry ----------

  function FindSuite(suites: seq<TestSuite>, name: string): (i: nat)
    ensures i <= |suites|
  {
    if suites == [] || suites[0].name == name then 0 else 1 + FindSuite(suites[1..], name)
  }

  function FindTest(tests: seq<TestCase>, name: string): (i: nat)
    ensures i <= |tests|
  {
    if tests == [] || tests[0].name == name then 0 else 1 + FindTest(tests[1..], name)
  }

  lemma {:induction false} SuiteFound(suites: seq<TestSuite>, name: string, i: nat)
    requires i <= |suites| && forall k :: 0 <= k < i ==> suites[k].name != name
    requires i < |suites| ==> suites[i].name == name
    ensures FindSuite(suites, name) == i
  {
    if i > 0 {
      SuiteFound(suites[1..], name, i - 1);
    }
  }

  lemma {:induction false} TestFound(tests: seq<TestCase>, name: string, i: nat)
    requires i <= |tests| && forall k :: 0 <= k < i ==> tests[k].name != name
    requires i < |tests| ==> tests[i].name == name
    ensures FindTest(tests, name) == i
  {
    if i > 0 {
      TestFound(tests[1..], name, i - 1);
    }
  }

  function WithCase(tests: seq<TestCase>, test: TestCase): seq<TestCase> {
    var j := FindTest(tests, test.name);
    if j < |tests| then tests[j := test] else tests + [test]
  }

  /** A registry with a test added or replaced. */
  function Added(suites: seq<TestSuite>, suite: string, test: TestCase): seq<TestSuite> {
    var i := FindSuite(suites, suite);
    if i < |suites| then suites[i := suites[i].(tests := WithCase(suites[i].tests, test))]
    else suites + [TestSuite(suite, [test], "")]
  }

  predicate DistinctTests(tests: seq<TestCase>) {
    && (forall i, j :: 0 <= i < j < |tests| ==> tests[i].name != tests[j].name)
    && forall i :: 0 <= i < |tests| ==> Clean(tests[i].name)
  }

  /** Names are clean, and unique where they have to be. */
  predicate WellNamed(suites: seq<TestSuite>) {
    && (forall i, j :: 0 <= i < j < |suites| ==> suites[i].name != suites[j].name)
    && forall i :: 0 <= i < |suites| ==> Clean(suites[i].name) && DistinctTests(suites[i].tests)
  }

  function AddedAll(calls: seq<(string, TestCase)>): seq<TestSuite> {
    if calls == [] then []
    else
      var (suite, test) := calls[|calls| - 1];
      var sofar := AddedAll(calls[..|calls| - 1]);
      if Clean(suite) && Clean(test.name) then Added(sofar, suite, test) else sofar
  }

  lemma {:induction false} FoundSuite(suites: seq<TestSuite>, name: string)
    ensures var i := FindSuite(suites, name);
            && (i < |suites| ==> suites[i].name == name)
            && forall k :: 0 <= k < i ==> suites[k].name != name
  {
    if suites != [] && suites[0].name != name {
      FoundSuite(suites[1..], name);
    }
  }

  lemma {:induction false} FoundTest(tests: seq<TestCase>, name: string)
    ensures var i := FindTest(tests, name);
            && (i < |tests| ==> tests[i].name == name)
            && forall k :: 0 <= k < i ==> tests[k].name != name
  {
    if tests != [] && tests[0].name != name {
      FoundTest(tests[1..], name);
    }
  }

  lemma CaseKeepsDistinct(tests: seq<TestCase>, test: TestCase)
    requires DistinctTests(tests) && Clean(test.name)
    ensures DistinctTests(WithCase(tests, test))
  {
    FoundTest(tests, test.name);
  }

  /** However tests are added, the names in the registry are unique and free of dots and
      equals signs. */
  lemma {:induction false} RegistryWellNamed(calls: seq<(string, TestCase)>)
    ensures WellNamed(AddedAll(calls))
  {
    hide Clean, DistinctTests, WithCase;
    if calls != [] {
      var (suite, test) := calls[|calls| - 1];
      var sofar := AddedAll(calls[..|calls| - 1]);
      RegistryWellNamed(calls[..|calls| - 1]);
      if Clean(suite) && Clean(test.name) {
        FoundSuite(sofar, suite);
        var i := FindSuite(sofar, suite);
        if i < |sofar| {
          CaseKeepsDistinct(sofar[i].tests, test);
        } else {
          OneTest(test);
        }
      }
    }
  }

  lemma OneTest(test: TestCase)
    requires Clean(test.name)
    ensures DistinctTests([test])
  {
  }

  /** What a registry's statistics look like in a report: their names satisfy what the
      report's reader needs. */
  lemma StatsWellNamed(suites: seq<TestSuite>)
    requires WellNamed(suites)
    ensures UniqueNames(SuiteStats(suites)) && CleanNames(SuiteStats(suites))
  {
    hide Clean, Outcome, CountAsserts, SumPassed, SumTotal, AllPassed;
    forall i | 0 <= i < |suites|
      ensures UniqueTests(SuiteStats(suites)[i].tests) && CleanSuite(SuiteStats(suites)[i])
    {
      assert DistinctTests(suites[i].tests);
      assert SuiteStats(suites)[i].tests == TestStats(suites[i].tests);
    }
  }
}
