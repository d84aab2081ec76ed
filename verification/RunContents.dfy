/** What a run of tests and its report come to, stated by the tests' scripts and by the
    words of the report alone. */
module RunContents {
  import opened Bytes
  import opened Statistics
  import opened ReportParser
  import opened Report
  import opened TestRunner

  // ---------- The words of a report ----------

  /** A counter as it is read: itself below 2^31, and negative from there to 2^32. */
  predicate Says(read: int, counted: nat) {
    && (counted < 0x8000_0000 ==> read == counted)
    && (0x8000_0000 <= counted < 0x1_0000_0000 ==> read == counted - 0x1_0000_0000)
  }

  /** Each result has a word of its own. */
  predicate Word(word: string, r: TestResult) {
    && (word == "passed" <==> r == Passed) && (word == "failed" <==> r == Failed)
    && (word == "abort" <==> r == Aborted) && (word == "segfault" <==> r == Segfault)
    && (word == "internal" <==> r == Internal) && (word == "none" <==> r == NotRun)
  }

  predicate TestSays(t: Test, info: TestInfo) {
    && Word(t.result, info.result) && t.time == Some(info.time)
    && Says(t.asserts.passed, info.passed) && Says(t.asserts.total, info.total)
  }

  predicate SuiteSays(su: Suite, info: SuiteInfo) {
    && su.result == Some(if info.result then 1 else 0)
    && Says(su.asserts.passed, info.passed) && Says(su.asserts.total, info.total)
    && su.tests.Keys == (set i | 0 <= i < |info.tests| :: info.tests[i].name)
    && forall i :: 0 <= i < |info.tests| ==> TestSays(su.tests[info.tests[i].name], info.tests[i])
  }

  /** The message counts, by the names of their priorities. */
  predicate MessagesSay(read: map<string, int>, messages: seq<nat>)
    requires |messages| == 8
  {
    && read.Keys == {"critical", "error", "warning", "notice", "info", "debug"}
    && Says(read["critical"], messages[2]) && Says(read["error"], messages[3])
    && Says(read["warning"], messages[4]) && Says(read["notice"], messages[5])
    && Says(read["info"], messages[6]) && Says(read["debug"], messages[7])
  }

  /** A report says what the statistics are. */
  predicate ReportSays(p: Parsed, s: Stats)
    requires |s.messages| == 8
  {
    && Says(p.summary.passed, s.passed) && Says(p.summary.failed, s.failed) && Says(p.summary.segfault, s.segfaults)
    && MessagesSay(p.messages, s.messages)
    && p.suites.Keys == (set i | 0 <= i < |s.suites| :: s.suites[i].name)
    && forall i :: 0 <= i < |s.suites| ==> SuiteSays(p.suites[s.suites[i].name], s.suites[i])
  }

  lemma WordOf(r: TestResult)
    ensures Word(ResultName(r), r)
  {
    var a, b, c := "passed", "failed", "abort";
    var d, e, f := "segfault", "internal", "none";
    assert a[0] == 'p' && b[0] == 'f' && c[0] == 'a' && d[0] == 's' && e[0] == 'i' && f[0] == 'n';
  }

  lemma {:induction false} TestExpected(tests: seq<TestInfo>, i: nat)
    requires UniqueTests(tests) && i < |tests|
    ensures tests[i].name in ExpectedTests(tests) && TestSays(ExpectedTests(tests)[tests[i].name], tests[i])
  {
    var k := |tests| - 1;
    WordOf(tests[i].result);
    if i < k {
      TestExpected(tests[..k], i);
    }
  }

  lemma SuiteExpected(info: SuiteInfo)
    requires UniqueTests(info.tests)
    ensures SuiteSays(ExpectedSuite(info), info)
  {
    hide TestSays, UniqueTests, ExpectedTests;
    TestNames(info.tests);
    forall i | 0 <= i < |info.tests|
      ensures TestSays(ExpectedTests(info.tests)[info.tests[i].name], info.tests[i])
    {
      TestExpected(info.tests, i);
    }
  }

  lemma MessagesExpected(messages: seq<nat>)
    requires |messages| == 8
    ensures MessagesSay(ExpectedMessages(messages, 8), messages)
  {
    var m := map["critical" := Signed(messages[2]), "error" := Signed(messages[3])];
    var n := m["warning" := Signed(messages[4])]["notice" := Signed(messages[5])];
    assert ExpectedMessages(messages, 2) == map[];
    assert ExpectedMessages(messages, 4) == m;
    assert ExpectedMessages(messages, 6) == n;
    assert ExpectedMessages(messages, 8) == n["info" := Signed(messages[6])]["debug" := Signed(messages[7])];
    var c, e, w, o, i, d := "critical", "error", "warning", "notice", "info", "debug";
    assert c[0] == 'c' && e[0] == 'e' && w[0] == 'w' && o[0] == 'n' && i[0] == 'i' && d[0] == 'd';
  }

  /** What the parser is to recover of a report says what the statistics are. */
  lemma ExpectedSays(s: Stats)
    requires |s.messages| == 8 && UniqueNames(s.suites)
    ensures ReportSays(Expected(s), s)
  {
    hide ExpectedSuites, ExpectedSuite, ExpectedMessages, SuiteSays, MessagesSay, UniqueTests;
    MessagesExpected(s.messages);
    SuiteNames(s.suites);
    forall i | 0 <= i < |s.suites|
      ensures s.suites[i].name in ExpectedSuites(s.suites)
      ensures SuiteSays(ExpectedSuites(s.suites)[s.suites[i].name], s.suites[i])
    {
      SuiteAt(s.suites, i);
      SuiteExpected(s.suites[i]);
    }
  }

  // ---------- The outcome of a script ----------

  /** The first signal is step `n`; there is none if `n` is the length of the script. */
  predicate FirstSignal(script: seq<Step>, n: nat) {
    && n <= |script| && (forall k :: 0 <= k < n ==> !script[k].IsSignal())
    && (n < |script| ==> script[n].IsSignal())
  }

  lemma {:induction false} ExecutedIs(script: seq<Step>, n: nat)
    requires FirstSignal(script, n)
    ensures Executed(script) == script[..n]
  {
    if n > 0 {
      ExecutedIs(script[1..], n - 1);
      assert script[..n] == [script[0]] + script[1..][..n - 1];
    }
  }

  lemma {:induction false} SignalFound(script: seq<Step>) returns (n: nat)
    ensures FirstSignal(script, n)
  {
    n := 0;
    if script != [] && !script[0].IsSignal() {
      var m := SignalFound(script[1..]);
      n := m + 1;
    }
  }

  /** The first signal decides the outcome, and without one a failed assertion. */
  lemma OutcomeIff(script: seq<Step>, n: nat)
    requires FirstSignal(script, n)
    ensures Outcome(script) == Aborted <==> n < |script| && script[n].Abort?
    ensures Outcome(script) == Segfault <==> n < |script| && script[n].Segv?
    ensures Outcome(script) == Failed <==> n == |script| && Assert(false) in script
    ensures Outcome(script) == Passed <==> n == |script| && Assert(false) !in script
  {
    ExecutedIs(script, n);
  }

  lemma {:induction false} AssertsCounted(steps: seq<Step>)
    ensures CountAsserts(steps, true) == multiset(steps)[Assert(true)]
    ensures CountAsserts(steps, false) == multiset(steps)[Assert(true)] + multiset(steps)[Assert(false)]
  {
    if steps != [] {
      var k := |steps| - 1;
      AssertsCounted(steps[..k]);
      assert steps == steps[..k] + [steps[k]];
    }
  }

  /** What the report is to say of a test: its result, and how many of the assertions in
      front of the first signal were true, and how many there were. */
  ghost predicate TestShown(t: Test, c: TestCase) {
    exists n: nat :: FirstSignal(c.script, n) &&
      (var steps, signal := multiset(c.script[..n]), n < |c.script|;
       && (t.result == "passed" <==> !signal && Assert(false) !in c.script)
       && (t.result == "failed" <==> !signal && Assert(false) in c.script)
       && (t.result == "abort" <==> signal && c.script[n].Abort?)
       && (t.result == "segfault" <==> signal && c.script[n].Segv?)
       && Says(t.asserts.passed, steps[Assert(true)])
       && Says(t.asserts.total, steps[Assert(true)] + steps[Assert(false)])
       && t.time == Some(c.time))
  }

  lemma TestIsShown(t: Test, c: TestCase)
    requires TestSays(t, TestStat(c))
    ensures TestShown(t, c)
  {
    hide Outcome, CountAsserts, Executed, Says;
    var n := SignalFound(c.script);
    OutcomeIff(c.script, n);
    ExecutedIs(c.script, n);
    AssertsCounted(c.script[..n]);
  }

  /** The steps of all tests that ran, in order. */
  function StepsOf(tests: seq<TestCase>): seq<Step> {
    if tests == [] then []
    else StepsOf(tests[..|tests| - 1]) + Executed(tests[|tests| - 1].script)
  }

  lemma {:induction false} SumsCounted(tests: seq<TestCase>)
    ensures SumPassed(TestStats(tests)) == multiset(StepsOf(tests))[Assert(true)]
    ensures SumTotal(TestStats(tests))
         == multiset(StepsOf(tests))[Assert(true)] + multiset(StepsOf(tests))[Assert(false)]
  {
    hide Outcome, Executed;
    if tests != [] {
      var k := |tests| - 1;
      SumsCounted(tests[..k]);
      AssertsCounted(Executed(tests[k].script));
      assert TestStats(tests) == TestStats(tests[..k]) + [TestStat(tests[k])];
      assert TestStats(tests)[..k] == TestStats(tests[..k]);
    }
  }

  /** What the report is to say of a suite: 1 if all its tests passed and 0 otherwise, the
      assertions of all its tests, and each test. */
  ghost predicate SuiteShown(su: Suite, s: TestSuite) {
    var steps := multiset(StepsOf(s.tests));
    && su.result == Some(if forall c :: c in s.tests ==> Outcome(c.script) == Passed then 1 else 0)
    && Says(su.asserts.passed, steps[Assert(true)])
    && Says(su.asserts.total, steps[Assert(true)] + steps[Assert(false)])
    && su.tests.Keys == (set i | 0 <= i < |s.tests| :: s.tests[i].name)
    && forall i :: 0 <= i < |s.tests| ==> TestShown(su.tests[s.tests[i].name], s.tests[i])
  }

  lemma SuiteIsShown(su: Suite, s: TestSuite)
    requires SuiteSays(su, SuiteStat(s))
    ensures SuiteShown(su, s)
  {
    hide Outcome, CountAsserts, Executed, Says, TestSays, TestShown, SumPassed, SumTotal, StepsOf;
    SumsCounted(s.tests);
    assert forall i :: 0 <= i < |s.tests| ==> TestStats(s.tests)[i].name == s.tests[i].name;
    forall i | 0 <= i < |s.tests|
      ensures TestShown(su.tests[s.tests[i].name], s.tests[i])
    {
      assert TestSays(su.tests[TestStats(s.tests)[i].name], TestStats(s.tests)[i]);
      TestIsShown(su.tests[s.tests[i].name], s.tests[i]);
    }
    AllPassedIff(s.tests);
  }

  lemma AllPassedIff(tests: seq<TestCase>)
    ensures AllPassed(TestStats(tests)) <==> forall c :: c in tests ==> Outcome(c.script) == Passed
  {
    hide Outcome, CountAsserts, Executed;
    assert forall i :: 0 <= i < |tests| ==> TestStats(tests)[i].result == Outcome(tests[i].script);
  }

  /** The suites and the tests in the report are those that were run. */
  ghost predicate RunShown(p: Parsed, suites: seq<TestSuite>) {
    && p.suites.Keys == (set i | 0 <= i < |suites| :: suites[i].name)
    && forall i :: 0 <= i < |suites| ==> SuiteShown(p.suites[suites[i].name], suites[i])
  }

  lemma RunIsShown(p: Parsed, s: Stats, suites: seq<TestSuite>)
    requires |s.messages| == 8 && s.suites == SuiteStats(suites) && ReportSays(p, s)
    ensures RunShown(p, suites)
  {
    hide SuiteStat, SuiteSays, SuiteShown, Says, MessagesSay;
    forall i | 0 <= i < |suites|
      ensures s.suites[i].name == suites[i].name
      ensures suites[i].name in p.suites && SuiteShown(p.suites[suites[i].name], suites[i])
    {
      NameOfStat(suites[i]);
      SuiteIsShown(p.suites[s.suites[i].name], suites[i]);
    }
  }

  lemma NameOfStat(s: TestSuite)
    ensures SuiteStat(s).name == s.name
  {
  }

  // ---------- The messages of a script ----------

  /** One more if it is so. */
  function One(b: bool): nat {
    if b then 1 else 0
  }

  lemma StepMessage(s: Step, k: Priority)
    requires !s.IsSignal()
    ensures multiset(StepLog(s))[k]
         == One(s == Message(k)) + One(k == 7 && s == Assert(true)) + One(k == 3 && s == Assert(false))
  {
  }

  lemma CountSnoc<T>(s: seq<T>, last: T, t: T)
    ensures multiset(s + [last])[t] == multiset(s)[t] + One(last == t)
  {
  }

  lemma CountAppend<T>(a: seq<T>, b: seq<T>, t: T)
    ensures multiset(a + b)[t] == multiset(a)[t] + multiset(b)[t]
  {
  }

  lemma {:induction false} StepMessages(steps: seq<Step>, k: Priority)
    requires forall s :: s in steps ==> !s.IsSignal()
    ensures multiset(StepsLog(steps))[k]
         == multiset(steps)[Message(k)] + (if k == 7 then multiset(steps)[Assert(true)] else 0)
            + (if k == 3 then multiset(steps)[Assert(false)] else 0)
  {
    hide StepLog;
    if steps != [] {
      var n := |steps| - 1;
      var front, last := steps[..n], steps[n];
      StepMessages(front, k);
      StepMessage(last, k);
      CountAppend(StepsLog(front), StepLog(last), k);
      assert steps == front + [last];
      CountSnoc(front, last, Message(k));
      CountSnoc(front, last, Assert(true));
      CountSnoc(front, last, Assert(false));
    }
  }

  lemma {:induction false} Repeated(n: nat, p: Priority, k: Priority)
    ensures multiset(seq(n, _ => p))[k] == if k == p then n else 0
  {
    if n > 0 {
      Repeated(n - 1, p, k);
      var s: seq<Priority>, t: seq<Priority> := seq(n, _ => p), seq(n - 1, _ => p);
      assert s == t + [p];
    }
  }

  /** How many messages of priority `k` a test leads to whose first signal is step `n`:
      its own; a debug message (7) for every true assertion and an error (3) for every
      other; for a signal an error, one more for every frame of its backtrace, and a
      warning (4) if there are none; and for the result a notice (5) if the test passed,
      a warning if it failed, and an error if a signal ended it. */
  lemma TestMessages(t: TestCase, n: nat, k: Priority)
    requires FirstSignal(t.script, n)
    ensures var steps, signal, failed := multiset(t.script[..n]), n < |t.script|, Assert(false) in t.script;
            var frames := if signal then t.script[n].frames else 0;
            multiset(TestLog(t))[k]
            == steps[Message(k)]
               + (if k == 7 then steps[Assert(true)] else 0)
               + (if k == 3 then steps[Assert(false)] + (if signal then frames + 2 else 0) else 0)
               + (if k == 4 then One(signal && frames == 0) + One(!signal && failed) else 0)
               + (if k == 5 then One(!signal && !failed) else 0)
  {
    hide Outcome, Executed, StepsLog, StepLog, ResultLog;
    ExecutedIs(t.script, n);
    var signal := n < |t.script|;
    var steps, log, result := StepsLog(t.script[..n]), if signal then StepLog(t.script[n]) else [],
                              ResultLog(Outcome(t.script));
    assert TestLog(t) == steps + log + result;
    CountAppend(steps + log, result, k);
    CountAppend(steps, log, k);
    StepMessages(t.script[..n], k);
    if signal {
      SignalMessages(t.script[n], k);
    }
    ResultMessages(t.script, n, k);
  }

  lemma ResultMessages(script: seq<Step>, n: nat, k: Priority)
    requires FirstSignal(script, n)
    ensures var signal, failed := n < |script|, Assert(false) in script;
            multiset(ResultLog(Outcome(script)))[k]
            == One(k == 3 && signal) + One(k == 4 && !signal && failed) + One(k == 5 && !signal && !failed)
  {
    hide Outcome;
    OutcomeIff(script, n);
  }

  lemma SignalMessages(s: Step, k: Priority)
    requires s.IsSignal()
    ensures multiset(StepLog(s))[k]
         == if k == 3 then s.frames + 1 else if k == 4 then One(s.frames == 0) else 0
  {
    var frames := s.frames;
    Repeated(frames, LOG_ERR, k);
  }

  /** A suite adds one message: debug if all its tests passed, and a warning otherwise. */
  lemma SuiteMessages(s: TestSuite, k: Priority)
    ensures var all := forall c :: c in s.tests ==> Outcome(c.script) == Passed;
            multiset(SuiteLog(s))[k]
            == multiset(TestsLog(s.tests))[k] + One(k == 7 && all) + One(k == 4 && !all)
  {
    hide Outcome, TestsLog, SumPassed, SumTotal;
    AllPassedIff(s.tests);
  }

  // ---------- The registry ----------

  ghost predicate Has(suites: seq<TestSuite>, suite: string, test: TestCase) {
    exists i, j :: 0 <= i < |suites| && 0 <= j < |suites[i].tests|
                   && suites[i].name == suite && suites[i].tests[j] == test
  }

  ghost predicate Named(suites: seq<TestSuite>, suite: string, name: string) {
    exists i, j :: 0 <= i < |suites| && 0 <= j < |suites[i].tests|
                   && suites[i].name == suite && suites[i].tests[j].name == name
  }

  /** Everything in the registry stays in its place, but for a test of that name, which
      the new one replaces. */
  ghost predicate Kept(suites: seq<TestSuite>, more: seq<TestSuite>, suite: string, test: TestCase) {
    && |suites| <= |more| <= |suites| + 1
    && forall i :: 0 <= i < |suites| ==>
         && more[i].name == suites[i].name && more[i].time == suites[i].time
         && |suites[i].tests| <= |more[i].tests|
         && forall j :: 0 <= j < |suites[i].tests| ==>
              more[i].tests[j] == if suites[i].name == suite && suites[i].tests[j].name == test.name
                                  then test else suites[i].tests[j]
  }

  lemma CaseAdded(tests: seq<TestCase>, test: TestCase)
    requires DistinctTests(tests)
    ensures var more, replaced := WithCase(tests, test), exists j :: 0 <= j < |tests| && tests[j].name == test.name;
            && |more| == |tests| + (if replaced then 0 else 1) && test in more
            && (forall j :: 0 <= j < |tests| ==>
                  more[j] == if tests[j].name == test.name then test else tests[j])
            && (!replaced ==> more[|tests|] == test)
  {
    FoundTest(tests, test.name);
    var j := FindTest(tests, test.name);
    assert j < |tests| ==> WithCase(tests, test)[j] == test;
    assert j == |tests| ==> WithCase(tests, test)[j] == test;
  }

  /** A test that is added is found under its name; all else stays, and nothing else is
      added. */
  lemma AddedKeeps(suites: seq<TestSuite>, suite: string, test: TestCase)
    requires WellNamed(suites)
    ensures var more := Added(suites, suite, test);
            && Has(more, suite, test) && Kept(suites, more, suite, test)
            && CountTests(more) == CountTests(suites) + One(!Named(suites, suite, test.name))
  {
    hide DistinctTests, WithCase, Clean, CountTests;
    var more, i := Added(suites, suite, test), FindSuite(suites, suite);
    FoundSuite(suites, suite);
    if i < |suites| {
      var tests := suites[i].tests;
      CaseAdded(tests, test);
      var j :| 0 <= j < |more[i].tests| && more[i].tests[j] == test;
      CountReplaced(suites, i, more[i]);
      assert forall k :: 0 <= k < |suites| && suites[k].name == suite ==> k == i;
    } else {
      assert more[i].tests[0] == test;
      CountAppended(suites, TestSuite(suite, [test], ""));
    }
  }

  lemma CountAppended(suites: seq<TestSuite>, s: TestSuite)
    ensures CountTests(suites + [s]) == CountTests(suites) + |s.tests|
  {
    assert (suites + [s])[..|suites|] == suites;
  }

  lemma {:induction false} CountReplaced(suites: seq<TestSuite>, i: nat, s: TestSuite)
    requires i < |suites|
    ensures CountTests(suites[i := s]) == CountTests(suites) + |s.tests| - |suites[i].tests|
  {
    var k := |suites| - 1;
    if i < k {
      CountReplaced(suites[..k], i, s);
      assert suites[i := s][..k] == suites[..k][i := s];
    } else {
      assert suites[i := s][..k] == suites[..k];
    }
  }

  /** Call `k` registers this test, and no later call has the same names. */
  ghost predicate Registers(calls: seq<(string, TestCase)>, k: int, suite: string, test: TestCase) {
    && 0 <= k < |calls| && calls[k] == (suite, test) && Clean(suite) && Clean(test.name)
    && forall j :: k < j < |calls| ==> !(calls[j].0 == suite && calls[j].1.name == test.name)
  }

  /** The registry holds, under every name, the test of the last call with that name. */
  lemma {:induction false} RegistryHolds(calls: seq<(string, TestCase)>, suite: string, test: TestCase)
    ensures Has(AddedAll(calls), suite, test) <==> exists k :: Registers(calls, k, suite, test)
  {
    hide Clean, Added, WellNamed;
    if calls != [] {
      var n := |calls| - 1;
      var before := AddedAll(calls[..n]);
      var (s, t) := calls[n];
      RegistryHolds(calls[..n], suite, test);
      RegistryWellNamed(calls[..n]);
      assert forall k :: 0 <= k < n ==> calls[..n][k] == calls[k];
      assert forall k :: 0 <= k < n ==>
          (Registers(calls, k, suite, test)
           <==> Registers(calls[..n], k, suite, test) && !(s == suite && t.name == test.name));
      if Clean(s) && Clean(t.name) {
        AddedKeeps(before, s, t);
        HasAfter(before, s, t, suite, test);
        assert Registers(calls, n, suite, test) <==> (s, t) == (suite, test);
      } else {
        assert !Registers(calls, n, suite, test);
      }
    }
  }

  /** Whatever is in the registry then is the new test, or was there before. */
  lemma NothingElse(suites: seq<TestSuite>, suite: string, test: TestCase, i: nat, j: nat)
    requires WellNamed(suites)
    requires i < |Added(suites, suite, test)| && j < |Added(suites, suite, test)[i].tests|
    ensures var now := Added(suites, suite, test)[i];
            || (now.name == suite && now.tests[j] == test)
            || (i < |suites| && j < |suites[i].tests| && now.name == suites[i].name
                && now.tests[j] == suites[i].tests[j] && !(now.name == suite && now.tests[j].name == test.name))
  {
    hide DistinctTests, WithCase, Clean;
    FoundSuite(suites, suite);
    var k := FindSuite(suites, suite);
    if i == k < |suites| {
      CaseAdded(suites[i].tests, test);
    } else if i < |suites| {
      assert suites[i].name != suite;
    }
  }

  /** What is in the registry after one more test. */
  lemma HasAfter(suites: seq<TestSuite>, s: string, t: TestCase, suite: string, test: TestCase)
    requires WellNamed(suites)
    ensures Has(Added(suites, s, t), suite, test)
            <==> (suite == s && test == t) || (Has(suites, suite, test) && !(suite == s && test.name == t.name))
  {
    hide Added, WellNamed;
    var more := Added(suites, s, t);
    AddedKeeps(suites, s, t);
    if Has(suites, suite, test) && !(suite == s && test.name == t.name) {
      var i, j :| 0 <= i < |suites| && 0 <= j < |suites[i].tests|
                  && suites[i].name == suite && suites[i].tests[j] == test;
      assert more[i].name == suite && more[i].tests[j] == test;
    }
    if Has(more, suite, test) && !(suite == s && test == t) {
      var i, j :| 0 <= i < |more| && 0 <= j < |more[i].tests| && more[i].name == suite && more[i].tests[j] == test;
      NothingElse(suites, s, t, i, j);
    }
  }
}
