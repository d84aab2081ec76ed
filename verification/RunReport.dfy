/** From a registry of tests to its report and back. */
module RunReport {
  import opened Bytes
  import opened Statistics
  import opened ReportParser
  import opened Report
  import opened ReportWriter
  import opened TestRunner
  import opened RunContents

  ghost function Gathered(stat: TestStatistics): Stats
    reads stat
  {
    Stats(stat.passed, stat.failed, stat.segfaults, stat.messages, stat.suites)
  }

  /** Runs every registered test and writes the report. Whatever was registered, the
      report is read back as what happened: each test with its outcome and assertion
      counts, the number of messages of every priority, and totals that add up. */
  method RunAndReport(calls: seq<(string, TestCase)>, file: Reporter)
    returns (ok: bool, ghost s: Stats, ghost p: Parsed)
    requires file.file == "" && OneLineNames(SuiteStats(AddedAll(calls)))
    modifies file
    ensures |s.messages| == LOG_DEBUG + 1 && s.suites == SuiteStats(AddedAll(calls))
    ensures forall k: Priority :: s.messages[k] == multiset(RunLog(AddedAll(calls)))[k]
    ensures s.passed + s.failed == CountTests(AddedAll(calls)) && s.segfaults <= s.failed
    ensures ok <==> s.failed == 0
    ensures ParseFile(file.file) == Some(p) && ReportSays(p, s) && RunShown(p, AddedAll(calls))
  {
    hide AddedAll, Added, SuiteStats, OneLineNames, CleanNames, UniqueNames, WellNamed, Lines, Expected,
      ParseFile, Text, Tally, RunLog, CountAll, ReportSays, RunShown;
    var stat := new TestStatistics();
    var context := new TestContext(stat);
    Register(context, calls);
    ok := context.RunAll();
    s := Gathered(stat);
    CountsFromZero(s.messages, RunLog(AddedAll(calls)));
    file.PutFile(Stats(stat.passed, stat.failed, stat.segfaults, stat.messages, stat.suites));
    RegistryWellNamed(calls);
    StatsWellNamed(AddedAll(calls));
    FileReadBack(s);
    p := Expected(s);
    ExpectedSays(s);
    RunIsShown(p, s, AddedAll(calls));
    assert "" + Text(Lines(s)) == Text(Lines(s));
  }

  lemma CountsFromZero(messages: seq<nat>, log: seq<Priority>)
    requires messages == Tally([0, 0, 0, 0, 0, 0, 0, 0], log)
    ensures forall k: Priority :: messages[k] == multiset(log)[k]
  {
    hide Tally;
    var zeros: seq<nat> := [0, 0, 0, 0, 0, 0, 0, 0];
    forall k: Priority
      ensures messages[k] == multiset(log)[k]
    {
      TallyCounts(zeros, log, k);
      assert zeros[k] == 0;
    }
  }

  /** Adds tests, ignoring those whose names are refused. */
  method Register(context: TestContext, calls: seq<(string, TestCase)>)
    requires context.suites == []
    modifies context
    ensures context.suites == AddedAll(calls)
  {
    hide Added, Clean;
    for i := 0 to |calls|
      invariant context.suites == AddedAll(calls[..i])
    {
      assert calls[..i + 1][..i] == calls[..i];
      var (suite, test) := calls[i];
      var _ := context.AddExtended(suite, test);
    }
    assert calls[..|calls|] == calls;
  }
}
