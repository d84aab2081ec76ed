/** The statistics of a test run, as the hooks gather them and the reports show them. */
module Statistics {
  datatype TestResult = NotRun | Passed | Failed | Aborted | Segfault | Internal

  /** Times are opaque tokens. */
  datatype TestInfo = TestInfo(name: string, result: TestResult, passed: nat, total: nat, time: string)

  datatype SuiteInfo = SuiteInfo(name: string, result: bool, passed: nat, total: nat, time: string,
                                 tests: seq<TestInfo>)

  /** The numbers of tests and, by priority, of messages. */
  datatype Stats = Stats(passed: nat, failed: nat, segfaults: nat, messages: seq<nat>, suites: seq<SuiteInfo>)
}
