/** Writing a report to a file, and what a parser makes of the file. */
module ReportWriter {
  import opened Bytes
  import opened Decimal
  import opened Statistics
  import opened ReportParser
  import opened Report

  /** A file of lines. */
  function Text(lines: seq<string>): string {
    if lines == [] then [] else lines[0] + ['\n'] + Text(lines[1..])
  }

  lemma {:induction false} TextAppend(a: seq<string>, b: seq<string>)
    ensures Text(a + b) == Text(a) + Text(b)
  {
    if a == [] {
      assert a + b == b;
    } else {
      assert (a + b)[0] == a[0] && (a + b)[1..] == a[1..] + b;
      TextAppend(a[1..], b);
      Assoc(a[0] + ['\n'], Text(a[1..]), Text(b));
    }
  }

  lemma TextOne(line: string)
    ensures Text([line]) == line + ['\n']
  {
    assert [line][1..] == [];
    assert line + ['\n'] + [] == line + ['\n'];
  }

  /** No newline in it, and no carriage return before the end of the line. */
  predicate Plain(s: string) {
    '\n' !in s && (s != [] ==> s[|s| - 1] != '\r')
  }

  ghost predicate AllPlain(lines: seq<string>) {
    forall i :: 0 <= i < |lines| ==> Plain(lines[i])
  }

  lemma {:induction false} LinesOfText(lines: seq<string>)
    requires AllPlain(lines)
    ensures FileLines(Text(lines)) == lines
  {
    if lines != [] {
      var text := Text(lines);
      assert Plain(lines[0]) && text == lines[0] + ['\n'] + Text(lines[1..]);
      SplitJoined(lines[0], '\n', Text(lines[1..]));
      assert forall i :: 0 <= i < |lines[1..]| ==> lines[1..][i] == lines[i + 1];
      LinesOfText(lines[1..]);
      assert lines == [lines[0]] + lines[1..];
    }
  }

  // ---------- Which reports are made of plain lines ----------

  /** Names without newlines, and times without line ends. */
  predicate OneLine(su: SuiteInfo) {
    && '\n' !in su.name && Plain(su.time)
    && forall i :: 0 <= i < |su.tests| ==> '\n' !in su.tests[i].name && Plain(su.tests[i].time)
  }

  predicate OneLineNames(suites: seq<SuiteInfo>) {
    forall i :: 0 <= i < |suites| ==> OneLine(suites[i])
  }

  lemma PlainLine(prefix: string, key: string, value: string)
    requires '\n' !in prefix && '\n' !in key && Plain(value)
    ensures Plain(Line(prefix, key, value))
  {
    var line := Line(prefix, key, value);
    if value != [] {
      assert line[|line| - 1] == value[|value| - 1];
    } else {
      assert line[|line| - 1] == '=';
    }
  }

  lemma PlainNumeral(i: int)
    ensures Plain(Numeral(i))
  {
    var n := if i < 0 then -i else i;
    DigitsValue(n);
    assert forall c :: c in Numeral(i) ==> c == '-' || IsDigit(c);
    assert Numeral(i)[|Numeral(i)| - 1] in Numeral(i);
  }

  lemma AppendPlain(a: seq<string>, b: seq<string>)
    requires AllPlain(a) && AllPlain(b)
    ensures AllPlain(a + b)
  {
  }

  lemma PlainFour(prefix: string, first: string, passed: nat, total: nat, time: string)
    requires '\n' !in prefix && Plain(first) && Plain(time)
    ensures AllPlain([Line(prefix, "result", first), Line(prefix, "asserts.passed", Count(passed)),
                      Line(prefix, "asserts.total", Count(total)), Line(prefix, "time", time)])
  {
    hide Line, Plain, Numeral, Signed;
    PlainNumeral(Signed(passed));
    PlainNumeral(Signed(total));
    PlainLine(prefix, "result", first);
    PlainLine(prefix, "asserts.passed", Count(passed));
    PlainLine(prefix, "asserts.total", Count(total));
    PlainLine(prefix, "time", time);
  }

  lemma {:induction false} PlainTests(suite: string, tests: seq<TestInfo>)
    requires '\n' !in suite
    requires forall i :: 0 <= i < |tests| ==> '\n' !in tests[i].name && Plain(tests[i].time)
    ensures AllPlain(TestsLines(suite, tests))
  {
    hide Plain, Line, Count, AllPlain;
    if tests == [] {
      NonePlain();
    } else {
      var k := |tests| - 1;
      var t := tests[k];
      PlainTests(suite, tests[..k]);
      PlainResult(t.result);
      PlainFour(TestPrefix(suite, t.name), ResultName(t.result), t.passed, t.total, t.time);
      AppendPlain(TestsLines(suite, tests[..k]), TestLines(suite, t));
    }
  }

  lemma NonePlain()
    ensures AllPlain([])
  {
  }

  lemma PlainResult(r: TestResult)
    ensures Plain(ResultName(r))
  {
  }

  lemma {:induction false} PlainSuites(suites: seq<SuiteInfo>)
    requires OneLineNames(suites)
    ensures AllPlain(SuitesLines(suites))
  {
    hide Plain, Line, Count, AllPlain, TestsLines, Numeral;
    if suites == [] {
      NonePlain();
    } else {
      var k := |suites| - 1;
      var su := suites[k];
      assert OneLine(su);
      PlainSuites(suites[..k]);
      PlainNumeral(if su.result then 1 else 0);
      PlainFour(SuitePrefix(su.name), Numeral(if su.result then 1 else 0), su.passed, su.total, su.time);
      PlainTests(su.name, su.tests);
      AppendPlain(SuiteHead(su), TestsLines(su.name, su.tests));
      AppendPlain(SuitesLines(suites[..k]), SuiteLines(su));
    }
  }

  lemma PlainCounted(prefix: string, key: string, n: nat)
    requires '\n' !in prefix && '\n' !in key
    ensures Plain(Line(prefix, key, Count(n)))
  {
    hide Line, Plain, Numeral, Signed;
    PlainNumeral(Signed(n));
    PlainLine(prefix, key, Count(n));
  }

  lemma {:induction false} PlainMessages(messages: seq<nat>, k: nat)
    requires k <= |messages|
    ensures AllPlain(MessageLines(messages, k))
  {
    hide Plain, Line, Count;
    if k > LOG_CRIT {
      PlainMessages(messages, k - 1);
      PlainCounted("message", PriorityName(k - 1), messages[k - 1]);
    }
  }

  lemma PlainSummary(s: Stats)
    ensures AllPlain(SummaryLines(s))
  {
    hide Plain, Line, Count;
    PlainCounted("summary", "passed", s.passed);
    PlainCounted("summary", "failed", s.failed);
    PlainCounted("summary", "segfault", s.segfaults);
  }

  /** A report file is read back as the statistics it was written from exactly if no
      suite or test is named with a dot or an equals sign. */
  lemma FileReadBack(s: Stats)
    requires |s.messages| == LOG_DEBUG + 1 && UniqueNames(s.suites) && OneLineNames(s.suites)
    ensures ParseFile(Text(Lines(s))) == Some(Expected(s)) <==> CleanNames(s.suites)
  {
    hide SummaryLines, SuitesLines, MessageLines, Expected, CleanNames, UniqueNames, OneLineNames, Text, FileLines,
      ParseLines, Plain;
    PlainSummary(s);
    PlainSuites(s.suites);
    PlainMessages(s.messages, LOG_DEBUG + 1);
    AppendPlain(SummaryLines(s), SuitesLines(s.suites));
    AppendPlain(SummaryLines(s) + SuitesLines(s.suites), MessageLines(s.messages, LOG_DEBUG + 1));
    LinesOfText(Lines(s));
    ReportReadBack(s);
  }

  // ---------- Writing ----------

  class Reporter {
    var prefix: string
    var file: string

    constructor ()
      ensures file == ""
    {
      prefix, file := "", "";
    }

    /** `_prg_report_set` */
    method Set(p: string)
      modifies this`prefix
      ensures prefix == p
    {
      prefix := p;
    }

    /** `_prg_report_print` */
    method Print(key: string, value: string)
      modifies this`file
      ensures file == old(file) + Text([Line(prefix, key, value)])
    {
      file := file + prefix + "." + key + "=" + value + "\n";
      TextOne(Line(prefix, key, value));
    }

    /** The four lines a suite and a test each have. */
    method PrintFour(first: string, passed: nat, total: nat, time: string)
      modifies this`file
      ensures file == old(file) + Text([Line(prefix, "result", first), Line(prefix, "asserts.passed", Count(passed)),
                                        Line(prefix, "asserts.total", Count(total)), Line(prefix, "time", time)])
    {
      hide *;
      var a, b := Line(prefix, "result", first), Line(prefix, "asserts.passed", Count(passed));
      var c, d := Line(prefix, "asserts.total", Count(total)), Line(prefix, "time", time);
      Print("result", first);
      Print("asserts.passed", Count(passed));
      Print("asserts.total", Count(total));
      Print("time", time);
      TextAppend([a], [b]);
      TextAppend([a] + [b], [c]);
      TextAppend([a] + [b] + [c], [d]);
      assert [a] + [b] + [c] + [d] == [a, b, c, d];
    }

    /** `_test_report_put_file` */
    method PutFile(s: Stats)
      requires |s.messages| == LOG_DEBUG + 1
      modifies this
      ensures file == old(file) + Text(Lines(s))
    {
      hide Text, Line, Count, Numeral, SuiteLines, TestLines, PriorityName;
      ghost var start := file;
      Set("summary");
      Print("passed", Count(s.passed));
      Print("failed", Count(s.failed));
      Print("segfault", Count(s.segfaults));
      ghost var done := SummaryLines(s);
      ThreePrinted(start, Line(prefix, "passed", Count(s.passed)), Line(prefix, "failed", Count(s.failed)),
                   Line(prefix, "segfault", Count(s.segfaults)));
      assert done + SuitesLines(s.suites[..0]) == done;
      for i := 0 to |s.suites|
        invariant file == start + Text(done + SuitesLines(s.suites[..i]))
      {
        ghost var before := file;
        PutSuite(s.suites[i]);
        assert s.suites[..i + 1][..i] == s.suites[..i];
        Printed(start, done + SuitesLines(s.suites[..i]), SuiteLines(s.suites[i]));
        Assoc(done, SuitesLines(s.suites[..i]), SuiteLines(s.suites[i]));
      }
      assert s.suites[..|s.suites|] == s.suites;
      done := done + SuitesLines(s.suites);
      Set("message");
      assert done + MessageLines(s.messages, LOG_CRIT) == done;
      for i := LOG_CRIT to LOG_DEBUG + 1
        invariant file == start + Text(done + MessageLines(s.messages, i)) && prefix == "message"
      {
        Print(PriorityName(i), Count(s.messages[i]));
        Printed(start, done + MessageLines(s.messages, i), [Line(prefix, PriorityName(i), Count(s.messages[i]))]);
        Assoc(done, MessageLines(s.messages, i), [Line(prefix, PriorityName(i), Count(s.messages[i]))]);
      }
    }

    method PutSuite(su: SuiteInfo)
      modifies this
      ensures file == old(file) + Text(SuiteLines(su))
    {
      hide Text, Line, Count, Numeral, TestLines, SuitePrefix, TestPrefix;
      ghost var start, head := file, SuiteHead(su);
      Set(SuitePrefix(su.name));
      PrintFour(Numeral(if su.result then 1 else 0), su.passed, su.total, su.time);
      assert head + TestsLines(su.name, su.tests[..0]) == head;
      for j := 0 to |su.tests|
        invariant file == start + Text(head + TestsLines(su.name, su.tests[..j]))
      {
        PutTestLines(su.name, su.tests[j]);
        assert su.tests[..j + 1][..j] == su.tests[..j];
        Printed(start, head + TestsLines(su.name, su.tests[..j]), TestLines(su.name, su.tests[j]));
        Assoc(head, TestsLines(su.name, su.tests[..j]), TestLines(su.name, su.tests[j]));
      }
      assert su.tests[..|su.tests|] == su.tests;
    }

    method PutTestLines(suite: string, t: TestInfo)
      modifies this
      ensures file == old(file) + Text(TestLines(suite, t))
    {
      hide Text, Line, Count, TestPrefix, ResultName;
      Set(TestPrefix(suite, t.name));
      PrintFour(ResultName(t.result), t.passed, t.total, t.time);
    }
  }

  lemma Printed(start: string, done: seq<string>, more: seq<string>)
    ensures start + Text(done) + Text(more) == start + Text(done + more)
  {
    hide Text;
    TextAppend(done, more);
    Assoc(start, Text(done), Text(more));
  }

  lemma ThreePrinted(start: string, a: string, b: string, c: string)
    ensures start + Text([a]) + Text([b]) + Text([c]) == start + Text([a, b, c])
  {
    hide Text;
    Printed(start, [a], [b]);
    Printed(start, [a] + [b], [c]);
    assert [a] + [b] + [c] == [a, b, c];
  }

  // ---------- The command line of a report program ----------

  /** Every `%s`, from the left, replaced. */
  function Replaced(template: string, argument: string): string {
    if |template| < 2 then template
    else if template[0] == '%' && template[1] == 's' then argument + Replaced(template[2..], argument)
    else [template[0]] + Replaced(template[1..], argument)
  }

  predicate MarkedAt(s: string, k: nat) {
    k + 1 < |s| && s[k] == '%' && s[k + 1] == 's'
  }

  /** Strings with `mark` between them. */
  function Joined(parts: seq<string>, mark: string): string {
    if parts == [] then ""
    else if |parts| == 1 then parts[0]
    else parts[0] + mark + Joined(parts[1..], mark)
  }

  predicate Unmarked(s: string) {
    forall k :: 0 <= k < |s| ==> !MarkedAt(s, k)
  }

  lemma OneMarker(first: string, rest: string, argument: string)
    requires Unmarked(first)
    ensures Replaced(first + "%s" + rest, argument) == first + argument + Replaced(rest, argument)
  {
    hide Replaced, MarkedAt;
    var n, text := |first|, first + "%s" + rest;
    assert text[..n] == first && text[n..][0] == '%' && text[n..][1] == 's' && text[n + 2..] == rest;
    BeforeMarker(first, text);
    assert text[0..] == text && text[0..n] == first;
    FirstMarker(text, argument, 0, n, "");
    assert "" + Replaced(text, argument) == Replaced(text, argument);
    assert "" + first == first;
  }

  lemma BeforeMarker(first: string, text: string)
    requires Unmarked(first) && |text| >= |first| + 2 && text[..|first|] == first
    requires text[|first|..][0] == '%' && text[|first|..][1] == 's'
    ensures MarkedAt(text, |first|) && forall k :: 0 <= k < |first| ==> !MarkedAt(text, k)
  {
    forall k | 0 <= k < |first|
      ensures !MarkedAt(text, k)
    {
      assert !MarkedAt(first, k);
      assert text[k] == text[..|first|][k];
      assert k + 1 < |first| ==> text[k + 1] == text[..|first|][k + 1];
    }
  }

  /** What is between the markers stays, and every marker becomes the argument. */
  lemma {:induction false} MarkersReplaced(parts: seq<string>, argument: string)
    requires forall p :: p in parts ==> Unmarked(p)
    ensures Replaced(Joined(parts, "%s"), argument) == Joined(parts, argument)
  {
    hide Replaced, Unmarked;
    if parts == [] {
      NothingReplaced("", argument);
    } else if |parts| == 1 {
      NothingReplaced(parts[0], argument);
    } else {
      OneMarker(parts[0], Joined(parts[1..], "%s"), argument);
      MarkersReplaced(parts[1..], argument);
    }
  }

  lemma NothingReplaced(s: string, argument: string)
    requires Unmarked(s)
    ensures Replaced(s, argument) == s
  {
    NoMarker(s, argument, 0);
    assert s[0..] == s;
  }

  /** Every template can be taken apart like that. */
  lemma {:induction false} TakenApart(template: string) returns (parts: seq<string>)
    ensures parts != [] && Joined(parts, "%s") == template && forall p :: p in parts ==> Unmarked(p)
    decreases |template|
  {
    if k :| 0 <= k < |template| && MarkedAt(template, k) && forall j :: 0 <= j < k ==> !MarkedAt(template, j) {
      var first := template[..k];
      var rest := TakenApart(template[k + 2..]);
      assert forall j :: 0 <= j < k && MarkedAt(first, j) ==> MarkedAt(template, j);
      parts := [first] + rest;
      assert parts[1..] == rest && template[k..k + 2] == "%s";
      assert template == first + "%s" + template[k + 2..];
    } else {
      LeastMarker(template, |template|);
      parts := [template];
    }
  }

  lemma {:induction false} LeastMarker(s: string, n: nat)
    requires n <= |s|
    requires !exists k :: 0 <= k < |s| && MarkedAt(s, k) && forall j :: 0 <= j < k ==> !MarkedAt(s, j)
    ensures forall k :: 0 <= k < n ==> !MarkedAt(s, k)
  {
    if n > 0 {
      LeastMarker(s, n - 1);
    }
  }

  /** `strstr` for the marker. */
  method FindMarker(s: string, start: nat) returns (at: Option<nat>)
    requires start <= |s|
    ensures at.Some? ==> start <= at.value && at.value + 2 <= |s| && MarkedAt(s, at.value)
    ensures at.Some? ==> forall k :: start <= k < at.value ==> !MarkedAt(s, k)
    ensures at.None? ==> forall k :: start <= k < |s| ==> !MarkedAt(s, k)
  {
    var i := start;
    while i < |s|
      invariant start <= i <= |s| && forall k :: start <= k < i ==> !MarkedAt(s, k)
    {
      if i + 1 < |s| && s[i] == '%' && s[i + 1] == 's' {
        return Some(i);
      }
      i := i + 1;
    }
    return None;
  }

  lemma {:induction false} CopiedUpTo(s: string, argument: string, i: nat, j: nat)
    requires i <= j <= |s| && forall k :: i <= k < j ==> !MarkedAt(s, k)
    requires j == |s| || MarkedAt(s, j)
    ensures Replaced(s[i..], argument) == s[i..j] + Replaced(s[j..], argument)
    decreases j - i
  {
    if i < j {
      CopiedUpTo(s, argument, i + 1, j);
      assert s[i..][1..] == s[i + 1..] && s[i..j] == [s[i]] + s[i + 1..j];
      assert !MarkedAt(s, i);
    }
  }

  /** Up to the first marker, which is at `j`. */
  lemma FirstMarker(s: string, argument: string, i: nat, j: nat, done: string)
    requires i <= j && MarkedAt(s, j) && forall k :: i <= k < j ==> !MarkedAt(s, k)
    ensures done + Replaced(s[i..], argument) == done + s[i..j] + argument + Replaced(s[j + 2..], argument)
  {
    CopiedUpTo(s, argument, i, j);
    assert s[j..][2..] == s[j + 2..];
    assert s[j..][0] == '%' && s[j..][1] == 's';
    FourParts(done, s[i..j], argument, Replaced(s[j + 2..], argument));
  }

  lemma FourParts(a: string, b: string, c: string, d: string)
    ensures a + (b + (c + d)) == a + b + c + d
  {
  }

  lemma NoMarker(s: string, argument: string, i: nat)
    requires i <= |s| && forall k :: i <= k < |s| ==> !MarkedAt(s, k)
    ensures Replaced(s[i..], argument) == s[i..]
  {
    CopiedUpTo(s, argument, i, |s|);
    assert s[i..|s|] + [] == s[i..];
  }

  /** `_prg_report_replace` */
  method ReportReplace(template: string, argument: string) returns (command: string)
    ensures command == Replaced(template, argument)
  {
    hide Replaced, MarkedAt;
    command := "";
    var pos := 0;
    assert "" + Replaced(template, argument) == Replaced(template, argument);
    assert template[0..] == template;
    var at := FindMarker(template, pos);
    while at.Some?
      invariant pos <= |template|
      invariant command + Replaced(template[pos..], argument) == Replaced(template, argument)
      invariant at.Some? ==> pos <= at.value && at.value + 2 <= |template| && MarkedAt(template, at.value)
      invariant at.Some? ==> forall k :: pos <= k < at.value ==> !MarkedAt(template, k)
      invariant at.None? ==> forall k :: pos <= k < |template| ==> !MarkedAt(template, k)
      decreases |template| - pos
    {
      FirstMarker(template, argument, pos, at.value, command);
      command := command + template[pos..at.value] + argument;
      pos := at.value + 2;
      at := FindMarker(template, pos);
    }
    NoMarker(template, argument, pos);
    command := command + template[pos..];
  }
}
