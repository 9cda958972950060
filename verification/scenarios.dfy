/** Worked examples on small inputs, each proved as a lemma: issue
    extraction, deep links, executor lookup and one end-to-end export. */
module Scenarios {
  import opened Options
  import opened Statuses
  import opened JiraRecords
  import opened Entities
  import opened Statistics
  import opened ExportCommon
  import PluginExport
  import UtilityExport

  /** Two references to the same issue yield two keys, in link order; a
      type differing in case, or absent, is not an issue link. */
  lemma IssueKeysExample()
    ensures IssueKeys([Link("A", Some("issue")), Link("x", Some("other")), Link("A", Some("issue"))]) == ["A", "A"]
    ensures IssueKeys([Link("B", Some("Issue")), Link("C", None)]) == []
  {
  }

  /** A base ending in "index.html", including one that merely ends in it
      such as "myindex.html", gets the fragment directly. */
  lemma IndexPageUrlExample()
    ensures TestResultUrl(Some("http://host/index.html"), "abc") == Some("http://host/index.html#testresult/abc")
    ensures TestResultUrl(Some("myindex.html"), "u") == Some("myindex.html#testresult/u")
  {
    var base := "http://host/index.html";
    assert base[|base| - |IndexPage|..] == IndexPage;
    assert base + TestResultFragment + "abc" == "http://host/index.html#testresult/abc";
    var short := "myindex.html";
    assert short[|short| - |IndexPage|..] == IndexPage;
    assert short + TestResultFragment + "u" == "myindex.html#testresult/u";
  }

  /** Any other base gets "/" and then the fragment, even one that already
      ends in "/": the base is not normalised. */
  lemma PlainBaseUrlExample()
    ensures TestResultUrl(Some("http://host"), "abc") == Some("http://host/#testresult/abc")
    ensures TestResultUrl(Some("h/"), "u") == Some("h//#testresult/u")
    ensures TestResultUrl(None, "abc") == None
  {
    assert !EndsWith("http://host", IndexPage);
    assert "http://host" + "/" + TestResultFragment + "abc" == "http://host/#testresult/abc";
    assert !EndsWith("h/", IndexPage);
    assert "h/" + "/" + TestResultFragment + "u" == "h//#testresult/u";
  }

  /** An executor block of another class is passed over in favour of a
      later launch's `ExecutorInfo`. */
  lemma ExecutorExample(info: ExecutorInfo)
    ensures ExecutorOf([LaunchResults([], map[ExecutorBlockName := OtherExtra("java.lang.String")]),
                        LaunchResults([], map[ExecutorBlockName := ExecutorExtra(info)])]) == info
    ensures ExecutorOf([LaunchResults([], map[])]) == DefaultExecutor
  {
  }

  const Passed: TestResult := TestResult("p", "hp", "passing", PASSED, 10, [])
  const Failed: TestResult := TestResult("f", "hf", "failing", FAILED, 20,
                                         [Link("X", Some("issue")), Link("Y", Some("issue"))])
  const TwoLaunches: seq<LaunchResults> := [LaunchResults([Passed], map[]), LaunchResults([Failed], map[])]

  /** A service whose every call succeeds, echoing what it was sent. */
  const EchoService: PluginExport.JiraService :=
    PluginExport.JiraService(l => PluginExport.Returned(l), (k, t) => PluginExport.Returned(t))

  /** A service that accepts the first test record and refuses every later
      one, as Jira may refuse a duplicate. */
  const FirstOnlyService: PluginExport.JiraService :=
    PluginExport.JiraService(l => PluginExport.Returned(l),
                             (k, t) => if k == 0 then PluginExport.Returned(t) else PluginExport.Threw)

  /** A result listed under two launches is flattened twice and yields the
      same record twice; the first send can succeed and the second throw. */
  lemma DuplicateRecordRefused(launch: JiraLaunch, executor: ExecutorInfo)
    ensures var records := PluginExport.TestRecords(launch, executor, TestResults(
        [LaunchResults([Failed], map[]), LaunchResults([Failed], map[])]));
      && |records| == 2 && records[0] == records[1]
      && PluginExport.ExportTestResults(FirstOnlyService, records, 0)
         == PluginExport.TestExports(records, true)
  {
    var twice := [LaunchResults([Failed], map[]), LaunchResults([Failed], map[])];
    TestResultsAppend([twice[0]], [twice[1]]);
    TestResultsAppend([twice[0]], []);
    TestResultsAppend([twice[1]], []);
    assert [twice[0]] + [twice[1]] == twice;
    assert TestResults(twice) == [Failed, Failed];
    PluginExport.TestRecordsAppend(launch, executor, [Failed], [Failed]);
    PluginExport.TestRecordsOfOne(launch, executor, Failed);
    assert Failed.links[0].linkType == Some("issue");
    var records := PluginExport.TestRecords(launch, executor, [Failed, Failed]);
    assert [Failed] + [Failed] == [Failed, Failed];
    assert records[1..] == [records[1]];
  }

  /** Two launches, one passed result without issue links and one failed
      result linking X and Y: both results are counted, once each. */
  lemma EndToEndCounts()
    ensures TestResults(TwoLaunches) == [Passed, Failed]
    ensures StatisticOf(TestResults(TwoLaunches)) == Statistic(1, 0, 1, 0, 0)
  {
    TestResultsAppend([TwoLaunches[0]], [TwoLaunches[1]]);
    TestResultsAppend([TwoLaunches[0]], []);
    TestResultsAppend([TwoLaunches[1]], []);
    assert [TwoLaunches[0]] + [TwoLaunches[1]] == TwoLaunches;
    assert [Passed, Failed][..1] == [Passed] && [Passed][..0] == [];
    assert StatisticOf([Passed]) == Statistic(0, 0, 1, 0, 0);
  }

  /** For that scenario the Plugin sends all five rows, zeros included. */
  lemma EndToEndPluginRows()
    ensures PluginExport.ConvertStatistics(Statistic(1, 0, 1, 0, 0)) ==
      [LaunchStatisticExport("failed", "f90602", 1), LaunchStatisticExport("broken", "febe0d", 0),
       LaunchStatisticExport("passed", "78b63c", 1), LaunchStatisticExport("skipped", "888888", 0),
       LaunchStatisticExport("unknown", "febe0d", 0)]
  {
  }

  /** The Utility sends only the two non-zero rows. */
  lemma EndToEndUtilityRows()
    ensures UtilityExport.ConvertStatistics(Statistic(1, 0, 1, 0, 0)) ==
      [LaunchStatisticExport("failed", "f90602", 1), LaunchStatisticExport("passed", "78b63c", 1)]
  {
  }

  /** Only the failed result is exported, once, with both keys, after the
      launch. */
  lemma EndToEndExports()
    ensures var run := PluginExport.Aggregate(true, "ALLURE-1", TwoLaunches, 0, EchoService);
      && |run.calls| == 2 && !run.rethrown
      && run.calls[1].record.issueKeys == Some(["X", "Y"])
      && run.calls[1].record.status == Some("FAILED")
  {
    EndToEndCounts();
    IssueKeysAppend([Failed.links[0]], [Failed.links[1]]);
    IssueKeysAppend([Failed.links[1]], []);
    assert [Failed.links[0]] + [Failed.links[1]] == Failed.links;
    assert IssueKeys(Failed.links) == ["X"] + ["Y"] == ["X", "Y"];
    var launch := PluginExport.PlannedLaunch("ALLURE-1", TwoLaunches, 0);
    var executor := ExecutorOf(TwoLaunches);
    PluginExport.TestRecordsAppend(launch, executor, [Passed], [Failed]);
    assert [Passed] + [Failed] == [Passed, Failed];
    assert [Passed][1..] == [] && [Failed][1..] == [];
    var records := PluginExport.TestRecords(launch, executor, [Passed, Failed]);
    assert records == [PluginExport.GetJiraTestResult(launch, executor, Failed).value];
  }
}
