/** `JiraExportPlugin`: the aggregator that, when enabled, exports one launch
    record holding all five statistic rows and then one test record per test
    result that links to an issue. */
module PluginExport {
  import opened Options
  import opened Statuses
  import opened StatusColors
  import opened JiraRecords
  import opened Entities
  import opened Statistics
  import opened ExportCommon

  // ------------------------------------------------------------ colour map

  /** `findColorForStatus`: FAILED red, PASSED green, SKIPPED gray, and the
      default branch, reached by BROKEN and UNKNOWN alike, yellow. */
  function FindColorForStatus(s: Status): StatusColor {
    match s
    case FAILED => RED
    case PASSED => GREEN
    case SKIPPED => GRAY
    case _ => YELLOW
  }

  /** The hex this copy attaches to a status is the status' own colour for
      every status but UNKNOWN, which gets BROKEN's yellow. */
  lemma ColorMatchesStatusExceptUnknown(s: Status)
    ensures Hex(FindColorForStatus(s)) == Color(s) <==> s != UNKNOWN
    ensures Hex(FindColorForStatus(UNKNOWN)) == Color(BROKEN)
  {
  }

  // ------------------------------------------------------- statistic rows

  /** `convertStatistics`: one row per status, in declaration order, zero
      counts included. */
  function ConvertStatistics(st: Statistic): (rows: seq<LaunchStatisticExport>)
    ensures |rows| == |Values|
    ensures forall i :: 0 <= i < |rows| ==>
      && FromValue(rows[i].status) == Some(Values[i])
      && rows[i].count == Get(st, Values[i])
      && rows[i].color == Hex(FindColorForStatus(Values[i]))
  {
    seq(|Values|, i requires 0 <= i < |Values| =>
      LaunchStatisticExport(Value(Values[i]), Hex(FindColorForStatus(Values[i])), Get(st, Values[i])))
  }

  /** The rows' counts are non-negative and add up to the counter's total. */
  lemma ConvertStatisticsTotal(st: Statistic)
    ensures forall i :: 0 <= i < |ConvertStatistics(st)| ==> ConvertStatistics(st)[i].count >= 0
    ensures CountSum(ConvertStatistics(st)) == Total(st)
  {
    var rows := ConvertStatistics(st);
    assert CountSum(rows[4..]) == rows[4].count + CountSum(rows[5..]);
    assert CountSum(rows[3..]) == rows[3].count + CountSum(rows[4..]);
    assert CountSum(rows[2..]) == rows[2].count + CountSum(rows[3..]);
    assert CountSum(rows[1..]) == rows[1].count + CountSum(rows[2..]);
    assert CountSum(rows) == rows[0].count + CountSum(rows[1..]);
  }

  // --------------------------------------------------------------- records

  /** `getJiraLaunch` (Plugin): external id is the configured issue string
      as given; name and URL come from the executor; `now` stands for the
      clock reading. */
  function GetJiraLaunch(issue: string, executor: ExecutorInfo,
                         statistic: seq<LaunchStatisticExport>, now: int): JiraLaunch {
    JiraLaunch(Some(issue), statistic, executor.buildName, executor.reportUrl, now)
  }

  /** `getJiraTestResult` (Plugin): nothing for a result without issue
      links; otherwise a record holding the issue keys, the result's name,
      deep link, status name and stop time, and the launch's external id. */
  function GetJiraTestResult(launch: JiraLaunch, executor: ExecutorInfo, tr: TestResult)
    : (r: Option<JiraTestResult>)
    ensures r.None? <==> forall i :: 0 <= i < |tr.links| ==> !IsIssueLink(tr.links[i])
    ensures r.Some? ==>
      && r.value.issueKeys == Some(IssueKeys(tr.links))
      && |r.value.issueKeys.value| > 0
      && r.value.externalId == launch.externalId
      && r.value.status == Some(Name(tr.status))
      && r.value.date == Some(tr.stop)
      && r.value.name == Some(tr.name)
      && r.value.url == TestResultUrl(executor.reportUrl, tr.uid)
      && r.value.color.None? && r.value.testCaseId.None? && r.value.historyKey.None?
      && r.value.launchUrl.None? && r.value.launchName.None? && r.value.launchExternalId.None?
  {
    var issues := IssueKeys(tr.links);
    if |issues| == 0 then None
    else
      Some(BlankTestResult.(
        issueKeys := Some(issues),
        name := Some(tr.name),
        url := TestResultUrl(executor.reportUrl, tr.uid),
        status := Some(Name(tr.status)),
        date := Some(tr.stop),
        externalId := launch.externalId))
  }

  /** The stream in `aggregate`: build a record for each result, keep the
      present ones, in order. */
  function TestRecords(launch: JiraLaunch, executor: ExecutorInfo, rs: seq<TestResult>)
    : (records: seq<JiraTestResult>)
    ensures |records| <= |rs|
    ensures forall k :: 0 <= k < |records| ==>
      records[k].issueKeys.Some? && |records[k].issueKeys.value| > 0
      && records[k].externalId == launch.externalId
  {
    if |rs| == 0 then []
    else
      match GetJiraTestResult(launch, executor, rs[0])
      case None => TestRecords(launch, executor, rs[1..])
      case Some(record) => [record] + TestRecords(launch, executor, rs[1..])
  }

  /** Building records for a concatenation concatenates the records: the
      export order is the flattened result order. */
  lemma {:induction false} TestRecordsAppend(launch: JiraLaunch, executor: ExecutorInfo,
                                             a: seq<TestResult>, b: seq<TestResult>)
    ensures TestRecords(launch, executor, a + b)
         == TestRecords(launch, executor, a) + TestRecords(launch, executor, b)
  {
    if |a| == 0 {
      assert a + b == b;
    } else {
      assert (a + b)[0] == a[0];
      assert (a + b)[1..] == a[1..] + b;
      TestRecordsAppend(launch, executor, a[1..], b);
    }
  }

  /** A result contributes a record exactly when it has an issue link, and
      that record is the one `GetJiraTestResult` builds for it; with
      `TestRecordsAppend` this fixes the records of any result list. */
  lemma TestRecordsOfOne(launch: JiraLaunch, executor: ExecutorInfo, tr: TestResult)
    ensures |TestRecords(launch, executor, [tr])| == 1 <==> exists i :: 0 <= i < |tr.links| && IsIssueLink(tr.links[i])
    ensures |TestRecords(launch, executor, [tr])| <= 1
    ensures TestRecords(launch, executor, [tr])
         == if GetJiraTestResult(launch, executor, tr).Some? then [GetJiraTestResult(launch, executor, tr).value] else []
  {
  }

  // ------------------------------------------------------------ aggregate

  /** What a call to the Jira service does: return an entity, or throw. */
  datatype Reply<T> = Returned(value: T) | Threw

  /** The Jira service as an oracle: its answer to each export call. The
      launch is exported once, so its answer depends on the record alone; a
      test record's answer also depends on its position among the
      test-record calls, so the same record sent twice may be answered
      differently (accepted once, then refused as a duplicate). A `null`
      reply is dereferenced inside the `try` and rethrown, so it is `Threw`. */
  datatype JiraService = JiraService(
    createJiraLaunch: JiraLaunch -> Reply<JiraLaunch>,
    createTestResult: (nat, JiraTestResult) -> Reply<JiraTestResult>)

  /** One call made to the service during `aggregate`. */
  datatype ExportCall = LaunchExport(launch: JiraLaunch) | TestResultExport(record: JiraTestResult)

  /** The trace of `aggregate`: whether the service supplier was asked, the
      export calls in the order made, and whether a throw escaped. */
  datatype AggregateRun = AggregateRun(serviceRequested: bool, calls: seq<ExportCall>, rethrown: bool)

  /** Test-result exports made, and whether the last one threw. */
  datatype TestExports = TestExports(exported: seq<JiraTestResult>, threw: bool)

  /** `exportTestResultToJira` applied to each record in turn, the first
      of them being test-record call number `first`: a throw is rethrown, so
      the records after it are never sent. */
  function ExportTestResults(service: JiraService, records: seq<JiraTestResult>, first: nat)
    : (r: TestExports)
    ensures |r.exported| <= |records| && r.exported == records[..|r.exported|]
    ensures forall k :: 0 <= k < |r.exported| - 1 ==> service.createTestResult(first + k, records[k]).Returned?
    ensures r.threw <==>
      |r.exported| > 0 && service.createTestResult(first + |r.exported| - 1, records[|r.exported| - 1]).Threw?
    ensures !r.threw ==> |r.exported| == |records|
  {
    if |records| == 0 then TestExports([], false)
    else match service.createTestResult(first, records[0])
      case Threw => TestExports([records[0]], true)
      case Returned(_) =>
        var rest := ExportTestResults(service, records[1..], first + 1);
        TestExports([records[0]] + rest.exported, rest.threw)
  }

  /** The test-result export calls for `records`, one each, in order. */
  function TestResultCalls(records: seq<JiraTestResult>): (calls: seq<ExportCall>)
    ensures |calls| == |records|
    ensures forall k :: 0 <= k < |calls| ==> calls[k] == TestResultExport(records[k])
  {
    if |records| == 0 then [] else [TestResultExport(records[0])] + TestResultCalls(records[1..])
  }

  /** The launch record `aggregate` builds from the launches. */
  function PlannedLaunch(issue: string, launches: seq<LaunchResults>, now: int): JiraLaunch {
    GetJiraLaunch(issue, ExecutorOf(launches), ConvertStatistics(StatisticOf(TestResults(launches))), now)
  }

  /** After the launch export, the calls are test-record exports of a
      prefix of `planned`, in order: every one before the last returned;
      the run rethrew exactly when the last one threw, and otherwise sent
      every planned record. */
  predicate FollowsPlan(service: JiraService, calls: seq<ExportCall>, rethrown: bool,
                        planned: seq<JiraTestResult>) {
    && 1 <= |calls| <= |planned| + 1
    && calls[1..] == TestResultCalls(planned[..|calls| - 1])
    && (forall k :: 0 <= k < |calls| - 2 ==> service.createTestResult(k, planned[k]).Returned?)
    && (rethrown <==> |calls| > 1 && service.createTestResult(|calls| - 2, planned[|calls| - 2]).Threw?)
    && (!rethrown ==> |calls| == |planned| + 1)
  }

  /** Sending `planned` one by one, after the launch, follows the plan. */
  lemma SentFollowsPlan(service: JiraService, launch: JiraLaunch, planned: seq<JiraTestResult>)
    ensures var sent := ExportTestResults(service, planned, 0);
      FollowsPlan(service, [LaunchExport(launch)] + TestResultCalls(sent.exported), sent.threw, planned)
  {
  }

  /** The export calls once the launch record is built: the launch, then,
      if it returned, the test records built against what it returned. */
  function ExportRun(service: JiraService, launch: JiraLaunch, executor: ExecutorInfo,
                     rs: seq<TestResult>): (r: AggregateRun)
    ensures r.serviceRequested && |r.calls| >= 1 && r.calls[0] == LaunchExport(launch)
    ensures service.createJiraLaunch(launch).Threw? ==> |r.calls| == 1 && r.rethrown
    ensures service.createJiraLaunch(launch).Returned? ==>
      FollowsPlan(service, r.calls, r.rethrown,
                  TestRecords(service.createJiraLaunch(launch).value, executor, rs))
  {
    match service.createJiraLaunch(launch)
    case Threw => AggregateRun(true, [LaunchExport(launch)], true)
    case Returned(created) =>
      var planned := TestRecords(created, executor, rs);
      var sent := ExportTestResults(service, planned, 0);
      SentFollowsPlan(service, launch, planned);
      AggregateRun(true, [LaunchExport(launch)] + TestResultCalls(sent.exported), sent.threw)
  }

  /** `aggregate`: when disabled, nothing at all; otherwise the launch is
      exported first and exactly once, then the issue-linked results in
      flattened order, each built against the launch the service returned;
      the first throw ends the run. */
  function Aggregate(enabled: bool, issue: string, launches: seq<LaunchResults>, now: int,
                     service: JiraService): (r: AggregateRun)
    ensures !enabled ==> !r.serviceRequested && r.calls == [] && !r.rethrown
    ensures enabled ==> r.serviceRequested && |r.calls| >= 1
    ensures enabled ==> r.calls[0] == LaunchExport(PlannedLaunch(issue, launches, now))
    ensures enabled ==>
      match service.createJiraLaunch(PlannedLaunch(issue, launches, now))
      case Threw => |r.calls| == 1 && r.rethrown
      case Returned(created) =>
        FollowsPlan(service, r.calls, r.rethrown,
                    TestRecords(created, ExecutorOf(launches), TestResults(launches)))
  {
    if !enabled then AggregateRun(false, [], false)
    else ExportRun(service, PlannedLaunch(issue, launches, now), ExecutorOf(launches), TestResults(launches))
  }

  /** Every test record `aggregate` sends carries at least one issue key,
      and the launch statistic it sends counts every flattened result. */
  lemma AggregateSendsOnlyIssueLinked(enabled: bool, issue: string, launches: seq<LaunchResults>,
                                      now: int, service: JiraService)
    ensures var r := Aggregate(enabled, issue, launches, now, service);
      forall k :: 1 <= k < |r.calls| ==>
        r.calls[k].record.issueKeys.Some? && |r.calls[k].record.issueKeys.value| > 0
    ensures CountSum(PlannedLaunch(issue, launches, now).statistic) == |TestResults(launches)|
  {
    ConvertStatisticsTotal(StatisticOf(TestResults(launches)));
    StatisticTotal(TestResults(launches));
  }
}
