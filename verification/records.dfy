/** The records the plugin sends to Jira: `LaunchStatisticExport` and the
    `JiraLaunch` / `JiraTestResult` entities, with exactly the fields the
    export code reads or sets. An unset field (Java `null`) is `None`. */
module JiraRecords {
  import opened Options

  /** One statistic row, `(status, color, count)`, immutable. `count` is a
      Java `long`. Lombok's generated equality is structural over the three
      fields, which is what datatype equality already is, so the encoding
      needs no lemma for it. */
  datatype LaunchStatisticExport = LaunchStatisticExport(status: string, color: string, count: int)

  /** The launch entity: its statistic rows and where the report lives. */
  datatype JiraLaunch = JiraLaunch(
    externalId: Option<string>,
    statistic: seq<LaunchStatisticExport>,
    name: Option<string>,
    url: Option<string>,
    date: int)

  /** The test-result entity. The two builders set different subsets of
      these fields; the others stay unset. */
  datatype JiraTestResult = JiraTestResult(
    issueKeys: Option<seq<string>>,
    externalId: Option<string>,
    testCaseId: Option<string>,
    historyKey: Option<string>,
    name: Option<string>,
    url: Option<string>,
    status: Option<string>,
    color: Option<string>,
    date: Option<int>,
    launchUrl: Option<string>,
    launchName: Option<string>,
    launchExternalId: Option<string>)

  /** A freshly constructed `JiraTestResult`, before any setter runs. */
  const BlankTestResult: JiraTestResult :=
    JiraTestResult(None, None, None, None, None, None, None, None, None, None, None, None)

  /** Sum of the counts of a list of rows. */
  function CountSum(rows: seq<LaunchStatisticExport>): int {
    if |rows| == 0 then 0 else rows[0].count + CountSum(rows[1..])
  }
}
