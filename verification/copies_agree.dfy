/** How the two copies of the record-building code relate: where they
    agree, and exactly where they differ. */
module CopiesAgree {
  import opened Options
  import opened Statuses
  import opened StatusColors
  import opened JiraRecords
  import opened Entities
  import opened Statistics
  import opened ExportCommon
  import PluginExport
  import UtilityExport

  /** The two colour lookups agree on every status except UNKNOWN. */
  lemma ColorCopiesAgree(s: Status)
    ensures Hex(PluginExport.FindColorForStatus(s)) == UtilityExport.FindColorForStatus(s) <==> s != UNKNOWN
  {
  }

  /** A row with UNKNOWN's colour replaced by the purple fallback. */
  function Recolour(row: LaunchStatisticExport): LaunchStatisticExport {
    if row.status == Value(UNKNOWN) then row.(color := UtilityExport.PurpleFallback) else row
  }

  /** The rows with a non-zero count, recoloured, in order. */
  function RecolourNonZero(rows: seq<LaunchStatisticExport>): (kept: seq<LaunchStatisticExport>)
    ensures |kept| <= |rows|
    ensures CountSum(kept) == CountSum(rows)
  {
    if |rows| == 0 then []
    else if rows[0].count == 0 then RecolourNonZero(rows[1..])
    else [Recolour(rows[0])] + RecolourNonZero(rows[1..])
  }

  /** Recolouring the Plugin's row for a status gives the Utility's row. */
  lemma RecolourRow(st: Statistic, s: Status)
    ensures Recolour(LaunchStatisticExport(Value(s), Hex(PluginExport.FindColorForStatus(s)), Get(st, s)))
         == UtilityExport.Row(st, s)
  {
  }

  /** Row lists built from `Values[i..]` agree, by induction on `i`
      from the end. */
  lemma {:induction false} SuffixRowsRelate(st: Statistic, i: nat)
    requires i <= |Values|
    ensures UtilityExport.NonZeroRows(st, Values[i..])
         == RecolourNonZero(PluginExport.ConvertStatistics(st)[i..])
    decreases |Values| - i
  {
    if i < |Values| {
      var p := PluginExport.ConvertStatistics(st);
      SuffixRowsRelate(st, i + 1);
      StepRelates(st, Values[i..], p[i..]);
    }
  }

  /** One step of the induction: equal heads and related tails. */
  lemma StepRelates(st: Statistic, us: seq<Status>, ps: seq<LaunchStatisticExport>)
    requires |us| > 0 && |ps| > 0
    requires ps[0] == LaunchStatisticExport(Value(us[0]), Hex(PluginExport.FindColorForStatus(us[0])), Get(st, us[0]))
    requires UtilityExport.NonZeroRows(st, us[1..]) == RecolourNonZero(ps[1..])
    ensures UtilityExport.NonZeroRows(st, us) == RecolourNonZero(ps)
  {
  }

  /** The Utility's rows are the Plugin's rows with the zero-count ones
      dropped and UNKNOWN's colour replaced by the fallback; in particular
      both lists count the same total. */
  lemma StatisticRowsRelate(st: Statistic)
    ensures UtilityExport.ConvertStatistics(st) == RecolourNonZero(PluginExport.ConvertStatistics(st))
    ensures CountSum(UtilityExport.ConvertStatistics(st)) == CountSum(PluginExport.ConvertStatistics(st)) == Total(st)
  {
    SuffixRowsRelate(st, 0);
    assert Values[0..] == Values;
    assert PluginExport.ConvertStatistics(st)[0..] == PluginExport.ConvertStatistics(st);
    PluginExport.ConvertStatisticsTotal(st);
  }

  /** Both copies build a test record for exactly the same results, and
      the records then agree on name, deep link, status and date. They
      differ in that only the Plugin stores issue keys, only the Utility
      sets colour, test-case id, history key and the launch fields, and the
      two take their external id from different places. */
  lemma TestRecordsRelate(launch: JiraLaunch, executor: ExecutorInfo, tr: TestResult)
    ensures PluginExport.GetJiraTestResult(launch, executor, tr).Some?
        <==> UtilityExport.GetJiraTestResult(executor, tr).Some?
    ensures PluginExport.GetJiraTestResult(launch, executor, tr).Some? ==>
      var p := PluginExport.GetJiraTestResult(launch, executor, tr).value;
      var u := UtilityExport.GetJiraTestResult(executor, tr).value;
      && p.name == u.name && p.url == u.url && p.status == u.status && p.date == u.date
      && p.issueKeys.Some? && u.issueKeys.None?
      && p.externalId == launch.externalId && u.externalId == Some(tr.uid)
      && p.color.None? && p.testCaseId.None? && p.historyKey.None?
      && p.launchUrl.None? && p.launchName.None? && p.launchExternalId.None?
      && u.color.Some? && u.testCaseId == Some(tr.uid) && u.historyKey == Some(tr.historyId)
      && u.launchUrl == executor.reportUrl && u.launchName == u.launchExternalId == executor.buildName
  {
  }

  /** The two launch records share name, URL, date and statistic; only the
      external id differs: the configured issue string in the Plugin, the
      build name in the Utility. */
  lemma LaunchRecordsRelate(issue: string, executor: ExecutorInfo,
                            statistic: seq<LaunchStatisticExport>, now: int)
    ensures var p := PluginExport.GetJiraLaunch(issue, executor, statistic, now);
      var u := UtilityExport.GetJiraLaunch(executor, statistic, now);
      && p.name == u.name == executor.buildName
      && p.url == u.url == executor.reportUrl
      && p.date == u.date == now
      && p.statistic == u.statistic == statistic
      && p.externalId == Some(issue)
      && u.externalId == u.name
  {
  }
}
