/** `JiraExportUtility`: the second copy of the record-building code. It
    drops zero-count statistic rows, gives UNKNOWN its own fallback colour,
    and fills the test record's identity and launch fields instead of its
    issue keys. */
module UtilityExport {
  import opened Options
  import opened Statuses
  import opened StatusColors
  import opened JiraRecords
  import opened Entities
  import opened Statistics
  import opened ExportCommon

  // ------------------------------------------------------------ colour map

  /** The colour behind `StatusColor.PURPLE`, a constant the `StatusColor`
      enum does not declare. The model takes UNKNOWN's own colour, a purple
      distinct from the four declared ones. Nothing proved below depends on
      the value beyond that distinctness. */
  const PurpleFallback: string := "bf34a6"

  /** `findColorForStatus` (Utility): FAILED red, PASSED green, SKIPPED
      gray, BROKEN yellow, and the default branch, reached only by UNKNOWN,
      the purple fallback. */
  function FindColorForStatus(s: Status): string {
    match s
    case FAILED => Hex(RED)
    case PASSED => Hex(GREEN)
    case SKIPPED => Hex(GRAY)
    case BROKEN => Hex(YELLOW)
    case _ => PurpleFallback
  }

  /** Every status other than UNKNOWN gets exactly `Status.color()`; the
      fallback differs from every declared colour, so each status gets a
      colour no other status gets. */
  lemma ColorMatchesStatus(s: Status, t: Status)
    ensures forall c: StatusColor :: Hex(c) != PurpleFallback
    ensures s != UNKNOWN ==> FindColorForStatus(s) == Color(s)
    ensures FindColorForStatus(s) == FindColorForStatus(t) <==> s == t
  {
  }

  // ------------------------------------------------------- statistic rows

  /** The row this copy builds for status `s`. */
  function Row(st: Statistic, s: Status): LaunchStatisticExport {
    LaunchStatisticExport(Value(s), FindColorForStatus(s), Get(st, s))
  }

  /** The rows for the statuses in `statuses` whose count is not zero, in
      the order of `statuses`: each row is the row of a listed status, and
      every listed status with a non-zero count has its row. */
  function NonZeroRows(st: Statistic, statuses: seq<Status>): (rows: seq<LaunchStatisticExport>)
    ensures |rows| <= |statuses|
    ensures forall k :: 0 <= k < |rows| ==> rows[k].count > 0
    ensures forall k :: 0 <= k < |rows| ==>
      exists i :: 0 <= i < |statuses| && rows[k] == Row(st, statuses[i])
    ensures forall i :: 0 <= i < |statuses| && Get(st, statuses[i]) != 0 ==> Row(st, statuses[i]) in rows
  {
    if |statuses| == 0 then []
    else
      var rest := NonZeroRows(st, statuses[1..]);
      assert forall i :: 1 <= i < |statuses| ==> statuses[i] == statuses[1..][i - 1];
      if Get(st, statuses[0]) != 0 then [Row(st, statuses[0])] + rest else rest
  }

  /** Different statuses give different rows: the row's status field is
      the status' `value()`, which is injective. */
  lemma RowInjective(st: Statistic, s: Status, t: Status)
    ensures Row(st, s) == Row(st, t) <==> s == t
  {
    ValueRoundTrip(s, t);
  }

  /** Of two rows, the earlier one is the row of a status declared earlier. */
  predicate RowsInOrder(st: Statistic, rows: seq<LaunchStatisticExport>) {
    forall j, k, s, t :: 0 <= j < k < |rows| && rows[j] == Row(st, s) && rows[k] == Row(st, t) ==>
      Ordinal(s) < Ordinal(t)
  }

  /** Statuses listed in declaration order give rows in declaration order. */
  lemma {:induction false} NonZeroRowsAscending(st: Statistic, statuses: seq<Status>)
    requires forall i, j :: 0 <= i < j < |statuses| ==> Ordinal(statuses[i]) < Ordinal(statuses[j])
    ensures RowsInOrder(st, NonZeroRows(st, statuses))
  {
    if |statuses| > 0 {
      var rest := NonZeroRows(st, statuses[1..]);
      assert forall i, j :: 0 <= i < j < |statuses[1..]| ==>
        Ordinal(statuses[1..][i]) < Ordinal(statuses[1..][j]) by {
        forall i, j | 0 <= i < j < |statuses[1..]|
          ensures Ordinal(statuses[1..][i]) < Ordinal(statuses[1..][j])
        {
          assert statuses[1..][i] == statuses[i + 1] && statuses[1..][j] == statuses[j + 1];
        }
      }
      NonZeroRowsAscending(st, statuses[1..]);
      if Get(st, statuses[0]) != 0 {
        TailRowsFollow(st, statuses, rest);
        ConsInOrder(st, statuses[0], rest);
        assert NonZeroRows(st, statuses) == [Row(st, statuses[0])] + rest;
      } else {
        assert NonZeroRows(st, statuses) == rest;
      }
    }
  }

  /** A row put in front of ordered rows of later statuses keeps them in
      order. */
  lemma ConsInOrder(st: Statistic, h: Status, rest: seq<LaunchStatisticExport>)
    requires RowsInOrder(st, rest)
    requires forall k, t :: 0 <= k < |rest| && rest[k] == Row(st, t) ==> Ordinal(h) < Ordinal(t)
    ensures RowsInOrder(st, [Row(st, h)] + rest)
  {
    var rows := [Row(st, h)] + rest;
    forall j, k, s, t | 0 <= j < k < |rows| && rows[j] == Row(st, s) && rows[k] == Row(st, t)
      ensures Ordinal(s) < Ordinal(t)
    {
      assert rows[k] == rest[k - 1];
      if j == 0 {
        RowInjective(st, s, h);
      } else {
        assert rows[j] == rest[j - 1];
      }
    }
  }

  /** Every row built from the tail of an ordered list is the row of a
      status after its head. */
  lemma TailRowsFollow(st: Statistic, statuses: seq<Status>, rest: seq<LaunchStatisticExport>)
    requires |statuses| > 0
    requires forall i, j :: 0 <= i < j < |statuses| ==> Ordinal(statuses[i]) < Ordinal(statuses[j])
    requires rest == NonZeroRows(st, statuses[1..])
    ensures forall k, t :: 0 <= k < |rest| && rest[k] == Row(st, t) ==> Ordinal(statuses[0]) < Ordinal(t)
  {
    forall k, t | 0 <= k < |rest| && rest[k] == Row(st, t)
      ensures Ordinal(statuses[0]) < Ordinal(t)
    {
      var i :| 0 <= i < |statuses[1..]| && rest[k] == Row(st, statuses[1..][i]);
      RowInjective(st, t, statuses[i + 1]);
    }
  }

  /** Rows of statuses, in order, read back through `FromValue` on their
      serialised statuses: every row decodes, and the decoded ordinals
      strictly increase. */
  lemma DecodedInOrder(st: Statistic, rows: seq<LaunchStatisticExport>)
    requires RowsInOrder(st, rows)
    requires forall k :: 0 <= k < |rows| ==> exists s: Status :: rows[k] == Row(st, s)
    ensures forall k :: 0 <= k < |rows| ==> FromValue(rows[k].status).Some?
    ensures forall j, k :: 0 <= j < k < |rows| ==>
      Ordinal(FromValue(rows[j].status).value) < Ordinal(FromValue(rows[k].status).value)
  {
    forall k | 0 <= k < |rows| ensures FromValue(rows[k].status).Some? && rows[k] == Row(st, FromValue(rows[k].status).value) {
      var s: Status :| rows[k] == Row(st, s);
      ValueRoundTrip(s, s);
    }
  }

  /** `convertStatistics` (Utility): a row for each status with a non-zero
      count, in declaration order; at most five rows, none with count 0. */
  function ConvertStatistics(st: Statistic): (rows: seq<LaunchStatisticExport>)
    ensures |rows| <= 5
    ensures forall k :: 0 <= k < |rows| ==> rows[k].count > 0
    ensures forall s: Status :: Get(st, s) != 0 <==> Row(st, s) in rows
    ensures forall k :: 0 <= k < |rows| ==> exists s: Status :: rows[k] == Row(st, s)
    ensures forall k :: 0 <= k < |rows| ==> FromValue(rows[k].status).Some?
    ensures forall j, k :: 0 <= j < k < |rows| ==>
      Ordinal(FromValue(rows[j].status).value) < Ordinal(FromValue(rows[k].status).value)
  {
    var rows := NonZeroRows(st, Values);
    RowsCoverNonZero(st, rows);
    RowsOfDeclaredStatuses(st, rows);
    rows
  }

  /** The rows of `Values` hold exactly the statuses with a non-zero count. */
  lemma RowsCoverNonZero(st: Statistic, rows: seq<LaunchStatisticExport>)
    requires rows == NonZeroRows(st, Values)
    ensures forall s: Status :: Get(st, s) != 0 <==> Row(st, s) in rows
  {
    forall s: Status ensures Get(st, s) != 0 <==> Row(st, s) in rows {
      if Row(st, s) in rows {
        var k :| 0 <= k < |rows| && rows[k] == Row(st, s);
        assert rows[k].count > 0;
      } else {
        ValuesFollowDeclarationOrder(s);
      }
    }
  }

  /** The rows of `Values` are rows of statuses, decode, and come in
      declaration order. */
  lemma RowsOfDeclaredStatuses(st: Statistic, rows: seq<LaunchStatisticExport>)
    requires rows == NonZeroRows(st, Values)
    ensures forall k :: 0 <= k < |rows| ==> exists s: Status :: rows[k] == Row(st, s)
    ensures forall k :: 0 <= k < |rows| ==> FromValue(rows[k].status).Some?
    ensures forall j, k :: 0 <= j < k < |rows| ==>
      Ordinal(FromValue(rows[j].status).value) < Ordinal(FromValue(rows[k].status).value)
  {
    forall k | 0 <= k < |rows| ensures exists s: Status :: rows[k] == Row(st, s) {
      var i :| 0 <= i < |Values| && rows[k] == Row(st, Values[i]);
    }
    forall i, j | 0 <= i < j < |Values| ensures Ordinal(Values[i]) < Ordinal(Values[j]) {
      ValuesFollowDeclarationOrder(Values[i]);
      ValuesFollowDeclarationOrder(Values[j]);
    }
    NonZeroRowsAscending(st, Values);
    DecodedInOrder(st, rows);
  }

  // --------------------------------------------------------------- records

  /** `getJiraLaunch` (Utility): external id and name are both the build
      name; `now` stands for the clock reading. */
  function GetJiraLaunch(executor: ExecutorInfo, statistic: seq<LaunchStatisticExport>, now: int)
    : JiraLaunch
  {
    JiraLaunch(executor.buildName, statistic, executor.buildName, executor.reportUrl, now)
  }

  /** `getJiraTestResult` (Utility): nothing for a result without issue
      links; otherwise a record identified by the result's uid, carrying its
      history id, status name and colour, stop time, and the executor's
      build name and report URL. The issue keys themselves are not stored. */
  function GetJiraTestResult(executor: ExecutorInfo, tr: TestResult): (r: Option<JiraTestResult>)
    ensures r.None? <==> forall i :: 0 <= i < |tr.links| ==> !IsIssueLink(tr.links[i])
    ensures r.Some? ==>
      && r.value.issueKeys.None?
      && r.value.externalId == r.value.testCaseId == Some(tr.uid)
      && r.value.historyKey == Some(tr.historyId)
      && r.value.status == Some(Name(tr.status))
      && r.value.name == Some(tr.name)
      && r.value.url == TestResultUrl(executor.reportUrl, tr.uid)
      && r.value.color == Some(FindColorForStatus(tr.status))
      && (tr.status != UNKNOWN ==> r.value.color == Some(Color(tr.status)))
      && r.value.date == Some(tr.stop)
      && r.value.launchUrl == executor.reportUrl
      && r.value.launchName == r.value.launchExternalId == executor.buildName
  {
    var issues := IssueKeys(tr.links);
    if |issues| == 0 then None
    else
      Some(BlankTestResult.(
        externalId := Some(tr.uid),
        testCaseId := Some(tr.uid),
        historyKey := Some(tr.historyId),
        name := Some(tr.name),
        url := TestResultUrl(executor.reportUrl, tr.uid),
        status := Some(Name(tr.status)),
        color := Some(FindColorForStatus(tr.status)),
        date := Some(tr.stop),
        launchUrl := executor.reportUrl,
        launchName := executor.buildName,
        launchExternalId := executor.buildName))
  }

  /** A test record and the launch row for its status carry the same
      colour: both come from the one colour lookup. */
  lemma ColorConsistentAcrossRecords(executor: ExecutorInfo, tr: TestResult, st: Statistic)
    requires GetJiraTestResult(executor, tr).Some?
    requires Get(st, tr.status) != 0
    ensures exists k :: (0 <= k < |ConvertStatistics(st)|
      && ConvertStatistics(st)[k].status == Value(tr.status)
      && Some(ConvertStatistics(st)[k].color) == GetJiraTestResult(executor, tr).value.color)
  {
    var rows := ConvertStatistics(st);
    assert Row(st, tr.status) in rows;
    ColorMatchesStatus(tr.status, tr.status);
  }
}
