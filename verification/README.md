# Allure Jira export: record building, modelled in Dafny

This project models the pure record-building layer of Allure's Jira export
plugin. Given the results of one or more launches, the plugin picks the
executor block, flattens all test results, counts them per `Status`, turns
the counts into `LaunchStatisticExport` rows (status value, colour, count),
builds one launch record, and builds one test record for every test result
that has at least one link of type exactly `"issue"`, with a deep link into
the report.

That logic exists in two diverging copies, and both are modelled:

- `JiraExportPlugin` (module `PluginExport`) emits all five statistic rows,
  colours BROKEN and UNKNOWN both yellow, and puts issue keys on the test
  record. Its `aggregate` is modelled as a trace of export calls against an
  abstract Jira service.
- `JiraExportUtility` (module `UtilityExport`) drops zero-count rows, colours
  UNKNOWN with a purple fallback, and fills the test case id, history key and
  launch fields of the test record.

The helpers whose bodies are identical in both classes are `getTestResults`,
`getExecutor`, `getStatistic`, `isIssueLink` and `getJiraTestResultUrl`. Each
is defined once, in module `ExportCommon`, and used by both copies. The table
below cites the Plugin's lines for them. The Utility's copies are at
`JiraExportUtility.java` lines 61-66, 68-77, 79-86, 119-121 and 112-117.

Modules, one per source file or concept:

| file | module | models |
|---|---|---|
| `options.dfy` | `Options` | `Optional` and nullable fields |
| `status.dfy` | `Statuses` | `Status`: `values()`, `value()`, `color()`, `toString()` |
| `status_color.dfy` | `StatusColors` | `StatusColor` and its hex `value()` |
| `records.dfy` | `JiraRecords` | `LaunchStatisticExport`, `JiraLaunch`, `JiraTestResult` |
| `entities.dfy` | `Entities` | `TestResult`, `Link`, `ExecutorInfo`, `LaunchResults` |
| `statistic.dfy` | `Statistics` | `Statistic` as a per-status counter |
| `export_common.dfy` | `ExportCommon` | the helpers both classes share |
| `plugin_export.dfy` | `PluginExport` | `JiraExportPlugin` |
| `utility_export.dfy` | `UtilityExport` | `JiraExportUtility` |
| `copies_agree.dfy` | `CopiesAgree` | how the two copies relate |
| `scenarios.dfy` | `Scenarios` | concrete inputs and their exports |

Modelling choices:

- A Java `null` field or argument is `None`. A freshly built `JiraTestResult`
  is `BlankTestResult`, with every field unset. The builders apply record
  updates to it, mirroring the chain of setters.
- `value` and `color` of `Status`, and `value` of `StatusColor`, are final
  fields set once by the constructor. They are therefore functions of the
  constant.
- `LaunchStatisticExport` is an immutable datatype. Its equality is
  structural, as Lombok's `@Data` makes it.
- The Jira service is an oracle: a `JiraService` value holds one total
  function per call, answering `Returned(entity)` or `Threw`. The launch
  answer depends on the launch record; a test-record answer depends on the
  record and on its position among the test-record calls, so the same
  record sent twice can be accepted once and refused the second time. The
  returned entity is dereferenced inside the `try` (its statistic or
  external id is logged), so a `null` reply is rethrown like a throw and is
  `Threw` here. Whether the service supplier was called is recorded in the
  trace.
- The launch date, read from the clock in the source, is the parameter `now`.
- `StatusColor.PURPLE`, used by the Utility's `findColorForStatus`, is not
  declared by the `StatusColor` enum. The model uses `PurpleFallback`,
  `"bf34a6"`. That is UNKNOWN's own colour in `Status`, and it differs from
  the four declared colours. As written, the source does not compile against
  `StatusColor` as declared, so this constant is a reconstruction. No
  contract depends on its value beyond its differing from the four declared
  colours and from BROKEN's yellow.
- Test-record status is `Status.toString()`, the upper-case constant name
  (`Name`), because `Status` does not override `toString`. Statistic rows
  use `value()`, the lower-case name (`Value`).

What the export calls do:

- The code makes one single-argument service call per launch and one per
  test record. It keeps no per-issue outcome list.
- A throw from either export is logged and rethrown. No later export happens.
- The launch's external id is the configured issue string, as given, not split.
- The colour lookup exists twice and the two copies disagree on UNKNOWN.

## Model

| member | source | states |
|---|---|---|
| `Statuses.ValuesFollowDeclarationOrder` | allure-plugin-api/src/main/java/io/qameta/allure/entity/Status.java:25-31 | `values()` has five entries, FAILED, BROKEN, PASSED, SKIPPED, UNKNOWN. Each constant appears exactly once, at its ordinal. |
| `Statuses.FromValue` | allure-plugin-api/src/main/java/io/qameta/allure/entity/Status.java:27-46 | Decoding a serialised status gives a status whose `value()` is that string. It fails only when no status serialises to the string. |
| `Statuses.ValueRoundTrip` | allure-plugin-api/src/main/java/io/qameta/allure/entity/Status.java:27-46 | `value()` is injective, and decoding `value(s)` gives back `s`. |
| `Statuses.ColorInjective` | allure-plugin-api/src/main/java/io/qameta/allure/entity/Status.java:27-48 | The five `color()` values f90602, febe0d, 78b63c, 888888, bf34a6 are pairwise distinct. |
| `Statuses.NameIsUpperCasedValue` | allure-plugin-api/src/main/java/io/qameta/allure/entity/Status.java:25-50 | `toString()` is not overridden, so it is the constant's name. That is `value()` upper-cased, and never equal to `value()`. |
| `StatusColors.HexInjective` | allure-jira-commons/src/main/java/io/qameta/allure/jira/StatusColor.java:29-34 | The four hex values are pairwise distinct. |
| `StatusColors.HexIsStatusColor` | allure-jira-commons/src/main/java/io/qameta/allure/jira/StatusColor.java:27-35 | RED, GREEN, YELLOW and GRAY equal `color()` of FAILED, PASSED, BROKEN and SKIPPED. No constant equals UNKNOWN's colour. |
| `Statistics.Update` | plugins/jira-plugin/src/main/java/io/qameta/allure/jira/JiraExportPlugin.java:142-149 | `update` adds one to the slot of the result's status and leaves every other slot unchanged. |
| `Statistics.StatisticCounts` | plugins/jira-plugin/src/main/java/io/qameta/allure/jira/JiraExportPlugin.java:142-149 | After updating with every result, each status' count is the number of results with that status. |
| `Statistics.AbsentStatusCountsZero` | plugins/jira-plugin/src/main/java/io/qameta/allure/jira/JiraExportPlugin.java:142-149 | A status counts zero if and only if no result has it. |
| `Statistics.StatisticTotal` | plugins/jira-plugin/src/main/java/io/qameta/allure/jira/JiraExportPlugin.java:142-149 | The five counts sum to the number of results counted. |
| `Statistics.StatisticSplits` | plugins/jira-plugin/src/main/java/io/qameta/allure/jira/JiraExportPlugin.java:142-149 | Counting a concatenation is the slot-wise sum of the two counts, so the order of the results does not matter. |
| `ExportCommon.TestResultsAppend` | plugins/jira-plugin/src/main/java/io/qameta/allure/jira/JiraExportPlugin.java:124-129 | Flattening is a homomorphism: a launch list split in two flattens to the two flattenings, one after the other. One launch flattens to its own results. So order is kept and nothing is deduplicated. |
| `ExportCommon.ExecutorOf` | plugins/jira-plugin/src/main/java/io/qameta/allure/jira/JiraExportPlugin.java:131-140 | The executor is the `ExecutorInfo` under "executor" of the first launch that has one. Extras of other classes are skipped. With none, both fields are unset. |
| `ExportCommon.ExecutorOfAppend` | plugins/jira-plugin/src/main/java/io/qameta/allure/jira/JiraExportPlugin.java:131-140 | For a concatenated launch list, the lookup uses the first part if it has an executor, and the second part otherwise. |
| `ExportCommon.UpdateAll` | plugins/jira-plugin/src/main/java/io/qameta/allure/jira/JiraExportPlugin.java:144-147 | Updating a counter that has counted some results with further results, one by one in order, gives the count of all of them together. |
| `ExportCommon.GetStatistic` | plugins/jira-plugin/src/main/java/io/qameta/allure/jira/JiraExportPlugin.java:142-149 | The loop over launches and their results counts each status' occurrences in the flattened results. The total equals their number. |
| `ExportCommon.IssueKeys` | plugins/jira-plugin/src/main/java/io/qameta/allure/jira/JiraExportPlugin.java:104-107 | The keys are empty if and only if no link has type exactly "issue", and there are at most as many keys as links. |
| `ExportCommon.IssueKeysAreIssueNames` | plugins/jira-plugin/src/main/java/io/qameta/allure/jira/JiraExportPlugin.java:104-107 | Every key is the name of a link whose type is exactly "issue". |
| `ExportCommon.IssueKeysAppend` | plugins/jira-plugin/src/main/java/io/qameta/allure/jira/JiraExportPlugin.java:104-107 | Extraction distributes over concatenation. A single link yields its name exactly when it is an issue link. Together these fix the keys as the issue links' names, in order, duplicates kept. |
| `ExportCommon.TestResultUrl` | plugins/jira-plugin/src/main/java/io/qameta/allure/jira/JiraExportPlugin.java:196-201 | No report URL gives no link. Otherwise the link starts with the base and ends with "#testresult/" plus the uid. It has no extra "/" exactly when the base ends with "index.html"; otherwise the character right after the base is "/" and the fragment follows it. |
| `ExportCommon.UrlDeterminesBase` | plugins/jira-plugin/src/main/java/io/qameta/allure/jira/JiraExportPlugin.java:196-201 | The base can be recovered from the deep link, so different report URLs never give the same link. |
| `PluginExport.ColorMatchesStatusExceptUnknown` | plugins/jira-plugin/src/main/java/io/qameta/allure/jira/JiraExportPlugin.java:158-169 | The Plugin's colour is `Status.color()` if and only if the status is not UNKNOWN. UNKNOWN gets BROKEN's yellow. |
| `PluginExport.ConvertStatistics` | plugins/jira-plugin/src/main/java/io/qameta/allure/jira/JiraExportPlugin.java:151-156 | There are exactly five rows. Row i decodes to the i-th status in declaration order and carries that status' count and the Plugin's colour for it. |
| `PluginExport.ConvertStatisticsTotal` | plugins/jira-plugin/src/main/java/io/qameta/allure/jira/JiraExportPlugin.java:151-156 | Every row's count is non-negative, and the rows' counts sum to the statistic's total. |
| `PluginExport.GetJiraTestResult` | plugins/jira-plugin/src/main/java/io/qameta/allure/jira/JiraExportPlugin.java:101-121 | No record if and only if there is no issue link. Otherwise the record holds the non-empty issue keys, the result's name, the status name, the stop time, the deep link, and the given launch's external id. Colour, test case id, history key and the three launch fields stay unset. |
| `PluginExport.TestRecords` | plugins/jira-plugin/src/main/java/io/qameta/allure/jira/JiraExportPlugin.java:82-86 | At most one record per result. Each has at least one issue key and the launch's external id. |
| `PluginExport.TestRecordsAppend` | plugins/jira-plugin/src/main/java/io/qameta/allure/jira/JiraExportPlugin.java:82-86 | The records of a concatenation are the concatenated records, so the export order is the flattened result order. |
| `PluginExport.TestRecordsOfOne` | plugins/jira-plugin/src/main/java/io/qameta/allure/jira/JiraExportPlugin.java:82-86 | A single result contributes one record exactly when it has an issue link, never more than one, and that record is the one `getJiraTestResult` builds for it. With `TestRecordsAppend` this fixes the records of any result list. |
| `PluginExport.ExportTestResults` | plugins/jira-plugin/src/main/java/io/qameta/allure/jira/JiraExportPlugin.java:183-193 | The records sent are a prefix of the records, in order. All but the last returned normally, each answered as the test-record call at its position. The run threw if and only if the last one threw. Without a throw, every record was sent. |
| `PluginExport.ExportRun` | plugins/jira-plugin/src/main/java/io/qameta/allure/jira/JiraExportPlugin.java:80-86 | The launch is the first call. If it throws, the run ends there and rethrows. Otherwise the test records, built against the launch the service returned, follow the plan: a prefix in order, each earlier one returned, and a rethrow exactly when the last one threw. |
| `PluginExport.Aggregate` | plugins/jira-plugin/src/main/java/io/qameta/allure/jira/JiraExportPlugin.java:68-88 | Disabled: no service, no call. Enabled: the launch is sent first, exactly once. A launch throw ends the run. After it come only test-record exports, a prefix of the planned ones in flattened order. They are built against the launch the service returned. A run without a throw sends all of them. |
| `PluginExport.AggregateSendsOnlyIssueLinked` | plugins/jira-plugin/src/main/java/io/qameta/allure/jira/JiraExportPlugin.java:68-88 | Every test record sent has at least one issue key. The launch's rows count every flattened result. |
| `UtilityExport.ColorMatchesStatus` | plugins/jira-plugin/src/main/java/io/qameta/allure/jira/JiraExportUtility.java:97-110 | The fallback differs from all four declared colours. The Utility's colour is `Status.color()` for every status except UNKNOWN, and the lookup is injective. |
| `UtilityExport.NonZeroRows` | plugins/jira-plugin/src/main/java/io/qameta/allure/jira/JiraExportUtility.java:88-95 | There are at most as many rows as statuses, every count is positive, every row is the row of a listed status, and every listed status with a non-zero count has its row. |
| `UtilityExport.NonZeroRowsAscending` | plugins/jira-plugin/src/main/java/io/qameta/allure/jira/JiraExportUtility.java:88-95 | Statuses listed in declaration order give rows in declaration order: of two rows, the earlier is the row of the earlier-declared status. |
| `UtilityExport.ConvertStatistics` | plugins/jira-plugin/src/main/java/io/qameta/allure/jira/JiraExportUtility.java:88-95 | At most five rows, none with count zero. A status has its row if and only if its count is non-zero. Every row is some status' row, every row's status decodes, and the decoded statuses strictly increase in declaration order. |
| `UtilityExport.GetJiraTestResult` | plugins/jira-plugin/src/main/java/io/qameta/allure/jira/JiraExportUtility.java:35-58 | No record if and only if there is no issue link. Otherwise no issue keys are stored, and external id = test case id = uid, history key = history id. The name and deep link are the result's. The status is the name, and the colour is this copy's lookup for the status, which is the status' own colour for all but UNKNOWN. The launch URL and launch name/external id come from the executor. |
| `UtilityExport.ColorConsistentAcrossRecords` | plugins/jira-plugin/src/main/java/io/qameta/allure/jira/JiraExportUtility.java:44-55 | A test record's colour equals the colour of its status' launch row: both use the same lookup. |
| `CopiesAgree.ColorCopiesAgree` | plugins/jira-plugin/src/main/java/io/qameta/allure/jira/JiraExportUtility.java:97-110 | The two copies' colours agree if and only if the status is not UNKNOWN. |
| `CopiesAgree.StatisticRowsRelate` | plugins/jira-plugin/src/main/java/io/qameta/allure/jira/JiraExportUtility.java:88-110 | The Utility's rows are the Plugin's rows with zero counts dropped and UNKNOWN recoloured purple. Both sum to the statistic's total. |
| `CopiesAgree.TestRecordsRelate` | plugins/jira-plugin/src/main/java/io/qameta/allure/jira/JiraExportUtility.java:35-58 | Both copies build a record for exactly the same results. The records agree on name, link, status and date. Only the Plugin stores issue keys. Only the Utility sets colour, test case id, history key and the launch URL, name and external id. The two take their external ids from different sources. |
| `CopiesAgree.LaunchRecordsRelate` | plugins/jira-plugin/src/main/java/io/qameta/allure/jira/JiraExportPlugin.java:90-99 | The Plugin's launch record and the Utility's (`JiraExportUtility.java` lines 25-33) share name, URL, date and statistic. The external id is the raw issue string in the Plugin and the build name in the Utility. |
| `Scenarios.IssueKeysExample` | plugins/jira-plugin/src/main/java/io/qameta/allure/jira/JiraExportPlugin.java:203-205 | Links (issue A, other x, issue A) yield A, A. Type "Issue" and an absent type yield nothing. |
| `Scenarios.IndexPageUrlExample` | plugins/jira-plugin/src/main/java/io/qameta/allure/jira/JiraExportPlugin.java:196-201 | "http://host/index.html" and "abc" give "http://host/index.html#testresult/abc". "myindex.html" also counts as the index page, because the test is a plain suffix test. |
| `Scenarios.PlainBaseUrlExample` | plugins/jira-plugin/src/main/java/io/qameta/allure/jira/JiraExportPlugin.java:196-201 | "http://host" and "abc" give "http://host/#testresult/abc". "h/" gives "h//#testresult/u", so there is no normalisation. No base gives no link. |
| `Scenarios.ExecutorExample` | plugins/jira-plugin/src/main/java/io/qameta/allure/jira/JiraExportPlugin.java:131-140 | An "executor" extra of another class is skipped in favour of a later `ExecutorInfo`. With no extra, the default is used. |
| `Scenarios.EndToEndCounts` | plugins/jira-plugin/src/main/java/io/qameta/allure/jira/JiraExportPlugin.java:124-149 | Two launches with one passed and one failed result flatten to both and count one failed and one passed. |
| `Scenarios.EndToEndPluginRows` | plugins/jira-plugin/src/main/java/io/qameta/allure/jira/JiraExportPlugin.java:151-169 | That statistic gives five Plugin rows, zeros included, with UNKNOWN yellow. |
| `Scenarios.EndToEndUtilityRows` | plugins/jira-plugin/src/main/java/io/qameta/allure/jira/JiraExportUtility.java:88-110 | That statistic gives the two Utility rows failed/red/1 and passed/green/1. |
| `Scenarios.EndToEndExports` | plugins/jira-plugin/src/main/java/io/qameta/allure/jira/JiraExportPlugin.java:68-88 | With a service that always returns, the run makes two calls: the launch, then the failed result with keys X, Y and status "FAILED". |
| `Scenarios.DuplicateRecordRefused` | plugins/jira-plugin/src/main/java/io/qameta/allure/jira/JiraExportPlugin.java:82-86 | A result listed under two launches gives the same record twice, and a service that refuses the second copy makes the run send both and rethrow. |

## Left out

- The Jira service itself (`JiraService`, `JiraServiceBuilder`, `createJiraLaunch`, `createTestResult`) is network I/O behind an interface that is not part of this model. It is an oracle here. The entity it returns for a test record is only dereferenced for logging, so beyond "returned or threw" it is not modelled. No per-issue outcome count is asserted, because the code makes one call per record.
- The service supplier is modelled only as "asked or not". A supplier that throws is not modelled.
- The launch date comes from `System.currentTimeMillis()`. It is the parameter `now`.
- Logging, and every message text, are left out.
- Reading `ALLURE_JIRA_ENABLED` and `ALLURE_JIRA_LAUNCH_ISSUES` from the environment is left out: `enabled` and `issue` are parameters of `Aggregate`. The unused configuration and output-directory arguments are left out too.
- `splitByComma` in `JiraExportUtility` is unused by the modelled code, and its result depends on Java regex `split` semantics. It is left out.
- `Statistic`, `ExecutorInfo`, `TestResult`, `Link`, `LaunchResults`, `JiraLaunch` and `JiraTestResult` are not part of this model. They appear as plain records with only the fields the export reads or sets. `Statistic.update` is assumed to add one to the result's status.
- `getAllResults` returns a collection whose iteration order the source does not fix. The model takes each launch's results as a sequence in that order.
- Java `null` is modelled for the executor's build name and report URL, for a link's type, and for unset record fields. A null link type is not an issue link, because `"issue".equals(null)` is false. A null link list, status, or stop time would throw `NullPointerException`, and that is not modelled.
- `Statistics.Update`: the counts are unbounded naturals, so 64-bit overflow of the `long` counters is not modelled.
- Jackson and Lombok annotations are not modelled. Lombok's structural equality of rows is datatype equality, so it needs no lemma.
- `UtilityExport.ColorMatchesStatus`: states the Utility's colour equals `Status.color()` only for the four statuses other than UNKNOWN, because UNKNOWN's colour comes from `StatusColor.PURPLE`, which `StatusColor` does not declare; the model's `PurpleFallback` is a reconstruction.
