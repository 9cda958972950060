/** The report data the export reads: test results with their links, and
    the per-launch results with their "extra" blocks. Only the fields the
    export touches are modelled. */
module Entities {
  import opened Options
  import opened Statuses

  /** A link of a test result; its type may be absent (`null`). */
  datatype Link = Link(name: string, linkType: Option<string>)

  /** A test result: identity, status, stop time and links. */
  datatype TestResult = TestResult(
    uid: string,
    historyId: string,
    name: string,
    status: Status,
    stop: int,
    links: seq<Link>)

  /** The CI executor block: build name and report URL, each optional. */
  datatype ExecutorInfo = ExecutorInfo(buildName: Option<string>, reportUrl: Option<string>)

  /** `new ExecutorInfo()`: both fields unset. */
  const DefaultExecutor: ExecutorInfo := ExecutorInfo(None, None)

  /** An extra block: an `ExecutorInfo`, or an object of any other class. */
  datatype Extra = ExecutorExtra(info: ExecutorInfo) | OtherExtra(className: string)

  /** One launch's results: its test results, in the collection's iteration
      order, and its extra blocks by name. */
  datatype LaunchResults = LaunchResults(results: seq<TestResult>, extras: map<string, Extra>)
}
