/** The helpers that `JiraExportPlugin` and `JiraExportUtility` both define,
    with identical bodies: flattening the launches' results, finding the
    executor block, counting statuses, recognising issue links and deriving
    the deep link into the report. Each is defined here once and used by
    both copies. */
module ExportCommon {
  import opened Options
  import opened Statuses
  import opened Entities
  import opened Statistics

  /** The name of the extra block that holds executor information. */
  const ExecutorBlockName: string := "executor"

  /** The link type that marks an issue reference; compared exactly. */
  const IssueLinkType: string := "issue"

  /** The report page a base URL may already end with. */
  const IndexPage: string := "index.html"

  /** The fragment that addresses one test result inside the report. */
  const TestResultFragment: string := "#testresult/"

  // ---------------------------------------------------------------- results

  /** `getTestResults`: every launch's results, launch after launch, with
      nothing removed or merged. */
  function TestResults(launches: seq<LaunchResults>): seq<TestResult> {
    if |launches| == 0 then [] else launches[0].results + TestResults(launches[1..])
  }

  /** Flattening commutes with concatenation of launch lists, and one launch
      flattens to its own results: order is kept and duplicates stay. */
  lemma {:induction false} TestResultsAppend(a: seq<LaunchResults>, b: seq<LaunchResults>)
    ensures TestResults(a + b) == TestResults(a) + TestResults(b)
    ensures TestResults([]) == [] && (|a| == 1 ==> TestResults(a) == a[0].results)
  {
    if |a| == 0 {
      assert a + b == b;
    } else {
      assert (a + b)[1..] == a[1..] + b;
      TestResultsAppend(a[1..], b);
      if |a| == 1 {
        assert a[1..] == [];
      }
    }
  }

  // --------------------------------------------------------------- executor

  /** The launch carries an `ExecutorInfo` under the executor block name. */
  predicate HasExecutor(l: LaunchResults) {
    ExecutorBlockName in l.extras && l.extras[ExecutorBlockName].ExecutorExtra?
  }

  /** `getExecutor`: the executor block of the first launch that has one
      which is an `ExecutorInfo`; blocks of other classes are passed over;
      with none, a default whose build name and report URL are unset. */
  function ExecutorOf(launches: seq<LaunchResults>): (r: ExecutorInfo)
    ensures (forall i :: 0 <= i < |launches| ==> !HasExecutor(launches[i])) ==> r == DefaultExecutor
    ensures (exists i :: 0 <= i < |launches| && HasExecutor(launches[i])) ==>
      exists i :: 0 <= i < |launches| && HasExecutor(launches[i])
        && launches[i].extras[ExecutorBlockName].info == r
        && forall j :: 0 <= j < i ==> !HasExecutor(launches[j])
  {
    if |launches| == 0 then DefaultExecutor
    else if HasExecutor(launches[0]) then launches[0].extras[ExecutorBlockName].info
    else
      var r := ExecutorOf(launches[1..]);
      assert forall i :: 1 <= i < |launches| ==> launches[i] == launches[1..][i - 1];
      assert (exists i :: 0 <= i < |launches| && HasExecutor(launches[i])) ==>
        exists i :: 0 <= i < |launches[1..]| && HasExecutor(launches[1..][i]);
      r
  }

  /** Finding the executor in a concatenation looks in the first part, and
      only where that has none, in the second. */
  lemma {:induction false} ExecutorOfAppend(a: seq<LaunchResults>, b: seq<LaunchResults>)
    ensures ExecutorOf(a + b) ==
      if exists i :: 0 <= i < |a| && HasExecutor(a[i]) then ExecutorOf(a) else ExecutorOf(b)
  {
    if |a| == 0 {
      assert a + b == b;
    } else {
      assert (a + b)[0] == a[0];
      if !HasExecutor(a[0]) {
        assert (a + b)[1..] == a[1..] + b;
        ExecutorOfAppend(a[1..], b);
        assert forall i :: 1 <= i < |a| ==> a[i] == a[1..][i - 1];
        assert (exists i :: 0 <= i < |a| && HasExecutor(a[i])) ==>
          exists i :: 0 <= i < |a[1..]| && HasExecutor(a[1..][i]);
      }
    }
  }

  // ------------------------------------------------------------- statistic

  /** Counting one more result is one more `update`. */
  lemma StatisticOfSnoc(xs: seq<TestResult>, x: TestResult)
    ensures StatisticOf(xs + [x]) == Update(StatisticOf(xs), x)
  {
  }

  /** Flattening one more launch appends its results. */
  lemma TestResultsSnoc(launches: seq<LaunchResults>, i: nat)
    requires i < |launches|
    ensures TestResults(launches[..i + 1]) == TestResults(launches[..i]) + launches[i].results
  {
    TestResultsAppend(launches[..i], [launches[i]]);
    TestResultsAppend([launches[i]], []);
    assert launches[..i] + [launches[i]] == launches[..i + 1];
  }

  /** The inner loop of `getStatistic`: `update` with each of `rs`, in
      order, on a counter that has already counted `done`. */
  method UpdateAll(st0: Statistic, ghost done: seq<TestResult>, rs: seq<TestResult>) returns (st: Statistic)
    requires st0 == StatisticOf(done)
    ensures st == StatisticOf(done + rs)
  {
    st := st0;
    var j := 0;
    assert done + rs[..j] == done;
    while j < |rs|
      invariant 0 <= j <= |rs|
      invariant st == StatisticOf(done + rs[..j])
    {
      ghost var counted := done + rs[..j];
      assert done + rs[..j + 1] == counted + [rs[j]] by {
        assert rs[..j + 1] == rs[..j] + [rs[j]];
      }
      StatisticOfSnoc(counted, rs[j]);
      st := Update(st, rs[j]);
      j := j + 1;
    }
    assert rs[..j] == rs;
  }

  /** `getStatistic`: a fresh counter updated with every flattened result,
      launch by launch and result by result. */
  method GetStatistic(launches: seq<LaunchResults>) returns (st: Statistic)
    ensures forall s: Status :: Get(st, s) == Occurrences(TestResults(launches), s)
    ensures Total(st) == |TestResults(launches)|
    ensures st == StatisticOf(TestResults(launches))
  {
    st := Empty;
    var i := 0;
    while i < |launches|
      invariant 0 <= i <= |launches|
      invariant st == StatisticOf(TestResults(launches[..i]))
    {
      st := UpdateAll(st, TestResults(launches[..i]), launches[i].results);
      TestResultsSnoc(launches, i);
      i := i + 1;
    }
    assert launches[..i] == launches;
    forall s: Status ensures Get(st, s) == Occurrences(TestResults(launches), s) {
      StatisticCounts(TestResults(launches), s);
    }
    StatisticTotal(TestResults(launches));
  }

  // ---------------------------------------------------------------- issues

  /** `isIssueLink`: the link's type is exactly "issue"; an absent type is
      not. */
  predicate IsIssueLink(l: Link) {
    l.linkType == Some(IssueLinkType)
  }

  /** The names of the issue links, in link order, duplicates kept. */
  function IssueKeys(links: seq<Link>): (r: seq<string>)
    ensures |r| <= |links|
    ensures |r| == 0 <==> forall i :: 0 <= i < |links| ==> !IsIssueLink(links[i])
  {
    if |links| == 0 then []
    else
      var rest := IssueKeys(links[1..]);
      assert forall i :: 1 <= i < |links| ==> links[i] == links[1..][i - 1];
      if IsIssueLink(links[0]) then [links[0].name] + rest else rest
  }

  /** `name` is the name of some issue link in `links`. */
  predicate NamesIssue(links: seq<Link>, name: string) {
    exists i :: 0 <= i < |links| && IsIssueLink(links[i]) && links[i].name == name
  }

  /** Every key is the name of some issue link. */
  lemma {:induction false} IssueKeysAreIssueNames(links: seq<Link>)
    ensures forall j :: 0 <= j < |IssueKeys(links)| ==> NamesIssue(links, IssueKeys(links)[j])
  {
    if |links| == 0 {
      assert |IssueKeys(links)| == 0;
    } else {
      IssueKeysAreIssueNames(links[1..]);
      var keys, rest := IssueKeys(links), IssueKeys(links[1..]);
      forall name | NamesIssue(links[1..], name) ensures NamesIssue(links, name) {
        var i :| 0 <= i < |links[1..]| && IsIssueLink(links[1..][i]) && links[1..][i].name == name;
        assert links[i + 1] == links[1..][i];
      }
      if IsIssueLink(links[0]) {
        assert keys == [links[0].name] + rest;
        assert NamesIssue(links, links[0].name);
      } else {
        assert keys == rest;
      }
    }
  }

  /** Extraction commutes with concatenation, and one link yields its name
      exactly when it is an issue link: together these determine
      `IssueKeys` completely. */
  lemma {:induction false} IssueKeysAppend(a: seq<Link>, b: seq<Link>)
    ensures IssueKeys(a + b) == IssueKeys(a) + IssueKeys(b)
    ensures |a| == 1 ==> IssueKeys(a) == if IsIssueLink(a[0]) then [a[0].name] else []
  {
    if |a| == 0 {
      assert a + b == b;
    } else {
      assert (a + b)[1..] == a[1..] + b;
      IssueKeysAppend(a[1..], b);
      if |a| == 1 {
        assert a[1..] == [];
      }
    }
  }

  // ------------------------------------------------------------- deep link

  predicate StartsWith(s: string, prefix: string) {
    |prefix| <= |s| && s[..|prefix|] == prefix
  }

  /** `url.endsWith(suffix)`: a plain suffix test. */
  predicate EndsWith(s: string, suffix: string) {
    |suffix| <= |s| && s[|s| - |suffix|..] == suffix
  }

  /** `getJiraTestResultUrl`: no report URL gives no link; a base ending in
      "index.html" gets the fragment appended directly, any other base gets
      "/" and then the fragment. The base is not normalised. */
  function TestResultUrl(reportUrl: Option<string>, uid: string): (r: Option<string>)
    ensures r.None? <==> reportUrl.None?
    ensures r.Some? ==> StartsWith(r.value, reportUrl.value)
    ensures r.Some? ==> EndsWith(r.value, TestResultFragment + uid)
    ensures r.Some? ==>
      (|r.value| == |reportUrl.value| + |TestResultFragment + uid| <==> EndsWith(reportUrl.value, IndexPage))
    ensures r.Some? && !EndsWith(reportUrl.value, IndexPage) ==>
      |r.value| == |reportUrl.value| + 1 + |TestResultFragment + uid| && r.value[|reportUrl.value|] == '/'
  {
    match reportUrl
    case None => None
    case Some(base) =>
      var link := if EndsWith(base, IndexPage) then base + TestResultFragment + uid
                  else base + "/" + TestResultFragment + uid;
      assert link[..|base|] == base;
      assert link[|link| - |TestResultFragment + uid|..] == TestResultFragment + uid;
      Some(link)
  }

  /** Recovers the base from a deep link to the result `uid`: drop the
      fragment, then the separating "/" unless the rest names the index page. */
  function BaseOfUrl(url: string, uid: string): (base: string)
    requires EndsWith(url, TestResultFragment + uid)
    ensures |base| <= |url|
  {
    var page := url[..|url| - |TestResultFragment + uid|];
    if EndsWith(page, IndexPage) || |page| == 0 then page else page[..|page| - 1]
  }

  /** The deep link determines its base: `BaseOfUrl` inverts
      `TestResultUrl`, so distinct report URLs never give the same link. */
  lemma UrlDeterminesBase(base: string, uid: string)
    ensures TestResultUrl(Some(base), uid).Some?
    ensures BaseOfUrl(TestResultUrl(Some(base), uid).value, uid) == base
  {
    var link := TestResultUrl(Some(base), uid).value;
    var page := link[..|link| - |TestResultFragment + uid|];
    if EndsWith(base, IndexPage) {
      assert link == base + (TestResultFragment + uid);
      assert page == base;
    } else {
      assert link == (base + "/") + (TestResultFragment + uid);
      assert page == base + "/";
      assert page[|page| - 1] == '/';
      assert !EndsWith(page, IndexPage);
      assert page[..|page| - 1] == base;
    }
  }
}
