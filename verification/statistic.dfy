/** Per-status counting of test results. `io.qameta.allure.entity.Statistic`
    is not part of this model: it is taken to be a counter with one slot per
    status, where `update(result)` adds one to the slot of the result's
    status and `get(status)` reads a slot. */
module Statistics {
  import opened Statuses
  import opened Entities

  datatype Statistic = Statistic(failed: nat, broken: nat, passed: nat, skipped: nat, unknown: nat)

  /** `new Statistic()`: every slot zero. */
  const Empty: Statistic := Statistic(0, 0, 0, 0, 0)

  /** `get(status)`. */
  function Get(st: Statistic, s: Status): nat {
    match s
    case FAILED => st.failed
    case BROKEN => st.broken
    case PASSED => st.passed
    case SKIPPED => st.skipped
    case UNKNOWN => st.unknown
  }

  /** `update(result)`: one more result of that result's status. */
  function Update(st: Statistic, tr: TestResult): (r: Statistic)
    ensures Get(r, tr.status) == Get(st, tr.status) + 1
    ensures forall s: Status :: s != tr.status ==> Get(r, s) == Get(st, s)
  {
    match tr.status
    case FAILED => st.(failed := st.failed + 1)
    case BROKEN => st.(broken := st.broken + 1)
    case PASSED => st.(passed := st.passed + 1)
    case SKIPPED => st.(skipped := st.skipped + 1)
    case UNKNOWN => st.(unknown := st.unknown + 1)
  }

  /** The sum of all five slots. */
  function Total(st: Statistic): nat {
    Get(st, FAILED) + Get(st, BROKEN) + Get(st, PASSED) + Get(st, SKIPPED) + Get(st, UNKNOWN)
  }

  /** Slot-wise sum of two counters. */
  function Add(x: Statistic, y: Statistic): Statistic {
    Statistic(x.failed + y.failed, x.broken + y.broken, x.passed + y.passed,
              x.skipped + y.skipped, x.unknown + y.unknown)
  }

  /** The counter after `update` has been applied to each result in turn,
      starting from `Empty`. */
  function StatisticOf(rs: seq<TestResult>): Statistic {
    if |rs| == 0 then Empty else Update(StatisticOf(rs[..|rs| - 1]), rs[|rs| - 1])
  }

  /** How many results in `rs` have status `s`. */
  function Occurrences(rs: seq<TestResult>, s: Status): nat {
    if |rs| == 0 then 0
    else (if rs[0].status == s then 1 else 0) + Occurrences(rs[1..], s)
  }

  /** Two counters that agree on every slot are equal. */
  lemma StatisticExtensional(x: Statistic, y: Statistic)
    requires forall s: Status :: Get(x, s) == Get(y, s)
    ensures x == y
  {
    assert Get(x, FAILED) == Get(y, FAILED) && Get(x, BROKEN) == Get(y, BROKEN);
    assert Get(x, PASSED) == Get(y, PASSED) && Get(x, SKIPPED) == Get(y, SKIPPED);
    assert Get(x, UNKNOWN) == Get(y, UNKNOWN);
  }

  lemma {:induction false} OccurrencesAppend(a: seq<TestResult>, b: seq<TestResult>, s: Status)
    ensures Occurrences(a + b, s) == Occurrences(a, s) + Occurrences(b, s)
  {
    if |a| == 0 {
      assert a + b == b;
    } else {
      assert (a + b)[1..] == a[1..] + b;
      OccurrencesAppend(a[1..], b, s);
    }
  }

  /** Counting by repeated `update` gives, for each status, exactly the
      number of results with that status. */
  lemma {:induction false} StatisticCounts(rs: seq<TestResult>, s: Status)
    ensures Get(StatisticOf(rs), s) == Occurrences(rs, s)
  {
    if |rs| > 0 {
      var init := rs[..|rs| - 1];
      StatisticCounts(init, s);
      OccurrencesAppend(init, [rs[|rs| - 1]], s);
      assert init + [rs[|rs| - 1]] == rs;
    }
  }

  /** A status no result has is counted zero, and only such a status. */
  lemma {:induction false} AbsentStatusCountsZero(rs: seq<TestResult>, s: Status)
    ensures Get(StatisticOf(rs), s) == 0 <==> forall i :: 0 <= i < |rs| ==> rs[i].status != s
  {
    StatisticCounts(rs, s);
    OccurrencesZero(rs, s);
  }

  lemma {:induction false} OccurrencesZero(rs: seq<TestResult>, s: Status)
    ensures Occurrences(rs, s) == 0 <==> forall i :: 0 <= i < |rs| ==> rs[i].status != s
  {
    if |rs| > 0 {
      OccurrencesZero(rs[1..], s);
      assert forall i :: 1 <= i < |rs| ==> rs[i] == rs[1..][i - 1];
    }
  }

  /** The counts sum to the number of results counted. */
  lemma {:induction false} StatisticTotal(rs: seq<TestResult>)
    ensures Total(StatisticOf(rs)) == |rs|
  {
    if |rs| > 0 {
      StatisticTotal(rs[..|rs| - 1]);
    }
  }

  /** Counting a concatenation is adding the two counts: the result does not
      depend on how the results are grouped or ordered. */
  lemma StatisticSplits(a: seq<TestResult>, b: seq<TestResult>)
    ensures StatisticOf(a + b) == Add(StatisticOf(a), StatisticOf(b))
    ensures StatisticOf(a + b) == StatisticOf(b + a)
  {
    forall s: Status
      ensures Get(StatisticOf(a + b), s) == Get(Add(StatisticOf(a), StatisticOf(b)), s)
      ensures Get(StatisticOf(a + b), s) == Get(StatisticOf(b + a), s)
    {
      StatisticCounts(a + b, s);
      StatisticCounts(b + a, s);
      StatisticCounts(a, s);
      StatisticCounts(b, s);
      OccurrencesAppend(a, b, s);
      OccurrencesAppend(b, a, s);
    }
    StatisticExtensional(StatisticOf(a + b), Add(StatisticOf(a), StatisticOf(b)));
    StatisticExtensional(StatisticOf(a + b), StatisticOf(b + a));
  }
}
