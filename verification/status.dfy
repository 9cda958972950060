/** The outcome of one test, `io.qameta.allure.entity.Status`: five
    constants, each carrying a JSON value and a display colour fixed by its
    constructor call. */
module Statuses {
  import opened Options

  datatype Status = FAILED | BROKEN | PASSED | SKIPPED | UNKNOWN

  /** `Status.values()`: the constants in declaration order. */
  const Values: seq<Status> := [FAILED, BROKEN, PASSED, SKIPPED, UNKNOWN]

  /** `ordinal()`: the position of a constant in declaration order. */
  function Ordinal(s: Status): nat {
    match s
    case FAILED => 0
    case BROKEN => 1
    case PASSED => 2
    case SKIPPED => 3
    case UNKNOWN => 4
  }

  /** `value()`: the serialised (JSON) form of the status. */
  function Value(s: Status): string {
    match s
    case FAILED => "failed"
    case BROKEN => "broken"
    case PASSED => "passed"
    case SKIPPED => "skipped"
    case UNKNOWN => "unknown"
  }

  /** `color()`: the status' own display colour, six hex digits. */
  function Color(s: Status): string {
    match s
    case FAILED => "f90602"
    case BROKEN => "febe0d"
    case PASSED => "78b63c"
    case SKIPPED => "888888"
    case UNKNOWN => "bf34a6"
  }

  /** `toString()`: the enum does not override it, so it is the constant's
      declared name. */
  function Name(s: Status): string {
    match s
    case FAILED => "FAILED"
    case BROKEN => "BROKEN"
    case PASSED => "PASSED"
    case SKIPPED => "SKIPPED"
    case UNKNOWN => "UNKNOWN"
  }

  /** The inverse of `Value`: the status serialised as `v`, if any. */
  function FromValue(v: string): (r: Option<Status>)
    ensures r.Some? ==> Value(r.value) == v
    ensures r.None? ==> forall s: Status :: Value(s) != v
  {
    if v == "failed" then Some(FAILED)
    else if v == "broken" then Some(BROKEN)
    else if v == "passed" then Some(PASSED)
    else if v == "skipped" then Some(SKIPPED)
    else if v == "unknown" then Some(UNKNOWN)
    else None
  }

  /** ASCII upper-casing of one character. */
  function UpperChar(c: char): char {
    if 'a' <= c <= 'z' then (c as int - 'a' as int + 'A' as int) as char else c
  }

  /** `values()` lists every constant exactly once, at its ordinal. */
  lemma ValuesFollowDeclarationOrder(s: Status)
    ensures |Values| == 5
    ensures Ordinal(s) < |Values| && Values[Ordinal(s)] == s
    ensures forall i :: 0 <= i < |Values| && Values[i] == s ==> i == Ordinal(s)
  {
  }

  /** `value()` is injective, so `FromValue` is a left inverse of it. */
  lemma ValueRoundTrip(s: Status, t: Status)
    ensures FromValue(Value(s)) == Some(s)
    ensures Value(s) == Value(t) <==> s == t
  {
  }

  /** The five colours are pairwise distinct. */
  lemma ColorInjective(s: Status, t: Status)
    ensures Color(s) == Color(t) <==> s == t
  {
  }

  /** `toString()` is `value()` upper-cased character by character, and
      never equal to it. */
  lemma NameIsUpperCasedValue(s: Status)
    ensures |Name(s)| == |Value(s)|
    ensures forall i :: 0 <= i < |Name(s)| ==> Name(s)[i] == UpperChar(Value(s)[i])
    ensures Name(s) != Value(s)
  {
  }
}
