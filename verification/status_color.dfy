/** `io.qameta.allure.jira.StatusColor`: the four colours the export
    plugin attaches to statistic rows and test records. */
module StatusColors {
  import opened Statuses

  datatype StatusColor = RED | GREEN | YELLOW | GRAY

  /** `value()`: the colour as six hex digits. */
  function Hex(c: StatusColor): string {
    match c
    case RED => "f90602"
    case GREEN => "78b63c"
    case YELLOW => "febe0d"
    case GRAY => "888888"
  }

  /** The status whose own colour each constant reproduces. */
  function StatusOf(c: StatusColor): Status {
    match c
    case RED => FAILED
    case GREEN => PASSED
    case YELLOW => BROKEN
    case GRAY => SKIPPED
  }

  /** The four hex values are pairwise distinct. */
  lemma HexInjective(c: StatusColor, d: StatusColor)
    ensures Hex(c) == Hex(d) <==> c == d
  {
  }

  /** RED, GREEN, YELLOW and GRAY carry the colours of FAILED, PASSED, BROKEN
      and SKIPPED; no constant carries UNKNOWN's colour, so no lookup into
      this enum can reproduce `UNKNOWN.color()`. */
  lemma HexIsStatusColor(c: StatusColor)
    ensures Hex(c) == Color(StatusOf(c))
    ensures StatusOf(c) != UNKNOWN
    ensures Hex(c) != Color(UNKNOWN)
  {
  }
}
