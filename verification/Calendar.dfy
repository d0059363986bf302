/** Calendar months: their first instants, their bounds, and the names of their partitions. */
module Calendar {
  import opened Options

  const MAX_YEAR := 9999

  /** A UTC timestamp; `micros` counts from midnight. */
  datatype DateTime = DateTime(year: int, month: int, day: int, micros: int)

  datatype Range = Range(start: DateTime, end: DateTime)

  predicate Valid(t: DateTime) {
    1 <= t.year <= 9999 && 1 <= t.month <= 12 && 1 <= t.day <= 31 && 0 <= t.micros < 86_400_000_000
  }

  predicate Before(a: DateTime, b: DateTime) {
    || a.year < b.year
    || (a.year == b.year && a.month < b.month)
    || (a.year == b.year && a.month == b.month && a.day < b.day)
    || (a.year == b.year && a.month == b.month && a.day == b.day && a.micros < b.micros)
  }

  /** `FOR VALUES FROM start TO end`: the end is excluded. */
  predicate Contains(r: Range, t: DateTime) {
    !Before(t, r.start) && Before(t, r.end)
  }

  predicate Overlap(a: Range, b: Range) {
    Before(a.start, b.end) && Before(b.start, a.end)
  }

  /** Months are numbered from January of year 0. */
  function Index(t: DateTime): int {
    12 * t.year + t.month - 1
  }

  function FirstOf(month: int): DateTime {
    DateTime(month / 12, month % 12 + 1, 1, 0)
  }

  const FIRST_MONTH := 12
  const LAST_MONTH := 12 * MAX_YEAR + 11

  /** `None` when the following month is past the largest date. */
  function MonthBounds(month: DateTime): Option<Range> {
    var start := month.(day := 1, micros := 0);
    if start.month == 12 then
      if start.year + 1 > MAX_YEAR then None else Some(Range(start, start.(year := start.year + 1, month := 1)))
    else
      Some(Range(start, start.(month := start.month + 1)))
  }

  /** A month's bounds hold exactly the instants of that month; only the very last has none. */
  lemma BoundsAreTheMonth(month: DateTime, t: DateTime)
    requires Valid(month) && Valid(t)
    ensures MonthBounds(month).Some? <==> month.year < 9999 || month.month < 12
    ensures MonthBounds(month).Some? ==>
              (Contains(MonthBounds(month).value, t) <==> t.year == month.year && t.month == month.month)
    ensures Index(t) == Index(month) <==> t.year == month.year && t.month == month.month
  {
  }

  /** The bounds run from the month's first instant to the next month's. */
  lemma BoundsRunToNextMonth(month: DateTime)
    requires Valid(month)
    ensures MonthBounds(month) ==
            if Index(month) < LAST_MONTH then Some(Range(FirstOf(Index(month)), FirstOf(Index(month) + 1))) else None
  {
  }

  lemma FirstOfIndex(month: int)
    requires FIRST_MONTH <= month <= LAST_MONTH
    ensures Valid(FirstOf(month)) && Index(FirstOf(month)) == month
  {
  }

  // ---------------------------------------------------------------- names

  function Digit(d: int): char
    requires 0 <= d < 10
  {
    (48 + d) as char
  }

  function Decimal(n: nat): string {
    if n < 10 then [Digit(n)] else Decimal(n / 10) + [Digit(n % 10)]
  }

  lemma {:induction false} DecimalIsInjective(a: nat, b: nat)
    requires Decimal(a) == Decimal(b)
    ensures a == b
  {
    var s := Decimal(a);
    var last := |s| - 1;
    assert s[last] == Digit(a % 10) && s[last] == Digit(b % 10);
    DecimalLength(a);
    DecimalLength(b);
    if a >= 10 && b >= 10 {
      assert s[..last] == Decimal(a / 10) && s[..last] == Decimal(b / 10);
      DecimalIsInjective(a / 10, b / 10);
    }
  }

  lemma DecimalLength(n: nat)
    ensures n < 10 <==> |Decimal(n)| == 1
  {
    if n >= 10 {
      assert |Decimal(n / 10)| >= 1;
    }
  }

  const PARENT_TABLE := "check_results"

  /** A partition's name, by the number of its month; `Text` is the name itself. */
  datatype PartitionName = PartitionName(month: int)

  function NameFor(t: DateTime): PartitionName {
    PartitionName(Index(t))
  }

  function Text(name: PartitionName): string
    requires FIRST_MONTH <= name.month <= LAST_MONTH
  {
    var t := FirstOf(name.month);
    PARENT_TABLE + "_" + Decimal(t.year) + "_" + [Digit(t.month / 10), Digit(t.month % 10)]
  }

  /** The number that a string of digits reads as. */
  function Reading(s: string): int {
    if s == "" then 0 else 10 * Reading(s[..|s| - 1]) + s[|s| - 1] as int - '0' as int
  }

  lemma {:induction false} DecimalReads(n: nat)
    ensures Reading(Decimal(n)) == n
    ensures forall c :: c in Decimal(n) ==> '0' <= c <= '9'
  {
    if n >= 10 {
      DecimalReads(n / 10);
      assert Decimal(n)[..|Decimal(n)| - 1] == Decimal(n / 10);
    } else {
      assert Decimal(n)[..0] == "";
    }
  }

  lemma TwoDigitsRead(n: nat)
    requires n < 100
    ensures Reading([Digit(n / 10), Digit(n % 10)]) == n
  {
    var tens := [Digit(n / 10)];
    var s := tens + [Digit(n % 10)];
    assert tens[..0] == "" && s[..1] == tens;
    assert Reading(tens) == n / 10;
    assert Reading(s) == n;
  }

  /** A partition's name is the table's, its year in decimal, and its month in two digits. */
  lemma TextReads(name: PartitionName)
    requires FIRST_MONTH <= name.month <= LAST_MONTH
    ensures var text, n := Text(name), |Text(name)|;
            && n >= 17 && text[..14] == "check_results_" && text[n - 3] == '_'
            && Reading(text[14..n - 3]) == name.month / 12
            && Reading(text[n - 2..]) == name.month % 12 + 1
  {
    var t, text := FirstOf(name.month), Text(name);
    var n := |text|;
    DecimalReads(t.year);
    TwoDigitsRead(t.month);
    assert text[..14] == PARENT_TABLE + "_";
    assert text[14..n - 3] == Decimal(t.year);
    assert text[n - 2..] == [Digit(t.month / 10), Digit(t.month % 10)];
  }

  /** Distinct months have distinct partition names, as text. */
  lemma TextIsInjective(a: PartitionName, b: PartitionName)
    requires FIRST_MONTH <= a.month <= LAST_MONTH && FIRST_MONTH <= b.month <= LAST_MONTH
    requires Text(a) == Text(b)
    ensures a == b
  {
    var x, y, s, t := FirstOf(a.month), FirstOf(b.month), Text(a), Text(b);
    var n, p := |s|, |PARENT_TABLE| + 1;
    assert s[p..n - 3] == Decimal(x.year);
    assert t[p..n - 3] == Decimal(y.year);
    DecimalIsInjective(x.year, y.year);
    assert s[n - 2] == Digit(x.month / 10) && t[n - 2] == Digit(y.month / 10);
    assert s[n - 1] == Digit(x.month % 10) && t[n - 1] == Digit(y.month % 10);
  }
}
