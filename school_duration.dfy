/**
 * The latest permitted completion date of studies
 * (Code/SchoolDuration.py, `calculate_completion_date`).
 * The start date is taken already parsed, as a year-month-day triple.
 */
module SchoolDuration {
  import opened Wrappers

  /** Extra semesters for an eight-semester programme, and for any other. */
  const ExtraSemestersStandard: int := 4
  const ExtraSemestersLong: int := 6
  /** At most this many break years count. */
  const MaxBreakYears: int := 2

  datatype Date = Date(year: int, month: int, day: int)

  /** Gregorian leap years, as Python's `datetime` counts them. */
  predicate IsLeapYear(y: int) {
    y % 4 == 0 && (y % 100 != 0 || y % 400 == 0)
  }

  function DaysInMonth(y: int, m: int): int
    requires 1 <= m <= 12
  {
    if m == 2 then (if IsLeapYear(y) then 29 else 28)
    else if m == 4 || m == 6 || m == 9 || m == 11 then 30
    else 31
  }

  /** A date `datetime` can represent: years 1 to 9999. */
  predicate ValidDate(d: Date) {
    1 <= d.year <= 9999 && 1 <= d.month <= 12 && 1 <= d.day <= DaysInMonth(d.year, d.month)
  }

  /** The maximum number of semesters, before part-time doubling. */
  function MaxSemesters(minSemesters: int): (r: int)
    ensures minSemesters == 8 ==> r == minSemesters + 4
    ensures minSemesters != 8 ==> r == minSemesters + 6
  {
    if minSemesters == 8 then minSemesters + ExtraSemestersStandard
    else minSemesters + ExtraSemestersLong
  }

  /** Python's `int(n / 2)`: the exact half of `n`, truncated toward zero. */
  function HalfTowardZero(n: int): int {
    if n >= 0 then n / 2 else -((-n) / 2)
  }

  /**
   * Whole years added to the start year: `int(max_semesters / 2 + breaks + health)`.
   * Only the semester half can be fractional, so the sum is counted in half
   * years and truncated toward zero as Python's `int` does.
   */
  function YearOffset(minSemesters: int, partTime: bool, breakYears: int, healthExtension: bool): int {
    var semesters := if partTime then 2 * MaxSemesters(minSemesters) else MaxSemesters(minSemesters);
    var breaks := if breakYears > MaxBreakYears then MaxBreakYears else breakYears;
    var health := if healthExtension then 1 else 0;
    HalfTowardZero(semesters + 2 * breaks + 2 * health)
  }

  /** For non-negative inputs the offset is the semester half, truncated, plus capped breaks plus health. */
  lemma YearOffsetDecomposes(minSemesters: int, partTime: bool, breakYears: int, healthExtension: bool)
    requires minSemesters >= 0 && breakYears >= 0
    ensures YearOffset(minSemesters, partTime, breakYears, healthExtension)
         == (if partTime then 2 * MaxSemesters(minSemesters) else MaxSemesters(minSemesters)) / 2
            + (if breakYears > 2 then 2 else breakYears)
            + (if healthExtension then 1 else 0)
  {
  }

  /** Part-time study doubles the semesters, so it adds exactly the full-time semester count in years. */
  lemma PartTimeDoubles(minSemesters: int, breakYears: int, healthExtension: bool)
    requires minSemesters >= 0 && breakYears >= 0
    ensures YearOffset(minSemesters, true, breakYears, healthExtension)
         == YearOffset(minSemesters, false, breakYears, healthExtension) + MaxSemesters(minSemesters) / 2
            + MaxSemesters(minSemesters) % 2
  {
  }

  /** Break years beyond two add nothing. */
  lemma BreaksCapped(minSemesters: int, partTime: bool, breakYears: int, healthExtension: bool)
    requires breakYears >= MaxBreakYears
    ensures YearOffset(minSemesters, partTime, breakYears, healthExtension)
         == YearOffset(minSemesters, partTime, MaxBreakYears, healthExtension)
  {
  }

  /** A health extension adds exactly one year (for non-negative inputs). */
  lemma HealthAddsOneYear(minSemesters: int, partTime: bool, breakYears: int)
    requires minSemesters >= 0 && breakYears >= 0
    ensures YearOffset(minSemesters, partTime, breakYears, true)
         == YearOffset(minSemesters, partTime, breakYears, false) + 1
  {
  }

  /**
   * `calculate_completion_date`: the start date with only its year moved.
   * `None` is the `ValueError` of `date.replace`: a 29 February start whose
   * target year is not a leap year, or a target year outside 1..9999.
   */
  function CompletionDate(start: Date, minSemesters: int, partTime: bool, breakYears: int,
                          healthExtension: bool): (r: Option<Date>)
    requires ValidDate(start)
    ensures var y := start.year + YearOffset(minSemesters, partTime, breakYears, healthExtension);
            r.None? <==> (y < 1 || y > 9999 || (start.month == 2 && start.day == 29 && !IsLeapYear(y)))
    ensures r.Some? ==> ValidDate(r.value)
    ensures r.Some? ==> r.value.month == start.month && r.value.day == start.day
    ensures r.Some? ==> r.value.year - start.year == YearOffset(minSemesters, partTime, breakYears, healthExtension)
  {
    var target := start.(year := start.year + YearOffset(minSemesters, partTime, breakYears, healthExtension));
    if ValidDate(target) then Some(target) else None
  }

  /** The four sample students of the source's demo table. */
  lemma SampleStudents()
    ensures CompletionDate(Date(2020, 9, 1), 8, false, 0, false) == Some(Date(2026, 9, 1))
    ensures CompletionDate(Date(2019, 9, 1), 8, true, 1, false) == Some(Date(2032, 9, 1))
    ensures CompletionDate(Date(2021, 9, 1), 10, false, 2, true) == Some(Date(2032, 9, 1))
    ensures CompletionDate(Date(2018, 9, 1), 12, true, 0, false) == Some(Date(2036, 9, 1))
  {
  }
}
