/**
  The academic-year label of the application: the year of the entrance
  examinations to research, derived either from today's date or from a
  year typed in by the user, rendered as the year's digits followed by 年度.

  Today's date is a parameter: the application reads the wall clock, the
  model does not.
 */
module AcademicYear {
  import opened Wrappers
  import Decimal

  /** A calendar date, as `datetime.date` holds it. */
  datatype Date = Date(year: int, month: int, day: int)

  predicate IsLeapYear(y: int) {
    y % 4 == 0 && (y % 100 != 0 || y % 400 == 0)
  }

  function DaysInMonth(y: int, m: int): (n: int)
    requires 1 <= m <= 12
    ensures 28 <= n <= 31
  {
    if m == 2 then (if IsLeapYear(y) then 29 else 28)
    else if m == 4 || m == 6 || m == 9 || m == 11 then 30
    else 31
  }

  /** What `datetime.date` guarantees of every date it builds. */
  predicate ValidDate(d: Date) {
    1 <= d.year <= 9999 && 1 <= d.month <= 12 && 1 <= d.day <= DaysInMonth(d.year, d.month)
  }

  /** `a` is strictly earlier than `b` in the calendar. */
  predicate Before(a: Date, b: Date) {
    a.year < b.year
    || (a.year == b.year && (a.month < b.month || (a.month == b.month && a.day < b.day)))
  }

  /** The academic year for `today`: from April on it is next calendar year, before April this one. */
  function AcademicYearOf(today: Date): (y: int)
    ensures ValidDate(today) ==> !Before(today, Date(y - 1, 4, 1)) && Before(today, Date(y, 4, 1))
  {
    if today.month >= 4 then today.year + 1 else today.year
  }

  /**
    The academic year of a date is the year Y whose period runs from April 1
    of Y - 1 up to, but not including, April 1 of Y; so the rule above picks
    the year of the first April 1 strictly after `today`.
   */
  lemma AcademicYearIsPeriod(today: Date, y: int)
    requires ValidDate(today)
    ensures AcademicYearOf(today) == y
      <==> !Before(today, Date(y - 1, 4, 1)) && Before(today, Date(y, 4, 1))
  {
  }

  /** The boundary of the rule: March 31 still belongs to this year, April 1 already to the next. */
  lemma AcademicYearBoundary(y: int)
    requires 1 <= y <= 9999
    ensures AcademicYearOf(Date(y, 3, 31)) == y
    ensures AcademicYearOf(Date(y, 4, 1)) == y + 1
  {
  }

  const Suffix: string := "年度"

  /** The label `f"{y}年度"`. */
  function YearLabel(y: int): (text: string)
    ensures |text| > |Suffix| && text[|text| - |Suffix|..] == Suffix
  {
    Decimal.IntToDecimal(y) + Suffix
  }

  /** Reads the year back out of a label; `None` for text that is not a year label. */
  function ParseLabel(s: string): (r: Option<int>)
    ensures r.Some? ==> |s| > |Suffix| && s[|s| - |Suffix|..] == Suffix
  {
    if |s| >= |Suffix| && s[|s| - |Suffix|..] == Suffix then
      Decimal.ParseCanonical(s[..|s| - |Suffix|])
    else
      None
  }

  lemma LabelRoundTrip(y: int)
    ensures ParseLabel(YearLabel(y)) == Some(y)
  {
    var text := YearLabel(y);
    assert text[..|text| - |Suffix|] == Decimal.IntToDecimal(y);
    Decimal.ParseOfIntToDecimal(y);
  }

  /** Every string read as a year label is the label of that year. */
  lemma ParsedLabelIsYearLabel(s: string, y: int)
    requires ParseLabel(s) == Some(y)
    ensures YearLabel(y) == s
  {
    Decimal.IntToDecimalOfParse(s[..|s| - |Suffix|], y);
    assert s == s[..|s| - |Suffix|] + s[|s| - |Suffix|..];
  }

  /** Two years never share a label. */
  lemma LabelInjective(a: int, b: int)
    requires YearLabel(a) == YearLabel(b)
    ensures a == b
  {
    LabelRoundTrip(a);
    LabelRoundTrip(b);
  }

  /** The two choices of the year radio button. */
  datatype YearOption = Automatic | Manual

  /**
    The label for the chosen mode. In automatic mode it names the academic
    year of `today`. In manual mode it names `manualYear`, unless that is 0,
    which Python's truth test treats as no year at all: then it is empty.
   */
  function ResolveLabel(option: YearOption, today: Date, manualYear: int): (text: string)
    ensures option == Automatic ==> ParseLabel(text) == Some(AcademicYearOf(today))
    ensures option == Manual && manualYear != 0 ==> ParseLabel(text) == Some(manualYear)
    ensures text == "" <==> option == Manual && manualYear == 0
  {
    if option.Automatic? then
      LabelRoundTrip(AcademicYearOf(today));
      YearLabel(AcademicYearOf(today))
    else if manualYear != 0 then
      LabelRoundTrip(manualYear);
      YearLabel(manualYear)
    else
      ""
  }

  /** The bounds of the year entry field. */
  const MinManualYear := 2000
  const MaxManualYear := 2100

  /** Within the bounds of the entry field the manual label is never empty. */
  lemma ManualLabelNonEmpty(today: Date, manualYear: int)
    requires MinManualYear <= manualYear <= MaxManualYear
    ensures ResolveLabel(Manual, today, manualYear) != ""
    ensures ParseLabel(ResolveLabel(Manual, today, manualYear)) == Some(manualYear)
  {
  }

  /** The label does not depend on the day of the month, only on year and month. */
  lemma AutomaticLabelIgnoresDay(today: Date, day: int, manualYear: int, otherManualYear: int)
    ensures ResolveLabel(Automatic, today, manualYear)
         == ResolveLabel(Automatic, Date(today.year, today.month, day), otherManualYear)
  {
  }

  /** April 1, 2025 is in academic year 2026. */
  lemma AprilFirstExample()
    ensures ResolveLabel(Automatic, Date(2025, 4, 1), 0) == "2026年度"
  {
  }

  /** March 31, 2025 is still in academic year 2025. */
  lemma MarchThirtyFirstExample()
    ensures ResolveLabel(Automatic, Date(2025, 3, 31), 0) == "2025年度"
  {
  }

  /** A manually chosen 2030 gives its label whatever the date. */
  lemma ManualExample(today: Date)
    ensures ResolveLabel(Manual, today, 2030) == "2030年度"
  {
  }
}
