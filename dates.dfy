/** Calendar dates and months. `SimpleDateFormat` and `Calendar` are platform code: a
    parser is an abstract function from the date text to an optional date, and "now" is
    a parameter. Months are numbered 0..11 as in `Calendar.MONTH`. */
module Dates {
  import opened Models

  type Month = m: int | 0 <= m < 12
  type DayOfMonth = d: int | 1 <= d <= 31 witness 1

  datatype Date = Date(year: int, month: Month, day: DayOfMonth)

  /** A calendar month: what `cal.get(Calendar.MONTH)` and `cal.get(Calendar.YEAR)` give. */
  datatype YearMonth = YearMonth(year: int, month: Month)

  /** `Date(0)`: 1 January 1970 (in a time zone at or east of UTC, such as Vietnam's). */
  const Epoch := Date(1970, 0, 1)

  /** The two `dd MMM yyyy` parsers of the reports screen: English first, then Vietnamese. */
  datatype Parsers = Parsers(
    english: string -> Option<Date>,
    vietnamese: string -> Option<Date>)

  /** `ReportsFragment.parseDate`: the English parse, else the Vietnamese one, else the epoch. */
  function ParseDate(p: Parsers, text: string): (d: Date)
    ensures p.english(text).Some? ==> d == p.english(text).value
    ensures p.english(text).None? && p.vietnamese(text).Some? ==> d == p.vietnamese(text).value
    ensures p.english(text).None? && p.vietnamese(text).None? ==> d == Epoch
  {
    match p.english(text)
    case Some(d) => d
    case None => p.vietnamese(text).GetOr(Epoch)
  }

  function MonthOf(d: Date): YearMonth {
    YearMonth(d.year, d.month)
  }

  /** Months counted from year 0; consecutive months have consecutive indexes. */
  function MonthIndex(ym: YearMonth): int {
    ym.year * 12 + ym.month
  }

  function FromMonthIndex(i: int): (ym: YearMonth)
    ensures MonthIndex(ym) == i
  {
    YearMonth(i / 12, i % 12)
  }

  /** The month index determines the month: `MonthIndex` is injective. */
  lemma MonthIndexInjective(a: YearMonth, b: YearMonth)
    requires MonthIndex(a) == MonthIndex(b)
    ensures a == b
  {
  }

  /** `calendar.add(Calendar.MONTH, k)`, on the month part. */
  function AddMonths(ym: YearMonth, k: int): (r: YearMonth)
    ensures MonthIndex(r) == MonthIndex(ym) + k
  {
    FromMonthIndex(MonthIndex(ym) + k)
  }

  /** Subtracting one month wraps January to December of the previous year. */
  lemma PreviousMonthWraps(ym: YearMonth)
    ensures ym.month == 0 ==> AddMonths(ym, -1) == YearMonth(ym.year - 1, 11)
    ensures ym.month != 0 ==> AddMonths(ym, -1) == YearMonth(ym.year, ym.month - 1)
  {
    if ym.month == 0 {
      MonthIndexInjective(AddMonths(ym, -1), YearMonth(ym.year - 1, 11));
    } else {
      MonthIndexInjective(AddMonths(ym, -1), YearMonth(ym.year, ym.month - 1));
    }
  }

  /** Stepping months composes. */
  lemma AddMonthsAdd(ym: YearMonth, j: int, k: int)
    ensures AddMonths(AddMonths(ym, j), k) == AddMonths(ym, j + k)
  {
    MonthIndexInjective(AddMonths(AddMonths(ym, j), k), AddMonths(ym, j + k));
  }

  lemma AddZeroMonths(ym: YearMonth)
    ensures AddMonths(ym, 0) == ym
  {
    MonthIndexInjective(AddMonths(ym, 0), ym);
  }

  /** Day-level order: earlier dates get smaller numbers. */
  function DayNumber(d: Date): int {
    MonthIndex(MonthOf(d)) * 31 + d.day - 1
  }

  /** Chronological order on dates, field by field. */
  predicate Earlier(a: Date, b: Date) {
    a.year < b.year
    || (a.year == b.year && a.month < b.month)
    || (a.year == b.year && a.month == b.month && a.day < b.day)
  }

  lemma DayNumberOrdersDates(a: Date, b: Date)
    ensures Earlier(a, b) <==> DayNumber(a) < DayNumber(b)
  {
    if a.year < b.year {
      assert MonthIndex(MonthOf(a)) + 1 <= MonthIndex(MonthOf(b));
      assert (MonthIndex(MonthOf(a)) + 1) * 31 <= MonthIndex(MonthOf(b)) * 31;
    } else if b.year < a.year {
      assert MonthIndex(MonthOf(b)) + 1 <= MonthIndex(MonthOf(a));
      assert (MonthIndex(MonthOf(b)) + 1) * 31 <= MonthIndex(MonthOf(a)) * 31;
    } else if a.month < b.month {
      assert (MonthIndex(MonthOf(a)) + 1) * 31 <= MonthIndex(MonthOf(b)) * 31;
    } else if b.month < a.month {
      assert (MonthIndex(MonthOf(b)) + 1) * 31 <= MonthIndex(MonthOf(a)) * 31;
    }
  }
}
