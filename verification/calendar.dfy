/**
 The calendar arithmetic of math.go: leap years, day of year, day differences
 between dates, the feed-activity window and the weekday lookup.

 The dates are gtfsparser's `gtfs.Date`, whose year is an int16 and whose month
 and day are int8; the month is 1-based (January is 1). Every index the Go code
 performs that can be out of range is a run-time panic there and `None` here.
 */
module Calendar {
  import opened Wrappers

  type Int8 = x: int | -128 <= x < 128
  type Int16 = x: int | -32768 <= x < 32768

  /** `gtfs.Date`. */
  datatype Date = Date(year: Int16, month: Int8, day: Int8)

  /** int16 arithmetic wraps around modulo 2^16 in Go. */
  function Wrap16(x: int): (r: Int16)
    ensures -32768 <= x < 32768 ==> r == x
    ensures (x - r) % 65536 == 0
  {
    (x + 32768) % 65536 - 32768
  }

  /**
   Go's integer `/` by a positive divisor: the quotient truncated toward zero.
   The contract is the division identity with a remainder smaller than the
   divisor that carries the sign of the dividend, which fixes the quotient.
   */
  function GoDiv(a: int, b: int): (q: int)
    requires b > 0
    ensures 0 <= a ==> 0 <= a - q * b < b
    ensures a < 0 ==> -b < a - q * b <= 0
  {
    if a < 0 then
      var m := (-a) / b;
      assert -a == m * b + (-a) % b;
      -m
    else
      a / b
  }

  /** Truncation is odd: it commutes with negation, unlike Dafny's Euclidean `/`. */
  lemma GoDivNegate(a: int, b: int)
    requires b > 0
    ensures GoDiv(-a, b) == -GoDiv(a, b)
  {
    if a < 0 {
      assert GoDiv(a, b) == -((-a) / b);
    } else if a > 0 {
      assert GoDiv(-a, b) == -(a / b);
    } else {
      assert GoDiv(0, b) == 0;
    }
  }

  /** For a negative dividend the two divisions disagree: -1 / 4 is 0 in Go and -1 in Dafny. */
  lemma GoDivDiffersFromEuclidean()
    ensures GoDiv(-1, 4) == 0
    ensures -1 / 4 == -1
  {
  }

  /**
   `isLeapYear`: divisible by 4 and not by 100. That is the Gregorian rule
   with the leap years divisible by 400 dropped.
   */
  function IsLeapYear(year: int): (r: bool)
    ensures r <==> GregorianLeapYear(year) && year % 400 != 0
  {
    CenturyOfFourHundred(year);
    year % 4 == 0 && year % 100 != 0
  }

  /** The Gregorian rule, with the 400-year exception. */
  predicate GregorianLeapYear(year: int)
  {
    year % 4 == 0 && (year % 100 != 0 || year % 400 == 0)
  }

  lemma CenturyOfFourHundred(year: int)
    ensures year % 400 == 0 ==> year % 100 == 0
  {
    if year % 400 == 0 {
      var k := year / 400;
      assert year == 100 * (4 * k);
    }
  }

  /** 2000 is not a leap year by the source's rule, though it is a Gregorian one. */
  lemma LeapYearMissesFourHundredRule()
    ensures !IsLeapYear(2000) && GregorianLeapYear(2000)
    ensures IsLeapYear(2024) && !IsLeapYear(1900)
  {
  }

  /** Days in the 0-based month k of a common year (January is 0). */
  function CommonMonthLength(k: nat): nat
    requires k < 12
  {
    if k == 1 then 28
    else if k == 3 || k == 5 || k == 8 || k == 10 then 30
    else 31
  }

  /** Days in the first k months of a common year. */
  function CommonDaysBefore(k: nat): nat
    requires k <= 12
  {
    if k == 0 then 0 else CommonDaysBefore(k - 1) + CommonMonthLength(k - 1)
  }

  /** The twelve-entry table of `DayOfYear`, as written in the source. */
  const DaysBeforeMonth: seq<int> := [0, 31, 59, 90, 120, 151, 181, 212, 242, 273, 304, 334]

  /**
   Entry k of the table is the number of days in the first k months of a common
   year, except entry 8, which is one short.
   */
  lemma DaysBeforeMonthIsCumulative(k: nat)
    requires k < 12
    ensures DaysBeforeMonth[k] == CommonDaysBefore(k) - (if k == 8 then 1 else 0)
  {
  }

  /**
   January to August of a common year hold 243 days; the table says 242, so
   `DayOfYear` gives the last day of July and the first of August the same number.
   */
  lemma DaysBeforeMonthTypo()
    ensures DaysBeforeMonth[8] == 242
    ensures CommonDaysBefore(8) == 243
    ensures DayOfYear(Date(2023, 7, 31)) == DayOfYear(Date(2023, 8, 1)) == Some(243)
  {
    DaysBeforeMonthIsCumulative(8);
  }

  /**
   `DayOfYear`: the table entry at the month, plus the day, plus one in a leap
   year from month 3 on. The table is indexed by the 1-based month directly, so
   only months 0 to 11 are in bounds and December panics; in terms of whole
   months the entry counts the days up to the END of the given month, less one
   for month 8.
   */
  function DayOfYear(date: Date): (r: Option<int>)
    ensures r.Some? <==> 0 <= date.month < 12
    ensures r.Some? ==> r.value == CommonDaysBefore(date.month) + date.day
                                   + (if date.month >= 3 && IsLeapYear(date.year) then 1 else 0)
                                   - (if date.month == 8 then 1 else 0)
  {
    if 0 <= date.month < 12 then
      DaysBeforeMonthIsCumulative(date.month);
      var leap := if date.month >= 3 && IsLeapYear(date.year) then 1 else 0;
      Some(DaysBeforeMonth[date.month] + date.day + leap)
    else
      None
  }

  /** December (month 12) is past the end of the table. */
  lemma DecemberIsOutOfBounds(year: Int16, day: Int8)
    ensures DayOfYear(Date(year, 12, day)) == None
  {
  }

  /**
   Because the table is 0-based and the month 1-based, January 1 is day 32, the
   count runs backwards across the end of January and stands still across the
   end of March.
   */
  lemma DayOfYearMonthShift()
    ensures DayOfYear(Date(2023, 1, 1)) == Some(32)
    ensures DayOfYear(Date(2023, 1, 31)).value > DayOfYear(Date(2023, 2, 1)).value
    ensures DayOfYear(Date(2023, 3, 31)) == DayOfYear(Date(2023, 4, 1))
  {
  }

  /** Days in the 1-based month m of the given year, by the source's leap rule. */
  function MonthLength(m: int, year: int): nat
    requires 1 <= m <= 12
  {
    CommonMonthLength(m - 1) + (if m == 2 && IsLeapYear(year) then 1 else 0)
  }

  /** A real calendar day: a 1-based month and a day within that month's length. */
  predicate ValidDate(date: Date)
  {
    1 <= date.month <= 12 && 1 <= date.day <= MonthLength(date.month, date.year)
  }

  /** The day after a valid date, within the same year; None after December 31. */
  function NextDay(date: Date): Option<Date>
    requires ValidDate(date)
  {
    if date.day < MonthLength(date.month, date.year) then Some(date.(day := date.day + 1))
    else if date.month < 12 then Some(date.(month := date.month + 1, day := 1))
    else None
  }

  /**
   The day of year the table evidently means: the entry of the month BEFORE the
   1-based month, with the August entry 243, so that every month 1 to 12 is in
   bounds.
   */
  function DayOfYearIntended(date: Date): (r: Option<int>)
    ensures r.Some? <==> 1 <= date.month <= 12
  {
    if 1 <= date.month <= 12 then
      var leap := if date.month >= 3 && IsLeapYear(date.year) then 1 else 0;
      Some(CommonDaysBefore(date.month - 1) + date.day + leap)
    else
      None
  }

  /** The intended day of year of January 1 is 1. */
  lemma DayOfYearIntendedStartsAtOne(year: Int16)
    ensures DayOfYearIntended(Date(year, 1, 1)) == Some(1)
  {
  }

  /** Every following day of the same year adds one to the intended day of year. */
  lemma DayOfYearIntendedCountsDays(date: Date)
    requires ValidDate(date) && NextDay(date).Some?
    ensures DayOfYearIntended(NextDay(date).value).value == DayOfYearIntended(date).value + 1
  {
    if date.day == MonthLength(date.month, date.year) {
      assert CommonDaysBefore(date.month) == CommonDaysBefore(date.month - 1) + CommonMonthLength(date.month - 1);
    }
  }

  /** The last day of the year is December 31, day 365, or 366 in a leap year. */
  lemma DayOfYearIntendedEndsYear(date: Date)
    requires ValidDate(date) && NextDay(date).None?
    ensures date.month == 12 && date.day == 31
    ensures DayOfYearIntended(date).value == 365 + (if IsLeapYear(date.year) then 1 else 0)
  {
    assert CommonDaysBefore(11) == 334 by {
      DaysBeforeMonthIsCumulative(11);
    }
  }

  /**
   Where both are defined, the table lookup as written runs one whole month
   ahead of the intended day of year, and one day less than that in August.
   */
  lemma DayOfYearAgainstIntended(date: Date)
    requires 1 <= date.month < 12
    ensures DayOfYear(date).value == DayOfYearIntended(date).value + CommonMonthLength(date.month - 1)
                                     - (if date.month == 8 then 1 else 0)
  {
  }

  /**
   The arithmetic of `daysSince` once both days of year are known: their
   difference, plus 365 days per year of difference and one more per four
   years, the year difference taken in int16 and divided by 4 with Go's
   truncation.
   */
  function DaysApart(startDay: int, startYear: Int16, endDay: int, endYear: Int16): int
  {
    var yearsDiff := Wrap16(endYear - startYear);
    (endDay - startDay) + yearsDiff * 365 + GoDiv(yearsDiff, 4)
  }

  /**
   `daysSince`, as written: both days of year come from the table lookup
   `DayOfYear`, so a month outside 0 to 11 in either date has no answer.
   */
  function DaysSince(start: Date, end: Date): (r: Option<int>)
    ensures r.Some? <==> 0 <= start.month < 12 && 0 <= end.month < 12
    ensures r.Some? ==> r.value == DaysApart(DayOfYear(start).value, start.year, DayOfYear(end).value, end.year)
  {
    match (DayOfYear(start), DayOfYear(end))
    case (Some(s), Some(e)) => Some(DaysApart(s, start.year, e, end.year))
    case _ => None
  }

  /** A date is zero days from itself. */
  lemma DaysSinceSelf(d: Date)
    requires 0 <= d.month < 12
    ensures DaysSince(d, d) == Some(0)
  {
  }

  /** Within one year the difference is the difference of the days of year. */
  lemma DaysSinceSameYear(start: Date, end: Date)
    requires start.year == end.year
    requires 0 <= start.month < 12 && 0 <= end.month < 12
    ensures DaysSince(start, end) == Some(DayOfYear(end).value - DayOfYear(start).value)
  {
    assert Wrap16(end.year - start.year) == 0;
  }

  /**
   Swapping the dates negates the difference, as long as the year difference
   fits an int16; the truncating division is what makes this hold.
   */
  lemma DaysSinceAntisymmetric(a: Date, b: Date)
    requires 0 <= a.month < 12 && 0 <= b.month < 12
    requires -32768 < b.year - a.year < 32768
    ensures DaysSince(a, b).value == -DaysSince(b, a).value
  {
    GoDivNegate(b.year - a.year, 4);
  }

  /**
   With the end a year before the start, the four-year correction is 0 in Go
   where Dafny's division would give -1.
   */
  lemma DaysSinceTruncatesTowardZero()
    ensures DaysSince(Date(2021, 2, 1), Date(2020, 2, 1)) == Some(-365)
    ensures -365 + (-1) / 4 == -366
  {
    var s, e := Date(2021, 2, 1), Date(2020, 2, 1);
    assert DayOfYear(s) == DayOfYear(e);
    assert Wrap16(e.year - s.year) == -1;
    GoDivDiffersFromEuclidean();
  }

  /**
   As written, the day after January 31 is two days BEFORE it, and the day
   after July 31 is no day at all after it.
   */
  lemma DaysSinceAcrossMonthEnds()
    ensures DaysSince(Date(2023, 1, 31), Date(2023, 2, 1)) == Some(-2)
    ensures DaysSince(Date(2023, 7, 31), Date(2023, 8, 1)) == Some(0)
  {
    DaysSinceSameYear(Date(2023, 1, 31), Date(2023, 2, 1));
    DaysSinceSameYear(Date(2023, 7, 31), Date(2023, 8, 1));
    DaysBeforeMonthTypo();
  }

  /**
   `inDateRange`, as written: the feed is active when fewer days separate the
   start from today than the start from the end. Both differences are computed,
   so a month outside 0 to 11 in any of the three dates has no answer.
   */
  function InDateRange(start: Date, today: Date, end: Date): (r: Option<bool>)
    ensures r.Some? <==> 0 <= start.month < 12 && 0 <= today.month < 12 && 0 <= end.month < 12
    ensures r.Some? ==> (r.value <==> DaysSince(start, today).value < DaysSince(start, end).value)
  {
    match (DaysSince(start, today), DaysSince(start, end))
    case (Some(elapsed), Some(span)) => Some(elapsed < span)
    case _ => None
  }

  /** The end date itself is outside the range: the comparison is strict. */
  lemma InDateRangeExcludesEnd(start: Date, end: Date)
    requires 0 <= start.month < 12 && 0 <= end.month < 12
    ensures InDateRange(start, end, end) == Some(false)
  {
  }

  /**
   Within one year the start plays no part: a date is active exactly when its
   day of year is before the end's, so a date before the start counts as active.
   */
  lemma InDateRangeSameYear(start: Date, today: Date, end: Date)
    requires start.year == today.year == end.year
    requires 0 <= start.month < 12 && 0 <= today.month < 12 && 0 <= end.month < 12
    ensures InDateRange(start, today, end) == Some(DayOfYear(today).value < DayOfYear(end).value)
  {
    DaysSinceSameYear(start, today);
    DaysSinceSameYear(start, end);
  }

  /** A feed running June to September is reported active in January of the same year. */
  lemma InDateRangeHasNoLowerBound()
    ensures InDateRange(Date(2024, 6, 10), Date(2024, 1, 5), Date(2024, 9, 1)) == Some(true)
  {
    InDateRangeSameYear(Date(2024, 6, 10), Date(2024, 1, 5), Date(2024, 9, 1));
    DaysBeforeMonthIsCumulative(9);
  }

  /**
   As written, a feed ending on January 31 is still reported active on
   February 1, and any December date makes the check panic.
   */
  lemma InDateRangeAfterEnd()
    ensures InDateRange(Date(2023, 1, 1), Date(2023, 2, 1), Date(2023, 1, 31)) == Some(true)
    ensures InDateRange(Date(2023, 1, 1), Date(2023, 6, 1), Date(2023, 12, 31)) == None
  {
    InDateRangeSameYear(Date(2023, 1, 1), Date(2023, 2, 1), Date(2023, 1, 31));
  }

  /** `daysSince` over the corrected day of year: every month 1 to 12 is accepted. */
  function DaysSinceIntended(start: Date, end: Date): (r: Option<int>)
    ensures r.Some? <==> 1 <= start.month <= 12 && 1 <= end.month <= 12
    ensures r.Some? ==>
      r.value == DaysApart(DayOfYearIntended(start).value, start.year, DayOfYearIntended(end).value, end.year)
  {
    match (DayOfYearIntended(start), DayOfYearIntended(end))
    case (Some(s), Some(e)) => Some(DaysApart(s, start.year, e, end.year))
    case _ => None
  }

  /** With the corrected day of year, the next day of the same year is one day later. */
  lemma DaysSinceIntendedNextDay(date: Date)
    requires ValidDate(date) && NextDay(date).Some?
    ensures DaysSinceIntended(date, NextDay(date).value) == Some(1)
  {
    DayOfYearIntendedCountsDays(date);
    assert Wrap16(NextDay(date).value.year - date.year) == 0;
  }

  /** `inDateRange` over the corrected day differences. */
  function InDateRangeIntended(start: Date, today: Date, end: Date): (r: Option<bool>)
    ensures r.Some? <==> 1 <= start.month <= 12 && 1 <= today.month <= 12 && 1 <= end.month <= 12
    ensures r.Some? ==> (r.value <==> DaysSinceIntended(start, today).value < DaysSinceIntended(start, end).value)
  {
    match (DaysSinceIntended(start, today), DaysSinceIntended(start, end))
    case (Some(elapsed), Some(span)) => Some(elapsed < span)
    case _ => None
  }

  /** With the corrected day of year, the day after the end is outside the range. */
  lemma InDateRangeIntendedStopsAtEnd(start: Date, end: Date)
    requires ValidDate(end) && NextDay(end).Some? && start.year == end.year && 1 <= start.month <= 12
    ensures InDateRangeIntended(start, NextDay(end).value, end) == Some(false)
  {
    DayOfYearIntendedCountsDays(end);
    assert Wrap16(end.year - start.year) == 0;
  }

  /** `inWeekdayRange`: the entry of the seven-day table at the weekday; other indices panic. */
  function InWeekdayRange(weekday: int, days: seq<bool>): (r: Option<bool>)
    requires |days| == 7
    ensures r.Some? <==> 0 <= weekday < 7
    ensures r.Some? ==> (r.value <==> days[weekday])
  {
    if 0 <= weekday < 7 then Some(days[weekday]) else None
  }

  /** The table built from a set of service weekdays answers membership in that set. */
  lemma InWeekdayRangeIsMembership(weekday: int, service: set<int>)
    requires 0 <= weekday < 7
    ensures InWeekdayRange(weekday, seq(7, k => k in service)) == Some(weekday in service)
  {
  }
}
