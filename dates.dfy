/**
 * The part of java.time.LocalDate the service uses: the proleptic ISO calendar, isBefore,
 * minusDays / minusWeeks / minusMonths / minusYears, and the lookback start date derived
 * from a period keyword.
 */
module Dates {
  import opened Results

  datatype Ymd = Ymd(year: int, month: int, day: int)

  predicate IsLeapYear(y: int) {
    y % 4 == 0 && (y % 100 != 0 || y % 400 == 0)
  }

  function LengthOfMonth(y: int, m: int): (n: int)
    requires 1 <= m <= 12
    ensures 28 <= n <= 31
  {
    if m == 2 then (if IsLeapYear(y) then 29 else 28)
    else if m == 4 || m == 6 || m == 9 || m == 11 then 30
    else 31
  }

  predicate ValidYmd(d: Ymd) {
    1 <= d.month <= 12 && 1 <= d.day <= LengthOfMonth(d.year, d.month)
  }

  /** A LocalDate: a year, month and day that exist in the calendar. */
  type Date = d: Ymd | ValidYmd(d) witness Ymd(1900, 1, 1)

  /** LocalDate.of(1900, 1, 1) */
  const Date1900: Date := Ymd(1900, 1, 1)

  /** LocalDate.isBefore: year, then month, then day. */
  predicate Before(a: Date, b: Date) {
    a.year < b.year
    || (a.year == b.year && a.month < b.month)
    || (a.year == b.year && a.month == b.month && a.day < b.day)
  }

  /** minusDays(1) */
  function PrevDay(d: Date): (r: Date)
    ensures Before(r, d)
  {
    if d.day > 1 then Ymd(d.year, d.month, d.day - 1)
    else if d.month > 1 then Ymd(d.year, d.month - 1, LengthOfMonth(d.year, d.month - 1))
    else Ymd(d.year - 1, 12, 31)
  }

  /** minusDays(n) */
  function MinusDays(d: Date, n: nat): Date
    decreases n
  {
    if n == 0 then d else MinusDays(PrevDay(d), n - 1)
  }

  /** minusWeeks(n) */
  function MinusWeeks(d: Date, n: nat): Date {
    MinusDays(d, 7 * n)
  }

  function Min(a: int, b: int): int {
    if a < b then a else b
  }

  /** Months since year 0 (January of year 0 is month 0). */
  function MonthIndex(d: Ymd): int {
    d.year * 12 + (d.month - 1)
  }

  /** minusMonths(n): the same day n months earlier, clamped to the length of that month. */
  function MinusMonths(d: Date, n: nat): (r: Date)
    ensures MonthIndex(r) == MonthIndex(d) - n
    ensures r.day <= d.day
    ensures d.day <= LengthOfMonth(r.year, r.month) ==> r.day == d.day
    ensures LengthOfMonth(r.year, r.month) < d.day ==> r.day == LengthOfMonth(r.year, r.month)
  {
    var total := MonthIndex(d) - n;
    var y := total / 12;
    var m := total % 12 + 1;
    Ymd(y, m, Min(d.day, LengthOfMonth(y, m)))
  }

  /** minusYears(n): the same month and day n years earlier, 29 February becoming the 28th. */
  function MinusYears(d: Date, n: nat): (r: Date)
    ensures MonthIndex(r) == MonthIndex(d) - 12 * n
    ensures r.day <= d.day
    ensures d.day <= LengthOfMonth(r.year, r.month) ==> r.day == d.day
    ensures LengthOfMonth(r.year, r.month) < d.day ==> r.day == LengthOfMonth(r.year, r.month)
  {
    Ymd(d.year - n, d.month, Min(d.day, LengthOfMonth(d.year - n, d.month)))
  }

  // ---- Day counting, an independent reference for the calendar arithmetic ----

  function DaysInYear(y: int): int {
    if IsLeapYear(y) then 366 else 365
  }

  /** Days from 1 January of year y to the first of month m (m == 13 is the next 1 January). */
  function DaysBeforeMonth(y: int, m: int): (n: int)
    requires 1 <= m <= 13
    ensures n >= 0
  {
    if m == 1 then 0 else DaysBeforeMonth(y, m - 1) + LengthOfMonth(y, m - 1)
  }

  /** Days from 1 January of year 0 to 1 January of year y (negative before year 0). */
  function DaysBeforeYear(y: int): int {
    365 * y + (y + 3) / 4 - (y + 99) / 100 + (y + 399) / 400
  }

  /** Days since 1 January of year 0. */
  function Ordinal(d: Date): int {
    DaysBeforeYear(d.year) + DaysBeforeMonth(d.year, d.month) + d.day - 1
  }

  /* One more year passes one more multiple of 4, 100 and 400 exactly when y is one. */
  lemma MultiplesOf4(y: int)
    ensures (y + 4) / 4 == (y + 3) / 4 + (if y % 4 == 0 then 1 else 0)
  {
  }

  lemma MultiplesOf100(y: int)
    ensures (y + 100) / 100 == (y + 99) / 100 + (if y % 100 == 0 then 1 else 0)
  {
  }

  lemma MultiplesOf400(y: int)
    ensures (y + 400) / 400 == (y + 399) / 400 + (if y % 400 == 0 then 1 else 0)
  {
  }

  /** Counting 1 January of the next year adds one year of 365 days and one leap day when y is leap. */
  lemma NextYearStart(y: int)
    ensures DaysBeforeYear(y + 1) == DaysBeforeYear(y) + DaysInYear(y)
  {
    MultiplesOf4(y);
    MultiplesOf100(y);
    MultiplesOf400(y);
    var leap := (if y % 4 == 0 then 1 else 0) - (if y % 100 == 0 then 1 else 0) + (if y % 400 == 0 then 1 else 0);
    assert DaysBeforeYear(y + 1) == DaysBeforeYear(y) + 365 + leap;
    DivisorsOfCenturies(y);
  }

  lemma DivisorsOfCenturies(y: int)
    ensures y % 400 == 0 ==> y % 100 == 0
    ensures y % 100 == 0 ==> y % 4 == 0
  {
    if y % 400 == 0 {
      FourCenturies(y);
    }
    if y % 100 == 0 {
      Century(y);
    }
  }

  lemma FourCenturies(y: int)
    requires y % 400 == 0
    ensures y % 100 == 0
  {
    var k := y / 400;
    assert y == 100 * (4 * k);
  }

  lemma Century(y: int)
    requires y % 100 == 0
    ensures y % 4 == 0
  {
    var k := y / 100;
    assert y == 4 * (25 * k);
  }

  /** The twelve months add up to the year. */
  lemma MonthsMakeYear(y: int)
    ensures DaysBeforeMonth(y, 13) == DaysInYear(y)
  {
    var feb := LengthOfMonth(y, 2);
    assert DaysBeforeMonth(y, 2) == 31;
    assert DaysBeforeMonth(y, 3) == 31 + feb;
    assert DaysBeforeMonth(y, 4) == 62 + feb;
    assert DaysBeforeMonth(y, 5) == 92 + feb;
    assert DaysBeforeMonth(y, 6) == 123 + feb;
    assert DaysBeforeMonth(y, 7) == 153 + feb;
    assert DaysBeforeMonth(y, 8) == 184 + feb;
    assert DaysBeforeMonth(y, 9) == 215 + feb;
    assert DaysBeforeMonth(y, 10) == 245 + feb;
    assert DaysBeforeMonth(y, 11) == 276 + feb;
    assert DaysBeforeMonth(y, 12) == 306 + feb;
  }

  lemma YearLength(y: int)
    ensures DaysBeforeYear(y + 1) == DaysBeforeYear(y) + DaysInYear(y)
    ensures DaysBeforeMonth(y, 13) == DaysInYear(y)
  {
    NextYearStart(y);
    MonthsMakeYear(y);
  }

  lemma {:induction false} MonthsIncrease(y: int, m1: int, m2: int)
    requires 1 <= m1 < m2 <= 13
    ensures DaysBeforeMonth(y, m1) + LengthOfMonth(y, m1) <= DaysBeforeMonth(y, m2)
    decreases m2 - m1
  {
    if m1 + 1 < m2 {
      MonthsIncrease(y, m1, m2 - 1);
    }
  }

  /** Each date's day count lies inside its own year's range. */
  lemma OrdinalInYear(d: Date)
    ensures DaysBeforeYear(d.year) <= Ordinal(d) < DaysBeforeYear(d.year + 1)
  {
    YearLength(d.year);
    MonthsIncrease(d.year, d.month, 13);
  }

  /** minusDays(1) moves back exactly one day. */
  lemma OrdinalPrevDay(d: Date)
    ensures Ordinal(PrevDay(d)) == Ordinal(d) - 1
  {
    if d.day == 1 && d.month == 1 {
      YearLength(d.year - 1);
    }
  }

  /** minusDays(n) moves back exactly n days. */
  lemma {:induction false} OrdinalMinusDays(d: Date, n: nat)
    ensures Ordinal(MinusDays(d, n)) == Ordinal(d) - n
    decreases n
  {
    if n > 0 {
      OrdinalPrevDay(d);
      OrdinalMinusDays(PrevDay(d), n - 1);
    }
  }

  lemma {:induction false} YearsIncrease(y1: int, y2: int)
    requires y1 < y2
    ensures DaysBeforeYear(y1 + 1) <= DaysBeforeYear(y2)
    decreases y2 - y1
  {
    if y1 + 1 < y2 {
      YearsIncrease(y1, y2 - 1);
      YearLength(y2 - 1);
    }
  }

  /** isBefore agrees with counting days: the calendar order is the order of day counts. */
  lemma BeforeIsFewerDays(a: Date, b: Date)
    ensures Before(a, b) <==> Ordinal(a) < Ordinal(b)
  {
    OrdinalInYear(a);
    OrdinalInYear(b);
    if a.year < b.year {
      YearsIncrease(a.year, b.year);
    } else if b.year < a.year {
      YearsIncrease(b.year, a.year);
    } else if a.month < b.month {
      MonthsIncrease(a.year, a.month, b.month);
    } else if b.month < a.month {
      MonthsIncrease(a.year, b.month, a.month);
    }
  }

  // ---- Lookback periods ----

  datatype Period = Daily | Weekly | Monthly | Quarterly | Yearly

  /** The switch on the period keyword: exact, case-sensitive match. */
  function ParsePeriod(s: string): Option<Period> {
    if s == "DAILY" then Some(Daily)
    else if s == "WEEKLY" then Some(Weekly)
    else if s == "MONTHLY" then Some(Monthly)
    else if s == "QUARTERLY" then Some(Quarterly)
    else if s == "YEARLY" then Some(Yearly)
    else None
  }

  function PeriodName(p: Period): string {
    match p
    case Daily => "DAILY"
    case Weekly => "WEEKLY"
    case Monthly => "MONTHLY"
    case Quarterly => "QUARTERLY"
    case Yearly => "YEARLY"
  }

  /** The five keywords are the only accepted strings, and each names its own period. */
  lemma ParsePeriodExact(s: string, p: Period)
    ensures ParsePeriod(PeriodName(p)) == Some(p)
    ensures ParsePeriod(s) == Some(p) <==> s == PeriodName(p)
  {
  }

  function LookbackStart(p: Period, today: Date): Date {
    match p
    case Daily => MinusDays(today, 1)
    case Weekly => MinusWeeks(today, 1)
    case Monthly => MinusMonths(today, 1)
    case Quarterly => MinusMonths(today, 3)
    case Yearly => MinusYears(today, 1)
  }

  /** calculateStartDate(periodType) with LocalDate.now() given as `today`. */
  function CalculateStartDate(periodType: string, today: Date): (r: Result<Date>)
    ensures r.Err? <==> ParsePeriod(periodType).None?
    ensures r.Err? ==> r.error == UnexpectedPeriod
  {
    match ParsePeriod(periodType)
    case Some(p) => Ok(LookbackStart(p, today))
    case None => Err(UnexpectedPeriod)
  }

  /** Every lookback start lies strictly before today, by the number of days the period names. */
  lemma {:induction false} LookbackBeforeToday(p: Period, today: Date)
    ensures Before(LookbackStart(p, today), today)
    ensures p == Daily ==> Ordinal(LookbackStart(p, today)) == Ordinal(today) - 1
    ensures p == Weekly ==> Ordinal(LookbackStart(p, today)) == Ordinal(today) - 7
  {
    var s := LookbackStart(p, today);
    match p
    case Daily =>
      OrdinalMinusDays(today, 1);
      BeforeIsFewerDays(s, today);
    case Weekly =>
      OrdinalMinusDays(today, 7);
      BeforeIsFewerDays(s, today);
    case Monthly =>
    case Quarterly =>
    case Yearly =>
  }

  lemma MonthIndexBefore(a: Date, b: Date)
    requires MonthIndex(a) < MonthIndex(b)
    ensures Before(a, b)
  {
  }

  /** One month back is at least 28 days back. */
  lemma MonthBackAtLeast28Days(d: Date)
    ensures Ordinal(MinusMonths(d, 1)) <= Ordinal(d) - 28
  {
    var r := MinusMonths(d, 1);
    if d.month == 1 {
      YearLength(d.year - 1);
      assert r == Ymd(d.year - 1, 12, r.day);
    } else {
      assert r == Ymd(d.year, d.month - 1, r.day);
    }
  }

  /** The five lookback windows are nested: each longer period starts strictly earlier. */
  lemma {:induction false} LookbackWindowsNested(today: Date)
    ensures Before(LookbackStart(Weekly, today), LookbackStart(Daily, today))
    ensures Before(LookbackStart(Monthly, today), LookbackStart(Weekly, today))
    ensures Before(LookbackStart(Quarterly, today), LookbackStart(Monthly, today))
    ensures Before(LookbackStart(Yearly, today), LookbackStart(Quarterly, today))
  {
    LookbackBeforeToday(Daily, today);
    LookbackBeforeToday(Weekly, today);
    BeforeIsFewerDays(LookbackStart(Weekly, today), LookbackStart(Daily, today));
    MonthBackAtLeast28Days(today);
    BeforeIsFewerDays(LookbackStart(Monthly, today), LookbackStart(Weekly, today));
    MonthIndexBefore(LookbackStart(Quarterly, today), LookbackStart(Monthly, today));
    MonthIndexBefore(LookbackStart(Yearly, today), LookbackStart(Quarterly, today));
  }
}
