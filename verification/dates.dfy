/** Calendar dates as the application stores them: `YYYY-MM-DD` strings.
    A date is modelled as its three numeric fields; `ToIso` is the string the
    source keeps, and `IsoOrderIsChronological` shows that comparing those
    strings (App.tsx compares them with `<`) agrees with comparing the dates
    chronologically (App.tsx and HistoryAnalytics.tsx compare `Date` values). */
module Dates {
  import opened Common

  /** A day of the proleptic Gregorian calendar that JS `Date` reads, with a
      four-digit year. */
  predicate ValidFields(year: int, month: int, day: int) {
    1000 <= year <= 9999 && 1 <= month <= 12 && 1 <= day <= DaysInMonth(year, month)
  }

  predicate LeapYear(year: int) {
    year % 4 == 0 && (year % 100 != 0 || year % 400 == 0)
  }

  function DaysInMonth(year: int, month: int): (n: int)
    ensures 28 <= n <= 31
  {
    if month == 2 then (if LeapYear(year) then 29 else 28)
    else if month == 4 || month == 6 || month == 9 || month == 11 then 30
    else 31
  }

  datatype Date = Date(year: int, month: int, day: int)

  /** A well-formed `YYYY-MM-DD` date. */
  type IsoDate = d: Date | ValidFields(d.year, d.month, d.day) witness Date(2000, 1, 1)

  /** Strictly earlier in the calendar. */
  predicate Before(a: Date, b: Date) {
    a.year < b.year
    || (a.year == b.year && a.month < b.month)
    || (a.year == b.year && a.month == b.month && a.day < b.day)
  }

  predicate OnOrBefore(a: Date, b: Date) {
    Before(a, b) || a == b
  }

  /** A number that orders dates chronologically (months and days never
      overflow into the next field because of the bounds of `IsoDate`). */
  function DayKey(d: Date): int {
    (d.year * 13 + d.month) * 32 + d.day
  }

  /** Comparing day keys is comparing the dates as times, as `getTime()` does. */
  lemma DayKeyOrder(a: IsoDate, b: IsoDate)
    ensures Before(a, b) <==> DayKey(a) < DayKey(b)
    ensures a == b <==> DayKey(a) == DayKey(b)
    ensures DayKey(a) < DayKey(b) <==> TimeOf(a) < TimeOf(b)
    ensures DayKey(a) == DayKey(b) <==> TimeOf(a) == TimeOf(b)
  {
    BeforeIsEarlierTime(a, b);
  }

  // ---------------------------------------------------------------------------
  // Dates as times

  /** Days in the months of `year` before `month` (`month` 1 to 13). */
  function DaysBeforeMonth(year: int, month: int): nat
    decreases month
  {
    if month <= 1 then 0 else DaysBeforeMonth(year, month - 1) + DaysInMonth(year, month - 1)
  }

  function YearLength(year: int): nat {
    if LeapYear(year) then 366 else 365
  }

  /** Days in the years from 1000 up to, not including, `year`. */
  function DaysBeforeYear(year: int): nat
    decreases year
  {
    if year <= 1000 then 0 else DaysBeforeYear(year - 1) + YearLength(year - 1)
  }

  /** Days since 1000-01-01. */
  function DayNumber(d: IsoDate): nat {
    DaysBeforeYear(d.year) + DaysBeforeMonth(d.year, d.month) + d.day - 1
  }

  /** `Date.UTC(1000, 0, 1)`: the time of 1000-01-01, 354285 days before 1970-01-01. */
  const Year1000Time := -354285 * 86400000

  /** `new Date(iso).getTime()`: a date-only ISO string is read as midnight UTC,
      counted in milliseconds from 1970-01-01. */
  function TimeOf(d: IsoDate): int {
    Year1000Time + DayNumber(d) * 86400000
  }

  lemma {:induction false} MonthsGrow(year: int, m1: int, m2: int)
    requires 1 <= m1 < m2 <= 13
    ensures DaysBeforeMonth(year, m1) + DaysInMonth(year, m1) <= DaysBeforeMonth(year, m2)
    decreases m2 - m1
  {
    if m2 > m1 + 1 {
      MonthsGrow(year, m1, m2 - 1);
    }
  }

  /** The twelve months add up to the year. */
  lemma MonthsMakeYear(year: int)
    ensures DaysBeforeMonth(year, 13) == YearLength(year)
  {
    assert DaysBeforeMonth(year, 2) == 31;
    assert DaysBeforeMonth(year, 7) == DaysBeforeMonth(year, 3) + 122;
    assert DaysBeforeMonth(year, 13) == DaysBeforeMonth(year, 7) + 184;
  }

  lemma {:induction false} YearsGrow(y1: int, y2: int)
    requires 1000 <= y1 < y2
    ensures DaysBeforeYear(y1) + YearLength(y1) <= DaysBeforeYear(y2)
    decreases y2 - y1
  {
    if y2 > y1 + 1 {
      YearsGrow(y1, y2 - 1);
    }
  }

  /** A date's day number lies inside its year. */
  lemma DayWithinYear(d: IsoDate)
    ensures DayNumber(d) < DaysBeforeYear(d.year) + YearLength(d.year)
  {
    MonthsMakeYear(d.year);
    if d.month < 12 {
      MonthsGrow(d.year, d.month, 13);
    }
  }

  /** Calendar order is the order of the dates' times. */
  lemma {:induction false} BeforeIsEarlierTime(a: IsoDate, b: IsoDate)
    ensures Before(a, b) <==> TimeOf(a) < TimeOf(b)
    ensures a == b <==> TimeOf(a) == TimeOf(b)
  {
    EarlierDayNumber(a, b);
    EarlierDayNumber(b, a);
  }

  lemma EarlierDayNumber(a: IsoDate, b: IsoDate)
    ensures Before(a, b) ==> DayNumber(a) < DayNumber(b)
  {
    if a.year < b.year {
      DayWithinYear(a);
      YearsGrow(a.year, b.year);
    } else if a.year == b.year && a.month < b.month {
      MonthsGrow(a.year, a.month, b.month);
    }
  }

  /** The stored string form. */
  function ToIso(d: IsoDate): (s: string)
    ensures |s| == 10 && s[4] == '-' && s[7] == '-'
  {
    Pad(d.year, 4) + "-" + Pad(d.month, 2) + "-" + Pad(d.day, 2)
  }

  /** The first day of the date's month: the key of the monthly grouping. */
  function MonthKey(d: IsoDate): (k: IsoDate)
    ensures k.year == d.year && k.month == d.month && k.day == 1
    ensures OnOrBefore(k, d)
  {
    Date(d.year, d.month, 1)
  }

  lemma BeforeIsStrictOrder(a: Date, b: Date, c: Date)
    ensures !Before(a, a)
    ensures Before(a, b) ==> !Before(b, a)
    ensures Before(a, b) && Before(b, c) ==> Before(a, c)
    ensures a == b || Before(a, b) || Before(b, a)
  {
  }

  /** Lexicographic order on `x1-x2-x3` strings with fixed-width parts is the
      lexicographic order of the parts. */
  lemma DashJoinOrder(x1: string, x2: string, x3: string, y1: string, y2: string, y3: string)
    requires |x1| == |y1| && |x2| == |y2|
    ensures LexLess(x1 + "-" + x2 + "-" + x3, y1 + "-" + y2 + "-" + y3) <==>
      LexLess(x1, y1) || (x1 == y1 && (LexLess(x2, y2) || (x2 == y2 && LexLess(x3, y3))))
  {
    assert x1 + "-" + x2 + "-" + x3 == x1 + ("-" + (x2 + ("-" + x3)));
    assert y1 + "-" + y2 + "-" + y3 == y1 + ("-" + (y2 + ("-" + y3)));
    var p3, q3 := "-" + x3, "-" + y3;
    var p2, q2 := x2 + p3, y2 + q3;
    var p1, q1 := "-" + p2, "-" + q2;
    LexLessAppend("-", x3, "-", y3);
    assert LexLess(p3, q3) <==> LexLess(x3, y3);
    LexLessAppend(x2, p3, y2, q3);
    LexLessIrreflexive(x2);
    LexLessIrreflexive(x1);
    assert LexLess(p2, q2) <==> LexLess(x2, y2) || (x2 == y2 && LexLess(x3, y3));
    LexLessAppend("-", p2, "-", q2);
    assert LexLess(p1, q1) <==> LexLess(p2, q2);
    LexLessAppend(x1, p1, y1, q1);
  }

  lemma DashJoinInjective(x1: string, x2: string, x3: string, y1: string, y2: string, y3: string)
    requires |x1| == |y1| && |x2| == |y2| && |x3| == |y3|
    ensures x1 + "-" + x2 + "-" + x3 == y1 + "-" + y2 + "-" + y3 <==> x1 == y1 && x2 == y2 && x3 == y3
  {
    var a, b := x1 + "-" + x2 + "-" + x3, y1 + "-" + y2 + "-" + y3;
    if a == b {
      var i, j := |x1| + 1, |x1| + 1 + |x2| + 1;
      assert a[..|x1|] == x1 && b[..|x1|] == y1;
      assert a[i..i + |x2|] == x2 && b[i..i + |x2|] == y2;
      assert a[j..] == x3 && b[j..] == y3;
    }
  }

  lemma IsoOrderIsChronological(a: IsoDate, b: IsoDate)
    ensures LexLess(ToIso(a), ToIso(b)) <==> Before(a, b)
    ensures ToIso(a) == ToIso(b) <==> a == b
  {
    PadOrder(a.year, b.year, 4);
    PadOrder(a.month, b.month, 2);
    PadOrder(a.day, b.day, 2);
    DashJoinOrder(Pad(a.year, 4), Pad(a.month, 2), Pad(a.day, 2), Pad(b.year, 4), Pad(b.month, 2), Pad(b.day, 2));
    DashJoinInjective(Pad(a.year, 4), Pad(a.month, 2), Pad(a.day, 2), Pad(b.year, 4), Pad(b.month, 2), Pad(b.day, 2));
  }
}
