/**
 * Calendar dates as the plugin's JavaScript `Date` values are used: always at local
 * midnight, so a date is a (year, month, day) triple of the proleptic Gregorian calendar.
 * Day arithmetic is defined by stepping one day at a time (`NextDay`, `PrevDay`), and is
 * related to an independent closed-form day count (`DayNumber`).
 */
module CalendarDate {

  /** A calendar day; `month` is 1..12 (JavaScript's `getMonth() + 1`). */
  datatype Date = Date(year: int, month: int, day: int)

  predicate IsLeapYear(y: int) {
    y % 4 == 0 && (y % 100 != 0 || y % 400 == 0)
  }

  function DaysInMonth(y: int, m: int): (n: int)
    requires 1 <= m <= 12
    ensures 28 <= n <= 31
    ensures n == 29 <==> m == 2 && IsLeapYear(y)
  {
    if m == 2 then (if IsLeapYear(y) then 29 else 28)
    else if m == 4 || m == 6 || m == 9 || m == 11 then 30
    else 31
  }

  /** The dates a JavaScript `Date` can denote (at midnight). */
  predicate ValidDate(d: Date) {
    1 <= d.month <= 12 && 1 <= d.day <= DaysInMonth(d.year, d.month)
  }

  /** The following day, carrying into the next month and year. */
  function NextDay(d: Date): (r: Date)
    requires ValidDate(d)
    ensures ValidDate(r)
    ensures r.year == d.year || (r.year == d.year + 1 && d.month == 12 && d.day == 31)
  {
    if d.day < DaysInMonth(d.year, d.month) then Date(d.year, d.month, d.day + 1)
    else if d.month < 12 then Date(d.year, d.month + 1, 1)
    else Date(d.year + 1, 1, 1)
  }

  /** The preceding day, borrowing from the previous month and year. */
  function PrevDay(d: Date): (r: Date)
    requires ValidDate(d)
    ensures ValidDate(r)
    ensures r.year == d.year || (r.year == d.year - 1 && d.month == 1 && d.day == 1)
  {
    if d.day > 1 then Date(d.year, d.month, d.day - 1)
    else if d.month > 1 then Date(d.year, d.month - 1, DaysInMonth(d.year, d.month - 1))
    else Date(d.year - 1, 12, 31)
  }

  lemma NextPrevInverse(d: Date)
    requires ValidDate(d)
    ensures PrevDay(NextDay(d)) == d
    ensures NextDay(PrevDay(d)) == d
  {
  }

  /** `d` moved by `k` whole days (forward when `k > 0`, backward when `k < 0`). */
  function AddDays(d: Date, k: int): (r: Date)
    requires ValidDate(d)
    ensures ValidDate(r)
    decreases if k < 0 then -k else k
  {
    if k == 0 then d
    else if k > 0 then AddDays(NextDay(d), k - 1)
    else AddDays(PrevDay(d), k + 1)
  }

  lemma ShiftNext(d: Date, n: int)
    requires ValidDate(d)
    ensures AddDays(NextDay(d), n) == AddDays(d, n + 1)
  {
    NextPrevInverse(d);
  }

  lemma ShiftPrev(d: Date, n: int)
    requires ValidDate(d)
    ensures AddDays(PrevDay(d), n) == AddDays(d, n - 1)
  {
    NextPrevInverse(d);
  }

  /** Moving by `a` days and then by `b` days is moving by `a + b` days. */
  lemma {:induction false} AddDaysAdd(d: Date, a: int, b: int)
    requires ValidDate(d)
    ensures AddDays(AddDays(d, a), b) == AddDays(d, a + b)
    decreases if a < 0 then -a else a
  {
    if a > 0 {
      AddDaysAdd(NextDay(d), a - 1, b);
      ShiftNext(d, a - 1 + b);
    } else if a < 0 {
      AddDaysAdd(PrevDay(d), a + 1, b);
      ShiftPrev(d, a + 1 + b);
    }
  }

  /** Inside one month, moving forward from the 1st stays in that month. */
  lemma {:induction false} MonthStart(y: int, m: int, k: int)
    requires 1 <= m <= 12 && 0 <= k < DaysInMonth(y, m)
    ensures AddDays(Date(y, m, 1), k) == Date(y, m, 1 + k)
  {
    if k > 0 {
      MonthStart(y, m, k - 1);
      AddDaysAdd(Date(y, m, 1), k - 1, 1);
    }
  }

  /** Moving forward never decreases the year. */
  lemma {:induction false} AddDaysYearGrows(d: Date, k: nat)
    requires ValidDate(d)
    ensures AddDays(d, k).year >= d.year
    decreases k
  {
    if k > 0 {
      AddDaysYearGrows(NextDay(d), k - 1);
    }
  }

  // ---------------------------------------------------------------------------
  // An independent definition: the number of the day counted from 0001-01-01 (day 1).

  function DaysBeforeYear(y: int): int {
    var x := y - 1;
    365 * x + x / 4 - x / 100 + x / 400
  }

  /** The days of the months before `m` in year `y`. */
  function DaysBeforeMonth(y: int, m: int): int
    requires 1 <= m <= 12
  {
    if m == 1 then 0 else DaysBeforeMonth(y, m - 1) + DaysInMonth(y, m - 1)
  }

  function DayNumber(d: Date): int
    requires ValidDate(d)
  {
    DaysBeforeYear(d.year) + DaysBeforeMonth(d.year, d.month) + d.day
  }

  lemma DivStep(x: int)
    ensures (x + 1) / 4 == x / 4 + (if (x + 1) % 4 == 0 then 1 else 0)
    ensures (x + 1) / 100 == x / 100 + (if (x + 1) % 100 == 0 then 1 else 0)
    ensures (x + 1) / 400 == x / 400 + (if (x + 1) % 400 == 0 then 1 else 0)
  {
  }

  /** A year has 365 days, 366 in a leap year. */
  lemma YearLength(y: int)
    ensures DaysBeforeYear(y + 1) == DaysBeforeYear(y) + (if IsLeapYear(y) then 366 else 365)
  {
    var x := y - 1;
    DivStep(x);
    DivisorChain(y);
    assert DaysBeforeYear(y + 1) - DaysBeforeYear(y)
        == 365 + ((x + 1) / 4 - x / 4) - ((x + 1) / 100 - x / 100) + ((x + 1) / 400 - x / 400);
  }

  /** A multiple of 400 is one of 100, and a multiple of 100 is one of 4. */
  lemma DivisorChain(y: int)
    ensures y % 400 == 0 ==> y % 100 == 0
    ensures y % 100 == 0 ==> y % 4 == 0
  {
    if y % 400 == 0 {
      HundredsOf(y, 4 * (y / 400));
    }
    if y % 100 == 0 {
      FoursOf(y, 25 * (y / 100));
    }
  }

  lemma HundredsOf(y: int, k: int)
    requires y == 100 * k
    ensures y % 100 == 0
  {
  }

  lemma FoursOf(y: int, k: int)
    requires y == 4 * k
    ensures y % 4 == 0
  {
  }

  /** Each step of `NextDay` advances the day number by exactly one. */
  lemma NextDayNumber(d: Date)
    requires ValidDate(d)
    ensures DayNumber(NextDay(d)) == DayNumber(d) + 1
  {
    if d.day == DaysInMonth(d.year, d.month) && d.month == 12 {
      YearLength(d.year);
      YearMonths(d.year);
    }
  }

  /** The eleven months before December hold 334 days, 335 in a leap year. */
  lemma YearMonths(y: int)
    ensures DaysBeforeMonth(y, 12) == 334 + (if IsLeapYear(y) then 1 else 0)
  {
    var leap := if IsLeapYear(y) then 1 else 0;
    assert DaysBeforeMonth(y, 2) == 31;
    assert DaysBeforeMonth(y, 3) == 59 + leap;
    assert DaysBeforeMonth(y, 4) == 90 + leap;
    assert DaysBeforeMonth(y, 5) == 120 + leap;
    assert DaysBeforeMonth(y, 6) == 151 + leap;
    assert DaysBeforeMonth(y, 7) == 181 + leap;
    assert DaysBeforeMonth(y, 8) == 212 + leap;
    assert DaysBeforeMonth(y, 9) == 243 + leap;
    assert DaysBeforeMonth(y, 10) == 273 + leap;
    assert DaysBeforeMonth(y, 11) == 304 + leap;
  }

  /** `AddDays(d, k)` is the date whose day number is `k` more than `d`'s. */
  lemma AddDaysDayNumber(d: Date, k: int)
    requires ValidDate(d)
    ensures DayNumber(AddDays(d, k)) == DayNumber(d) + k
  {
    if k >= 0 {
      ForwardDayNumber(d, k);
    } else {
      BackwardDayNumber(d, -k);
    }
  }

  /** Forward steps, one `NextDay` at a time. */
  lemma {:induction false} ForwardDayNumber(d: Date, k: nat)
    requires ValidDate(d)
    ensures DayNumber(AddDays(d, k)) == DayNumber(d) + k
    decreases k
  {
    if k > 0 {
      NextDayNumber(d);
      ForwardDayNumber(NextDay(d), k - 1);
    }
  }

  /** Backward steps, one `PrevDay` at a time. */
  lemma {:induction false} BackwardDayNumber(d: Date, k: nat)
    requires ValidDate(d)
    ensures DayNumber(AddDays(d, -(k as int))) == DayNumber(d) - k
    decreases k
  {
    if k > 0 {
      PrevDayNumber(d);
      BackwardDayNumber(PrevDay(d), k - 1);
    }
  }

  /** Each step of `PrevDay` takes the day number back by exactly one. */
  lemma PrevDayNumber(d: Date)
    requires ValidDate(d)
    ensures DayNumber(PrevDay(d)) == DayNumber(d) - 1
  {
    NextPrevInverse(d);
    NextDayNumber(PrevDay(d));
  }

  lemma {:induction false} DaysBeforeYearGrows(y: int, z: int)
    requires y <= z
    ensures DaysBeforeYear(y) + 365 * (z - y) <= DaysBeforeYear(z)
    decreases z - y
  {
    if y < z {
      DaysBeforeYearGrows(y, z - 1);
      YearLength(z - 1);
    }
  }

  /** The days of year `y` are numbered DaysBeforeYear(y)+1 .. DaysBeforeYear(y+1). */
  lemma DayNumberInYear(d: Date)
    requires ValidDate(d)
    ensures DaysBeforeYear(d.year) < DayNumber(d) <= DaysBeforeYear(d.year + 1)
  {
    YearLength(d.year);
    YearMonths(d.year);
    if d.month < 12 {
      MonthsOrdered(d.year, d.month, 12);
    }
    assert DaysBeforeMonth(d.year, d.month) >= 0 by {
      MonthsNonNegative(d.year, d.month);
    }
  }

  lemma {:induction false} MonthsNonNegative(y: int, m: int)
    requires 1 <= m <= 12
    ensures DaysBeforeMonth(y, m) >= 0
  {
    if m > 1 {
      MonthsNonNegative(y, m - 1);
    }
  }

  /** Distinct valid dates have distinct day numbers. */
  lemma DayNumberInjective(a: Date, b: Date)
    requires ValidDate(a) && ValidDate(b)
    requires DayNumber(a) == DayNumber(b)
    ensures a == b
  {
    SameDayNumberSameYear(a, b);
    SameYearSameDay(a, b);
  }

  /** Equal day numbers fall in the same year. */
  lemma SameDayNumberSameYear(a: Date, b: Date)
    requires ValidDate(a) && ValidDate(b)
    requires DayNumber(a) == DayNumber(b)
    ensures a.year == b.year
  {
    DayNumberInYear(a);
    DayNumberInYear(b);
    if a.year < b.year {
      DaysBeforeYearGrows(a.year + 1, b.year);
    } else if b.year < a.year {
      DaysBeforeYearGrows(b.year + 1, a.year);
    }
  }

  /** Within one year, a later month starts after every day of an earlier one. */
  lemma {:induction false} MonthsOrdered(y: int, m: int, n: int)
    requires 1 <= m < n <= 12
    ensures DaysBeforeMonth(y, m) + DaysInMonth(y, m) <= DaysBeforeMonth(y, n)
    decreases n - m
  {
    if m + 1 < n {
      MonthsOrdered(y, m + 1, n);
    }
  }

  /** In the same year, equal day numbers mean the same month and day. */
  lemma SameYearSameDay(a: Date, b: Date)
    requires ValidDate(a) && ValidDate(b) && a.year == b.year
    requires DayNumber(a) == DayNumber(b)
    ensures a == b
  {
    if a.month < b.month {
      MonthsOrdered(a.year, a.month, b.month);
    } else if b.month < a.month {
      MonthsOrdered(a.year, b.month, a.month);
    }
  }

  /** `AddDays` and the day count agree in both directions: `e` is `k` days after `d` exactly when its day number is. */
  lemma AddDaysCharacterized(d: Date, k: int, e: Date)
    requires ValidDate(d) && ValidDate(e)
    ensures AddDays(d, k) == e <==> DayNumber(e) == DayNumber(d) + k
  {
    AddDaysDayNumber(d, k);
    if DayNumber(e) == DayNumber(d) + k {
      DayNumberInjective(AddDays(d, k), e);
    }
  }

  // ---------------------------------------------------------------------------
  // Weekday and month names, as `toLocaleDateString('en-US', ...)` writes them.

  const WeekdayNames: seq<string> :=
    ["Sunday", "Monday", "Tuesday", "Wednesday", "Thursday", "Friday", "Saturday"]

  const MonthNames: seq<string> :=
    ["January", "February", "March", "April", "May", "June",
     "July", "August", "September", "October", "November", "December"]

  /** `getDay()`: 0 is Sunday. Day 1 (0001-01-01) of the proleptic Gregorian calendar is a Monday. */
  function Weekday(d: Date): (w: nat)
    requires ValidDate(d)
    ensures w < 7
  {
    DayNumber(d) % 7
  }

  lemma ModSevenStep(n: int)
    ensures (n + 1) % 7 == (n % 7 + 1) % 7
  {
  }

  lemma NextWeekday(d: Date)
    requires ValidDate(d)
    ensures Weekday(NextDay(d)) == (Weekday(d) + 1) % 7
  {
    NextDayNumber(d);
    ModSevenStep(DayNumber(d));
  }

  function WeekdayName(d: Date): (s: string)
    requires ValidDate(d)
    ensures s in WeekdayNames
  {
    WeekdayNames[Weekday(d)]
  }

  function MonthName(d: Date): (s: string)
    requires ValidDate(d)
    ensures s in MonthNames
  {
    MonthNames[d.month - 1]
  }

  // ---------------------------------------------------------------------------
  // The JavaScript `Date` operations the plugin relies on.

  /**
   * `new Date(year, monthIndex, day)`: a year 0..99 means 1900 + year; the month index
   * and the day may lie outside their ranges and carry into neighbouring months and years.
   */
  function JsNewDate(year: int, monthIndex: int, day: int): (r: Date)
    ensures ValidDate(r)
  {
    var fullYear := if 0 <= year <= 99 then 1900 + year else year;
    AddDays(Date(fullYear + monthIndex / 12, monthIndex % 12 + 1, 1), day - 1)
  }

  /** `d.setDate(n)`: day `n` of `d`'s month, carrying outside 1..DaysInMonth. */
  function JsSetDate(d: Date, n: int): (r: Date)
    requires ValidDate(d)
    ensures ValidDate(r)
  {
    AddDays(Date(d.year, d.month, 1), n - 1)
  }

  /** `setDate(getDate() + k)` moves a date by exactly `k` days. */
  lemma SetDateMoves(d: Date, k: int)
    requires ValidDate(d)
    ensures JsSetDate(d, d.day + k) == AddDays(d, k)
  {
    MonthStart(d.year, d.month, d.day - 1);
    AddDaysAdd(Date(d.year, d.month, 1), d.day - 1, k);
  }

  /** Constructing an in-range date gives that date back (years outside 0..99). */
  lemma JsNewDateInRange(year: int, monthIndex: int, day: int)
    requires !(0 <= year <= 99) && 0 <= monthIndex <= 11
    requires 1 <= day <= DaysInMonth(year, monthIndex + 1)
    ensures JsNewDate(year, monthIndex, day) == Date(year, monthIndex + 1, day)
  {
    MonthStart(year, monthIndex + 1, day - 1);
  }

  /**
   * The construct-and-compare check: for a non-negative year, a month index from -1 and a
   * non-negative day, `new Date(year, monthIndex, day)` keeps all three fields exactly when
   * the year is at least 100 and the month and day name a real date.
   */
  lemma JsNewDateKeepsFields(year: int, monthIndex: int, day: int)
    requires year >= 0 && monthIndex >= -1 && day >= 0
    ensures var r := JsNewDate(year, monthIndex, day);
            (r.year == year && r.month == monthIndex + 1 && r.day == day)
            <==> (year >= 100 && 0 <= monthIndex <= 11 && 1 <= day <= DaysInMonth(year, monthIndex + 1))
  {
    var r := JsNewDate(year, monthIndex, day);
    if year >= 100 && 0 <= monthIndex <= 11 && 1 <= day <= DaysInMonth(year, monthIndex + 1) {
      JsNewDateInRange(year, monthIndex, day);
    } else if r.year == year && r.month == monthIndex + 1 && r.day == day {
      if year <= 99 {
        var start := Date(1900 + year + monthIndex / 12, monthIndex % 12 + 1, 1);
        if day >= 1 {
          AddDaysYearGrows(start, day - 1);
        }
        assert false;
      }
    }
  }

  /** Month-end, year-end and leap-day rollovers, forward and backward. */
  lemma RolloverExamples()
    ensures AddDays(Date(2024, 1, 31), 1) == Date(2024, 2, 1)
    ensures AddDays(Date(2024, 1, 31), -31) == Date(2023, 12, 31)
    ensures AddDays(Date(2024, 2, 28), 1) == Date(2024, 2, 29)
    ensures AddDays(Date(2023, 2, 28), 1) == Date(2023, 3, 1)
  {
    YearLength(2023);
    YearMonths(2023);
    assert !IsLeapYear(2023);
    assert DayNumber(Date(2023, 12, 31)) == DayNumber(Date(2024, 1, 31)) - 31;
    AddDaysCharacterized(Date(2024, 1, 31), -31, Date(2023, 12, 31));
  }

  lemma WeekdayExample()
    ensures WeekdayName(Date(2024, 1, 1)) == "Monday"
  {
    assert DaysBeforeYear(2024) == 738885 by {
      assert 2023 / 4 == 505 && 2023 / 100 == 20 && 2023 / 400 == 5;
    }
    assert DayNumber(Date(2024, 1, 1)) == 7 * 105555 + 1;
    assert Weekday(Date(2024, 1, 1)) == 1;
  }
}
