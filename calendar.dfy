/** Calendar arithmetic behind the tracker's `Date` objects: proleptic
    Gregorian dates, day numbers counted from 1970-01-01, `getDay`, the
    Monday and Thursday of a date's week, `getISOWeek` (ISO 8601:2004,
    section 4.1.4), instants with a time of day, and `new Date(y, m, 1)`.
    The browser's time zone is taken to be UTC, so the UTC value that
    `new Date("YYYY-MM-DD")` parses to and the local getters agree. */
module Calendar {

  predicate IsLeapYear(y: int) {
    y % 4 == 0 && (y % 100 != 0 || y % 400 == 0)
  }

  function DaysInMonth(y: int, m: int): (n: int)
    requires 1 <= m <= 12
    ensures 28 <= n <= 31
    ensures n == 29 <==> m == 2 && IsLeapYear(y)
  {
    if m == 2 then (if IsLeapYear(y) then 29 else 28)
    else if m == 4 || m == 6 || m == 9 || m == 11 then 30
    else 31
  }

  function YearLength(y: int): int {
    if IsLeapYear(y) then 366 else 365
  }

  datatype Ymd = Ymd(year: int, month: int, day: int)

  predicate IsValidYmd(d: Ymd) {
    1 <= d.month <= 12 && 1 <= d.day <= DaysInMonth(d.year, d.month)
  }

  /** A calendar date; months and days are counted from 1. */
  type Date = d: Ymd | IsValidYmd(d) witness Ymd(1970, 1, 1)

  /** Days in the months of year `y` before month `m`. */
  function DaysBeforeMonth(y: int, m: int): int
    requires 1 <= m <= 12
  {
    [0, 31, 59, 90, 120, 151, 181, 212, 243, 273, 304, 334][m - 1]
      + (if m > 2 && IsLeapYear(y) then 1 else 0)
  }

  /** Days from 0000-01-01 to the first day of year `y` (negative before year 0). */
  function DaysBeforeYear(y: int): int {
    365 * y + (y + 3) / 4 - (y + 99) / 100 + (y + 399) / 400
  }

  /** Days since the first of January of the date's year (0 on that day). */
  function DayOfYear(d: Date): int {
    DaysBeforeMonth(d.year, d.month) + d.day - 1
  }

  /** Days since 1970-01-01, the count a `Date`'s time value is a multiple of. */
  function DayNumber(d: Date): int {
    DaysBeforeYear(d.year) - DaysBeforeYear(1970) + DayOfYear(d)
  }

  lemma DaysBeforeYearStep(y: int)
    ensures DaysBeforeYear(y + 1) == DaysBeforeYear(y) + YearLength(y)
  {
    CenturyStep(y, 4);
    CenturyStep(y, 100);
    CenturyStep(y, 400);
    MultiplesNest(y);
    var a := if y % 4 == 0 then 1 else 0;
    var b := if y % 100 == 0 then 1 else 0;
    var c := if y % 400 == 0 then 1 else 0;
    assert DaysBeforeYear(y + 1) - DaysBeforeYear(y) == 365 + a - b + c;
    assert a - b + c == if IsLeapYear(y) then 1 else 0;
  }

  /** Multiples of 400 are multiples of 100, which are multiples of 4. */
  lemma MultiplesNest(y: int)
    ensures y % 400 == 0 ==> y % 100 == 0
    ensures y % 100 == 0 ==> y % 4 == 0
  {
    var q4, q100 := y / 400, y / 100;
    if y % 400 == 0 {
      assert y == 400 * q4;
      assert q100 == 4 * q4;
    }
    if y % 100 == 0 {
      assert y == 100 * q100;
      assert y / 4 == 25 * q100;
    }
  }

  /** Moving past a multiple of `k` adds one to the count of multiples. */
  lemma CenturyStep(y: int, k: int)
    requires k in [4, 100, 400]
    ensures (y + k) / k - (y + k - 1) / k == if y % k == 0 then 1 else 0
  {
    var q, r := y / k, y % k;
    if k == 4 {
      assert y == 4 * q + r;
      assert (y + 4) / 4 == q + 1;
      assert (y + 3) / 4 == if r == 0 then q else q + 1;
    } else if k == 100 {
      assert y == 100 * q + r;
      assert (y + 100) / 100 == q + 1;
      assert (y + 99) / 100 == if r == 0 then q else q + 1;
    } else {
      assert y == 400 * q + r;
      assert (y + 400) / 400 == q + 1;
      assert (y + 399) / 400 == if r == 0 then q else q + 1;
    }
  }

  lemma {:induction false} DaysBeforeYearMonotone(a: int, b: int)
    requires a <= b
    ensures DaysBeforeYear(a) + 365 * (b - a) <= DaysBeforeYear(b)
    decreases b - a
  {
    if a < b {
      DaysBeforeYearMonotone(a, b - 1);
      DaysBeforeYearStep(b - 1);
    }
  }

  lemma DayOfYearBounds(d: Date)
    ensures 0 <= DayOfYear(d) < YearLength(d.year)
  {
  }

  lemma DaysBeforeMonthMonotone(y: int, m1: int, m2: int)
    requires 1 <= m1 < m2 <= 12
    ensures DaysBeforeMonth(y, m1) + DaysInMonth(y, m1) <= DaysBeforeMonth(y, m2)
  {
  }

  /** Different dates have different day numbers. */
  lemma DayNumberInjective(a: Date, b: Date)
    requires DayNumber(a) == DayNumber(b)
    ensures a == b
  {
    DayOfYearBounds(a);
    DayOfYearBounds(b);
    if a.year < b.year {
      DaysBeforeYearMonotone(a.year + 1, b.year);
      DaysBeforeYearStep(a.year);
      assert false;
    } else if b.year < a.year {
      DaysBeforeYearMonotone(b.year + 1, a.year);
      DaysBeforeYearStep(b.year);
      assert false;
    }
    if a.month < b.month {
      DaysBeforeMonthMonotone(a.year, a.month, b.month);
      assert false;
    } else if b.month < a.month {
      DaysBeforeMonthMonotone(a.year, b.month, a.month);
      assert false;
    }
  }

  /** The date after `d`. */
  function NextDay(d: Date): (r: Date)
    ensures DayNumber(r) == DayNumber(d) + 1
  {
    DaysBeforeYearStep(d.year);
    if d.day < DaysInMonth(d.year, d.month) then Ymd(d.year, d.month, d.day + 1)
    else if d.month < 12 then Ymd(d.year, d.month + 1, 1)
    else Ymd(d.year + 1, 1, 1)
  }

  /** The date before `d`. */
  function PrevDay(d: Date): (r: Date)
    ensures DayNumber(r) == DayNumber(d) - 1
  {
    DaysBeforeYearStep(d.year - 1);
    if d.day > 1 then Ymd(d.year, d.month, d.day - 1)
    else if d.month > 1 then Ymd(d.year, d.month - 1, DaysInMonth(d.year, d.month - 1))
    else Ymd(d.year - 1, 12, 31)
  }

  /** `setDate(getDate() + k)`: the date `k` days later (earlier when `k < 0`). */
  function AddDays(d: Date, k: int): (r: Date)
    ensures DayNumber(r) == DayNumber(d) + k
    decreases if k >= 0 then k else -k
  {
    if k == 0 then d
    else if k > 0 then AddDays(NextDay(d), k - 1)
    else AddDays(PrevDay(d), k + 1)
  }

  /** `getDay()`: 0 for Sunday up to 6 for Saturday (1970-01-01 was a Thursday). */
  function Weekday(d: Date): (w: int)
    ensures 0 <= w < 7
  {
    (DayNumber(d) + 4) % 7
  }

  /** `getDay() || 7`: Monday is 1 and Sunday is 7. */
  function IsoWeekday(d: Date): (w: int)
    ensures 1 <= w <= 7
    ensures w % 7 == Weekday(d)
  {
    if Weekday(d) == 0 then 7 else Weekday(d)
  }

  /** The Monday on or before `d`. */
  function Monday(d: Date): Date {
    AddDays(d, 1 - IsoWeekday(d))
  }

  /** The Thursday of the Monday-to-Sunday week that holds `d`. */
  function Thursday(d: Date): Date {
    AddDays(d, 4 - IsoWeekday(d))
  }

  /** `Math.ceil(a / b)` for a positive divisor. */
  function CeilDiv(a: int, b: int): (q: int)
    requires b > 0
    ensures (q - 1) * b < a <= q * b
  {
    (a + b - 1) / b
  }

  /** The ISO 8601 week number, computed the way `getISOWeek` does: move to
      the Thursday of the week, then count the weeks of that Thursday's year
      up to it (`GetIsoWeek` is the program's version, with its years). */
  function IsoWeek(d: Date): (w: int)
    ensures 1 <= w <= 53
  {
    var thursday := AddDays(d, 4 - IsoWeekday(d));
    var yearStart: Date := Ymd(thursday.year, 1, 1);
    DayOfYearBounds(thursday);
    CeilDiv(DayNumber(thursday) - DayNumber(yearStart) + 1, 7)
  }

  /** `Date.UTC(y, …)` and `new Date(y, …)` read a year 0..99 as 1900..1999. */
  function UtcYear(y: int): (r: int)
    ensures r == y <==> !(0 <= y <= 99)
  {
    if 0 <= y <= 99 then 1900 + y else y
  }

  /** `Date.UTC(getFullYear(), getMonth(), getDate())`: the same month and day
      of the month, with a year 0..99 read as 1900..1999 (the day is counted on
      from the first, so 29 February of the year 0 becomes 1900-03-01). */
  function UtcDate(date: Date): (r: Date)
    ensures !(0 <= date.year <= 99) ==> r == date
  {
    RebuiltDate(date);
    AddDays(Ymd(UtcYear(date.year), date.month, 1), date.day - 1)
  }

  /** Counting `day - 1` days on from the first of the month gives the date back. */
  lemma RebuiltDate(d: Date)
    ensures AddDays(Ymd(d.year, d.month, 1), d.day - 1) == d
  {
    var e := AddDays(Ymd(d.year, d.month, 1), d.day - 1);
    DayNumberInjective(e, d);
  }

  /** `getISOWeek` as written: the date is rebuilt by `UtcDate` and the first of
      January of the Thursday's year by `Date.UTC(year, 0, 1)`, so both steps
      read a year 0..99 as 1900..1999; outside those years it is the ISO 8601
      week number `IsoWeek`. */
  function GetIsoWeek(date: Date): (w: int)
    ensures !(0 <= date.year <= 99) && !(0 <= Thursday(date).year <= 99) ==> w == IsoWeek(date)
  {
    var thursday := Thursday(UtcDate(date));
    var yearStart: Date := Ymd(UtcYear(thursday.year), 1, 1);
    CeilDiv(DayNumber(thursday) - DayNumber(yearStart) + 1, 7)
  }

  /** The weekday of a date from its day number written as `7 * q + w - 4`. */
  lemma WeekdayOf(d: Date, n: int, q: int, w: int)
    requires DayNumber(d) == n && n + 4 == 7 * q + w && 0 <= w < 7
    ensures Weekday(d) == w
  {
    ModSeven(n + 4, q, w);
  }

  lemma ModSeven(a: int, q: int, r: int)
    requires a == 7 * q + r && 0 <= r < 7
    ensures a % 7 == r
  {
  }

  lemma DayNumbersOf1950()
    ensures DayNumber(Ymd(1950, 12, 1)) == -6971 && DayNumber(Ymd(1950, 12, 25)) == -6947
    ensures DayNumber(Ymd(1950, 12, 28)) == -6944 && DayNumber(Ymd(1950, 1, 1)) == -7305
  {
    assert DaysBeforeYear(1950) - DaysBeforeYear(1970) == -7305;
  }

  lemma DayNumbersOf50()
    ensures DayNumber(Ymd(50, 12, 25)) == -700907 && DayNumber(Ymd(50, 12, 22)) == -700910
    ensures DayNumber(Ymd(50, 1, 1)) == -701265
  {
    assert DaysBeforeYear(50) - DaysBeforeYear(1970) == -701265;
  }

  /** Sunday 0050-12-25 lies in ISO week 51 of the year 50, but `getISOWeek`
      computes the week of 1950-12-25, a Monday in week 52. */
  lemma GetIsoWeekTwoDigitYear(d: Date)
    requires d == Ymd(50, 12, 25)
    ensures GetIsoWeek(d) == 52 && IsoWeek(d) == 51
  {
    AsWrittenWeekOf50();
    IsoWeekOf50();
  }

  lemma AsWrittenWeekOf50()
    ensures GetIsoWeek(Ymd(50, 12, 25)) == 52
  {
    UtcDateOf50();
    ThursdayOf1950();
    DayNumbersOf1950();
  }

  lemma UtcDateShift(date: Date, y: int)
    requires y == UtcYear(date.year)
    ensures DayNumber(UtcDate(date)) == DayNumber(Ymd(y, date.month, 1)) + date.day - 1
  {
  }

  lemma UtcDateOf50()
    ensures UtcDate(Ymd(50, 12, 25)) == Ymd(1950, 12, 25)
  {
    var d: Date := Ymd(50, 12, 25);
    UtcDateShift(d, 1950);
    DayNumbersOf1950();
    DayNumberInjective(UtcDate(d), Ymd(1950, 12, 25));
  }

  lemma ThursdayOf1950()
    ensures Thursday(Ymd(1950, 12, 25)) == Ymd(1950, 12, 28)
  {
    var e: Date := Ymd(1950, 12, 25);
    DayNumbersOf1950();
    WeekdayOf(e, -6947, -992, 1);
    assert DayNumber(Thursday(e)) == -6944;
    DayNumberInjective(Thursday(e), Ymd(1950, 12, 28));
  }

  lemma IsoWeekOf50()
    ensures IsoWeek(Ymd(50, 12, 25)) == 51
  {
    var d: Date := Ymd(50, 12, 25);
    DayNumbersOf50();
    WeekdayOf(d, -700907, -100129, 0);
    assert DayNumber(Thursday(d)) == -700910;
    DayNumberInjective(Thursday(d), Ymd(50, 12, 22));
  }

  /** The ISO week-numbering year: the calendar year of the week's Thursday. */
  function IsoWeekYear(d: Date): int {
    Thursday(d).year
  }

  lemma WeekArithmetic(n: int, iso: int, monday: int)
    requires iso == (if (n + 4) % 7 == 0 then 7 else (n + 4) % 7)
    requires monday == n + 1 - iso
    ensures n - 6 <= monday <= n
    ensures (monday + 4) % 7 == 1 && (monday + 3 + 4) % 7 == 4
  {
    var k := if (n + 4) % 7 == 0 then (n + 4) / 7 - 1 else (n + 4) / 7;
    assert n + 4 - iso == 7 * k;
  }

  lemma WeekShape(d: Date)
    ensures DayNumber(d) - 6 <= DayNumber(Monday(d)) <= DayNumber(d)
    ensures DayNumber(Thursday(d)) == DayNumber(Monday(d)) + 3
    ensures Weekday(Monday(d)) == 1 && Weekday(Thursday(d)) == 4
  {
    MondayOfWeek(d);
    ThursdayOfWeek(d);
  }

  lemma MondayOfWeek(d: Date)
    ensures DayNumber(d) - 6 <= DayNumber(Monday(d)) <= DayNumber(d)
    ensures Weekday(Monday(d)) == 1
  {
    var m := DayNumber(Monday(d));
    WeekArithmetic(DayNumber(d), IsoWeekday(d), m);
    assert Weekday(Monday(d)) == (m + 4) % 7;
  }

  lemma ThursdayOfWeek(d: Date)
    ensures DayNumber(Thursday(d)) == DayNumber(Monday(d)) + 3
    ensures Weekday(Thursday(d)) == 4
  {
    ThursdayArithmetic(DayNumber(d), Weekday(d), IsoWeekday(d), DayNumber(Monday(d)), DayNumber(Thursday(d)));
  }

  lemma ThursdayArithmetic(n: int, w: int, iso: int, monday: int, thursday: int)
    requires w == (n + 4) % 7 && iso == (if w == 0 then 7 else w)
    requires monday == n + 1 - iso && thursday == n + 4 - iso
    ensures thursday == monday + 3 && (thursday + 4) % 7 == 4
  {
    WeekArithmetic(n, iso, monday);
  }

  /** The week number depends only on the week's Thursday, and week 1 is the
      week whose Thursday falls in the first seven days of its year, that is,
      the week holding the year's first Thursday. */
  lemma IsoWeekByThursday(d: Date)
    ensures IsoWeek(d) == DayOfYear(Thursday(d)) / 7 + 1
    ensures IsoWeek(d) == 1 <==> DayOfYear(Thursday(d)) < 7
  {
  }

  /** `getISOWeek` of the Monday equals that of any day of its week. */
  lemma IsoWeekOfMonday(d: Date)
    ensures Thursday(Monday(d)) == Thursday(d)
    ensures IsoWeek(Monday(d)) == IsoWeek(d)
  {
    WeekShape(d);
    DayNumberInjective(Thursday(Monday(d)), Thursday(d));
  }

  lemma SameWeekArithmetic(ta: int, tb: int, ya: int, yb: int)
    requires (ta + 4) % 7 == 4 && (tb + 4) % 7 == 4
    requires 0 <= ya && 0 <= yb && ya / 7 == yb / 7 && ta - tb == ya - yb
    ensures ta == tb
  {
  }

  lemma SameIsoWeekSameMonday(a: Date, b: Date)
    requires IsoWeekYear(a) == IsoWeekYear(b) && IsoWeek(a) == IsoWeek(b)
    ensures Monday(a) == Monday(b)
  {
    WeekShape(a);
    WeekShape(b);
    var ta, tb := Thursday(a), Thursday(b);
    IsoWeekByThursday(a);
    IsoWeekByThursday(b);
    DayOfYearBounds(ta);
    DayOfYearBounds(tb);
    assert DayNumber(ta) - DayNumber(tb) == DayOfYear(ta) - DayOfYear(tb);
    SameWeekArithmetic(DayNumber(ta), DayNumber(tb), DayOfYear(ta), DayOfYear(tb));
    DayNumberInjective(Monday(a), Monday(b));
  }

  lemma SameMondaySameIsoWeek(a: Date, b: Date)
    requires Monday(a) == Monday(b)
    ensures Thursday(a) == Thursday(b)
  {
    WeekShape(a);
    WeekShape(b);
    DayNumberInjective(Thursday(a), Thursday(b));
  }

  /** The pair (ISO week-numbering year, ISO week) singles out a week: two
      dates have the same pair exactly when they share their Monday. */
  lemma IsoWeekIdentifiesWeek(a: Date, b: Date)
    ensures (IsoWeekYear(a) == IsoWeekYear(b) && IsoWeek(a) == IsoWeek(b))
        <==> Monday(a) == Monday(b)
  {
    if IsoWeekYear(a) == IsoWeekYear(b) && IsoWeek(a) == IsoWeek(b) {
      SameIsoWeekSameMonday(a, b);
    }
    if Monday(a) == Monday(b) {
      SameMondaySameIsoWeek(a, b);
    }
  }

  // ----- instants ----------------------------------------------------------

  const MsPerDay: int := 86400000

  /** A moment: a date and the milliseconds elapsed since its midnight. */
  datatype Moment = Moment(date: Date, msOfDay: int)

  /** The value of `new Date()`: a moment within its day. */
  type Instant = m: Moment | 0 <= m.msOfDay < MsPerDay witness Moment(Ymd(1970, 1, 1), 0)

  /** The time value of a date string: its midnight, in milliseconds since the epoch. */
  function Midnight(d: Date): int {
    DayNumber(d) * MsPerDay
  }

  function TimeValue(now: Instant): int {
    DayNumber(now.date) * MsPerDay + now.msOfDay
  }

  /** `now` with `setDate(now.getDate() - n)` applied: the same time of day `n` days earlier. */
  function DaysAgo(now: Instant, n: int): int {
    TimeValue(now) - n * MsPerDay
  }

  /** Whether a date's midnight is at or after the instant `n` days before `now`. */
  predicate OnOrAfterDaysAgo(d: Date, now: Instant, n: int) {
    Midnight(d) >= DaysAgo(now, n)
  }

  /** Compared at day granularity the cut-off day itself counts only when `now`
      is exactly midnight: otherwise the window holds the `n` days up to today
      (and the whole future). */
  lemma OnOrAfterDaysAgoByDay(d: Date, now: Instant, n: int)
    ensures OnOrAfterDaysAgo(d, now, n)
        <==> DayNumber(d) > DayNumber(now.date) - n
             || (DayNumber(d) == DayNumber(now.date) - n && now.msOfDay == 0)
  {
    var k := DayNumber(d) - (DayNumber(now.date) - n);
    assert Midnight(d) - DaysAgo(now, n) == k * MsPerDay - now.msOfDay;
    if k >= 1 {
      assert k * MsPerDay >= MsPerDay;
    } else if k <= -1 {
      assert k * MsPerDay <= -MsPerDay;
    }
  }

  /** A longer trailing window contains a shorter one. */
  lemma OnOrAfterDaysAgoWidens(d: Date, now: Instant, n: int, m: int)
    requires n <= m && OnOrAfterDaysAgo(d, now, n)
    ensures OnOrAfterDaysAgo(d, now, m)
  {
    assert n * MsPerDay <= m * MsPerDay;
  }

  // ----- month arithmetic --------------------------------------------------

  /** The year and (1-based) month of `new Date(y, m, 1)`, where `m` counts
      from 0 and may fall outside 0..11; the constructor reads a year in 0..99
      as 1900..1999. */
  function MonthStart(y: int, m: int): (r: (int, int))
    ensures 1 <= r.1 <= 12
    ensures r.0 * 12 + (r.1 - 1) == (if 0 <= y <= 99 then 1900 + y else y) * 12 + m
  {
    var fullYear := if 0 <= y <= 99 then 1900 + y else y;
    (fullYear + m / 12, m % 12 + 1)
  }
}
