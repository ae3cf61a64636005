/** Calendar time in UTC, after "Seconds Since the Epoch" (POSIX.1-2017, XBD, section 4.16): the proleptic
    Gregorian calendar without leap seconds.  `Gmtime` and `Timegm` are the two library calls that
    logger/src/LogRecord.cpp relies on; `Timegm` normalises its argument as section 7.27.2.3 of C17 says. */
module Calendar {

  const SECONDS_PER_DAY := 86400

  /** The fields of `struct tm` the program uses: `year` counts from 1900 and `mon` from 0. */
  datatype Tm = Tm(year: int, mon: int, mday: int, hour: int, min: int, sec: int)

  predicate IsLeap(year: int) {
    var y := year + 1900;
    y % 4 == 0 && (y % 100 != 0 || y % 400 == 0)
  }

  /** Days from the epoch to the first of January; the year-dependent terms of the POSIX formula. */
  function DaysBeforeYear(year: int): int {
    (year - 70) * 365 + (year - 69) / 4 - (year - 1) / 100 + (year + 299) / 400
  }

  function MonthLength(leap: bool, mon: int): int
    requires 0 <= mon < 12
  {
    if mon == 1 then (if leap then 29 else 28)
    else if mon == 3 || mon == 5 || mon == 8 || mon == 10 then 30
    else 31
  }

  /** Days from the first of January to the first day of month `mon`. */
  function DaysBeforeMonth(leap: bool, mon: int): int
    requires 0 <= mon <= 12
    decreases mon
  {
    if mon == 0 then 0 else DaysBeforeMonth(leap, mon - 1) + MonthLength(leap, mon - 1)
  }

  function YearLength(leap: bool): int {
    if leap then 366 else 365
  }

  function SecondOfDay(tm: Tm): int {
    tm.hour * 3600 + tm.min * 60 + tm.sec
  }

  function DayNumber(tm: Tm): int
    requires 0 <= tm.mon < 12
  {
    DaysBeforeYear(tm.year) + DaysBeforeMonth(IsLeap(tm.year), tm.mon) + tm.mday - 1
  }

  function SecondsSinceEpoch(tm: Tm): int
    requires 0 <= tm.mon < 12
  {
    DayNumber(tm) * SECONDS_PER_DAY + SecondOfDay(tm)
  }

  /** A date that exists and a time of day without a leap second. */
  predicate IsReal(tm: Tm) {
    && 0 <= tm.mon < 12
    && 1 <= tm.mday <= MonthLength(IsLeap(tm.year), tm.mon)
    && 0 <= tm.hour < 24
    && 0 <= tm.min < 60
    && 0 <= tm.sec < 60
  }

  // ----- years and months as intervals of days -----

  lemma NextYear(year: int)
    ensures DaysBeforeYear(year + 1) == DaysBeforeYear(year) + YearLength(IsLeap(year))
  {
    FloorStep4(year - 69);
    FloorStep100(year - 1);
    FloorStep400(year + 299);
    LeapTerms(year);
    assert DaysBeforeYear(year + 1) ==
           (year - 69) * 365 + (year - 69 + 1) / 4 - (year - 1 + 1) / 100 + (year + 299 + 1) / 400;
  }

  /** Counting on crosses a multiple exactly when the new number is that multiple. */
  lemma FloorStep4(n: int)
    ensures (n + 1) / 4 == n / 4 + (if (n + 1) % 4 == 0 then 1 else 0)
  {
  }

  lemma FloorStep100(n: int)
    ensures (n + 1) / 100 == n / 100 + (if (n + 1) % 100 == 0 then 1 else 0)
  {
  }

  lemma FloorStep400(n: int)
    ensures (n + 1) / 400 == n / 400 + (if (n + 1) % 400 == 0 then 1 else 0)
  {
  }

  /** The three terms of the formula step exactly at leap years. */
  lemma LeapTerms(year: int)
    ensures (year - 68) % 4 == 0 <==> (year + 1900) % 4 == 0
    ensures year % 100 == 0 <==> (year + 1900) % 100 == 0
    ensures (year + 300) % 400 == 0 <==> (year + 1900) % 400 == 0
    ensures (year + 1900) % 400 == 0 ==> (year + 1900) % 100 == 0
    ensures (year + 1900) % 100 == 0 ==> (year + 1900) % 4 == 0
  {
    if (year + 1900) % 400 == 0 {
      assert year + 1900 == 100 * (4 * ((year + 1900) / 400));
    }
    if (year + 1900) % 100 == 0 {
      assert year + 1900 == 4 * (25 * ((year + 1900) / 100));
    }
  }

  lemma {:induction false} YearsAreOrdered(y: int, z: int)
    requires y < z
    ensures DaysBeforeYear(y) + YearLength(IsLeap(y)) <= DaysBeforeYear(z)
    decreases z - y
  {
    NextYear(y);
    if y + 1 < z {
      YearsAreOrdered(y + 1, z);
    }
  }

  lemma {:induction false} MonthsAreOrdered(leap: bool, m: int, n: int)
    requires 0 <= m < n <= 12
    ensures DaysBeforeMonth(leap, m) + MonthLength(leap, m) <= DaysBeforeMonth(leap, n)
    decreases n
  {
    if m < n - 1 {
      MonthsAreOrdered(leap, m, n - 1);
    }
  }

  lemma MonthsFillTheYear(leap: bool)
    ensures DaysBeforeMonth(leap, 12) == YearLength(leap)
  {
    assert DaysBeforeMonth(leap, 3) == (if leap then 91 else 90);
    assert DaysBeforeMonth(leap, 6) == DaysBeforeMonth(leap, 3) + 91;
    assert DaysBeforeMonth(leap, 9) == DaysBeforeMonth(leap, 6) + 92;
  }

  // ----- gmtime -----

  predicate DayInYear(day: int, year: int) {
    DaysBeforeYear(year) <= day < DaysBeforeYear(year) + YearLength(IsLeap(year))
  }

  /** The year of a day number, walked to from a guess. */
  function YearOf(day: int, guess: int): (year: int)
    ensures DayInYear(day, year)
    decreases if DayInYear(day, guess) then 0
              else if day < DaysBeforeYear(guess) then DaysBeforeYear(guess) - day
              else day - DaysBeforeYear(guess)
  {
    NextYear(guess);
    NextYear(guess - 1);
    if day < DaysBeforeYear(guess) then YearOf(day, guess - 1)
    else if DayInYear(day, guess) then guess
    else YearOf(day, guess + 1)
  }

  /** The month holding day `yday` of a year, walked down to from month `from`. */
  function MonthOf(leap: bool, yday: int, from: int): (mon: int)
    requires 0 <= from < 12
    requires 0 <= yday < DaysBeforeMonth(leap, from + 1)
    ensures 0 <= mon < 12
    ensures DaysBeforeMonth(leap, mon) <= yday < DaysBeforeMonth(leap, mon + 1)
    decreases from
  {
    if DaysBeforeMonth(leap, from) <= yday then from else MonthOf(leap, yday, from - 1)
  }

  /** The day's date at midnight. */
  function DateOf(day: int): (tm: Tm)
    ensures IsReal(tm) && tm.hour == tm.min == tm.sec == 0
    ensures DayNumber(tm) == day
  {
    var year := YearOf(day, 70 + day / 365);
    var leap := IsLeap(year);
    MonthsFillTheYear(leap);
    var yday := day - DaysBeforeYear(year);
    var mon := MonthOf(leap, yday, 11);
    Tm(year, mon, yday - DaysBeforeMonth(leap, mon) + 1, 0, 0, 0)
  }

  /** `date` with its time of day replaced. */
  function AtSecond(date: Tm, second: int): (tm: Tm)
    requires 0 <= second < SECONDS_PER_DAY
    ensures 0 <= tm.hour < 24 && 0 <= tm.min < 60 && 0 <= tm.sec < 60
    ensures SecondOfDay(tm) == second
    ensures tm.year == date.year && tm.mon == date.mon && tm.mday == date.mday
  {
    date.(hour := second / 3600, min := second % 3600 / 60, sec := second % 60)
  }

  function Gmtime(raw: int): (tm: Tm)
    ensures IsReal(tm)
    ensures SecondsSinceEpoch(tm) == raw
  {
    var day := raw / SECONDS_PER_DAY;
    var second := raw % SECONDS_PER_DAY;
    assert day * SECONDS_PER_DAY + second == raw;
    AtSecond(DateOf(day), second)
  }

  // ----- the two directions are inverse -----

  lemma RealDayLiesInItsYear(tm: Tm)
    requires IsReal(tm)
    ensures DayInYear(DayNumber(tm), tm.year)
  {
    var leap := IsLeap(tm.year);
    MonthsFillTheYear(leap);
    MonthsAreOrdered(leap, tm.mon, 12);
    if tm.mon > 0 {
      MonthsAreOrdered(leap, 0, tm.mon);
    }
  }

  lemma SameDaySameDate(a: Tm, b: Tm)
    requires IsReal(a) && IsReal(b)
    requires DayNumber(a) == DayNumber(b)
    ensures a.year == b.year && a.mon == b.mon && a.mday == b.mday
  {
    RealDayLiesInItsYear(a);
    RealDayLiesInItsYear(b);
    if a.year < b.year {
      YearsAreOrdered(a.year, b.year);
    } else if b.year < a.year {
      YearsAreOrdered(b.year, a.year);
    }
    var leap := IsLeap(a.year);
    if a.mon < b.mon {
      MonthsAreOrdered(leap, a.mon, b.mon);
    } else if b.mon < a.mon {
      MonthsAreOrdered(leap, b.mon, a.mon);
    }
  }

  /** Two real calendar times at the same second are the same calendar time. */
  lemma RealTimeIsUnique(a: Tm, b: Tm)
    requires IsReal(a) && IsReal(b)
    requires SecondsSinceEpoch(a) == SecondsSinceEpoch(b)
    ensures a == b
  {
    hide IsLeap, MonthLength, DayNumber;
    SameDay(DayNumber(a), SecondOfDay(a), DayNumber(b), SecondOfDay(b));
    SameDaySameDate(a, b);
  }

  lemma SameDay(day: int, second: int, otherDay: int, otherSecond: int)
    requires 0 <= second < SECONDS_PER_DAY && 0 <= otherSecond < SECONDS_PER_DAY
    requires day * SECONDS_PER_DAY + second == otherDay * SECONDS_PER_DAY + otherSecond
    ensures day == otherDay && second == otherSecond
  {
  }

  /** `Gmtime` and `SecondsSinceEpoch` are mutually inverse: a bijection between the integers and real times. */
  lemma CalendarBijection(tm: Tm, raw: int)
    requires IsReal(tm)
    ensures Gmtime(raw) == tm <==> SecondsSinceEpoch(tm) == raw
  {
    if SecondsSinceEpoch(tm) == raw {
      RealTimeIsUnique(Gmtime(raw), tm);
    }
  }

  // ----- timegm -----

  /** Months outside 0..11 are carried into the year; the other fields enter the sum as they are. */
  function CarryMonths(tm: Tm): (r: Tm)
    ensures 0 <= r.mon < 12
    ensures r.year * 12 + r.mon == tm.year * 12 + tm.mon
  {
    tm.(year := tm.year + tm.mon / 12, mon := tm.mon % 12)
  }

  function Timegm(tm: Tm): int {
    SecondsSinceEpoch(CarryMonths(tm))
  }

  lemma RealMonthsCarryNothing(tm: Tm)
    requires 0 <= tm.mon < 12
    ensures CarryMonths(tm) == tm
  {
  }

  lemma TimegmOfRealTime(tm: Tm)
    requires IsReal(tm)
    ensures Timegm(tm) == SecondsSinceEpoch(tm)
  {
    hide SecondsSinceEpoch;
    RealMonthsCarryNothing(tm);
  }

  /** What `timegm` leaves in its argument. */
  function Normalised(tm: Tm): (r: Tm)
    ensures IsReal(r)
    ensures Timegm(r) == Timegm(tm)
  {
    var r := Gmtime(Timegm(tm));
    RealMonthsCarryNothing(r);
    r
  }

  /** Normalising leaves exactly the real calendar times alone, so comparing the fields before and after
      accepts exactly those. */
  lemma NormalisingFixesExactlyRealTimes(tm: Tm)
    ensures Normalised(tm) == tm <==> IsReal(tm)
  {
    if IsReal(tm) {
      RealMonthsCarryNothing(tm);
      RealTimeIsUnique(Normalised(tm), tm);
    }
  }

  // ----- the calendar without its month lengths -----

  /** The leap years of the Gregorian calendar. */
  lemma LeapYears(year: int)
    ensures IsLeap(year) <==>
            (year + 1900) % 400 == 0 || ((year + 1900) % 4 == 0 && (year + 1900) % 100 != 0)
  {
    LeapTerms(year);
  }

  /** Days before a month by the closed formula: from March on five months have 153 days. */
  lemma DaysBeforeMonthByFormula(leap: bool, mon: int)
    requires 0 <= mon < 12
    ensures DaysBeforeMonth(leap, mon) ==
            if mon == 0 then 0 else if mon == 1 then 31
            else 59 + (if leap then 1 else 0) + (153 * (mon - 2) + 2) / 5
  {
    var extra := if leap then 1 else 0;
    assert DaysBeforeMonth(leap, 1) == 31 && DaysBeforeMonth(leap, 2) == 59 + extra;
    assert DaysBeforeMonth(leap, 3) == 90 + extra && DaysBeforeMonth(leap, 4) == 120 + extra;
    assert DaysBeforeMonth(leap, 5) == 151 + extra && DaysBeforeMonth(leap, 6) == 181 + extra;
    assert DaysBeforeMonth(leap, 7) == 212 + extra && DaysBeforeMonth(leap, 8) == 243 + extra;
    assert DaysBeforeMonth(leap, 9) == 273 + extra && DaysBeforeMonth(leap, 10) == 304 + extra;
    assert DaysBeforeMonth(leap, 11) == 334 + extra;
  }

  /** A month has the days the table gives it, and time of day stops before 24:00:00. */
  lemma RealTimesByTable(tm: Tm)
    ensures IsReal(tm) <==>
            && 0 <= tm.mon < 12
            && 1 <= tm.mday <= [31, if IsLeap(tm.year) then 29 else 28, 31, 30, 31, 30, 31, 31, 30, 31, 30, 31][tm.mon]
            && 0 <= tm.hour <= 23 && 0 <= tm.min <= 59 && 0 <= tm.sec <= 59
  {
  }

  /** The day of the year, counted from 0, of a real date. */
  function YearDay(tm: Tm): int {
    tm.mday - 1 +
    (if tm.mon == 0 then 0 else if tm.mon == 1 then 31
     else 59 + (if IsLeap(tm.year) then 1 else 0) + (153 * (tm.mon - 2) + 2) / 5)
  }

  /** Seconds since the epoch are those of the POSIX formula, term by term. */
  lemma SecondsByPosix(tm: Tm)
    requires IsReal(tm)
    ensures SecondsSinceEpoch(tm) ==
            tm.sec + tm.min * 60 + tm.hour * 3600 + YearDay(tm) * 86400 + (tm.year - 70) * 31536000 +
            ((tm.year - 69) / 4) * 86400 - ((tm.year - 1) / 100) * 86400 + ((tm.year + 299) / 400) * 86400
  {
    hide IsLeap, DaysBeforeMonth;
    DaysBeforeMonthByFormula(IsLeap(tm.year), tm.mon);
  }

  /** Breaking a time down gives the fields for which the POSIX formula yields it, and they are the only ones. */
  lemma GmtimeByPosix(raw: int, tm: Tm)
    requires IsReal(tm)
    ensures Gmtime(raw) == tm <==>
            raw == tm.sec + tm.min * 60 + tm.hour * 3600 + YearDay(tm) * 86400 + (tm.year - 70) * 31536000 +
                   ((tm.year - 69) / 4) * 86400 - ((tm.year - 1) / 100) * 86400 + ((tm.year + 299) / 400) * 86400
  {
    CalendarBijection(tm, raw);
    SecondsByPosix(tm);
    hide SecondsSinceEpoch, Gmtime, YearDay, IsReal;
  }

  lemma TheEpoch()
    ensures Gmtime(0) == Tm(70, 0, 1, 0, 0, 0)
  {
    hide *;
    EpochIsReal();
    GmtimeByPosix(0, Tm(70, 0, 1, 0, 0, 0));
  }

  lemma EpochIsReal()
    ensures IsReal(Tm(70, 0, 1, 0, 0, 0)) && YearDay(Tm(70, 0, 1, 0, 0, 0)) == 0
  {
    hide IsLeap;
  }
}
