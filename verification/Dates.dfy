/** kernel/src/HAL/Time.cpp: days and seconds since 1970-01-01 in the proleptic Gregorian calendar. */
module Dates {

  // ---------- The calendar ----------

  predicate IsLeap(year: int) {
    year % 4 == 0 && (year % 100 != 0 || year % 400 == 0)
  }

  function MonthLength(year: int, month: int): nat {
    if month == 2 then (if IsLeap(year) then 29 else 28)
    else if month == 4 || month == 6 || month == 9 || month == 11 then 30 else 31
  }

  function YearLength(year: int): nat {
    if IsLeap(year) then 366 else 365
  }

  datatype Date = Date(year: int, month: int, day: int)

  predicate IsDate(d: Date) {
    1 <= d.month <= 12 && 1 <= d.day <= MonthLength(d.year, d.month)
  }

  /** The next day of the calendar. */
  function NextDay(d: Date): Date {
    if d.day < MonthLength(d.year, d.month) then Date(d.year, d.month, d.day + 1)
    else if d.month < 12 then Date(d.year, d.month + 1, 1)
    else Date(d.year + 1, 1, 1)
  }

  const EPOCH := Date(1970, 1, 1)

  function Later(d: Date, n: nat): Date {
    if n == 0 then d else NextDay(Later(d, n - 1))
  }

  // ---------- The function ----------

  /** Division of 32-bit numbers in C: towards zero. */
  function Truncate(x: int, y: int): int
    requires y > 0
  {
    if x >= 0 then x / y else -((-x) / y)
  }

  function Shifted(year: int, month: int): int {
    if month <= 2 then year - 1 else year
  }

  function Era(y: int): int {
    Truncate(if y >= 0 then y else y - 399, 400)
  }

  /** The day of the era, counted from the first of March of its first year. */
  function DayOfEra(yoe: int, month: int, day: int): int {
    var doy := (153 * (if month > 2 then month - 3 else month + 9) + 2) / 5 + day - 1;
    yoe * 365 + yoe / 4 - yoe / 100 + doy
  }

  /** DaysSinceUnixEpoch, where no intermediate result exceeds 32 bits. */
  function DaysSinceUnixEpoch(year: int, month: int, day: int): int {
    var y := Shifted(year, month);
    var era := Era(y);
    era * 146097 + DayOfEra(y - era * 400, month, day) - 719468
  }

  function DaysOf(d: Date): int {
    DaysSinceUnixEpoch(d.year, d.month, d.day)
  }

  lemma EraIsFloor(y: int)
    ensures Era(y) == y / 400 && y - Era(y) * 400 == y % 400
  {
  }

  // ---------- One day after another ----------

  lemma DayAdds(d: Date)
    requires d.day < MonthLength(d.year, d.month)
    ensures DaysOf(Date(d.year, d.month, d.day + 1)) == DaysOf(d) + 1
  {
  }

  lemma MonthAdds(d: Date)
    requires IsDate(d) && d.day == MonthLength(d.year, d.month) && d.month != 2 && d.month < 12
    ensures DaysOf(Date(d.year, d.month + 1, 1)) == DaysOf(d) + 1
  {
  }

  lemma DecemberAdds(d: Date)
    requires IsDate(d) && d.day == 31 && d.month == 12
    ensures DaysOf(Date(d.year + 1, 1, 1)) == DaysOf(d) + 1
  {
  }

  lemma YearOfEraAdds(b: int)
    requires 1 <= b < 400
    ensures DayOfEra(b, 3, 1) == DayOfEra(b - 1, 2, if b % 4 == 0 && b % 100 != 0 then 29 else 28) + 1
  {
    assert b / 4 - (b - 1) / 4 == if b % 4 == 0 then 1 else 0;
    assert b / 100 - (b - 1) / 100 == if b % 100 == 0 then 1 else 0;
  }

  lemma EraAdds()
    ensures DayOfEra(399, 2, 29) == 146096 && DayOfEra(0, 3, 1) == 0
  {
  }

  lemma By4(x: int, q: int, r: int)
    requires x == 4 * q + r && 0 <= r < 4
    ensures x / 4 == q && x % 4 == r
  {
  }

  lemma By100(x: int, q: int, r: int)
    requires x == 100 * q + r && 0 <= r < 100
    ensures x / 100 == q && x % 100 == r
  {
  }

  lemma By400(x: int, q: int, r: int)
    requires x == 400 * q + r && 0 <= r < 400
    ensures x / 400 == q && x % 400 == r
  {
  }

  lemma LeapOfEra(y: int, a: int, b: int)
    requires y == 400 * a + b && 0 <= b < 400
    ensures IsLeap(y) <==> b == 0 || (b % 4 == 0 && b % 100 != 0)
  {
    var q, r := b / 4, b % 4;
    var h, t := b / 100, b % 100;
    By4(y, 100 * a + q, r);
    By100(y, 4 * a + h, t);
    By400(y, a, b);
  }

  lemma EraOf(y: int, a: int, b: int)
    requires y == 400 * a + b && 0 <= b < 400
    ensures Era(y) == a && y - Era(y) * 400 == b
  {
    EraIsFloor(y);
  }

  /** The step from the end of February to March changes the year of the era, and possibly the era. */
  lemma FebruaryAdds(d: Date)
    requires IsDate(d) && d.day == MonthLength(d.year, d.month) && d.month == 2
    ensures DaysOf(Date(d.year, 3, 1)) == DaysOf(d) + 1
  {
    hide Era, DayOfEra, IsLeap;
    var y := d.year;
    var a, b := y / 400, y % 400;
    LeapOfEra(y, a, b);
    EraOf(y, a, b);
    if b == 0 {
      EraOf(y - 1, a - 1, 399);
      EraAdds();
    } else {
      EraOf(y - 1, a, b - 1);
      YearOfEraAdds(b);
    }
  }

  /** The next calendar day is one more. */
  lemma NextAdds(d: Date)
    requires IsDate(d)
    ensures IsDate(NextDay(d)) && DaysOf(NextDay(d)) == DaysOf(d) + 1
  {
    hide DaysSinceUnixEpoch;
    if d.day < MonthLength(d.year, d.month) {
      DayAdds(d);
    } else if d.month == 2 {
      FebruaryAdds(d);
    } else if d.month < 12 {
      MonthAdds(d);
    } else {
      DecemberAdds(d);
    }
  }

  lemma EpochIsZero()
    ensures DaysOf(EPOCH) == 0
  {
  }

  /** Counting day by day from the epoch. */
  lemma {:induction false} CountsDays(d: Date, n: nat)
    requires IsDate(d)
    ensures IsDate(Later(d, n)) && DaysOf(Later(d, n)) == DaysOf(d) + n
    decreases n
  {
    hide DaysOf, NextDay, IsDate;
    if n > 0 {
      CountsDays(d, n - 1);
      NextAdds(Later(d, n - 1));
    }
  }

  // ---------- Every date is reached ----------

  predicate Before(d: Date, e: Date) {
    d.year < e.year || (d.year == e.year && (d.month < e.month || (d.month == e.month && d.day < e.day)))
  }

  /** The distance to a later date in steps of the calendar. */
  lemma {:induction false} Reaches(d: Date, e: Date) returns (n: nat)
    requires IsDate(d) && IsDate(e) && (Before(d, e) || d == e)
    ensures Later(d, n) == e
    decreases e.year - d.year, 500 - (31 * d.month + d.day)
  {
    if d == e {
      n := 0;
    } else {
      NextAdds(d);
      NextTowards(d, e);
      var next := NextDay(d);
      hide NextDay, IsDate, Before, DaysOf;
      var m := Reaches(next, e);
      n := m + 1;
      LaterShift(d, m);
    }
  }

  lemma NextTowards(d: Date, e: Date)
    requires IsDate(d) && IsDate(e) && Before(d, e)
    ensures var f := NextDay(d);
      && (Before(f, e) || f == e) && f.year <= e.year && (f.year > d.year || (f.year == d.year && 31 * f.month + f.day > 31 * d.month + d.day))
      && 31 * f.month + f.day <= 500 && 31 * d.month + d.day <= 500
  {
  }

  lemma {:induction false} LaterShift(d: Date, n: nat)
    ensures Later(NextDay(d), n) == Later(d, n + 1)
    decreases n
  {
    hide NextDay;
    if n > 0 {
      LaterShift(d, n - 1);
    }
  }

  /** DaysSinceUnixEpoch is the number of calendar days from the epoch; before it, the negative of the number up to it. */
  lemma DaysAreCalendarDays(d: Date)
    requires IsDate(d)
    ensures DaysOf(d) >= 0 ==> Later(EPOCH, DaysOf(d)) == d
    ensures DaysOf(d) < 0 ==> Later(d, -DaysOf(d)) == EPOCH
  {
    hide DaysOf, NextDay;
    EpochIsZero();
    if Before(d, EPOCH) {
      var n := Reaches(d, EPOCH);
      CountsDays(d, n);
    } else {
      var n := Reaches(EPOCH, d);
      CountsDays(EPOCH, n);
    }
  }

  // ---------- Years ----------

  /** The days of the calendar before a year, counted from 1970. */
  function DaysBeforeYear(year: int): int
    decreases if year >= 1970 then year - 1970 else 1970 - year
  {
    if year == 1970 then 0
    else if year > 1970 then DaysBeforeYear(year - 1) + YearLength(year - 1)
    else DaysBeforeYear(year + 1) - YearLength(year)
  }

  /** The days of a year before a month. */
  function DaysBeforeMonth(year: int, month: nat): nat {
    if month <= 1 then 0 else DaysBeforeMonth(year, month - 1) + MonthLength(year, month - 1)
  }

  lemma {:induction false} WithinYear(year: int, month: nat, day: nat)
    requires 1 <= month <= 12 && 1 <= day <= MonthLength(year, month)
    ensures DaysOf(Date(year, month, day)) == DaysOf(Date(year, 1, 1)) + DaysBeforeMonth(year, month) + day - 1
    decreases month, day
  {
    hide DaysOf;
    if day > 1 {
      WithinYear(year, month, day - 1);
      NextAdds(Date(year, month, day - 1));
    } else if month > 1 {
      var last := MonthLength(year, month - 1);
      WithinYear(year, month - 1, last);
      NextAdds(Date(year, month - 1, last));
    }
  }

  lemma YearAdds(year: int)
    ensures DaysOf(Date(year + 1, 1, 1)) == DaysOf(Date(year, 1, 1)) + YearLength(year)
  {
    hide DaysOf, IsLeap, DaysBeforeMonth;
    WithinYear(year, 12, 31);
    NextAdds(Date(year, 12, 31));
    MonthsAdd(year);
  }

  lemma MonthsAdd(year: int)
    ensures DaysBeforeMonth(year, 12) == 306 + MonthLength(year, 2)
  {
    hide IsLeap;
    assert DaysBeforeMonth(year, 2) == 31;
    assert DaysBeforeMonth(year, 3) == 31 + MonthLength(year, 2);
    var rest := DaysBeforeMonth(year, 3);
    assert DaysBeforeMonth(year, 4) == rest + 31;
    assert DaysBeforeMonth(year, 5) == rest + 61;
    assert DaysBeforeMonth(year, 6) == rest + 92;
    assert DaysBeforeMonth(year, 7) == rest + 122;
    assert DaysBeforeMonth(year, 8) == rest + 153;
    assert DaysBeforeMonth(year, 9) == rest + 184;
    assert DaysBeforeMonth(year, 10) == rest + 214;
    assert DaysBeforeMonth(year, 11) == rest + 245;
  }

  lemma {:induction false} YearStart(year: int)
    ensures DaysOf(Date(year, 1, 1)) == DaysBeforeYear(year)
    decreases if year >= 1970 then year - 1970 else 1970 - year
  {
    hide DaysOf, YearLength;
    if year == 1970 {
      EpochIsZero();
    } else if year > 1970 {
      YearStart(year - 1);
      YearAdds(year - 1);
    } else {
      YearStart(year + 1);
      YearAdds(year);
    }
  }

  // ---------- Seconds ----------

  /** HAL_GetUnixEpochTime, for a time of day. */
  function EpochTime(d: Date, hours: nat, minutes: nat, seconds: nat): int {
    DaysOf(d) * 86400 + hours * 3600 + minutes * 60 + seconds
  }

  /** The formula of POSIX.1-2017 Base Definitions section 4.16, with tm_year counted from 1900 and tm_yday from 0. */
  function PosixSeconds(tmYear: int, tmYday: int, hours: int, minutes: int, seconds: int): int {
    seconds + minutes * 60 + hours * 3600 + tmYday * 86400 + (tmYear - 70) * 31536000
    + ((tmYear - 69) / 4) * 86400 - ((tmYear - 1) / 100) * 86400 + ((tmYear + 299) / 400) * 86400
  }

  /** The leap days the formula counts. */
  function LeapDays(tmYear: int): int {
    (tmYear - 69) / 4 - (tmYear - 1) / 100 + (tmYear + 299) / 400
  }

  lemma LeapDaysAdd(tmYear: int)
    requires tmYear >= 70
    ensures LeapDays(tmYear + 1) == LeapDays(tmYear) + (if IsLeap(tmYear + 1900) then 1 else 0)
  {
    var y := tmYear;
    Quarters(y);
    Centuries(y);
    FourCenturies(y);
    hide IsLeap;
    LeapRule(y + 1900);
  }

  lemma LeapRule(year: int)
    ensures (if IsLeap(year) then 1 else 0)
         == (if year % 4 == 0 then 1 else 0) - (if year % 100 == 0 then 1 else 0) + (if year % 400 == 0 then 1 else 0)
  {
    var q, r := year / 400, year % 400;
    By100(year, 4 * q + r / 100, r % 100);
    By4(year, 100 * q + r / 4, r % 4);
    hide IsLeap;
    LeapOfEra(year, q, r);
    if r % 100 == 0 {
      HundredsAreFours(r);
    }
  }

  lemma HundredsAreFours(r: int)
    requires 0 <= r < 400 && r % 100 == 0
    ensures r % 4 == 0
  {
    By4(r, 25 * (r / 100), 0);
  }

  lemma Quarters(y: int)
    ensures (y - 68) / 4 == (y - 69) / 4 + (if (y + 1900) % 4 == 0 then 1 else 0)
  {
    var q, r := (y - 69) / 4, (y - 69) % 4;
    By4(y - 68, if r == 3 then q + 1 else q, if r == 3 then 0 else r + 1);
    By4(y + 1900, (if r == 3 then q + 1 else q) + 492, if r == 3 then 0 else r + 1);
  }

  lemma Centuries(y: int)
    ensures y / 100 == (y - 1) / 100 + (if (y + 1900) % 100 == 0 then 1 else 0)
  {
    var q, r := (y - 1) / 100, (y - 1) % 100;
    By100(y, if r == 99 then q + 1 else q, if r == 99 then 0 else r + 1);
    By100(y + 1900, (if r == 99 then q + 1 else q) + 19, if r == 99 then 0 else r + 1);
  }

  lemma FourCenturies(y: int)
    ensures (y + 300) / 400 == (y + 299) / 400 + (if (y + 1900) % 400 == 0 then 1 else 0)
  {
    var q, r := (y + 299) / 400, (y + 299) % 400;
    By400(y + 300, if r == 399 then q + 1 else q, if r == 399 then 0 else r + 1);
    By400(y + 1900, (if r == 399 then q + 1 else q) + 4, if r == 399 then 0 else r + 1);
  }

  lemma {:induction false} PosixYears(year: int)
    requires year >= 1970
    ensures DaysBeforeYear(year) == (year - 1970) * 365 + LeapDays(year - 1900)
    decreases year
  {
    hide IsLeap, LeapDays;
    if year == 1970 {
      assert LeapDays(70) == 0 by {
        LeapDays1970();
      }
    } else {
      PosixYears(year - 1);
      LeapDaysAdd(year - 1901);
    }
  }

  lemma LeapDays1970()
    ensures LeapDays(70) == 0
  {
  }

  /** The seconds are those of the POSIX formula. */
  lemma PosixFormula(d: Date, hours: nat, minutes: nat, seconds: nat)
    requires IsDate(d) && d.year >= 1970
    ensures EpochTime(d, hours, minutes, seconds) == PosixSeconds(d.year - 1900, DaysBeforeMonth(d.year, d.month) + d.day - 1, hours, minutes, seconds)
  {
    hide DaysOf, DaysBeforeMonth, DaysBeforeYear, MonthLength;
    WithinYear(d.year, d.month, d.day);
    YearStart(d.year);
    PosixYears(d.year);
  }

  // ---------- 32 bits ----------

  predicate Fits32(x: int) {
    -0x8000_0000 <= x < 0x8000_0000
  }

  /** No intermediate result of DaysSinceUnixEpoch leaves 32 bits. */
  predicate NoOverflow(year: int, month: int, day: int) {
    var y := Shifted(year, month);
    var era := Era(y);
    var doe := DayOfEra(y - era * 400, month, day);
    && Fits32(y) && Fits32(y - 399) && Fits32(era * 400) && Fits32(era * 146097)
    && Fits32(era * 146097 + doe) && Fits32(era * 146097 + doe - 719468)
  }

  lemma DoeRange(d: Date)
    requires IsDate(d)
    ensures var y := Shifted(d.year, d.month); 0 <= DayOfEra(y - Era(y) * 400, d.month, d.day) <= 146096 + 31
    ensures var y := Shifted(d.year, d.month); 0 <= y - Era(y) * 400 < 400
  {
    EraIsFloor(Shifted(d.year, d.month));
    hide Era;
  }

  /** Later dates have more days. */
  lemma DaysInOrder(d: Date, e: Date)
    requires IsDate(d) && IsDate(e)
    ensures Before(d, e) <==> DaysOf(d) < DaysOf(e)
  {
    hide DaysOf, NextDay, IsDate;
    if Before(d, e) {
      var n := Reaches(d, e);
      CountsDays(d, n);
      assert n > 0;
    } else {
      InOrder(d, e);
      var n := Reaches(e, d);
      CountsDays(e, n);
    }
  }

  lemma InOrder(d: Date, e: Date)
    ensures Before(d, e) || Before(e, d) || d == e
  {
  }

  /** The result fits exactly when every intermediate result does. */
  lemma OverflowByDays(d: Date)
    requires IsDate(d)
    ensures NoOverflow(d.year, d.month, d.day) <==> -0x8000_0000 <= DaysOf(d) && DaysOf(d) + 719468 < 0x8000_0000
  {
    DoeRange(d);
    hide Era, DayOfEra;
  }

  const FIRST_DATE := Date(-5877641, 6, 23)
  const LAST_DATE := Date(5879610, 9, 9)

  lemma FirstDate()
    ensures IsDate(FIRST_DATE) && DaysOf(FIRST_DATE) == -0x8000_0000
  {
    EraOf(-5877641, -14695, 359);
    hide Era;
  }

  lemma LastDate()
    ensures IsDate(LAST_DATE) && DaysOf(LAST_DATE) + 719468 == 0x7FFF_FFFF
  {
    EraOf(5879610, 14699, 10);
    hide Era;
  }

  /** No result leaves 32 bits exactly for the dates from -5877641-06-23 to 5879610-09-09. */
  lemma DatesThatFit(d: Date)
    requires IsDate(d)
    ensures NoOverflow(d.year, d.month, d.day) <==> !Before(d, FIRST_DATE) && !Before(LAST_DATE, d)
  {
    hide DaysOf, NoOverflow, IsDate, Before;
    FirstDate();
    LastDate();
    OverflowByDays(d);
    DaysInOrder(d, FIRST_DATE);
    DaysInOrder(LAST_DATE, d);
  }
}
