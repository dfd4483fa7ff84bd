/** The proleptic Gregorian calendar in UTC, as gmtime_r and timegm use it.

    Everything is defined from two rules, the length of a month and the leap year rule.  Months are
    numbered consecutively (12 * year + month, January is 0), days from 1970-01-01, and an instant
    is a day together with a time of day. */
module Calendar {

  const EPOCH_MONTH := 12 * 1970

  predicate IsLeap(year: int) {
    year % 4 == 0 && (year % 100 != 0 || year % 400 == 0)
  }

  /** The number of days of a month, given by its consecutive number. */
  function MonthLength(month: int): (length: int)
    ensures 28 <= length <= 31
  {
    var m := month % 12;
    if m == 1 then (if IsLeap(month / 12) then 29 else 28)
    else if m == 3 || m == 5 || m == 8 || m == 10 then 30
    else 31
  }

  /** The first day of a month. */
  function FirstDay(month: int): int
    decreases if month >= EPOCH_MONTH then month - EPOCH_MONTH else EPOCH_MONTH - month
  {
    if month == EPOCH_MONTH then 0
    else if month > EPOCH_MONTH then FirstDay(month - 1) + MonthLength(month - 1)
    else FirstDay(month + 1) - MonthLength(month)
  }

  lemma {:induction false} FirstDayNext(month: int)
    ensures FirstDay(month + 1) == FirstDay(month) + MonthLength(month)
  {
  }

  lemma {:induction false} FirstDayMonotone(a: int, b: int)
    requires a <= b
    ensures FirstDay(a) + 28 * (b - a) <= FirstDay(b) <= FirstDay(a) + 31 * (b - a)
    decreases b - a
  {
    if a < b {
      FirstDayMonotone(a, b - 1);
      FirstDayNext(b - 1);
    }
  }

  /** The month that contains a day, searched from the given month on. */
  function MonthFrom(day: int, month: int): (r: int)
    ensures FirstDay(r) <= day < FirstDay(r + 1)
    decreases if day < FirstDay(month) then FirstDay(month) - day + 31 else day - FirstDay(month)
  {
    FirstDayNext(month);
    FirstDayNext(month - 1);
    if day < FirstDay(month) then MonthFrom(day, month - 1)
    else if FirstDay(month + 1) <= day then MonthFrom(day, month + 1)
    else month
  }

  /** The month that contains a day. */
  function MonthOf(day: int): (r: int)
    ensures FirstDay(r) <= day < FirstDay(r + 1)
  {
    MonthFrom(day, EPOCH_MONTH)
  }

  lemma {:induction false} MonthOfUnique(day: int, month: int)
    requires FirstDay(month) <= day < FirstDay(month + 1)
    ensures MonthOf(day) == month
  {
    var r := MonthOf(day);
    if r < month {
      FirstDayMonotone(r + 1, month);
    } else if month < r {
      FirstDayMonotone(month + 1, r);
    }
  }

  /** A day moves into the next month exactly when it passes the month's last day. */
  lemma {:induction false} MonthOfMonotone(d1: int, d2: int)
    requires d1 <= d2
    ensures MonthOf(d1) <= MonthOf(d2)
  {
    if MonthOf(d2) < MonthOf(d1) {
      FirstDayMonotone(MonthOf(d2) + 1, MonthOf(d1));
    }
  }

  function DayOfMonth(day: int): (r: int)
    ensures 1 <= r <= MonthLength(MonthOf(day))
  {
    FirstDayNext(MonthOf(day));
    day - FirstDay(MonthOf(day)) + 1
  }

  /** January is 0. */
  function MonthOfYear(day: int): (r: int)
    ensures 0 <= r < 12
  {
    MonthOf(day) % 12
  }

  function YearOf(day: int): int {
    MonthOf(day) / 12
  }

  /** Sunday is 0; 1970-01-01 was a Thursday. */
  function Weekday(day: int): (r: int)
    ensures 0 <= r < 7
  {
    (day + 4) % 7
  }

  // ---------------------------------------------------------------------------------------------
  // The closed form, and the period of 400 years
  // ---------------------------------------------------------------------------------------------

  /** The day on which a year begins: 365 days a year and one for every leap year before it. */
  function YearStart(year: int): int {
    365 * year + (year + 3) / 4 - (year + 99) / 100 + (year + 399) / 400 - 719528
  }

  /** The days of a year before one of its months. */
  function DaysBefore(month: int, leap: bool): int {
    var feb := if leap then 29 else 28;
    if month <= 0 then 0
    else if month == 1 then 31
    else if month == 2 then 31 + feb
    else if month == 3 then 62 + feb
    else if month == 4 then 92 + feb
    else if month == 5 then 123 + feb
    else if month == 6 then 153 + feb
    else if month == 7 then 184 + feb
    else if month == 8 then 215 + feb
    else if month == 9 then 245 + feb
    else if month == 10 then 276 + feb
    else 306 + feb
  }

  lemma {:induction false} CountNext4(year: int)
    ensures (year + 4) / 4 == (year + 3) / 4 + (if year % 4 == 0 then 1 else 0)
  {
  }

  lemma {:induction false} CountNext100(year: int)
    ensures (year + 100) / 100 == (year + 99) / 100 + (if year % 100 == 0 then 1 else 0)
  {
  }

  lemma {:induction false} CountNext400(year: int)
    ensures (year + 400) / 400 == (year + 399) / 400 + (if year % 400 == 0 then 1 else 0)
  {
  }

  lemma {:induction false} Multiples(year: int)
    ensures year % 400 == 0 ==> year % 100 == 0
    ensures year % 100 == 0 ==> year % 4 == 0
  {
  }

  lemma {:induction false} YearStartNext(year: int)
    ensures YearStart(year + 1) == YearStart(year) + (if IsLeap(year) then 366 else 365)
  {
    CountNext4(year);
    CountNext100(year);
    CountNext400(year);
    Multiples(year);
  }

  function ClosedForm(month: int): int {
    YearStart(month / 12) + DaysBefore(month % 12, IsLeap(month / 12))
  }

  lemma {:induction false} ClosedFormNext(month: int)
    ensures ClosedForm(month + 1) == ClosedForm(month) + MonthLength(month)
  {
    hide YearStart;
    if month % 12 == 11 {
      YearStartNext(month / 12);
    }
  }

  lemma {:induction false} ClosedFormEpoch()
    ensures ClosedForm(EPOCH_MONTH) == 0
  {
  }

  /** The month-by-month count agrees with the usual formula. */
  lemma {:induction false} FirstDayClosed(month: int)
    ensures FirstDay(month) == ClosedForm(month)
    decreases if month >= EPOCH_MONTH then month - EPOCH_MONTH else EPOCH_MONTH - month
  {
    hide ClosedForm, MonthLength;
    if month == EPOCH_MONTH {
      ClosedFormEpoch();
    } else if month > EPOCH_MONTH {
      FirstDayClosed(month - 1);
      ClosedFormNext(month - 1);
    } else {
      FirstDayClosed(month + 1);
      ClosedFormNext(month);
    }
  }

  /** The Gregorian calendar repeats every 400 years, which are a whole number of weeks. */
  const CYCLE_MONTHS := 4800
  const CYCLE_DAYS := 146097

  lemma {:induction false} CountPeriodic4(year: int)
    ensures (year + 400) / 4 == year / 4 + 100 && (year + 400) % 4 == year % 4
  {
  }

  lemma {:induction false} CountPeriodic100(year: int)
    ensures (year + 400) / 100 == year / 100 + 4 && (year + 400) % 100 == year % 100
  {
  }

  lemma {:induction false} CountPeriodic400(year: int)
    ensures (year + 400) / 400 == year / 400 + 1 && (year + 400) % 400 == year % 400
  {
  }

  lemma {:induction false} YearPeriodic(year: int)
    ensures YearStart(year + 400) == YearStart(year) + CYCLE_DAYS
    ensures IsLeap(year + 400) == IsLeap(year)
  {
    CountPeriodic4(year);
    CountPeriodic100(year);
    CountPeriodic400(year);
    CountPeriodic4(year + 3);
    CountPeriodic100(year + 99);
    CountPeriodic400(year + 399);
  }

  lemma {:induction false} YearsPeriodic(year: int, q: nat)
    ensures YearStart(year + 400 * q) == YearStart(year) + CYCLE_DAYS * q
    ensures IsLeap(year + 400 * q) == IsLeap(year)
  {
    hide YearStart, IsLeap;
    if q > 0 {
      YearsPeriodic(year, q - 1);
      YearPeriodic(year + 400 * (q - 1));
    }
  }

  lemma {:induction false} MonthShift(month: int)
    ensures (month + CYCLE_MONTHS) / 12 == month / 12 + 400
    ensures (month + CYCLE_MONTHS) % 12 == month % 12
  {
  }

  lemma {:induction false} FirstDayPeriodic(month: int)
    ensures FirstDay(month + CYCLE_MONTHS) == FirstDay(month) + CYCLE_DAYS
    ensures MonthLength(month + CYCLE_MONTHS) == MonthLength(month)
  {
    hide YearStart, IsLeap, DaysBefore, FirstDay;
    FirstDayClosed(month);
    FirstDayClosed(month + CYCLE_MONTHS);
    MonthShift(month);
    YearPeriodic(month / 12);
  }

  lemma {:induction false} MonthOfPeriodic(day: int)
    ensures MonthOf(day + CYCLE_DAYS) == MonthOf(day) + CYCLE_MONTHS
    ensures DayOfMonth(day + CYCLE_DAYS) == DayOfMonth(day)
    ensures MonthOfYear(day + CYCLE_DAYS) == MonthOfYear(day)
    ensures Weekday(day + CYCLE_DAYS) == Weekday(day)
    ensures YearOf(day + CYCLE_DAYS) == YearOf(day) + 400
  {
    hide FirstDay, MonthLength;
    FirstDayPeriodic(MonthOf(day));
    FirstDayPeriodic(MonthOf(day) + 1);
    MonthOfUnique(day + CYCLE_DAYS, MonthOf(day) + CYCLE_MONTHS);
    MonthShift(MonthOf(day));
  }

  /** 1 January of these years of a cycle falls on seven different weekdays. */
  function YearForGap(gap: int): (j: int)
    requires 0 <= gap < 7
    ensures (YearStart(j) + 719528) % 7 == gap
  {
    if gap == 0 then 0 else if gap == 1 then 6 else if gap == 2 then 1 else if gap == 3 then 2
    else if gap == 4 then 3 else if gap == 5 then 4 else 10
  }

  lemma {:induction false} WholeWeeks(weeks: int, wday: int)
    requires 0 <= wday < 7
    ensures (7 * weeks + wday) % 7 == wday
  {
  }

  lemma {:induction false} SameWeekday(a: int, b: int) returns (weeks: int)
    requires a % 7 == b % 7
    ensures a == b + 7 * weeks
  {
    weeks := a / 7 - b / 7;
  }

  lemma {:induction false} WeekdayOfSum(start: int, mday: int, wday: int, q: nat)
    requires 0 <= wday < 7
    requires (start + 719528) % 7 == (wday - mday + 2) % 7
    ensures Weekday(start + CYCLE_DAYS * q + mday - 1) == wday
  {
    var weeks := SameWeekday(start + 719528, wday - mday + 2);
    WholeWeeks(weeks - 102789 + 20871 * q, wday);
  }

  /** Every day of the month falls on every weekday, arbitrarily late. */
  lemma {:induction false} DayAndWeekday(mday: int, wday: int, from: int) returns (day: int)
    requires 1 <= mday <= 31 && 0 <= wday < 7
    ensures from <= day && DayOfMonth(day) == mday && Weekday(day) == wday
  {
    hide FirstDay, MonthLength, YearStart, Weekday;
    var q := (if from > 0 then from else 0) + 5;
    var j := YearForGap((wday - mday + 2) % 7);
    var month := 12 * (j + 400 * q);
    YearsPeriodic(j, q);
    FirstDayClosed(month);
    FirstDayNext(month);
    JanuaryHas31(j + 400 * q);
    day := FirstDay(month) + mday - 1;
    MonthOfUnique(day, month);
    WeekdayOfSum(YearStart(j), mday, wday, q);
    YearStartAtLeast(j);
  }

  lemma {:induction false} YearStartAtLeast(year: nat)
    ensures YearStart(year) >= -719528
  {
  }

  lemma {:induction false} JanuaryHas31(year: int)
    ensures MonthLength(12 * year) == 31
  {
  }

  // ---------------------------------------------------------------------------------------------
  // Instants
  // ---------------------------------------------------------------------------------------------

  datatype RawInstant = At(day: int, hour: int, min: int, sec: int)

  /** A point in time, to the second. */
  type Instant = x: RawInstant | 0 <= x.hour < 24 && 0 <= x.min < 60 && 0 <= x.sec < 60
    witness At(0, 0, 0, 0)

  /** Seconds since 1970-01-01 00:00:00, a time_t. */
  function Seconds(x: Instant): int {
    86400 * x.day + 3600 * x.hour + 60 * x.min + x.sec
  }

  function FromSeconds(t: int): Instant {
    var s := t % 86400;
    var r := s % 3600;
    At(t / 86400, s / 3600, r / 60, r % 60)
  }

  lemma {:induction false} SecondsFromSeconds(t: int)
    ensures Seconds(FromSeconds(t)) == t
  {
  }

  lemma {:induction false} SecondsInjective(x: Instant, y: Instant)
    requires Seconds(x) == Seconds(y)
    ensures x == y
  {
    assert -86400 < 86400 * (x.day - y.day) < 86400;
    assert -3600 < 3600 * (x.hour - y.hour) < 3600;
  }

  lemma {:induction false} FromSecondsSeconds(x: Instant)
    ensures FromSeconds(Seconds(x)) == x
  {
    SecondsFromSeconds(Seconds(x));
    SecondsInjective(FromSeconds(Seconds(x)), x);
  }

  /** The number of the minute an instant lies in, counted from the epoch. */
  function MinuteNo(x: Instant): int {
    1440 * x.day + 60 * x.hour + x.min
  }

  // ---------------------------------------------------------------------------------------------
  // Broken-down time
  // ---------------------------------------------------------------------------------------------

  /** The fields of a struct tm that the code uses; year is counted from 1900. */
  datatype Tm = Tm(sec: int, min: int, hour: int, mday: int, mon: int, year: int, wday: int)

  /** gmtime_r. */
  function TmOf(x: Instant): Tm {
    Tm(x.sec, x.min, x.hour, DayOfMonth(x.day), MonthOfYear(x.day), YearOf(x.day) - 1900, Weekday(x.day))
  }

  /** The value of timegm: fields outside their usual range carry over, the weekday is ignored. */
  function Timegm(tm: Tm): int {
    86400 * (FirstDay(12 * (tm.year + 1900) + tm.mon) + tm.mday - 1) + 3600 * tm.hour + 60 * tm.min + tm.sec
  }

  /** What timegm leaves in its argument: every field brought back into range. */
  function Normalize(tm: Tm): Instant {
    FromSeconds(Timegm(tm))
  }

  lemma {:induction false} TimegmOfTm(x: Instant)
    ensures Timegm(TmOf(x)) == Seconds(x)
  {
    assert 12 * YearOf(x.day) + MonthOfYear(x.day) == MonthOf(x.day);
  }

  /** timegm undoes gmtime_r, and normalising a normal calendar changes nothing. */
  lemma {:induction false} NormalizeTmOf(x: Instant)
    ensures Normalize(TmOf(x)) == x
  {
    TimegmOfTm(x);
    FromSecondsSeconds(x);
  }
}
