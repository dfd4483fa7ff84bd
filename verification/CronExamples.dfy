/** The usual expressions are safe, and three short ones that are not. */
module CronExamples {
  import opened Calendar
  import opened CronSpec
  import opened CronSteps
  import opened CronFire
  import opened CronTheorems
  import opened CronExact

  /** One of the two day fields is unrestricted. */
  predicate OneDayField(e: Expr) {
    (forall v | 1 <= v <= 31 :: v in e.daysOfMonth) || (forall v | 0 <= v < 7 :: v in e.daysOfWeek)
  }

  lemma {:induction false} LongMonthAhead(month: int) returns (long: int)
    ensures month < long <= month + 2 && MonthLength(long) == 31
  {
    ModYear(month, month + 1);
    ModYear(month, month + 2);
    long := if MonthLength(month + 1) == 31 then month + 1 else month + 2;
  }

  /** Every day of the month comes again within 93 days. */
  lemma {:induction false} DayOfMonthAhead(day: int, mday: int) returns (later: int)
    requires 1 <= mday <= 31
    ensures day < later <= day + 93 && DayOfMonth(later) == mday
  {
    hide MonthLength, FirstDay;
    var month := LongMonthAhead(MonthOf(day));
    LandingDay(month, mday);
    later := DayAt(month, mday);
    LaterMonth(day, month);
    FirstDayMonotone(MonthOf(day), month);
  }

  lemma {:induction false} WeekdayAhead(day: int, wday: int) returns (later: int)
    requires 0 <= wday < 7
    ensures day <= later < day + 7 && Weekday(later) == wday
  {
    later := day + (wday - Weekday(day)) % 7;
  }

  lemma {:induction false} NearDaysDiffer(day: int, later: int)
    requires day < later < day + 28
    ensures DayOfMonth(later) != DayOfMonth(day)
  {
    hide MonthLength, FirstDay;
    MonthOfMonotone(day, later);
    FirstDayNext(MonthOf(day));
    if MonthOf(day) < MonthOf(later) {
      LaterMonth(day, MonthOf(later));
      FirstDayMonotone(MonthOf(day), MonthOf(later));
    }
  }

  /** With one day field unrestricted, the day step never stops on another day of the same number. */
  lemma {:induction false} OneDayFieldSettles(e: Expr, day: int)
    requires Valid(e) && OneDayField(e) && Settles(e, day)
    ensures MatchesDay(e, day)
  {
    hide DayOfMonth, Weekday;
    if forall v | 0 <= v < 7 :: v in e.daysOfWeek {
      var mday := InRangeHasElement(e.daysOfMonth, 1, 32);
      var later := DayOfMonthAhead(day, mday);
      assert MatchesDay(e, later);
      assert MatchesDay(e, StopDay(e, day));
    } else {
      var wday := InRangeHasElement(e.daysOfWeek, 0, 7);
      var later := WeekdayAhead(day, wday);
      assert 1 <= DayOfMonth(later) <= 31;
      assert MatchesDay(e, later);
      if StopDay(e, day) != day {
        NearDaysDiffer(day, StopDay(e, day));
      }
    }
  }

  lemma {:induction false} OneDayFieldIsSafe(e: Expr)
    requires Valid(e) && OneDayField(e)
    ensures SafeDays(e)
  {
    forall day ensures !MisplacesDay(e, day) {
      if Settles(e, day) {
        OneDayFieldSettles(e, day);
      }
    }
  }

  ghost predicate SimpleMonths(e: Expr) {
    || (forall v | 0 <= v < 12 :: v in e.months)
    || (forall v | v in e.daysOfMonth :: v <= 28)
    || (exists v :: e.daysOfMonth == {v})
  }

  lemma {:induction false} SimpleMonthsAreSafe(e: Expr)
    requires Valid(e) && OneDayField(e) && SimpleMonths(e)
    ensures SafeMonths(e)
  {
    hide MonthLength, StopDay, TargetMonth;
    forall day, other ensures !MissesDay(e, day, other) {
      if Settles(e, day) {
        OneDayFieldSettles(e, day);
        StopOfMatch(e, day);
      }
    }
  }

  lemma {:induction false} StopOfMatch(e: Expr, day: int)
    requires MatchesDay(e, day)
    ensures StopDay(e, day) == day
  {
  }

  ghost predicate SimpleSeconds(e: Expr) {
    (forall v | 0 <= v < 60 :: v in e.seconds) || (exists v :: e.seconds == {v})
  }

  /** Expressions that leave one day field open, name one second or all of them, and either every
      month, one day of the month or days up to the 28th only, are answered correctly. */
  lemma {:induction false} SimpleIsRight(e: Expr, date: int)
    requires Valid(e) && OneDayField(e) && SimpleMonths(e) && SimpleSeconds(e) && 0 <= date
    ensures RightAnswer(e, date)
  {
    hide RightAnswer, SafeDays, SafeMonths;
    OneDayFieldIsSafe(e);
    SimpleMonthsAreSafe(e);
    assert Convex(e.seconds);
    SafeIsRight(e, date);
  }

  // ---------------------------------------------------------------------------------------------
  // Three expressions that are answered wrongly
  // ---------------------------------------------------------------------------------------------

  lemma {:induction false} DateOf(year: int, mon: int, mday: int, first: int) returns (day: int)
    requires 0 <= mon < 12 && 1 <= mday <= 28
    requires first == YearStart(year) + DaysBefore(mon, IsLeap(year))
    ensures day == first + mday - 1 && MonthOf(day) == 12 * year + mon && DayOfMonth(day) == mday
    ensures FirstDay(12 * year + mon) == first
  {
    hide FirstDay, YearStart, DaysBefore, IsLeap;
    FirstDayClosed(12 * year + mon);
    LandingDay(12 * year + mon, mday);
    day := first + mday - 1;
  }

  lemma {:induction false} MonthOfSeptemberOctober(d: int)
    requires 17789 <= d <= 17819
    ensures DayOfMonth(d) == (if d < 17805 then d - 17774 else d - 17804)
    ensures MonthOfYear(d) == (if d < 17805 then 8 else 9)
  {
    hide FirstDay;
    var september := DateOf(2018, 8, 15, 17775);
    var october := DateOf(2018, 9, 15, 17805);
    var november := DateOf(2018, 10, 15, 17836);
    MonthOfUnique(d, if d < 17805 then 12 * 2018 + 8 else 12 * 2018 + 9);
  }

  lemma {:induction false} AMonday()
    ensures Weekday(17819) == 1
  {
  }

  lemma {:induction false} NotMondayTheFifteenth(e: Expr, d: int)
    requires e.daysOfMonth == {15} && e.daysOfWeek == {1} && 17789 <= d < 17819
    ensures !MatchesDay(e, d)
  {
    hide DayOfMonth;
    MonthOfSeptemberOctober(d);
  }

  lemma {:induction false} StopIs(e: Expr, day: int, stop: int)
    requires day <= stop <= day + MAX_DAYS && MatchesDay(e, stop)
    requires forall d | day <= d < stop :: !MatchesDay(e, d)
    ensures StopDay(e, day) == stop
  {
    hide MatchesDay;
  }

  lemma {:induction false} MondayTheFifteenth(e: Expr)
    requires e.daysOfMonth == {15} && e.daysOfWeek == {1}
    ensures !MatchesDay(e, 17789) && MatchesDay(e, 17819) && StopDay(e, 17789) == 17819 && Settles(e, 17789)
    ensures MonthOfYear(17819) == 9
  {
    hide DayOfMonth, MonthOfYear, StopDay, Weekday;
    AMonday();
    forall d | 17789 <= d < 17819 ensures !MatchesDay(e, d) {
      NotMondayTheFifteenth(e, d);
    }
    MonthOfSeptemberOctober(17789);
    MonthOfSeptemberOctober(17819);
    assert MatchesDay(e, 17819);
    StopIs(e, 17789, 17819);
  }

  const MONDAY_THE_15TH := Expr({30}, {30}, {12}, {1}, {15}, Range(0, 12))

  /** `30 30 12 15 * MON` on Saturday 15 September 2018, 12:30:30: the answer is Monday 15 October,
      00:00:00, which does not match. */
  lemma {:induction false} BothDayFields()
    ensures var e := MONDAY_THE_15TH;
            var date := Seconds(At(17789, 12, 30, 30));
            && Valid(e) && NextFire(e, date) == Seconds(At(17819, 0, 0, 0))
            && !MatchesAt(e, NextFire(e, date)) && !RightAnswer(e, date)
  {
    hide Least, NextFire, RightAnswer, MatchesAt, Settles, StopDay, MatchesDay, MonthOfYear, Range;
    var e := MONDAY_THE_15TH;
    assert 0 in Range(0, 12);
    assert Valid(e);
    MondayTheFifteenth(e);
    assert MisplacesDay(e, 17789);
    MisplacedDayFails(e, 17789);
    assert Opening(e, 17789) == At(17789, 12, 30, 30);
  }

  const TWO_SECONDS_OF_MINUTE_15 := Expr({0, 30}, {15}, Range(0, 24), Range(0, 7), Range(1, 32), Range(0, 12))

  /** `0,30 15 * * * *` on 15 September 2018, 10:14:10: the answer is 10:15:30, although 10:15:00
      matches and comes first. */
  lemma {:induction false} SecondsWithAGap()
    ensures var e := TWO_SECONDS_OF_MINUTE_15;
            var date := Seconds(At(17789, 10, 14, 10));
            && Valid(e) && NextFire(e, date) == Seconds(At(17789, 10, 15, 30))
            && MatchesAt(e, Seconds(At(17789, 10, 15, 0)))
  {
    hide NextFire, RightAnswer, DayOfMonth, MonthOfYear, Weekday, Range, SafeMonths, FromSeconds, MonthOf, FirstDay;
    var e := TWO_SECONDS_OF_MINUTE_15;
    var x := At(17789, 10, 14, 10);
    assert 0 in Range(0, 24) && 0 in Range(0, 7) && 1 in Range(1, 32) && 0 in Range(0, 12);
    assert Valid(e);
    SimpleMonthsAreSafe(e);
    MatchesEveryDay(e, 17789);
    assert Boundary(e, x);
    GapFails(e, x, 0, 30);
    FromSecondsSeconds(At(17789, 10, 15, 0));
  }

  lemma {:induction false} MatchesEveryDay(e: Expr, day: int)
    requires e.daysOfMonth == Range(1, 32) && e.daysOfWeek == Range(0, 7) && e.months == Range(0, 12)
    ensures MatchesDay(e, day) && MatchesMonth(e, day)
  {
  }

  const LEAP_DAY := Expr({0}, {0}, {0}, Range(0, 7), {29}, {1})

  const DAYS_OF_FEBRUARY := Expr({0}, {0}, {0}, Range(0, 7), {5, 31}, {1})

  /** `0 0 0 5,31 FEB *` on 31 January 2019: 5 February 2019 is passed over. */
  lemma {:induction false} MonthPassedOver()
    ensures var e := DAYS_OF_FEBRUARY;
            var date := Seconds(At(17927, 0, 0, 0));
            var missed := Seconds(At(17932, 0, 0, 0));
            && Valid(e) && date < missed && MatchesAt(e, missed)
            && (NextFire(e, date) == -1 || missed < NextFire(e, date))
  {
    hide Least, NextFire, RightAnswer, MatchesAt, StopDay, DayOfMonth, Range, FirstDay, MonthOf;
    var e := DAYS_OF_FEBRUARY;
    assert 0 in Range(0, 7);
    assert Valid(e);
    JanuaryAndFebruary2019();
    StopOfMatch(e, 17927);
    assert TargetMonth(e, 12 * 2019) == 12 * 2019 + 1 by { TargetMonthIsNext(e, 12 * 2019); }
    assert MissesDay(e, 17927, 17932);
    MissedDayFails(e, 17927, 17932);
    assert Opening(e, 17927) == At(17927, 0, 0, 0) && Opening(e, 17932) == At(17932, 0, 0, 0);
  }

  lemma {:induction false} JanuaryAndFebruary2019()
    ensures MonthOf(17927) == 12 * 2019 && DayOfMonth(17927) == 31
    ensures MonthOf(17932) == 12 * 2019 + 1 && DayOfMonth(17932) == 5
    ensures MonthLength(12 * 2019 + 1) == 28
  {
    hide FirstDay;
    var january := DateOf(2019, 0, 1, 17897);
    var february := DateOf(2019, 1, 5, 17928);
    MonthOfUnique(17927, 12 * 2019);
  }
}
