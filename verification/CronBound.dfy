/** How far ahead an answer of cron_next can lie (3rd_party/ccronexpr/ccronexpr.c:464-468). The year cutoff is
    tested only when the month moves, so that a search for a day can still run past it, but not further
    than to the first day that the day fields allow. */
module CronBound {
  import opened Calendar
  import opened CronSpec
  import opened CronSteps
  import opened CronFire
  import opened CronUnfold
  import opened CronTheorems
  import opened CronExamples

  /** The first day from 1 December of the fourth year after this tm_year that the day fields allow. */
  ghost function LastDay(e: Expr, dot: int): int
    requires Valid(e)
  {
    NextDay(e, FirstDay(12 * (dot + 1900 + 4) + 11))
  }

  /** What is found lies no later than the first day x can still match, or the last day of all. */
  ghost predicate Bounded(e: Expr, x: Instant, dot: int, o: Outcome)
    requires Valid(e)
  {
    o.Found? ==> Target(e, o.at) <= Target(e, x) || Target(e, o.at) <= LastDay(e, dot)
  }

  lemma {:induction false} NextDayMonotone(e: Expr, a: int, b: int)
    requires Valid(e) && a <= b
    ensures NextDay(e, a) <= NextDay(e, b)
  {
    hide MatchesDay;
  }

  lemma {:induction false} TargetAtMost(e: Expr, x: Instant, day: int)
    requires Valid(e) && x.day < day
    ensures Target(e, x) <= NextDay(e, day)
  {
    hide MatchesDay, MoreToday, MinuteOfDay;
    NextDayMonotone(e, x.day + 1, day);
  }

  /** The first of a month within the cutoff. */
  lemma {:induction false} WithinCutoff(e: Expr, y: Instant, dot: int)
    requires Valid(e) && SecondLeft(e, y) && y.hour == 0 && y.min == 0
    requires y.day == FirstDay(MonthOf(y.day)) && !TooFar(y, dot)
    ensures Target(e, y) <= LastDay(e, dot)
  {
    hide MatchesDay, MonthOf, FirstDay;
    FirstDayMonotone(MonthOf(y.day), 12 * (dot + 1900 + 4) + 11);
    StartOfDay(e, y);
    NextDayMonotone(e, y.day, FirstDay(12 * (dot + 1900 + 4) + 11));
    hide SecondLeft, MoreToday, MinuteOfDay;
    if MatchesDay(e, y.day) {
      assert NextDay(e, y.day) == y.day;
    } else {
      assert NextDay(e, y.day) == NextDay(e, y.day + 1);
    }
  }

  lemma {:induction false} NextBounded(e: Expr, x: Instant, dot: int)
    requires Valid(e)
    ensures Bounded(e, x, dot, DoNext(e, x, dot))
    decreases MonthsLeft(x, dot), Target(e, x) - x.day, MinutesLeft(x), 4
  {
    hide FindNext, DoNext, MinutePart, Target, LastDay;
    UnfoldSecond(e, x, dot);
    FindSecond(e, x);
    match FindNext(e.seconds, 60, x.sec, x, SECOND, MINUTE, [])
    case None =>
    case Some((v, y)) =>
      SecondAdvances(e, x, y);
      MinuteBounded(e, y, dot, if x.sec == v then Push([], SECOND) else []);
  }

  lemma {:induction false} MinuteBounded(e: Expr, x: Instant, dot: int, list: seq<int>)
    requires Valid(e) && MinutePre(e, x, list)
    ensures Bounded(e, x, dot, MinutePart(e, x, dot, list))
    decreases MonthsLeft(x, dot), Target(e, x) - x.day, MinutesLeft(x), 3
  {
    hide FindNext, DoNext, MinutePart, HourPart, Target, LastDay;
    UnfoldMinute(e, x, dot, list);
    FindMinute(e, x, list);
    match FindNext(e.minutes, 60, x.min, x, MINUTE, HOUR_OF_DAY, list)
    case None =>
    case Some((v, y)) =>
      if x.min == v {
        HourBounded(e, y, dot, Push(list, MINUTE));
      } else {
        MinuteAdvances(e, x, y, list);
        NextBounded(e, y, dot);
        var o := DoNext(e, y, dot);
        if o.Found? {
          HourBounded(e, o.at, dot, list);
        }
      }
  }

  lemma {:induction false} HourBounded(e: Expr, x: Instant, dot: int, list: seq<int>)
    requires Valid(e) && HourPre(e, x, list)
    ensures Bounded(e, x, dot, HourPart(e, x, dot, list))
    decreases MonthsLeft(x, dot), Target(e, x) - x.day, MinutesLeft(x), 2
  {
    hide FindNext, DoNext, HourPart, DayPart, Target, LastDay;
    UnfoldHour(e, x, dot, list);
    FindHour(e, x, list);
    match FindNext(e.hours, 24, x.hour, x, HOUR_OF_DAY, DAY_OF_WEEK, list)
    case None =>
    case Some((v, y)) =>
      if x.hour == v {
        DayBounded(e, y, dot, Push(list, HOUR_OF_DAY));
      } else {
        HourAdvances(e, x, y, list);
        NextBounded(e, y, dot);
        var o := DoNext(e, y, dot);
        if o.Found? {
          DayBounded(e, o.at, dot, list);
        }
      }
  }

  lemma {:induction false} DayBounded(e: Expr, x: Instant, dot: int, list: seq<int>)
    requires Valid(e) && DayPre(e, x, list)
    ensures Bounded(e, x, dot, DayPart(e, x, dot, list))
    decreases MonthsLeft(x, dot), Target(e, x) - x.day, MinutesLeft(x), 1
  {
    hide FindNextDay, DoNext, DayPart, MonthPart, Target, LastDay, DayOfMonth, Weekday;
    UnfoldDay(e, x, dot, list);
    FindDay(e, x, list, 0);
    match FindNextDay(e, x, DayOfMonth(x.day), Weekday(x.day), list, 0)
    case None =>
    case Some((m, y)) =>
      StoppedDay(e, x, y, list);
      if DayOfMonth(x.day) == m {
        MonthBounded(e, y, dot, Push(list, DAY_OF_MONTH));
      } else {
        NextBounded(e, y, dot);
        var o := DoNext(e, y, dot);
        if o.Found? {
          MonthBounded(e, o.at, dot, list);
        }
      }
  }

  lemma {:induction false} MonthBounded(e: Expr, x: Instant, dot: int, list: seq<int>)
    requires Valid(e) && MonthPre(e, x, list)
    ensures Bounded(e, x, dot, MonthPart(e, x, dot, list))
    decreases MonthsLeft(x, dot), Target(e, x) - x.day, MinutesLeft(x), 0
  {
    hide FindNext, DoNext, MonthPart, Target, LastDay, DayOfMonth, TooFar, MonthOf, FirstDay;
    UnfoldMonth(e, x, dot, list);
    FindMonth(e, x, list);
    match FindNext(e.months, 12, MonthOfYear(x.day), x, MONTH, YEAR, list)
    case None =>
    case Some((v, y)) =>
      if MonthOfYear(x.day) != v && !TooFar(y, dot) {
        MonthMoved(e, x, y, list, dot);
        MonthOfFirstDay(Landing(e, x.day));
        WithinCutoff(e, y, dot);
        NextBounded(e, y, dot);
      }
  }

  // ---------------------------------------------------------------------------------------------
  // cron_next
  // ---------------------------------------------------------------------------------------------

  lemma {:induction false} LastDayMonotone(e: Expr, a: int, b: int)
    requires Valid(e) && a <= b
    ensures LastDay(e, a) <= LastDay(e, b)
  {
    hide FirstDay;
    FirstDayMonotone(12 * (a + 1900 + 4) + 11, 12 * (b + 1900 + 4) + 11);
    NextDayMonotone(e, FirstDay(12 * (a + 1900 + 4) + 11), FirstDay(12 * (b + 1900 + 4) + 11));
  }

  lemma {:induction false} FoundInReach(e: Expr, start: Instant, later: int)
    requires Valid(e) && DoNext(e, start, TmYear(start)).Found? && start.day <= later
    ensures DoNext(e, start, TmYear(start)).at.day <= LastDay(e, YearOf(later) - 1900)
  {
    hide DoNext, Target, MonthOf, FirstDay, LastDay;
    var dot := TmYear(start);
    NextBounded(e, start, dot);
    MonthOfMonotone(start.day, later);
    LastDayMonotone(e, dot, YearOf(later) - 1900);
    LaterMonth(start.day, 12 * (dot + 1900 + 4) + 11);
    TargetAtMost(e, start, FirstDay(12 * (dot + 1900 + 4) + 11));
    assert Target(e, start) <= LastDay(e, dot) by { LastDayIs(e, dot); }
  }

  lemma {:induction false} LastDayIs(e: Expr, dot: int)
    requires Valid(e)
    ensures LastDay(e, dot) == NextDay(e, FirstDay(12 * (dot + 1900 + 4) + 11))
  {
  }

  lemma {:induction false} NotFromMinusOne(e: Expr, date: int)
    requires Valid(e) && NextFire(e, date) != -1
    ensures date != -1
  {
  }

  lemma {:induction false} SameOrEarlierDay(x: Instant, t: int)
    requires Seconds(x) <= t
    ensures x.day <= FromSeconds(t).day
  {
  }

  /** No answer, of any expression and from any date, lies later than the first day from 1 December of the
      fourth year on that both day fields allow, counted from the year of the second after the date. */
  lemma {:induction false} AnswersInReach(e: Expr, date: int)
    requires Valid(e) && NextFire(e, date) != -1
    ensures FromSeconds(NextFire(e, date)).day <= LastDay(e, TmYear(FromSeconds(date + 1)))
  {
    hide DoNext, FromSeconds, NextFire, YearOf, LastDay, Seconds;
    NotFromMinusOne(e, date);
    var start := NextFireRuns(e, date);
    SameOrEarlierDay(start, date + 1);
    FromSecondsSeconds(DoNext(e, start, TmYear(start)).at);
    FoundInReach(e, start, FromSeconds(date + 1).day);
  }

  /** With safe days the answer is -1 when nothing matches up to that day. */
  lemma {:induction false} FailsOutOfReach(e: Expr, date: int)
    requires Valid(e) && SafeDays(e)
    requires forall t | date < t && FromSeconds(t).day <= LastDay(e, TmYear(FromSeconds(date + 1))) :: !MatchesAt(e, t)
    ensures NextFire(e, date) == -1
  {
    hide NextFire, FromSeconds, SafeDays, LastDay, TmYear, MatchesAt;
    if NextFire(e, date) != -1 {
      AnswersInReach(e, date);
      NextFireMatches(e, date);
      NextFireMovesForward(e, date);
    }
  }

  // ---------------------------------------------------------------------------------------------
  // A leap day eight years ahead
  // ---------------------------------------------------------------------------------------------

  /** The days from 1 March 2096 to 29 December 2100 are in the months between, and the last is a 29th. */
  lemma {:induction false} FromMarch2096()
    ensures MonthOf(46081) == 12 * 2096 + 2 && MonthOf(47844) == 12 * 2100 + 11 && DayOfMonth(47844) == 29
    ensures FirstDay(12 * 2100 + 11) == 47816
  {
    hide FirstDay;
    var march := DateOf(2096, 2, 1, 46081);
    var december := DateOf(2100, 11, 1, 47816);
    FirstDayNext(12 * 2100 + 11);
    MonthOfUnique(47844, 12 * 2100 + 11);
  }

  /** No 29 February from then up to the end of 2100. */
  lemma {:induction false} NoLeapDay(day: int)
    requires 46081 <= day <= 47844 && MonthOfYear(day) == 1
    ensures DayOfMonth(day) != 29
  {
    hide MonthOf, FirstDay;
    FromMarch2096();
    MonthOfMonotone(46081, day);
    MonthOfMonotone(day, 47844);
    var m := MonthOf(day);
    assert m / 12 == 2097 || m / 12 == 2098 || m / 12 == 2099 || m / 12 == 2100;
    assert MonthLength(m) == 28;
  }

  /** `0 0 0 29 FEB *` from 1 March 2096: the year cutoff comes before 29 February 2104. */
  lemma {:induction false} LeapDayOutOfReach()
    ensures Valid(LEAP_DAY) && NextFire(LEAP_DAY, Seconds(At(46081, 0, 0, 0))) == -1
  {
    hide NextFire, FromSeconds, MonthOf, FirstDay, SafeDays, LastDay, Range, Weekday;
    assert 0 in Range(0, 7);
    var e, date := LEAP_DAY, Seconds(At(46081, 0, 0, 0));
    assert Valid(e);
    FromMarch2096();
    FromSecondsSeconds(At(46081, 0, 0, 1));
    assert MatchesDay(e, 47844);
    LastDayAtMost(e, 2096 - 1900, 47844);
    OneDayFieldIsSafe(e);
    forall t | date < t && FromSeconds(t).day <= LastDay(e, 2096 - 1900) ensures !MatchesAt(e, t) {
      SecondsFromSeconds(t);
      if MonthOfYear(FromSeconds(t).day) == 1 {
        NoLeapDay(FromSeconds(t).day);
      }
    }
    FailsOutOfReach(e, date);
  }

  lemma {:induction false} LastDayAtMost(e: Expr, dot: int, day: int)
    requires Valid(e) && MatchesDay(e, day) && FirstDay(12 * (dot + 1900 + 4) + 11) <= day
    ensures LastDay(e, dot) <= day
  {
    hide MatchesDay, FirstDay;
  }
}
