/** What cron_next computes: when an expression is safe, the least matching instant after the date. */
module CronTheorems {
  import opened Calendar
  import opened CronSpec
  import opened CronSteps
  import opened CronFire

  // ---------------------------------------------------------------------------------------------
  // The conditions on an expression
  // ---------------------------------------------------------------------------------------------

  /** From this day find_next_day stops on the same day or on another day with the same number, so
      that do_next takes the day for unchanged. */
  predicate Settles(e: Expr, day: int) {
    DayOfMonth(StopDay(e, day)) == DayOfMonth(day)
  }

  /** From this day the day step moves to a day of the same number in an allowed month, and midnight
      of that day is no match. */
  predicate MisplacesDay(e: Expr, day: int) {
    && Settles(e, day) && !MatchesDay(e, day) && MatchesMonth(e, StopDay(e, day))
    && !(MatchesDay(e, StopDay(e, day)) && 0 in e.hours && 0 in e.minutes && 0 in e.seconds)
  }

  ghost predicate SafeDays(e: Expr) {
    forall day :: !MisplacesDay(e, day)
  }

  /** The month step from this day passes over the whole target month. */
  predicate SkipsTarget(e: Expr, day: int)
    requires Valid(e)
  {
    DayOfMonth(day) > MonthLength(TargetMonth(e, MonthOf(day)))
  }

  /** From this day the month step passes over a target month that contains the other day, and the
      day fields allow that day. */
  predicate MissesDay(e: Expr, day: int, other: int)
    requires Valid(e)
  {
    && Settles(e, day) && !MatchesMonth(e, StopDay(e, day)) && SkipsTarget(e, StopDay(e, day))
    && MonthOf(other) == TargetMonth(e, MonthOf(StopDay(e, day))) && MatchesDay(e, other)
  }

  ghost predicate SafeMonths(e: Expr)
    requires Valid(e)
  {
    forall day, other :: !MissesDay(e, day, other)
  }

  predicate Convex(bits: set<int>) {
    forall a, b, c | a in bits && b in bits && a <= c <= b :: c in bits
  }

  /** The seconds leave no gap, or no minute that matches follows one that does not. */
  ghost predicate SafeSeconds(e: Expr) {
    || Convex(e.seconds)
    || (forall x: Instant :: MatchesMinute(e, x))
    || (forall x: Instant :: !MatchesMinute(e, x))
  }

  // ---------------------------------------------------------------------------------------------
  // No matching minute is passed over
  // ---------------------------------------------------------------------------------------------

  /** The first minute in which x can still match. */
  ghost function EffectiveMinute(e: Expr, x: Instant): int {
    MinuteNo(x) + (if SecondLeft(e, x) then 0 else 1)
  }

  ghost predicate NoneSkipped(e: Expr, from: int, to: int) {
    forall u: Instant :: from <= MinuteNo(u) < to ==> !MatchesMinute(e, u)
  }

  lemma {:induction false} MinuteSkipsNone(e: Expr, x: Instant, y: Instant, lower: seq<int>)
    requires MinuteStep(e, x, y, lower) && x.min !in e.minutes
    ensures NoneSkipped(e, MinuteNo(x), MinuteNo(y))
  {
    hide MatchesDay, MatchesMonth;
    forall u: Instant | MinuteNo(x) <= MinuteNo(u) < MinuteNo(y) ensures u.min !in e.minutes {
      assert 24 * x.day + x.hour <= 24 * u.day + u.hour <= 24 * y.day + y.hour <= 24 * x.day + x.hour + 1;
    }
  }

  lemma {:induction false} HourSkipsNone(e: Expr, x: Instant, y: Instant, lower: seq<int>)
    requires HourStep(e, x, y, lower) && x.hour !in e.hours && y.min == 0
    ensures NoneSkipped(e, MinuteNo(x), MinuteNo(y))
  {
    hide MatchesDay, MatchesMonth;
    forall u: Instant | MinuteNo(x) <= MinuteNo(u) < MinuteNo(y) ensures u.hour !in e.hours {
      assert 24 * x.day + x.hour <= 24 * u.day + u.hour < 24 * y.day + y.hour;
      assert x.day <= u.day <= y.day <= x.day + 1;
    }
  }

  lemma {:induction false} DaySkipsNone(e: Expr, x: Instant, y: Instant)
    requires y.day == StopDay(e, x.day) && y.hour == 0 && y.min == 0
    ensures NoneSkipped(e, MinuteNo(x), MinuteNo(y))
  {
    hide MatchesDay;
  }

  lemma {:induction false} MonthSkipsNone(e: Expr, x: Instant, y: Instant, day: int)
    requires Valid(e) && SafeMonths(e)
    requires Settles(e, day) && x.day == StopDay(e, day) && !MatchesMonth(e, x.day)
    requires y.day == FirstDay(Landing(e, x.day)) && y.hour == 0 && y.min == 0
    ensures NoneSkipped(e, MinuteNo(x), MinuteNo(y))
  {
    hide MatchesDay, FirstDay, MonthLength;
    var t := TargetMonth(e, MonthOf(x.day));
    TargetMonthIsNext(e, MonthOf(x.day));
    forall u: Instant | MinuteNo(x) <= MinuteNo(u) < MinuteNo(y) ensures !MatchesMinute(e, u) {
      MonthOfMonotone(x.day, u.day);
      if Landing(e, x.day) <= MonthOf(u.day) {
        FirstDayMonotone(Landing(e, x.day), MonthOf(u.day));
      } else if MonthOf(u.day) == t {
        assert SkipsTarget(e, x.day);
        assert !MissesDay(e, day, u.day);
      }
    }
  }

  // ---------------------------------------------------------------------------------------------
  // At a matching instant nothing moves
  // ---------------------------------------------------------------------------------------------

  lemma {:induction false} StayMonth(e: Expr, x: Instant, dot: int, resets: seq<int>)
    requires Valid(e) && Matches(e, x) && MonthPre(e, x, resets)
    ensures MonthPart(e, x, dot, resets) == Found(x)
  {
    hide FindNext;
    FindMonth(e, x, resets);
  }

  lemma {:induction false} StayDay(e: Expr, x: Instant, dot: int, resets: seq<int>)
    requires Valid(e) && Matches(e, x) && DayPre(e, x, resets)
    ensures DayPart(e, x, dot, resets) == Found(x)
  {
    hide FindNext, FindNextDay, DayOfMonth, Weekday;
    FindDay(e, x, resets, 0);
    StoppedDay(e, x, x, resets);
    StayMonth(e, x, dot, Push(resets, DAY_OF_MONTH));
  }

  lemma {:induction false} StayHour(e: Expr, x: Instant, dot: int, resets: seq<int>)
    requires Valid(e) && Matches(e, x) && HourPre(e, x, resets)
    ensures HourPart(e, x, dot, resets) == Found(x)
  {
    hide FindNext, DayOfMonth, Weekday;
    FindHour(e, x, resets);
    StayDay(e, x, dot, Push(resets, HOUR_OF_DAY));
  }

  lemma {:induction false} StayMinute(e: Expr, x: Instant, dot: int, resets: seq<int>)
    requires Valid(e) && Matches(e, x) && MinutePre(e, x, resets)
    ensures MinutePart(e, x, dot, resets) == Found(x)
  {
    hide FindNext;
    FindMinute(e, x, resets);
    StayHour(e, x, dot, Push(resets, MINUTE));
  }

  /** do_next leaves a matching calendar alone, so that the steps a caller takes after its recursive
      call change nothing. */
  lemma {:induction false} StayPut(e: Expr, x: Instant, dot: int)
    requires Valid(e) && Matches(e, x)
    ensures DoNext(e, x, dot) == Found(x)
  {
    hide FindNext;
    FindSecond(e, x);
    StayMinute(e, x, dot, Push([], SECOND));
  }

  // ---------------------------------------------------------------------------------------------
  // The induction over do_next
  // ---------------------------------------------------------------------------------------------

  ghost predicate StartOfMonth(y: Instant) {
    y.day == FirstDay(MonthOf(y.day)) && y.hour == 0 && y.min == 0
  }

  /** What do_next promises of a calendar whose second is settled. */
  ghost predicate Good(e: Expr, x: Instant, dot: int, o: Outcome)
    requires Valid(e)
  {
    match o
    case Found(y) =>
      && Matches(e, y) && MinuteNo(x) <= MinuteNo(y)
      && (MinuteNo(y) == MinuteNo(x) ==> y == x)
      && (MinuteNo(x) < MinuteNo(y) && Convex(e.seconds) ==> IsNext(e.seconds, 0, y.sec))
      && (SafeMonths(e) ==> NoneSkipped(e, MinuteNo(x), MinuteNo(y)))
    case PastCutoff(y) =>
      && dot + 1900 + 4 < YearOf(y.day) && StartOfMonth(y) && MinuteNo(x) <= MinuteNo(y)
      && (SafeMonths(e) ==> NoneSkipped(e, MinuteNo(x), MinuteNo(y)))
    case Invalid => x.day < 0
  }

  predicate SecondPre(e: Expr, x: Instant, resets: seq<int>) {
    x.sec in e.seconds && (SECOND in resets || (Convex(e.seconds) ==> IsNext(e.seconds, 0, x.sec)))
  }

  /** The calendar after a move, before do_next is called again. */
  ghost predicate Moved(e: Expr, x: Instant, y: Instant, resets: seq<int>)
    requires Valid(e)
  {
    && MinuteNo(x) < MinuteNo(y) && x.day <= y.day
    && y.sec == (if SECOND in resets then 0 else x.sec)
    && (SafeMonths(e) ==> NoneSkipped(e, MinuteNo(x), MinuteNo(y)))
  }

  lemma {:induction false} GapBelow(e: Expr, x: Instant, y: Instant)
    requires Valid(e) && SecondStep(e, x, y) && y != x && Convex(e.seconds)
    ensures IsNext(e.seconds, 0, y.sec)
  {
  }

  lemma {:induction false} DoNextGood(e: Expr, x: Instant, dot: int) returns (y: Instant)
    requires Valid(e) && SafeDays(e) && dot <= TmYear(x)
    ensures var o := DoNext(e, x, dot);
            if o.Invalid? then x.day < 0 else SecondStep(e, x, y) && Good(e, y, dot, o)
    decreases MonthsLeft(x, dot), Target(e, x) - x.day, 1440 - 60 * x.hour - x.min, 4
  {
    hide FindNext, SafeDays, SafeMonths, NoneSkipped, Matches;
    FindSecond(e, x);
    y := x;
    match FindNext(e.seconds, 60, x.sec, x, SECOND, MINUTE, [])
    case None =>
    case Some((v, z)) =>
      y := z;
      SecondAdvances(e, x, y);
      Monotone(x, y, dot);
      MonthOfMonotone(x.day, y.day);
      var resets := if x.sec == v then Push([], SECOND) else [];
      if y != x && Convex(e.seconds) {
        GapBelow(e, x, y);
      }
      MinuteGood(e, y, dot, resets);
  }

  /** The recursive call after a move ends well for its caller. */
  lemma {:induction false} AfterMove(e: Expr, x: Instant, y: Instant, dot: int, resets: seq<int>)
    requires Valid(e) && SafeDays(e) && dot <= TmYear(x) && SecondPre(e, x, resets) && Moved(e, x, y, resets)
    ensures Good(e, x, dot, DoNext(e, y, dot))
    decreases MonthsLeft(y, dot), Target(e, y) - y.day, 1440 - 60 * y.hour - y.min, 5
  {
    hide SafeDays, SafeMonths, Matches;
    MonthOfMonotone(x.day, y.day);
    var z := DoNextGood(e, y, dot);
    assert SecondLeft(e, y) by {
      assert y.sec <= x.sec;
    }
  }

  lemma {:induction false} MinuteGood(e: Expr, x: Instant, dot: int, resets: seq<int>)
    requires Valid(e) && SafeDays(e) && dot <= TmYear(x)
    requires MinutePre(e, x, resets) && SecondPre(e, x, resets)
    ensures Good(e, x, dot, MinutePart(e, x, dot, resets))
    decreases MonthsLeft(x, dot), Target(e, x) - x.day, 1440 - 60 * x.hour - x.min, 3
  {
    hide FindNext, SafeDays, SafeMonths, NoneSkipped, Matches;
    FindMinute(e, x, resets);
    match FindNext(e.minutes, 60, x.min, x, MINUTE, HOUR_OF_DAY, resets)
    case None =>
    case Some((v, y)) =>
      if x.min == v {
        HourGood(e, y, dot, Push(resets, MINUTE));
      } else {
        MinuteAdvances(e, x, y, resets);
        MinuteSkipsNone(e, x, y, resets);
        Monotone(x, y, dot);
        AfterMove(e, x, y, dot, resets);
        var o := DoNext(e, y, dot);
        if o.Found? {
          StayHour(e, o.at, dot, resets);
        }
      }
  }

  lemma {:induction false} HourGood(e: Expr, x: Instant, dot: int, resets: seq<int>)
    requires Valid(e) && SafeDays(e) && dot <= TmYear(x)
    requires HourPre(e, x, resets) && SecondPre(e, x, resets) && MINUTE in resets && x.min in e.minutes
    ensures Good(e, x, dot, HourPart(e, x, dot, resets))
    decreases MonthsLeft(x, dot), Target(e, x) - x.day, 1440 - 60 * x.hour - x.min, 2
  {
    hide FindNext, SafeDays, SafeMonths, NoneSkipped, Matches;
    FindHour(e, x, resets);
    match FindNext(e.hours, 24, x.hour, x, HOUR_OF_DAY, DAY_OF_WEEK, resets)
    case None =>
    case Some((v, y)) =>
      if x.hour == v {
        DayGood(e, y, dot, Push(resets, HOUR_OF_DAY));
      } else {
        HourAdvances(e, x, y, resets);
        HourSkipsNone(e, x, y, resets);
        Monotone(x, y, dot);
        AfterMove(e, x, y, dot, resets);
        var o := DoNext(e, y, dot);
        if o.Found? {
          StayDay(e, o.at, dot, resets);
        }
      }
  }

  lemma {:induction false} DayGood(e: Expr, x: Instant, dot: int, resets: seq<int>)
    requires Valid(e) && SafeDays(e) && dot <= TmYear(x)
    requires DayPre(e, x, resets) && SecondPre(e, x, resets)
    requires MINUTE in resets && HOUR_OF_DAY in resets && x.min in e.minutes && x.hour in e.hours
    ensures Good(e, x, dot, DayPart(e, x, dot, resets))
    decreases MonthsLeft(x, dot), Target(e, x) - x.day, 1440 - 60 * x.hour - x.min, 1
  {
    hide FindNext, FindNextDay, SafeDays, SafeMonths, NoneSkipped, Matches;
    FindDay(e, x, resets, 0);
    match FindNextDay(e, x, DayOfMonth(x.day), Weekday(x.day), resets, 0)
    case None =>
    case Some((m, y)) =>
      StoppedDay(e, x, y, resets);
      Monotone(x, y, dot);
      if y != x {
        DaySkipsNone(e, x, y);
      }
      if DayOfMonth(x.day) == m {
        MonthGood(e, x, y, dot, Push(resets, DAY_OF_MONTH));
      } else {
        AfterMove(e, x, y, dot, resets);
        var o := DoNext(e, y, dot);
        if o.Found? {
          StayMonth(e, o.at, dot, resets);
        }
      }
  }

  /** y is where the day step put the calendar when it took the day of x for unchanged. */
  ghost predicate SettledAt(e: Expr, x: Instant, y: Instant, resets: seq<int>)
    requires Valid(e)
  {
    && SecondPre(e, x, resets) && MonthPre(e, y, resets)
    && DAY_OF_MONTH in resets && MINUTE in resets && HOUR_OF_DAY in resets && x.min in e.minutes && x.hour in e.hours
    && Settles(e, x.day) && y.day == StopDay(e, x.day) && (MatchesDay(e, x.day) <==> y == x)
    && (y == x || (x.day < y.day && y.hour == 0 && y.min == 0 && y.sec == (if SECOND in resets then 0 else x.sec)))
  }

  lemma {:induction false} SettledMatches(e: Expr, x: Instant, y: Instant, dot: int, resets: seq<int>)
    requires Valid(e) && SafeDays(e) && SettledAt(e, x, y, resets) && MatchesMonth(e, y.day)
    ensures Good(e, x, dot, Found(y))
  {
    hide DayOfMonth, MonthOf, Weekday, SafeMonths;
    if y != x {
      DaySkipsNone(e, x, y);
      assert !MisplacesDay(e, x.day);
    }
  }

  lemma {:induction false} SettledMoves(e: Expr, x: Instant, y: Instant, z: Instant, resets: seq<int>)
    requires Valid(e) && SettledAt(e, x, y, resets) && !MatchesMonth(e, y.day) && MonthStep(e, y, z, resets)
    ensures Moved(e, x, z, resets) && StartOfMonth(z) && x.day < z.day
  {
    hide MatchesDay, MatchesMonth, DayOfMonth, MonthOf, SafeMonths, Landing, Settles, NoneSkipped;
    MonthMoved(e, y, z, resets, 0);
    MonthOfFirstDay(Landing(e, y.day));
    if SafeMonths(e) {
      if y != x {
        DaySkipsNone(e, x, y);
      }
      MonthSkipsNone(e, y, z, x.day);
      SkipsCompose(e, x, y, z);
    }
  }

  lemma {:induction false} MonthGood(e: Expr, x: Instant, y: Instant, dot: int, resets: seq<int>)
    requires Valid(e) && SafeDays(e) && dot <= TmYear(x) && SettledAt(e, x, y, resets) && Advances(e, x, y)
    ensures Good(e, x, dot, MonthPart(e, y, dot, resets))
    decreases MonthsLeft(x, dot), Target(e, x) - x.day, 1440 - 60 * x.hour - x.min, 0
  {
    hide FindNext, SafeDays, SafeMonths, NoneSkipped, MatchesDay, DayOfMonth, SecondPre, Settles;
    Monotone(x, y, dot);
    FindMonth(e, y, resets);
    match FindNext(e.months, 12, MonthOfYear(y.day), y, MONTH, YEAR, resets)
    case None =>
    case Some((v, z)) =>
      if MonthOfYear(y.day) == v {
        SettledMatches(e, x, y, dot, resets);
      } else {
        MonthMoved(e, y, z, resets, dot);
        SettledMoves(e, x, y, z, resets);
        MonthOfMonotone(x.day, z.day);
        if !TooFar(z, dot) {
          AfterMove(e, x, z, dot, resets);
        }
      }
  }

  lemma {:induction false} SkipsCompose(e: Expr, x: Instant, y: Instant, z: Instant)
    requires y == x || NoneSkipped(e, MinuteNo(x), MinuteNo(y))
    requires NoneSkipped(e, MinuteNo(y), MinuteNo(z))
    ensures NoneSkipped(e, MinuteNo(x), MinuteNo(z))
  {
  }

  // ---------------------------------------------------------------------------------------------
  // The first match from an instant on
  // ---------------------------------------------------------------------------------------------

  ghost predicate NoMatch(e: Expr, from: Instant, to: Instant) {
    forall u: Instant :: Le(from, u) && Seconds(u) < Seconds(to) ==> !Matches(e, u)
  }

  /** Without a condition on the seconds, an earlier match lies in the same minute. */
  ghost predicate NoMatchBeforeMinute(e: Expr, from: Instant, to: Instant) {
    forall u: Instant :: Le(from, u) && Matches(e, u) && Seconds(u) < Seconds(to) ==> MinuteNo(u) == MinuteNo(to)
  }

  lemma {:induction false} MatchIsEffective(e: Expr, x: Instant, u: Instant)
    requires Le(x, u) && u.sec in e.seconds
    ensures EffectiveMinute(e, x) <= MinuteNo(u)
  {
    if MinuteNo(u) == MinuteNo(x) {
      assert x.sec <= u.sec;
    }
  }

  lemma {:induction false} SecondStepEffective(e: Expr, x: Instant, y: Instant)
    requires SecondStep(e, x, y)
    ensures EffectiveMinute(e, x) == MinuteNo(y) && Le(x, y)
  {
  }

  lemma {:induction false} FoundIsFirst(e: Expr, x: Instant, dot: int)
    requires Valid(e) && SafeDays(e) && dot <= TmYear(x) && DoNext(e, x, dot).Found?
    ensures var y := DoNext(e, x, dot).at;
            && Matches(e, y) && Le(x, y)
            && (SafeMonths(e) ==> NoMatchBeforeMinute(e, x, y))
            && (SafeMonths(e) && SafeSeconds(e) ==> NoMatch(e, x, y))
  {
    hide SafeDays, SafeMonths, MatchesMinute, SecondLeft;
    var y := DoNext(e, x, dot).at;
    var first := DoNextGood(e, x, dot);
    SecondStepEffective(e, x, first);
    if SafeMonths(e) {
      forall u: Instant | Le(x, u) && Seconds(u) < Seconds(y) && Matches(e, u)
        ensures MinuteNo(u) == MinuteNo(y) && !SafeSeconds(e)
      {
        MatchIsEffective(e, x, u);
        if MinuteNo(first) != MinuteNo(y) {
          assert !MatchesMinute(e, first);
        }
      }
    }
  }

  lemma {:induction false} CutoffIsLate(e: Expr, x: Instant, dot: int, u: Instant)
    requires Valid(e) && SafeDays(e) && SafeMonths(e) && dot <= TmYear(x) && 0 <= x.day && !DoNext(e, x, dot).Found?
    requires Le(x, u) && YearOf(u.day) <= dot + 1900 + 4
    ensures !Matches(e, u)
  {
    hide SafeDays, SafeMonths, MatchesMinute, SecondLeft, FirstDay, MonthLength;
    var first := DoNextGood(e, x, dot);
    SecondStepEffective(e, x, first);
    var y := DoNext(e, x, dot).at;
    LaterMonth(u.day, MonthOf(y.day));
    if u.sec in e.seconds {
      MatchIsEffective(e, x, u);
    }
  }

  // ---------------------------------------------------------------------------------------------
  // cron_next
  // ---------------------------------------------------------------------------------------------

  ghost predicate MatchesAt(e: Expr, t: int) {
    Matches(e, FromSeconds(t))
  }

  /** r is the least matching time strictly after the date. */
  ghost predicate IsNextFire(e: Expr, date: int, r: int) {
    date < r && MatchesAt(e, r) && forall t :: date < t < r ==> !MatchesAt(e, t)
  }

  /** No time after the date matches up to the end of the fourth year after it. */
  ghost predicate NoneInReach(e: Expr, date: int) {
    forall t :: date < t && YearOf(FromSeconds(t).day) <= YearOf(FromSeconds(date).day) + 4 ==> !MatchesAt(e, t)
  }

  ghost predicate RightAnswer(e: Expr, date: int)
    requires Valid(e)
  {
    var r := NextFire(e, date);
    if r != -1 then IsNextFire(e, date, r) else NoneInReach(e, date)
  }

  /** How cron_next comes to an answer: do_next from the date, and once more from the next second
      when the date itself matches. */
  lemma {:induction false} NextFireRuns(e: Expr, date: int) returns (start: Instant)
    requires Valid(e) && date != -1
    ensures Seconds(start) == date || (Seconds(start) == date + 1 && DoNext(e, FromSeconds(date), TmYear(FromSeconds(date))) == Found(FromSeconds(date)))
    ensures match DoNext(e, start, TmYear(start))
            case Found(y) => date < Seconds(y) && (NextFire(e, date) == Seconds(y) || (date < 0 && NextFire(e, date) == -1))
            case _ => NextFire(e, date) == -1
  {
    hide FromSeconds, AddToField, NextSecond;
    SecondsFromSeconds(date);
    start := FromSeconds(date);
    var o := DoNext(e, start, TmYear(start));
    if o.Found? && Seconds(o.at) == date {
      SecondsInjective(o.at, start);
      AddSecond(start);
      NextSecondIs(start);
      start := NextSecond(start);
      MinusOne(start);
    }
  }

  lemma {:induction false} NextSecondIs(x: Instant)
    ensures Seconds(NextSecond(x)) == Seconds(x) + 1
  {
  }

  /** Every successful answer lies strictly after the date, whatever the expression. */
  lemma {:induction false} NextFireMovesForward(e: Expr, date: int)
    requires Valid(e) && NextFire(e, date) != -1
    ensures date < NextFire(e, date)
  {
    hide FromSeconds, AddToField;
    var start := NextFireRuns(e, date);
  }

  /** With safe days a successful answer matches all six fields. */
  lemma {:induction false} NextFireMatches(e: Expr, date: int)
    requires Valid(e) && SafeDays(e) && NextFire(e, date) != -1
    ensures MatchesAt(e, NextFire(e, date))
  {
    hide FromSeconds, AddToField, Matches, SafeDays, SafeMonths;
    var start := NextFireRuns(e, date);
    FoundIsFirst(e, start, TmYear(start));
    FromSecondsSeconds(DoNext(e, start, TmYear(start)).at);
  }

  /** With safe days and months, and any seconds, it lies in the same minute as the least match. */
  lemma {:induction false} NextFireSameMinute(e: Expr, date: int, t: int)
    requires Valid(e) && SafeDays(e) && SafeMonths(e) && NextFire(e, date) != -1
    requires date < t < NextFire(e, date) && MatchesAt(e, t)
    ensures MinuteNo(FromSeconds(t)) == MinuteNo(FromSeconds(NextFire(e, date)))
  {
    hide FromSeconds, AddToField, Matches, SafeDays, SafeMonths, SafeSeconds;
    var start := NextFireRuns(e, date);
    FoundIsFirst(e, start, TmYear(start));
    FromSecondsSeconds(DoNext(e, start, TmYear(start)).at);
    SecondsFromSeconds(t);
  }

  /** With safe days, months and seconds a successful answer is the least match after the date. */
  lemma {:induction false} NextFireIsLeast(e: Expr, date: int)
    requires Valid(e) && SafeDays(e) && SafeMonths(e) && SafeSeconds(e) && NextFire(e, date) != -1
    ensures IsNextFire(e, date, NextFire(e, date))
  {
    hide FromSeconds, AddToField, Matches, SafeDays, SafeMonths, SafeSeconds;
    var start := NextFireRuns(e, date);
    FoundIsFirst(e, start, TmYear(start));
    NextFireMatches(e, date);
    forall t | date < t < NextFire(e, date) ensures !MatchesAt(e, t) {
      NotBefore(e, date, start, t);
    }
  }

  lemma {:induction false} NotBefore(e: Expr, date: int, start: Instant, t: int)
    requires Valid(e) && date < t
    requires Seconds(start) == date || Seconds(start) == date + 1
    ensures Seconds(FromSeconds(t)) == t && Le(start, FromSeconds(t))
  {
    SecondsFromSeconds(t);
  }

  /** With safe days and months a failure means that nothing matches within the next four years. */
  lemma {:induction false} NextFireFails(e: Expr, date: int)
    requires Valid(e) && SafeDays(e) && SafeMonths(e) && 0 <= date && NextFire(e, date) == -1
    ensures NoneInReach(e, date)
  {
    hide FromSeconds, AddToField, Matches, SafeDays, SafeMonths, SafeSeconds, MonthOf;
    var start := NextFireRuns(e, date);
    SecondsFromSeconds(date);
    MonthOfMonotone(FromSeconds(date).day, start.day);
    forall t | date < t && YearOf(FromSeconds(t).day) <= YearOf(FromSeconds(date).day) + 4 ensures !MatchesAt(e, t) {
      NotBefore(e, date, start, t);
      CutoffIsLate(e, start, TmYear(start), FromSeconds(t));
    }
  }

  /** A safe expression is answered correctly from every date on or after the epoch. */
  lemma {:induction false} SafeIsRight(e: Expr, date: int)
    requires Valid(e) && SafeDays(e) && SafeMonths(e) && SafeSeconds(e) && 0 <= date
    ensures RightAnswer(e, date)
  {
    if NextFire(e, date) != -1 {
      NextFireIsLeast(e, date);
    } else {
      NextFireFails(e, date);
    }
  }
}
