/** do_next stage by stage, in the form in which its code is proved: what the next step of the code
    returns decides how the rest of the function goes on, and every recursive call is for a calendar
    that comes before the caller's in a well-founded order. */
module CronUnfold {
  import opened Calendar
  import opened CronSpec
  import opened CronSteps
  import opened CronFire

  ghost function MinutesLeft(x: Instant): int {
    1440 - 60 * x.hour - x.min
  }

  /** y comes before x in the order by which do_next ends. */
  ghost predicate Less(e: Expr, y: Instant, x: Instant, dot: int)
    requires Valid(e)
  {
    || MonthsLeft(y, dot) < MonthsLeft(x, dot)
    || (MonthsLeft(y, dot) == MonthsLeft(x, dot)
        && (|| Target(e, y) - y.day < Target(e, x) - x.day
            || (Target(e, y) - y.day == Target(e, x) - x.day && MinutesLeft(y) < MinutesLeft(x))))
  }

  ghost predicate AtMost(e: Expr, y: Instant, x: Instant, dot: int)
    requires Valid(e)
  {
    Less(e, y, x, dot)
    || (MonthsLeft(y, dot) == MonthsLeft(x, dot) && Target(e, y) - y.day == Target(e, x) - x.day && MinutesLeft(y) == MinutesLeft(x))
  }

  lemma {:induction false} FoundAtMost(e: Expr, x: Instant, dot: int, o: Outcome)
    requires Valid(e) && Reaches(e, x, dot, o) && o.Found?
    ensures AtMost(e, o.at, x, dot)
  {
    hide Target;
  }

  lemma {:induction false} AdvancesLess(e: Expr, x: Instant, y: Instant, dot: int)
    requires Valid(e) && Advances(e, x, y)
    ensures AtMost(e, y, x, dot)
    ensures MinuteNo(x) < MinuteNo(y) ==> Less(e, y, x, dot)
  {
    hide Target;
    Monotone(x, y, dot);
  }

  lemma {:induction false} RecursionLess(e: Expr, x: Instant, y: Instant, dot: int)
    requires Valid(e) && Advances(e, x, y) && MinuteNo(x) < MinuteNo(y)
    ensures Less(e, y, x, dot)
    ensures DoNext(e, y, dot).Found? ==> AtMost(e, DoNext(e, y, dot).at, x, dot)
  {
    hide DoNext;
    AdvancesLess(e, x, y, dot);
    if DoNext(e, y, dot).Found? {
      FoundAtMost(e, y, dot, DoNext(e, y, dot));
    }
  }

  lemma {:induction false} UnfoldSecond(e: Expr, x: Instant, dot: int)
    requires Valid(e)
    ensures match FindNext(e.seconds, 60, x.sec, x, SECOND, MINUTE, [])
            case None => DoNext(e, x, dot) == Invalid
            case Some((v, y)) =>
              var list := if x.sec == v then Push([], SECOND) else [];
              AtMost(e, y, x, dot) && MinutePre(e, y, list) && DoNext(e, x, dot) == MinutePart(e, y, dot, list)
  {
    hide FindNext, MinutePart, Target;
    FindSecond(e, x);
    match FindNext(e.seconds, 60, x.sec, x, SECOND, MINUTE, [])
    case None =>
    case Some((v, y)) =>
      SecondAdvances(e, x, y);
      AdvancesLess(e, x, y, dot);
  }

  lemma {:induction false} UnfoldMinute(e: Expr, x: Instant, dot: int, list: seq<int>)
    requires Valid(e) && MinutePre(e, x, list)
    ensures match FindNext(e.minutes, 60, x.min, x, MINUTE, HOUR_OF_DAY, list)
            case None => MinutePart(e, x, dot, list) == Invalid
            case Some((v, y)) =>
              if x.min == v then
                y == x && HourPre(e, y, Push(list, MINUTE)) && MinutePart(e, x, dot, list) == HourPart(e, y, dot, Push(list, MINUTE))
              else
                var o := DoNext(e, y, dot);
                && Less(e, y, x, dot)
                && (if o.Found? then AtMost(e, o.at, x, dot) && HourPre(e, o.at, list) && MinutePart(e, x, dot, list) == HourPart(e, o.at, dot, list)
                    else MinutePart(e, x, dot, list) == o)
  {
    hide FindNext, DoNext, HourPart, Target, Less, AtMost;
    FindMinute(e, x, list);
    match FindNext(e.minutes, 60, x.min, x, MINUTE, HOUR_OF_DAY, list)
    case None =>
    case Some((v, y)) =>
      if x.min != v {
        MinuteAdvances(e, x, y, list);
        RecursionLess(e, x, y, dot);
      }
  }

  lemma {:induction false} UnfoldHour(e: Expr, x: Instant, dot: int, list: seq<int>)
    requires Valid(e) && HourPre(e, x, list)
    ensures match FindNext(e.hours, 24, x.hour, x, HOUR_OF_DAY, DAY_OF_WEEK, list)
            case None => HourPart(e, x, dot, list) == Invalid
            case Some((v, y)) =>
              if x.hour == v then
                y == x && DayPre(e, y, Push(list, HOUR_OF_DAY)) && HourPart(e, x, dot, list) == DayPart(e, y, dot, Push(list, HOUR_OF_DAY))
              else
                var o := DoNext(e, y, dot);
                && Less(e, y, x, dot)
                && (if o.Found? then AtMost(e, o.at, x, dot) && DayPre(e, o.at, list) && HourPart(e, x, dot, list) == DayPart(e, o.at, dot, list)
                    else HourPart(e, x, dot, list) == o)
  {
    hide FindNext, DoNext, DayPart, Target, Less, AtMost;
    FindHour(e, x, list);
    match FindNext(e.hours, 24, x.hour, x, HOUR_OF_DAY, DAY_OF_WEEK, list)
    case None =>
    case Some((v, y)) =>
      if x.hour != v {
        HourAdvances(e, x, y, list);
        RecursionLess(e, x, y, dot);
      }
  }

  lemma {:induction false} UnfoldDay(e: Expr, x: Instant, dot: int, list: seq<int>)
    requires Valid(e) && DayPre(e, x, list)
    ensures match FindNextDay(e, x, DayOfMonth(x.day), Weekday(x.day), list, 0)
            case None => DayPart(e, x, dot, list) == Invalid
            case Some((m, y)) =>
              if DayOfMonth(x.day) == m then
                && AtMost(e, y, x, dot) && MonthPre(e, y, Push(list, DAY_OF_MONTH))
                && DayPart(e, x, dot, list) == MonthPart(e, y, dot, Push(list, DAY_OF_MONTH))
              else
                var o := DoNext(e, y, dot);
                && Less(e, y, x, dot)
                && (if o.Found? then AtMost(e, o.at, x, dot) && MonthPre(e, o.at, list) && DayPart(e, x, dot, list) == MonthPart(e, o.at, dot, list)
                    else DayPart(e, x, dot, list) == o)
  {
    hide FindNextDay, DoNext, MonthPart, Target, DayOfMonth, Weekday, Less, AtMost;
    FindDay(e, x, list, 0);
    match FindNextDay(e, x, DayOfMonth(x.day), Weekday(x.day), list, 0)
    case None =>
    case Some((m, y)) =>
      StoppedDay(e, x, y, list);
      AdvancesLess(e, x, y, dot);
      if y != x {
        RecursionLess(e, x, y, dot);
      }
  }

  lemma {:induction false} UnfoldMonth(e: Expr, x: Instant, dot: int, list: seq<int>)
    requires Valid(e) && MonthPre(e, x, list)
    ensures match FindNext(e.months, 12, MonthOfYear(x.day), x, MONTH, YEAR, list)
            case None => MonthPart(e, x, dot, list) == Invalid
            case Some((v, y)) =>
              if MonthOfYear(x.day) == v then MonthPart(e, x, dot, list) == Found(y)
              else if TooFar(y, dot) then MonthPart(e, x, dot, list) == PastCutoff(y)
              else Less(e, y, x, dot) && MonthPart(e, x, dot, list) == DoNext(e, y, dot)
  {
    hide FindNext, DoNext, Target, DayOfMonth, TooFar;
    FindMonth(e, x, list);
    match FindNext(e.months, 12, MonthOfYear(x.day), x, MONTH, YEAR, list)
    case None =>
    case Some((v, y)) =>
      if MonthOfYear(x.day) != v {
        MonthMoved(e, x, y, list, dot);
      }
  }
}
