/** do_next and cron_next as functions, with the proof that do_next ends for every expression. */
module CronFire {
  import opened Calendar
  import opened CronSpec
  import opened CronSteps

  // ---------------------------------------------------------------------------------------------
  // The termination measure
  // ---------------------------------------------------------------------------------------------

  lemma {:induction false} InRangeHasElement(bits: set<int>, min: int, max: int) returns (v: int)
    requires InRange(bits, min, max)
    ensures v in bits && min <= v < max
  {
    if forall u :: u !in bits {
      assert false;
    }
    v :| v in bits;
  }

  lemma {:induction false} SomeMatchingDay(e: Expr, from: int)
    requires Valid(e)
    ensures exists day :: from <= day && MatchesDay(e, day)
  {
    var mday := InRangeHasElement(e.daysOfMonth, 1, 32);
    var wday := InRangeHasElement(e.daysOfWeek, 0, 7);
    var day := DayAndWeekday(mday, wday, from);
    assert MatchesDay(e, day);
  }

  ghost function FirstMatchUpTo(e: Expr, day: int, last: int): (r: int)
    requires day <= last && MatchesDay(e, last)
    ensures day <= r && MatchesDay(e, r) && forall d | day <= d < r :: !MatchesDay(e, d)
    decreases last - day
  {
    if MatchesDay(e, day) then day else FirstMatchUpTo(e, day + 1, last)
  }

  /** The first day on or after the given one that both day fields allow. */
  ghost function NextDay(e: Expr, day: int): (r: int)
    requires Valid(e)
    ensures day <= r && MatchesDay(e, r) && forall d | day <= d < r :: !MatchesDay(e, d)
  {
    SomeMatchingDay(e, day);
    var last :| day <= last && MatchesDay(e, last);
    FirstMatchUpTo(e, day, last)
  }

  /** Some hour and minute of the expression come at or after this minute of the day. */
  ghost predicate MoreToday(e: Expr, minuteOfDay: int) {
    exists h, m :: h in e.hours && m in e.minutes && minuteOfDay <= 60 * h + m
  }

  /** Some second of the set has not passed yet in this minute. */
  predicate SecondLeft(e: Expr, x: Instant) {
    exists s :: s in e.seconds && x.sec <= s
  }

  /** The first minute of the day that x can still match; 1440 if that is tomorrow's first. */
  ghost function MinuteOfDay(e: Expr, x: Instant): int {
    60 * x.hour + x.min + (if SecondLeft(e, x) then 0 else 1)
  }

  /** The day of the first minute from x on that the minute, hour and day fields allow. */
  ghost function Target(e: Expr, x: Instant): (r: int)
    requires Valid(e)
    ensures x.day <= r
  {
    if MatchesDay(e, x.day) && MoreToday(e, MinuteOfDay(e, x)) then x.day
    else NextDay(e, x.day + 1)
  }

  /** The months left before the cutoff; dot is a tm_year. */
  function MonthsLeft(x: Instant, dot: int): nat {
    var left := 12 * (dot + 1900 + 5) - MonthOf(x.day);
    if left > 0 then left else 0
  }

  predicate Le(x: Instant, y: Instant) {
    Seconds(x) <= Seconds(y)
  }

  /** y is reached from x without passing the first minute that minute, hour and day fields allow. */
  ghost predicate Advances(e: Expr, x: Instant, y: Instant)
    requires Valid(e)
  {
    Le(x, y) && Target(e, y) == Target(e, x)
  }

  lemma {:induction false} Monotone(x: Instant, y: Instant, dot: int)
    requires Le(x, y)
    ensures MonthsLeft(y, dot) <= MonthsLeft(x, dot) && x.day <= y.day
  {
    MonthOfMonotone(x.day, y.day);
  }

  lemma {:induction false} SameDayAdvances(e: Expr, x: Instant, y: Instant)
    requires Valid(e) && Le(x, y) && y.day == x.day && MinuteOfDay(e, x) <= MinuteOfDay(e, y)
    requires MoreToday(e, MinuteOfDay(e, x)) ==> MoreToday(e, MinuteOfDay(e, y))
    ensures Advances(e, x, y)
  {
    if MoreToday(e, MinuteOfDay(e, y)) {
      var h, m :| h in e.hours && m in e.minutes && MinuteOfDay(e, y) <= 60 * h + m;
      assert MinuteOfDay(e, x) <= 60 * h + m;
    }
  }

  lemma {:induction false} LaterDayAdvances(e: Expr, x: Instant, y: Instant)
    requires Valid(e) && x.day < y.day
    requires !(MatchesDay(e, x.day) && MoreToday(e, MinuteOfDay(e, x)))
    requires forall d | x.day < d < y.day :: !MatchesDay(e, d)
    requires MoreToday(e, MinuteOfDay(e, y))
    ensures Advances(e, x, y)
  {
    hide MatchesDay;
    assert y.day <= NextDay(e, x.day + 1);
  }

  lemma {:induction false} SecondAdvances(e: Expr, x: Instant, y: Instant)
    requires Valid(e) && SecondStep(e, x, y)
    ensures Advances(e, x, y) && SecondLeft(e, y)
  {
    assert SecondLeft(e, y);
    if y == x.(sec := y.sec) {
      assert SecondLeft(e, x);
      SameDayAdvances(e, x, y);
    } else {
      assert !SecondLeft(e, x);
      if y.day == x.day {
        SameDayAdvances(e, x, y);
      } else {
        StartOfDay(e, y);
        assert MinuteOfDay(e, x) == 1440;
        EndOfDay(e, 1440);
        LaterDayAdvances(e, x, y);
      }
    }
  }

  lemma {:induction false} StartOfDay(e: Expr, y: Instant)
    requires Valid(e) && SecondLeft(e, y) && y.hour == 0 && y.min == 0
    ensures MoreToday(e, MinuteOfDay(e, y))
  {
    var h := InRangeHasElement(e.hours, 0, 24);
    var m := InRangeHasElement(e.minutes, 0, 60);
  }

  lemma {:induction false} EndOfDay(e: Expr, v: int)
    requires Valid(e) && v >= 1440
    ensures !MoreToday(e, v)
  {
  }

  lemma {:induction false} MinuteAdvances(e: Expr, x: Instant, y: Instant, lower: seq<int>)
    requires Valid(e) && MinuteStep(e, x, y, lower) && x.min !in e.minutes && SecondLeft(e, x)
    ensures Advances(e, x, y) && SecondLeft(e, y) && MinuteNo(x) < MinuteNo(y)
  {
    hide MatchesDay, SecondLeft;
    SecondKept(e, x, y);
    if y.day == x.day {
      if MoreToday(e, MinuteOfDay(e, x)) {
        var h, m :| h in e.hours && m in e.minutes && 60 * x.hour + x.min <= 60 * h + m;
        assert 60 * y.hour + y.min <= 60 * h + m;
      }
      SameDayAdvances(e, x, y);
    } else {
      assert !MoreToday(e, MinuteOfDay(e, x));
      var h := InRangeHasElement(e.hours, 0, 24);
      assert MinuteOfDay(e, y) <= 60 * h + y.min;
      LaterDayAdvances(e, x, y);
    }
  }

  lemma {:induction false} SecondKept(e: Expr, x: Instant, y: Instant)
    requires SecondLeft(e, x) && y.sec <= x.sec
    ensures SecondLeft(e, y)
  {
    var s :| s in e.seconds && x.sec <= s;
    assert y.sec <= s;
  }

  lemma {:induction false} HourAdvances(e: Expr, x: Instant, y: Instant, lower: seq<int>)
    requires Valid(e) && HourStep(e, x, y, lower) && x.hour !in e.hours && SecondLeft(e, x) && y.min == 0
    ensures Advances(e, x, y) && SecondLeft(e, y) && MinuteNo(x) < MinuteNo(y)
  {
    hide MatchesDay, SecondLeft;
    SecondKept(e, x, y);
    if y.day == x.day {
      if MoreToday(e, MinuteOfDay(e, x)) {
        var h, m :| h in e.hours && m in e.minutes && 60 * x.hour + x.min <= 60 * h + m;
        assert 60 * y.hour + y.min <= 60 * h + m;
      }
      SameDayAdvances(e, x, y);
    } else {
      assert !MoreToday(e, MinuteOfDay(e, x));
      var m := InRangeHasElement(e.minutes, 0, 60);
      assert MinuteOfDay(e, y) <= 60 * y.hour + m;
      LaterDayAdvances(e, x, y);
    }
  }

  lemma {:induction false} DayAdvances(e: Expr, x: Instant, y: Instant)
    requires Valid(e) && !MatchesDay(e, x.day) && SecondLeft(e, x)
    requires y == At(StopDay(e, x.day), 0, 0, y.sec) && (y.sec == 0 || y.sec == x.sec)
    ensures Advances(e, x, y) && SecondLeft(e, y) && x.day < y.day
  {
    hide MatchesDay;
    SecondKept(e, x, y);
    StartOfDay(e, y);
    LaterDayAdvances(e, x, y);
  }

  // ---------------------------------------------------------------------------------------------
  // do_next
  // ---------------------------------------------------------------------------------------------

  /** How do_next ends: with 0 and the calendar, with -1 past the year cutoff, or with 1 because a
      step met the invalid instant. */
  datatype Outcome = Found(at: Instant) | PastCutoff(at: Instant) | Invalid

  /** calendar->tm_year - dot > 4, an unsigned subtraction. */
  predicate TooFar(x: Instant, dot: int) {
    var years := YearOf(x.day) - 1900 - dot;
    (if years >= 0 then years else years + UNSIGNED) > 4
  }

  /** Where do_next can return: the minute, hour and day match, or the time is midnight because the
      day step moved to another month's day of the same number. */
  predicate Arrived(e: Expr, x: Instant) {
    && MatchesMonth(e, x.day)
    && ((x.min in e.minutes && x.hour in e.hours && MatchesDay(e, x.day)) || (x.hour == 0 && x.min == 0))
  }

  ghost predicate Reaches(e: Expr, x: Instant, dot: int, o: Outcome)
    requires Valid(e)
  {
    o.Found? ==>
      && Le(x, o.at) && SecondLeft(e, o.at) && Arrived(e, o.at)
      && MonthsLeft(o.at, dot) <= MonthsLeft(x, dot)
      && (MonthsLeft(o.at, dot) == MonthsLeft(x, dot) ==> Target(e, o.at) == Target(e, x))
  }

  ghost predicate MinutePre(e: Expr, x: Instant, resets: seq<int>) {
    SecondLeft(e, x) && (resets == [] || resets == [SECOND])
  }

  ghost predicate HourPre(e: Expr, x: Instant, resets: seq<int>) {
    && SecondLeft(e, x) && Resettable(resets) && DAY_OF_MONTH !in resets && HOUR_OF_DAY !in resets
    && ((MINUTE in resets && x.min in e.minutes) || Arrived(e, x))
  }

  ghost predicate DayPre(e: Expr, x: Instant, resets: seq<int>) {
    && SecondLeft(e, x) && Resettable(resets) && DAY_OF_MONTH !in resets
    && ((MINUTE in resets && x.min in e.minutes && HOUR_OF_DAY in resets && x.hour in e.hours) || Arrived(e, x))
  }

  ghost predicate MonthPre(e: Expr, x: Instant, resets: seq<int>) {
    && SecondLeft(e, x) && Resettable(resets)
    && (Arrived(e, x)
        || (&& DAY_OF_MONTH in resets
            && ((x.hour == 0 && x.min == 0)
                || (&& HOUR_OF_DAY in resets && MINUTE in resets
                    && x.min in e.minutes && x.hour in e.hours && MatchesDay(e, x.day)))))
  }

  function DoNext(e: Expr, x: Instant, dot: int): (o: Outcome)
    requires Valid(e)
    ensures Reaches(e, x, dot, o)
    decreases MonthsLeft(x, dot), Target(e, x) - x.day, 1440 - 60 * x.hour - x.min, 4
  {
    FindSecond(e, x);
    match FindNext(e.seconds, 60, x.sec, x, SECOND, MINUTE, [])
    case None => Invalid
    case Some((v, y)) =>
      SecondAdvances(e, x, y);
      Monotone(x, y, dot);
      MinutePart(e, y, dot, if x.sec == v then Push([], SECOND) else [])
  }

  function MinutePart(e: Expr, x: Instant, dot: int, resets: seq<int>): (o: Outcome)
    requires Valid(e) && MinutePre(e, x, resets)
    ensures Reaches(e, x, dot, o)
    decreases MonthsLeft(x, dot), Target(e, x) - x.day, 1440 - 60 * x.hour - x.min, 3
  {
    FindMinute(e, x, resets);
    match FindNext(e.minutes, 60, x.min, x, MINUTE, HOUR_OF_DAY, resets)
    case None => Invalid
    case Some((v, y)) =>
      if x.min == v then HourPart(e, y, dot, Push(resets, MINUTE))
      else
        MinuteAdvances(e, x, y, resets);
        Monotone(x, y, dot);
        var o := DoNext(e, y, dot);
        if o.Found? then HourPart(e, o.at, dot, resets) else o
  }

  function HourPart(e: Expr, x: Instant, dot: int, resets: seq<int>): (o: Outcome)
    requires Valid(e) && HourPre(e, x, resets)
    ensures Reaches(e, x, dot, o)
    decreases MonthsLeft(x, dot), Target(e, x) - x.day, 1440 - 60 * x.hour - x.min, 2
  {
    FindHour(e, x, resets);
    match FindNext(e.hours, 24, x.hour, x, HOUR_OF_DAY, DAY_OF_WEEK, resets)
    case None => Invalid
    case Some((v, y)) =>
      if x.hour == v then DayPart(e, y, dot, Push(resets, HOUR_OF_DAY))
      else
        HourAdvances(e, x, y, resets);
        Monotone(x, y, dot);
        var o := DoNext(e, y, dot);
        if o.Found? then DayPart(e, o.at, dot, resets) else o
  }

  function DayPart(e: Expr, x: Instant, dot: int, resets: seq<int>): (o: Outcome)
    requires Valid(e) && DayPre(e, x, resets)
    ensures Reaches(e, x, dot, o)
    decreases MonthsLeft(x, dot), Target(e, x) - x.day, 1440 - 60 * x.hour - x.min, 1
  {
    FindDay(e, x, resets, 0);
    match FindNextDay(e, x, DayOfMonth(x.day), Weekday(x.day), resets, 0)
    case None => Invalid
    case Some((m, y)) =>
      StoppedDay(e, x, y, resets);
      Monotone(x, y, dot);
      if DayOfMonth(x.day) == m then MonthPart(e, y, dot, Push(resets, DAY_OF_MONTH))
      else
        var o := DoNext(e, y, dot);
        if o.Found? then MonthPart(e, o.at, dot, resets) else o
  }

  function MonthPart(e: Expr, x: Instant, dot: int, resets: seq<int>): (o: Outcome)
    requires Valid(e) && MonthPre(e, x, resets)
    ensures Reaches(e, x, dot, o)
    decreases MonthsLeft(x, dot), Target(e, x) - x.day, 1440 - 60 * x.hour - x.min, 0
  {
    FindMonth(e, x, resets);
    match FindNext(e.months, 12, MonthOfYear(x.day), x, MONTH, YEAR, resets)
    case None => Invalid
    case Some((v, y)) =>
      if MonthOfYear(x.day) == v then Found(y)
      else if TooFar(y, dot) then PastCutoff(y)
      else
        MonthMoved(e, x, y, resets, dot);
        DoNext(e, y, dot)
  }

  lemma {:induction false} StoppedDay(e: Expr, x: Instant, y: Instant, resets: seq<int>)
    requires Valid(e) && DayPre(e, x, resets) && DayStep(e, x, y, resets, StopDay(e, x.day))
    ensures Advances(e, x, y) && SecondLeft(e, y) && (y == x || (x.day < y.day && y.hour == 0 && y.min == 0))
    ensures y == x <==> MatchesDay(e, x.day)
  {
    hide Weekday, DayOfMonth;
    if !MatchesDay(e, x.day) {
      DayAdvances(e, x, y);
    }
  }

  lemma {:induction false} MonthMoved(e: Expr, x: Instant, y: Instant, resets: seq<int>, dot: int)
    requires Valid(e) && MonthPre(e, x, resets) && MonthStep(e, x, y, resets) && !MatchesMonth(e, x.day)
    ensures x.day < y.day && SecondLeft(e, y) && y.hour == 0 && y.min == 0
    ensures y.day == FirstDay(Landing(e, x.day))
    ensures !TooFar(y, dot) ==> MonthsLeft(y, dot) < MonthsLeft(x, dot)
  {
    LaterMonth(x.day, Landing(e, x.day));
    MonthOfFirstDay(Landing(e, x.day));
    SecondKept(e, x, y);
  }

  // ---------------------------------------------------------------------------------------------
  // cron_next
  // ---------------------------------------------------------------------------------------------

  function TmYear(x: Instant): int {
    YearOf(x.day) - 1900
  }

  /** cron_next; -1 is CRON_INVALID_INSTANT. */
  function NextFire(e: Expr, date: int): int
    requires Valid(e)
  {
    var x := FromSeconds(date);
    if date == -1 then -1
    else
      match DoNext(e, x, TmYear(x))
      case Found(y) =>
        if Seconds(y) == -1 then -1
        else if Seconds(y) == date then
          (match AddToField(y, SECOND, 1)
           case None => -1
           case Some(z) =>
             match DoNext(e, z, TmYear(z))
             case Found(w) => Seconds(w)
             case _ => -1)
        else Seconds(y)
      case _ => -1
  }
}
