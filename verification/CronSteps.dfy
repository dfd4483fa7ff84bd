/** What each single step of the computation does to the calendar. */
module CronSteps {
  import opened Calendar
  import opened CronSpec
  import opened Wrappers

  lemma {:induction false} NormalizeIs(tm: Tm, y: Instant)
    requires Timegm(tm) == Seconds(y)
    ensures Normalize(tm) == y
  {
    FromSecondsSeconds(y);
  }

  predicate IsMinusOne(x: Instant) {
    x == At(-1, 23, 59, 59)
  }

  lemma {:induction false} MinusOne(x: Instant)
    ensures Seconds(x) == -1 <==> IsMinusOne(x)
  {
  }

  function NextHour(x: Instant): Instant {
    if x.hour < 23 then x.(hour := x.hour + 1) else x.(day := x.day + 1, hour := 0)
  }

  function NextMinute(x: Instant): Instant {
    if x.min < 59 then x.(min := x.min + 1) else NextHour(x).(min := 0)
  }

  function NextSecond(x: Instant): Instant {
    if x.sec < 59 then x.(sec := x.sec + 1) else NextMinute(x).(sec := 0)
  }

  function Checked(x: Instant): Option<Instant> {
    if IsMinusOne(x) then None else Some(x)
  }

  lemma {:induction false} WriteIs(tm: Tm, y: Instant)
    requires Timegm(tm) == Seconds(y)
    ensures Write(tm) == Checked(y)
  {
    NormalizeIs(tm, y);
    MinusOne(y);
  }

  // Writing a field of the time of day, or advancing it by one

  lemma {:induction false} SetSecond(x: Instant, v: int)
    requires 0 <= v < 60
    ensures SetField(x, SECOND, v) == Checked(x.(sec := v))
  {
    hide Write, MonthLength, FirstDay, MonthOf, DayOfMonth, MonthOfYear, YearOf, Weekday;
    TimegmOfTm(x);
    WriteIs(TmOf(x).(sec := v), x.(sec := v));
  }

  lemma {:induction false} SetMinute(x: Instant, v: int)
    requires 0 <= v < 60
    ensures SetField(x, MINUTE, v) == Checked(x.(min := v))
  {
    hide Write, MonthLength, FirstDay, MonthOf, DayOfMonth, MonthOfYear, YearOf, Weekday;
    TimegmOfTm(x);
    WriteIs(TmOf(x).(min := v), x.(min := v));
  }

  lemma {:induction false} SetHour(x: Instant, v: int)
    requires 0 <= v < 24
    ensures SetField(x, HOUR_OF_DAY, v) == Checked(x.(hour := v))
  {
    hide Write, MonthLength, FirstDay, MonthOf, DayOfMonth, MonthOfYear, YearOf, Weekday;
    TimegmOfTm(x);
    WriteIs(TmOf(x).(hour := v), x.(hour := v));
  }

  lemma {:induction false} AddSecond(x: Instant)
    ensures AddToField(x, SECOND, 1) == Checked(NextSecond(x))
  {
    hide Write, MonthLength, FirstDay, MonthOf, DayOfMonth, MonthOfYear, YearOf, Weekday;
    TimegmOfTm(x);
    WriteIs(TmOf(x).(sec := x.sec + 1), NextSecond(x));
  }

  lemma {:induction false} AddMinute(x: Instant)
    ensures AddToField(x, MINUTE, 1) == Checked(NextMinute(x))
  {
    hide Write, MonthLength, FirstDay, MonthOf, DayOfMonth, MonthOfYear, YearOf, Weekday;
    TimegmOfTm(x);
    WriteIs(TmOf(x).(min := x.min + 1), NextMinute(x));
  }

  lemma {:induction false} AddHour(x: Instant)
    ensures AddToField(x, HOUR_OF_DAY, 1) == Checked(NextHour(x))
  {
    hide Write, MonthLength, FirstDay, MonthOf, DayOfMonth, MonthOfYear, YearOf, Weekday;
    TimegmOfTm(x);
    WriteIs(TmOf(x).(hour := x.hour + 1), NextHour(x));
  }

  // Writing the date

  /** The day a month and a day of the month stand for; both may lie outside their usual range. */
  function DayAt(month: int, mday: int): int {
    FirstDay(month) + mday - 1
  }

  lemma {:induction false} MonthSplit(day: int)
    ensures 12 * YearOf(day) + MonthOfYear(day) == MonthOf(day)
    ensures DayAt(MonthOf(day), DayOfMonth(day)) == day
  {
  }

  lemma {:induction false} WriteDate(x: Instant, year: int, mon: int, mday: int, wday: int)
    ensures Write(TmOf(x).(year := year - 1900, mon := mon, mday := mday, wday := wday))
         == Checked(x.(day := DayAt(12 * year + mon, mday)))
  {
    WriteIs(TmOf(x).(year := year - 1900, mon := mon, mday := mday, wday := wday), x.(day := DayAt(12 * year + mon, mday)));
  }

  lemma {:induction false} AddDay(x: Instant)
    ensures AddToField(x, DAY_OF_MONTH, 1) == AddToField(x, DAY_OF_WEEK, 1) == Checked(x.(day := x.day + 1))
  {
    hide Write, MonthLength, FirstDay, MonthOf, DayOfMonth, MonthOfYear, YearOf, Weekday;
    MonthSplit(x.day);
    WriteDate(x, YearOf(x.day), MonthOfYear(x.day), DayOfMonth(x.day) + 1, Weekday(x.day));
    assert DayAt(MonthOf(x.day), DayOfMonth(x.day) + 1) == x.day + 1;
  }

  lemma {:induction false} AddYear(x: Instant)
    ensures AddToField(x, YEAR, 1) == Checked(x.(day := DayAt(MonthOf(x.day) + 12, DayOfMonth(x.day))))
  {
    hide Write, MonthLength, FirstDay, MonthOf, DayOfMonth, MonthOfYear, YearOf, Weekday;
    MonthSplit(x.day);
    WriteDate(x, YearOf(x.day) + 1, MonthOfYear(x.day), DayOfMonth(x.day), Weekday(x.day));
  }

  lemma {:induction false} SetMonth(x: Instant, v: int)
    ensures SetField(x, MONTH, v) == Checked(x.(day := DayAt(12 * YearOf(x.day) + v, DayOfMonth(x.day))))
  {
    hide Write, MonthLength, FirstDay, MonthOf, DayOfMonth, MonthOfYear, YearOf, Weekday;
    WriteDate(x, YearOf(x.day), v, DayOfMonth(x.day), Weekday(x.day));
  }

  lemma {:induction false} SetDay(x: Instant, v: int)
    ensures SetField(x, DAY_OF_MONTH, v) == Checked(x.(day := DayAt(MonthOf(x.day), v)))
  {
    hide Write, MonthLength, FirstDay, MonthOf, DayOfMonth, MonthOfYear, YearOf, Weekday;
    MonthSplit(x.day);
    WriteDate(x, YearOf(x.day), MonthOfYear(x.day), v, Weekday(x.day));
  }

  // ---------------------------------------------------------------------------------------------
  // Resetting
  // ---------------------------------------------------------------------------------------------

  /** The lists of fields that do_next resets. */
  predicate Resettable(fields: seq<int>) {
    forall f | f in fields :: f == SECOND || f == MINUTE || f == HOUR_OF_DAY || f == DAY_OF_MONTH
  }

  function Cleared(x: Instant, fields: seq<int>): Instant {
    At(if DAY_OF_MONTH in fields then FirstDay(MonthOf(x.day)) else x.day,
       if HOUR_OF_DAY in fields then 0 else x.hour,
       if MINUTE in fields then 0 else x.min,
       if SECOND in fields then 0 else x.sec)
  }

  lemma {:induction false} MonthOfFirstDay(month: int)
    ensures MonthOf(FirstDay(month)) == month
  {
    FirstDayNext(month);
    MonthOfUnique(FirstDay(month), month);
  }

  lemma {:induction false} MinusOneIsLast()
    ensures MonthOf(-1) == EPOCH_MONTH - 1 && FirstDay(EPOCH_MONTH - 1) == -31
  {
    FirstDayNext(EPOCH_MONTH - 1);
    MonthOfUnique(-1, EPOCH_MONTH - 1);
  }

  lemma {:induction false} ResetOne(x: Instant, f: int)
    requires Resettable([f])
    ensures ResetMin(x, f) == Some(Cleared(x, [f]))
  {
    hide SetField;
    assert f in [f];
    SetSecond(x, 0);
    SetMinute(x, 0);
    SetHour(x, 0);
    SetDay(x, 1);
    MonthOfFirstDay(MonthOf(x.day));
    MinusOneIsLast();
  }

  /** Resetting never fails: the invalid instant -1 is not the start of a minute. */
  lemma {:induction false} ResetAll(x: Instant, fields: seq<int>)
    requires Resettable(fields)
    ensures ResetAllMin(x, fields) == Some(Cleared(x, fields))
    ensures ResetAllIgnoringErrors(x, fields) == Cleared(x, fields)
    decreases fields
  {
    if fields != [] {
      assert fields[0] in fields;
      ResetOne(x, fields[0]);
      var y := Cleared(x, [fields[0]]);
      assert fields == [fields[0]] + fields[1..];
      assert forall f | f in fields[1..] :: f in fields;
      ResetAll(y, fields[1..]);
      MonthOfFirstDay(MonthOf(x.day));
    }
  }

  // ---------------------------------------------------------------------------------------------
  // find_next, field by field
  // ---------------------------------------------------------------------------------------------

  /** v is the least element of bits that is at least from. */
  predicate IsNext(bits: set<int>, from: int, v: int) {
    from <= v && v in bits && forall u | from <= u < v :: u !in bits
  }

  predicate NoneFrom(bits: set<int>, from: int) {
    forall u | u in bits :: u < from
  }

  lemma {:induction false} SearchSet(bits: set<int>, max: int, from: int)
    requires InRange(bits, 0, max) && 0 <= from
    ensures match NextSetBit(bits, max, from)
            case Some(v) => IsNext(bits, from, v)
            case None => NoneFrom(bits, from)
    ensures NextSetBit(bits, max, 0).Some?
  {
    var v :| v in bits;
  }

  /** The seconds step: stays, or moves to the next second of the set, in the next minute if this
      minute has none left. */
  predicate SecondStep(e: Expr, x: Instant, y: Instant) {
    && y.sec in e.seconds
    && (x.sec in e.seconds ==> y == x)
    && ((y == x.(sec := y.sec) && IsNext(e.seconds, x.sec, y.sec))
        || (y == NextMinute(x).(sec := y.sec) && NoneFrom(e.seconds, x.sec) && IsNext(e.seconds, 0, y.sec)))
  }

  lemma {:induction false} FindSecond(e: Expr, x: Instant)
    requires Valid(e)
    ensures match FindNext(e.seconds, 60, x.sec, x, SECOND, MINUTE, [])
            case Some((v, y)) => v == y.sec && SecondStep(e, x, y)
            case None => x.day < 0 && x.sec !in e.seconds
  {
    hide SetField, AddToField, ResetMin;
    SearchSet(e.seconds, 60, x.sec);
    SearchSet(e.seconds, 60, 0);
    match NextSetBit(e.seconds, 60, x.sec)
    case Some(v) =>
      SetSecond(x, v);
    case None =>
      var v := NextSetBit(e.seconds, 60, 0).value;
      AddMinute(x);
      var y := NextMinute(x);
      ResetOne(y, SECOND);
      var z := y.(sec := 0);
      SetSecond(z, v);
  }

  predicate MinuteStep(e: Expr, x: Instant, y: Instant, lower: seq<int>) {
    && y.min in e.minutes
    && (x.min in e.minutes ==> y == x)
    && (x.min !in e.minutes ==>
          && y.sec == (if SECOND in lower then 0 else x.sec)
          && ((y == x.(min := y.min, sec := y.sec) && IsNext(e.minutes, x.min, y.min))
              || (y == NextHour(x).(min := y.min, sec := y.sec) && NoneFrom(e.minutes, x.min) && IsNext(e.minutes, 0, y.min))))
  }

  lemma {:induction false} FindMinute(e: Expr, x: Instant, lower: seq<int>)
    requires Valid(e) && (lower == [] || lower == [SECOND])
    ensures match FindNext(e.minutes, 60, x.min, x, MINUTE, HOUR_OF_DAY, lower)
            case Some((v, y)) => v == y.min && MinuteStep(e, x, y, lower)
            case None => x.day < 0 && x.min !in e.minutes
  {
    hide SetField, AddToField, ResetMin;
    SearchSet(e.minutes, 60, x.min);
    SearchSet(e.minutes, 60, 0);
    match NextSetBit(e.minutes, 60, x.min)
    case Some(v) =>
      SetMinute(x, v);
      ResetAll(x.(min := v), lower);
    case None =>
      var v := NextSetBit(e.minutes, 60, 0).value;
      AddHour(x);
      var y := NextHour(x);
      ResetOne(y, MINUTE);
      var z := y.(min := 0);
      SetMinute(z, v);
      ResetAll(z.(min := v), lower);
  }

  predicate HourStep(e: Expr, x: Instant, y: Instant, lower: seq<int>) {
    && y.hour in e.hours
    && (x.hour in e.hours ==> y == x)
    && (x.hour !in e.hours ==>
          && y.sec == (if SECOND in lower then 0 else x.sec)
          && y.min == (if MINUTE in lower then 0 else x.min)
          && ((y.day == x.day && IsNext(e.hours, x.hour, y.hour))
              || (y.day == x.day + 1 && NoneFrom(e.hours, x.hour) && IsNext(e.hours, 0, y.hour))))
  }

  lemma {:induction false} FindHour(e: Expr, x: Instant, lower: seq<int>)
    requires Valid(e) && Resettable(lower) && DAY_OF_MONTH !in lower && HOUR_OF_DAY !in lower
    ensures match FindNext(e.hours, 24, x.hour, x, HOUR_OF_DAY, DAY_OF_WEEK, lower)
            case Some((v, y)) => v == y.hour && HourStep(e, x, y, lower)
            case None => x.day < 0 && x.hour !in e.hours
  {
    hide SetField, AddToField, ResetMin;
    SearchSet(e.hours, 24, x.hour);
    SearchSet(e.hours, 24, 0);
    match NextSetBit(e.hours, 24, x.hour)
    case Some(v) =>
      SetHour(x, v);
      ResetAll(x.(hour := v), lower);
    case None =>
      var v := NextSetBit(e.hours, 24, 0).value;
      AddDay(x);
      var y := x.(day := x.day + 1);
      ResetOne(y, HOUR_OF_DAY);
      var z := y.(hour := 0);
      SetHour(z, v);
      ResetAll(z.(hour := v), lower);
  }

  // ---------------------------------------------------------------------------------------------
  // find_next_day
  // ---------------------------------------------------------------------------------------------

  /** The day at which find_next_day stops when it has tried count days before this one. */
  function StopFrom(e: Expr, day: int, count: int): (r: int)
    ensures day <= r <= day + (if count < MAX_DAYS then MAX_DAYS - count else 0)
    ensures forall d | day <= d < r :: !MatchesDay(e, d)
    ensures MatchesDay(e, r) || count >= MAX_DAYS || r == day + MAX_DAYS - count
    decreases MAX_DAYS - count
  {
    if MatchesDay(e, day) || count >= MAX_DAYS then day else StopFrom(e, day + 1, count + 1)
  }

  function StopDay(e: Expr, day: int): int {
    StopFrom(e, day, 0)
  }

  /** The search stops on the first day that the day fields allow, or after 366 days. */
  lemma {:induction false} SearchesAYear(e: Expr, day: int)
    ensures var stop := StopDay(e, day);
            && day <= stop <= day + 366
            && (forall d | day <= d < stop :: !MatchesDay(e, d))
            && (stop < day + 366 ==> MatchesDay(e, stop))
  {
  }

  predicate DayStep(e: Expr, x: Instant, y: Instant, resets: seq<int>, stop: int) {
    y == if stop == x.day then x else Cleared(x, resets).(day := stop)
  }

  lemma {:induction false} FindDay(e: Expr, x: Instant, resets: seq<int>, count: int)
    requires Resettable(resets) && DAY_OF_MONTH !in resets && 0 <= count
    ensures match FindNextDay(e, x, DayOfMonth(x.day), Weekday(x.day), resets, count)
            case Some((m, y)) => m == DayOfMonth(y.day) && DayStep(e, x, y, resets, StopFrom(e, x.day, count))
            case None => x.day < 0 && !MatchesDay(e, x.day)
    decreases MAX_DAYS - count
  {
    hide AddToField, FirstDay, MonthLength, MonthOf, DayOfMonth, Weekday;
    if !MatchesDay(e, x.day) && count < MAX_DAYS {
      AddDay(x);
      var y := x.(day := x.day + 1);
      ResetAll(y, resets);
      FindDay(e, Cleared(y, resets), resets, count + 1);
    }
  }

  // ---------------------------------------------------------------------------------------------
  // The month
  // ---------------------------------------------------------------------------------------------

  /** The first month after the given one that the expression allows. */
  function TargetMonth(e: Expr, month: int): (t: int)
    requires Valid(e)
    ensures month < t <= month + 12
  {
    SearchSet(e.months, 12, month % 12 + 1);
    SearchSet(e.months, 12, 0);
    var january := month - month % 12;
    match NextSetBit(e.months, 12, month % 12 + 1)
    case Some(v) => january + v
    case None =>
      var first :| first in e.months;
      assert first <= month % 12;
      january + 12 + NextSetBit(e.months, 12, 0).value
  }

  lemma {:induction false} ModYear(month: int, u: int)
    ensures var offset := u - (month - month % 12);
            (0 <= offset < 12 ==> u % 12 == offset) && (12 <= offset < 24 ==> u % 12 == offset - 12)
  {
  }

  lemma {:induction false} TargetMonthIsNext(e: Expr, month: int)
    requires Valid(e)
    ensures TargetMonth(e, month) % 12 in e.months
    ensures forall u | month < u < TargetMonth(e, month) :: u % 12 !in e.months
  {
    var t := TargetMonth(e, month);
    SearchSet(e.months, 12, month % 12 + 1);
    SearchSet(e.months, 12, 0);
    ModYear(month, t);
    forall u | month < u < t ensures u % 12 !in e.months {
      ModYear(month, u);
    }
  }

  /** The month on whose first day the month step puts the calendar. The day of the month is still
      the old one when the month is written, so a shorter target month is passed over. */
  function Landing(e: Expr, day: int): (r: int)
    requires Valid(e)
    ensures MonthOf(day) < r
  {
    var t := TargetMonth(e, MonthOf(day));
    if DayOfMonth(day) > MonthLength(t) then t + 1 else t
  }

  /** Writing month t while the day of the month is mday, and then the day as 1. */
  lemma {:induction false} LandingDay(t: int, mday: int)
    requires 1 <= mday <= 31
    ensures MonthOf(DayAt(t, mday)) == if mday > MonthLength(t) then t + 1 else t
    ensures FirstDay(t) <= DayAt(t, mday)
    ensures mday <= MonthLength(t) ==> DayOfMonth(DayAt(t, mday)) == mday
  {
    FirstDayNext(t);
    FirstDayNext(t + 1);
    if mday > MonthLength(t) {
      MonthOfUnique(DayAt(t, mday), t + 1);
    } else {
      MonthOfUnique(DayAt(t, mday), t);
    }
  }

  lemma {:induction false} LaterMonth(day: int, month: int)
    requires MonthOf(day) < month
    ensures day < FirstDay(month)
  {
    FirstDayMonotone(MonthOf(day) + 1, month);
  }

  predicate MonthStep(e: Expr, x: Instant, y: Instant, lower: seq<int>)
    requires Valid(e)
  {
    y == if MatchesMonth(e, x.day) then x else Cleared(x, lower).(day := FirstDay(Landing(e, x.day)))
  }

  lemma {:induction false} FindMonthSameYear(e: Expr, x: Instant, lower: seq<int>)
    requires Valid(e) && Resettable(lower) && DAY_OF_MONTH in lower && !MatchesMonth(e, x.day)
    requires NextSetBit(e.months, 12, MonthOfYear(x.day)).Some?
    ensures match FindNext(e.months, 12, MonthOfYear(x.day), x, MONTH, YEAR, lower)
            case Some((v, y)) => v != MonthOfYear(x.day) && MonthStep(e, x, y, lower)
            case None => x.day < 0
  {
    hide SetField, AddToField, ResetMin, MonthLength, FirstDay, InRange, MonthOf, DayOfMonth;
    var m := MonthOfYear(x.day);
    var v := NextSetBit(e.months, 12, m).value;
    var t := TargetMonth(e, MonthOf(x.day));
    assert t == 12 * YearOf(x.day) + v;
    SetMonth(x, v);
    LandingDay(t, DayOfMonth(x.day));
    LaterMonth(x.day, t);
    ResetAll(x.(day := DayAt(t, DayOfMonth(x.day))), lower);
  }

  lemma {:induction false} NextYearDay(day: int)
    ensures var d := DayAt(MonthOf(day) + 12, DayOfMonth(day));
            && YearOf(d) == YearOf(day) + 1
            && day < d
            && (DayOfMonth(d) == DayOfMonth(day) || (DayOfMonth(d) == 1 && MonthOfYear(day) == 1))
  {
    hide FirstDay;
    LandingDay(MonthOf(day) + 12, DayOfMonth(day));
    LaterMonth(day, MonthOf(day) + 12);
    MonthSplit(day);
    FirstDayNext(MonthOf(day) + 12);
  }

  lemma {:induction false} FindMonthNextYear(e: Expr, x: Instant, lower: seq<int>)
    requires Valid(e) && Resettable(lower) && DAY_OF_MONTH in lower && !MatchesMonth(e, x.day)
    requires NextSetBit(e.months, 12, MonthOfYear(x.day)).None?
    ensures match FindNext(e.months, 12, MonthOfYear(x.day), x, MONTH, YEAR, lower)
            case Some((v, y)) => v != MonthOfYear(x.day) && MonthStep(e, x, y, lower)
            case None => x.day < 0
  {
    hide SetField, AddToField, MonthLength, FirstDay;
    var m := MonthOfYear(x.day);
    SearchSet(e.months, 12, m);
    SearchSet(e.months, 12, 0);
    var v := NextSetBit(e.months, 12, 0).value;
    var t := TargetMonth(e, MonthOf(x.day));
    assert t == 12 * (YearOf(x.day) + 1) + v;
    NextYearDay(x.day);
    AddYear(x);
    var y := x.(day := DayAt(MonthOf(x.day) + 12, DayOfMonth(x.day)));
    SetMonth(y, 0);
    var mday := DayOfMonth(y.day);
    var january := 12 * YearOf(y.day);
    var z := y.(day := DayAt(january, mday));
    LandingDay(january, mday);
    LaterMonth(x.day, january);
    JanuaryHas31(YearOf(y.day));
    assert YearOf(z.day) == YearOf(y.day) && DayOfMonth(z.day) == mday;
    SetMonth(z, v);
    LandingDay(t, mday);
    LaterMonth(x.day, t);
    ResetAll(z.(day := DayAt(t, mday)), lower);
  }

  lemma {:induction false} FindMonth(e: Expr, x: Instant, lower: seq<int>)
    requires Valid(e) && Resettable(lower)
    requires MatchesMonth(e, x.day) || DAY_OF_MONTH in lower
    ensures match FindNext(e.months, 12, MonthOfYear(x.day), x, MONTH, YEAR, lower)
            case Some((v, y)) => (v == MonthOfYear(x.day) <==> MatchesMonth(e, x.day)) && MonthStep(e, x, y, lower)
            case None => x.day < 0 && !MatchesMonth(e, x.day)
  {
    if !MatchesMonth(e, x.day) {
      match NextSetBit(e.months, 12, MonthOfYear(x.day))
      case Some(v) => FindMonthSameYear(e, x, lower);
      case None => FindMonthNextYear(e, x, lower);
    }
  }
}
