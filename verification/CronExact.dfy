/** Exactly which expressions cron_next answers correctly from every date, and the usual ones that
    it does. */
module CronExact {
  import opened Calendar
  import opened CronSpec
  import opened CronSteps
  import opened CronFire
  import opened CronTheorems

  // ---------------------------------------------------------------------------------------------
  // Moving to another 400-year cycle
  // ---------------------------------------------------------------------------------------------

  function Shift(day: int, cycles: nat): int {
    day + CYCLE_DAYS * cycles
  }

  lemma {:induction false} MonthOfShift(day: int, cycles: nat)
    ensures MonthOf(Shift(day, cycles)) == MonthOf(day) + CYCLE_MONTHS * cycles
    ensures DayOfMonth(Shift(day, cycles)) == DayOfMonth(day)
    ensures MonthOfYear(Shift(day, cycles)) == MonthOfYear(day)
    ensures Weekday(Shift(day, cycles)) == Weekday(day)
  {
    hide MonthOf, DayOfMonth, MonthOfYear, Weekday;
    if cycles > 0 {
      MonthOfShift(day, cycles - 1);
      MonthOfPeriodic(Shift(day, cycles - 1));
    }
  }

  lemma {:induction false} StopShift(e: Expr, day: int, cycles: nat, count: int)
    ensures StopFrom(e, Shift(day, cycles), count) == Shift(StopFrom(e, day, count), cycles)
    decreases MAX_DAYS - count
  {
    hide MonthOf, DayOfMonth, MonthOfYear, Weekday;
    MonthOfShift(day, cycles);
    if !MatchesDay(e, day) && count < MAX_DAYS {
      StopShift(e, day + 1, cycles, count + 1);
    }
  }

  lemma {:induction false} MonthLengthShift(month: int, cycles: nat)
    ensures MonthLength(month + CYCLE_MONTHS * cycles) == MonthLength(month)
    ensures (month + CYCLE_MONTHS * cycles) % 12 == month % 12
  {
    hide MonthLength;
    if cycles > 0 {
      MonthLengthShift(month, cycles - 1);
      FirstDayPeriodic(month + CYCLE_MONTHS * (cycles - 1));
      MonthShift(month + CYCLE_MONTHS * (cycles - 1));
    }
  }

  lemma {:induction false} TargetShift(e: Expr, month: int, cycles: nat)
    requires Valid(e)
    ensures TargetMonth(e, month + CYCLE_MONTHS * cycles) == TargetMonth(e, month) + CYCLE_MONTHS * cycles
  {
    hide MonthLength;
    MonthLengthShift(month, cycles);
  }

  // ---------------------------------------------------------------------------------------------
  // The first instant of a day that the time fields allow
  // ---------------------------------------------------------------------------------------------

  function Least(bits: set<int>, min: int, max: int): (v: int)
    requires InRange(bits, min, max) && 0 <= min
    ensures min <= v < max && IsNext(bits, min, v)
  {
    SearchSet(bits, max, 0);
    InRangeHasElementIn(bits, min, max);
    NextSetBit(bits, max, min).value
  }

  lemma {:induction false} InRangeHasElementIn(bits: set<int>, min: int, max: int)
    requires InRange(bits, min, max)
    ensures exists v :: v in bits && min <= v < max
  {
    var v := InRangeHasElement(bits, min, max);
  }

  function Opening(e: Expr, day: int): (x: Instant)
    requires Valid(e)
    ensures x.day == day && x.hour in e.hours && x.min in e.minutes && x.sec in e.seconds
  {
    At(day, Least(e.hours, 0, 24), Least(e.minutes, 0, 60), Least(e.seconds, 0, 60))
  }

  /** From there only the day and the month are left to decide. */
  lemma {:induction false} FromOpening(e: Expr, day: int, dot: int)
    requires Valid(e)
    ensures DayPre(e, Opening(e, day), [SECOND, MINUTE, HOUR_OF_DAY])
    ensures DoNext(e, Opening(e, day), dot) == DayPart(e, Opening(e, day), dot, [SECOND, MINUTE, HOUR_OF_DAY])
  {
    hide FindNext, DayPart;
    var x := Opening(e, day);
    FindSecond(e, x);
    FindMinute(e, x, [SECOND]);
    FindHour(e, x, [SECOND, MINUTE]);
    assert Push([], SECOND) == [SECOND];
    assert Push([SECOND], MINUTE) == [SECOND, MINUTE];
    assert Push([SECOND, MINUTE], HOUR_OF_DAY) == [SECOND, MINUTE, HOUR_OF_DAY];
    assert DoNext(e, x, dot) == MinutePart(e, x, dot, [SECOND]);
    assert MinutePart(e, x, dot, [SECOND]) == HourPart(e, x, dot, [SECOND, MINUTE]);
  }

  /** On a day that settles, the month step follows from where the day step stopped. */
  lemma {:induction false} FromSettledDay(e: Expr, day: int, dot: int) returns (y: Instant)
    requires Valid(e) && Settles(e, day) && (0 <= day || MatchesDay(e, day))
    ensures y == if MatchesDay(e, day) then Opening(e, day) else At(StopDay(e, day), 0, 0, 0)
    ensures y.day == StopDay(e, day)
    ensures MonthPre(e, y, [SECOND, MINUTE, HOUR_OF_DAY, DAY_OF_MONTH])
    ensures DoNext(e, Opening(e, day), dot) == MonthPart(e, y, dot, [SECOND, MINUTE, HOUR_OF_DAY, DAY_OF_MONTH])
  {
    hide FindNext, FindNextDay, MonthPart, DoNext, DayOfMonth, Weekday;
    var x := Opening(e, day);
    var resets := [SECOND, MINUTE, HOUR_OF_DAY];
    FromOpening(e, day, dot);
    FindDay(e, x, resets, 0);
    y := FindNextDay(e, x, DayOfMonth(x.day), Weekday(x.day), resets, 0).value.1;
    StoppedDay(e, x, y, resets);
    assert Push(resets, DAY_OF_MONTH) == [SECOND, MINUTE, HOUR_OF_DAY, DAY_OF_MONTH];
    assert DayPart(e, x, dot, resets) == MonthPart(e, y, dot, Push(resets, DAY_OF_MONTH));
  }

  // ---------------------------------------------------------------------------------------------
  // Unsafe days
  // ---------------------------------------------------------------------------------------------

  /** do_next ends at midnight of the day where find_next_day stopped, which is no match. */
  lemma {:induction false} MisplacedDayFails(e: Expr, day: int)
    requires Valid(e) && MisplacesDay(e, day) && 0 <= day
    ensures var date := Seconds(Opening(e, day));
            && 0 <= date && !RightAnswer(e, date)
            && NextFire(e, date) == Seconds(At(StopDay(e, day), 0, 0, 0))
            && !MatchesAt(e, NextFire(e, date))
  {
    hide FindNext, DoNext, DayOfMonth, FromSeconds;
    var x := Opening(e, day);
    FromSecondsSeconds(x);
    var y := FromSettledDay(e, day, TmYear(x));
    FindMonth(e, y, [SECOND, MINUTE, HOUR_OF_DAY, DAY_OF_MONTH]);
    assert DoNext(e, x, TmYear(x)) == Found(y);
    FromSecondsSeconds(y);
  }

  lemma {:induction false} MisplacedDayPeriodic(e: Expr, day: int, cycles: nat)
    ensures MisplacesDay(e, Shift(day, cycles)) <==> MisplacesDay(e, day)
  {
    hide DayOfMonth, MonthOfYear, Weekday;
    StopShift(e, day, cycles, 0);
    MonthOfShift(day, cycles);
    MonthOfShift(StopDay(e, day), cycles);
  }

  lemma {:induction false} UnsafeDaysFail(e: Expr) returns (date: int)
    requires Valid(e) && !SafeDays(e)
    ensures 0 <= date && !RightAnswer(e, date)
  {
    hide DayOfMonth, MonthOfYear, Weekday, RightAnswer, StopDay;
    var day :| MisplacesDay(e, day);
    var cycles := if day < 0 then -day else 0;
    MisplacedDayPeriodic(e, day, cycles);
    MisplacedDayFails(e, Shift(day, cycles));
    date := Seconds(Opening(e, Shift(day, cycles)));
  }

  // ---------------------------------------------------------------------------------------------
  // Unsafe months
  // ---------------------------------------------------------------------------------------------

  /** find_next_day looks at most a year ahead, and the target month is at most a year later. */
  lemma {:induction false} YearsApart(day: int, stop: int, target: int)
    requires day <= stop <= day + MAX_DAYS && target <= MonthOf(stop) + 12
    ensures target / 12 <= YearOf(day) + 4
  {
    hide FirstDay, MonthLength;
    MonthOfMonotone(day, stop);
    if MonthOf(day) < MonthOf(stop) {
      FirstDayMonotone(MonthOf(day) + 1, MonthOf(stop));
    }
  }

  /** The day of the passed-over month lies between the start and the landing. */
  lemma {:induction false} MissedDayBetween(e: Expr, day: int, other: int)
    requires Valid(e) && MissesDay(e, day, other)
    ensures day <= StopDay(e, day) < other < FirstDay(Landing(e, StopDay(e, day)))
    ensures YearOf(other) <= YearOf(day) + 4 && MatchesMonth(e, other)
  {
    hide FirstDay, MonthLength, DayOfMonth, Weekday;
    var t := TargetMonth(e, MonthOf(StopDay(e, day)));
    TargetMonthIsNext(e, MonthOf(StopDay(e, day)));
    LaterMonth(StopDay(e, day), t);
    FirstDayMonotone(t, MonthOf(other));
    LaterMonth(other, t + 1);
    YearsApart(day, StopDay(e, day), t);
  }

  lemma {:induction false} MissedDayFails(e: Expr, day: int, other: int)
    requires Valid(e) && MissesDay(e, day, other) && 0 <= day
    ensures var date := Seconds(Opening(e, day));
            var missed := Seconds(Opening(e, other));
            && 0 <= date < missed && MatchesAt(e, missed)
            && (NextFire(e, date) == -1 || missed < NextFire(e, date))
            && !RightAnswer(e, date)
  {
    hide FindNext, DoNext, DayOfMonth, FromSeconds, FirstDay, MonthLength, TooFar;
    var x := Opening(e, day);
    var dot := TmYear(x);
    var resets := [SECOND, MINUTE, HOUR_OF_DAY, DAY_OF_MONTH];
    FromSecondsSeconds(x);
    MissedDayBetween(e, day, other);
    var y := FromSettledDay(e, day, dot);
    FindMonth(e, y, resets);
    var u := Opening(e, other);
    FromSecondsSeconds(u);
    assert MatchesAt(e, Seconds(u));
    var o := DoNext(e, x, dot);
    match FindNext(e.months, 12, MonthOfYear(y.day), y, MONTH, YEAR, resets)
    case None =>
    case Some((v, z)) =>
      MonthMoved(e, y, z, resets, dot);
      assert o == if TooFar(z, dot) then PastCutoff(z) else DoNext(e, z, dot);
      assert o.Found? ==> Le(z, o.at);
      assert NextFire(e, Seconds(x)) == -1 || Seconds(u) < NextFire(e, Seconds(x));
  }

  lemma {:induction false} MissedDayShift(e: Expr, day: int, other: int, cycles: nat)
    requires Valid(e) && MissesDay(e, day, other)
    ensures MissesDay(e, Shift(day, cycles), Shift(other, cycles))
  {
    hide DayOfMonth, MonthOfYear, Weekday, MonthLength, FirstDay, MonthOf, TargetMonth, StopFrom;
    StopShift(e, day, cycles, 0);
    MonthOfShift(day, cycles);
    MonthOfShift(other, cycles);
    MonthOfShift(StopDay(e, day), cycles);
    TargetShift(e, MonthOf(StopDay(e, day)), cycles);
    MonthLengthShift(TargetMonth(e, MonthOf(StopDay(e, day))), cycles);
  }

  lemma {:induction false} UnsafeMonthsFail(e: Expr) returns (date: int)
    requires Valid(e) && !SafeMonths(e)
    ensures 0 <= date && !RightAnswer(e, date)
  {
    hide MissesDay, RightAnswer;
    var day, other :| MissesDay(e, day, other);
    var cycles := if day < 0 then -day else 0;
    MissedDayShift(e, day, other, cycles);
    MissedDayFails(e, Shift(day, cycles), Shift(other, cycles));
    date := Seconds(Opening(e, Shift(day, cycles)));
  }

  // ---------------------------------------------------------------------------------------------
  // Unsafe seconds
  // ---------------------------------------------------------------------------------------------

  /** The next day has the next number in the same month, or is the first of the next month. */
  lemma {:induction false} NextDayIs(day: int)
    ensures if day + 1 == FirstDay(MonthOf(day) + 1) then MonthOf(day + 1) == MonthOf(day) + 1 else MonthOf(day + 1) == MonthOf(day)
  {
    hide MonthLength;
    FirstDayNext(MonthOf(day));
    FirstDayNext(MonthOf(day) + 1);
    MonthOfUnique(day + 1, if day + 1 == FirstDay(MonthOf(day) + 1) then MonthOf(day) + 1 else MonthOf(day));
  }

  lemma {:induction false} NextDayNumber(day: int)
    ensures DayOfMonth(day + 1) != DayOfMonth(day)
  {
    hide MonthLength, FirstDay;
    NextDayIs(day);
    FirstDayNext(MonthOf(day));
  }

  lemma {:induction false} NextDayMonth(day: int)
    requires MonthOf(day + 1) != MonthOf(day)
    ensures MonthOf(day + 1) == MonthOf(day) + 1 && day + 1 == FirstDay(MonthOf(day) + 1)
  {
    NextDayIs(day);
  }

  /** The minute x does not match and the minute after it does. */
  predicate Boundary(e: Expr, x: Instant) {
    !MatchesMinute(e, x) && MatchesMinute(e, NextMinute(x))
  }

  lemma {:induction false} SameMinute(e: Expr, x: Instant, u: Instant)
    requires MinuteNo(x) == MinuteNo(u)
    ensures MatchesMinute(e, x) == MatchesMinute(e, u)
  {
    hide MatchesDay, MatchesMonth;
    assert 24 * x.day + x.hour == 24 * u.day + u.hour;
  }

  lemma {:induction false} NextMinuteNo(x: Instant)
    ensures MinuteNo(NextMinute(x)) == MinuteNo(x) + 1 && x.day <= NextMinute(x).day
  {
  }

  lemma {:induction false} FindBoundary(e: Expr, x: Instant, u: Instant) returns (b: Instant)
    requires !MatchesMinute(e, x) && MatchesMinute(e, u) && MinuteNo(x) <= MinuteNo(u)
    ensures Boundary(e, b) && x.day <= b.day
    decreases MinuteNo(u) - MinuteNo(x)
  {
    if MinuteNo(x) == MinuteNo(u) {
      SameMinute(e, x, u);
    }
    NextMinuteNo(x);
    hide MatchesMinute;
    if MatchesMinute(e, NextMinute(x)) {
      b := x;
    } else {
      b := FindBoundary(e, NextMinute(x), u);
    }
  }

  /** From a boundary minute, with a second of the set, do_next makes one move, to the next minute,
      and keeps the second. */
  lemma {:induction false} FromBoundaryMinute(e: Expr, x: Instant, dot: int)
    requires Valid(e) && 0 <= x.day && Boundary(e, x) && x.sec in e.seconds && x.min !in e.minutes
    ensures MinutePart(e, x, dot, []) == Found(NextMinute(x))
  {
    hide FindNext, DoNext, MatchesDay, MatchesMonth;
    FindMinute(e, x, []);
    if FindNext(e.minutes, 60, x.min, x, MINUTE, HOUR_OF_DAY, []).Some? {
      var y := FindNext(e.minutes, 60, x.min, x, MINUTE, HOUR_OF_DAY, []).value.1;
      assert y == NextMinute(x);
      StayPut(e, y, dot);
      StayHour(e, y, dot, []);
    }
  }

  lemma {:induction false} FromBoundaryHour(e: Expr, x: Instant, dot: int)
    requires Valid(e) && 0 <= x.day && Boundary(e, x) && x.sec in e.seconds && x.min in e.minutes && x.hour !in e.hours
    ensures HourPart(e, x, dot, [MINUTE]) == Found(NextMinute(x))
  {
    hide FindNext, DoNext, MatchesDay, MatchesMonth;
    FindHour(e, x, [MINUTE]);
    var y := FindNext(e.hours, 24, x.hour, x, HOUR_OF_DAY, DAY_OF_WEEK, [MINUTE]).value.1;
    assert y == NextMinute(x);
    StayPut(e, y, dot);
    StayDay(e, y, dot, [MINUTE]);
  }

  lemma {:induction false} FromBoundaryDay(e: Expr, x: Instant, dot: int)
    requires Valid(e) && 0 <= x.day && Boundary(e, x) && x.sec in e.seconds && x.min in e.minutes && x.hour in e.hours
    requires !MatchesDay(e, x.day)
    ensures DayPart(e, x, dot, [MINUTE, HOUR_OF_DAY]) == Found(NextMinute(x))
  {
    hide FindNext, FindNextDay, DoNext, MatchesMonth, DayOfMonth, Weekday;
    var resets := [MINUTE, HOUR_OF_DAY];
    FindDay(e, x, resets, 0);
    var y := FindNextDay(e, x, DayOfMonth(x.day), Weekday(x.day), resets, 0).value.1;
    StoppedDay(e, x, y, resets);
    NextDayNumber(x.day);
    assert y == NextMinute(x);
    StayPut(e, y, dot);
    StayMonth(e, y, dot, resets);
  }

  lemma {:induction false} FromBoundaryMonth(e: Expr, x: Instant)
    requires Valid(e) && SafeMonths(e) && 0 <= x.day && Boundary(e, x) && x.sec in e.seconds
    requires x.min in e.minutes && x.hour in e.hours && MatchesDay(e, x.day)
    ensures MonthPart(e, x, TmYear(x), [MINUTE, HOUR_OF_DAY, DAY_OF_MONTH]) == Found(NextMinute(x))
  {
    hide FindNext, DoNext, MatchesDay, DayOfMonth, Weekday, FirstDay, MonthLength;
    var resets := [MINUTE, HOUR_OF_DAY, DAY_OF_MONTH];
    FindMonth(e, x, resets);
    var y := FindNext(e.months, 12, MonthOfYear(x.day), x, MONTH, YEAR, resets).value.1;
    MonthMoved(e, x, y, resets, TmYear(x));
    NextDayMonth(x.day);
    TargetMonthIsNext(e, MonthOf(x.day));
    assert TargetMonth(e, MonthOf(x.day)) == MonthOf(x.day) + 1;
    assert !MissesDay(e, x.day, x.day + 1);
    assert y == NextMinute(x);
    StayPut(e, y, TmYear(x));
  }

  lemma {:induction false} FromBoundary(e: Expr, x: Instant)
    requires Valid(e) && SafeMonths(e) && 0 <= x.day && Boundary(e, x) && x.sec in e.seconds
    ensures MinutePart(e, x, TmYear(x), []) == Found(NextMinute(x))
  {
    hide FindNext, FindNextDay, DoNext, DayOfMonth, Weekday, Boundary, SafeMonths, MonthPart;
    var dot := TmYear(x);
    if x.min !in e.minutes {
      FromBoundaryMinute(e, x, dot);
    } else {
      FindMinute(e, x, []);
      assert Push([], MINUTE) == [MINUTE];
      assert MinutePart(e, x, dot, []) == HourPart(e, x, dot, [MINUTE]);
      if x.hour !in e.hours {
        FromBoundaryHour(e, x, dot);
      } else {
        FindHour(e, x, [MINUTE]);
        assert Push([MINUTE], HOUR_OF_DAY) == [MINUTE, HOUR_OF_DAY];
        assert HourPart(e, x, dot, [MINUTE]) == DayPart(e, x, dot, [MINUTE, HOUR_OF_DAY]);
        if !MatchesDay(e, x.day) {
          FromBoundaryDay(e, x, dot);
        } else {
          FindDay(e, x, [MINUTE, HOUR_OF_DAY], 0);
          assert Push([MINUTE, HOUR_OF_DAY], DAY_OF_MONTH) == [MINUTE, HOUR_OF_DAY, DAY_OF_MONTH];
          FromBoundaryMonth(e, x);
        }
      }
    }
  }

  /** In a gap of the seconds, the second moves up to the next one of the set, which is then kept
      although the minute moves as well. */
  lemma {:induction false} GapFails(e: Expr, x: Instant, first: int, last: int)
    requires Valid(e) && SafeMonths(e) && 0 <= x.day && Boundary(e, x)
    requires first in e.seconds && last in e.seconds && first < x.sec < last && x.sec !in e.seconds
    ensures 0 <= Seconds(x) && !RightAnswer(e, Seconds(x))
    ensures exists s :: x.sec < s <= last && s in e.seconds && NextFire(e, Seconds(x)) == Seconds(NextMinute(x).(sec := s))
  {
    hide FindNext, FindNextDay, MinutePart, FromSeconds, Boundary, SafeMonths, MatchesMinute, AddToField, YearOf;
    FindSecond(e, x);
    var y := FindNext(e.seconds, 60, x.sec, x, SECOND, MINUTE, []).value.1;
    assert y == x.(sec := y.sec) && x.sec < y.sec <= last;
    assert Boundary(e, y) by { BoundaryOfMinute(e, x, y.sec); }
    FromBoundary(e, y);
    var z := NextMinute(y);
    assert DoNext(e, x, TmYear(x)) == Found(z);
    FromSecondsSeconds(x);
    assert z == NextMinute(x).(sec := y.sec);
    BoundaryOfMinute(e, x, first);
    var u := z.(sec := first);
    assert Matches(e, u);
    FromSecondsSeconds(u);
    assert MatchesAt(e, Seconds(u));
  }

  lemma {:induction false} BoundaryOfMinute(e: Expr, x: Instant, s: int)
    requires Boundary(e, x) && 0 <= s < 60
    ensures Boundary(e, x.(sec := s)) && MatchesMinute(e, NextMinute(x).(sec := s))
  {
  }

  lemma {:induction false} ShiftMinute(e: Expr, x: Instant, cycles: nat)
    ensures MatchesMinute(e, x.(day := Shift(x.day, cycles))) == MatchesMinute(e, x)
  {
    hide DayOfMonth, MonthOfYear, Weekday;
    MonthOfShift(x.day, cycles);
  }

  lemma {:induction false} UnsafeSecondsFail(e: Expr) returns (date: int)
    requires Valid(e) && SafeMonths(e) && !SafeSeconds(e)
    ensures 0 <= date && !RightAnswer(e, date)
  {
    hide MatchesMinute, RightAnswer, SafeMonths;
    var a, b, c :| a in e.seconds && b in e.seconds && a <= c <= b && c !in e.seconds;
    var x: Instant :| !MatchesMinute(e, x);
    var u: Instant :| MatchesMinute(e, u);
    var start := if x.day < 0 then -x.day else 0;
    var x' := x.(day := Shift(x.day, start));
    ShiftMinute(e, x, start);
    var later := if u.day < x'.day then x'.day - u.day + 1 else 1;
    var u' := u.(day := Shift(u.day, later));
    ShiftMinute(e, u, later);
    var k := FindBoundary(e, x', u');
    BoundaryOfMinute(e, k, c);
    GapFails(e, k.(sec := c), a, b);
    date := Seconds(k.(sec := c));
  }

  // ---------------------------------------------------------------------------------------------
  // The exact condition
  // ---------------------------------------------------------------------------------------------

  /** cron_next is right from every date exactly for the expressions that are safe in all three ways. */
  lemma {:induction false} RightExactlyWhenSafe(e: Expr)
    requires Valid(e)
    ensures (forall date :: 0 <= date ==> RightAnswer(e, date)) <==> SafeDays(e) && SafeMonths(e) && SafeSeconds(e)
  {
    hide RightAnswer, SafeDays, SafeMonths, SafeSeconds;
    if SafeDays(e) && SafeMonths(e) && SafeSeconds(e) {
      forall date | 0 <= date ensures RightAnswer(e, date) {
        SafeIsRight(e, date);
      }
    } else if !SafeDays(e) {
      var date := UnsafeDaysFail(e);
    } else if !SafeMonths(e) {
      var date := UnsafeMonthsFail(e);
    } else {
      var date := UnsafeSecondsFail(e);
    }
  }

  /** Every answer other than -1 matches all six fields, from every date on, exactly for the expressions
      with safe days. */
  lemma {:induction false} MatchesExactlyWhenDaysSafe(e: Expr)
    requires Valid(e)
    ensures (forall date :: 0 <= date && NextFire(e, date) != -1 ==> MatchesAt(e, NextFire(e, date))) <==> SafeDays(e)
  {
    hide NextFire, MatchesAt, MisplacesDay, RightAnswer;
    if SafeDays(e) {
      forall date | 0 <= date && NextFire(e, date) != -1 ensures MatchesAt(e, NextFire(e, date)) {
        NextFireMatches(e, date);
      }
    } else {
      var day :| MisplacesDay(e, day);
      var cycles := if day < 0 then -day else 0;
      MisplacedDayPeriodic(e, day, cycles);
      MisplacedDayFails(e, Shift(day, cycles));
      AnswersNoMatch(e, Shift(day, cycles));
    }
  }

  lemma {:induction false} AnswersNoMatch(e: Expr, day: int)
    requires Valid(e) && 0 <= day && NextFire(e, Seconds(Opening(e, day))) == Seconds(At(StopDay(e, day), 0, 0, 0))
    ensures NextFire(e, Seconds(Opening(e, day))) != -1
  {
    hide NextFire;
  }

  // ---------------------------------------------------------------------------------------------
  // One 400-year cycle decides
  // ---------------------------------------------------------------------------------------------

  /** Every day lies a whole number of cycles after or before one of the first cycle. */
  lemma {:induction false} FirstCycle(day: int) returns (first: int, cycles: nat)
    ensures 0 <= first < CYCLE_DAYS && (day == Shift(first, cycles) || first == Shift(day, cycles))
  {
    first := day % CYCLE_DAYS;
    cycles := if day >= 0 then day / CYCLE_DAYS else -(day / CYCLE_DAYS);
  }

  /** Safe days can be checked day by day over one cycle. */
  lemma {:induction false} SafeDaysInOneCycle(e: Expr)
    ensures SafeDays(e) <==> forall day | 0 <= day < CYCLE_DAYS :: !MisplacesDay(e, day)
  {
    hide MisplacesDay;
    if forall day | 0 <= day < CYCLE_DAYS :: !MisplacesDay(e, day) {
      forall day ensures !MisplacesDay(e, day) {
        var first, cycles := FirstCycle(day);
        MisplacedDayPeriodic(e, first, cycles);
        MisplacedDayPeriodic(e, day, cycles);
      }
    }
  }

  /** A day of the month that the month step from this day aims at. */
  function Aimed(e: Expr, day: int, k: int): int
    requires Valid(e)
  {
    FirstDay(TargetMonth(e, MonthOf(StopDay(e, day)))) + k
  }

  /** The month step from this day passes over one of the at most 31 days it aims at. */
  predicate MissesSomeDay(e: Expr, day: int)
    requires Valid(e)
  {
    exists k | 0 <= k < 31 :: MissesDay(e, day, Aimed(e, day, k))
  }

  lemma {:induction false} MissedIsAimed(e: Expr, day: int, other: int)
    requires Valid(e) && MissesDay(e, day, other)
    ensures MissesSomeDay(e, day)
  {
    hide StopDay, TargetMonth, MonthLength, FirstDay;
    InMonth(other);
    assert other == Aimed(e, day, other - FirstDay(MonthOf(other)));
  }

  lemma {:induction false} InMonth(day: int)
    ensures 0 <= day - FirstDay(MonthOf(day)) < 31
  {
  }

  lemma {:induction false} MissedDayBack(e: Expr, day: int, other: int, cycles: nat)
    requires Valid(e) && MissesDay(e, Shift(day, cycles), Shift(other, cycles))
    ensures MissesDay(e, day, other)
  {
    hide DayOfMonth, MonthOfYear, Weekday, MonthLength, FirstDay, MonthOf, TargetMonth, StopFrom;
    StopShift(e, day, cycles, 0);
    MonthOfShift(day, cycles);
    MonthOfShift(other, cycles);
    MonthOfShift(StopDay(e, day), cycles);
    TargetShift(e, MonthOf(StopDay(e, day)), cycles);
    MonthLengthShift(TargetMonth(e, MonthOf(StopDay(e, day))), cycles);
  }

  /** Safe months can be checked day by day over one cycle, each against at most 31 others. */
  lemma {:induction false} SafeMonthsInOneCycle(e: Expr)
    requires Valid(e)
    ensures SafeMonths(e) <==> forall day | 0 <= day < CYCLE_DAYS :: !MissesSomeDay(e, day)
  {
    hide MissesDay, Aimed;
    if forall day | 0 <= day < CYCLE_DAYS :: !MissesSomeDay(e, day) {
      forall day, other ensures !MissesDay(e, day, other) {
        if MissesDay(e, day, other) {
          var first, cycles := FirstCycle(day);
          if day == Shift(first, cycles) {
            assert other == Shift(other - CYCLE_DAYS * cycles, cycles);
            MissedDayBack(e, first, other - CYCLE_DAYS * cycles, cycles);
            MissedIsAimed(e, first, other - CYCLE_DAYS * cycles);
          } else {
            MissedDayShift(e, day, other, cycles);
            MissedIsAimed(e, first, Shift(other, cycles));
          }
        }
      }
    }
  }

  lemma {:induction false} MinutePeriodic(e: Expr, x: Instant) returns (y: Instant)
    ensures 0 <= y.day < CYCLE_DAYS && MatchesMinute(e, y) == MatchesMinute(e, x)
  {
    hide MatchesMinute;
    var first, cycles := FirstCycle(x.day);
    y := x.(day := first);
    ShiftMinute(e, x, cycles);
    ShiftMinute(e, y, cycles);
  }

  /** Safe seconds can be checked minute by minute over one cycle. */
  lemma {:induction false} SafeSecondsInOneCycle(e: Expr)
    ensures SafeSeconds(e) <==>
              || Convex(e.seconds)
              || (forall x: Instant | 0 <= x.day < CYCLE_DAYS :: MatchesMinute(e, x))
              || (forall x: Instant | 0 <= x.day < CYCLE_DAYS :: !MatchesMinute(e, x))
  {
    hide MatchesMinute, Convex;
    forall x: Instant ensures exists y: Instant :: 0 <= y.day < CYCLE_DAYS && MatchesMinute(e, y) == MatchesMinute(e, x) {
      var y := MinutePeriodic(e, x);
    }
  }
}
