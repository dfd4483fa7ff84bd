/** ccronexpr.c as it runs: a struct tm that is written field by field and normalised after every
    write, bitsets in byte arrays, an array of fields to reset. Each method is proved to do what
    its function in CronSpec or CronFire says. */
module CronImpl {
  import opened Bits
  import opened Calendar
  import opened CronSpec
  import opened Wrappers
  import opened CronFire
  import opened CronUnfold
  import opened CronTheorems
  import opened CronExamples

  /** cron_expr. */
  class CronExpr {
    const seconds: array<bv8>
    const minutes: array<bv8>
    const hours: array<bv8>
    const daysOfWeek: array<bv8>
    const daysOfMonth: array<bv8>
    const months: array<bv8>

    ghost predicate Shape() {
      && seconds.Length == 8 && minutes.Length == 8 && hours.Length == 3
      && daysOfWeek.Length == 1 && daysOfMonth.Length == 4 && months.Length == 2
      && seconds != minutes
    }

    ghost function Repr(): set<object> {
      {this, seconds, minutes, hours, daysOfWeek, daysOfMonth, months}
    }

    ghost function View(): Expr
      reads seconds, minutes, hours, daysOfWeek, daysOfMonth, months
    {
      Expr(BitSet(seconds[..]), BitSet(minutes[..]), BitSet(hours[..]),
           BitSet(daysOfWeek[..]), BitSet(daysOfMonth[..]), BitSet(months[..]))
    }

    /** The bits that cron_next ever looks at. */
    ghost function Used(): Expr
      reads seconds, minutes, hours, daysOfWeek, daysOfMonth, months
    {
      Clipped(View())
    }

    /** A target with every bit clear, as cron_parse_expr needs it. */
    constructor ()
      ensures Shape() && fresh(Repr()) && View() == Expr({}, {}, {}, {}, {}, {})
    {
      hide BitSet;
      seconds := new bv8[8](_ => 0);
      minutes := new bv8[8](_ => 0);
      hours := new bv8[3](_ => 0);
      daysOfWeek := new bv8[1](_ => 0);
      daysOfMonth := new bv8[4](_ => 0);
      months := new bv8[2](_ => 0);
      new;
      NoBits(seconds[..]);
      NoBits(minutes[..]);
      NoBits(hours[..]);
      NoBits(daysOfWeek[..]);
      NoBits(daysOfMonth[..]);
      NoBits(months[..]);
    }
  }

  /** struct tm. */
  class TimeFields {
    var sec: int
    var min: int
    var hour: int
    var mday: int
    var mon: int
    var year: int
    var wday: int

    ghost function View(): Tm
      reads this
    {
      Tm(sec, min, hour, mday, mon, year, wday)
    }

    /** The instant that the fields denote. */
    ghost function Now(): Instant
      reads this
    {
      Normalize(View())
    }

    /** Every field is in its usual range. */
    ghost predicate Normal()
      reads this
    {
      View() == TmOf(Now())
    }

    /** gmtime_r. */
    constructor (date: int)
      ensures Normal() && Now() == FromSeconds(date)
    {
      var x := FromSeconds(date);
      sec, min, hour := x.sec, x.min, x.hour;
      mday, mon, year, wday := DayOfMonth(x.day), MonthOfYear(x.day), YearOf(x.day) - 1900, Weekday(x.day);
      new;
      assert View() == TmOf(x);
      NormalizeTmOf(x);
    }

    /** cron_mktime: timegm returns the time and normalises the fields. */
    method Mktime() returns (t: int)
      modifies this
      ensures t == Timegm(old(View())) && Normal() && Now() == Normalize(old(View()))
    {
      t := Timegm(Tm(sec, min, hour, mday, mon, year, wday));
      var x := FromSeconds(t);
      sec, min, hour := x.sec, x.min, x.hour;
      mday, mon, year, wday := DayOfMonth(x.day), MonthOfYear(x.day), YearOf(x.day) - 1900, Weekday(x.day);
      assert View() == TmOf(x);
      NormalizeTmOf(x);
    }

    method AddToField(field: int, val: int) returns (err: int)
      requires Normal()
      modifies this
      ensures Normal()
      ensures err == 0 <==> CronSpec.AddToField(old(Now()), field, val).Some?
      ensures err == 0 ==> Now() == CronSpec.AddToField(old(Now()), field, val).value
    {
      hide Normalize, Timegm, TmOf;
      ghost var x := Now();
      if field == SECOND {
        sec := sec + val;
      } else if field == MINUTE {
        min := min + val;
      } else if field == HOUR_OF_DAY {
        hour := hour + val;
      } else if field == DAY_OF_WEEK || field == DAY_OF_MONTH {
        mday := mday + val;
      } else if field == MONTH {
        mon := mon + val;
      } else if field == YEAR {
        year := year + val;
      } else {
        return 1;
      }
      ghost var tm := View();
      var res := Mktime();
      SecondsOfNormalized(tm);
      err := if res == -1 then 1 else 0;
    }

    /** set_field. */
    method SetField(field: int, val: int) returns (err: int)
      requires Normal()
      modifies this
      ensures Normal()
      ensures err == 0 <==> CronSpec.SetField(old(Now()), field, val).Some?
      ensures err == 0 ==> Now() == CronSpec.SetField(old(Now()), field, val).value
      ensures err != 0 ==> Now() == if SECOND <= field <= YEAR then FromSeconds(-1) else old(Now())
    {
      hide Normalize, Timegm, TmOf, FromSeconds;
      if field == SECOND {
        sec := val;
      } else if field == MINUTE {
        min := val;
      } else if field == HOUR_OF_DAY {
        hour := val;
      } else if field == DAY_OF_WEEK {
        wday := val;
      } else if field == DAY_OF_MONTH {
        mday := val;
      } else if field == MONTH {
        mon := val;
      } else if field == YEAR {
        year := val;
      } else {
        return 1;
      }
      ghost var tm := View();
      var res := Mktime();
      SecondsOfNormalized(tm);
      FromSecondsSeconds(Now());
      err := if res == -1 then 1 else 0;
    }
  }

  lemma {:induction false} SecondsOfNormalized(tm: Tm)
    ensures Seconds(Normalize(tm)) == Timegm(tm)
  {
    SecondsFromSeconds(Timegm(tm));
  }

  // ---------------------------------------------------------------------------------------------
  // The array of fields to reset
  // ---------------------------------------------------------------------------------------------

  const ARR_LEN := 7

  /** The array holds the list, and -1 behind it. */
  ghost predicate Holds(arr: seq<int>, list: seq<int>) {
    && |arr| == ARR_LEN && |list| <= ARR_LEN && arr[..|list|] == list
    && -1 !in list && forall i | |list| <= i < ARR_LEN :: arr[i] == -1
  }

  /** push_to_fields_arr. */
  method PushToFields(arr: array<int>, fi: int, ghost list: seq<int>)
    requires Holds(arr[..], list) && fi != -1 && |list| < ARR_LEN
    modifies arr
    ensures Holds(arr[..], Push(list, fi)) && |Push(list, fi)| <= |list| + 1
  {
    for i := 0 to ARR_LEN
      invariant fi !in list[..if i < |list| then i else |list|]
    {
      if arr[i] == fi {
        assert i < |list| && list[i] == fi;
        return;
      }
    }
    for i := 0 to ARR_LEN
      invariant i <= |list|
    {
      if arr[i] == -1 {
        arr[i] := fi;
        assert arr[..|list| + 1] == list + [fi];
        return;
      }
    }
  }

  /** reset_all_min. */
  method ResetAllMin(calendar: TimeFields, fields: array<int>, ghost list: seq<int>) returns (err: int)
    requires calendar.Normal() && Holds(fields[..], list)
    modifies calendar
    ensures calendar.Normal()
    ensures calendar.Now() == ResetAllIgnoringErrors(old(calendar.Now()), list)
    ensures err == 0 <==> CronSpec.ResetAllMin(old(calendar.Now()), list).Some?
    ensures err == 0 ==> calendar.Now() == CronSpec.ResetAllMin(old(calendar.Now()), list).value
  {
    hide CronSpec.SetField, Normalize, Timegm, TmOf, FromSeconds;
    ghost var x := calendar.Now();
    var i := 0;
    ghost var rest := list;
    while i < ARR_LEN
      invariant 0 <= i <= ARR_LEN && calendar.Normal()
      invariant rest == if i <= |list| then list[i..] else []
      invariant CronSpec.ResetAllMin(calendar.Now(), rest) == CronSpec.ResetAllMin(x, list)
      invariant ResetAllIgnoringErrors(calendar.Now(), rest) == ResetAllIgnoringErrors(x, list)
    {
      if fields[i] != -1 {
        assert i < |list| && fields[i] == list[i] == rest[0];
        err := calendar.SetField(fields[i], if fields[i] == DAY_OF_MONTH then 1 else 0);
        if err != 0 {
          return;
        }
        rest := rest[1..];
      } else {
        assert i >= |list|;
      }
      i := i + 1;
    }
    err := 0;
  }

  /** next_set_bit. */
  method NextSetBit(bits: array<bv8>, max: int, fromIndex: int) returns (r: int, notfound: bool)
    requires 0 <= fromIndex && max <= 8 * bits.Length
    ensures CronSpec.NextSetBit(BitSet(bits[..]), max, fromIndex) == if notfound then None else Some(r)
    ensures notfound ==> r == 0
  {
    hide BitSet;
    var i := fromIndex;
    while i < max
      invariant fromIndex <= i
      invariant CronSpec.NextSetBit(BitSet(bits[..]), max, fromIndex) == CronSpec.NextSetBit(BitSet(bits[..]), max, i)
    {
      var set? := GetBit(bits, i);
      if set? {
        return i, false;
      }
      i := i + 1;
    }
    return 0, true;
  }

  lemma {:induction false} NextSetBitClip(bits: set<int>, max: int, from: int)
    requires 0 <= from
    ensures CronSpec.NextSetBit(Clip(bits, 0, max), max, from) == CronSpec.NextSetBit(bits, max, from)
    decreases max - from
  {
    if from < max && from !in bits {
      NextSetBitClip(bits, max, from + 1);
    }
  }

  /** find_next looks at no bit from the maximum on. */
  lemma {:induction false} FindNextClip(bits: set<int>, max: int, value: int, x: Instant, field: int, nextField: int, list: seq<int>)
    requires 0 <= value
    ensures CronSpec.FindNext(Clip(bits, 0, max), max, value, x, field, nextField, list)
         == CronSpec.FindNext(bits, max, value, x, field, nextField, list)
  {
    hide CronSpec.SetField, CronSpec.AddToField, CronSpec.NextSetBit, CronSpec.ResetAllMin, CronSpec.ResetMin;
    NextSetBitClip(bits, max, value);
    NextSetBitClip(bits, max, 0);
  }

  /** find_next; err is the error it reports through its last argument. */
  method FindNext(bits: array<bv8>, max: int, value: int, calendar: TimeFields, field: int, nextField: int,
                  lower: array<int>, ghost list: seq<int>)
    returns (next: int, err: int)
    requires 0 <= value && max <= 8 * bits.Length && calendar.Normal() && Holds(lower[..], list)
    modifies calendar
    ensures calendar.Normal()
    ensures match CronSpec.FindNext(Clip(BitSet(bits[..]), 0, max), max, value, old(calendar.Now()), field, nextField, list)
            case Some((v, y)) => err == 0 && next == v && calendar.Now() == y
            case None => err == 1
  {
    hide BitSet, CronSpec.SetField, CronSpec.AddToField, CronSpec.NextSetBit, CronSpec.ResetAllMin, ResetAllIgnoringErrors;
    hide Normalize, Timegm, TmOf, FromSeconds, Holds, Clip;
    FindNextClip(BitSet(bits[..]), max, value, calendar.Now(), field, nextField, list);
    var notfound: bool;
    next, notfound := NextSetBit(bits, max, value);
    if notfound {
      err := calendar.AddToField(nextField, 1);
      if err != 0 {
        return 0, 1;
      }
      err := calendar.SetField(field, if field == DAY_OF_MONTH then 1 else 0);
      if err != 0 {
        return 0, 1;
      }
      next, notfound := NextSetBit(bits, max, 0);
    }
    if notfound || next != value {
      err := calendar.SetField(field, next);
      if err != 0 {
        return 0, 1;
      }
      err := ResetAllMin(calendar, lower, list);
      if err != 0 {
        return 0, 1;
      }
    }
    return next, 0;
  }

  /** find_next_day. */
  method FindNextDay(expr: CronExpr, calendar: TimeFields, resets: array<int>, ghost list: seq<int>)
    returns (day: int, err: int)
    requires expr.Shape() && calendar.Normal() && Holds(resets[..], list)
    modifies calendar
    ensures calendar.Normal()
    ensures match CronSpec.FindNextDay(expr.Used(), old(calendar.Now()), old(calendar.mday), old(calendar.wday), list, 0)
            case Some((m, y)) => err == 0 && day == m && calendar.Now() == y
            case None => err == 1
  {
    hide BitSet, CronSpec.AddToField, DayOfMonth, Weekday, MonthOf, MonthLength, Normalize;
    ghost var e, x := expr.Used(), calendar.Now();
    ghost var goal := CronSpec.FindNextDay(e, x, calendar.mday, calendar.wday, list, 0);
    var dayOfMonth, dayOfWeek := calendar.mday, calendar.wday;
    var count, max := 0, MAX_DAYS;
    assert 1 <= dayOfMonth < 32 && 0 <= dayOfWeek < 7;
    while true
      invariant calendar.Normal() && 1 <= dayOfMonth < 32 && 0 <= dayOfWeek < 7
      invariant CronSpec.FindNextDay(e, calendar.Now(), dayOfMonth, dayOfWeek, list, count) == goal
      decreases max - count
    {
      var inMonth := GetBit(expr.daysOfMonth, dayOfMonth);
      var inWeek := GetBit(expr.daysOfWeek, dayOfWeek);
      if (inMonth && inWeek) || count >= max {
        return dayOfMonth, 0;
      }
      count := count + 1;
      err := calendar.AddToField(DAY_OF_MONTH, 1);
      if err != 0 {
        return 0, 1;
      }
      dayOfMonth := calendar.mday;
      dayOfWeek := calendar.wday;
      err := ResetAllMin(calendar, resets, list);
    }
  }

  // ---------------------------------------------------------------------------------------------
  // do_next and cron_next
  // ---------------------------------------------------------------------------------------------

  /** The return value of do_next and the calendar it leaves. */
  ghost predicate Ends(o: Outcome, res: int, now: Instant) {
    match o
    case Found(y) => res == 0 && now == y
    case PastCutoff(y) => res == -1 && now == y
    case Invalid => res == 1
  }

  /** do_next, up to the second. The rest of its body is cut at the calendar fields into the four
      methods that follow. */
  method DoNext(expr: CronExpr, calendar: TimeFields, dot: int) returns (res: int)
    requires expr.Shape() && Valid(expr.Used()) && calendar.Normal()
    modifies calendar
    ensures calendar.Normal()
    ensures Ends(CronFire.DoNext(expr.Used(), old(calendar.Now()), dot), res, calendar.Now())
    decreases MonthsLeft(calendar.Now(), dot), Target(expr.Used(), calendar.Now()) - calendar.Now().day,
              MinutesLeft(calendar.Now()), 4
  {
    hide CronFire.DoNext, MinutePart, HourPart, DayPart, MonthPart, CronSpec.FindNext, CronSpec.FindNextDay;
    hide Valid, BitSet, Clip, Target, Normalize, DayOfMonth, Weekday, MonthOf, YearOf, MonthOfYear, Push;
    var resets := new int[ARR_LEN](_ => -1);
    var emptyList := new int[ARR_LEN](_ => -1);
    UnfoldSecond(expr.Used(), calendar.Now(), dot);
    EmptyHolds(resets[..]);
    EmptyHolds(emptyList[..]);
    var second := calendar.sec;
    var updateSecond, err := FindNext(expr.seconds, 60, second, calendar, SECOND, MINUTE, emptyList, []);
    if err != 0 {
      return 1;
    }
    if second == updateSecond {
      PushToFields(resets, SECOND, []);
      res := FromMinute(expr, calendar, dot, resets, Push([], SECOND));
    } else {
      res := FromMinute(expr, calendar, dot, resets, []);
    }
  }

  /** do_next from the minute on. */
  method FromMinute(expr: CronExpr, calendar: TimeFields, dot: int, resets: array<int>, ghost list: seq<int>)
    returns (res: int)
    requires expr.Shape() && Valid(expr.Used()) && calendar.Normal() && Holds(resets[..], list) && |list| <= 1
    requires MinutePre(expr.Used(), calendar.Now(), list)
    modifies calendar, resets
    ensures calendar.Normal()
    ensures Ends(MinutePart(expr.Used(), old(calendar.Now()), dot, list), res, calendar.Now())
    decreases MonthsLeft(calendar.Now(), dot), Target(expr.Used(), calendar.Now()) - calendar.Now().day,
              MinutesLeft(calendar.Now()), 3
  {
    hide CronFire.DoNext, MinutePart, HourPart, DayPart, MonthPart, CronSpec.FindNext, CronSpec.FindNextDay;
    hide Valid, BitSet, Clip, Target, Normalize, DayOfMonth, Weekday, MonthOf, YearOf, MonthOfYear, Push;
    UnfoldMinute(expr.Used(), calendar.Now(), dot, list);
    var minute := calendar.min;
    var updateMinute, err := FindNext(expr.minutes, 60, minute, calendar, MINUTE, HOUR_OF_DAY, resets, list);
    if err != 0 {
      return 1;
    }
    if minute == updateMinute {
      PushToFields(resets, MINUTE, list);
      res := FromHour(expr, calendar, dot, resets, Push(list, MINUTE));
    } else {
      res := DoNext(expr, calendar, dot);
      if res != 0 {
        return;
      }
      res := FromHour(expr, calendar, dot, resets, list);
    }
  }

  /** do_next from the hour on. */
  method FromHour(expr: CronExpr, calendar: TimeFields, dot: int, resets: array<int>, ghost list: seq<int>)
    returns (res: int)
    requires expr.Shape() && Valid(expr.Used()) && calendar.Normal() && Holds(resets[..], list) && |list| <= 2
    requires HourPre(expr.Used(), calendar.Now(), list)
    modifies calendar, resets
    ensures calendar.Normal()
    ensures Ends(HourPart(expr.Used(), old(calendar.Now()), dot, list), res, calendar.Now())
    decreases MonthsLeft(calendar.Now(), dot), Target(expr.Used(), calendar.Now()) - calendar.Now().day,
              MinutesLeft(calendar.Now()), 2
  {
    hide CronFire.DoNext, MinutePart, HourPart, DayPart, MonthPart, CronSpec.FindNext, CronSpec.FindNextDay;
    hide Valid, BitSet, Clip, Target, Normalize, DayOfMonth, Weekday, MonthOf, YearOf, MonthOfYear, Push;
    UnfoldHour(expr.Used(), calendar.Now(), dot, list);
    var hour := calendar.hour;
    var updateHour, err := FindNext(expr.hours, 24, hour, calendar, HOUR_OF_DAY, DAY_OF_WEEK, resets, list);
    if err != 0 {
      return 1;
    }
    if hour == updateHour {
      PushToFields(resets, HOUR_OF_DAY, list);
      res := FromDay(expr, calendar, dot, resets, Push(list, HOUR_OF_DAY));
    } else {
      res := DoNext(expr, calendar, dot);
      if res != 0 {
        return;
      }
      res := FromDay(expr, calendar, dot, resets, list);
    }
  }

  /** do_next from the day on. */
  method FromDay(expr: CronExpr, calendar: TimeFields, dot: int, resets: array<int>, ghost list: seq<int>)
    returns (res: int)
    requires expr.Shape() && Valid(expr.Used()) && calendar.Normal() && Holds(resets[..], list) && |list| <= 3
    requires DayPre(expr.Used(), calendar.Now(), list)
    modifies calendar, resets
    ensures calendar.Normal()
    ensures Ends(DayPart(expr.Used(), old(calendar.Now()), dot, list), res, calendar.Now())
    decreases MonthsLeft(calendar.Now(), dot), Target(expr.Used(), calendar.Now()) - calendar.Now().day,
              MinutesLeft(calendar.Now()), 1
  {
    hide CronFire.DoNext, MinutePart, HourPart, DayPart, MonthPart, CronSpec.FindNext, CronSpec.FindNextDay;
    hide Valid, BitSet, Clip, Target, Normalize, DayOfMonth, Weekday, MonthOf, YearOf, MonthOfYear, Push;
    UnfoldDay(expr.Used(), calendar.Now(), dot, list);
    var dayOfMonth := calendar.mday;
    var updateDayOfMonth, err := FindNextDay(expr, calendar, resets, list);
    if err != 0 {
      return 1;
    }
    if dayOfMonth == updateDayOfMonth {
      PushToFields(resets, DAY_OF_MONTH, list);
      res := FromMonth(expr, calendar, dot, resets, Push(list, DAY_OF_MONTH));
    } else {
      res := DoNext(expr, calendar, dot);
      if res != 0 {
        return;
      }
      res := FromMonth(expr, calendar, dot, resets, list);
    }
  }

  /** do_next from the month on. */
  method FromMonth(expr: CronExpr, calendar: TimeFields, dot: int, resets: array<int>, ghost list: seq<int>)
    returns (res: int)
    requires expr.Shape() && Valid(expr.Used()) && calendar.Normal() && Holds(resets[..], list) && |list| <= 4
    requires MonthPre(expr.Used(), calendar.Now(), list)
    modifies calendar, resets
    ensures calendar.Normal()
    ensures Ends(MonthPart(expr.Used(), old(calendar.Now()), dot, list), res, calendar.Now())
    decreases MonthsLeft(calendar.Now(), dot), Target(expr.Used(), calendar.Now()) - calendar.Now().day,
              MinutesLeft(calendar.Now()), 0
  {
    hide CronFire.DoNext, MinutePart, HourPart, DayPart, MonthPart, CronSpec.FindNext, CronSpec.FindNextDay;
    hide Valid, BitSet, Clip, Target, Normalize, DayOfMonth, Weekday, MonthOf, YearOf, MonthOfYear, Push;
    UnfoldMonth(expr.Used(), calendar.Now(), dot, list);
    var month := calendar.mon;
    var updateMonth, err := FindNext(expr.months, 12, month, calendar, MONTH, YEAR, resets, list);
    if err != 0 {
      return 1;
    }
    if month != updateMonth {
      var years := calendar.year - dot;
      if (if years >= 0 then years else years + UNSIGNED) > 4 {
        return -1;
      }
      res := DoNext(expr, calendar, dot);
      return;
    }
    return 0;
  }

  /** cron_next. */
  method CronNext(expr: CronExpr, date: int) returns (t: int)
    requires expr.Shape() && Valid(expr.Used())
    ensures t == NextFire(expr.Used(), date)
    ensures t != -1 ==> date < t
    ensures var e := expr.Used();
            OneDayField(e) && SimpleMonths(e) && SimpleSeconds(e) && 0 <= date ==>
              if t != -1 then IsNextFire(e, date, t) else NoneInReach(e, date)
  {
    hide CronFire.DoNext, Valid, BitSet, Clip, Normalize, Timegm, FromSeconds, DayOfMonth, Weekday, MonthOf, MonthOfYear;
    hide IsNextFire, NoneInReach, OneDayField, SimpleMonths, SimpleSeconds, CronSpec.AddToField;
    var calendar := new TimeFields(date);
    t := Fire(expr, calendar, date);
    if t != -1 {
      NextFireMovesForward(expr.Used(), date);
    }
    if OneDayField(expr.Used()) && SimpleMonths(expr.Used()) && SimpleSeconds(expr.Used()) && 0 <= date {
      SimpleIsRight(expr.Used(), date);
    }
  }

  /** cron_next, from the calendar of the date on. */
  method Fire(expr: CronExpr, calendar: TimeFields, date: int) returns (t: int)
    requires expr.Shape() && Valid(expr.Used()) && calendar.Normal() && calendar.Now() == FromSeconds(date)
    modifies calendar
    ensures t == NextFire(expr.Used(), date)
  {
    hide CronFire.DoNext, Valid, BitSet, Clip, Normalize, FromSeconds, DayOfMonth, Weekday, MonthOf, MonthOfYear;
    hide CronSpec.AddToField, MonthsLeft, Target, Timegm;
    MktimeOfNormal(calendar);
    SecondsFromSeconds(date);
    var original := calendar.Mktime();
    if original == -1 {
      return -1;
    }
    var res := DoNext(expr, calendar, calendar.year);
    if res != 0 {
      return -1;
    }
    MktimeOfNormal(calendar);
    var calculated := calendar.Mktime();
    if calculated == -1 {
      return -1;
    }
    if calculated == original {
      res := calendar.AddToField(SECOND, 1);
      if res != 0 {
        return -1;
      }
      res := DoNext(expr, calendar, calendar.year);
      if res != 0 {
        return -1;
      }
    }
    MktimeOfNormal(calendar);
    t := calendar.Mktime();
  }

  lemma {:induction false} MktimeOfNormal(calendar: TimeFields)
    requires calendar.Normal()
    ensures Timegm(calendar.View()) == Seconds(calendar.Now()) && Normalize(calendar.View()) == calendar.Now()
  {
    SecondsOfNormalized(calendar.View());
  }

  lemma {:induction false} EmptyHolds(arr: seq<int>)
    requires |arr| == ARR_LEN && forall i | 0 <= i < ARR_LEN :: arr[i] == -1
    ensures Holds(arr, [])
  {
  }
}
