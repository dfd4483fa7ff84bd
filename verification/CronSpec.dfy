/** The next-fire computation of a cron expression (ccronexpr.c) as a function on instants, step by
    step as the code takes them, and what it means for an instant to match an expression. */
module CronSpec {
  import opened Calendar
  import opened Wrappers

  // The codes CRON_CF_* of the calendar fields
  const SECOND := 0
  const MINUTE := 1
  const HOUR_OF_DAY := 2
  const DAY_OF_WEEK := 3
  const DAY_OF_MONTH := 4
  const MONTH := 5
  const YEAR := 6

  const MAX_DAYS := 366
  const UNSIGNED := 0x1_0000_0000

  /** A parsed expression: the set bits of each of its six bitsets. */
  datatype Expr = Expr(
    seconds: set<int>, minutes: set<int>, hours: set<int>,
    daysOfWeek: set<int>, daysOfMonth: set<int>, months: set<int>)

  /** The numbers from first up to, but not with, end. */
  function Range(first: int, end: int): (r: set<int>)
    ensures forall v :: v in r <==> first <= v < end
    decreases end - first
  {
    if first >= end then {} else {first} + Range(first + 1, end)
  }

  predicate InRange(bits: set<int>, min: int, max: int) {
    bits != {} && forall v | v in bits :: min <= v < max
  }

  /** What parsing guarantees: no bitset is empty and no bit is out of range. */
  predicate Valid(e: Expr) {
    && InRange(e.seconds, 0, 60)
    && InRange(e.minutes, 0, 60)
    && InRange(e.hours, 0, 24)
    && InRange(e.daysOfWeek, 0, 7)
    && InRange(e.daysOfMonth, 1, 32)
    && InRange(e.months, 0, 12)
  }

  function Clip(bits: set<int>, min: int, max: int): set<int> {
    set v | v in bits && min <= v < max
  }

  /** The bits of an expression that are ever read. */
  function Clipped(e: Expr): Expr {
    Expr(Clip(e.seconds, 0, 60), Clip(e.minutes, 0, 60), Clip(e.hours, 0, 24),
         Clip(e.daysOfWeek, 0, 7), Clip(e.daysOfMonth, 1, 32), Clip(e.months, 0, 12))
  }

  lemma {:induction false} ClippedValid(e: Expr)
    requires Valid(e)
    ensures Clipped(e) == e
  {
  }

  // ---------------------------------------------------------------------------------------------
  // What a cron expression means
  // ---------------------------------------------------------------------------------------------

  predicate MatchesDay(e: Expr, day: int) {
    DayOfMonth(day) in e.daysOfMonth && Weekday(day) in e.daysOfWeek
  }

  predicate MatchesMonth(e: Expr, day: int) {
    MonthOfYear(day) in e.months
  }

  /** Some second of this minute matches. */
  predicate MatchesMinute(e: Expr, x: Instant) {
    x.min in e.minutes && x.hour in e.hours && MatchesDay(e, x.day) && MatchesMonth(e, x.day)
  }

  predicate Matches(e: Expr, x: Instant) {
    x.sec in e.seconds && MatchesMinute(e, x)
  }

  // ---------------------------------------------------------------------------------------------
  // The steps of the code
  // ---------------------------------------------------------------------------------------------

  /** next_set_bit: the least set bit in [from, max). */
  function NextSetBit(bits: set<int>, max: int, from: int): (r: Option<int>)
    ensures r.Some? ==> from <= r.value < max && r.value in bits && forall u | from <= u < r.value :: u !in bits
    ensures r.None? ==> forall u | from <= u < max :: u !in bits
    decreases max - from
  {
    if from >= max then None
    else if from in bits then Some(from)
    else NextSetBit(bits, max, from + 1)
  }

  /** The calendar with one field written and normalised; none for the invalid instant -1. */
  function Write(tm: Tm): Option<Instant> {
    var y := Normalize(tm);
    if Seconds(y) == -1 then None else Some(y)
  }

  function AddToField(x: Instant, field: int, val: int): Option<Instant> {
    var tm := TmOf(x);
    if field == SECOND then Write(tm.(sec := tm.sec + val))
    else if field == MINUTE then Write(tm.(min := tm.min + val))
    else if field == HOUR_OF_DAY then Write(tm.(hour := tm.hour + val))
    else if field == DAY_OF_WEEK || field == DAY_OF_MONTH then Write(tm.(mday := tm.mday + val))
    else if field == MONTH then Write(tm.(mon := tm.mon + val))
    else if field == YEAR then Write(tm.(year := tm.year + val))
    else None
  }

  function SetField(x: Instant, field: int, val: int): Option<Instant> {
    var tm := TmOf(x);
    if field == SECOND then Write(tm.(sec := val))
    else if field == MINUTE then Write(tm.(min := val))
    else if field == HOUR_OF_DAY then Write(tm.(hour := val))
    else if field == DAY_OF_WEEK then Write(tm.(wday := val))
    else if field == DAY_OF_MONTH then Write(tm.(mday := val))
    else if field == MONTH then Write(tm.(mon := val))
    else if field == YEAR then Write(tm.(year := val))
    else None
  }

  function ResetMin(x: Instant, field: int): Option<Instant> {
    SetField(x, field, if field == DAY_OF_MONTH then 1 else 0)
  }

  /** reset_all_min. The list holds the entries of the array that are not -1. */
  function ResetAllMin(x: Instant, fields: seq<int>): Option<Instant>
    decreases fields
  {
    if fields == [] then Some(x)
    else
      var y :- ResetMin(x, fields[0]);
      ResetAllMin(y, fields[1..])
  }

  function FindNext(bits: set<int>, max: int, value: int, x: Instant, field: int, nextField: int, lower: seq<int>)
    : Option<(int, Instant)>
  {
    match NextSetBit(bits, max, value)
    case Some(v) =>
      if v == value then Some((v, x))
      else
        var y :- SetField(x, field, v);
        var z :- ResetAllMin(y, lower);
        Some((v, z))
    case None =>
      var rolled :- AddToField(x, nextField, 1);
      var start :- ResetMin(rolled, field);
      match NextSetBit(bits, max, 0)
      case Some(v) =>
        if v == value then Some((v, start))
        else
          var y :- SetField(start, field, v);
          var z :- ResetAllMin(y, lower);
          Some((v, z))
      case None =>
        var y :- SetField(start, field, 0);
        var z :- ResetAllMin(y, lower);
        Some((0, z))
  }

  /** find_next_day, with count days already tried. The outcome of the resets is not looked at. */
  function FindNextDay(e: Expr, x: Instant, mday: int, wday: int, resets: seq<int>, count: int): Option<(int, Instant)>
    decreases MAX_DAYS - count
  {
    if (mday in e.daysOfMonth && wday in e.daysOfWeek) || count >= MAX_DAYS then Some((mday, x))
    else
      var y :- AddToField(x, DAY_OF_MONTH, 1);
      FindNextDay(e, ResetAllIgnoringErrors(y, resets), DayOfMonth(y.day), Weekday(y.day), resets, count + 1)
  }

  /** The calendar after reset_all_min when its error is ignored: a failed reset stops at -1, and an
      unknown field stops where it is. */
  function ResetAllIgnoringErrors(x: Instant, fields: seq<int>): Instant
    decreases fields
  {
    if fields == [] then x
    else
      match ResetMin(x, fields[0])
      case Some(y) => ResetAllIgnoringErrors(y, fields[1..])
      case None => if SECOND <= fields[0] <= YEAR then FromSeconds(-1) else x
  }

  /** push_to_fields_arr: a field is entered once. */
  function Push(fields: seq<int>, field: int): seq<int> {
    if field in fields then fields else fields + [field]
  }
}
