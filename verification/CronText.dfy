/** What the text of a cron expression denotes: its fields, their comma lists, and the items of a
    list. Strings are C strings, that is sequences of characters without the NUL. */
module CronText {
  import opened CronSpec
  import opened Wrappers
  import opened CronFire

  const MAX_STR_LEN_TO_SPLIT := 256

  // ---------------------------------------------------------------------------------------------
  // Splitting
  // ---------------------------------------------------------------------------------------------

  predicate IsSpace(c: char) {
    c == ' ' || '\t' <= c <= '\r'
  }

  /** The segments of s between delimiters, empty ones included. */
  function SplitOn(s: string, del: char): (r: seq<string>)
    ensures |r| > 0
  {
    if s == [] then [[]]
    else
      var r := SplitOn(s[..|s| - 1], del);
      var c := s[|s| - 1];
      if c == del then r + [[]] else r[..|r| - 1] + [r[|r| - 1] + [c]]
  }

  /** s without its whitespace. */
  function Strip(s: string): (r: string)
    ensures |r| <= |s|
  {
    if s == [] then []
    else
      var r := Strip(s[..|s| - 1]);
      if IsSpace(s[|s| - 1]) then r else r + [s[|s| - 1]]
  }

  /** The stripped segments that are not empty. */
  function NonEmpty(ss: seq<string>): (r: seq<string>)
    ensures forall p | p in r :: p != []
  {
    if ss == [] then []
    else
      var r := NonEmpty(ss[..|ss| - 1]);
      var p := Strip(ss[|ss| - 1]);
      if p == [] then r else r + [p]
  }

  /** The pieces of s: its non-empty delimiter-separated runs with the whitespace removed. */
  function Pieces(s: string, del: char): (r: seq<string>)
    ensures forall p | p in r :: p != []
  {
    NonEmpty(SplitOn(s, del))
  }

  /** split_str; a NULL result has no pieces. */
  function SplitStr(s: string, del: char): (r: seq<string>)
    ensures forall p | p in r :: p != []
  {
    if |s| >= MAX_STR_LEN_TO_SPLIT then [] else Pieces(s, del)
  }

  // ---------------------------------------------------------------------------------------------
  // Replacing names by numbers
  // ---------------------------------------------------------------------------------------------

  /** s with every occurrence of rep, found from left to right without overlap, replaced. */
  function Replaced(s: string, rep: string, with_: string): string
    requires rep != []
  {
    if |s| < |rep| then s
    else if s[..|rep|] == rep then with_ + Replaced(s[|rep|..], rep, with_)
    else [s[0]] + Replaced(s[1..], rep, with_)
  }

  function Upper(c: char): char {
    if 'a' <= c <= 'z' then c - 'a' + 'A' else c
  }

  function ToUpper(s: string): (r: string)
    ensures |r| == |s|
  {
    seq(|s|, i requires 0 <= i < |s| => Upper(s[i]))
  }

  const DAYS := ["SUN", "MON", "TUE", "WED", "THU", "FRI", "SAT"]
  const MONTHS := ["FOO", "JAN", "FEB", "MAR", "APR", "MAY", "JUN", "JUL", "AUG", "SEP", "OCT", "NOV", "DEC"]

  function Digit(n: int): char
    requires 0 <= n < 10
  {
    '0' + n as char
  }

  function Decimal(n: nat): string {
    if n < 10 then [Digit(n)] else Decimal(n / 10) + [Digit(n % 10)]
  }

  /** The names of a table, each replaced by its index, one after the other. */
  function Numbered(s: string, names: seq<string>, i: nat): string
    requires i <= |names| && forall n | n in names :: n != []
    decreases |names| - i
  {
    if i == |names| then s else
      assert names[i] in names;
      Numbered(Replaced(s, names[i], Decimal(i)), names, i + 1)
  }

  // ---------------------------------------------------------------------------------------------
  // Numerals
  // ---------------------------------------------------------------------------------------------

  function DigitValue(c: char): int {
    if '0' <= c <= '9' then (c - '0') as int
    else if 'a' <= c <= 'f' then (c - 'a') as int + 10
    else if 'A' <= c <= 'F' then (c - 'A') as int + 10
    else 16
  }

  predicate IsNumeral(s: string, base: int) {
    s != [] && forall c | c in s :: DigitValue(c) < base
  }

  function NumeralValue(s: string, base: int): int {
    if s == [] then 0 else NumeralValue(s[..|s| - 1], base) * base + DigitValue(s[|s| - 1])
  }

  /** The magnitude that strtol reads with base 0, when it reads the whole string: a leading 0x makes
      it hexadecimal and a leading 0 octal. */
  function Magnitude(s: string): Option<int> {
    if |s| > 2 && s[0] == '0' && (s[1] == 'x' || s[1] == 'X') then
      (if IsNumeral(s[2..], 16) then Some(NumeralValue(s[2..], 16)) else None)
    else
      var base := if s != [] && s[0] == '0' then 8 else 10;
      if IsNumeral(s, base) then Some(NumeralValue(s, base)) else None
  }

  /** parse_uint. The empty string reads as zero, and a sign is allowed. */
  function ParseUint(s: string): Option<int> {
    var m := if s == [] then Some(0)
             else if s[0] == '+' then Magnitude(s[1..])
             else if s[0] == '-' then (match Magnitude(s[1..]) case Some(v) => Some(-v) case None => None)
             else Magnitude(s);
    if m.Some? && 0 <= m.value <= INT_MAX then m else None
  }

  // ---------------------------------------------------------------------------------------------
  // Items and lists
  // ---------------------------------------------------------------------------------------------

  datatype Error =
    | WrongNumberOfFields | CommaSplit | IncrementerFields | IncrementerZero | NotANumber
    | RangeFields | RangeExceedsMaximum | RangeBelowMinimum | RangeBackwards

  datatype Result<+T> = Ok(value: T) | Err(error: Error) {
    predicate IsFailure() { Err? }
    function PropagateFailure<U>(): Result<U> requires Err? { Err(error) }
    function Extract(): T requires Ok? { value }
  }

  function Number(s: string): Result<int> {
    match ParseUint(s) case Some(v) => Ok(v) case None => Err(NotANumber)
  }

  /** The bounds of `*`, n or a-b. */
  function RangeOf(field: string, min: int, max: int): Result<(int, int)> {
    var r :-
      if field == "*" then Ok((min, max - 1))
      else if '-' !in field then (var v :- Number(field); Ok((v, v)))
      else
        var parts := SplitStr(field, '-');
        if |parts| != 2 then Err(RangeFields)
        else
          var a :- Number(parts[0]);
          var b :- Number(parts[1]);
          Ok((a, b));
    if r.0 >= max || r.1 >= max then Err(RangeExceedsMaximum)
    else if r.0 < min || r.1 < min then Err(RangeBelowMinimum)
    else if r.0 > r.1 then Err(RangeBackwards)
    else Ok(r)
  }

  /** Every step-th number from lo to hi. */
  function Steps(lo: int, hi: int, step: int): set<int>
    requires step > 0
  {
    var all := Range(lo, hi + 1);
    set v | v in all && (v - lo) % step == 0
  }

  /** The set of one item; after a slash a single number opens a range up to the maximum. */
  function ItemSet(field: string, min: int, max: int): Result<set<int>> {
    if '/' !in field then
      var r :- RangeOf(field, min, max);
      Ok(Range(r.0, r.1 + 1))
    else
      var split := SplitStr(field, '/');
      if |split| != 2 then Err(IncrementerFields)
      else
        var r :- RangeOf(split[0], min, max);
        var step :- Number(split[1]);
        if step == 0 then Err(IncrementerZero)
        else Ok(Steps(r.0, if '-' in split[0] then r.1 else max - 1, step))
  }

  /** The union of the sets of the first n items, or the first error. */
  function ItemsSet(items: seq<string>, n: nat, min: int, max: int): Result<set<int>>
    requires n <= |items|
  {
    if n == 0 then Ok({})
    else
      var before :- ItemsSet(items, n - 1, min, max);
      var item :- ItemSet(items[n - 1], min, max);
      Ok(before + item)
  }

  /** The set that a comma list denotes. */
  function ListSet(value: string, min: int, max: int): Result<set<int>> {
    var items := SplitStr(value, ',');
    if items == [] then Err(CommaSplit) else ItemsSet(items, |items|, min, max)
  }

  // ---------------------------------------------------------------------------------------------
  // Fields
  // ---------------------------------------------------------------------------------------------

  /** In the day fields a question mark reads as a star. */
  function NoQuestion(field: string): string {
    if field == "?" then "*" else field
  }

  /** Months count from 1 in the text and from 0 in the set. */
  function Shifted(months: set<int>): set<int> {
    set m | m in months :: m - 1
  }

  /** Sunday may be written 0 or 7. */
  function Folded(days: set<int>): set<int> {
    if 7 in days then days - {7} + {0} else days
  }

  /** The meaning of a whole expression. */
  function Meaning(expression: string): Result<Expr> {
    var fields := SplitStr(expression, ' ');
    if |fields| != 6 then Err(WrongNumberOfFields)
    else
      var seconds :- ListSet(fields[0], 0, 60);
      var minutes :- ListSet(fields[1], 0, 60);
      var hours :- ListSet(fields[2], 0, 24);
      var daysOfWeek :- ListSet(NoQuestion(Numbered(ToUpper(fields[5]), DAYS, 0)), 0, 8);
      var daysOfMonth :- ListSet(NoQuestion(fields[3]), 1, 32);
      var months :- ListSet(Numbered(ToUpper(fields[4]), MONTHS, 0), 1, 13);
      Ok(Expr(seconds, minutes, hours, Folded(daysOfWeek), daysOfMonth, Shifted(months)))
  }

  // ---------------------------------------------------------------------------------------------
  // Parsing into a target that may have bits set already
  // ---------------------------------------------------------------------------------------------

  /** What the rotation of the months makes of any set of bits: bits 1 to 12 move down by one. */
  function Rotated(bits: set<int>): set<int> {
    Shifted(set m | m in bits && 1 <= m <= 12) + (set m | m in bits && !(1 <= m <= 12))
  }

  /** The bits after parsing into a target: cron_parse_expr only adds bits, and then folds and rotates
      whatever is there. */
  function MeaningOn(old_: Expr, expression: string): Result<Expr> {
    var fields := SplitStr(expression, ' ');
    if |fields| != 6 then Err(WrongNumberOfFields)
    else
      var seconds :- ListSet(fields[0], 0, 60);
      var minutes :- ListSet(fields[1], 0, 60);
      var hours :- ListSet(fields[2], 0, 24);
      var daysOfWeek :- ListSet(NoQuestion(Numbered(ToUpper(fields[5]), DAYS, 0)), 0, 8);
      var daysOfMonth :- ListSet(NoQuestion(fields[3]), 1, 32);
      var months :- ListSet(Numbered(ToUpper(fields[4]), MONTHS, 0), 1, 13);
      Ok(Expr(old_.seconds + seconds, old_.minutes + minutes, old_.hours + hours,
              Folded(old_.daysOfWeek + daysOfWeek), old_.daysOfMonth + daysOfMonth, Rotated(old_.months + months)))
  }

  /** Every bit the target had is one that the expression sets anyway. */
  predicate Harmless(old_: Expr, e: Expr) {
    && old_.seconds <= e.seconds && old_.minutes <= e.minutes && old_.hours <= e.hours
    && Folded(old_.daysOfWeek) <= e.daysOfWeek && old_.daysOfMonth <= e.daysOfMonth
    && Rotated(old_.months) <= e.months
  }

  const ZEROED := Expr({}, {}, {}, {}, {}, {})

  lemma {:induction false} FoldedUnion(a: set<int>, b: set<int>)
    ensures Folded(a + b) == Folded(a) + Folded(b)
  {
  }

  lemma {:induction false} InShifted(bits: set<int>, v: int)
    ensures v in Shifted(bits) <==> v + 1 in bits
  {
    assert v == (v + 1) - 1;
  }

  lemma {:induction false} InRotated(bits: set<int>, v: int)
    ensures v in Rotated(bits) <==> (0 <= v < 12 && v + 1 in bits) || (v in bits && !(1 <= v <= 12))
  {
    InShifted((set m | m in bits && 1 <= m <= 12), v);
  }

  lemma {:induction false} RotatedUnion(a: set<int>, b: set<int>)
    ensures Rotated(a + b) == Rotated(a) + Rotated(b)
  {
    hide Rotated;
    forall v ensures v in Rotated(a + b) <==> v in Rotated(a) + Rotated(b) {
      InRotated(a + b, v);
      InRotated(a, v);
      InRotated(b, v);
    }
  }

  lemma {:induction false} RotatedMonths(months: set<int>)
    requires forall m | m in months :: 1 <= m <= 12
    ensures Rotated(months) == Shifted(months)
  {
    assert (set m | m in months && 1 <= m <= 12) == months;
  }

  lemma {:induction false} Absorbs(a: set<int>, b: set<int>)
    ensures a + b == b <==> a <= b
  {
    if a + b == b {
      forall v | v in a ensures v in b {
        assert v in a + b;
      }
    }
  }

  /** Parsing gives the meaning of the expression exactly when the bits that were there already do no
      harm. */
  lemma {:induction false} TargetMatters(old_: Expr, expression: string)
    ensures MeaningOn(old_, expression).Ok? <==> Meaning(expression).Ok?
    ensures Meaning(expression).Ok? ==>
              (MeaningOn(old_, expression) == Meaning(expression) <==> Harmless(old_, Meaning(expression).value))
  {
    hide SplitStr, ListSet, Numbered, ToUpper, NoQuestion, Folded, Rotated, Shifted;
    var fields := SplitStr(expression, ' ');
    if Meaning(expression).Ok? {
      var e := Meaning(expression).value;
      var days := ListSet(NoQuestion(Numbered(ToUpper(fields[5]), DAYS, 0)), 0, 8).value;
      var months := ListSet(Numbered(ToUpper(fields[4]), MONTHS, 0), 1, 13).value;
      ListInRange(Numbered(ToUpper(fields[4]), MONTHS, 0), 1, 13);
      FoldedUnion(old_.daysOfWeek, days);
      RotatedUnion(old_.months, months);
      RotatedMonths(months);
      Absorbs(old_.seconds, e.seconds);
      Absorbs(old_.minutes, e.minutes);
      Absorbs(old_.hours, e.hours);
      Absorbs(Folded(old_.daysOfWeek), e.daysOfWeek);
      Absorbs(old_.daysOfMonth, e.daysOfMonth);
      Absorbs(Rotated(old_.months), e.months);
    }
  }

  /** A zeroed target always gives the meaning of the expression. */
  lemma {:induction false} ZeroedTarget(expression: string)
    ensures MeaningOn(ZEROED, expression) == Meaning(expression)
  {
    hide SplitStr, ListSet, Numbered, ToUpper, NoQuestion;
    TargetMatters(ZEROED, expression);
    if Meaning(expression).Ok? {
      assert Rotated({}) == {} by {
        RotatedMonths({});
      }
    }
  }

  // ---------------------------------------------------------------------------------------------
  // Every expression with a meaning is what cron_next needs
  // ---------------------------------------------------------------------------------------------

  lemma {:induction false} ItemInRange(field: string, min: int, max: int)
    requires ItemSet(field, min, max).Ok?
    ensures InRange(ItemSet(field, min, max).value, min, max)
  {
    hide ParseUint, SplitStr;
    var s := ItemSet(field, min, max).value;
    if '/' !in field {
      var r := RangeOf(field, min, max).value;
      assert r.0 in s;
    } else {
      var r := RangeOf(SplitStr(field, '/')[0], min, max).value;
      assert r.0 in s;
    }
  }

  lemma {:induction false} ItemsInRange(items: seq<string>, n: nat, min: int, max: int)
    requires n <= |items| && ItemsSet(items, n, min, max).Ok?
    ensures forall v | v in ItemsSet(items, n, min, max).value :: min <= v < max
    ensures n > 0 ==> ItemsSet(items, n, min, max).value != {}
  {
    hide ItemSet;
    if n > 0 {
      ItemsInRange(items, n - 1, min, max);
      ItemInRange(items[n - 1], min, max);
      var v := InRangeHasElement(ItemSet(items[n - 1], min, max).value, min, max);
      assert v in ItemsSet(items, n, min, max).value;
    }
  }

  lemma {:induction false} ListInRange(value: string, min: int, max: int)
    requires ListSet(value, min, max).Ok?
    ensures InRange(ListSet(value, min, max).value, min, max)
  {
    var items := SplitStr(value, ',');
    ItemsInRange(items, |items|, min, max);
  }

  /** No set of a parsed expression is empty or out of range. */
  lemma {:induction false} MeaningIsValid(expression: string)
    requires Meaning(expression).Ok?
    ensures Valid(Meaning(expression).value)
  {
    hide SplitStr, ListSet, Numbered, ToUpper;
    var fields := SplitStr(expression, ' ');
    ListInRange(fields[0], 0, 60);
    ListInRange(fields[1], 0, 60);
    ListInRange(fields[2], 0, 24);
    ListInRange(NoQuestion(Numbered(ToUpper(fields[5]), DAYS, 0)), 0, 8);
    ListInRange(NoQuestion(fields[3]), 1, 32);
    ListInRange(Numbered(ToUpper(fields[4]), MONTHS, 0), 1, 13);
    var months := ListSet(Numbered(ToUpper(fields[4]), MONTHS, 0), 1, 13).value;
    var m := InRangeHasElement(months, 1, 13);
    assert m - 1 in Shifted(months);
  }

  // ---------------------------------------------------------------------------------------------
  // The bits of any target that are ever read
  // ---------------------------------------------------------------------------------------------

  lemma {:induction false} ClipUnion(a: set<int>, b: set<int>, min: int, max: int)
    requires InRange(b, min, max)
    ensures InRange(Clip(a + b, min, max), min, max)
    ensures Clip(a + b, min, max) == b <==> Clip(a, min, max) <= b
  {
    var v := InRangeHasElement(b, min, max);
    assert v in Clip(a + b, min, max);
    assert Clip(a + b, min, max) == Clip(a, min, max) + b;
    Absorbs(Clip(a, min, max), b);
  }

  /** Every bit the target had that is ever read is one that the expression sets anyway. */
  predicate HarmlessWhereRead(old_: Expr, e: Expr) {
    && Clip(old_.seconds, 0, 60) <= e.seconds && Clip(old_.minutes, 0, 60) <= e.minutes
    && Clip(old_.hours, 0, 24) <= e.hours && Clip(Folded(old_.daysOfWeek), 0, 7) <= e.daysOfWeek
    && Clip(old_.daysOfMonth, 1, 32) <= e.daysOfMonth && Clip(Rotated(old_.months), 0, 12) <= e.months
  }

  /** Whatever the target held, the bits that are read are what cron_next needs; and they are the meaning
      of the expression exactly when those that were set before do no harm. */
  lemma {:induction false} BitsReadMatter(old_: Expr, expression: string)
    requires Meaning(expression).Ok?
    ensures MeaningOn(old_, expression).Ok?
    ensures var read, e := Clipped(MeaningOn(old_, expression).value), Meaning(expression).value;
            Valid(read) && (read == e <==> HarmlessWhereRead(old_, e))
  {
    hide SplitStr, ListSet, Numbered, ToUpper, NoQuestion, Folded, Rotated, Shifted, Clip;
    var fields := SplitStr(expression, ' ');
    var e := Meaning(expression).value;
    var days := ListSet(NoQuestion(Numbered(ToUpper(fields[5]), DAYS, 0)), 0, 8).value;
    var months := ListSet(Numbered(ToUpper(fields[4]), MONTHS, 0), 1, 13).value;
    MeaningIsValid(expression);
    ListInRange(Numbered(ToUpper(fields[4]), MONTHS, 0), 1, 13);
    FoldedUnion(old_.daysOfWeek, days);
    RotatedUnion(old_.months, months);
    RotatedMonths(months);
    hide InRange;
    ClipUnion(old_.seconds, e.seconds, 0, 60);
    ClipUnion(old_.minutes, e.minutes, 0, 60);
    ClipUnion(old_.hours, e.hours, 0, 24);
    ClipUnion(Folded(old_.daysOfWeek), e.daysOfWeek, 0, 7);
    ClipUnion(old_.daysOfMonth, e.daysOfMonth, 1, 32);
    ClipUnion(Rotated(old_.months), e.months, 0, 12);
  }
}
