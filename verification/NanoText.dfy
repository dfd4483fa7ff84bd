/** What can be read off a printed log line (3rd_party/NanoLog/NanoLog.cpp:45-60, 88-100, 131-181): the time
    from its stamp, the level, the place in the source, and every argument. */
module NanoText {
  import opened Calendar
  import opened NanoBytes
  import opened NanoLine
  import opened NanoPrint
  import opened Wrappers

  function AsText(s: Characters): string {
    seq(|s|, i requires 0 <= i < |s| => s[i] as char)
  }

  predicate IsDigits(s: Characters) {
    s != [] && forall i | 0 <= i < |s| :: 0x30 <= s[i] <= 0x39
  }

  lemma {:induction false} AsciiIsText(s: string)
    requires forall i | 0 <= i < |s| :: s[i] < 128 as char
    ensures AsText(Ascii(s)) == s
  {
    if s != [] {
      AsciiIsText(s[1..]);
      assert AsText(Ascii(s)) == [s[0]] + AsText(Ascii(s[1..]));
    }
  }

  lemma {:induction false} AsciiOf(s: string, c: Characters)
    requires |s| == |c| && forall i | 0 <= i < |s| :: s[i] < 128 as char && c[i] == s[i] as int
    ensures Ascii(s) == c
  {
    if s != [] {
      AsciiOf(s[1..], c[1..]);
      assert c == [c[0]] + c[1..];
    }
  }

  lemma {:induction false} DecimalIsDigits(n: nat)
    ensures IsDigits(Decimal(n))
  {
    if n >= 10 {
      DecimalIsDigits(n / 10);
    }
  }

  lemma {:induction false} PaddedIsDigits(n: nat, width: nat)
    requires 0 < width && n < Tens(width)
    ensures IsDigits(Padded(n, width)) && |Padded(n, width)| == width && Value(Padded(n, width)) == n
  {
    PaddedIsValue(n, width);
    if width > 1 {
      PaddedIsDigits(n / 10, width - 1);
    }
  }

  lemma {:induction false} TwoDigits(n: nat)
    requires n < 100
    ensures IsDigits(Padded(n, 2)) && |Padded(n, 2)| == 2 && Value(Padded(n, 2)) == n
  {
    assert Tens(2) == 100;
    PaddedIsDigits(n, 2);
  }

  // ---------------------------------------------------------------------------------------------
  // The time
  // ---------------------------------------------------------------------------------------------

  /** The date and time that digits denote, months from 1. */
  function TimeOf(year: Characters, month: Characters, day: Characters, hour: Characters, minute: Characters, second: Characters): Tm {
    Tm(Value(second), Value(minute), Value(hour), Value(day), Value(month) - 1, Value(year) - 1900, 0)
  }

  /** The stamp is `[year-month-day hour:minute:second.microseconds]`, digits between the marks, and these are
      the time of the line to the microsecond. */
  lemma {:induction false} StampReadsBack(timestamp: nat)
      returns (year: Characters, month: Characters, day: Characters, hour: Characters, minute: Characters,
               second: Characters, micro: Characters)
    ensures Stamp(timestamp)
            == [0x5B] + year + [0x2D] + month + [0x2D] + day + [0x20] + hour + [0x3A] + minute + [0x3A] + second
               + [0x2E] + micro + [0x5D]
    ensures IsDigits(year) && IsDigits(month) && IsDigits(day) && IsDigits(hour) && IsDigits(minute) && IsDigits(second)
    ensures IsDigits(micro) && |micro| == 6 && |month| == |day| == |hour| == |minute| == |second| == 2
    ensures year[0] != 0x30 && 1 <= Value(month) <= 12 && 1 <= Value(day) <= 31
    ensures Value(hour) < 24 && Value(minute) < 60 && Value(second) < 60
    ensures Timegm(TimeOf(year, month, day, hour, minute, second)) * 1000000 + Value(micro) == timestamp
  {
    hide Ascii, Padded, Value, MonthOf, FirstDay, Decimal;
    var x := FromSeconds(timestamp / 1000000);
    var y := YearOf(x.day);
    NotBefore1970(x.day);
    year, month, day := Decimal(y), Padded(MonthOfYear(x.day) + 1, 2), Padded(DayOfMonth(x.day), 2);
    hour, minute, second := Padded(x.hour, 2), Padded(x.min, 2), Padded(x.sec, 2);
    micro := Padded(timestamp % 1000000, 6);
    DecimalIsValue(y);
    DecimalIsDigits(y);
    TwoDigits(MonthOfYear(x.day) + 1);
    TwoDigits(DayOfMonth(x.day));
    TwoDigits(x.hour);
    TwoDigits(x.min);
    TwoDigits(x.sec);
    assert Tens(6) == 1000000;
    PaddedIsDigits(timestamp % 1000000, 6);
    Marks();
    TimegmOfTm(x);
    SecondsFromSeconds(timestamp / 1000000);
  }

  lemma {:induction false} Marks()
    ensures Ascii("[") == [0x5B] && Ascii("-") == [0x2D] && Ascii(" ") == [0x20] && Ascii(":") == [0x3A]
    ensures Ascii(".") == [0x2E] && Ascii("]") == [0x5D] && Ascii("] ") == [0x5D, 0x20] && Ascii("\n") == [0x0A]
  {
    hide Ascii;
    AsciiOf("[", [0x5B]);
    AsciiOf("-", [0x2D]);
    AsciiOf(" ", [0x20]);
    AsciiOf(":", [0x3A]);
    AsciiOf(".", [0x2E]);
    AsciiOf("]", [0x5D]);
    AsciiOf("] ", [0x5D, 0x20]);
    AsciiOf("\n", [0x0A]);
  }

  lemma {:induction false} NotBefore1970(day: nat)
    ensures YearOf(day) >= 1970
  {
    hide MonthOf, FirstDay;
    MonthOfMonotone(0, day);
    FirstDayOf1970();
  }

  lemma {:induction false} FirstDayOf1970()
    ensures MonthOf(0) == 12 * 1970
  {
    hide MonthOf;
    assert FirstDay(12 * 1970) == 0 && FirstDay(12 * 1970 + 1) == 31;
    MonthOfUnique(0, 12 * 1970);
  }

  // ---------------------------------------------------------------------------------------------
  // The level and the place
  // ---------------------------------------------------------------------------------------------

  lemma {:induction false} LevelsAreNamed(level: Byte)
    ensures AsText(LevelName(level))
            == if level == 0 then "INFO" else if level == 1 then "WARN" else if level == 2 then "CRIT" else "XXXX"
  {
    hide AsText, Ascii;
    AsciiIsText("INFO");
    AsciiIsText("WARN");
    AsciiIsText("CRIT");
    AsciiIsText("XXXX");
  }

  /** A line is its stamp, then `[level][file:function:line] `, then its arguments and a line feed. */
  lemma {:induction false} LineReadsBack(h: Header, args: seq<Arg>, env: Environment) returns (level: Characters, line: Characters)
    requires h.Fits()
    ensures LineText(h, args, env)
            == Stamp(h.timestamp) + [0x5B] + level + [0x5D] + [0x5B] + env.literal(h.file) + [0x3A]
               + env.literal(h.function_) + [0x3A] + line + [0x5D, 0x20] + ShownAll(args, env) + [0x0A]
    ensures AsText(level) == (if h.level == 0 then "INFO" else if h.level == 1 then "WARN" else if h.level == 2 then "CRIT" else "XXXX")
    ensures IsDigits(line) && Value(line) == h.line
  {
    hide Ascii, Stamp, LevelName, ShownAll, Decimal, AsText, Value;
    level, line := LevelName(h.level), Decimal(h.line);
    LevelsAreNamed(h.level);
    DecimalIsValue(h.line);
    DecimalIsDigits(h.line);
    Marks();
  }

  // ---------------------------------------------------------------------------------------------
  // The arguments
  // ---------------------------------------------------------------------------------------------

  /** The number that a minus sign and digits denote. */
  function SignedValue(s: Characters): int {
    if s != [] && s[0] == 0x2D then -Value(s[1..]) else Value(s)
  }

  lemma {:induction false} IntegerReadsBack(n: int)
    ensures Integer(n) != [] && SignedValue(Integer(n)) == n
  {
    hide Decimal, Value;
    DecimalIsValue(if n < 0 then -n else n);
    DecimalIsDigits(if n < 0 then -n else n);
    assert n < 0 ==> Integer(n)[1..] == Decimal(-n);
  }

  /** Integers print a numeral of their value, a character and a text themselves, and a double and a
      literal what the environment says. */
  lemma {:induction false} ArgumentsReadBack(a: Arg, env: Environment)
    ensures match a
            case Char(c) => Shown(a, env) == [c]
            case UInt32(u) => SignedValue(Shown(a, env)) == u
            case UInt64(u) => SignedValue(Shown(a, env)) == u
            case Int32(i) => SignedValue(Shown(a, env)) == i
            case Int64(i) => SignedValue(Shown(a, env)) == i
            case Double(bits) => Shown(a, env) == env.double(bits)
            case Literal(address) => Shown(a, env) == env.literal(address)
            case Text(s) => Shown(a, env) == s
  {
    match a
    case UInt32(u) => IntegerReadsBack(u);
    case UInt64(u) => IntegerReadsBack(u);
    case Int32(i) => IntegerReadsBack(i);
    case Int64(i) => IntegerReadsBack(i);
    case _ =>
  }

  /** The arguments are printed one after the other, in their order and with nothing between them. */
  lemma {:induction false} PrintedInOrder(before: seq<Arg>, a: Arg, after: seq<Arg>, env: Environment)
    ensures ShownAll([], env) == []
    ensures ShownAll(before + [a] + after, env) == ShownAll(before, env) + Shown(a, env) + ShownAll(after, env)
  {
    hide Shown;
    if before == [] {
      assert [] + [a] + after == [a] + after;
      ShowsFirst(a, after, env);
    } else {
      PrintedInOrder(before[1..], a, after, env);
      assert before + [a] + after == [before[0]] + (before[1..] + [a] + after);
      ShowsFirst(before[0], before[1..] + [a] + after, env);
    }
  }
}
