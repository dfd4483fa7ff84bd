/** The text that stringify prints for a log line (3rd_party/NanoLog/NanoLog.cpp:45-60, 131-217). */
module NanoPrint {
  import opened Calendar
  import opened NanoBytes
  import opened Wrappers

  type Characters = seq<Byte>

  /** What lies outside the line: how the stream prints a double, and the characters at an address. */
  datatype Environment = Environment(double: int -> Characters, literal: int -> Characters)

  function Ascii(s: string): Characters
    requires forall i | 0 <= i < |s| :: s[i] < 128 as char
  {
    if s == [] then [] else [s[0] as int] + Ascii(s[1..])
  }

  function Decimal(n: nat): Characters {
    (if n < 10 then [] else Decimal(n / 10)) + [0x30 + n % 10]
  }

  function Integer(n: int): Characters {
    if n < 0 then [0x2D] + Decimal(-n) else Decimal(n)
  }

  /** The last width digits of n, zeros in front. */
  function Padded(n: nat, width: nat): Characters
    decreases width
  {
    if width == 0 then [] else Padded(n / 10, width - 1) + [0x30 + n % 10]
  }

  /** os << arg */
  function Shown(a: Arg, env: Environment): Characters {
    match a
    case Char(c) => [c]
    case UInt32(u) => Integer(u)
    case UInt64(u) => Integer(u)
    case Int32(i) => Integer(i)
    case Int64(i) => Integer(i)
    case Double(bits) => env.double(bits)
    case Literal(address) => env.literal(address)
    case Text(s) => s
  }

  function ShownAll(args: seq<Arg>, env: Environment): Characters {
    if args == [] then [] else Shown(args[0], env) + ShownAll(args[1..], env)
  }

  lemma {:induction false} ShowsFirst(a: Arg, rest: seq<Arg>, env: Environment)
    ensures ShownAll([a] + rest, env) == Shown(a, env) + ShownAll(rest, env)
  {
    assert ([a] + rest)[1..] == rest;
  }

  /** An empty text prints nothing, so that it does not matter that it is not stored. */
  lemma {:induction false} KeptShowsAll(args: seq<Arg>, env: Environment)
    ensures ShownAll(Kept(args), env) == ShownAll(args, env)
  {
    if args != [] {
      KeptShowsAll(args[1..], env);
      if args[0] == Text([]) {
        assert [] + ShownAll(args[1..], env) == ShownAll(args[1..], env) && Kept(args) == Kept(args[1..]);
      } else {
        ShowsFirst(args[0], Kept(args[1..]), env);
      }
    }
  }

  /** format_timestamp, from microseconds since the epoch. */
  function Stamp(timestamp: nat): Characters {
    var x := FromSeconds(timestamp / 1000000);
    Ascii("[") + Integer(YearOf(x.day)) + Ascii("-") + Padded(MonthOfYear(x.day) + 1, 2)
    + Ascii("-") + Padded(DayOfMonth(x.day), 2) + Ascii(" ") + Padded(x.hour, 2) + Ascii(":") + Padded(x.min, 2)
    + Ascii(":") + Padded(x.sec, 2) + Ascii(".") + Padded(timestamp % 1000000, 6) + Ascii("]")
  }

  /** to_string of a log level. */
  function LevelName(level: Byte): Characters {
    match level
    case 0 => Ascii("INFO")
    case 1 => Ascii("WARN")
    case 2 => Ascii("CRIT")
    case _ => Ascii("XXXX")
  }

  // ---------------------------------------------------------------------------------------------
  // What the digits mean
  // ---------------------------------------------------------------------------------------------

  /** The number that decimal digits denote. */
  function Value(digits: Characters): int {
    if digits == [] then 0 else 10 * Value(digits[..|digits| - 1]) + digits[|digits| - 1] - 0x30
  }

  /** A number is printed in decimal without leading zeros. */
  lemma {:induction false} DecimalIsValue(n: nat)
    ensures Value(Decimal(n)) == n && (n > 0 ==> Decimal(n)[0] != 0x30)
  {
    var s := if n < 10 then [] else Decimal(n / 10);
    assert Decimal(n)[..|s|] == s;
    if n >= 10 {
      DecimalIsValue(n / 10);
    }
  }

  /** A number that has at most so many digits is printed with exactly so many. */
  lemma {:induction false} PaddedIsValue(n: nat, width: nat)
    requires n < Tens(width)
    ensures |Padded(n, width)| == width && Value(Padded(n, width)) == n
  {
    if width > 0 {
      PaddedIsValue(n / 10, width - 1);
      assert Padded(n, width)[..width - 1] == Padded(n / 10, width - 1);
    }
  }

  function Tens(width: nat): nat {
    if width == 0 then 1 else 10 * Tens(width - 1)
  }
}
