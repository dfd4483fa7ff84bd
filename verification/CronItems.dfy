/** What the items of a list denote, on the text of their numerals: single numbers, ranges and increments
    (3rd_party/ccronexpr/ccronexpr.c:544-555 and 669-812). */
module CronItems {
  import opened CronSpec
  import opened CronReadings
  import opened CronText
  import opened Wrappers

  // ---------------------------------------------------------------------------------------------
  // Numerals are read back
  // ---------------------------------------------------------------------------------------------

  function Figure(d: nat, capital: bool): char
    requires d < 16
  {
    if d < 10 then '0' + d as char else (if capital then 'A' else 'a') + (d - 10) as char
  }

  /** The numeral of n. */
  function Numeral(n: nat, base: nat, capital: bool): string
    requires 2 <= base <= 16
  {
    if n < base then [Figure(n, capital)] else Numeral(n / base, base, capital) + [Figure(n % base, capital)]
  }

  lemma {:induction false} FigureValue(d: nat, capital: bool)
    requires d < 16
    ensures DigitValue(Figure(d, capital)) == d
  {
  }

  lemma {:induction false} Divides(n: nat, base: nat)
    requires base == 8 || base == 10 || base == 16
    ensures n / base * base + n % base == n
  {
  }

  lemma {:induction false} NextFigure(t: string, d: nat, base: nat, capital: bool)
    requires d < 16
    ensures NumeralValue(t + [Figure(d, capital)], base) == NumeralValue(t, base) * base + d
  {
    FigureValue(d, capital);
    assert (t + [Figure(d, capital)])[..|t|] == t;
  }

  lemma {:induction false} Figures(n: nat, base: nat, capital: bool)
    requires base == 8 || base == 10 || base == 16
    ensures var s := Numeral(n, base, capital);
            && s != [] && (forall i | 0 <= i < |s| :: DigitValue(s[i]) < base) && (n > 0 ==> s[0] != '0')
  {
    if n < base {
      FigureValue(n, capital);
    } else {
      Figures(n / base, base, capital);
      FigureValue(n % base, capital);
    }
  }

  lemma {:induction false} NumeralReadsBack(n: nat, base: nat, capital: bool)
    requires base == 8 || base == 10 || base == 16
    ensures NumeralValue(Numeral(n, base, capital), base) == n
  {
    hide NumeralValue, Figure;
    if n < base {
      NextFigure([], n, base, capital);
      assert [] + [Figure(n, capital)] == [Figure(n, capital)];
      NoFigures(base);
    } else {
      NumeralReadsBack(n / base, base, capital);
      NextFigure(Numeral(n / base, base, capital), n % base, base, capital);
      Divides(n, base);
    }
  }

  lemma {:induction false} NoFigures(base: int)
    ensures NumeralValue([], base) == 0
  {
  }

  lemma {:induction false} LeadingZero(s: string, base: int)
    ensures NumeralValue(['0'] + s, base) == NumeralValue(s, base)
  {
    if s == [] {
      assert (['0'] + s)[..0] == [] && NumeralValue([], base) == 0;
    } else {
      LeadingZero(s[..|s| - 1], base);
      assert (['0'] + s)[..|s|] == ['0'] + s[..|s| - 1];
    }
  }

  lemma {:induction false} DecimalIsNumeral(n: nat)
    ensures Decimal(n) == Numeral(n, 10, false)
  {
    if n >= 10 {
      DecimalIsNumeral(n / 10);
    }
  }

  lemma {:induction false} ParsesDecimal(n: nat)
    ensures ParseUint(Decimal(n)) == if n <= 2147483647 then Some(n) else None
  {
    DecimalIsNumeral(n);
    NumeralReadsBack(n, 10, false);
    Figures(n, 10, false);
    DecimalDigits(n);
    if n == 0 {
      assert "0"[..0] == [] && NumeralValue([], 8) == 0;
    }
  }

  lemma {:induction false} MagnitudeOfDecimal(n: nat)
    ensures Magnitude(Decimal(n)) == Some(n)
  {
    DecimalIsNumeral(n);
    NumeralReadsBack(n, 10, false);
    Figures(n, 10, false);
    DecimalDigits(n);
    if n == 0 {
      assert "0"[..0] == [] && NumeralValue([], 8) == 0;
    }
  }

  /** A plus sign changes nothing, a minus sign leaves only zero, and no characters read as zero. */
  lemma {:induction false} ParsesSigned(n: nat)
    ensures ParseUint("+" + Decimal(n)) == ParseUint(Decimal(n))
    ensures ParseUint("-" + Decimal(n)) == if n == 0 then Some(0) else None
    ensures ParseUint("") == Some(0)
  {
    hide Magnitude, Decimal;
    MagnitudeOfDecimal(n);
    ParsesDecimal(n);
    assert ("+" + Decimal(n))[1..] == Decimal(n) && ("-" + Decimal(n))[1..] == Decimal(n);
  }

  /** After a leading zero the numeral is octal. */
  lemma {:induction false} ParsesOctal(n: nat)
    ensures ParseUint("0" + Numeral(n, 8, false)) == if n <= 2147483647 then Some(n) else None
  {
    hide NumeralValue, Numeral;
    NumeralReadsBack(n, 8, false);
    Figures(n, 8, false);
    LeadingZero(Numeral(n, 8, false), 8);
    assert DigitValue('x') == DigitValue('X') == 16;
  }

  /** After a zero and an x it is hexadecimal, with digits of either case. */
  lemma {:induction false} ParsesHexadecimal(n: nat, x: char, capital: bool)
    requires x == 'x' || x == 'X'
    ensures ParseUint("0" + [x] + Numeral(n, 16, capital)) == if n <= 2147483647 then Some(n) else None
  {
    hide NumeralValue, Numeral;
    NumeralReadsBack(n, 16, capital);
    Figures(n, 16, capital);
    assert ("0" + [x] + Numeral(n, 16, capital))[2..] == Numeral(n, 16, capital);
  }

  lemma {:induction false} DecimalDigits(n: nat)
    ensures Decimal(n) != [] && forall i | 0 <= i < |Decimal(n)| :: '0' <= Decimal(n)[i] <= '9'
  {
    if n >= 10 {
      DecimalDigits(n / 10);
    }
  }

  function Ten(k: nat): nat {
    if k == 0 then 1 else 10 * Ten(k - 1)
  }

  lemma {:induction false} DecimalLength(n: nat, k: nat)
    requires n < Ten(k) && k > 0
    ensures |Decimal(n)| <= k
  {
    if n >= 10 {
      DecimalLength(n / 10, k - 1);
    }
  }

  /** A numeral up to the largest int is plain for each of the delimiters, and short. */
  lemma {:induction false} Plain(n: nat)
    requires n <= INT_MAX
    ensures var s := Decimal(n);
            && |s| <= 10 && IsPlain(s, '-') && IsPlain(s, '/') && IsPlain(s, ',')
            && '-' !in s && '/' !in s && ',' !in s && '*' !in s && ParseUint(s) == Some(n)
  {
    hide Decimal, ParseUint;
    DecimalDigits(n);
    assert n < Ten(10);
    DecimalLength(n, 10);
    ParsesDecimal(n);
  }

  // ---------------------------------------------------------------------------------------------
  // Numbers and ranges
  // ---------------------------------------------------------------------------------------------

  lemma {:induction false} TwoPieces(a: string, b: string, del: char)
    requires IsPlain(a, del) && IsPlain(b, del) && |a| + 1 + |b| < MAX_STR_LEN_TO_SPLIT
    ensures SplitStr(a + [del] + b, del) == [a, b]
  {
    hide Pieces;
    NextPiece([], a, del);
    NextPiece(a, b, del);
    assert [a] + [b] == [a, b];
  }

  /** The errors of the two bounds of a range, in the order in which they are found. */
  function Bounds(lo: int, hi: int, min: int, max: int): Option<Error> {
    if lo >= max || hi >= max then Some(RangeExceedsMaximum)
    else if lo < min || hi < min then Some(RangeBelowMinimum)
    else if lo > hi then Some(RangeBackwards)
    else None
  }

  lemma {:induction false} RangeOfNumber(n: nat, min: int, max: int)
    requires n <= INT_MAX
    ensures RangeOf(Decimal(n), min, max)
            == match Bounds(n, n, min, max) case Some(error) => Err(error) case None => Ok((n, n))
  {
    hide ParseUint, SplitStr, Decimal;
    Plain(n);
  }

  lemma {:induction false} RangeOfTwo(lo: nat, hi: nat, min: int, max: int)
    requires lo <= INT_MAX && hi <= INT_MAX
    ensures RangeOf(Decimal(lo) + "-" + Decimal(hi), min, max)
            == match Bounds(lo, hi, min, max) case Some(error) => Err(error) case None => Ok((lo, hi))
  {
    hide ParseUint, SplitStr, Decimal;
    Plain(lo);
    Plain(hi);
    TwoPieces(Decimal(lo), Decimal(hi), '-');
    assert (Decimal(lo) + "-" + Decimal(hi))[|Decimal(lo)|] == '-';
  }

  /** A single number denotes itself. */
  lemma {:induction false} NumberDenotes(n: nat, min: int, max: int)
    requires n <= INT_MAX
    ensures ListSet(Decimal(n), min, max)
            == match Bounds(n, n, min, max) case Some(error) => Err(error) case None => Ok({n})
  {
    hide ParseUint, SplitStr, Decimal, ListSet, RangeOf;
    Plain(n);
    RangeOfNumber(n, min, max);
    OneItem(Decimal(n), min, max);
    assert Range(n, n + 1) == {n};
  }

  /** `lo-hi` denotes the numbers from lo to hi. */
  lemma {:induction false} RangeDenotes(lo: nat, hi: nat, min: int, max: int)
    requires lo <= INT_MAX && hi <= INT_MAX
    ensures var r := ListSet(Decimal(lo) + "-" + Decimal(hi), min, max);
            match Bounds(lo, hi, min, max)
            case Some(error) => r == Err(error)
            case None => r.Ok? && forall v :: v in r.value <==> lo <= v <= hi
  {
    hide ParseUint, SplitStr, Decimal, ListSet, RangeOf;
    Plain(lo);
    Plain(hi);
    RangeOfTwo(lo, hi, min, max);
    OneItem(Decimal(lo) + "-" + Decimal(hi), min, max);
  }

  // ---------------------------------------------------------------------------------------------
  // Increments
  // ---------------------------------------------------------------------------------------------

  lemma {:induction false} IsMultiple(d: int, step: int)
    requires step > 0 && d >= 0
    ensures d % step == 0 <==> exists k :: k >= 0 && d == k * step
  {
    var q := d / step;
    assert d == q * step + d % step;
    if k :| k >= 0 && d == k * step {
      OneQuotient(k, q, d % step, step);
    }
  }

  lemma {:induction false} OneQuotient(k: int, q: int, r: int, step: int)
    requires 0 <= r < step && k * step == q * step + r
    ensures r == 0
  {
    if k > q {
      AtLeastOnce(k - q, step);
      Difference(k, q, step);
    } else if k < q {
      AtLeastOnce(q - k, step);
      Difference(q, k, step);
    }
  }

  lemma {:induction false} Difference(k: int, q: int, step: int)
    ensures (k - q) * step == k * step - q * step
  {
  }

  lemma {:induction false} AtLeastOnce(k: int, step: int)
    requires k >= 1 && step > 0
    ensures k * step >= step
  {
    if k > 1 {
      AtLeastOnce(k - 1, step);
      Difference(k, 1, step);
    }
  }

  /** Every step-th number from lo to hi. */
  ghost predicate EveryFrom(s: set<int>, lo: int, hi: int, step: int) {
    forall v :: v in s <==> lo <= v <= hi && exists k :: k >= 0 && v - lo == k * step
  }

  lemma {:induction false} StepsAreEvery(lo: int, hi: int, step: int)
    requires step > 0
    ensures EveryFrom(Steps(lo, hi, step), lo, hi, step)
  {
    forall v ensures v in Steps(lo, hi, step) <==> lo <= v <= hi && exists k :: k >= 0 && v - lo == k * step {
      if lo <= v {
        IsMultiple(v - lo, step);
      }
    }
  }

  /** An item with an increment, given what stands before the slash. */
  lemma {:induction false} Increments(range: string, r: Result<(int, int)>, step: nat, min: int, max: int)
    requires IsPlain(range, '/') && IsPlain(range, ',') && |range| <= 21 && step <= INT_MAX
    requires RangeOf(range, min, max) == r
    ensures var s := ListSet(range + "/" + Decimal(step), min, max);
            if r.Err? then s == Err(r.error)
            else if step == 0 then s == Err(IncrementerZero)
            else s.Ok? && EveryFrom(s.value, r.value.0, if '-' in range then r.value.1 else max - 1, step)
  {
    hide ParseUint, SplitStr, Decimal, ListSet, RangeOf, Steps, EveryFrom;
    Plain(step);
    TwoPieces(range, Decimal(step), '/');
    var text := range + "/" + Decimal(step);
    assert text[|range|] == '/';
    OneItem(text, min, max);
    if r.Ok? && step > 0 {
      StepsAreEvery(r.value.0, if '-' in range then r.value.1 else max - 1, step);
    }
  }

  /** `lo-hi/step`: the numbers lo + k * step up to hi. */
  lemma {:induction false} StepsOfRange(lo: nat, hi: nat, step: nat, min: int, max: int)
    requires lo <= INT_MAX && hi <= INT_MAX && step <= INT_MAX
    ensures var r := ListSet(Decimal(lo) + "-" + Decimal(hi) + "/" + Decimal(step), min, max);
            match Bounds(lo, hi, min, max)
            case Some(error) => r == Err(error)
            case None => if step == 0 then r == Err(IncrementerZero) else r.Ok? && EveryFrom(r.value, lo, hi, step)
  {
    hide ParseUint, SplitStr, Decimal, ListSet, RangeOf, EveryFrom;
    Plain(lo);
    Plain(hi);
    RangeOfTwo(lo, hi, min, max);
    var range := Decimal(lo) + "-" + Decimal(hi);
    assert range[|Decimal(lo)|] == '-';
    Increments(range, RangeOf(range, min, max), step, min, max);
  }

  /** `lo/step`: the numbers lo + k * step below the maximum. */
  lemma {:induction false} StepsFrom(lo: nat, step: nat, min: int, max: int)
    requires lo <= INT_MAX && step <= INT_MAX
    ensures var r := ListSet(Decimal(lo) + "/" + Decimal(step), min, max);
            match Bounds(lo, lo, min, max)
            case Some(error) => r == Err(error)
            case None => if step == 0 then r == Err(IncrementerZero) else r.Ok? && EveryFrom(r.value, lo, max - 1, step)
  {
    hide ParseUint, SplitStr, Decimal, ListSet, RangeOf, EveryFrom;
    Plain(lo);
    RangeOfNumber(lo, min, max);
    Increments(Decimal(lo), RangeOf(Decimal(lo), min, max), step, min, max);
  }

  /** `*` followed by an increment: the numbers min + k * step below the maximum. */
  lemma {:induction false} StepsOfAll(step: nat, min: int, max: int)
    requires 0 <= min < max && step <= INT_MAX
    ensures var r := ListSet("*/" + Decimal(step), min, max);
            if step == 0 then r == Err(IncrementerZero) else r.Ok? && EveryFrom(r.value, min, max - 1, step)
  {
    hide ParseUint, SplitStr, Decimal, ListSet, EveryFrom;
    var range := "*";
    assert '-' !in range;
    Increments(range, Ok((min, max - 1)), step, min, max);
    assert range + "/" + Decimal(step) == "*/" + Decimal(step);
  }

  /** `*` in steps of 15: the quarters. */
  lemma {:induction false} EveryQuarter()
    ensures ListSet("*/15", 0, 60) == Ok({0, 15, 30, 45})
  {
    hide ListSet;
    assert Decimal(15) == "15" && "*/" + Decimal(15) == "*/15";
    StepsOfAll(15, 0, 60);
    var s := ListSet("*/15", 0, 60).value;
    forall v ensures v in s <==> v in {0, 15, 30, 45} {
      if v >= 0 {
        IsMultiple(v, 15);
        assert v - 0 == v;
      }
    }
    assert s == {0, 15, 30, 45};
  }

  // ---------------------------------------------------------------------------------------------
  // Texts that are refused
  // ---------------------------------------------------------------------------------------------

  lemma {:induction false} ThreePieces(a: string, b: string, c: string, del: char)
    requires IsPlain(a, del) && IsPlain(b, del) && IsPlain(c, del) && |a| + |b| + |c| + 2 < 256
    ensures SplitStr(a + [del] + b + [del] + c, del) == [a, b, c]
  {
    hide Pieces;
    NextPiece([], a, del);
    NextPiece(a, b, del);
    NextPiece(a + [del] + b, c, del);
    assert [a] + [b] + [c] == [a, b, c];
  }

  /** Two slashes, two hyphens, and a word. */
  lemma {:induction false} MalformedItems(a: string, b: string, c: string, min: int, max: int)
    requires IsPlain(a, '/') && IsPlain(b, '/') && IsPlain(c, '/')
    requires IsPlain(a, '-') && IsPlain(b, '-') && IsPlain(c, '-')
    requires IsPlain(a, ',') && IsPlain(b, ',') && IsPlain(c, ',') && |a| + |b| + |c| + 2 < 256
    ensures ListSet(a + "/" + b + "/" + c, min, max) == Err(IncrementerFields)
    ensures ListSet(a + "-" + b + "-" + c, min, max) == Err(RangeFields)
    ensures 'a' <= a[0] <= 'z' || 'A' <= a[0] <= 'Z' ==> ListSet(a, min, max) == Err(NotANumber)
  {
    hide SplitStr, ListSet, IsPlain;
    ThreePieces(a, b, c, '/');
    ThreePieces(a, b, c, '-');
    NotIn(a, b, c);
    OneItem(a + "/" + b + "/" + c, min, max);
    OneItem(a + "-" + b + "-" + c, min, max);
    OneItem(a, min, max);
    assert (a + "/" + b + "/" + c)[|a|] == '/' && (a + "-" + b + "-" + c)[|a|] == '-';
    if 'a' <= a[0] <= 'z' || 'A' <= a[0] <= 'Z' {
      NoNumber(a);
    }
  }

  lemma {:induction false} NotIn(a: string, b: string, c: string)
    requires IsPlain(a, '/') && IsPlain(b, '/') && IsPlain(c, '/')
    requires IsPlain(a, '-') && IsPlain(b, '-') && IsPlain(c, '-')
    requires IsPlain(a, ',') && IsPlain(b, ',') && IsPlain(c, ',')
    ensures a != [] && '/' !in a && '-' !in a && '/' !in a + "-" + b + "-" + c
    ensures IsPlain(a + "/" + b + "/" + c, ',') && IsPlain(a + "-" + b + "-" + c, ',')
  {
  }

  lemma {:induction false} NoNumber(s: string)
    requires s != [] && ('a' <= s[0] <= 'z' || 'A' <= s[0] <= 'Z')
    ensures ParseUint(s) == None
  {
    hide NumeralValue;
    assert s[0] in s && DigitValue(s[0]) >= 10;
  }

  /** Fields with single spaces between them. */
  function Joined(fields: seq<string>): string {
    if fields == [] then []
    else if |fields| == 1 then fields[0]
    else Joined(fields[..|fields| - 1]) + " " + fields[|fields| - 1]
  }

  lemma {:induction false} JoinedPieces(fields: seq<string>)
    requires forall i | 0 <= i < |fields| :: IsPlain(fields[i], ' ')
    ensures Pieces(Joined(fields), ' ') == fields
  {
    hide Pieces, IsPlain;
    if fields == [] {
      EmptyText();
    } else if |fields| == 1 {
      NextPiece([], fields[0], ' ');
    } else {
      var n := |fields| - 1;
      JoinedPieces(fields[..n]);
      NextPiece(Joined(fields[..n]), fields[n], ' ');
    }
  }

  lemma {:induction false} EmptyText()
    ensures Pieces([], ' ') == []
  {
    assert SplitOn([], ' ') == [[]] && Strip([]) == [] && NonEmpty([[]][..0]) == [];
  }

  /** Any number of fields other than six is refused, and any text of 256 characters or more. */
  lemma {:induction false} RefusesOtherFields(fields: seq<string>, text: string)
    requires |fields| != 6 && forall i | 0 <= i < |fields| :: IsPlain(fields[i], ' ')
    ensures Meaning(Joined(fields)) == Err(WrongNumberOfFields)
    ensures |text| >= 256 ==> Meaning(text) == Err(WrongNumberOfFields)
  {
    hide Pieces, IsPlain, ListSet, Numbered, ToUpper;
    JoinedPieces(fields);
  }

  /** Space, tab, line feed, vertical tab, form feed and carriage return. */
  const WHITESPACE := {32, 9, 10, 11, 12, 13}

  /** Delimiters without a piece between them, and whitespace inside a piece, change nothing. */
  lemma {:induction false} DropsWhitespace(s: string, c: char, del: char)
    requires c == del || c as int in WHITESPACE
    ensures Pieces(s + [c], del) == Pieces(s, del)
  {
    var t := s + [c];
    assert t[..|s|] == s;
    var r := SplitOn(s, del);
    var n := |r| - 1;
    if c == del {
      assert (r + [[]])[..n + 1] == r && Strip([]) == [];
    } else {
      var u := r[..n] + [r[n] + [c]];
      assert (r[n] + [c])[..|r[n]|] == r[n];
      assert u[..n] == r[..n] && r == r[..n] + [r[n]] && Strip(r[n] + [c]) == Strip(r[n]);
    }
  }
}
