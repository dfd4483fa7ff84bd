/** How the texts of cron expressions are read: splitting undoes joining, and what the texts of some
    expressions denote. */
module CronReadings {
  import opened CronSpec
  import opened CronExamples
  import opened CronText
  import opened Wrappers

  // ---------------------------------------------------------------------------------------------
  // Splitting what was joined
  // ---------------------------------------------------------------------------------------------

  /** Neither empty nor with a delimiter or whitespace in it. */
  predicate IsPlain(s: string, del: char) {
    s != [] && forall i | 0 <= i < |s| :: s[i] != del && !IsSpace(s[i])
  }

  lemma {:induction false} NextSegment(s: string, t: string, del: char)
    requires forall i | 0 <= i < |t| :: t[i] != del
    ensures SplitOn(s + [del] + t, del) == SplitOn(s, del) + [t]
  {
    var u := s + [del] + t;
    if t == [] {
      assert u == s + [del] && u[..|u| - 1] == s && u[|u| - 1] == del;
    } else {
      var n := |t| - 1;
      NextSegment(s, t[..n], del);
      assert u[..|u| - 1] == s + [del] + t[..n];
      assert (SplitOn(s, del) + [t[..n]])[..|SplitOn(s, del)|] == SplitOn(s, del) && t[..n] + [t[n]] == t;
    }
  }

  lemma {:induction false} OneSegment(s: string, del: char)
    requires forall i | 0 <= i < |s| :: s[i] != del
    ensures SplitOn(s, del) == [s]
  {
    if s != [] {
      var n := |s| - 1;
      OneSegment(s[..n], del);
      assert s[..n] + [s[n]] == s && [s[..n]][..0] == [] && [] + [s] == [s];
    }
  }

  lemma {:induction false} StripsNothing(s: string)
    requires forall i | 0 <= i < |s| :: !IsSpace(s[i])
    ensures Strip(s) == s
  {
    if s != [] {
      StripsNothing(s[..|s| - 1]);
    }
  }

  lemma {:induction false} NextPiece(s: string, t: string, del: char)
    requires IsPlain(t, del)
    ensures Pieces(t, del) == [t] && Pieces(s + [del] + t, del) == Pieces(s, del) + [t]
  {
    hide SplitOn, Strip;
    OneSegment(t, del);
    NextSegment(s, t, del);
    StripsNothing(t);
    assert (SplitOn(s, del) + [t])[..|SplitOn(s, del)|] == SplitOn(s, del);
    assert NonEmpty([]) == [] && [] + [t] == [t] && [t][..0] == [];
  }

  /** Six plain fields with single spaces between them. */
  lemma {:induction false} SixFields(a: string, b: string, c: string, d: string, e: string, f: string)
    requires IsPlain(a, ' ') && IsPlain(b, ' ') && IsPlain(c, ' ') && IsPlain(d, ' ') && IsPlain(e, ' ') && IsPlain(f, ' ')
    requires |a| + |b| + |c| + |d| + |e| + |f| + 5 < 256
    ensures SplitStr(a + " " + b + " " + c + " " + d + " " + e + " " + f, ' ') == [a, b, c, d, e, f]
  {
    hide Pieces, IsPlain;
    NextPiece([], a, ' ');
    NextPiece(a, b, ' ');
    NextPiece(a + " " + b, c, ' ');
    NextPiece(a + " " + b + " " + c, d, ' ');
    NextPiece(a + " " + b + " " + c + " " + d, e, ' ');
    NextPiece(a + " " + b + " " + c + " " + d + " " + e, f, ' ');
  }

  // ---------------------------------------------------------------------------------------------
  // Single items, and lists of one or two
  // ---------------------------------------------------------------------------------------------

  lemma {:induction false} OneItem(item: string, min: int, max: int)
    requires IsPlain(item, ',') && |item| < MAX_STR_LEN_TO_SPLIT
    ensures ListSet(item, min, max) == ItemSet(item, min, max)
  {
    hide ItemSet, Pieces;
    NextPiece([], item, ',');
    assert ItemsSet([item], 0, min, max) == Ok({});
    if ItemSet(item, min, max).Ok? {
      assert {} + ItemSet(item, min, max).value == ItemSet(item, min, max).value;
    }
  }

  lemma {:induction false} FirstItems(items: seq<string>, item: string, n: nat, min: int, max: int)
    requires n <= |items|
    ensures ItemsSet(items + [item], n, min, max) == ItemsSet(items, n, min, max)
  {
    if n > 0 {
      FirstItems(items, item, n - 1, min, max);
    }
  }

  /** A list and one item more denote the union. */
  lemma {:induction false} OneItemMore(list: string, item: string, min: int, max: int)
    requires IsPlain(item, ',') && |list| + 1 + |item| < MAX_STR_LEN_TO_SPLIT
    requires ListSet(list, min, max).Ok? && ListSet(item, min, max).Ok?
    ensures ListSet(list + "," + item, min, max) == Ok(ListSet(list, min, max).value + ListSet(item, min, max).value)
  {
    hide ItemSet, Pieces;
    OneItem(item, min, max);
    NextPiece(list, item, ',');
    var items := Pieces(list, ',');
    FirstItems(items, item, |items|, min, max);
  }

  lemma {:induction false} Star(min: int, max: int)
    requires 0 <= min < max
    ensures ListSet("*", min, max) == Ok(Range(min, max))
  {
    hide Range, ParseUint, SplitStr, ListSet;
    OneItem("*", min, max);
  }

  lemma {:induction false} OneNumber(text: string, v: int, min: int, max: int)
    requires IsPlain(text, ',') && '-' !in text && '/' !in text && text != "*" && |text| < MAX_STR_LEN_TO_SPLIT
    requires ParseUint(text) == Some(v) && min <= v < max
    ensures ItemSet(text, min, max) == Ok({v}) && ListSet(text, min, max) == Ok({v})
  {
    hide ParseUint, SplitStr, ListSet;
    assert Range(v, v + 1) == {v};
    OneItem(text, min, max);
  }

  lemma {:induction false} ParsesDigit(c: char)
    requires '0' <= c <= '9' && c != '8' && c != '9'
    ensures ParseUint([c]) == Some((c - '0') as int)
  {
    assert [c][..0] == [] && NumeralValue([], 8) == 0 && NumeralValue([], 10) == 0;
  }

  lemma {:induction false} ParsesTwoDigits(c: char, d: char)
    requires '1' <= c <= '9' && '0' <= d <= '9'
    ensures ParseUint([c, d]) == Some(10 * (c - '0') as int + (d - '0') as int)
  {
    assert [c, d][..1] == [c] && [c][..0] == [] && NumeralValue([], 10) == 0 && NumeralValue([c], 10) == (c - '0') as int;
  }

  lemma {:induction false} Numbers()
    ensures ListSet("0", 0, 60) == Ok({0}) && ListSet("0", 0, 24) == Ok({0}) && ListSet("30", 0, 60) == Ok({30})
    ensures ListSet("12", 0, 24) == Ok({12}) && ListSet("15", 0, 60) == Ok({15}) && ListSet("15", 1, 32) == Ok({15})
    ensures ListSet("1", 0, 8) == Ok({1}) && ListSet("2", 1, 13) == Ok({2})
    ensures ListSet("0,30", 0, 60) == Ok({0, 30}) && ListSet("5,31", 1, 32) == Ok({5, 31})
  {
    hide ParseUint, ListSet, ItemSet;
    ParsesDigit('0');
    ParsesDigit('1');
    ParsesDigit('2');
    ParsesDigit('5');
    ParsesTwoDigits('3', '0');
    ParsesTwoDigits('1', '2');
    ParsesTwoDigits('1', '5');
    ParsesTwoDigits('3', '1');
    OneNumber("0", 0, 0, 60);
    OneNumber("0", 0, 0, 24);
    OneNumber("30", 30, 0, 60);
    OneNumber("12", 12, 0, 24);
    OneNumber("15", 15, 0, 60);
    OneNumber("15", 15, 1, 32);
    OneNumber("1", 1, 0, 8);
    OneNumber("2", 2, 1, 13);
    OneItemMore("0", "30", 0, 60);
    OneNumber("5", 5, 1, 32);
    OneNumber("31", 31, 1, 32);
    OneItemMore("5", "31", 1, 32);
    assert "0,30" == "0" + "," + "30" && "5,31" == "5" + "," + "31";
    assert {0} + {30} == {0, 30} && {5} + {31} == {5, 31};
  }

  // ---------------------------------------------------------------------------------------------
  // Names
  // ---------------------------------------------------------------------------------------------

  /** No name of a table occurs in a text that is shorter than all of them. */
  lemma {:induction false} NoNames(s: string, names: seq<string>, i: nat)
    requires i <= |names| && forall n | n in names :: |n| > |s|
    ensures Numbered(s, names, i) == s
    decreases |names| - i
  {
    if i < |names| {
      assert names[i] in names;
      NoNames(s, names, i + 1);
    }
  }

  /** Of the names of a table, all as long as the text, the text is the one at k. */
  lemma {:induction false} NameIsNumber(names: seq<string>, i: nat, k: nat)
    requires i <= k < |names| && k < 100 && (forall j | 0 <= j < |names| :: |names[j]| == 3)
    requires forall j | 0 <= j < k :: names[j] != names[k]
    ensures Numbered(names[k], names, i) == Decimal(k)
    decreases k - i
  {
    var s := names[k];
    assert s in names && names[i] in names;
    assert s[..3] == s && s[3..] == [];
    if i == k {
      assert |Decimal(k)| <= 2;
      assert Replaced(s, s, Decimal(k)) == Decimal(k) + [] == Decimal(k);
      NoNames(Decimal(k), names, k + 1);
    } else {
      assert Replaced(s, names[i], Decimal(i)) == [s[0]] + s[1..] == s;
      NameIsNumber(names, i + 1, k);
    }
  }

  lemma {:induction false} StarHasNoDay()
    ensures NoQuestion("*") == "*" && NoQuestion(Numbered(ToUpper("*"), DAYS, 0)) == "*"
  {
    hide Numbered;
    assert ToUpper("*") == "*";
    NoNames("*", DAYS, 0);
  }

  lemma {:induction false} StarHasNoMonth()
    ensures Numbered(ToUpper("*"), MONTHS, 0) == "*"
  {
    hide Numbered;
    assert ToUpper("*") == "*";
    NoNames("*", MONTHS, 0);
  }

  lemma {:induction false} IsUpper(s: string)
    requires forall i | 0 <= i < |s| :: !('a' <= s[i] <= 'z')
    ensures ToUpper(s) == s
  {
  }

  lemma {:induction false} DayNumber()
    ensures Numbered("MON", DAYS, 0) == "1"
  {
    hide Numbered;
    assert DAYS[0][0] != DAYS[1][0];
    NameIsNumber(DAYS, 0, 1);
  }

  lemma {:induction false} MonthNumber()
    ensures Numbered("FEB", MONTHS, 0) == "2"
  {
    hide Numbered;
    assert MONTHS[0][1] != MONTHS[2][1] && MONTHS[1][0] != MONTHS[2][0];
    NameIsNumber(MONTHS, 0, 2);
  }

  lemma {:induction false} MondayIsOne()
    ensures NoQuestion(Numbered(ToUpper("MON"), DAYS, 0)) == "1"
  {
    hide Numbered, ToUpper;
    IsUpper("MON");
    DayNumber();
  }

  lemma {:induction false} FebruaryIsTwo()
    ensures Numbered(ToUpper("FEB"), MONTHS, 0) == "2"
  {
    hide Numbered, ToUpper;
    IsUpper("FEB");
    MonthNumber();
  }

  lemma {:induction false} AllDays()
    ensures Folded(Range(0, 8)) == Range(0, 7) && Folded({} + Range(0, 8)) == Range(0, 7)
  {
    assert {} + Range(0, 8) == Range(0, 8);
  }

  lemma {:induction false} AllMonths()
    ensures Shifted(Range(1, 13)) == Range(0, 12) && Rotated({} + Range(1, 13)) == Range(0, 12)
  {
    hide Rotated, Shifted;
    assert {} + Range(1, 13) == Range(1, 13);
    forall v ensures v in Shifted(Range(1, 13)) <==> v in Range(0, 12) {
      InShifted(Range(1, 13), v);
    }
    forall v ensures v in Rotated(Range(1, 13)) <==> v in Range(0, 12) {
      InRotated(Range(1, 13), v);
    }
  }

  // ---------------------------------------------------------------------------------------------
  // The texts of the expressions that are answered wrongly
  // ---------------------------------------------------------------------------------------------

  lemma {:induction false} MondayTheFifteenthMeans()
    ensures Meaning("30 30 12 15 * MON") == Ok(MONDAY_THE_15TH)
  {
    hide SplitStr, ListSet, Numbered, ToUpper, NoQuestion, Range, Shifted;
    SixFields("30", "30", "12", "15", "*", "MON");
    assert "30 30 12 15 * MON" == "30" + " " + "30" + " " + "12" + " " + "15" + " " + "*" + " " + "MON";
    assert NoQuestion("15") == "15" by { Unquestioned("15"); }
    Numbers();
    Star(1, 13);
    MondayIsOne();
    StarHasNoMonth();
    AllMonths();
  }

  lemma {:induction false} Unquestioned(s: string)
    requires s != "?"
    ensures NoQuestion(s) == s
  {
  }

  lemma {:induction false} TwoSecondsMeans()
    ensures Meaning("0,30 15 * * * *") == Ok(TWO_SECONDS_OF_MINUTE_15)
  {
    hide SplitStr, ListSet, Numbered, ToUpper, NoQuestion, Range, Folded, Shifted;
    SixFields("0,30", "15", "*", "*", "*", "*");
    assert "0,30 15 * * * *" == "0,30" + " " + "15" + " " + "*" + " " + "*" + " " + "*" + " " + "*";
    Numbers();
    Star(0, 24);
    Star(0, 8);
    Star(1, 32);
    Star(1, 13);
    StarHasNoDay();
    StarHasNoMonth();
    AllDays();
    AllMonths();
  }

  lemma {:induction false} DaysOfFebruaryMeans()
    ensures Meaning("0 0 0 5,31 FEB *") == Ok(DAYS_OF_FEBRUARY)
  {
    hide SplitStr, ListSet, Numbered, ToUpper, NoQuestion, Range, Folded;
    SixFields("0", "0", "0", "5,31", "FEB", "*");
    assert "0 0 0 5,31 FEB *" == "0" + " " + "0" + " " + "0" + " " + "5,31" + " " + "FEB" + " " + "*";
    Unquestioned("5,31");
    Numbers();
    Star(0, 8);
    StarHasNoDay();
    FebruaryIsTwo();
    AllDays();
    assert Shifted({2}) == {1};
  }

  lemma {:induction false} LeapDayMeans()
    ensures Meaning("0 0 0 29 FEB *") == Ok(LEAP_DAY)
  {
    hide SplitStr, ListSet, ParseUint, Numbered, ToUpper, NoQuestion, Range, Folded;
    SixFields("0", "0", "0", "29", "FEB", "*");
    assert "0 0 0 29 FEB *" == "0" + " " + "0" + " " + "0" + " " + "29" + " " + "FEB" + " " + "*";
    Unquestioned("29");
    Numbers();
    ParsesTwoDigits('2', '9');
    OneNumber("29", 29, 1, 32);
    Star(0, 8);
    StarHasNoDay();
    FebruaryIsTwo();
    AllDays();
    assert Shifted({2}) == {1};
  }
}
