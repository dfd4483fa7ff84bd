/** Names of days and months, question marks, and Sunday as 7 in the text of an expression
    (3rd_party/ccronexpr/ccronexpr.c:629-656 and 814-897). */
module CronNames {
  import opened CronSpec
  import opened CronItems
  import opened CronReadings
  import opened CronText

  const DAY_NAMES := ["sun", "mon", "tue", "wed", "thu", "fri", "sat"]
  const MONTH_NAMES := ["jan", "feb", "mar", "apr", "may", "jun", "jul", "aug", "sep", "oct", "nov", "dec"]

  /** Each letter of the text is that of the name, or its capital. */
  predicate Spells(t: string, name: string) {
    |t| == |name| && forall i | 0 <= i < |t| :: t[i] == name[i] || t[i] as int == name[i] as int - 32
  }

  lemma {:induction false} DayTable(k: nat)
    requires k < 7
    ensures |DAY_NAMES[k]| == |DAYS[k]| == 3
    ensures forall i | 0 <= i < 3 :: 'a' <= DAY_NAMES[k][i] <= 'z' && DAYS[k][i] as int == DAY_NAMES[k][i] as int - 32
  {
  }

  lemma {:induction false} MonthTable(k: nat)
    requires k < 12
    ensures |MONTH_NAMES[k]| == |MONTHS[k + 1]| == 3
    ensures forall i | 0 <= i < 3 ::
              'a' <= MONTH_NAMES[k][i] <= 'z' && MONTHS[k + 1][i] as int == MONTH_NAMES[k][i] as int - 32
  {
  }

  /** A spelling of a name in letters reads as the name in capitals. */
  lemma {:induction false} Spelled(t: string, name: string, capitals: string)
    requires Spells(t, name) && |name| == |capitals| == 3
    requires forall i | 0 <= i < 3 :: 'a' <= name[i] <= 'z' && capitals[i] as int == name[i] as int - 32
    ensures ToUpper(t) == capitals && IsPlain(t, ' ')
  {
    forall i | 0 <= i < 3 ensures Upper(t[i]) == capitals[i] && !IsSpace(t[i]) {
      if t[i] == name[i] {
        assert t[i] - 'a' + 'A' == capitals[i];
      } else {
        assert t[i] == capitals[i];
      }
    }
  }

  lemma {:induction false} DistinctDays(j: nat, k: nat)
    requires j < k < 7
    ensures DAYS[j] != DAYS[k]
  {
    assert DAYS[j][0] != DAYS[k][0] || DAYS[j][1] != DAYS[k][1] || DAYS[j][2] != DAYS[k][2];
  }

  lemma {:induction false} DistinctMonths(j: nat, k: nat)
    requires j < k < 13
    ensures MONTHS[j] != MONTHS[k]
  {
    assert MONTHS[j][0] != MONTHS[k][0] || MONTHS[j][1] != MONTHS[k][1] || MONTHS[j][2] != MONTHS[k][2];
  }

  /** Every name of a day, in any mixture of small letters and capitals, denotes its day from Sunday, 0. */
  lemma {:induction false} DayNamesDenote(t: string, k: nat)
    requires k < 7 && Spells(t, DAY_NAMES[k])
    ensures Meaning("0 0 0 * * " + t) == Ok(Expr({0}, {0}, {0}, {k}, Range(1, 32), Range(0, 12)))
  {
    hide SplitStr, ListSet, Numbered, ToUpper, NoQuestion, Range, Shifted, Decimal, IsPlain, Spells;
    DayTable(k);
    Spelled(t, DAY_NAMES[k], DAYS[k]);
    DayNumber(k);
    NumberDenotes(k, 0, 8);
    DayField(t);
    OtherFields();
    StarHasNoDay();
    StarHasNoMonth();
  }

  lemma {:induction false} DayNumber(k: nat)
    requires k < 7
    ensures NoQuestion(Numbered(DAYS[k], DAYS, 0)) == Decimal(k)
  {
    hide Numbered;
    forall j | 0 <= j < k ensures DAYS[j] != DAYS[k] {
      DistinctDays(j, k);
    }
    NameIsNumber(DAYS, 0, k);
  }

  lemma {:induction false} DayField(t: string)
    requires IsPlain(t, ' ') && |t| <= 3
    ensures SplitStr("0 0 0 * * " + t, ' ') == ["0", "0", "0", "*", "*", t]
  {
    hide SplitStr;
    SixFields("0", "0", "0", "*", "*", t);
    assert "0 0 0 * * " + t == "0" + " " + "0" + " " + "0" + " " + "*" + " " + "*" + " " + t;
  }

  lemma {:induction false} MonthField(t: string)
    requires IsPlain(t, ' ') && |t| <= 3
    ensures SplitStr("0 0 0 * " + t + " *", ' ') == ["0", "0", "0", "*", t, "*"]
  {
    hide SplitStr;
    SixFields("0", "0", "0", "*", t, "*");
    assert "0 0 0 * " + t + " *" == "0" + " " + "0" + " " + "0" + " " + "*" + " " + t + " " + "*";
  }

  /** Midnight, and the stars. */
  lemma {:induction false} OtherFields()
    ensures ListSet("0", 0, 60) == Ok({0}) && ListSet("0", 0, 24) == Ok({0})
    ensures ListSet("*", 1, 32) == Ok(Range(1, 32)) && ListSet("*", 0, 8) == Ok(Range(0, 8))
    ensures ListSet("*", 1, 13) == Ok(Range(1, 13))
    ensures Folded(Range(0, 8)) == Range(0, 7) && Shifted(Range(1, 13)) == Range(0, 12)
  {
    hide ListSet, Range, Shifted, Folded;
    Numbers();
    Star(0, 8);
    Star(1, 32);
    Star(1, 13);
    AllDays();
    AllMonths();
  }

  lemma {:induction false} MonthNumber(k: nat)
    requires k < 13
    ensures Numbered(MONTHS[k], MONTHS, 0) == Decimal(k)
  {
    hide Numbered;
    forall j | 0 <= j < k ensures MONTHS[j] != MONTHS[k] {
      DistinctMonths(j, k);
    }
    NameIsNumber(MONTHS, 0, k);
  }

  /** Every name of a month denotes its month from January, 0. */
  lemma {:induction false} MonthNamesDenote(t: string, k: nat)
    requires k < 12 && Spells(t, MONTH_NAMES[k])
    ensures Meaning("0 0 0 * " + t + " *") == Ok(Expr({0}, {0}, {0}, Range(0, 7), Range(1, 32), {k}))
  {
    hide SplitStr, ListSet, Numbered, ToUpper, NoQuestion, Range, Folded, Decimal, IsPlain, Spells;
    MonthTable(k);
    Spelled(t, MONTH_NAMES[k], MONTHS[k + 1]);
    MonthNumber(k + 1);
    NumberDenotes(k + 1, 1, 13);
    MonthField(t);
    OtherFields();
    StarHasNoDay();
    assert Shifted({k + 1}) == {k};
  }

  /** A question mark in a day field denotes all days. */
  lemma {:induction false} QuestionMarks()
    ensures Meaning("0 0 0 ? * ?") == Ok(Expr({0}, {0}, {0}, Range(0, 7), Range(1, 32), Range(0, 12)))
  {
    hide SplitStr, ListSet, Numbered, ToUpper, Range, Folded, Shifted;
    OtherFields();
    StarHasNoMonth();
    SixFields("0", "0", "0", "?", "*", "?");
    assert "0 0 0 ? * ?" == "0" + " " + "0" + " " + "0" + " " + "?" + " " + "*" + " " + "?";
    IsUpper("?");
    NoNames("?", DAYS, 0);
  }

  /** Sunday may be written 7. */
  lemma {:induction false} SevenIsSunday()
    ensures Meaning("0 0 0 * * 7") == Ok(Expr({0}, {0}, {0}, {0}, Range(1, 32), Range(0, 12)))
  {
    hide SplitStr, ListSet, Numbered, ToUpper, NoQuestion, Range, Shifted;
    DayField("7");
    assert "0 0 0 * * 7" == "0 0 0 * * " + "7";
    OtherFields();
    StarHasNoDay();
    StarHasNoMonth();
    IsUpper("7");
    NoNames("7", DAYS, 0);
    Unquestioned("7");
    assert Decimal(7) == "7";
    NumberDenotes(7, 0, 8);
    assert Folded({7}) == {0};
  }

  /** Also at the end of a range. */
  lemma {:induction false} FridayToSunday()
    ensures Meaning("0 0 0 * * 5-7") == Ok(Expr({0}, {0}, {0}, {0, 5, 6}, Range(1, 32), Range(0, 12)))
  {
    hide SplitStr, ListSet, Numbered, ToUpper, NoQuestion, Range, Shifted;
    DayField("5-7");
    assert "0 0 0 * * 5-7" == "0 0 0 * * " + "5-7";
    OtherFields();
    StarHasNoDay();
    StarHasNoMonth();
    IsUpper("5-7");
    NoDayIn("5-7", 0);
    Unquestioned("5-7");
    FiveToSeven();
    assert Folded({5, 6, 7}) == {0, 5, 6};
  }

  lemma {:induction false} FiveToSeven()
    ensures ListSet("5-7", 0, 8) == Ok({5, 6, 7})
  {
    hide ListSet;
    assert Decimal(7) == "7" && Decimal(5) == "5" && Decimal(5) + "-" + Decimal(7) == "5-7";
    RangeDenotes(5, 7, 0, 8);
    var s := ListSet("5-7", 0, 8).value;
    assert forall v :: v in s <==> v in {5, 6, 7};
    assert s == {5, 6, 7};
  }

  /** A text that does not begin with a name as long as itself holds none. */
  lemma {:induction false} NoDayIn(s: string, i: nat)
    requires i <= |DAYS| && |s| == 3 && !('A' <= s[0] <= 'Z')
    ensures Numbered(s, DAYS, i) == s
    decreases |DAYS| - i
  {
    if i < |DAYS| {
      assert DAYS[i] in DAYS && |DAYS[i]| == 3 && 'A' <= DAYS[i][0] <= 'Z';
      assert s[..3] == s;
      assert Replaced(s, DAYS[i], Decimal(i)) == [s[0]] + s[1..] == s;
      NoDayIn(s, i + 1);
    }
  }
}
