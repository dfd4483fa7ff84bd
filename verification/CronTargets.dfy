/** An expression that fires at the wrong time because its target was not cleared. */
module CronTargets {
  import opened Calendar
  import opened CronSpec
  import opened CronFire
  import opened CronTheorems
  import opened CronExamples
  import opened CronReadings
  import opened CronText

  // ---------------------------------------------------------------------------------------------
  // Parsing `30 * * * * *`
  // ---------------------------------------------------------------------------------------------

  const HALF_PAST := "30 * * * * *"

  const EVERY_MINUTE_AT_30 := Expr({30}, Range(0, 60), Range(0, 24), Range(0, 7), Range(1, 32), Range(0, 12))

  /** The lists of the six fields. */
  lemma {:induction false} Lists()
    ensures SplitStr(HALF_PAST, ' ') == ["30", "*", "*", "*", "*", "*"]
    ensures ListSet("30", 0, 60) == Ok({30}) && ListSet("*", 0, 60) == Ok(Range(0, 60))
    ensures ListSet("*", 0, 24) == Ok(Range(0, 24)) && ListSet("*", 1, 32) == Ok(Range(1, 32))
    ensures ListSet("*", 0, 8) == Ok(Range(0, 8)) && ListSet("*", 1, 13) == Ok(Range(1, 13))
  {
    hide SplitStr, ListSet, Range, ParseUint;
    SixFields("30", "*", "*", "*", "*", "*");
    assert HALF_PAST == "30" + " " + "*" + " " + "*" + " " + "*" + " " + "*" + " " + "*";
    ParsesTwoDigits('3', '0');
    OneNumber("30", 30, 0, 60);
    Star(0, 60);
    Star(0, 24);
    Star(0, 8);
    Star(1, 32);
    Star(1, 13);
  }

  lemma {:induction false} HalfPastMeans()
    ensures Meaning(HALF_PAST) == Ok(EVERY_MINUTE_AT_30)
  {
    hide SplitStr, ListSet, Numbered, ToUpper, NoQuestion, Range, Folded, Shifted;
    Lists();
    StarHasNoDay();
    StarHasNoMonth();
    AllDays();
    AllMonths();
  }

  /** Parsed into memory in which one bit was set. */
  lemma {:induction false} HalfPastMeansOn()
    ensures MeaningOn(ZEROED.(seconds := {10}), HALF_PAST) == Ok(EVERY_MINUTE_AT_30.(seconds := {10, 30}))
  {
    hide SplitStr, ListSet, Numbered, ToUpper, NoQuestion, Range, Folded, Rotated;
    Lists();
    StarHasNoDay();
    StarHasNoMonth();
    AllDays();
    AllMonths();
    assert {10} + {30} == {10, 30};
    assert {} + Range(0, 60) == Range(0, 60);
    assert {} + Range(0, 24) == Range(0, 24);
    assert {} + Range(1, 32) == Range(1, 32);
  }

  // ---------------------------------------------------------------------------------------------
  // Firing
  // ---------------------------------------------------------------------------------------------

  lemma {:induction false} FirstMinute(t: int)
    requires 0 <= t < 60
    ensures FromSeconds(t) == At(0, 0, 0, t)
  {
    FromSecondsSeconds(At(0, 0, 0, t));
  }

  /** When every minute matches, the first fire time after the epoch is the first second of the set. */
  lemma {:induction false} FirstFire(e: Expr, s: int)
    requires Valid(e) && RightAnswer(e, 0) && (forall x: Instant :: MatchesMinute(e, x))
    requires 0 < s < 60 && s in e.seconds && forall u | u in e.seconds :: s <= u
    ensures NextFire(e, 0) == s
  {
    hide NextFire, MatchesMinute, FromSeconds;
    FirstMinute(s);
    FirstMinute(0);
    assert MatchesAt(e, s);
    assert !NoneInReach(e, 0);
    var r := NextFire(e, 0);
    assert 0 < r <= s;
    FirstMinute(r);
  }

  lemma {:induction false} EveryMinute(e: Expr)
    requires e == EVERY_MINUTE_AT_30.(seconds := e.seconds)
    ensures forall x: Instant :: MatchesMinute(e, x)
  {
    hide DayOfMonth, MonthOfYear, Weekday;
  }

  /** `30 * * * * *` fires 30 seconds after the epoch; parsed into memory in which the bit of second 10
      was set, it fires at 10 seconds, which it does not allow. */
  lemma {:induction false} UnclearedTargetFires()
    ensures var cleared, uncleared := MeaningOn(ZEROED, HALF_PAST), MeaningOn(ZEROED.(seconds := {10}), HALF_PAST);
            && cleared.Ok? && uncleared.Ok? && Valid(cleared.value) && Valid(uncleared.value)
            && NextFire(cleared.value, 0) == 30 && NextFire(uncleared.value, 0) == 10
            && !MatchesAt(cleared.value, 10)
  {
    hide MeaningOn, Meaning, NextFire, RightAnswer, MatchesMinute, SafeDays, SafeMonths, FromSeconds, Range, Convex;
    HalfPastMeans();
    HalfPastMeansOn();
    ZeroedTarget(HALF_PAST);
    var e, f := EVERY_MINUTE_AT_30, EVERY_MINUTE_AT_30.(seconds := {10, 30});
    assert 0 in Range(0, 60) && 0 in Range(0, 24) && 0 in Range(0, 7) && 1 in Range(1, 32) && 0 in Range(0, 12);
    assert Valid(e) && Valid(f);
    EveryMinute(e);
    EveryMinute(f);
    SimpleIsRight(e, 0);
    OneDayFieldIsSafe(f);
    SimpleMonthsAreSafe(f);
    SafeIsRight(f, 0);
    FirstFire(e, 30);
    FirstFire(f, 10);
    FirstMinute(10);
  }
}
