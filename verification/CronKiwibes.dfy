/** How Kiwibes uses the library (source/kiwibes_cron.cpp): one object per expression, parsed once. */
module CronKiwibes {
  import opened CronSpec
  import opened CronFire
  import opened CronTheorems
  import opened CronExamples
  import opened CronText
  import opened CronImpl
  import opened CronParse

  class KiwibesCron {
    const cron: CronExpr
    var valid: bool

    /** The bits that are read are what cron_next needs; the constructor always makes them so. */
    ghost predicate Ready()
      reads this, cron.seconds, cron.minutes, cron.hours, cron.daysOfWeek, cron.daysOfMonth, cron.months
    {
      cron.Shape() && (valid ==> Valid(cron.Used()))
    }

    /** The memory that new hands out is parsed into as it is, whatever its bits are. */
    constructor (expression: string, memory: CronExpr)
      requires memory.Shape()
      modifies memory.seconds, memory.minutes, memory.hours, memory.daysOfWeek, memory.daysOfMonth, memory.months
      ensures cron == memory && Ready() && (valid <==> Meaning(expression).Ok?)
      ensures valid ==>
                (cron.Used() == Meaning(expression).value
                 <==> HarmlessWhereRead(old(memory.View()), Meaning(expression).value))
    {
      hide MeaningOn, Meaning, HarmlessWhereRead, Valid, Clipped;
      cron := memory;
      valid := false;
      new;
      TargetMatters(memory.View(), expression);
      if Meaning(expression).Ok? {
        BitsReadMatter(memory.View(), expression);
      }
      var error := CronParseExpr(expression, memory);
      valid := error.None?;
    }

    /** The least matching second after now, when the bits are those of a recognisable expression. */
    method Next(now: int) returns (t: int)
      requires Ready()
      ensures !valid ==> t == 0
      ensures valid ==> t == NextFire(cron.Used(), now)
      ensures var e := cron.Used();
              valid && OneDayField(e) && SimpleMonths(e) && SimpleSeconds(e) && 0 <= now ==>
                if t != -1 then IsNextFire(e, now, t) else NoneInReach(e, now)
    {
      hide Valid, IsNextFire, NoneInReach, OneDayField, SimpleMonths, SimpleSeconds, NextFire;
      if valid {
        t := CronNext(cron, now);
      } else {
        t := 0;
      }
    }
  }
}
