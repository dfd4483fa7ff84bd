/** What the tallies of the jobs protocol count, from the actions of a run alone
  * (source/kiwibes_jobs_manager.cpp:86-125 and 221-275). */
module JobsAccepted {
  import opened JobsDatabase
  import opened JobsProtocol
  import opened Wrappers

  /** A start is accepted when it is queued for a job the database knows, or when its process is there. */
  predicate Accepts(s: State, a: Action, name: string)
    requires Enabled(s, a)
  {
    || (a.Request? && s.round.name == name && name in s.db)
    || (a.Launch? && s.round.name == name && a.handle != INVALID_PROCESS_HANDLE)
  }

  predicate Spawns(s: State, a: Action, name: string)
    requires Enabled(s, a)
  {
    (a.Launch? || a.Relaunch?) && s.round.name == name && a.handle != INVALID_PROCESS_HANDLE
  }

  /** A queued start is lost when its process cannot be launched. */
  predicate Loses(s: State, a: Action, name: string)
    requires Enabled(s, a)
  {
    a.Relaunch? && s.round.name == name && a.handle == INVALID_PROCESS_HANDLE
  }

  /** A process ends without a run when the database knows its job and does not call it running. */
  predicate EndsUncounted(s: State, a: Action, name: string)
    requires Enabled(s, a)
  {
    a.Stop? && s.round.name == name && name in s.db && s.db[name].status.Stopped?
  }

  predicate Renews(s: State, a: Action, name: string) {
    a.Create? && a.name == name && name !in s.db
    && a.details.program.Some? && a.details.schedule.Some? && a.details.maxRuntime.Some?
  }

  /** How many starts of this job were accepted since it was loaded or created. */
  function AcceptedIn(file: Db, actions: seq<Action>, name: string): nat
    requires After(file, actions).Some?
  {
    if actions == [] then 0
    else
      var n := |actions| - 1;
      var s := After(file, actions[..n]).value;
      if Renews(s, actions[n], name) then 0
      else AcceptedIn(file, actions[..n], name) + One(Accepts(s, actions[n], name))
  }

  /** How many processes of it were launched. */
  function LaunchedIn(file: Db, actions: seq<Action>, name: string): nat
    requires After(file, actions).Some?
  {
    if actions == [] then 0
    else
      var n := |actions| - 1;
      var s := After(file, actions[..n]).value;
      if Renews(s, actions[n], name) then 0
      else LaunchedIn(file, actions[..n], name) + One(Spawns(s, actions[n], name))
  }

  /** How many of its queued starts were lost. */
  function LostIn(file: Db, actions: seq<Action>, name: string): nat
    requires After(file, actions).Some?
  {
    if actions == [] then 0
    else
      var n := |actions| - 1;
      var s := After(file, actions[..n]).value;
      if Renews(s, actions[n], name) then 0
      else LostIn(file, actions[..n], name) + One(Loses(s, actions[n], name))
  }

  /** How many of its processes ended without a run. */
  function UncountedIn(file: Db, actions: seq<Action>, name: string): nat
    requires After(file, actions).Some?
  {
    if actions == [] then 0
    else
      var n := |actions| - 1;
      var s := After(file, actions[..n]).value;
      if Renews(s, actions[n], name) then 0
      else UncountedIn(file, actions[..n], name) + One(EndsUncounted(s, actions[n], name))
  }

  lemma {:induction false} CreateTallies(s: State, a: Action, name: string)
    requires a.Create?
    ensures var t := TallyOf(DoCreate(s, a.name, a.details), name);
            if Renews(s, a, name) then t.accepted == t.launched == t.failed == t.uncounted == 0 else t == TallyOf(s, name)
  {
  }

  lemma {:induction false} ProcessTallies(s: State, a: Action, name: string)
    requires Enabled(s, a) && (a.Launch? || a.Relaunch? || a.Stop?)
    ensures var before, t := TallyOf(s, name), TallyOf(Do(s, a), name);
            && t.accepted == before.accepted + One(Accepts(s, a, name))
            && t.launched == before.launched + One(Spawns(s, a, name))
            && t.failed == before.failed + One(Loses(s, a, name))
            && t.uncounted == before.uncounted + One(EndsUncounted(s, a, name))
  {
    hide Finished, DoCreate, DoRequest, DoTake, DoReap, DoMark, DoClear, AfterEdit, AfterDelete;
  }

  lemma {:induction false} OtherTallies(s: State, a: Action, name: string)
    requires Enabled(s, a) && !(a.Launch? || a.Relaunch? || a.Stop? || a.Create?)
    ensures var before, t := TallyOf(s, name), TallyOf(Do(s, a), name);
            && t.accepted == before.accepted + One(Accepts(s, a, name))
            && t.launched == before.launched + One(Spawns(s, a, name))
            && t.failed == before.failed + One(Loses(s, a, name))
            && t.uncounted == before.uncounted + One(EndsUncounted(s, a, name))
  {
    hide DoCreate, DoLaunch, DoRelaunch, DoStop, AfterEdit, AfterDelete, AfterStart, AfterTake;
  }

  /** On every run: the tally of a job counts the actions by which its starts were accepted, its processes
      launched, its queued starts lost, and its processes ended without a run, since it was loaded or
      created. */
  lemma {:induction false} TalliesCount(file: Db, actions: seq<Action>, name: string)
    requires After(file, actions).Some?
    ensures var t := TallyOf(After(file, actions).value, name);
            && t.accepted == AcceptedIn(file, actions, name)
            && t.launched == LaunchedIn(file, actions, name)
            && t.failed == LostIn(file, actions, name)
            && t.uncounted == UncountedIn(file, actions, name)
  {
    hide TallyOf, Do, Enabled, Accepts, Spawns, Loses, EndsUncounted, Renews;
    if actions == [] {
      BeginsAtZero(file, name);
    } else {
      var n := |actions| - 1;
      var s, a := After(file, actions[..n]).value, actions[n];
      TalliesCount(file, actions[..n], name);
      StepOrCreate(s, a, name);
    }
  }

  lemma {:induction false} StepOrCreate(s: State, a: Action, name: string)
    requires Enabled(s, a)
    ensures var before, t := TallyOf(s, name), TallyOf(Do(s, a), name);
            if Renews(s, a, name) then t.accepted == t.launched == t.failed == t.uncounted == 0
            else && t.accepted == before.accepted + One(Accepts(s, a, name))
                 && t.launched == before.launched + One(Spawns(s, a, name))
                 && t.failed == before.failed + One(Loses(s, a, name))
                 && t.uncounted == before.uncounted + One(EndsUncounted(s, a, name))
  {
    hide TallyOf, DoCreate, DoLaunch, DoRelaunch, DoStop, DoRequest, DoTake, DoMark, DoReap, DoClear, AfterEdit, AfterDelete;
    if a.Create? {
      CreateTallies(s, a, name);
    } else if a.Launch? || a.Relaunch? || a.Stop? {
      ProcessTallies(s, a, name);
    } else {
      OtherTallies(s, a, name);
    }
  }

  lemma {:induction false} BeginsAtZero(file: Db, name: string)
    ensures var t := TallyOf(Begin(file), name); t.accepted == t.launched == t.failed == t.uncounted == 0
  {
  }
}
