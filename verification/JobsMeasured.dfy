/** The runtime statistics over whole runs of the jobs protocol (source/kiwibes_database.cpp:180-195). */
module JobsMeasured {
  import opened JobsDatabase
  import opened JobsProtocol
  import opened JobsStatistics
  import opened Wrappers

  /** The record of a job when it was loaded or created, and the runs that were counted since. */
  datatype Measured = Measured(created: bool, first: Job, runs: seq<Run>)

  /** create_job measures anew; job_stopped counts one run more when it reports no error. */
  function Next(m: Option<Measured>, s: State, a: Action, name: string): Option<Measured>
    requires Enabled(s, a)
  {
    if a.Create? && a.name == name && AfterCreate(s.db, name, a.details).1.NoError? then
      Some(Measured(true, AfterCreate(s.db, name, a.details).0[name], []))
    else if a.Stop? && s.round.name == name && AfterStop(s.db, name, a.now).1.NoError? && m.Some? then
      Some(m.value.(runs := m.value.runs + [Run(s.db[name].startTime, a.now)]))
    else m
  }

  /** What is measured of a job after these actions. A job begins with the record that was loaded for it,
      or with one of no runs. */
  function Since(file: Db, actions: seq<Action>, name: string): (m: Option<Measured>)
    requires After(file, actions).Some?
    ensures m.Some? && m.value.created ==> IsStatistics(m.value.first, [])
    ensures m.Some? && !m.value.created ==> name in file && m.value.first == AfterLoad(file)[name]
  {
    if actions == [] then
      if name in file then Some(Measured(false, AfterLoad(file)[name], [])) else None
    else
      var n := |actions| - 1;
      Next(Since(file, actions[..n], name), After(file, actions[..n]).value, actions[n], name)
  }

  /** If the record a job began with is that of these earlier runs, its record now is that of those and
      of the runs counted since. */
  predicate Timed(s: State, m: Option<Measured>, name: string, earlier: seq<Run>) {
    name in s.db ==>
      && m.Some?
      && (IsStatistics(m.value.first, earlier) ==> IsStatistics(s.db[name], earlier + m.value.runs))
  }

  lemma {:induction false} StopKeepsTimed(s: State, m: Option<Measured>, now: int, name: string, earlier: seq<Run>)
    requires s.round.Stops? && Timed(s, m, name, earlier)
    ensures Timed(DoStop(s, s.round.name, now), Next(m, s, Stop(now), name), name, earlier)
  {
    hide IsStatistics, Finished;
    if name in s.db && s.round.name == name && s.db[name].status.Running? {
      if IsStatistics(m.value.first, earlier) {
        var last := Run(s.db[name].startTime, now);
        FinishKeepsStatistics(s.db[name], earlier + m.value.runs, last);
        assert earlier + m.value.runs + [last] == earlier + (m.value.runs + [last]);
      }
    }
  }

  lemma {:induction false} CreateKeepsTimed(s: State, m: Option<Measured>, a: Action, name: string, earlier: seq<Run>)
    requires a.Create? && Timed(s, m, name, earlier)
    ensures Timed(DoCreate(s, a.name, a.details), Next(m, s, a, name), name, earlier)
  {
    hide IsStatistics;
    assert earlier + [] == earlier;
  }

  /** Every other call leaves the statistics alone. */
  lemma {:induction false} OthersKeepTimed(s: State, m: Option<Measured>, a: Action, name: string, earlier: seq<Run>)
    requires Enabled(s, a) && !a.Stop? && !a.Create? && Timed(s, m, name, earlier)
    ensures Timed(Do(s, a), m, name, earlier)
  {
    hide IsStatistics, Finished, DoStop, DoCreate;
    var t := Do(s, a);
    if name in t.db {
      assert name in s.db && SameStatistics(s.db[name], t.db[name]);
      SameIsStatistics(s.db[name], t.db[name], earlier + m.value.runs);
    }
  }

  lemma {:induction false} StepKeepsTimed(s: State, m: Option<Measured>, a: Action, name: string, earlier: seq<Run>)
    requires Enabled(s, a) && Timed(s, m, name, earlier)
    ensures Timed(Do(s, a), Next(m, s, a, name), name, earlier)
  {
    hide Timed, DoStop, DoCreate, AfterCreate, AfterStop;
    if a.Stop? {
      StopKeepsTimed(s, m, a.now, name, earlier);
    } else if a.Create? {
      CreateKeepsTimed(s, m, a, name, earlier);
    } else {
      OthersKeepTimed(s, m, a, name, earlier);
    }
  }

  lemma {:induction false} BeginIsTimed(file: Db, name: string, earlier: seq<Run>)
    ensures Timed(Begin(file), Since(file, [], name), name, earlier)
  {
    hide IsStatistics;
    assert earlier + [] == earlier;
  }

  lemma {:induction false} AfterIsTimed(file: Db, actions: seq<Action>, name: string, earlier: seq<Run>)
    requires After(file, actions).Some?
    ensures Timed(After(file, actions).value, Since(file, actions, name), name, earlier)
  {
    hide Timed, Next, Do, Enabled;
    if actions == [] {
      BeginIsTimed(file, name, earlier);
    } else {
      var n := |actions| - 1;
      AfterIsTimed(file, actions[..n], name, earlier);
      StepKeepsTimed(After(file, actions[..n]).value, Since(file, actions[..n], name), actions[n], name, earlier);
    }
  }

  /** On every run, whatever lands in between: the statistics of a job that was created are those of the
      runs counted since, and the statistics of one that was loaded with those of earlier runs are those
      of the earlier and the new ones. */
  lemma {:induction false} StatisticsOfEveryRun(file: Db, actions: seq<Action>, name: string, earlier: seq<Run>)
    requires After(file, actions).Some? && name in After(file, actions).value.db
    ensures var job, m := After(file, actions).value.db[name], Since(file, actions, name);
            && m.Some?
            && (m.value.created ==> IsStatistics(job, m.value.runs))
            && (!m.value.created ==> name in file)
            && (!m.value.created && IsStatistics(AfterLoad(file)[name], earlier) ==>
                  IsStatistics(job, earlier + m.value.runs))
  {
    hide IsStatistics;
    AfterIsTimed(file, actions, name, earlier);
    AfterIsTimed(file, actions, name, []);
    var m := Since(file, actions, name);
    assert [] + m.value.runs == m.value.runs;
  }
}
