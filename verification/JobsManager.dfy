/** The jobs manager (source/kiwibes_jobs_manager.cpp) between two database calls of other threads: one
    start_job, stop_job or watcher round at a time. */
module JobsManager {
  import opened JobsDatabase
  import opened JobsStatistics
  import opened Wrappers

  lemma {:induction false} Element(s: set<int>) returns (e: int)
    requires s != {}
    ensures e in s
  {
    if forall x :: x !in s {
      assert false;
    }
    e :| e in s;
  }

  /** The process table. Whether a launch succeeds and which children have exited is for the operating
      system to say; the two constants describe the runs in which all of them do. */
  class Processes {
    /** The children that are still to be reaped. */
    var children: set<int>
    var next: int
    const everyLaunchSucceeds: bool
    const everyChildExits: bool

    ghost predicate Valid()
      reads this
    {
      next > 0 && forall pid | pid in children :: 0 < pid < next
    }

    constructor (everyLaunchSucceeds: bool, everyChildExits: bool)
      ensures Valid() && children == {}
      ensures this.everyLaunchSucceeds == everyLaunchSucceeds && this.everyChildExits == everyChildExits
    {
      children := {};
      next := 1;
      this.everyLaunchSucceeds := everyLaunchSucceeds;
      this.everyChildExits := everyChildExits;
    }

    /** fork and exec. */
    method Launch() returns (handle: int)
      requires Valid()
      modifies this
      ensures Valid()
      ensures handle == INVALID_PROCESS_HANDLE ==> children == old(children)
      ensures handle != INVALID_PROCESS_HANDLE ==> handle > 0 && handle !in old(children) && children == old(children) + {handle}
      ensures everyLaunchSucceeds ==> handle != INVALID_PROCESS_HANDLE
    {
      var fails: bool := *;
      if fails && !everyLaunchSucceeds {
        return INVALID_PROCESS_HANDLE;
      }
      handle := next;
      children := children + {handle};
      next := next + 1;
    }

    /** waitpid(-1, &wstatus, WNOHANG) */
    method Wait() returns (pid: int)
      requires Valid()
      modifies this
      ensures Valid()
      ensures 0 < pid ==> pid in old(children) && children == old(children) - {pid}
      ensures pid <= 0 ==> children == old(children)
      ensures everyChildExits && old(children) != {} ==> 0 < pid
    {
      var none: bool := *;
      if none && !everyChildExits {
        return 0;
      }
      var left := children;
      if left == {} {
        return -1;
      }
      ghost var one := Element(left);
      var some :| some in left;
      children := children - {some};
      pid := some;
    }
  }

  // ---------------------------------------------------------------------------------------------
  // The manager
  // ---------------------------------------------------------------------------------------------

  /** The processes of different jobs differ, and they are the children to be reaped. */
  predicate OwnProcesses(active: map<string, int>, children: set<int>) {
    && (forall m, n | m in active && n in active && m != n :: active[m] != active[n])
    && active.Values == children
  }

  /** A job the database calls running is active, and no queue is negative. The converse is not to be had:
      an active job may be unknown to the database, or called stopped. */
  predicate RunningActive(active: map<string, int>, db: Db) {
    && (forall name | name in db && db[name].status.Running? :: name in active)
    && (forall name | name in db :: db[name].pendingStart >= 0)
  }

  /** The run that ends when the process of a job is reaped at this time; none when the database did not
      call the job running. */
  function Ended(before: Job, stop: int): seq<Run> {
    if before.status.Running? then [Run(before.startTime, stop)] else []
  }

  /** What one known job went through when its process has exited: the run that ended is counted, and, if a
      start was queued, one start less is in the queue and, if that could be launched, it is running again
      since start. */
  predicate WentOn(before: Job, after: Job, relaunched: bool, stop: int, start: int) {
    && SameStatistics(after, if before.status.Running? then Finished(before, stop - before.startTime) else before)
    && after.pendingStart == (if before.pendingStart > 0 then before.pendingStart - 1 else 0)
    && (relaunched ==> before.pendingStart > 0)
    && (after.status.Running? <==> relaunched)
    && after.startTime == (if relaunched then start else if before.status.Running? then 0 else before.startTime)
    && after.program == before.program && after.schedule == before.schedule && after.maxRuntime == before.maxRuntime
  }

  /** The same of the whole database, which may not know the job. */
  predicate DbWentOn(before: Db, after: Db, name: string, relaunched: bool, stop: int, start: int) {
    if name in before then
      name in after && after == before[name := after[name]] && WentOn(before[name], after[name], relaunched, stop, start)
    else after == before && !relaunched
  }

  /** The times read from the clock while a job went on. */
  function Reads(before: Db, name: string, relaunched: bool, stop: int, start: int): seq<int> {
    (if name in before && before[name].status.Running? then [stop] else []) + (if relaunched then [start] else [])
  }

  lemma {:induction false} Forget(active: map<string, int>, children: set<int>, name: string)
    requires OwnProcesses(active, children) && name in active
    ensures OwnProcesses(active - {name}, children - {active[name]})
  {
    var rest := active - {name};
    forall pid ensures pid in rest.Values <==> pid in children - {active[name]} {
      if pid in children && pid != active[name] {
        var n :| n in active && active[n] == pid;
        assert n in rest && rest[n] == pid;
      }
    }
  }

  lemma {:induction false} Remember(active: map<string, int>, children: set<int>, name: string, handle: int)
    requires OwnProcesses(active, children) && name !in active && handle !in children
    ensures OwnProcesses(active[name := handle], children + {handle})
  {
    var more := active[name := handle];
    forall pid ensures pid in more.Values <==> pid in children + {handle} {
      if pid == handle {
        assert name in more && more[name] == handle;
      } else if pid in children {
        var n :| n in active && active[n] == pid;
        assert n in more && more[n] == pid;
      }
    }
  }

  /** The database after a job has ended and a queued start was taken. */
  lemma {:induction false} StopAndTake(db: Db, active: map<string, int>, name: string, now: int)
    requires RunningActive(active, db) && name in active
    ensures var t := AfterStop(db, name, now).0;
            var (u, left) := AfterTake(t, name);
            && RunningActive(active - {name}, u) && DbWentOn(db, u, name, false, now, now)
            && (0 <= left <==> name in db && db[name].pendingStart > 0)
  {
    hide NewAverage, NewSquares;
    if name in db {
      var u := AfterTake(AfterStop(db, name, now).0, name).0;
      assert u == db[name := u[name]];
    }
  }

  /** The database after such a start has led to a process. */
  lemma {:induction false} StartAgain(before: Db, db: Db, active: map<string, int>, name: string, handle: int, stop: int, now: int)
    requires RunningActive(active, db) && name !in active
    requires name in before && DbWentOn(before, db, name, false, stop, stop) && before[name].pendingStart > 0
    ensures var (t, error) := AfterStart(db, name, now);
            error.NoError? && RunningActive(active[name := handle], t) && DbWentOn(before, t, name, true, stop, now)
  {
    hide Finished;
  }

  lemma {:induction false} NotRunningYet(before: Db, db: Db, name: string, stop: int)
    requires name in before && DbWentOn(before, db, name, false, stop, stop)
    ensures name in db && db[name].status.Stopped?
  {
    hide Finished;
  }

  /** When nothing starts, the start time does not matter. */
  lemma {:induction false} NotLaunched(before: Db, db: Db, name: string, stop: int, start: int)
    requires DbWentOn(before, db, name, false, stop, stop)
    ensures DbWentOn(before, db, name, false, stop, start)
  {
    hide Finished;
  }

  class KiwibesJobsManager {
    const database: KiwibesDatabase
    const os: Processes
    var active: map<string, int>

    ghost predicate Valid()
      reads this, database, os
    {
      os.Valid() && OwnProcesses(active, os.children) && RunningActive(active, database.jobs)
    }

    constructor (database: KiwibesDatabase, os: Processes)
      requires os.Valid() && os.children == {}
      requires RunningActive(map[], database.jobs)
      ensures this.database == database && this.os == os && active == map[] && Valid()
    {
      this.database := database;
      this.os := os;
      active := map[];
    }

    /** What start_job and the watcher both do for a job with no process: launch one, and say so to the
        database. */
    method LaunchJob(name: string) returns (launched: bool)
      requires name in database.jobs && name !in active
      requires os.Valid() && OwnProcesses(active, os.children)
      modifies this, database, database.clock, os
      ensures os.Valid() && OwnProcesses(active, os.children) && (os.everyLaunchSucceeds ==> launched)
      ensures if launched then
                name in active && active == old(active)[name := active[name]]
                && active[name] > 0 && active[name] !in old(os.children)
                && os.children == old(os.children) + {active[name]}
                && database.jobs == AfterStart(old(database.jobs), name, database.clock.time).0
              else active == old(active) && os.children == old(os.children) && database.jobs == old(database.jobs)
      ensures launched && old(database.jobs)[name].status.Stopped? ==>
                name in database.jobs && database.jobs[name].status.Running?
                && database.jobs[name].startTime == database.clock.time
      ensures database.clock.readings
              == old(database.clock.readings)
                 + if launched && old(database.jobs)[name].status.Stopped? then [database.clock.time] else []
      ensures database.clock.steady ==> old(database.clock.time) <= database.clock.time
      ensures !launched ==> database.clock.time == old(database.clock.time)
    {
      hide OwnProcesses;
      var handle := os.Launch();
      launched := handle != INVALID_PROCESS_HANDLE;
      if launched {
        Remember(active, old(os.children), name, handle);
        active := active[name := handle];
        var ignored := database.JobStarted(name);
      }
    }

    /** start_job: queue the request when the job is active, otherwise launch it. */
    method StartJob(name: string) returns (error: Error)
      requires Valid()
      modifies this, database, database.clock, os
      ensures Valid()
      ensures name in old(active) ==>
                (database.jobs, error) == AfterRequest(old(database.jobs), name)
                && active == old(active) && os.children == old(os.children)
      ensures name !in old(database.jobs) ==>
                error == JobNameUnknown && active == old(active) && os.children == old(os.children)
                && database.jobs == old(database.jobs)
      ensures name in old(database.jobs) && name !in old(active) ==>
                if error == NoError then
                  name in active && active == old(active)[name := active[name]]
                  && active[name] > 0 && active[name] !in old(os.children)
                  && os.children == old(os.children) + {active[name]}
                  && database.jobs == AfterStart(old(database.jobs), name, database.clock.time).0
                  && database.jobs[name].status.Running? && database.jobs[name].startTime == database.clock.time
                  && database.clock.readings == old(database.clock.readings) + [database.clock.time]
                else error == ProcessLaunchFailed && active == old(active) && os.children == old(os.children)
                     && database.jobs == old(database.jobs)
    {
      error := NoError;
      if name in active {
        error := database.JobIncrStartRequests(name);
      } else {
        var job := database.GetJobDescription(name);
        if job.None? {
          error := JobNameUnknown;
        } else {
          var launched := LaunchJob(name);
          if !launched {
            error := ProcessLaunchFailed;
          }
        }
      }
    }

    /** stop_job: the process to be killed, which the watcher will reap. */
    method StopJob(name: string) returns (error: Error, killed: Option<int>)
      requires Valid()
      ensures name !in database.jobs ==> error == JobNameUnknown && killed == None
      ensures name in database.jobs && name !in active ==> error == JobIsNotRunning && killed == None
      ensures name in database.jobs && name in active ==>
                error == NoError && killed == Some(active[name]) && active[name] in os.children
    {
      error, killed := NoError, None;
      var job := database.GetJobDescription(name);
      if job.None? {
        error := JobNameUnknown;
      } else if name !in active {
        error := JobIsNotRunning;
      } else {
        killed := Some(active[name]);
        assert active[name] in active.Values;
      }
    }

    /** stop_all_jobs: every child that is still to be reaped is killed, and no other process. */
    method StopAllJobs() returns (killed: set<int>)
      requires Valid()
      ensures killed == os.children
    {
      killed := {};
      var names := active.Keys;
      while names != {}
        invariant names <= active.Keys
        invariant killed <= active.Values
        invariant forall name | name in active && name !in names :: active[name] in killed
        decreases |names|
      {
        var name :| name in names;
        killed := killed + {active[name]};
        names := names - {name};
      }
    }

    /** The search through active_jobs for a process. */
    method FindByPid(pid: int) returns (name: string)
      requires pid in active.Values
      ensures name in active && active[name] == pid
    {
      var names := active.Keys;
      while true
        invariant names <= active.Keys
        invariant exists n :: n in names && n in active && active[n] == pid
        decreases |names|
      {
        name :| name in names;
        if active[name] == pid {
          return;
        }
        names := names - {name};
      }
    }

    /** The database learns that a job has ended, the job leaves active_jobs, and a queued start is taken. */
    method EndJob(name: string) returns (left: int)
      requires name in active && RunningActive(active, database.jobs)
      modifies this`active, database, database.clock
      ensures active == old(active) - {name} && RunningActive(active, database.jobs)
      ensures DbWentOn(old(database.jobs), database.jobs, name, false, database.clock.time, database.clock.time)
      ensures 0 <= left <==> name in old(database.jobs) && old(database.jobs)[name].pendingStart > 0
      ensures database.clock.readings
              == old(database.clock.readings)
                 + Reads(old(database.jobs), name, false, database.clock.time, database.clock.time)
      ensures database.clock.steady ==> old(database.clock.time) <= database.clock.time
    {
      var ignored := database.JobStopped(name);
      StopAndTake(old(database.jobs), active, name, database.clock.time);
      hide RunningActive, DbWentOn, AfterTake;
      active := active - {name};
      left := database.JobDecrStartRequests(name);
    }

    /** A job has ended, at the time stop; if a start of it is queued, it is launched again, at the time
        start. */
    method GoOn(name: string) returns (relaunched: bool, ghost stop: int, ghost start: int)
      requires name in active && os.Valid() && RunningActive(active, database.jobs)
      requires OwnProcesses(active - {name}, os.children)
      modifies this, database, database.clock, os
      ensures Valid()
      ensures DbWentOn(old(database.jobs), database.jobs, name, relaunched, stop, start)
      ensures os.everyLaunchSucceeds && name in old(database.jobs) && old(database.jobs)[name].pendingStart > 0 ==> relaunched
      ensures active.Keys == if relaunched then old(active.Keys) else old(active.Keys) - {name}
      ensures |os.children| == old(|os.children|) + if relaunched then 1 else 0
      ensures database.clock.readings
              == old(database.clock.readings) + Reads(old(database.jobs), name, relaunched, stop, start)
      ensures start == database.clock.time && (database.clock.steady ==> old(database.clock.time) <= stop <= start)
    {
      hide OwnProcesses, RunningActive, WentOn, AfterStart;
      ghost var was := database.jobs;
      relaunched := false;
      var left := EndJob(name);
      stop, start := database.clock.time, database.clock.time;
      if 0 <= left {
        relaunched, start := StartQueued(name, was, stop);
      }
    }

    /** A queued start was taken: the job is launched again, if the database still knows it. */
    method StartQueued(name: string, ghost was: Db, ghost stop: int) returns (relaunched: bool, ghost start: int)
      requires name !in active && os.Valid() && OwnProcesses(active, os.children) && RunningActive(active, database.jobs)
      requires name in was && was[name].pendingStart > 0 && DbWentOn(was, database.jobs, name, false, stop, stop)
      modifies this, database, database.clock, os
      ensures Valid() && DbWentOn(was, database.jobs, name, relaunched, stop, start)
      ensures os.everyLaunchSucceeds ==> relaunched
      ensures active.Keys == old(active.Keys) + if relaunched then {name} else {}
      ensures |os.children| == old(|os.children|) + if relaunched then 1 else 0
      ensures database.clock.readings == old(database.clock.readings) + if relaunched then [start] else []
      ensures start == database.clock.time && (database.clock.steady ==> old(database.clock.time) <= start)
    {
      hide OwnProcesses, RunningActive, WentOn;
      relaunched, start := false, database.clock.time;
      ghost var before, taken := active, database.jobs;
      var job := database.GetJobDescription(name);
      if job.Some? {
        assert taken[name].status.Stopped? by { NotRunningYet(was, taken, name, stop); }
        relaunched := LaunchJob(name);
        start := database.clock.time;
        if relaunched {
          StartAgain(was, taken, before, name, active[name], stop, start);
        } else {
          NotLaunched(was, taken, name, stop, start);
        }
      }
    }

    /** The child with this process id was reaped: its job is found and goes on. */
    method HandleExit(pid: int, ghost was: Outset, ghost runs: map<string, seq<Run>>) returns (ghost more: map<string, seq<Run>>)
      requires os.Valid() && RunningActive(active, database.jobs)
      requires pid in active.Values && OwnProcesses(active, os.children + {pid}) && pid !in os.children
      requires Progress(was.db, was.active, database.jobs, active, os.everyLaunchSucceeds)
      requires was.read <= database.clock.readings && (was.ahead ==> database.clock.steady)
      requires Counted(was, database.jobs, runs, database.clock.readings[|was.read|..], database.clock.time)
      modifies this, database, database.clock, os
      ensures Valid() && Progress(was.db, was.active, database.jobs, active, os.everyLaunchSucceeds)
      ensures AllQueued(database.jobs) + |os.children| <= AllQueued(old(database.jobs)) + |old(os.children)|
      ensures was.read <= database.clock.readings
      ensures Counted(was, database.jobs, more, database.clock.readings[|was.read|..], database.clock.time)
    {
      hide OwnProcesses, RunningActive, Progress, DbWentOn, Counted;
      ghost var before, went, left := database.jobs, active, os.children;
      ghost var read, time := database.clock.readings, database.clock.time;
      var name := FindByPid(pid);
      Forget(active, left + {pid}, name);
      assert left + {pid} - {pid} == left;
      var relaunched: bool;
      ghost var stop: int, start: int;
      relaunched, stop, start := GoOn(name);
      RoundGoesOn(was.db, was.active, before, went, database.jobs, active, name, relaunched, stop, start, os.everyLaunchSucceeds);
      QueuedLess(before, database.jobs, name, relaunched, stop, start);
      ghost var latest := Reads(before, name, relaunched, stop, start);
      assert database.clock.readings[|was.read|..] == read[|was.read|..] + latest;
      StillKnown(was, before, went, name, os.everyLaunchSucceeds);
      more := MoreCounted(was, before, database.jobs, name, relaunched, stop, start, runs, read[|was.read|..], time);
    }

    /** One watcher round: every child that has exited is reaped, and its job goes on. The queued starts
        and the children to be reaped together get fewer each time. The runs that it counts for each job it
        gives as a result, with the times the clock showed. When every child exits and every launch
        succeeds, no job is left active, and each known one that was active has run once for every start
        it had queued, and once for itself exactly if the database called it running. */
    method Reap() returns (ghost runs: map<string, seq<Run>>)
      requires Valid()
      modifies this, database, database.clock, os
      ensures Valid()
      ensures forall name :: name in database.jobs <==> name in old(database.jobs)
      ensures forall name | name in database.jobs && name !in old(active) ::
                name !in active && database.jobs[name] == old(database.jobs)[name]
      ensures old(database.clock.readings) <= database.clock.readings
      ensures forall name | name in old(active) && name in old(database.jobs) ::
                && name in runs
                && Counts(old(database.jobs)[name], database.jobs[name], runs[name],
                          database.clock.readings[|old(database.clock.readings)|..])
                && (database.clock.steady && old(NoneAhead(database.jobs, database.clock.time)) ==>
                      InTime(database.jobs[name], runs[name], database.clock.time))
      ensures os.everyLaunchSucceeds && os.everyChildExits ==>
                active == map[] && forall name | name in old(active) && name in old(database.jobs) ::
                  && database.jobs[name].pendingStart == 0
                  && database.jobs[name].nbrRuns
                     == old(database.jobs)[name].nbrRuns + One(old(database.jobs)[name].status.Running?)
                        + old(database.jobs)[name].pendingStart
    {
      hide OwnProcesses, RunningActive, Progress, WentOn, Ran, Counts, InTime, Counted, NoneAhead;
      ghost var was := Outset(database.jobs, active, database.clock.readings,
                              database.clock.steady && NoneAhead(database.jobs, database.clock.time));
      RoundBegins(was.db, was.active, os.everyLaunchSucceeds);
      runs := NothingCounted(was, database.clock.time);
      assert database.clock.readings[|was.read|..] == [];
      runs := ReapAll(was, runs);
      RoundEnds(was.db, was.active, database.jobs, active, os.children, os.everyLaunchSucceeds);
      AllCounted(was, database.jobs, runs, database.clock.readings[|was.read|..], database.clock.time);
    }

    /** The loop of a round. */
    method ReapAll(ghost was: Outset, ghost before: map<string, seq<Run>>) returns (ghost runs: map<string, seq<Run>>)
      requires Valid() && Progress(was.db, was.active, database.jobs, active, os.everyLaunchSucceeds)
      requires was.read <= database.clock.readings && (was.ahead ==> database.clock.steady)
      requires Counted(was, database.jobs, before, database.clock.readings[|was.read|..], database.clock.time)
      modifies this, database, database.clock, os
      ensures Valid() && Progress(was.db, was.active, database.jobs, active, os.everyLaunchSucceeds)
      ensures was.read <= database.clock.readings
      ensures Counted(was, database.jobs, runs, database.clock.readings[|was.read|..], database.clock.time)
      ensures os.everyChildExits ==> os.children == {}
    {
      hide OwnProcesses, RunningActive, Progress, WentOn, Ran, Counts, InTime, Counted;
      runs := before;
      var pid := os.Wait();
      Runs(active, old(os.children));
      assert 0 < pid ==> os.children + {pid} == old(os.children);
      while 0 < pid
        invariant os.Valid() && RunningActive(active, database.jobs)
        invariant Progress(was.db, was.active, database.jobs, active, os.everyLaunchSucceeds)
        invariant 0 < pid ==> pid in active.Values && pid !in os.children && OwnProcesses(active, os.children + {pid})
        invariant pid <= 0 ==> OwnProcesses(active, os.children)
        invariant pid <= 0 && os.everyChildExits ==> os.children == {}
        invariant was.read <= database.clock.readings
        invariant Counted(was, database.jobs, runs, database.clock.readings[|was.read|..], database.clock.time)
        decreases AllQueued(database.jobs) + |os.children| + if 0 < pid then 1 else 0
      {
        runs := HandleExit(pid, was, runs);
        Runs(active, os.children);
        ghost var children := os.children;
        pid := os.Wait();
        assert 0 < pid ==> os.children + {pid} == children;
      }
    }
  }

  // ---------------------------------------------------------------------------------------------
  // The runs that a round counts
  // ---------------------------------------------------------------------------------------------

  /** How things stood when a round began; ahead says that the clock never goes back, and that no running job
      started later than it showed. */
  datatype Outset = Outset(db: Db, active: map<string, int>, read: seq<int>, ahead: bool)

  predicate NoneAhead(db: Db, time: int) {
    forall name | name in db && db[name].status.Running? :: db[name].startTime <= time
  }

  /** The run that was on goes back to its own start time, every other began at a time that was read. */
  predicate BeganAt(before: Job, i: nat, start: int, readings: seq<int>) {
    if i == 0 && before.status.Running? then start == before.startTime else start in readings
  }

  /** These runs were counted for a job since: its statistics are those of the runs before and of these, and
      each ended at a time that was read from the clock. */
  ghost predicate Counts(before: Job, now: Job, runs: seq<Run>, readings: seq<int>) {
    && now.nbrRuns == before.nbrRuns + |runs|
    && (forall earlier :: IsStatistics(before, earlier) ==> IsStatistics(now, earlier + runs))
    && (forall i | 0 <= i < |runs| :: runs[i].stop in readings && BeganAt(before, i, runs[i].start, readings))
    && (now.status.Running? ==> BeganAt(before, |runs|, now.startTime, readings))
    && (before.status.Running? && runs == [] ==> now.status.Running?)
  }

  /** No run ended before it began. */
  predicate InTime(now: Job, runs: seq<Run>, time: int) {
    && (forall i | 0 <= i < |runs| :: runs[i].start <= runs[i].stop)
    && (now.status.Running? ==> now.startTime <= time)
  }

  ghost predicate Counted(was: Outset, now: Db, runs: map<string, seq<Run>>, readings: seq<int>, time: int) {
    forall name | name in was.active && name in was.db && name in now ::
      && name in runs && Counts(was.db[name], now[name], runs[name], readings)
      && (was.ahead ==> InTime(now[name], runs[name], time))
  }

  lemma {:induction false} NothingCounted(was: Outset, time: int) returns (runs: map<string, seq<Run>>)
    requires was.ahead ==> NoneAhead(was.db, time)
    ensures Counted(was, was.db, runs, [], time)
  {
    hide IsStatistics;
    runs := map name | name in was.active :: [];
    assert forall earlier: seq<Run> :: earlier + [] == earlier;
  }

  lemma {:induction false} AllCounted(was: Outset, now: Db, runs: map<string, seq<Run>>, readings: seq<int>, time: int)
    requires Counted(was, now, runs, readings, time) && forall name :: name in now <==> name in was.db
    ensures forall name | name in was.active && name in was.db ::
              && name in runs && Counts(was.db[name], now[name], runs[name], readings)
              && (was.ahead ==> InTime(now[name], runs[name], time))
  {
  }

  /** One run more, if one ended, for a job that went on. */
  lemma {:induction false} CountsOn(before: Job, now: Job, next: Job, runs: seq<Run>, readings: seq<int>,
                                    relaunched: bool, stop: int, start: int, latest: seq<int>)
    requires Counts(before, now, runs, readings) && WentOn(now, next, relaunched, stop, start)
    requires (now.status.Running? ==> stop in latest) && (relaunched ==> start in latest)
    ensures Counts(before, next, runs + Ended(now, stop), readings + latest)
  {
    hide IsStatistics, Finished;
    var more := runs + Ended(now, stop);
    forall earlier | IsStatistics(before, earlier) ensures IsStatistics(next, earlier + more) {
      assert IsStatistics(now, earlier + runs);
      if now.status.Running? {
        FinishKeepsStatistics(now, earlier + runs, Run(now.startTime, stop));
        SameIsStatistics(next, Finished(now, stop - now.startTime), earlier + runs + Ended(now, stop));
      } else {
        SameIsStatistics(next, now, earlier + runs);
        assert earlier + runs + [] == earlier + runs;
      }
      assert earlier + runs + Ended(now, stop) == earlier + more;
    }
    FinishCounts(now, stop - now.startTime);
  }

  lemma {:induction false} FinishCounts(job: Job, runtime: int)
    ensures Finished(job, runtime).nbrRuns == job.nbrRuns + 1
  {
  }

  lemma {:induction false} CountsLater(before: Job, now: Job, runs: seq<Run>, readings: seq<int>, latest: seq<int>)
    requires Counts(before, now, runs, readings)
    ensures Counts(before, now, runs, readings + latest)
  {
    hide IsStatistics;
  }

  lemma {:induction false} MoreCounted(was: Outset, now: Db, next: Db, name: string, relaunched: bool, stop: int, start: int,
                                       runs: map<string, seq<Run>>, readings: seq<int>, time: int)
      returns (more: map<string, seq<Run>>)
    requires Counted(was, now, runs, readings, time) && DbWentOn(now, next, name, relaunched, stop, start)
    requires name in now ==> name in was.db && name in was.active
    requires was.ahead ==> time <= stop <= start
    ensures Counted(was, next, more, readings + Reads(now, name, relaunched, stop, start), start)
  {
    hide Counts, Finished, Reads;
    var latest := Reads(now, name, relaunched, stop, start);
    more := if name in now then runs[name := runs[name] + Ended(now[name], stop)] else runs;
    forall n | n in was.active && n in was.db && n in next
      ensures n in more && Counts(was.db[n], next[n], more[n], readings + latest)
      ensures was.ahead ==> InTime(next[n], more[n], start)
    {
      if n == name {
        HasRead(now, name, relaunched, stop, start);
        CountsOn(was.db[n], now[n], next[n], runs[n], readings, relaunched, stop, start, latest);
      } else {
        CountsLater(was.db[n], now[n], runs[n], readings, latest);
      }
    }
  }

  lemma {:induction false} HasRead(before: Db, name: string, relaunched: bool, stop: int, start: int)
    ensures name in before && before[name].status.Running? ==> stop in Reads(before, name, relaunched, stop, start)
    ensures relaunched ==> start in Reads(before, name, relaunched, stop, start)
  {
  }

  lemma {:induction false} StillKnown(was: Outset, now: Db, running: map<string, int>, name: string, sure: bool)
    requires Progress(was.db, was.active, now, running, sure) && name in running
    ensures name in now ==> name in was.db && name in was.active
  {
  }

  // ---------------------------------------------------------------------------------------------
  // How a round ends
  // ---------------------------------------------------------------------------------------------

  /** A watcher round so far: the jobs that were active have gone through runs, the others through nothing. */
  ghost predicate Progress(db: Db, active: map<string, int>, now: Db, running: map<string, int>, everyLaunchSucceeds: bool) {
    && (forall name :: name in now <==> name in db)
    && (forall name | name in db && name !in active :: name !in running && now[name] == db[name])
    && (everyLaunchSucceeds ==> forall name | name in active && name in db :: Ran(db[name], now[name], name in running))
  }

  /** The runs made and those still to be made add up; a job that rests has none left to make. */
  predicate Ran(before: Job, now: Job, active: bool) {
    && now.nbrRuns + now.pendingStart + One(now.status.Running?)
       == before.nbrRuns + before.pendingStart + One(before.status.Running?)
    && (active || (now.pendingStart == 0 && now.status.Stopped?))
  }

  lemma {:induction false} RoundBegins(db: Db, active: map<string, int>, sure: bool)
    requires RunningActive(active, db)
    ensures Progress(db, active, db, active, sure)
  {
  }

  lemma {:induction false} RoundGoesOn(db: Db, active: map<string, int>, now: Db, running: map<string, int>,
                                       next: Db, runs: map<string, int>, name: string, relaunched: bool,
                                       stop: int, start: int, sure: bool)
    requires Progress(db, active, now, running, sure) && RunningActive(running, now) && name in running
    requires DbWentOn(now, next, name, relaunched, stop, start)
    requires sure && name in now && now[name].pendingStart > 0 ==> relaunched
    requires runs.Keys == if relaunched then running.Keys else running.Keys - {name}
    ensures Progress(db, active, next, runs, sure)
  {
    hide WentOn, Ran;
    forall n | n in active && n in db && sure ensures Ran(db[n], next[n], n in runs) {
      if n == name {
        RanOn(db[n], now[n], next[n], relaunched, stop, start);
      }
    }
  }

  lemma {:induction false} RanOn(before: Job, now: Job, next: Job, relaunched: bool, stop: int, start: int)
    requires Ran(before, now, true) && WentOn(now, next, relaunched, stop, start)
    requires now.pendingStart >= 0 && (now.pendingStart > 0 ==> relaunched)
    ensures Ran(before, next, relaunched)
  {
  }

  lemma {:induction false} QueuedLess(before: Db, after: Db, name: string, relaunched: bool, stop: int, start: int)
    requires DbWentOn(before, after, name, relaunched, stop, start)
    ensures AllQueued(after) + One(relaunched) <= AllQueued(before)
  {
    hide AllQueued;
    if name in before {
      AllQueuedUpdate(before, name, after[name]);
    }
  }

  lemma {:induction false} Runs(active: map<string, int>, children: set<int>)
    requires OwnProcesses(active, children)
    ensures forall pid | pid in children :: pid in active.Values
  {
  }

  lemma {:induction false} HasProcess(active: map<string, int>, children: set<int>, name: string)
    requires OwnProcesses(active, children) && name in active
    ensures children != {}
  {
    assert active[name] in active.Values;
  }

  lemma {:induction false} RoundEnds(db: Db, active: map<string, int>, now: Db, running: map<string, int>,
                                     children: set<int>, sure: bool)
    requires Progress(db, active, now, running, sure) && RunningActive(active, db) && OwnProcesses(running, children)
    ensures forall name :: name in now <==> name in db
    ensures forall name | name in now && name !in active :: name !in running && now[name] == db[name]
    ensures sure && children == {} ==>
              running == map[] && forall name | name in active && name in db ::
                && now[name].pendingStart == 0
                && now[name].nbrRuns == db[name].nbrRuns + One(db[name].status.Running?) + db[name].pendingStart
  {
    if children == {} {
      forall name ensures name !in running {
        if name in running {
          HasProcess(running, children, name);
        }
      }
    }
    if sure && children == {} {
      forall name | name in active && name in db
        ensures now[name].pendingStart == 0
        ensures now[name].nbrRuns == db[name].nbrRuns + One(db[name].status.Running?) + db[name].pendingStart
      {
        assert Ran(db[name], now[name], false);
      }
    }
  }
}
