/** The database of jobs (source/kiwibes_database.cpp): a record per job name, and what each call does
    to it. The file the database is saved to is not modelled. */
module JobsDatabase {
  import opened Wrappers

  datatype Status = Running | Stopped

  datatype Job = Job(
    program: seq<string>, schedule: string, maxRuntime: int,
    avgRuntime: real, varRuntime: real, status: Status, pendingStart: int, startTime: int, nbrRuns: nat)

  type Db = map<string, Job>

  datatype Error = NoError | JobNameUnknown | JobNameTaken | JobDescriptionInvalid | JobIsRunning | JobIsNotRunning | ProcessLaunchFailed | NoDatabaseFile | JsonParseFail

  /** What launching a process gives when it fails. */
  const INVALID_PROCESS_HANDLE := -1

  /** The properties a request to create or edit a job gives. */
  datatype Details = Details(program: Option<seq<string>>, schedule: Option<string>, maxRuntime: Option<int>)

  /** The fields a record of the database file must have. */
  const EXPECTED := ["program", "max-runtime", "avg-runtime", "var-runtime", "schedule", "status",
                     "start-time", "nbr-runs", "pending-start"]

  /** A record of the file: the names of its fields, and their values. The value of a missing one means
      nothing. */
  datatype Record = Record(fields: set<string>, job: Job)

  datatype File = Missing | Malformed | Parsed(records: map<string, Record>)

  predicate IsComplete(record: Record) {
    forall field | field in EXPECTED :: field in record.fields
  }

  predicate AllComplete(records: map<string, Record>) {
    forall name | name in records :: IsComplete(records[name])
  }

  function Saved(records: map<string, Record>): Db {
    map name | name in records :: records[name].job
  }

  /** One run: when job_started and job_stopped were called. */
  datatype Run = Run(start: int, stop: int) {
    function Time(): real { (stop - start) as real }
  }

  function One(b: bool): nat {
    if b then 1 else 0
  }

  function NewAverage(avg: real, runs: nat, runtime: int): real
    requires runs > 0
  {
    avg + (runtime as real - avg) / runs as real
  }

  function NewSquares(squares: real, avg: real, newAvg: real, runtime: int): real {
    squares + (runtime as real - avg) * (runtime as real - newAvg)
  }

  /** The statistics after one more run that took this long. */
  function Finished(job: Job, runtime: int): Job {
    var runs := job.nbrRuns + 1;
    var avg := NewAverage(job.avgRuntime, runs, runtime);
    job.(status := Stopped, startTime := 0, nbrRuns := runs, avgRuntime := avg,
         varRuntime := NewSquares(job.varRuntime, job.avgRuntime, avg, runtime))
  }

  /** A job that was never run. */
  function Fresh(program: seq<string>, schedule: string, maxRuntime: int): Job {
    Job(program, schedule, maxRuntime, 0.0, 0.0, Stopped, 0, 0, 0)
  }

  /** A job that is not running and has no start queued. */
  function AtRest(job: Job): Job {
    job.(status := Stopped, startTime := 0, pendingStart := 0)
  }

  function AfterLoad(db: Db): Db {
    map name | name in db :: AtRest(db[name])
  }

  function AfterStart(db: Db, name: string, now: int): (Db, Error) {
    if name !in db then (db, JobNameUnknown)
    else if db[name].status.Running? then (db, JobIsRunning)
    else (db[name := db[name].(status := Running, startTime := now)], NoError)
  }

  function AfterStop(db: Db, name: string, now: int): (Db, Error) {
    if name !in db then (db, JobNameUnknown)
    else if db[name].status.Stopped? then (db, JobIsNotRunning)
    else (db[name := Finished(db[name], now - db[name].startTime)], NoError)
  }

  function AfterRequest(db: Db, name: string): (Db, Error) {
    if name !in db then (db, JobNameUnknown)
    else (db[name := db[name].(pendingStart := db[name].pendingStart + 1)], NoError)
  }

  /** A queued request is taken off, and the number of those left returned; -1 when there was none. */
  function AfterTake(db: Db, name: string): (Db, int) {
    if name in db && 0 < db[name].pendingStart then
      (db[name := db[name].(pendingStart := db[name].pendingStart - 1)], db[name].pendingStart - 1)
    else (db, -1)
  }

  function AfterClear(db: Db, name: string): (Db, Error) {
    if name !in db then (db, JobNameUnknown) else (db[name := db[name].(pendingStart := 0)], NoError)
  }

  function AfterDelete(db: Db, name: string): (Db, Error) {
    if name !in db then (db, JobNameUnknown)
    else if db[name].status.Running? then (db, JobIsRunning)
    else (db - {name}, NoError)
  }

  function AfterCreate(db: Db, name: string, d: Details): (Db, Error) {
    if d.program.None? || d.schedule.None? || d.maxRuntime.None? then (db, JobDescriptionInvalid)
    else if name in db then (db, JobNameTaken)
    else (db[name := Fresh(d.program.value, d.schedule.value, d.maxRuntime.value)], NoError)
  }

  function Edited(job: Job, d: Details): Job {
    job.(program := if d.program.Some? then d.program.value else job.program,
         schedule := if d.schedule.Some? then d.schedule.value else job.schedule,
         maxRuntime := if d.maxRuntime.Some? then d.maxRuntime.value else job.maxRuntime)
  }

  function AfterEdit(db: Db, name: string, d: Details): (Db, Error) {
    if name !in db then (db, JobNameUnknown)
    else if db[name].status.Running? then (db, JobIsRunning)
    else (db[name := Edited(db[name], d)], NoError)
  }

  // ---------------------------------------------------------------------------------------------
  // How many starts are queued
  // ---------------------------------------------------------------------------------------------

  function Queued(job: Job): nat {
    if job.pendingStart > 0 then job.pendingStart else 0
  }

  ghost function AllQueued(db: Db): nat
    decreases |db.Keys|
  {
    if db == map[] then 0
    else
      var name :| name in db;
      Queued(db[name]) + AllQueued(db - {name})
  }

  lemma {:induction false} AllQueuedWithout(db: Db, name: string)
    requires name in db
    ensures AllQueued(db) == Queued(db[name]) + AllQueued(db - {name})
    decreases |db.Keys|
  {
    var first :| first in db && AllQueued(db) == Queued(db[first]) + AllQueued(db - {first});
    if first != name {
      AllQueuedWithout(db - {first}, name);
      AllQueuedWithout(db - {name}, first);
      assert db - {first} - {name} == db - {name} - {first};
    }
  }

  lemma {:induction false} AllQueuedUpdate(db: Db, name: string, job: Job)
    requires name in db
    ensures AllQueued(db[name := job]) == AllQueued(db) - Queued(db[name]) + Queued(job)
  {
    AllQueuedWithout(db, name);
    AllQueuedWithout(db[name := job], name);
    assert db[name := job] - {name} == db - {name};
  }

  // ---------------------------------------------------------------------------------------------
  // What create_job and edit_job are for
  // ---------------------------------------------------------------------------------------------

  /** An edit fails for a job that is unknown or running, and then changes nothing. Otherwise each property
      that is given has the given value, and everything else in the database is as before. */
  predicate Edits(before: Db, after: Db, error: Error, name: string, d: Details) {
    && error == (if name !in before then JobNameUnknown else if before[name].status.Running? then JobIsRunning else NoError)
    && (!error.NoError? ==> after == before)
    && (error.NoError? ==>
          && after.Keys == before.Keys
          && (forall other | other in before && other != name :: after[other] == before[other])
          && (var old_, job := before[name], after[name];
              && (d.program.Some? ==> job.program == d.program.value)
              && (d.program.None? ==> job.program == old_.program)
              && (d.schedule.Some? ==> job.schedule == d.schedule.value)
              && (d.schedule.None? ==> job.schedule == old_.schedule)
              && (d.maxRuntime.Some? ==> job.maxRuntime == d.maxRuntime.value)
              && (d.maxRuntime.None? ==> job.maxRuntime == old_.maxRuntime)
              && job.avgRuntime == old_.avgRuntime && job.varRuntime == old_.varRuntime && job.nbrRuns == old_.nbrRuns
              && job.status == old_.status && job.pendingStart == old_.pendingStart && job.startTime == old_.startTime))
  }

  /** A creation fails when a property is missing or the name is taken, and then changes nothing. Otherwise
      there is one job more, with these three properties, not running, without runs and queued starts. */
  predicate Creates(before: Db, after: Db, error: Error, name: string, d: Details) {
    && error == (if d.program.None? || d.schedule.None? || d.maxRuntime.None? then JobDescriptionInvalid
                 else if name in before then JobNameTaken else NoError)
    && (!error.NoError? ==> after == before)
    && (error.NoError? ==>
          && name !in before && after.Keys == before.Keys + {name}
          && (forall other | other in before :: after[other] == before[other])
          && var job := after[name];
             && d.program == Some(job.program) && d.schedule == Some(job.schedule) && d.maxRuntime == Some(job.maxRuntime)
             && job.avgRuntime == job.varRuntime == 0.0 && job.nbrRuns == 0
             && job.status.Stopped? && job.pendingStart == job.startTime == 0)
  }

  lemma {:induction false} AfterEditEdits(db: Db, name: string, d: Details)
    ensures var (after, error) := AfterEdit(db, name, d); Edits(db, after, error, name, d)
  {
    var after := AfterEdit(db, name, d).0;
    assert name in db ==> after.Keys == db.Keys;
  }

  lemma {:induction false} AfterCreateCreates(db: Db, name: string, d: Details)
    ensures var (after, error) := AfterCreate(db, name, d); Creates(db, after, error, name, d)
  {
    if AfterCreate(db, name, d).1.NoError? {
      var job := Fresh(d.program.value, d.schedule.value, d.maxRuntime.value);
      assert db[name := job].Keys == db.Keys + {name};
    }
  }

  // ---------------------------------------------------------------------------------------------
  // The database
  // ---------------------------------------------------------------------------------------------

  /** The system clock, in seconds, with the times that were read from it. A steady one never goes back. */
  class Clock {
    var time: int
    ghost var readings: seq<int>
    const steady: bool

    constructor (time: int, steady: bool)
      ensures this.time == time && readings == [] && this.steady == steady
    {
      this.time := time;
      this.steady := steady;
      readings := [];
    }

    method Now() returns (t: int)
      modifies this
      ensures t == time && readings == old(readings) + [t]
      ensures steady ==> old(time) <= time
    {
      t := *;
      if steady && t < time {
        t := time;
      }
      time := t;
      readings := readings + [t];
    }
  }

  /** The in-memory database. Every method holds the database lock from start to end. */
  class KiwibesDatabase {
    var jobs: Db
    const clock: Clock

    constructor (clock: Clock)
      ensures jobs == map[] && this.clock == clock
    {
      jobs := map[];
      this.clock := clock;
    }

    /** The database is empty unless the file can be read, is parsed, and every record of it is complete.
        Then no job is running, no start is queued, and everything else about every job is as it was saved. */
    method Load(file: File) returns (error: Error)
      modifies this
      ensures error == (match file case Missing => NoDatabaseFile
                                   case Malformed => JsonParseFail
                                   case Parsed(records) => if AllComplete(records) then NoError else JobDescriptionInvalid)
      ensures error.NoError? ==> jobs == AfterLoad(Saved(file.records))
      ensures !error.NoError? ==> jobs == map[]
      ensures forall name | name in jobs ::
                jobs[name].status == Stopped && jobs[name].startTime == 0 && jobs[name].pendingStart == 0
      ensures forall name | name in jobs ::
                file.Parsed? && name in file.records && var saved := file.records[name].job;
                jobs[name].(status := saved.status, startTime := saved.startTime, pendingStart := saved.pendingStart)
                == saved
    {
      error := NoError;
      jobs := map[];
      match file {
        case Missing => error := NoDatabaseFile;
        case Malformed => error := JsonParseFail;
        case Parsed(records) =>
          error := Validate(records);
      }
      if !error.NoError? {
        jobs := map[];
      }
    }

    /** The search for records that are not complete, which resets the others on its way. */
    method Validate(records: map<string, Record>) returns (error: Error)
      modifies this
      ensures error == if AllComplete(records) then NoError else JobDescriptionInvalid
      ensures error.NoError? ==> jobs == AfterLoad(Saved(records))
    {
      hide IsComplete, AtRest;
      error := NoError;
      jobs := Saved(records);
      var names := records.Keys;
      while names != {}
        invariant names <= records.Keys == jobs.Keys
        invariant error == NoError || (error == JobDescriptionInvalid && !AllComplete(records))
        invariant error.NoError? ==>
                    forall name | name in jobs ::
                      if name in names then jobs[name] == records[name].job
                      else IsComplete(records[name]) && jobs[name] == AtRest(records[name].job)
        decreases |names|
      {
        var name :| name in names;
        var complete := HasFields(records[name]);
        if !complete {
          error := JobDescriptionInvalid;
        }
        if error.NoError? {
          Reset(name);
        }
        names := names - {name};
      }
    }

    /** The three fields of a record that do not outlive the program. */
    method Reset(name: string)
      requires name in jobs
      modifies this
      ensures jobs == old(jobs)[name := AtRest(old(jobs)[name])]
    {
      jobs := jobs[name := jobs[name].(status := Stopped)];
      jobs := jobs[name := jobs[name].(startTime := 0)];
      jobs := jobs[name := jobs[name].(pendingStart := 0)];
      assert jobs == old(jobs)[name := jobs[name]];
    }

    /** The search for a missing field. */
    static method HasFields(record: Record) returns (complete: bool)
      ensures complete <==> IsComplete(record)
    {
      complete := true;
      var f := 0;
      while f < |EXPECTED|
        invariant f <= |EXPECTED| && complete
        invariant forall g | 0 <= g < f :: EXPECTED[g] in record.fields
      {
        if EXPECTED[f] !in record.fields {
          complete := false;
          break;
        }
        f := f + 1;
      }
    }

    /** The clock is read when the job is known and not running; its time is the start time. */
    method JobStarted(name: string) returns (error: Error)
      modifies this, clock
      ensures (jobs, error) == AfterStart(old(jobs), name, clock.time)
      ensures error.NoError? ==> jobs[name].status.Running? && jobs[name].startTime == clock.time
      ensures clock.readings == old(clock.readings) + if error.NoError? then [clock.time] else []
      ensures clock.steady ==> old(clock.time) <= clock.time
    {
      error := NoError;
      if name !in jobs {
        error := JobNameUnknown;
      } else if jobs[name].status == Running {
        error := JobIsRunning;
      } else {
        jobs := jobs[name := jobs[name].(status := Running)];
        var now := clock.Now();
        jobs := jobs[name := jobs[name].(startTime := now)];
        assert jobs == old(jobs)[name := jobs[name]];
      }
    }

    /** The clock is read when the job is known and running; the run took from its start time to now. */
    method JobStopped(name: string) returns (error: Error)
      modifies this, clock
      ensures (jobs, error) == AfterStop(old(jobs), name, clock.time)
      ensures clock.readings == old(clock.readings) + if error.NoError? then [clock.time] else []
      ensures clock.steady ==> old(clock.time) <= clock.time
    {
      error := NoError;
      if name !in jobs {
        error := JobNameUnknown;
      } else if jobs[name].status == Stopped {
        error := JobIsNotRunning;
      } else {
        var now := clock.Now();
        CountRun(name, now);
      }
    }

    /** The statistics of a job that ended now. */
    method CountRun(name: string, now: int)
      requires name in jobs
      modifies this
      ensures jobs == old(jobs)[name := Finished(old(jobs)[name], now - old(jobs)[name].startTime)]
    {
      hide NewAverage, NewSquares;
      var runtime := now - jobs[name].startTime;
      var runs := jobs[name].nbrRuns + 1;
      var avg, var_ := OneRunMore(jobs[name].avgRuntime, jobs[name].varRuntime, runs, runtime);
      ghost var job := jobs[name];
      jobs := jobs[name := jobs[name].(status := Stopped)];
      jobs := jobs[name := jobs[name].(startTime := 0)];
      assert jobs == old(jobs)[name := job.(status := Stopped, startTime := 0)];
      jobs := jobs[name := jobs[name].(avgRuntime := avg)];
      jobs := jobs[name := jobs[name].(varRuntime := var_)];
      jobs := jobs[name := jobs[name].(nbrRuns := runs)];
      assert jobs == old(jobs)[name := Finished(job, runtime)];
    }

    static method OneRunMore(avg0: real, var0: real, runs: nat, runtime: int) returns (avg: real, var_: real)
      requires runs > 0
      ensures avg == NewAverage(avg0, runs, runtime) && var_ == NewSquares(var0, avg0, avg, runtime)
    {
      avg, var_ := avg0, var0;
      var delta := runtime as real - avg;
      avg := avg + delta / runs as real;
      var_ := var_ + delta * (runtime as real - avg);
    }

    method JobIncrStartRequests(name: string) returns (error: Error)
      modifies this
      ensures (jobs, error) == AfterRequest(old(jobs), name)
    {
      error := NoError;
      if name !in jobs {
        error := JobNameUnknown;
      } else {
        var pendingStart := jobs[name].pendingStart;
        pendingStart := pendingStart + 1;
        jobs := jobs[name := jobs[name].(pendingStart := pendingStart)];
      }
    }

    method JobDecrStartRequests(name: string) returns (pendingStart: int)
      modifies this
      ensures (jobs, pendingStart) == AfterTake(old(jobs), name)
    {
      pendingStart := -1;
      if name in jobs {
        pendingStart := jobs[name].pendingStart;
        if 0 < pendingStart {
          pendingStart := pendingStart - 1;
          jobs := jobs[name := jobs[name].(pendingStart := pendingStart)];
        } else {
          pendingStart := -1;
        }
      }
    }

    method JobClearStartRequests(name: string) returns (error: Error)
      modifies this
      ensures (jobs, error) == AfterClear(old(jobs), name)
    {
      error := NoError;
      if name !in jobs {
        error := JobNameUnknown;
      } else {
        jobs := jobs[name := jobs[name].(pendingStart := 0)];
      }
    }

    method GetJobDescription(name: string) returns (job: Option<Job>)
      ensures job == if name in jobs then Some(jobs[name]) else None
    {
      job := if name in jobs then Some(jobs[name]) else None;
    }

    method DeleteJob(name: string) returns (error: Error)
      modifies this
      ensures (jobs, error) == AfterDelete(old(jobs), name)
    {
      error := NoError;
      if name !in jobs {
        error := JobNameUnknown;
      } else if jobs[name].status == Running {
        error := JobIsRunning;
      } else {
        jobs := jobs - {name};
      }
    }

    method CreateJob(name: string, details: Details) returns (error: Error)
      modifies this
      ensures (jobs, error) == AfterCreate(old(jobs), name, details)
      ensures Creates(old(jobs), jobs, error, name, details)
    {
      hide Creates;
      AfterCreateCreates(jobs, name, details);
      error := NoError;
      if details.program.None? || details.schedule.None? || details.maxRuntime.None? {
        error := JobDescriptionInvalid;
      }
      if error == NoError {
        if name in jobs {
          error := JobNameTaken;
        } else {
          jobs := jobs[name := Job(details.program.value, details.schedule.value, details.maxRuntime.value,
                                   0.0, 0.0, Stopped, 0, 0, 0)];
        }
      }
    }

    method EditJob(name: string, details: Details) returns (error: Error)
      modifies this
      ensures (jobs, error) == AfterEdit(old(jobs), name, details)
      ensures Edits(old(jobs), jobs, error, name, details)
    {
      hide Edits;
      AfterEditEdits(jobs, name, details);
      error := NoError;
      if name !in jobs {
        error := JobNameUnknown;
      } else if jobs[name].status == Running {
        error := JobIsRunning;
      } else {
        if details.program.Some? {
          jobs := jobs[name := jobs[name].(program := details.program.value)];
        }
        if details.schedule.Some? {
          jobs := jobs[name := jobs[name].(schedule := details.schedule.value)];
        }
        if details.maxRuntime.Some? {
          jobs := jobs[name := jobs[name].(maxRuntime := details.maxRuntime.value)];
        }
        assert jobs == old(jobs)[name := jobs[name]];
      }
    }
  }
}
