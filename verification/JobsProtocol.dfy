/** Starting, stopping and reaping jobs under two locks (source/kiwibes_jobs_manager.cpp with
  * source/kiwibes_database.cpp). jobs_lock is held over a whole start_job, stop_job or watcher round; the
  * database lock only over single calls. So between any two database calls of a round, database calls
  * of other threads can land, children can exit, and requests can be cleared. An action is one database call, one
  * system call, or one such event.
  */
module JobsProtocol {
  import opened JobsDatabase
  import opened Wrappers

  /** Where the thread that holds jobs_lock stands; Free when no one holds it. */
  datatype Round =
    | Free
    | Requests(name: string)
    | Describes(name: string)
    | Launches(name: string)
    | Starts(name: string)
    | Waits
    | Stops(name: string)
    | Takes(name: string)
    | Redescribes(name: string)
    | Relaunches(name: string)
    | Restarts(name: string)
    | Looks(name: string)
    | Kills(name: string)

  /** What happened to a job since it was loaded or created: the runs it had then; the starts that were
      accepted, the processes launched, the queued starts that were cleared, and those whose process
      could not be launched; the processes that ended without a run because job_stopped reported an
      error; and what it found on its creation of a deleted job of the same name, a process and a queued
      start in the hands of the watcher. */
  datatype Tally = Tally(
    runsBefore: nat, accepted: nat, launched: nat, cleared: nat, failed: nat, uncounted: nat,
    oldProcess: nat, oldRequest: nat)

  /** active is active_jobs, children the processes that were not reaped with the job each was launched
      for, and exited those of them that have ended. unmarked is history: the jobs for which the error of
      the last job_started, which the manager does not look at, was that the database does not know them. */
  datatype State = State(
    db: Db, active: map<string, int>, children: map<int, string>, exited: set<int>, round: Round,
    tallies: map<string, Tally>, unmarked: set<string>)

  datatype Action =
    | BeginStart(name: string)
    | Request
    | Describe
    | Launch(handle: int)
    | Start(now: int)
    | BeginWatch
    | Reap(pid: int, owner: Option<string>)
    | NoneLeft
    | Stop(now: int)
    | Take
    | Redescribe
    | Relaunch(handle: int)
    | Restart(now: int)
    | BeginStop(name: string)
    | Look
    | Kill
    | Exit(pid: int)
    | Create(name: string, details: Details)
    | Edit(name: string, details: Details)
    | Delete(name: string)
    | Clear(name: string)

  /** fork fails, or gives the id of no child that is still to be reaped. */
  predicate CanFork(s: State, handle: int) {
    handle == INVALID_PROCESS_HANDLE || (handle > 0 && handle !in s.children)
  }

  predicate Enabled(s: State, a: Action) {
    match a
    case BeginStart(_) => s.round.Free?
    case Request => s.round.Requests?
    case Describe => s.round.Describes?
    case Launch(handle) => s.round.Launches? && CanFork(s, handle)
    case Start(_) => s.round.Starts?
    case BeginWatch => s.round.Free?
    case Reap(pid, owner) =>
      && s.round.Waits? && pid in s.exited && pid in s.children
      && (if owner.Some? then owner.value in s.active && s.active[owner.value] == pid
          else forall name | name in s.active :: s.active[name] != pid)
    case NoneLeft => s.round.Waits? && s.exited == {}
    case Stop(_) => s.round.Stops?
    case Take => s.round.Takes?
    case Redescribe => s.round.Redescribes?
    case Relaunch(handle) => s.round.Relaunches? && CanFork(s, handle)
    case Restart(_) => s.round.Restarts?
    case BeginStop(_) => s.round.Free?
    case Look => s.round.Looks?
    case Kill => s.round.Kills?
    case Exit(pid) => pid in s.children
    case _ => true
  }

  function NewTally(runsBefore: nat): Tally {
    Tally(runsBefore, 0, 0, 0, 0, 0, 0, 0)
  }

  function TallyOf(s: State, name: string): Tally {
    if name in s.tallies then s.tallies[name] else NewTally(0)
  }

  /** One more start request was accepted. */
  function Accept(s: State, name: string): State {
    var t := TallyOf(s, name);
    s.(tallies := s.tallies[name := t.(accepted := t.accepted + 1)])
  }

  function Spawn(s: State, name: string, handle: int): State {
    var t := TallyOf(s, name);
    s.(active := s.active[name := handle], children := s.children[handle := name], exited := s.exited - {handle},
       tallies := s.tallies[name := t.(launched := t.launched + 1)])
  }

  /** job_started. */
  function DoMark(s: State, name: string, now: int): State {
    var (db, error) := AfterStart(s.db, name, now);
    s.(db := db, unmarked := if error.JobNameUnknown? then s.unmarked + {name} else s.unmarked - {name})
  }

  function DoRequest(s: State, name: string): State {
    var (db, error) := AfterRequest(s.db, name);
    var t := s.(db := db, round := Free);
    if error.NoError? then Accept(t, name) else t
  }

  /** The first start of a job, accepted when the process is there. */
  function DoLaunch(s: State, name: string, handle: int): State {
    if handle == INVALID_PROCESS_HANDLE then s.(round := Free)
    else Accept(Spawn(s, name, handle), name).(round := Starts(name))
  }

  /** A child is reaped. */
  function DoReap(s: State, pid: int, owner: Option<string>): State {
    s.(children := s.children - {pid}, exited := s.exited - {pid},
       round := if owner.Some? then Stops(owner.value) else Waits)
  }

  /** job_stopped, and the job leaves active_jobs. */
  function DoStop(s: State, name: string, now: int): State {
    var (db, error) := AfterStop(s.db, name, now);
    var t := TallyOf(s, name);
    s.(db := db, active := s.active - {name}, round := Takes(name), unmarked := s.unmarked - {name},
       tallies := if error.JobIsNotRunning? then s.tallies[name := t.(uncounted := t.uncounted + 1)] else s.tallies)
  }

  function DoTake(s: State, name: string): State {
    var (db, left) := AfterTake(s.db, name);
    s.(db := db, round := if 0 <= left then Redescribes(name) else Waits)
  }

  /** A queued start; when its process cannot be launched, the request is lost. */
  function DoRelaunch(s: State, name: string, handle: int): State {
    if handle == INVALID_PROCESS_HANDLE then
      var t := TallyOf(s, name);
      s.(tallies := s.tallies[name := t.(failed := t.failed + 1)], round := Waits)
    else Spawn(s, name, handle).(round := Restarts(name))
  }

  /** The start that was taken from the queue and has not led to a process yet. */
  function InHand(s: State, name: string): nat {
    if s.round == Redescribes(name) || s.round == Relaunches(name) then 1 else 0
  }

  function DoCreate(s: State, name: string, details: Details): State {
    var (db, error) := AfterCreate(s.db, name, details);
    if error.NoError? then
      var t := NewTally(0).(oldProcess := if name in s.active then 1 else 0, oldRequest := InHand(s, name));
      s.(db := db, tallies := s.tallies[name := t])
    else s
  }

  function DoClear(s: State, name: string): State {
    var (db, error) := AfterClear(s.db, name);
    if error.NoError? then
      var t := TallyOf(s, name);
      var cleared := if s.db[name].pendingStart > 0 then s.db[name].pendingStart else 0;
      s.(db := db, tallies := s.tallies[name := t.(cleared := t.cleared + cleared)])
    else s
  }

  function Do(s: State, a: Action): State
    requires Enabled(s, a)
  {
    match a
    case BeginStart(name) => s.(round := if name in s.active then Requests(name) else Describes(name))
    case Request => DoRequest(s, s.round.name)
    case Describe => s.(round := if s.round.name in s.db then Launches(s.round.name) else Free)
    case Launch(handle) => DoLaunch(s, s.round.name, handle)
    case Start(now) => DoMark(s, s.round.name, now).(round := Free)
    case BeginWatch => s.(round := Waits)
    case Reap(pid, owner) => DoReap(s, pid, owner)
    case NoneLeft => s.(round := Free)
    case Stop(now) => DoStop(s, s.round.name, now)
    case Take => DoTake(s, s.round.name)
    case Redescribe => s.(round := if s.round.name in s.db then Relaunches(s.round.name) else Waits)
    case Relaunch(handle) => DoRelaunch(s, s.round.name, handle)
    case Restart(now) => DoMark(s, s.round.name, now).(round := Waits)
    case BeginStop(name) => s.(round := Looks(name))
    case Look => s.(round := if s.round.name in s.db && s.round.name in s.active then Kills(s.round.name) else Free)
    case Kill => s.(round := Free)
    case Exit(pid) => s.(exited := s.exited + {pid})
    case Create(name, details) => DoCreate(s, name, details)
    case Edit(name, details) => s.(db := AfterEdit(s.db, name, details).0)
    case Delete(name) => s.(db := AfterDelete(s.db, name).0)
    case Clear(name) => DoClear(s, name)
  }

  /** The program as it starts, with the database just loaded. */
  function Begin(file: Db): State {
    var db := AfterLoad(file);
    State(db, map[], map[], {}, Free, map name | name in db :: NewTally(db[name].nbrRuns), {})
  }

  /** The state after these actions, if each is one that its state allows. */
  function After(file: Db, actions: seq<Action>): Option<State> {
    if actions == [] then Some(Begin(file))
    else
      var n := |actions| - 1;
      var s :- After(file, actions[..n]);
      if Enabled(s, actions[n]) then Some(Do(s, actions[n])) else None
  }

  // ---------------------------------------------------------------------------------------------
  // Every interleaving
  // ---------------------------------------------------------------------------------------------

  /** Between reaping a child and taking its job out of active_jobs the job has no process. */
  predicate HasChild(s: State, name: string, pid: int) {
    if s.round == Stops(name) then pid !in s.children
    else pid in s.children && s.children[pid] == name
  }

  predicate Processes(s: State) {
    && (forall name | name in s.active :: HasChild(s, name, s.active[name]))
    && (forall pid | pid in s.children :: s.children[pid] in s.active && s.active[s.children[pid]] == pid)
    && s.exited <= s.children.Keys
  }

  /** What the thread that holds the lock knows about the job it is busy with. */
  predicate Rounds(s: State) {
    match s.round
    case Requests(name) => name in s.active
    case Starts(name) => name in s.active
    case Stops(name) => name in s.active
    case Restarts(name) => name in s.active
    case Kills(name) => name in s.active
    case Describes(name) => name !in s.active
    case Launches(name) => name !in s.active
    case Takes(name) => name !in s.active
    case Redescribes(name) => name !in s.active
    case Relaunches(name) => name !in s.active
    case _ => true
  }

  predicate RunningIsActive(s: State) {
    forall name | name in s.db && s.db[name].status.Running? :: name in s.active
  }

  predicate Sound(s: State) {
    Processes(s) && Rounds(s) && RunningIsActive(s)
  }

  /** A new process takes no other's place. */
  lemma {:induction false} SpawnKeepsProcesses(s: State, name: string, handle: int)
    requires Processes(s) && CanFork(s, handle) && handle != INVALID_PROCESS_HANDLE
    requires name !in s.active && !s.round.Stops?
    ensures forall r: Round | !r.Stops? :: Processes(Spawn(s, name, handle).(round := r))
  {
  }

  lemma {:induction false} ReapKeepsSound(s: State, pid: int, owner: Option<string>)
    requires Sound(s) && Enabled(s, Reap(pid, owner))
    ensures Sound(Do(s, Reap(pid, owner))) && owner == Some(s.children[pid])
  {
  }

  lemma {:induction false} StopKeepsSound(s: State, now: int)
    requires Sound(s) && Enabled(s, Stop(now))
    ensures Sound(Do(s, Stop(now)))
  {
  }

  lemma {:induction false} ExitKeepsSound(s: State, pid: int)
    requires Sound(s) && Enabled(s, Exit(pid))
    ensures Sound(Do(s, Exit(pid)))
  {
  }

  lemma {:induction false} LaunchKeepsSound(s: State, handle: int)
    requires Sound(s) && Enabled(s, Launch(handle))
    ensures Sound(Do(s, Launch(handle)))
  {
    hide Processes;
    if handle != INVALID_PROCESS_HANDLE {
      SpawnKeepsProcesses(s, s.round.name, handle);
      SameProcesses(Spawn(s, s.round.name, handle).(round := Starts(s.round.name)), DoLaunch(s, s.round.name, handle));
    } else {
      SameProcesses(s, DoLaunch(s, s.round.name, handle));
    }
  }

  lemma {:induction false} RelaunchKeepsSound(s: State, handle: int)
    requires Sound(s) && Enabled(s, Relaunch(handle))
    ensures Sound(Do(s, Relaunch(handle)))
  {
    hide Processes;
    if handle != INVALID_PROCESS_HANDLE {
      SpawnKeepsProcesses(s, s.round.name, handle);
    } else {
      SameProcesses(s, DoRelaunch(s, s.round.name, handle));
    }
  }

  lemma {:induction false} SameProcesses(s: State, t: State)
    requires Processes(s) && t.active == s.active && t.children == s.children && t.exited == s.exited
    requires t.round == s.round || !(s.round.Stops? || t.round.Stops?)
    ensures Processes(t)
  {
  }

  /** The other actions start, end and reap no process. */
  predicate LeavesProcesses(a: Action) {
    !(a.Launch? || a.Relaunch? || a.Reap? || a.Stop? || a.Exit?)
  }

  /** Calls of other threads. */
  predicate IsOthers(a: Action) {
    a.Create? || a.Edit? || a.Delete? || a.Clear? || a.Exit?
  }

  lemma {:induction false} EditKeepsSound(s: State, a: Action)
    requires Sound(s) && Enabled(s, a) && IsOthers(a) && !a.Exit?
    ensures Sound(Do(s, a))
  {
    hide Processes;
    SameProcesses(s, Do(s, a));
  }

  lemma {:induction false} RoundKeepsSound(s: State, a: Action)
    requires Sound(s) && Enabled(s, a) && LeavesProcesses(a) && !IsOthers(a)
    ensures Sound(Do(s, a))
  {
    hide Processes, DoLaunch, DoRelaunch, DoReap, DoStop, DoCreate, DoClear, AfterEdit, AfterDelete, AfterStop, Finished;
    SameProcesses(s, Do(s, a));
  }

  lemma {:induction false} StepKeepsSound(s: State, a: Action)
    requires Sound(s) && Enabled(s, a)
    ensures Sound(Do(s, a))
  {
    hide Sound, Do;
    if LeavesProcesses(a) {
      if IsOthers(a) {
        EditKeepsSound(s, a);
      } else {
        RoundKeepsSound(s, a);
      }
    } else {
      match a
      case Launch(handle) => LaunchKeepsSound(s, handle);
      case Relaunch(handle) => RelaunchKeepsSound(s, handle);
      case Reap(pid, owner) => ReapKeepsSound(s, pid, owner);
      case Stop(now) => StopKeepsSound(s, now);
      case Exit(pid) => ExitKeepsSound(s, pid);
    }
  }

  lemma {:induction false} AfterIsSound(file: Db, actions: seq<Action>)
    requires After(file, actions).Some?
    ensures Sound(After(file, actions).value)
  {
    hide Sound, Do, Enabled;
    if actions == [] {
      BeginIsSound(file);
    } else {
      var n := |actions| - 1;
      AfterIsSound(file, actions[..n]);
      StepKeepsSound(After(file, actions[..n]).value, actions[n]);
    }
  }

  lemma {:induction false} BeginIsSound(file: Db)
    ensures Sound(Begin(file))
  {
  }

  /** On every interleaving: a job marked running is in active_jobs; no two jobs share a process, and no
      job has two; outside the short time between reaping a child and taking its job off, the processes
      in active_jobs are exactly the children that are still to be reaped. */
  lemma {:induction false} ProcessesMatchJobs(file: Db, actions: seq<Action>)
    requires After(file, actions).Some?
    ensures var s := After(file, actions).value;
            && (forall name | name in s.db && s.db[name].status.Running? :: name in s.active)
            && (forall m, n | m in s.active && n in s.active && m != n :: s.active[m] != s.active[n])
            && (forall p, q | p in s.children && q in s.children && p != q :: s.children[p] != s.children[q])
            && (!s.round.Stops? ==> forall pid :: pid in s.children <==> exists name :: name in s.active && s.active[name] == pid)
  {
    AfterIsSound(file, actions);
    var s := After(file, actions).value;
    forall m, n | m in s.active && n in s.active && m != n ensures s.active[m] != s.active[n] {
      assert HasChild(s, m, s.active[m]) && HasChild(s, n, s.active[n]);
    }
    if !s.round.Stops? {
      forall pid ensures pid in s.children <==> exists name :: name in s.active && s.active[name] == pid {
        if name :| name in s.active && s.active[name] == pid {
          assert HasChild(s, name, pid);
        }
      }
    }
  }

  /** stop_job sends its signal to a child of this program that was launched for that very job and is
      still to be reaped. */
  lemma {:induction false} KillsItsOwn(file: Db, actions: seq<Action>)
    requires After(file, actions).Some? && After(file, actions).value.round.Kills?
    ensures var s := After(file, actions).value;
            s.round.name in s.active && s.active[s.round.name] in s.children
            && s.children[s.active[s.round.name]] == s.round.name
  {
    AfterIsSound(file, actions);
    var s := After(file, actions).value;
    assert HasChild(s, s.round.name, s.active[s.round.name]);
  }

  /** stop_job comes to its signal exactly for a job that is known and active. */
  lemma {:induction false} StopsKnownActive(file: Db, actions: seq<Action>, name: string)
    requires After(file, actions).Some? && After(file, actions).value.round.Free?
    ensures var s, after := After(file, actions).value, After(file, actions + [BeginStop(name), Look]);
            after.Some? && after.value.round == (if name in s.db && name in s.active then Kills(name) else Free)
  {
    var all := actions + [BeginStop(name), Look];
    assert all[..|actions|] == actions && all[..|actions| + 2] == all;
    hide After;
    NextStep(file, all, |actions|, After(file, actions).value);
    NextStep(file, all, |actions| + 1, After(file, actions).value.(round := Looks(name)));
  }

  // ---------------------------------------------------------------------------------------------
  // Harmful deletes
  // ---------------------------------------------------------------------------------------------

  /** delete_job removes the job that the thread with jobs_lock has looked up and is about to launch or
      to mark as running. */
  predicate Harmful(s: State, a: Action) {
    && a.Delete? && a.name in s.db && s.db[a.name].status.Stopped?
    && match s.round
       case Launches(name) => name == a.name
       case Starts(name) => name == a.name
       case Redescribes(name) => name == a.name
       case Relaunches(name) => name == a.name
       case Restarts(name) => name == a.name
       case _ => false
  }

  /** No delete_job of this run is harmful; none is when it lands while jobs_lock is free. */
  predicate NoHarm(file: Db, actions: seq<Action>)
    requires After(file, actions).Some?
  {
    actions == [] ||
    var n := |actions| - 1;
    !Harmful(After(file, actions[..n]).value, actions[n]) && NoHarm(file, actions[..n])
  }

  /** In active_jobs means known to the database and, but for the call that is about to say so, running. */
  predicate IsMarked(s: State, name: string) {
    name in s.db && (s.db[name].status.Running? || s.round == Starts(name) || s.round == Restarts(name))
  }

  predicate Agreed(s: State) {
    && (forall name | name in s.active :: IsMarked(s, name))
    && (s.round.Launches? || s.round.Relaunches? || s.round.Redescribes? ==> s.round.name in s.db)
  }

  lemma {:induction false} OthersKeepAgreed(s: State, a: Action)
    requires Rounds(s) && Agreed(s) && !Harmful(s, a) && IsOthers(a) && Enabled(s, a)
    ensures Agreed(Do(s, a))
  {
  }

  lemma {:induction false} MarkKeepsAgreed(s: State, a: Action)
    requires Rounds(s) && Agreed(s) && (a.Start? || a.Restart? || a.Stop?) && Enabled(s, a)
    ensures Agreed(Do(s, a))
  {
    hide Finished, DoRequest, DoTake, DoLaunch, DoRelaunch, DoReap, DoCreate, DoClear, AfterEdit, AfterDelete;
  }

  lemma {:induction false} RoundKeepsAgreed(s: State, a: Action)
    requires Rounds(s) && Agreed(s) && !IsOthers(a) && !(a.Start? || a.Restart? || a.Stop?) && Enabled(s, a)
    requires a.Reap? && a.owner.Some? ==> a.owner.value in s.active
    ensures Agreed(Do(s, a))
  {
    hide DoMark, DoStop, DoCreate, DoClear, AfterEdit, AfterDelete;
  }

  lemma {:induction false} StepKeepsAgreed(s: State, a: Action)
    requires Sound(s) && Agreed(s) && Enabled(s, a) && !Harmful(s, a)
    ensures Agreed(Do(s, a))
  {
    hide Agreed, Do, Processes;
    if IsOthers(a) {
      OthersKeepAgreed(s, a);
    } else if a.Start? || a.Restart? || a.Stop? {
      MarkKeepsAgreed(s, a);
    } else {
      RoundKeepsAgreed(s, a);
    }
  }

  /** A harmful delete breaks what a round relies on, and nothing else does. */
  lemma {:induction false} OnlyHarmDisagrees(s: State, a: Action)
    requires Sound(s) && Agreed(s) && Enabled(s, a)
    ensures Agreed(Do(s, a)) <==> !Harmful(s, a)
  {
    if Harmful(s, a) {
      hide Sound;
      var t := Do(s, a);
      assert a.name !in t.db;
      assert a.name in t.active ==> !IsMarked(t, a.name);
    } else {
      hide Agreed, Do, Processes;
      StepKeepsAgreed(s, a);
    }
  }

  // ---------------------------------------------------------------------------------------------
  // When the two views of running agree
  // ---------------------------------------------------------------------------------------------

  /** Active, and the call that is to mark it as running is not still to come. */
  predicate IsSettled(s: State, name: string) {
    name in s.active && s.round != Starts(name) && s.round != Restarts(name)
  }

  /** A settled job is running for the database unless its job_started did not find it. */
  predicate Marks(s: State) {
    && (forall name | name in s.unmarked :: IsSettled(s, name))
    && (forall name | name in s.active && IsSettled(s, name) :: name in s.unmarked <==> !(name in s.db && s.db[name].status.Running?))
  }

  lemma {:induction false} OthersKeepMarks(s: State, a: Action)
    requires Rounds(s) && Marks(s) && IsOthers(a) && Enabled(s, a)
    ensures Marks(Do(s, a))
  {
    hide Finished;
  }

  lemma {:induction false} LaunchKeepsMarks(s: State, a: Action)
    requires Rounds(s) && Marks(s) && Enabled(s, a) && (a.Launch? || a.Relaunch?)
    ensures Marks(Do(s, a))
  {
    hide AfterStart, DoMark, DoRequest, DoStop, DoTake, DoCreate, DoClear;
  }

  lemma {:induction false} StartKeepsMarks(s: State, name: string, now: int, round: Round)
    requires Marks(s) && name in s.active && (s.round == Starts(name) || s.round == Restarts(name))
    requires !round.Starts? && !round.Restarts?
    ensures Marks(DoMark(s, name, now).(round := round))
  {
  }

  lemma {:induction false} RoundKeepsMarks(s: State, a: Action)
    requires Rounds(s) && Marks(s) && Enabled(s, a)
    requires !IsOthers(a) && !(a.Start? || a.Restart? || a.Launch? || a.Relaunch? || a.Stop?)
    requires a.Reap? && a.owner.Some? ==> a.owner.value in s.active
    ensures Marks(Do(s, a))
  {
    hide DoMark, DoLaunch, DoRelaunch, DoStop, DoCreate, DoClear, AfterEdit, AfterDelete;
  }

  lemma {:induction false} StopKeepsMarks(s: State, now: int)
    requires Rounds(s) && Marks(s) && Enabled(s, Stop(now))
    ensures Marks(DoStop(s, s.round.name, now))
  {
  }

  lemma {:induction false} StepKeepsMarks(s: State, a: Action)
    requires Rounds(s) && Marks(s) && Enabled(s, a)
    requires a.Reap? && a.owner.Some? ==> a.owner.value in s.active
    ensures Marks(Do(s, a))
  {
    hide Marks, DoStop, DoMark;
    if IsOthers(a) {
      OthersKeepMarks(s, a);
    } else {
      match a
      case Launch(_) => LaunchKeepsMarks(s, a);
      case Relaunch(_) => LaunchKeepsMarks(s, a);
      case Start(now) => StartKeepsMarks(s, s.round.name, now, Free);
      case Restart(now) => StartKeepsMarks(s, s.round.name, now, Waits);
      case Stop(now) => StopKeepsMarks(s, now);
      case _ => RoundKeepsMarks(s, a);
    }
  }

  lemma {:induction false} AfterIsMarked(file: Db, actions: seq<Action>)
    requires After(file, actions).Some?
    ensures Marks(After(file, actions).value)
  {
    hide Sound, Marks, Do, Enabled;
    if actions == [] {
      BeginIsMarked(file);
    } else {
      var n := |actions| - 1;
      AfterIsSound(file, actions[..n]);
      AfterIsMarked(file, actions[..n]);
      SoundRounds(After(file, actions[..n]).value);
      ReapsActive(After(file, actions[..n]).value, actions[n]);
      StepKeepsMarks(After(file, actions[..n]).value, actions[n]);
    }
  }

  lemma {:induction false} BeginIsMarked(file: Db)
    ensures Marks(Begin(file))
  {
  }

  lemma {:induction false} SoundRounds(s: State)
    requires Sound(s)
    ensures Rounds(s)
  {
  }

  lemma {:induction false} ReapsActive(s: State, a: Action)
    requires Enabled(s, a)
    ensures a.Reap? && a.owner.Some? ==> a.owner.value in s.active
  {
  }

  /** On every run, whenever jobs_lock is free: the two views of running differ about exactly those jobs
      that were not known to the database when job_started was called for their process, and they
      differ in one way only. */
  lemma {:induction false} ViewsDifferExactly(file: Db, actions: seq<Action>, name: string)
    requires After(file, actions).Some? && After(file, actions).value.round.Free?
    ensures var s := After(file, actions).value;
            && (name in s.db && s.db[name].status.Running? ==> name in s.active)
            && (name in s.active && !(name in s.db && s.db[name].status.Running?) <==> name in s.unmarked)
  {
    AfterIsSound(file, actions);
    AfterIsMarked(file, actions);
    assert name in After(file, actions).value.active ==> IsSettled(After(file, actions).value, name);
  }

  // ---------------------------------------------------------------------------------------------
  // Where the accepted starts are
  // ---------------------------------------------------------------------------------------------

  /** Every process is a run, the running one, or ended without a run; every accepted start is a process,
      queued, cleared, lost because its process could not be launched, or in the hands of the watcher. */
  predicate Balanced(s: State, name: string) {
    name in s.db ==>
      && name in s.tallies && s.db[name].pendingStart >= 0
      && var t := s.tallies[name];
         && t.launched + t.oldProcess == s.db[name].nbrRuns - t.runsBefore + t.uncounted + One(name in s.active)
         && t.accepted + t.oldRequest == t.launched + s.db[name].pendingStart + t.cleared + t.failed + InHand(s, name)
  }

  lemma {:induction false} StopKeepsBalance(s: State, now: int, name: string)
    requires Rounds(s) && Balanced(s, name) && Enabled(s, Stop(now))
    ensures Balanced(Do(s, Stop(now)), name)
  {
  }

  lemma {:induction false} LaunchKeepsBalance(s: State, handle: int, name: string)
    requires Rounds(s) && Balanced(s, name) && Enabled(s, Launch(handle))
    ensures Balanced(Do(s, Launch(handle)), name)
  {
    hide Finished;
  }

  lemma {:induction false} RelaunchKeepsBalance(s: State, handle: int, name: string)
    requires Rounds(s) && Balanced(s, name) && Enabled(s, Relaunch(handle))
    ensures Balanced(Do(s, Relaunch(handle)), name)
  {
    hide Finished;
  }

  lemma {:induction false} EditKeepsBalance(s: State, a: Action, name: string)
    requires Balanced(s, name) && Enabled(s, a) && IsOthers(a)
    ensures Balanced(Do(s, a), name)
  {
    hide Finished;
  }

  lemma {:induction false} RoundKeepsBalance(s: State, a: Action, name: string)
    requires Rounds(s) && Balanced(s, name) && Enabled(s, a) && !IsOthers(a) && !a.Stop? && !a.Launch? && !a.Relaunch?
    ensures Balanced(Do(s, a), name)
  {
    hide DoStop, DoLaunch, DoRelaunch, DoCreate, DoClear, AfterEdit, AfterDelete;
  }

  lemma {:induction false} StepKeepsBalance(s: State, a: Action, name: string)
    requires Rounds(s) && Balanced(s, name) && Enabled(s, a)
    ensures Balanced(Do(s, a), name)
  {
    hide Rounds, Balanced, Enabled, Do;
    match a
    case Stop(now) => StopKeepsBalance(s, now, name);
    case Launch(handle) => LaunchKeepsBalance(s, handle, name);
    case Relaunch(handle) => RelaunchKeepsBalance(s, handle, name);
    case Create(_, _) => EditKeepsBalance(s, a, name);
    case Edit(_, _) => EditKeepsBalance(s, a, name);
    case Delete(_) => EditKeepsBalance(s, a, name);
    case Clear(_) => EditKeepsBalance(s, a, name);
    case Exit(_) => EditKeepsBalance(s, a, name);
    case _ => RoundKeepsBalance(s, a, name);
  }

  lemma {:induction false} BeginIsBalanced(file: Db, name: string)
    ensures Agreed(Begin(file)) && Balanced(Begin(file), name) && Untroubled(Begin(file), name)
  {
  }

  lemma {:induction false} AfterIsBalanced(file: Db, actions: seq<Action>, name: string)
    requires After(file, actions).Some?
    ensures Balanced(After(file, actions).value, name)
  {
    hide Sound, Balanced, Do, Enabled;
    if actions == [] {
      BeginIsBalanced(file, name);
    } else {
      var n := |actions| - 1;
      AfterIsSound(file, actions[..n]);
      AfterIsBalanced(file, actions[..n], name);
      SoundRounds(After(file, actions[..n]).value);
      StepKeepsBalance(After(file, actions[..n]).value, actions[n], name);
    }
  }

  /** On every run, whenever jobs_lock is free: the accepted starts of a job and what it took over from a
      deleted job are its runs, the processes that ended without one, the running process, and the starts
      that are queued, were cleared, or were lost because their process could not be launched. */
  lemma {:induction false} EveryStartIsAccounted(file: Db, actions: seq<Action>, name: string)
    requires After(file, actions).Some? && After(file, actions).value.round.Free?
    requires name in After(file, actions).value.db
    ensures var s := After(file, actions).value;
            name in s.tallies &&
            var job, t := s.db[name], s.tallies[name];
            && t.accepted + t.oldProcess + t.oldRequest
               == (job.nbrRuns - t.runsBefore) + t.uncounted + One(name in s.active)
                  + job.pendingStart + t.cleared + t.failed
            && t.launched + t.oldProcess == (job.nbrRuns - t.runsBefore) + t.uncounted + One(name in s.active)
  {
    AfterIsBalanced(file, actions, name);
  }

  /** So the accepted starts of a job are its runs, the running process, and the starts queued, cleared
      or lost if and only if as many processes ended without a run as there were a process and a start
      to take over. */
  lemma {:induction false} StartsAddUpExactly(file: Db, actions: seq<Action>, name: string)
    requires After(file, actions).Some? && After(file, actions).value.round.Free?
    requires name in After(file, actions).value.db
    ensures var s := After(file, actions).value;
            name in s.tallies &&
            var job, t := s.db[name], s.tallies[name];
            (t.accepted == (job.nbrRuns - t.runsBefore) + One(name in s.active) + job.pendingStart + t.cleared + t.failed
             <==> t.uncounted == t.oldProcess + t.oldRequest)
  {
    EveryStartIsAccounted(file, actions, name);
  }

  /** nbr-runs counts the processes that were launched, but for the running one, if and only if as many
      ended without a run as there were to take over. */
  lemma {:induction false} RunsAreLaunches(file: Db, actions: seq<Action>, name: string)
    requires After(file, actions).Some? && After(file, actions).value.round.Free?
    requires name in After(file, actions).value.db
    ensures var s := After(file, actions).value;
            name in s.tallies &&
            var job, t := s.db[name], s.tallies[name];
            && (job.nbrRuns - t.runsBefore == t.launched <==> t.oldProcess == t.uncounted + One(name in s.active))
            && (NoHarm(file, actions) ==> (job.nbrRuns - t.runsBefore == t.launched <==> name !in s.active))
  {
    EveryStartIsAccounted(file, actions, name);
    if NoHarm(file, actions) {
      AfterIsUntroubled(file, actions, name);
    }
  }

  // ---------------------------------------------------------------------------------------------
  // Runs without a harmful delete
  // ---------------------------------------------------------------------------------------------

  /** The job took nothing over, and no process of it ended without a run. */
  predicate Untroubled(s: State, name: string) {
    name in s.db ==>
      name in s.tallies && s.tallies[name].uncounted == s.tallies[name].oldProcess == s.tallies[name].oldRequest == 0
  }

  lemma {:induction false} StopKeepsUntroubled(s: State, now: int, name: string)
    requires Rounds(s) && Agreed(s) && Untroubled(s, name) && Enabled(s, Stop(now))
    ensures Untroubled(Do(s, Stop(now)), name)
  {
    assert IsMarked(s, s.round.name);
    hide Finished, Agreed;
  }

  lemma {:induction false} CreateKeepsUntroubled(s: State, a: Action, name: string)
    requires Agreed(s) && Untroubled(s, name) && a.Create?
    ensures Untroubled(Do(s, a), name)
  {
    assert a.name in s.active ==> IsMarked(s, a.name);
    hide Agreed;
  }

  lemma {:induction false} OthersKeepUntroubled(s: State, a: Action, name: string)
    requires Untroubled(s, name) && Enabled(s, a) && !a.Stop? && !a.Create?
    ensures Untroubled(Do(s, a), name)
  {
    hide DoStop, DoCreate;
  }

  lemma {:induction false} StepKeepsUntroubled(s: State, a: Action, name: string)
    requires Rounds(s) && Agreed(s) && Untroubled(s, name) && Enabled(s, a)
    ensures Untroubled(Do(s, a), name)
  {
    hide Rounds, Agreed, Untroubled, Enabled, Do;
    match a
    case Stop(now) => StopKeepsUntroubled(s, now, name);
    case Create(_, _) => CreateKeepsUntroubled(s, a, name);
    case _ => OthersKeepUntroubled(s, a, name);
  }

  lemma {:induction false} AfterIsUntroubled(file: Db, actions: seq<Action>, name: string)
    requires After(file, actions).Some? && NoHarm(file, actions)
    ensures var s := After(file, actions).value; Agreed(s) && Untroubled(s, name)
  {
    hide Sound, Agreed, Untroubled, Do, Enabled, Harmful;
    if actions == [] {
      BeginIsBalanced(file, name);
    } else {
      var n := |actions| - 1;
      var s := After(file, actions[..n]).value;
      AfterIsSound(file, actions[..n]);
      AfterIsUntroubled(file, actions[..n], name);
      SoundRounds(s);
      StepKeepsAgreed(s, actions[n]);
      StepKeepsUntroubled(s, actions[n], name);
    }
  }

  /** Whenever jobs_lock is free, the jobs in active_jobs are exactly those the database calls running. */
  lemma {:induction false} ViewsAgree(file: Db, actions: seq<Action>, name: string)
    requires After(file, actions).Some? && NoHarm(file, actions) && After(file, actions).value.round.Free?
    ensures var s := After(file, actions).value;
            name in s.active <==> name in s.db && s.db[name].status.Running?
  {
    AfterIsSound(file, actions);
    AfterIsUntroubled(file, actions, name);
    var s := After(file, actions).value;
    assert name in s.active ==> IsMarked(s, name);
  }

  /** Whenever jobs_lock is free, the start requests that were accepted for a job since it was loaded or
      created are its finished runs, the running one, those queued, those cleared, and the queued ones
      whose process could not be launched. */
  lemma {:induction false} NoStartIsLost(file: Db, actions: seq<Action>, name: string)
    requires After(file, actions).Some? && NoHarm(file, actions) && After(file, actions).value.round.Free?
    ensures var s := After(file, actions).value;
            name in s.db ==>
              && name in s.tallies
              && s.tallies[name].accepted
                 == (s.db[name].nbrRuns - s.tallies[name].runsBefore) + (if name in s.active then 1 else 0)
                    + s.db[name].pendingStart + s.tallies[name].cleared + s.tallies[name].failed
  {
    hide Agreed;
    AfterIsBalanced(file, actions, name);
    AfterIsUntroubled(file, actions, name);
  }

  /** A run whose deletes all land while jobs_lock is free has no harmful one. */
  lemma {:induction false} FreeDeletesDoNoHarm(file: Db, actions: seq<Action>)
    requires After(file, actions).Some?
    requires forall i | 0 <= i < |actions| && actions[i].Delete? ::
               After(file, actions[..i]).Some? && After(file, actions[..i]).value.round.Free?
    ensures NoHarm(file, actions)
  {
    if actions != [] {
      var n := |actions| - 1;
      forall i | 0 <= i < n && actions[..n][i].Delete?
        ensures After(file, actions[..n][..i]).Some? && After(file, actions[..n][..i]).value.round.Free?
      {
        assert actions[..n][..i] == actions[..i];
      }
      FreeDeletesDoNoHarm(file, actions[..n]);
      assert !Harmful(After(file, actions[..n]).value, actions[n]);
    }
  }

  /** A delete_job between the launch of a job and job_started leaves a process whose job the database
      does not know. */
  function Overtaken(): seq<Action> {
    [BeginStart("a"), Describe, Launch(7), Delete("a"), Start(0)]
  }

  lemma {:induction false} HarmfulDelete(file: Db)
    requires "a" in file
    ensures var after := After(file, Overtaken());
            after.Some? && after.value.round.Free? && "a" in after.value.active && "a" !in after.value.db
  {
    hide After, Begin;
    var all := Overtaken();
    assert all[..3] == [BeginStart("a"), Describe, Launch(7)] && all[..5] == all;
    var s := Launched(file, all);
    NextStep(file, all, 3, s);
    NextStep(file, all, 4, s.(db := s.db - {"a"}));
  }

  /** The state just before the harmful delete of these runs: launched, and not marked yet. */
  lemma {:induction false} Launched(file: Db, all: seq<Action>) returns (s: State)
    requires "a" in file && |all| > 3 && all[..3] == [BeginStart("a"), Describe, Launch(7)]
    ensures After(file, all[..3]) == Some(s) && s.round == Starts("a")
    ensures s.active == map["a" := 7] && s.children == map[7 := "a"] && s.exited == {}
    ensures "a" in s.db && s.db["a"].status.Stopped? && s.unmarked == {}
  {
    hide After, Begin;
    var s0 := Begins(file);
    assert all[..0] == [] && all[0] == all[..3][0] && all[1] == all[..3][1] && all[2] == all[..3][2];
    NextStep(file, all, 0, s0);
    NextStep(file, all, 1, s0.(round := Describes("a")));
    var s2 := s0.(round := Launches("a"));
    NextStep(file, all, 2, s2);
    s := DoLaunch(s2, "a", 7);
  }

  /** Recreated before it is marked as running, a job comes to a process that no accepted start of it led
      to: nothing was accepted, and it is active. */
  function Inherited(details: Details): seq<Action> {
    [BeginStart("a"), Describe, Launch(7), Delete("a"), Create("a", details), Start(0)]
  }

  lemma {:induction false} StartsDoNotAddUp(file: Db, details: Details)
    requires "a" in file && details.program.Some? && details.schedule.Some? && details.maxRuntime.Some?
    ensures var after := After(file, Inherited(details));
            && after.Some? && after.value.round.Free?
            && var s := after.value;
               && "a" in s.db && "a" in s.active && s.db["a"].status.Running? && s.db["a"].nbrRuns == 0
               && "a" in s.tallies && s.tallies["a"].accepted == s.tallies["a"].uncounted == 0
               && s.tallies["a"].oldProcess == 1
  {
    hide After, Begin;
    var all := Inherited(details);
    assert all[..3] == [BeginStart("a"), Describe, Launch(7)] && all[..6] == all;
    var s := Launched(file, all);
    NextStep(file, all, 3, s);
    var t := s.(db := s.db - {"a"});
    NextStep(file, all, 4, t);
    var u := DoCreate(t, "a", details);
    NextStep(file, all, 5, u);
  }

  /** Recreated after the call that was to mark it found no job, it is active and called stopped; when its
      process ends, no run is counted. */
  function Uncounted(details: Details): seq<Action> {
    [BeginStart("a"), Describe, Launch(7), Delete("a"), Start(0), Create("a", details),
     Exit(7), BeginWatch, Reap(7, Some("a")), Stop(1), Take, NoneLeft]
  }

  lemma {:induction false} RunIsNotCounted(file: Db, details: Details)
    requires "a" in file && details.program.Some? && details.schedule.Some? && details.maxRuntime.Some?
    ensures var before, after := After(file, Uncounted(details)[..6]), After(file, Uncounted(details));
            && before.Some? && after.Some? && before.value.round.Free? && after.value.round.Free?
            && "a" in before.value.active && "a" in before.value.db && before.value.db["a"].status.Stopped?
            && "a" !in after.value.active && "a" in after.value.db && after.value.db["a"].nbrRuns == 0
            && AfterStop(before.value.db, "a", 1).1 == JobIsNotRunning
  {
    hide After, Begin;
    var all := Uncounted(details);
    assert all[..3] == [BeginStart("a"), Describe, Launch(7)] && all[..12] == all;
    var s := Launched(file, all);
    NextStep(file, all, 3, s);
    var t := s.(db := s.db - {"a"});
    NextStep(file, all, 4, t);
    var u := DoMark(t, "a", 0).(round := Free);
    NextStep(file, all, 5, u);
    var v := DoCreate(u, "a", details);
    RunEndsUncounted(file, all, v);
  }

  lemma {:induction false} RunEndsUncounted(file: Db, all: seq<Action>, v: State)
    requires |all| == 12 && all[6..] == [Exit(7), BeginWatch, Reap(7, Some("a")), Stop(1), Take, NoneLeft]
    requires After(file, all[..6]) == Some(v) && v.round.Free? && v.exited == {}
    requires v.active == map["a" := 7] && v.children == map[7 := "a"]
    requires "a" in v.db && v.db["a"].status.Stopped? && v.db["a"].nbrRuns == 0 && v.db["a"].pendingStart == 0
    ensures After(file, all).Some?
    ensures var s := After(file, all).value; s.round.Free? && s.active == map[] && s.db == v.db
  {
    hide After, Begin, DoStop, AfterStop, DoTake;
    assert all[..12] == all;
    assert forall k | 6 <= k < 12 :: all[k] == all[6..][k - 6];
    var x := IsReaped(file, all, v);
    StopsUncounted(x);
    NextStep(file, all, 9, x);
    var y := DoStop(x, "a", 1);
    NextStep(file, all, 10, y);
    NextStep(file, all, 11, y.(round := Waits));
  }

  lemma {:induction false} IsReaped(file: Db, all: seq<Action>, v: State) returns (x: State)
    requires |all| == 12 && all[6] == Exit(7) && all[7] == BeginWatch && all[8] == Reap(7, Some("a"))
    requires After(file, all[..6]) == Some(v) && v.round.Free? && v.exited == {}
    requires v.active == map["a" := 7] && v.children == map[7 := "a"]
    ensures After(file, all[..9]) == Some(x) && x.round == Stops("a") && x.active == v.active && x.db == v.db
    ensures x.exited == {}
  {
    hide After, Begin;
    NextStep(file, all, 6, v);
    var w := v.(exited := v.exited + {7});
    NextStep(file, all, 7, w);
    NextStep(file, all, 8, w.(round := Waits));
    x := DoReap(w.(round := Waits), 7, Some("a"));
  }

  lemma {:induction false} StopsUncounted(x: State)
    requires "a" in x.db && x.db["a"].status.Stopped? && x.db["a"].pendingStart == 0 && x.active == map["a" := 7]
    ensures var y := DoStop(x, "a", 1);
            && y.db == x.db && y.active == map[] && y.exited == x.exited && y.round == Takes("a")
            && DoTake(y, "a") == y.(round := Waits)
  {
  }

  lemma {:induction false} Begins(file: Db) returns (s: State)
    requires "a" in file
    ensures After(file, []) == Some(s) && s.round.Free? && s.active == map[] && s.children == map[]
    ensures s.exited == {} && s.unmarked == {}
    ensures "a" in s.db && s.db["a"].status.Stopped?
  {
    s := Begin(file);
  }

  lemma {:induction false} NextStep(file: Db, all: seq<Action>, k: nat, s: State)
    requires k < |all| && After(file, all[..k]) == Some(s) && Enabled(s, all[k])
    ensures After(file, all[..k + 1]) == Some(Do(s, all[k]))
  {
    assert all[..k + 1][..k] == all[..k];
  }
}
