/** A watcher round ends (source/kiwibes_jobs_manager.cpp:221-275), whatever the other threads do to the
    database meanwhile. */
module JobsRounds {
  import opened JobsDatabase
  import opened JobsProtocol
  import Manager = JobsManager
  import opened Wrappers

  /** The watcher holds jobs_lock. */
  predicate InRound(s: State) {
    match s.round
    case Waits => true
    case Stops(_) => true
    case Takes(_) => true
    case Redescribes(_) => true
    case Relaunches(_) => true
    case Restarts(_) => true
    case _ => false
  }

  /** A start that was taken from a queue has not led to a process yet. */
  predicate HasStart(s: State) {
    s.round.Redescribes? || s.round.Relaunches?
  }

  /** The starts that are queued or in the hands of the watcher, and the children that are not reaped. */
  ghost function Work(s: State): nat {
    AllQueued(s.db) + |s.children| + One(HasStart(s))
  }

  /** The steps the watcher can take before it waits for the next child. */
  function StepsToWait(s: State): nat {
    match s.round
    case Stops(_) => 5
    case Takes(_) => 4
    case Redescribes(_) => 3
    case Relaunches(_) => 2
    case Restarts(_) => 1
    case _ => 0
  }

  /** A step of the watcher other than the end of its round. */
  predicate IsWatchers(a: Action) {
    a.Reap? || a.Stop? || a.Take? || a.Redescribe? || a.Relaunch? || a.Restart?
  }

  ghost function StepsLeft(s: State): nat {
    6 * Work(s) + StepsToWait(s)
  }

  // ---------------------------------------------------------------------------------------------
  // One step
  // ---------------------------------------------------------------------------------------------

  lemma {:induction false} QueuedAfterStop(db: Db, name: string, now: int)
    ensures AllQueued(AfterStop(db, name, now).0) == AllQueued(db)
  {
    if name in db && db[name].status.Running? {
      var job := Finished(db[name], now - db[name].startTime);
      assert job.pendingStart == db[name].pendingStart;
      hide Finished;
      AllQueuedUpdate(db, name, job);
    }
  }

  lemma {:induction false} QueuedAfterStart(db: Db, name: string, now: int)
    ensures AllQueued(AfterStart(db, name, now).0) == AllQueued(db)
  {
    if name in db {
      AllQueuedUpdate(db, name, db[name].(status := Running, startTime := now));
    }
  }

  lemma {:induction false} QueuedAfterTake(db: Db, name: string)
    ensures var (t, left) := AfterTake(db, name); AllQueued(t) + One(0 <= left) == AllQueued(db)
  {
    if name in db && 0 < db[name].pendingStart {
      AllQueuedUpdate(db, name, db[name].(pendingStart := db[name].pendingStart - 1));
    }
  }

  lemma {:induction false} QueuedAfterEdits(db: Db, name: string, details: Details)
    ensures AllQueued(AfterEdit(db, name, details).0) == AllQueued(db)
    ensures AllQueued(AfterClear(db, name).0) <= AllQueued(db)
    ensures AllQueued(AfterDelete(db, name).0) <= AllQueued(db)
    ensures AllQueued(AfterCreate(db, name, details).0) == AllQueued(db)
  {
    if name in db {
      AllQueuedUpdate(db, name, Edited(db[name], details));
      AllQueuedUpdate(db, name, db[name].(pendingStart := 0));
      AllQueuedWithout(db, name);
    } else {
      var more := AfterCreate(db, name, details).0;
      if name in more {
        AllQueuedWithout(more, name);
        assert more - {name} == db;
      }
    }
  }

  lemma {:induction false} ChildrenAfterReap(children: map<int, string>, pid: int)
    requires pid in children
    ensures |children - {pid}| == |children| - 1
  {
    assert (children - {pid}).Keys == children.Keys - {pid};
  }

  lemma {:induction false} ChildrenAfterLaunch(children: map<int, string>, pid: int, name: string)
    requires pid !in children
    ensures |children[pid := name]| == |children| + 1
  {
    assert children[pid := name].Keys == children.Keys + {pid};
  }

  /** No step of any thread adds to the work or to the watcher's steps; reaping takes from the work, and
      each step of the watcher from its steps. */
  ghost predicate Shrinks(s: State, a: Action, t: State) {
    && Work(t) + One(a.Reap?) <= Work(s)
    && StepsLeft(t) + One(IsWatchers(a)) <= StepsLeft(s)
  }

  lemma {:induction false} OthersShrink(s: State, a: Action)
    requires IsOthers(a) && Enabled(s, a)
    ensures Shrinks(s, a, Do(s, a))
  {
    hide AllQueued, AfterEdit, AfterClear, AfterDelete, AfterCreate;
    match a
    case Create(name, details) => QueuedAfterEdits(s.db, name, details);
    case Edit(name, details) => QueuedAfterEdits(s.db, name, details);
    case Delete(name) => QueuedAfterEdits(s.db, name, Details(None, None, None));
    case Clear(name) => QueuedAfterEdits(s.db, name, Details(None, None, None));
    case Exit(_) =>
  }

  lemma {:induction false} ReapShrinks(s: State, pid: int, owner: Option<string>)
    requires Enabled(s, Reap(pid, owner))
    ensures Shrinks(s, Reap(pid, owner), Do(s, Reap(pid, owner)))
  {
    hide AllQueued;
    ChildrenAfterReap(s.children, pid);
  }

  lemma {:induction false} StopShrinks(s: State, now: int)
    requires Enabled(s, Stop(now))
    ensures Shrinks(s, Stop(now), Do(s, Stop(now)))
  {
    assert s.round.Stops?;
    hide AllQueued, AfterStop, Enabled, TallyOf;
    QueuedAfterStop(s.db, s.round.name, now);
  }

  lemma {:induction false} TakeShrinks(s: State)
    requires Enabled(s, Take)
    ensures Shrinks(s, Take, Do(s, Take))
  {
    hide AllQueued, AfterTake;
    QueuedAfterTake(s.db, s.round.name);
  }

  lemma {:induction false} RelaunchShrinks(s: State, handle: int)
    requires Enabled(s, Relaunch(handle))
    ensures Shrinks(s, Relaunch(handle), Do(s, Relaunch(handle)))
  {
    hide AllQueued;
    if handle != INVALID_PROCESS_HANDLE {
      ChildrenAfterLaunch(s.children, handle, s.round.name);
    }
  }

  lemma {:induction false} RestartShrinks(s: State, now: int)
    requires Enabled(s, Restart(now))
    ensures Shrinks(s, Restart(now), Do(s, Restart(now)))
  {
    hide AllQueued, AfterStart;
    QueuedAfterStart(s.db, s.round.name, now);
  }

  lemma {:induction false} RestShrinks(s: State, a: Action)
    requires InRound(s) && Enabled(s, a) && (a.Redescribe? || !(IsWatchers(a) || IsOthers(a)))
    ensures Shrinks(s, a, Do(s, a))
  {
    hide AllQueued, DoReap, DoStop, DoTake, DoRelaunch, DoMark, DoCreate, DoClear, DoLaunch, DoRequest;
  }

  lemma {:induction false} StepShrinks(s: State, a: Action)
    requires InRound(s) && Enabled(s, a)
    ensures Shrinks(s, a, Do(s, a))
  {
    hide Shrinks, InRound, Enabled, Do;
    if IsOthers(a) {
      OthersShrink(s, a);
    } else {
      match a
      case Reap(pid, owner) => ReapShrinks(s, pid, owner);
      case Stop(now) => StopShrinks(s, now);
      case Take => TakeShrinks(s);
      case Relaunch(handle) => RelaunchShrinks(s, handle);
      case Restart(now) => RestartShrinks(s, now);
      case _ => RestShrinks(s, a);
    }
  }

  // ---------------------------------------------------------------------------------------------
  // Whole rounds
  // ---------------------------------------------------------------------------------------------

  /** From the i-th action of this run on the watcher holds the lock without a break: the i-th action is
      the start of a round, and none of the states after it up to the last is outside. */
  predicate IsRound(file: Db, actions: seq<Action>, i: nat) {
    && i < |actions| && actions[i].BeginWatch?
    && forall k | i < k <= |actions| :: After(file, actions[..k]).Some? && InRound(After(file, actions[..k]).value)
  }

  /** How many of the actions reap a child, and how many are the watcher's. */
  function Reaps(actions: seq<Action>): nat {
    if actions == [] then 0 else Reaps(actions[..|actions| - 1]) + One(actions[|actions| - 1].Reap?)
  }

  function Watchers(actions: seq<Action>): nat {
    if actions == [] then 0 else Watchers(actions[..|actions| - 1]) + One(IsWatchers(actions[|actions| - 1]))
  }

  /** On every run, and whatever other threads do meanwhile: so far a round has reaped at most as many
      children as there was work when it began, and taken at most six steps for each; so it ends. */
  lemma {:induction false} RoundEnds(file: Db, actions: seq<Action>, i: nat)
    requires After(file, actions).Some? && IsRound(file, actions, i)
    ensures After(file, actions[..i]).Some?
    ensures var begin, s := After(file, actions[..i]).value, After(file, actions).value;
            && Reaps(actions[i..]) + Work(s) <= Work(begin)
            && Watchers(actions[i..]) + StepsLeft(s) <= 6 * Work(begin)
    decreases |actions|
  {
    hide Work, StepsLeft, Do, Enabled, InRound;
    var n := |actions| - 1;
    assert actions[..|actions|] == actions;
    var last := After(file, actions[..n]).value;
    assert After(file, actions).value == Do(last, actions[n]);
    assert actions[i..][..n - i] == actions[i..n] && actions[i..][n - i] == actions[n];
    if n == i {
      RoundBegins(last);
      assert actions[i..][..0] == [];
    } else {
      var before := actions[..n];
      assert before[i] == actions[i] && before[..i] == actions[..i] && before[i..] == actions[i..n];
      forall k | i < k <= n ensures After(file, before[..k]).Some? && InRound(After(file, before[..k]).value) {
        assert before[..k] == actions[..k];
      }
      RoundEnds(file, before, i);
      StepShrinks(last, actions[n]);
    }
  }

  lemma {:induction false} RoundBegins(s: State)
    requires Enabled(s, BeginWatch)
    ensures var t := Do(s, BeginWatch); Work(t) == Work(s) && StepsLeft(t) == 6 * Work(s)
  {
  }

  /** The watcher is never stuck: in a round, one of its steps or the end of the round is possible. */
  lemma {:induction false} WatcherCanMove(file: Db, actions: seq<Action>) returns (a: Action)
    requires After(file, actions).Some? && InRound(After(file, actions).value)
    ensures Enabled(After(file, actions).value, a) && (IsWatchers(a) || a.NoneLeft?)
  {
    AfterIsSound(file, actions);
    a := NextOfWatcher(After(file, actions).value);
  }

  lemma {:induction false} NextOfWatcher(s: State) returns (a: Action)
    requires Sound(s) && InRound(s)
    ensures Enabled(s, a) && (IsWatchers(a) || a.NoneLeft?)
  {
    match s.round
    case Waits =>
      if s.exited == {} {
        a := NoneLeft;
      } else {
        var pid := Manager.Element(s.exited);
        assert pid in s.children;
        a := Reap(pid, Some(s.children[pid]));
      }
    case Stops(_) => a := Stop(0);
    case Takes(_) => a := Take;
    case Redescribes(_) => a := Redescribe;
    case Relaunches(_) => a := Relaunch(INVALID_PROCESS_HANDLE);
    case Restarts(_) => a := Restart(0);
  }

  /** No thread with jobs_lock is ever stuck, whether it starts or stops a job or watches; and the calls of
      other threads are possible at any moment. */
  lemma {:induction false} LockHolderCanMove(file: Db, actions: seq<Action>, other: Action) returns (a: Action)
    requires After(file, actions).Some? && !After(file, actions).value.round.Free?
    requires other.Create? || other.Edit? || other.Delete? || other.Clear?
    ensures Enabled(After(file, actions).value, a) && !IsOthers(a)
    ensures Enabled(After(file, actions).value, other)
  {
    var s := After(file, actions).value;
    match s.round
    case Requests(_) => a := Request;
    case Describes(_) => a := Describe;
    case Launches(_) => a := Launch(INVALID_PROCESS_HANDLE);
    case Starts(_) => a := Start(0);
    case Looks(_) => a := Look;
    case Kills(_) => a := Kill;
    case _ => a := WatcherCanMove(file, actions);
  }

  // ---------------------------------------------------------------------------------------------
  // The states in which the manager's methods begin
  // ---------------------------------------------------------------------------------------------

  /** Every state of every run in which jobs_lock is free is one that the methods of the manager accept. */
  lemma {:induction false} FreeStatesAreValid(file: Db, actions: seq<Action>)
    requires After(file, actions).Some? && After(file, actions).value.round.Free?
    ensures var s := After(file, actions).value;
            Manager.OwnProcesses(s.active, s.children.Keys) && Manager.RunningActive(s.active, s.db)
  {
    ProcessesMatchJobs(file, actions);
    var s := After(file, actions).value;
    forall name | name in s.db ensures s.db[name].pendingStart >= 0 {
      AfterIsBalanced(file, actions, name);
    }
    forall pid ensures pid in s.active.Values <==> pid in s.children.Keys {
    }
  }
}
