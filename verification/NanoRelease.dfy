/** Which steps of the guaranteed logger's queue reach a buffer that the reader has released already
  * (3rd_party/NanoLog/NanoLog.cpp:517-527). The states keep every buffer; the released ones are those
  * whose unique_ptr was popped. */
module NanoRelease {
  import opened NanoInvariant
  import opened NanoQueue
  import opened NanoTheorems
  import opened Wrappers

  /** The buffer whose memory a step reads or writes. */
  function Reaches(s: State, a: Action): Option<nat>
    requires Enabled(s, a)
  {
    match a
    case Construct(p) => Some(Pc(s, p).buffer)
    case Mark(p) => Some(Pc(s, p).buffer)
    case Count(p) => Some(Pc(s, p).buffer)
    case Check => s.readBuffer
    case Take => s.readBuffer
    case _ => None
  }

  predicate ReachesReleased(s: State, a: Action)
    requires Enabled(s, a)
  {
    Reaches(s, a).Some? && Reaches(s, a).value < s.retired
  }

  // ---------------------------------------------------------------------------------------------
  // Every run
  // ---------------------------------------------------------------------------------------------

  /** How many slots of the current buffer the reader has read. */
  function ReadOfCurrent(s: State): nat {
    if Finished(s) > s.current then s.size else if Finished(s) == s.current then s.readIndex else 0
  }

  /** What was read was marked as written. */
  predicate ReadIsWritten(s: State) {
    && s.current < |s.buffers| && ReadOfCurrent(s) <= |s.buffers[s.current].written|
    && forall i | 0 <= i < ReadOfCurrent(s) :: s.buffers[s.current].written[i]
  }

  lemma {:induction false} TakeKeepsReadIsWritten(s: State)
    requires Inv(s) && Enabled(s, Take) && Safe(s, Take) && ReadIsWritten(s)
    ensures ReadIsWritten(DoTake(s))
  {
    hide Tickets, Owners, Rotation, Index, Mutex, Output, AllCounted;
    CurrentIsLast(s);
    assert BufferOk(s.buffers[s.current], s.issued[s.current], s.counted[s.current], s.size);
    hide BufferOk;
  }

  lemma {:induction false} PublishKeepsReadIsWritten(s: State, p: Id)
    requires Inv(s) && Enabled(s, Publish(p)) && ReadIsWritten(s)
    ensures ReadIsWritten(DoPublish(s, p))
  {
    hide Tickets, Owners, Index, Mutex, Output, AllCounted, BufferOk;
  }

  lemma {:induction false} OthersKeepReadIsWritten(s: State, a: Action)
    requires Enabled(s, a) && Safe(s, a) && !a.Take? && !a.Publish? && ReadIsWritten(s)
    requires a.Construct? || a.Mark? || a.Count? ==> Pc(s, a.p).buffer == s.current
    ensures ReadIsWritten(Do(s, a))
  {
    hide DoTake, DoPublish;
  }

  lemma {:induction false} StepKeepsReadIsWritten(s: State, a: Action)
    requires Inv(s) && Enabled(s, a) && Safe(s, a) && ReadIsWritten(s)
    ensures ReadIsWritten(Do(s, a))
  {
    hide Inv, ReadIsWritten, Enabled, Safe, DoTake, DoPublish;
    match a
    case Take => TakeKeepsReadIsWritten(s);
    case Publish(p) => PublishKeepsReadIsWritten(s, p);
    case _ =>
      WritesToCurrent(s, a);
      OthersKeepReadIsWritten(s, a);
  }

  lemma {:induction false} WritesToCurrent(s: State, a: Action)
    requires Inv(s) && Enabled(s, a)
    ensures a.Construct? || a.Mark? || a.Count? ==>
              Pc(s, a.p).buffer == s.current < |s.buffers| && Pc(s, a.p).index < s.size == |s.buffers[s.current].written|
    ensures a.Construct? || a.Mark? ==> !s.buffers[s.current].written[Pc(s, a.p).index]
  {
    hide Inv;
    if a.Construct? || a.Mark? || a.Count? {
      TicketBounds(s, a.p);
      CurrentIsLast(s);
    }
  }

  lemma {:induction false} AfterIsReadIsWritten(size: nat, actions: seq<Action>)
    requires size > 0 && After(size, actions).Some?
    ensures ReadIsWritten(After(size, actions).value)
  {
    hide Inv, ReadIsWritten, Do, Enabled, Safe;
    if actions == [] {
      assert ReadIsWritten(Start(size)) by { NothingRead(size); }
    } else {
      var n := |actions| - 1;
      AfterIsReadIsWritten(size, actions[..n]);
      AfterHolds(size, actions[..n]);
      StepKeepsReadIsWritten(After(size, actions[..n]).value, actions[n]);
    }
  }

  lemma {:induction false} NothingRead(size: nat)
    requires size > 0
    ensures ReadIsWritten(Start(size))
  {
  }

  lemma {:induction false} ReaderReachesItsOwn(s: State)
    requires Inv(s)
    ensures s.retired <= |s.buffers| && (s.reader.Checks? || s.reader.Takes? ==> s.readBuffer == Some(s.retired))
  {
    hide Tickets, Owners, Rotation, Index, Mutex, Output, AllCounted, BufferOk;
  }

  /** On every run: the one step that can reach a released buffer is the count of a slot, and it does
      exactly when the reader has retired all buffers there are, the one of that slot included. */
  lemma {:induction false} OnlyCountsReachReleased(size: nat, actions: seq<Action>, a: Action)
    requires size > 0 && After(size, actions).Some? && Enabled(After(size, actions).value, a)
    ensures var s := After(size, actions).value;
            ReachesReleased(s, a) <==> a.Count? && s.retired == |s.buffers|
  {
    hide Inv;
    AfterHolds(size, actions);
    AfterIsReadIsWritten(size, actions);
    var s := After(size, actions).value;
    ReaderReachesItsOwn(s);
    WritesToCurrent(s, a);
    CurrentIsLast(s);
  }

  // ---------------------------------------------------------------------------------------------
  // One step behind
  // ---------------------------------------------------------------------------------------------

  /** The first buffer is in use; so many tickets of it are drawn and counted, and so many lines of it read. */
  predicate InFirst(s: State, size: nat, drawn: nat, counted: nat, read: nat) {
    && s.size == size && s.current == s.retired == 0 && s.queue == [0] && s.lock.None?
    && |s.buffers| == |s.issued| == |s.counted| == 1
    && |s.buffers[0].slots| == |s.buffers[0].written| == size
    && s.writeIndex == drawn && s.buffers[0].count == counted && s.readIndex == read
    && s.reader.Outside? && (s.readBuffer.None? || s.readBuffer == Some(0))
  }

  lemma {:induction false} Next(size: nat, actions: seq<Action>, s: State, a: Action) returns (more: seq<Action>, t: State)
    requires After(size, actions) == Some(s) && Enabled(s, a) && Safe(s, a)
    ensures After(size, more) == Some(t) && t == Do(s, a)
  {
    more, t := actions + [a], Do(s, a);
    assert more[..|actions|] == actions;
  }

  /** A push up to the mark of its slot. */
  lemma {:induction false} PushesOne(size: nat, actions: seq<Action>, s: State, k: nat) returns (more: seq<Action>, t: State)
    requires After(size, actions) == Some(s) && InFirst(s, size, k, k, k) && k < size && Pc(s, 0).Idle?
    ensures After(size, more) == Some(t) && InFirst(t, size, k + 1, k, k)
    ensures Pc(t, 0).Marked? && Pc(t, 0).buffer == Pc(t, 0).issuedFor == 0
    ensures t.buffers[0].written[k] && t.buffers[0].slots[k].Some?
  {
    hide After;
    more, t := Next(size, actions, s, Call(0, ""));
    more, t := Next(size, more, t, Draw(0));
    more, t := Next(size, more, t, Load(0));
    more, t := Next(size, more, t, Construct(0));
    more, t := Next(size, more, t, Mark(0));
  }

  /** A try_pop up to the end, or up to giving up the buffer. */
  lemma {:induction false} PopsOne(size: nat, actions: seq<Action>, s: State, counted: nat, k: nat)
      returns (more: seq<Action>, t: State)
    requires After(size, actions) == Some(s) && InFirst(s, size, k + 1, counted, k) && k < size
    requires s.buffers[0].written[k] && s.buffers[0].slots[k].Some?
    ensures After(size, more) == Some(t) && t.producers == s.producers
    ensures k + 1 < size ==> InFirst(t, size, k + 1, counted, k + 1)
    ensures k + 1 == size ==> t.reader.WantsRetire? && t.lock.None? && t.queue == [0] && t.buffers == s.buffers && t.retired == 0
  {
    hide After;
    more, t := Next(size, actions, s, BeginPop);
    if s.readBuffer.None? {
      more, t := Next(size, more, t, LockFront);
      more, t := Next(size, more, t, ReadFront);
      more, t := Next(size, more, t, UnlockFront);
    }
    more, t := Next(size, more, t, Check);
    more, t := Next(size, more, t, Take);
  }

  /** Lines pushed and popped one by one. */
  lemma {:induction false} OneByOne(size: nat, k: nat) returns (actions: seq<Action>, s: State)
    requires k < size
    ensures After(size, actions) == Some(s) && InFirst(s, size, k, k, k) && Pc(s, 0).Idle?
  {
    if k == 0 {
      actions, s := [], Start(size);
    } else {
      hide After;
      actions, s := OneByOne(size, k - 1);
      actions, s := PushesOne(size, actions, s, k - 1);
      actions, s := Counts(size, actions, s, k);
      actions, s := PopsOne(size, actions, s, k, k - 1);
    }
  }

  lemma {:induction false} Counts(size: nat, actions: seq<Action>, s: State, k: nat) returns (more: seq<Action>, t: State)
    requires After(size, actions) == Some(s) && 0 < k < size && InFirst(s, size, k, k - 1, k - 1)
    requires Pc(s, 0).Marked? && Pc(s, 0).buffer == Pc(s, 0).issuedFor == 0
    requires s.buffers[0].written[k - 1] && s.buffers[0].slots[k - 1].Some?
    ensures After(size, more) == Some(t) && InFirst(t, size, k, k, k - 1) && Pc(t, 0).Idle?
    ensures t.buffers[0].written[k - 1] && t.buffers[0].slots[k - 1].Some?
  {
    hide After;
    more, t := Next(size, actions, s, Count(0));
  }

  lemma {:induction false} GivesUp(size: nat, actions: seq<Action>, s: State) returns (more: seq<Action>, t: State)
    requires After(size, actions) == Some(s) && s.reader.WantsRetire? && s.lock.None? && s.queue == [0] && s.retired == 0
    ensures After(size, more) == Some(t) && t.producers == s.producers && t.retired == 1
  {
    hide After;
    more, t := Next(size, actions, s, LockRetire);
    more, t := Next(size, more, t, Retire);
    more, t := Next(size, more, t, UnlockRetire);
  }

  /** For buffers of any size there is a run after which a producer has a slot of a released buffer still
      to count. */
  lemma {:induction false} CountsTooLate(size: nat)
    requires size > 0
    ensures exists actions :: After(size, actions).Some? &&
              var s := After(size, actions).value; Enabled(s, Count(0)) && ReachesReleased(s, Count(0))
  {
    hide After;
    var actions, s := OneByOne(size, size - 1);
    actions, s := PushesOne(size, actions, s, size - 1);
    actions, s := PopsOne(size, actions, s, size - 1, size - 1);
    actions, s := GivesUp(size, actions, s);
    assert After(size, actions).Some?;
  }
}
