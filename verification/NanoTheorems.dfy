/** The guaranteed logger's queue over whole runs: every interleaving of any number of producers with
  * the reader, from the state the constructor leaves. */
module NanoTheorems {
  import opened NanoInvariant
  import opened NanoQueue
  import opened Wrappers

  // ---------------------------------------------------------------------------------------------
  // Runs
  // ---------------------------------------------------------------------------------------------

  /** The state after these actions, if each is one that its state allows. */
  function After(size: nat, actions: seq<Action>): Option<State> {
    if actions == [] then Some(Start(size))
    else
      var n := |actions| - 1;
      var s :- After(size, actions[..n]);
      if Enabled(s, actions[n]) && Safe(s, actions[n]) then Some(Do(s, actions[n])) else None
  }

  lemma {:induction false} StepKeeps(s: State, a: Action)
    requires Inv(s) && Enabled(s, a)
    ensures Safe(s, a) && Inv(Do(s, a))
  {
    hide Inv;
    match a
    case Call(p, line) => CallKeeps(s, p, line);
    case Draw(p) => DrawKeeps(s, p);
    case Spin(p) => SpinKeeps(s, p);
    case Load(p) => LoadKeeps(s, p);
    case Construct(p) => ConstructKeeps(s, p);
    case Mark(p) => MarkKeeps(s, p);
    case Count(p) => CountKeeps(s, p);
    case Publish(p) => PublishKeeps(s, p);
    case Lock(p) => LockKeeps(s, p);
    case Enqueue(p) => EnqueueKeeps(s, p);
    case ResetIndex(p) => ResetIndexKeeps(s, p);
    case Unlock(p) => UnlockKeeps(s, p);
    case BeginPop => BeginPopKeeps(s);
    case LockFront => LockFrontKeeps(s);
    case ReadFront => ReadFrontKeeps(s);
    case UnlockFront => UnlockFrontKeeps(s);
    case Check => CheckKeeps(s);
    case Take => TakeKeeps(s);
    case LockRetire => LockRetireKeeps(s);
    case Retire => RetireKeeps(s);
    case UnlockRetire => UnlockRetireKeeps(s);
  }

  lemma {:induction false} AfterHolds(size: nat, actions: seq<Action>)
    requires size > 0 && After(size, actions).Some?
    ensures Inv(After(size, actions).value)
  {
    hide Inv, Do, Enabled, Safe;
    if actions == [] {
      StartHolds(size);
    } else {
      var n := |actions| - 1;
      AfterHolds(size, actions[..n]);
      StepKeeps(After(size, actions[..n]).value, actions[n]);
    }
  }

  /** No step of any run reads or writes outside a buffer, takes a line from a slot that holds none, or
      pops an empty queue of buffers. */
  lemma {:induction false} EveryStepIsSafe(size: nat, actions: seq<Action>, a: Action)
    requires size > 0 && After(size, actions).Some? && Enabled(After(size, actions).value, a)
    ensures Safe(After(size, actions).value, a) && After(size, actions + [a]).Some?
  {
    hide Inv, Do, Enabled, Safe;
    AfterHolds(size, actions);
    StepKeeps(After(size, actions).value, a);
    assert (actions + [a])[..|actions|] == actions;
  }

  // ---------------------------------------------------------------------------------------------
  // Tickets, slots and rotation
  // ---------------------------------------------------------------------------------------------

  /** A producer with a ticket writes, in the buffer its ticket was issued for, a slot inside that
      buffer; no other producer has that slot, and no line is in it before this producer marks it. */
  lemma {:induction false} OwnSlot(size: nat, actions: seq<Action>, p: Id, q: Id)
    requires size > 0 && After(size, actions).Some?
    ensures var s := After(size, actions).value;
            HasTicket(Pc(s, p)) ==>
              && s.current < |s.buffers| && |s.buffers[s.current].written| == size
              && Pc(s, p).index < size && Pc(s, p).issuedFor == s.current
              && (!Pc(s, p).Ticketed? ==> Pc(s, p).buffer == Pc(s, p).issuedFor)
              && (s.buffers[s.current].written[Pc(s, p).index] <==> Pc(s, p).Marked?)
              && (p != q && HasTicket(Pc(s, q)) ==> Pc(s, p).index != Pc(s, q).index)
  {
    hide Texts, InOrder, Read, AllCounted;
    AfterHolds(size, actions);
    AfterSize(size, actions);
    var s := After(size, actions).value;
    if HasTicket(Pc(s, p)) {
      TicketBounds(s, p);
      if HasTicket(Pc(s, q)) {
        TicketBounds(s, q);
      }
    }
  }

  lemma {:induction false} AfterSize(size: nat, actions: seq<Action>)
    requires After(size, actions).Some?
    ensures After(size, actions).value.size == size
  {
    hide Do, Enabled, Safe;
    if actions != [] {
      var n := |actions| - 1;
      AfterSize(size, actions[..n]);
      SameSize(After(size, actions[..n]).value, actions[n]);
    }
  }

  lemma {:induction false} SameSize(s: State, a: Action)
    requires Enabled(s, a) && Safe(s, a)
    ensures Do(s, a).size == s.size
  {
  }

  /** A buffer whose counter has reached the size is rotated by exactly one producer, and no ticket for
      it is outstanding; until its successor hands out tickets no other producer rotates. */
  lemma {:induction false} OneRotator(size: nat, actions: seq<Action>, p: Id, q: Id)
    requires size > 0 && After(size, actions).Some?
    ensures var s := After(size, actions).value;
            && s.current < |s.buffers|
            && (Rotates(Pc(s, p)) && Rotates(Pc(s, q)) ==> p == q)
            && (Pc(s, p).Full? ==> !HasTicket(Pc(s, q)) && s.buffers[s.current].count == size)
            && (s.buffers[s.current].count == size ==> s.rotator.Some? && Pc(s, s.rotator.value).Full?)
            && (Pc(s, p).Published? || Pc(s, p).Locked? || Pc(s, p).Queued? ==> !HasTicket(Pc(s, q)))
  {
    hide Texts, InOrder, Read, AllCounted, BufferOk;
    AfterHolds(size, actions);
    AfterSize(size, actions);
    var s := After(size, actions).value;
    if Pc(s, p).Full? {
      NoTickets(s);
    }
    if HasTicket(Pc(s, q)) {
      TicketBounds(s, q);
    }
  }

  /** The producers that filled a generation in this run: the count of each made its counter the size. */
  function Fillers(size: nat, actions: seq<Action>, g: nat): seq<Id>
    requires After(size, actions).Some?
  {
    if actions == [] then []
    else
      var n := |actions| - 1;
      var s := After(size, actions[..n]).value;
      Fillers(size, actions[..n], g) + if Fills(s, actions[n], g) then [actions[n].p] else []
  }

  predicate Fills(s: State, a: Action, g: nat) {
    a.Count? && Enabled(s, a) && Safe(s, a) && Pc(s, a.p).buffer == g && s.buffers[g].count + 1 == s.size
  }

  /** The producers that put a new buffer in the place of this generation. */
  function Rotators(size: nat, actions: seq<Action>, g: nat): seq<Id>
    requires After(size, actions).Some?
  {
    if actions == [] then []
    else
      var n := |actions| - 1;
      var s := After(size, actions[..n]).value;
      Rotators(size, actions[..n], g) + if actions[n].Publish? && s.current == g then [actions[n].p] else []
  }

  /** Up to a state with this current generation and rotator: each generation before it was filled once
      and replaced by its filler, it itself is at most filled, and none after it is either. */
  predicate RotatedBy(s: State, g: nat, fillers: seq<Id>, rotators: seq<Id>) {
    if g < s.current then |rotators| == 1 && fillers == rotators
    else rotators == [] && fillers == if g == s.current && Phase(s).Full? then [s.rotator.value] else []
  }

  lemma {:induction false} CountKeepsRotatedBy(s: State, p: Id, g: nat, fillers: seq<Id>, rotators: seq<Id>)
    requires Inv(s) && Enabled(s, Count(p)) && Safe(s, Count(p)) && RotatedBy(s, g, fillers, rotators)
    ensures RotatedBy(Do(s, Count(p)), g, fillers + (if Fills(s, Count(p), g) then [p] else []), rotators)
  {
    hide BufferOk, AllCounted, InOrder, Texts, Read, Output, ReaderOk, Mutex, Queue, Owners, Index;
    TicketBounds(s, p);
  }

  lemma {:induction false} PublishKeepsRotatedBy(s: State, p: Id, g: nat, fillers: seq<Id>, rotators: seq<Id>)
    requires Inv(s) && Enabled(s, Publish(p)) && RotatedBy(s, g, fillers, rotators)
    ensures RotatedBy(Do(s, Publish(p)), g, fillers, rotators + if s.current == g then [p] else [])
  {
    hide BufferOk, AllCounted, InOrder, Texts, Read, Output, ReaderOk, Mutex, Queue, Owners, Tickets, Index;
  }

  /** The others leave the current generation, and whether it is full. */
  lemma {:induction false} OthersKeepRotatedBy(s: State, a: Action, g: nat, fillers: seq<Id>, rotators: seq<Id>)
    requires Inv(s) && Enabled(s, a) && Safe(s, a) && !a.Count? && !a.Publish? && RotatedBy(s, g, fillers, rotators)
    ensures RotatedBy(Do(s, a), g, fillers, rotators)
  {
    hide Shape, Output, ReaderOk, Mutex, Queue, Owners, Tickets, Index;
  }

  lemma {:induction false} StepKeepsRotatedBy(s: State, a: Action, g: nat, fillers: seq<Id>, rotators: seq<Id>)
    requires Inv(s) && Enabled(s, a) && Safe(s, a) && RotatedBy(s, g, fillers, rotators)
    ensures var t := Do(s, a);
            RotatedBy(t, g, fillers + (if Fills(s, a, g) then [a.p] else []),
                      rotators + (if a.Publish? && s.current == g then [a.p] else []))
  {
    hide Inv, RotatedBy, Do, Enabled, Safe;
    assert fillers + [] == fillers && rotators + [] == rotators;
    match a
    case Count(p) => CountKeepsRotatedBy(s, p, g, fillers, rotators);
    case Publish(p) => PublishKeepsRotatedBy(s, p, g, fillers, rotators);
    case _ => OthersKeepRotatedBy(s, a, g, fillers, rotators);
  }

  /** Over every run: each generation before the current one was filled by exactly one producer and
      replaced exactly once, by that producer; the current one was not replaced yet. */
  lemma {:induction false} RotatedByItsFiller(size: nat, actions: seq<Action>, g: nat)
    requires size > 0 && After(size, actions).Some?
    ensures RotatedBy(After(size, actions).value, g, Fillers(size, actions, g), Rotators(size, actions, g))
  {
    hide Inv, Do, Enabled, Safe, RotatedBy, Fills;
    if actions == [] {
      NotRotated(size, g);
    } else {
      var n := |actions| - 1;
      RotatedByItsFiller(size, actions[..n], g);
      AfterHolds(size, actions[..n]);
      StepKeepsRotatedBy(After(size, actions[..n]).value, actions[n], g,
                         Fillers(size, actions[..n], g), Rotators(size, actions[..n], g));
    }
  }

  lemma {:induction false} NotRotated(size: nat, g: nat)
    ensures RotatedBy(Start(size), g, [], [])
  {
  }

  /** A producer that waits for a new buffer does not wait in vain: as long as the write index is past
      the end, another producer still holds a ticket of the full buffer or is rotating it. */
  lemma {:induction false} WaitsForSomeone(size: nat, actions: seq<Action>)
    requires size > 0 && After(size, actions).Some?
    requires After(size, actions).value.writeIndex >= size
    ensures var s := After(size, actions).value;
            exists q :: q in s.producers && (HasTicket(s.producers[q]) || Rotates(s.producers[q]))
  {
    hide Texts, InOrder, Read;
    AfterHolds(size, actions);
    AfterSize(size, actions);
    var s := After(size, actions).value;
    if s.rotator.Some? {
      assert s.rotator.value in s.producers;
    } else {
      var issued, counted := s.issued[s.current], s.counted[s.current];
      assert BufferOk(s.buffers[s.current], issued, counted, size);
      if forall i | 0 <= i < size :: i in counted {
        AllMembers(counted, size);
        assert false;
      }
      var i :| 0 <= i < size && i !in counted;
      assert issued[i].0 in s.producers;
    }
  }

  /** A step that some thread can take towards the end of its push or try_pop: no new call, and no idle
      turn of the waiting loop. */
  predicate MovesOn(s: State, a: Action) {
    Enabled(s, a) && !a.Call? && !a.BeginPop? && (a.Spin? ==> s.writeIndex < s.size)
  }

  lemma {:induction false} ProducerMovesOn(s: State, p: Id) returns (a: Action)
    requires !Pc(s, p).Idle? && (Pc(s, p).Spinning? ==> s.writeIndex < s.size) && (Pc(s, p).Published? ==> s.lock.None?)
    ensures MovesOn(s, a)
  {
    a := match Pc(s, p)
         case Called(_) => Draw(p)
         case Spinning(_) => Spin(p)
         case Ticketed(_, _, _) => Load(p)
         case Loaded(_, _, _, _) => Construct(p)
         case Constructed(_, _, _, _) => Mark(p)
         case Marked(_, _, _, _) => Count(p)
         case Full => Publish(p)
         case Published(_) => Lock(p)
         case Locked(_) => Enqueue(p)
         case Queued => ResetIndex(p)
         case _ => Unlock(p);
  }

  lemma {:induction false} ReaderMovesOn(s: State) returns (a: Action)
    requires !s.reader.Outside? && (s.reader.WantsFront? || s.reader.WantsRetire? ==> s.lock.None?)
    ensures MovesOn(s, a)
  {
    a := match s.reader
         case WantsFront => LockFront
         case HasFront => ReadFront
         case LeavesFront => UnlockFront
         case Checks => Check
         case Takes => Take
         case WantsRetire => LockRetire
         case HasRetire => Retire
         case _ => UnlockRetire;
  }

  lemma {:induction false} LockHolder(s: State)
    requires Inv(s) && s.lock.Some?
    ensures match s.lock.value case Writer(p) => HoldsLock(Pc(s, p)) case TheReader => ReaderHoldsLock(s.reader)
  {
    hide Shape, Tickets, Owners, Rotation, Index, Queue, ReaderOk, Output;
  }

  /** No run can get stuck: unless every thread is outside push and try_pop, one of them can go on. */
  lemma {:induction false} NeverStuck(size: nat, actions: seq<Action>)
    requires size > 0 && After(size, actions).Some? && !Quiet(After(size, actions).value)
    ensures var s := After(size, actions).value; exists a :: MovesOn(s, a)
  {
    hide Inv, MovesOn, Enabled;
    AfterHolds(size, actions);
    AfterSize(size, actions);
    var s := After(size, actions).value;
    if s.lock.Some? {
      LockHolder(s);
      match s.lock.value
      case Writer(p) => var a := ProducerMovesOn(s, p);
      case TheReader => var a := ReaderMovesOn(s);
    } else if !s.reader.Outside? {
      var a := ReaderMovesOn(s);
    } else {
      var p :| p in s.producers && !s.producers[p].Idle?;
      if s.producers[p].Spinning? && s.writeIndex >= size {
        WaitsForSomeone(size, actions);
        var q :| q in s.producers && (HasTicket(s.producers[q]) || Rotates(s.producers[q]));
        var a := ProducerMovesOn(s, q);
      } else {
        var a := ProducerMovesOn(s, p);
      }
    }
  }

  /** A set of numbers below n that has them all has n elements. */
  lemma {:induction false} AllMembers(c: set<nat>, n: nat)
    requires forall i | i in c :: i < n
    requires forall i | 0 <= i < n :: i in c
    ensures |c| == n
  {
    if n == 0 {
      assert c == {};
    } else {
      AllMembers(c - {n - 1}, n - 1);
    }
  }

  // ---------------------------------------------------------------------------------------------
  // Order
  // ---------------------------------------------------------------------------------------------

  lemma {:induction false} OfNext(tickets: seq<(Id, Line)>, t: (Id, Line), p: Id)
    ensures Of(tickets + [t], p) == Of(tickets, p) + if t.0 == p then [t.1] else []
  {
    assert (tickets + [t])[..|tickets|] == tickets;
  }

  lemma {:induction false} OfPrefix(tickets: seq<(Id, Line)>, n: nat, p: Id)
    requires n <= |tickets|
    ensures Of(tickets[..n], p) <= Of(tickets, p)
  {
    if n == |tickets| {
      assert tickets[..n] == tickets;
    } else {
      var m := |tickets| - 1;
      OfPrefix(tickets[..m], n, p);
      assert tickets[..m][..n] == tickets[..n];
    }
  }

  lemma {:induction false} DrawInOrder(issued: seq<seq<(Id, Line)>>, t: (Id, Line))
    requires issued != []
    ensures var g := |issued| - 1; InOrder(issued[g := issued[g] + [t]]) == InOrder(issued) + [t]
  {
    var g := |issued| - 1;
    assert issued[g := issued[g] + [t]][..g] == issued[..g];
    assert InOrder(issued[..g]) + (issued[g] + [t]) == InOrder(issued) + [t];
  }

  lemma {:induction false} StepKeepsCalls(s: State, a: Action, p: Id)
    requires s.current + 1 == |s.issued| && Enabled(s, a) && Safe(s, a)
    requires CallsOk(p, Pc(s, p), s.calls, InOrder(s.issued))
    ensures var t := Do(s, a); CallsOk(p, Pc(t, p), t.calls, InOrder(t.issued))
  {
    hide InOrder, Of;
    match a
    case Call(q, line) =>
      OfNext(s.calls, (q, line), p);
    case Draw(q) =>
      if s.writeIndex < s.size {
        DrawInOrder(s.issued, (q, Pc(s, q).line));
        OfNext(InOrder(s.issued), (q, Pc(s, q).line), p);
      }
    case Publish(q) =>
      EmptyGeneration(s.issued);
    case _ =>
  }

  lemma {:induction false} CurrentIsLast(s: State)
    requires Inv(s)
    ensures s.current + 1 == |s.issued| == |s.buffers|
  {
    hide BufferOk, AllCounted;
  }

  lemma {:induction false} EmptyGeneration(issued: seq<seq<(Id, Line)>>)
    ensures InOrder(issued + [[]]) == InOrder(issued)
  {
    assert (issued + [[]])[..|issued|] == issued;
  }

  /** A producer's tickets are for the lines it passed to push, in that order; only a push that still
      waits for its ticket is missing. */
  lemma {:induction false} TicketsFollowCalls(size: nat, actions: seq<Action>, p: Id)
    requires size > 0 && After(size, actions).Some?
    ensures var s := After(size, actions).value;
            Of(s.calls, p) == Of(InOrder(s.issued), p) + Pending(Pc(s, p))
  {
    hide Inv, Do, Enabled, Safe;
    if actions == [] {
      assert InOrder(Start(size).issued) == [];
    } else {
      var n := |actions| - 1;
      TicketsFollowCalls(size, actions[..n], p);
      AfterHolds(size, actions[..n]);
      CurrentIsLast(After(size, actions[..n]).value);
      StepKeepsCalls(After(size, actions[..n]).value, actions[n], p);
    }
  }

  lemma {:induction false} ReadIsPrefix(issued: seq<seq<(Id, Line)>>, n: nat, k: nat)
    requires n <= |issued| && (if n < |issued| then k <= |issued[n]| else k == 0)
    ensures Read(issued, n, k) <= InOrder(issued)
    decreases |issued|
  {
    var g := |issued| - 1;
    if n < g {
      ReadIsPrefix(issued[..g], n, k);
      assert issued[..g][..n] == issued[..n];
    }
  }

  /** The lines try_pop returned are exactly the first ones drawn, in generation and then slot order. */
  lemma {:induction false} PoppedInTicketOrder(size: nat, actions: seq<Action>)
    requires size > 0 && After(size, actions).Some?
    ensures var s := After(size, actions).value;
            && |s.popped| <= |InOrder(s.issued)|
            && s.popped == Texts(InOrder(s.issued)[..|s.popped|])
  {
    hide InOrder, BufferOk, AllCounted, Owners, Tickets, Rotation, Index, Mutex;
    AfterHolds(size, actions);
    var s := After(size, actions).value;
    ReadIsPrefix(s.issued, Finished(s), s.readIndex);
  }

  /** What came out of one producer is a prefix of what it pushed, in the order in which it pushed. */
  lemma {:induction false} ProducerOrder(size: nat, actions: seq<Action>, p: Id)
    requires size > 0 && After(size, actions).Some?
    ensures var s := After(size, actions).value;
            && |s.popped| <= |InOrder(s.issued)|
            && Of(InOrder(s.issued)[..|s.popped|], p) <= Of(s.calls, p)
  {
    PoppedInTicketOrder(size, actions);
    TicketsFollowCalls(size, actions, p);
    var s := After(size, actions).value;
    OfPrefix(InOrder(s.issued), |s.popped|, p);
  }

  // ---------------------------------------------------------------------------------------------
  // The shutdown drain
  // ---------------------------------------------------------------------------------------------

  /** No producer is inside push and the reader is between two calls. */
  predicate Quiet(s: State) {
    s.reader.Outside? && s.lock.None? && forall p | p in s.producers :: s.producers[p].Idle?
  }

  /** try_pop when no other thread takes a step. */
  function TryPop(s: State): (r: (State, bool))
    requires Inv(s) && Quiet(s)
    ensures Inv(r.0) && Quiet(r.0)
  {
    hide Inv;
    BeginPopKeeps(s);
    var a := DoBeginPop(s);
    var b := if a.reader.WantsFront? then FindFront(a) else a;
    if b.reader.Outside? then (b, false)
    else
      CheckKeeps(b);
      var c := DoCheck(b);
      if c.reader.Outside? then (c, false)
      else
        TakeKeeps(c);
        var d := DoTake(c);
        (if d.reader.WantsRetire? then GiveUp(d) else d, true)
  }

  function FindFront(s: State): (r: State)
    requires Inv(s) && s.reader.WantsFront? && s.lock.None?
    ensures Inv(r) && r.lock.None? && r.producers == s.producers && (r.reader.Outside? || r.reader.Checks?)
  {
    hide Inv;
    LockFrontKeeps(s);
    ReadFrontKeeps(DoLockFront(s));
    UnlockFrontKeeps(DoReadFront(DoLockFront(s)));
    DoUnlockFront(DoReadFront(DoLockFront(s)))
  }

  function GiveUp(s: State): (r: State)
    requires Inv(s) && s.reader.WantsRetire? && s.lock.None?
    ensures Inv(r) && r.lock.None? && r.producers == s.producers && r.reader.Outside?
  {
    hide Inv;
    LockRetireKeeps(s);
    RetireKeeps(DoLockRetire(s));
    UnlockRetireKeeps(DoRetire(DoLockRetire(s)));
    DoUnlockRetire(DoRetire(DoLockRetire(s)))
  }

  /** In a quiet state every ticket was counted, so its line lies in its slot. */
  lemma {:induction false} QuietIsWritten(s: State, g: nat, i: nat)
    requires Inv(s) && Quiet(s) && g < |s.issued| && i < |s.issued[g]|
    ensures i < s.size == |s.buffers[g].written| && s.buffers[g].written[i]
  {
    hide TicketOk, InOrder, Texts, Read;
    assert BufferOk(s.buffers[g], s.issued[g], s.counted[g], s.size);
  }

  lemma {:induction false} QuietRotatesNot(s: State)
    requires Inv(s) && Quiet(s)
    ensures s.rotator.None?
  {
    hide BufferOk, TicketOk, InOrder, Texts, AllCounted;
  }

  /** When no one pushes, try_pop fails only if there is nothing left. */
  lemma {:induction false} FailsWhenEmpty(s: State)
    requires Inv(s) && Quiet(s)
    ensures var (t, ok) := TryPop(s);
            && t.issued == s.issued
            && (ok ==> t.popped != [] && t.popped[..|t.popped| - 1] == s.popped)
            && (!ok ==> t.popped == s.popped == Texts(InOrder(s.issued)))
  {
    hide BufferOk, TicketOk, InOrder, Texts, AllCounted, Owners, Tickets, Mutex, Index, Rotation;
    QuietRotatesNot(s);
    var g := s.retired;
    if g < |s.issued| {
      if s.readIndex < |s.issued[g]| {
        QuietIsWritten(s, g, s.readIndex);
      } else {
        ReadToEnd(s);
      }
    }
  }

  lemma {:induction false} ReadToEnd(s: State)
    requires Inv(s) && Quiet(s) && s.retired < |s.issued| && s.readIndex == |s.issued[s.retired]|
    ensures s.retired == s.current && Read(s.issued, s.retired, s.readIndex) == InOrder(s.issued)
    ensures s.readIndex < |s.buffers[s.current].written| && !s.buffers[s.current].written[s.readIndex]
  {
    hide BufferOk, TicketOk, Texts;
    var issued, buffer := s.issued[s.retired], s.buffers[s.retired];
    assert issued[..|issued|] == issued;
    assert BufferOk(buffer, issued, s.counted[s.retired], s.size);
    NotBeyond(buffer, issued, s.counted[s.retired], s.size);
  }

  lemma {:induction false} NotBeyond(b: Buffer, issued: seq<(Id, Line)>, counted: set<nat>, size: nat)
    requires BufferOk(b, issued, counted, size) && |issued| < size
    ensures |b.written| == size && !b.written[|issued|]
  {
  }

  lemma {:induction false} PoppedAtMost(s: State)
    requires Inv(s)
    ensures |s.popped| <= |InOrder(s.issued)|
  {
    hide BufferOk, TicketOk, InOrder, AllCounted;
    ReadIsPrefix(s.issued, Finished(s), s.readIndex);
  }

  /** The loop at the end of NanoLogger::pop. From any quiet state it ends, and by then it has written
      every line that was left, across buffers and in ticket order, and a further try_pop fails. */
  method Drain(s: State) returns (t: State, lines: seq<Line>)
    requires Inv(s) && Quiet(s)
    ensures Inv(t) && Quiet(t) && t.issued == s.issued && t.popped == Texts(InOrder(s.issued))
    ensures s.popped + lines == Texts(InOrder(s.issued))
    ensures !TryPop(t).1
  {
    hide Inv, Quiet, TryPop, InOrder, Texts;
    lines := [];
    t := s;
    var more := true;
    while more
      invariant Inv(t) && Quiet(t) && t.issued == s.issued && t.popped == s.popped + lines
      invariant more || t.popped == Texts(InOrder(s.issued))
      decreases |InOrder(s.issued)| - |t.popped|, more
    {
      FailsWhenEmpty(t);
      var r := TryPop(t);
      t, more := r.0, r.1;
      PoppedAtMost(t);
      if more {
        lines := lines + [t.popped[|t.popped| - 1]];
      }
    }
    FailsWhenEmpty(t);
    PoppedAtMost(TryPop(t).0);
  }

  /** In a run that has come to rest, the tickets of each producer are all its pushes, so that a drain
      loses none of them. */
  lemma {:induction false} NothingLost(size: nat, actions: seq<Action>, p: Id)
    requires size > 0 && After(size, actions).Some? && Quiet(After(size, actions).value)
    ensures var s := After(size, actions).value; Inv(s) && Of(InOrder(s.issued), p) == Of(s.calls, p)
  {
    hide Inv, Of, InOrder;
    AfterHolds(size, actions);
    TicketsFollowCalls(size, actions, p);
    var s := After(size, actions).value;
    assert Pending(Pc(s, p)) == [];
    assert Of(InOrder(s.issued), p) + [] == Of(InOrder(s.issued), p);
  }
}
