/** What every step of the guaranteed logger's queue keeps. */
module NanoInvariant {
  import opened NanoQueue
  import opened Wrappers

  // ---------------------------------------------------------------------------------------------
  // Where a producer stands
  // ---------------------------------------------------------------------------------------------

  /** Between drawing an index below the size and counting the slot. */
  predicate HasTicket(pc: Producer) {
    pc.Ticketed? || pc.Loaded? || pc.Constructed? || pc.Marked?
  }

  /** Between filling up a buffer and letting tickets be drawn for the next. */
  predicate Rotates(pc: Producer) {
    pc.Full? || pc.Published? || pc.Locked? || pc.Queued?
  }

  predicate HoldsLock(pc: Producer) {
    pc.Locked? || pc.Queued? || pc.Unlocking?
  }

  predicate ReaderHoldsLock(r: Reader) {
    r.HasFront? || r.LeavesFront? || r.HasRetire? || r.LeavesRetire?
  }

  /** The point the rotating producer has reached; Idle when no one rotates. */
  function Phase(s: State): Producer {
    if s.rotator.Some? then Pc(s, s.rotator.value) else Idle
  }

  /** The current buffer is new, and the write index still counts tickets of the one before. */
  predicate Stale(s: State) {
    Phase(s).Published? || Phase(s).Locked? || Phase(s).Queued?
  }

  /** How many buffers were ever put into the queue. */
  function Entered(s: State): nat {
    if Phase(s).Published? || Phase(s).Locked? then s.current else s.current + 1
  }

  // ---------------------------------------------------------------------------------------------
  // History
  // ---------------------------------------------------------------------------------------------

  /** All the tickets of these generations, in generation and then index order. */
  function InOrder(issued: seq<seq<(Id, Line)>>): seq<(Id, Line)> {
    if issued == [] then [] else InOrder(issued[..|issued| - 1]) + issued[|issued| - 1]
  }

  function Texts(tickets: seq<(Id, Line)>): (r: seq<Line>)
    ensures |r| == |tickets|
  {
    seq(|tickets|, i requires 0 <= i < |tickets| => tickets[i].1)
  }

  /** What one producer contributed. */
  function Of(tickets: seq<(Id, Line)>, p: Id): seq<Line> {
    if tickets == [] then []
    else
      var last := tickets[|tickets| - 1];
      Of(tickets[..|tickets| - 1], p) + if last.0 == p then [last.1] else []
  }

  /** The line of a push that has not drawn its ticket yet. */
  function Pending(pc: Producer): seq<Line> {
    if pc.Called? || pc.Spinning? then [pc.line] else []
  }

  /** How many generations the reader has read to the end. */
  function Finished(s: State): nat {
    if s.reader.WantsRetire? || s.reader.HasRetire? then s.retired + 1 else s.retired
  }

  // ---------------------------------------------------------------------------------------------
  // The invariant
  // ---------------------------------------------------------------------------------------------

  /** Every slot of a buffer is counted. */
  predicate AllCounted(issued: seq<(Id, Line)>, counted: set<nat>, size: nat) {
    |issued| == size && forall i | 0 <= i < size :: i in counted
  }

  /** A counted slot is marked as written, and a slot so marked holds the line of its own ticket. */
  predicate BufferOk(b: Buffer, issued: seq<(Id, Line)>, counted: set<nat>, size: nat) {
    && |b.slots| == |b.written| == size
    && |issued| <= size
    && b.count == |counted|
    && (forall i | i in counted :: i < size && b.written[i])
    && (forall i | 0 <= i < size && b.written[i] :: i < |issued| && b.slots[i] == Some(issued[i].1))
  }

  predicate Shape(s: State) {
    && s.size > 0
    && s.current + 1 == |s.buffers| == |s.issued| == |s.counted|
    && (forall g | 0 <= g < |s.buffers| :: BufferOk(s.buffers[g], s.issued[g], s.counted[g], s.size))
    && (forall g | 0 <= g < s.current :: AllCounted(s.issued[g], s.counted[g], s.size))
  }

  /** Whoever holds a ticket holds the one the history says, for this (the current) buffer. */
  predicate TicketOk(p: Id, pc: Producer, current: nat, b: Buffer, issued: seq<(Id, Line)>, counted: set<nat>)
    requires HasTicket(pc) && |b.slots| == |b.written| >= |issued|
  {
    && pc.issuedFor == current
    && pc.index < |issued|
    && issued[pc.index] == (p, pc.line)
    && pc.index !in counted
    && (pc.Ticketed? || pc.buffer == current)
    && (pc.Marked? <==> b.written[pc.index])
    && (pc.Constructed? ==> b.slots[pc.index] == Some(pc.line))
  }

  predicate Tickets(s: State)
    requires Shape(s)
  {
    forall p | p in s.producers && HasTicket(s.producers[p]) ::
      TicketOk(p, s.producers[p], s.current, s.buffers[s.current], s.issued[s.current], s.counted[s.current])
  }

  /** A ticket that is not counted is still in the hands of the producer that drew it. */
  predicate Owners(s: State)
    requires Shape(s)
  {
    forall i | 0 <= i < |s.issued[s.current]| && i !in s.counted[s.current] ::
      var p := s.issued[s.current][i].0;
      p in s.producers && HasTicket(s.producers[p]) && s.producers[p].index == i
  }

  /** At most one producer rotates, and it does so from the moment the last slot is counted. */
  predicate Rotation(s: State)
    requires Shape(s)
  {
    && (forall p | p in s.producers :: Rotates(s.producers[p]) <==> s.rotator == Some(p))
    && (s.rotator.Some? ==> s.rotator.value in s.producers)
    && (Phase(s).Full? <==> s.buffers[s.current].count == s.size)
    && (Phase(s).Full? ==> AllCounted(s.issued[s.current], s.counted[s.current], s.size))
    && (Phase(s).Published? || Phase(s).Locked? ==> Phase(s).next == s.current)
  }

  predicate Index(s: State)
    requires Shape(s)
  {
    if Stale(s) then s.issued[s.current] == [] && s.writeIndex >= s.size
    else |s.issued[s.current]| == if s.writeIndex < s.size then s.writeIndex else s.size
  }

  predicate Queue(s: State) {
    && s.retired + |s.queue| == Entered(s)
    && forall i | 0 <= i < |s.queue| :: s.queue[i] == s.retired + i
  }

  predicate Mutex(s: State) {
    && (forall p | p in s.producers :: HoldsLock(s.producers[p]) <==> s.lock == Some(Writer(p)))
    && (s.lock.Some? && s.lock.value.Writer? ==> s.lock.value.id in s.producers)
    && (s.lock == Some(TheReader) <==> ReaderHoldsLock(s.reader))
  }

  predicate ReaderOk(s: State)
    requires Shape(s) && Queue(s)
  {
    && s.readIndex < s.size
    && (s.readBuffer.None? ==> s.readIndex == 0)
    && (s.readBuffer.Some? ==> s.queue != [] && s.readBuffer.value == s.retired)
    && (s.reader.Checks? || s.reader.Takes? ==> s.readBuffer.Some?)
    && (s.reader.Takes? ==> s.buffers[s.retired].written[s.readIndex])
    && (s.reader.WantsFront? || s.reader.HasFront? || s.reader.LeavesRetire? ==> s.readBuffer.None?)
    && (s.reader.WantsRetire? || s.reader.HasRetire? ==>
          s.readBuffer.None? && s.queue != [] && |s.issued[s.retired]| == s.size)
    && (s.retired == |s.issued| ==> |s.issued[s.current]| == s.size)
  }

  /** The first n generations and k more tickets. */
  function Read(issued: seq<seq<(Id, Line)>>, n: nat, k: nat): seq<(Id, Line)>
    requires n <= |issued| && (if n < |issued| then k <= |issued[n]| else k == 0)
  {
    if n == |issued| then InOrder(issued) else InOrder(issued[..n]) + issued[n][..k]
  }

  /** What came out so far is what was drawn, up to where the reader stands. */
  predicate Output(s: State)
    requires Shape(s) && Queue(s) && ReaderOk(s)
  {
    && (Finished(s) < |s.issued| ==> s.readIndex <= |s.issued[Finished(s)]|)
    && s.popped == Texts(Read(s.issued, Finished(s), s.readIndex))
  }

  /** Every push of a producer has its ticket, in the order of the calls, except one that still waits. */
  predicate CallsOk(p: Id, pc: Producer, calls: seq<(Id, Line)>, tickets: seq<(Id, Line)>) {
    Of(calls, p) == Of(tickets, p) + Pending(pc)
  }

  predicate Inv(s: State) {
    && Shape(s) && Tickets(s) && Owners(s) && Rotation(s) && Index(s)
    && Queue(s) && Mutex(s) && ReaderOk(s) && Output(s)
  }

  lemma {:induction false} StartHolds(size: nat)
    requires size > 0
    ensures Inv(Start(size))
  {
  }

  lemma {:induction false} CallKeeps(s: State, p: Id, line: Line)
    requires Inv(s) && Enabled(s, Call(p, line))
    ensures Inv(DoCall(s, p, line))
  {
    hide BufferOk, TicketOk, AllCounted, InOrder, Texts, Read;
  }

  lemma {:induction false} DrawnLater(issued: seq<seq<(Id, Line)>>, n: nat, k: nat, ticket: (Id, Line))
    requires n < |issued| && k <= |issued[n]|
    ensures var g := |issued| - 1; Read(issued[g := issued[g] + [ticket]], n, k) == Read(issued, n, k)
  {
    var g := |issued| - 1;
    assert issued[g := issued[g] + [ticket]][..n] == issued[..n];
  }

  lemma {:induction false} NewGeneration(issued: seq<seq<(Id, Line)>>, n: nat, k: nat)
    requires n <= |issued| && (if n < |issued| then k <= |issued[n]| else k == 0)
    ensures Read(issued + [[]], n, k) == Read(issued, n, k)
  {
    assert (issued + [[]])[..n] == issued[..n];
  }

  lemma {:induction false} ReadNext(issued: seq<seq<(Id, Line)>>, n: nat, k: nat)
    requires n < |issued| && k < |issued[n]|
    ensures Texts(Read(issued, n, k)) + [issued[n][k].1] == Texts(Read(issued, n, k + 1))
    ensures k + 1 == |issued[n]| ==> Read(issued, n, k + 1) == Read(issued, n + 1, 0)
  {
    assert issued[n][..k + 1] == issued[n][..k] + [issued[n][k]];
    if k + 1 == |issued[n]| {
      assert issued[..n + 1][..n] == issued[..n];
      assert n + 1 == |issued| ==> issued[..n + 1] == issued;
    }
  }

  /** A ticket that is drawn is for the slot after those of all earlier tickets. */
  lemma {:induction false} DrawsTicket(s: State, p: Id)
    requires Inv(s) && Enabled(s, Draw(p)) && s.writeIndex < s.size
    ensures Safe(s, Draw(p)) && s.writeIndex == |s.issued[s.current]|
    ensures !Phase(s).Full? && Finished(s) <= s.current
    ensures s.writeIndex !in s.counted[s.current] && !s.buffers[s.current].written[s.writeIndex]
  {
    hide TicketOk, InOrder, Texts, Read;
    assert BufferOk(s.buffers[s.current], s.issued[s.current], s.counted[s.current], s.size);
  }

  lemma {:induction false} DrawSlots(s: State, p: Id)
    requires Inv(s) && Enabled(s, Draw(p)) && s.writeIndex < s.size
    ensures Safe(s, Draw(p))
    ensures var t := DoDraw(s, p); Shape(t) && Tickets(t) && Owners(t)
  {
    hide AllCounted, InOrder, Texts, Read, Output, Mutex, Queue, ReaderOk;
    DrawsTicket(s, p);
    var t := DoDraw(s, p);
    assert BufferOk(t.buffers[s.current], t.issued[s.current], t.counted[s.current], t.size);
    hide BufferOk;
  }

  lemma {:induction false} DrawWaits(s: State, p: Id)
    requires Inv(s) && Enabled(s, Draw(p)) && s.writeIndex >= s.size
    ensures Inv(DoDraw(s, p))
  {
    hide AllCounted, BufferOk, TicketOk, Texts, InOrder, Read;
  }

  lemma {:induction false} DrawReader(s: State, p: Id)
    requires Inv(s) && Enabled(s, Draw(p)) && s.writeIndex < s.size
    ensures Safe(s, Draw(p))
    ensures var t := DoDraw(s, p); Shape(t) && Queue(t) && ReaderOk(t) && Output(t)
  {
    DrawsTicket(s, p);
    DrawSlots(s, p);
    DrawnLater(s.issued, Finished(s), s.readIndex, (p, Pc(s, p).line));
    hide AllCounted, BufferOk, TicketOk, Texts, InOrder, Read, Tickets, Owners, Mutex, Index;
  }

  lemma {:induction false} DrawKeeps(s: State, p: Id)
    requires Inv(s) && Enabled(s, Draw(p))
    ensures Safe(s, Draw(p)) && Inv(DoDraw(s, p))
  {
    if s.writeIndex < s.size {
      DrawsTicket(s, p);
      DrawSlots(s, p);
      DrawReader(s, p);
      hide AllCounted, BufferOk, TicketOk, Texts, InOrder, Read, Tickets, Owners, Queue, ReaderOk, Output;
    } else {
      DrawWaits(s, p);
    }
  }

  lemma {:induction false} SpinKeeps(s: State, p: Id)
    requires Inv(s) && Enabled(s, Spin(p))
    ensures Inv(DoSpin(s, p))
  {
    hide BufferOk, TicketOk, AllCounted, InOrder, Texts, Read;
  }

  lemma {:induction false} LoadKeeps(s: State, p: Id)
    requires Inv(s) && Enabled(s, Load(p))
    ensures Inv(DoLoad(s, p))
  {
    hide BufferOk, AllCounted, InOrder, Texts, Read;
  }

  /** A ticket is for a slot of the current buffer. */
  lemma {:induction false} TicketBounds(s: State, p: Id)
    requires Inv(s) && HasTicket(Pc(s, p))
    ensures TicketOk(p, Pc(s, p), s.current, s.buffers[s.current], s.issued[s.current], s.counted[s.current])
    ensures |s.buffers[s.current].slots| == |s.buffers[s.current].written| == s.size
    ensures |s.issued[s.current]| <= s.size
  {
    hide InOrder, Texts, AllCounted, TicketOk;
  }

  lemma {:induction false} Constructs(b: Buffer, issued: seq<(Id, Line)>, counted: set<nat>, size: nat, i: nat, line: Line)
    requires BufferOk(b, issued, counted, size) && i < size && !b.written[i]
    ensures BufferOk(b.(slots := b.slots[i := Some(line)]), issued, counted, size)
  {
  }

  lemma {:induction false} ConstructKeeps(s: State, p: Id)
    requires Inv(s) && Enabled(s, Construct(p))
    ensures Safe(s, Construct(p)) && Inv(DoConstruct(s, p))
  {
    hide BufferOk, AllCounted, InOrder, Texts, Read;
    var pc, g := Pc(s, p), s.current;
    TicketBounds(s, p);
    var t := DoConstruct(s, p);
    assert BufferOk(t.buffers[g], t.issued[g], t.counted[g], t.size) by {
      Constructs(s.buffers[g], s.issued[g], s.counted[g], s.size, pc.index, pc.line);
    }
  }

  lemma {:induction false} Marks(b: Buffer, issued: seq<(Id, Line)>, counted: set<nat>, size: nat, i: nat)
    requires BufferOk(b, issued, counted, size) && i < |issued| && b.slots[i] == Some(issued[i].1)
    ensures BufferOk(b.(written := b.written[i := true]), issued, counted, size)
  {
  }

  lemma {:induction false} MarkKeeps(s: State, p: Id)
    requires Inv(s) && Enabled(s, Mark(p))
    ensures Safe(s, Mark(p)) && Inv(DoMark(s, p))
  {
    hide BufferOk, AllCounted, InOrder, Texts, Read;
    var pc, g := Pc(s, p), s.current;
    TicketBounds(s, p);
    var t := DoMark(s, p);
    assert BufferOk(t.buffers[g], t.issued[g], t.counted[g], t.size) by {
      Marks(s.buffers[g], s.issued[g], s.counted[g], s.size, pc.index);
    }
  }

  /** Counting a slot; when the counter reaches the size, every slot is counted. */
  lemma {:induction false} Counts(b: Buffer, issued: seq<(Id, Line)>, counted: set<nat>, size: nat, i: nat)
    requires BufferOk(b, issued, counted, size) && i < size && b.written[i] && i !in counted
    ensures BufferOk(b.(count := b.count + 1), issued, counted + {i}, size)
    ensures b.count < size
    ensures b.count + 1 == size ==> AllCounted(issued, counted + {i}, size)
  {
    var c := counted + {i};
    FullSet(c, size);
    FullSet(counted, size);
    if |c| == size {
      assert size - 1 in c;
    }
  }

  /** Numbers below n: at most n of them, and all when there are n. */
  lemma {:induction false} FullSet(c: set<nat>, n: nat)
    requires forall i | i in c :: i < n
    ensures |c| <= n
    ensures |c| == n ==> forall i | 0 <= i < n :: i in c
  {
    if n == 0 {
      assert c == {};
    } else {
      FullSet(c - {n - 1}, n - 1);
    }
  }

  lemma {:induction false} CountKeeps(s: State, p: Id)
    requires Inv(s) && Enabled(s, Count(p))
    ensures Safe(s, Count(p)) && Inv(DoCount(s, p))
  {
    hide BufferOk, AllCounted, InOrder, Texts, Read;
    var pc, g := Pc(s, p), s.current;
    TicketBounds(s, p);
    var t := DoCount(s, p);
    Counts(s.buffers[g], s.issued[g], s.counted[g], s.size, pc.index);
    assert Shape(t);
    assert Tickets(t);
    assert Owners(t);
    assert Rotation(t);
  }

  /** Once a buffer is full, no producer holds a ticket. */
  lemma {:induction false} NoTickets(s: State)
    requires Inv(s) && Phase(s).Full?
    ensures forall p | p in s.producers :: !HasTicket(s.producers[p])
  {
    hide BufferOk, InOrder, Texts, Read;
  }

  lemma {:induction false} NewBufferOk(size: nat)
    ensures BufferOk(NewBuffer(size), [], {}, size)
    ensures size > 0 ==> NewBuffer(size).count != size
  {
  }

  lemma {:induction false} PublishKeeps(s: State, p: Id)
    requires Inv(s) && Enabled(s, Publish(p))
    ensures Inv(DoPublish(s, p))
  {
    hide Texts, TicketOk, BufferOk, InOrder, Read;
    var t := DoPublish(s, p);
    NoTickets(s);
    NewBufferOk(s.size);
    assert Shape(t) && Tickets(t) && Owners(t);
    assert Rotation(t);
    assert Index(t);
    assert Queue(t) && Mutex(t) && ReaderOk(t);
    NewGeneration(s.issued, Finished(s), s.readIndex);
  }

  lemma {:induction false} LockKeeps(s: State, p: Id)
    requires Inv(s) && Enabled(s, Lock(p))
    ensures Inv(DoLock(s, p))
  {
    hide BufferOk, TicketOk, AllCounted, InOrder, Texts, Read;
  }

  lemma {:induction false} EnqueueKeeps(s: State, p: Id)
    requires Inv(s) && Enabled(s, Enqueue(p))
    ensures Inv(DoEnqueue(s, p))
  {
    hide BufferOk, TicketOk, AllCounted, InOrder, Texts, Read;
  }

  lemma {:induction false} ResetIndexKeeps(s: State, p: Id)
    requires Inv(s) && Enabled(s, ResetIndex(p))
    ensures Inv(DoResetIndex(s, p))
  {
    hide BufferOk, TicketOk, AllCounted, InOrder, Texts, Read;
  }

  lemma {:induction false} UnlockKeeps(s: State, p: Id)
    requires Inv(s) && Enabled(s, Unlock(p))
    ensures Inv(DoUnlock(s, p))
  {
    hide BufferOk, TicketOk, AllCounted, InOrder, Texts, Read;
  }

  lemma {:induction false} BeginPopKeeps(s: State)
    requires Inv(s) && Enabled(s, BeginPop)
    ensures Inv(DoBeginPop(s))
  {
    hide BufferOk, TicketOk, AllCounted, InOrder, Texts, Read;
  }

  lemma {:induction false} LockFrontKeeps(s: State)
    requires Inv(s) && Enabled(s, LockFront)
    ensures Inv(DoLockFront(s))
  {
    hide BufferOk, TicketOk, AllCounted, InOrder, Texts, Read;
  }

  lemma {:induction false} ReadFrontKeeps(s: State)
    requires Inv(s) && Enabled(s, ReadFront)
    ensures Inv(DoReadFront(s))
  {
    hide BufferOk, TicketOk, AllCounted, InOrder, Texts, Read;
  }

  lemma {:induction false} UnlockFrontKeeps(s: State)
    requires Inv(s) && Enabled(s, UnlockFront)
    ensures Inv(DoUnlockFront(s))
  {
    hide BufferOk, TicketOk, AllCounted, InOrder, Texts, Read;
  }

  lemma {:induction false} CheckKeeps(s: State)
    requires Inv(s) && Enabled(s, Check)
    ensures Safe(s, Check) && Inv(DoCheck(s))
  {
  }

  /** The line to be taken is that of the ticket the reader stands at. */
  lemma {:induction false} TakesNext(s: State)
    requires Inv(s) && s.reader.Takes?
    ensures Safe(s, Take) && s.readIndex < |s.issued[s.retired]| <= s.size
    ensures s.buffers[s.retired].slots[s.readIndex] == Some(s.issued[s.retired][s.readIndex].1)
  {
    hide InOrder, TicketOk, AllCounted, Texts, Read;
    assert BufferOk(s.buffers[s.retired], s.issued[s.retired], s.counted[s.retired], s.size);
  }

  lemma {:induction false} TakeKeeps(s: State)
    requires Inv(s) && Enabled(s, Take)
    ensures Safe(s, Take) && Inv(DoTake(s))
  {
    hide BufferOk, AllCounted, TicketOk, InOrder, Texts, Read;
    TakesNext(s);
    ReadNext(s.issued, s.retired, s.readIndex);
  }

  lemma {:induction false} LockRetireKeeps(s: State)
    requires Inv(s) && Enabled(s, LockRetire)
    ensures Inv(DoLockRetire(s))
  {
    hide BufferOk, TicketOk, AllCounted, InOrder, Texts, Read;
  }

  lemma {:induction false} RetireKeeps(s: State)
    requires Inv(s) && Enabled(s, Retire)
    ensures Safe(s, Retire) && Inv(DoRetire(s))
  {
    hide BufferOk, AllCounted, TicketOk, Texts, InOrder, Read;
  }

  lemma {:induction false} UnlockRetireKeeps(s: State)
    requires Inv(s) && Enabled(s, UnlockRetire)
    ensures Inv(DoUnlockRetire(s))
  {
    hide BufferOk, TicketOk, AllCounted, InOrder, Texts, Read;
  }
}
