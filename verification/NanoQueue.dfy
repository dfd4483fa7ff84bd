/**
  * The guaranteed logger's queue (3rd_party/NanoLog/NanoLog.cpp): any number of producers push log
  * lines, one reader pops them. A state holds every shared variable, the point each thread has reached,
  * and a history of what was asked and what was handed out. An action is one atomic step of one thread.
  */
module NanoQueue {
  import opened Wrappers

  type Line = string
  type Id = nat

  /** A Buffer: item memory, the write states, and the counter kept in the last write state. */
  datatype Buffer = Buffer(slots: seq<Option<Line>>, written: seq<bool>, count: nat)

  function NewBuffer(size: nat): Buffer {
    Buffer(seq(size, _ => None), seq(size, _ => false), 0)
  }

  /** The point a producer has reached inside push. A ticket carries, besides the index it shows, the
      generation of the buffer it was issued for. */
  datatype Producer =
    | Idle
    | Called(line: Line)
    | Spinning(line: Line)
    | Ticketed(line: Line, index: nat, issuedFor: nat)
    | Loaded(line: Line, index: nat, issuedFor: nat, buffer: nat)
    | Constructed(line: Line, index: nat, issuedFor: nat, buffer: nat)
    | Marked(line: Line, index: nat, issuedFor: nat, buffer: nat)
    | Full
    | Published(next: nat)
    | Locked(next: nat)
    | Queued
    | Unlocking

  /** The point the reader has reached inside try_pop. */
  datatype Reader = Outside | WantsFront | HasFront | LeavesFront | Checks | Takes | WantsRetire | HasRetire | LeavesRetire

  datatype Thread = Writer(id: Id) | TheReader

  /** Buffers are numbered by generation. The last six fields record history: which producer drew the
      tickets of each generation for which line, which of them are counted, who rotates, how many
      buffers were retired, which lines were passed to push, and which came out of try_pop. */
  datatype State = State(
    size: nat,
    buffers: seq<Buffer>,
    current: nat,
    queue: seq<nat>,
    writeIndex: nat,
    lock: Option<Thread>,
    readBuffer: Option<nat>,
    readIndex: nat,
    producers: map<Id, Producer>,
    reader: Reader,
    issued: seq<seq<(Id, Line)>>,
    counted: seq<set<nat>>,
    rotator: Option<Id>,
    retired: nat,
    calls: seq<(Id, Line)>,
    popped: seq<Line>)

  /** The queue as its constructor leaves it. */
  function Start(size: nat): State {
    State(size, [NewBuffer(size)], 0, [0], 0, None, None, 0, map[], Outside, [[]], [{}], None, 0, [], [])
  }

  function Pc(s: State, p: Id): Producer {
    if p in s.producers then s.producers[p] else Idle
  }

  function Move(s: State, p: Id, pc: Producer): State {
    s.(producers := s.producers[p := pc])
  }

  // ---------------------------------------------------------------------------------------------
  // The steps of push
  // ---------------------------------------------------------------------------------------------

  datatype Action =
    | Call(p: Id, line: Line)
    | Draw(p: Id)
    | Spin(p: Id)
    | Load(p: Id)
    | Construct(p: Id)
    | Mark(p: Id)
    | Count(p: Id)
    | Publish(p: Id)
    | Lock(p: Id)
    | Enqueue(p: Id)
    | ResetIndex(p: Id)
    | Unlock(p: Id)
    | BeginPop
    | LockFront
    | ReadFront
    | UnlockFront
    | Check
    | Take
    | LockRetire
    | Retire
    | UnlockRetire

  /** Which actions a state allows: the thread is at that point, and a lock to be taken is free. */
  predicate Enabled(s: State, a: Action) {
    match a
    case Call(p, _) => Pc(s, p).Idle?
    case Draw(p) => Pc(s, p).Called?
    case Spin(p) => Pc(s, p).Spinning?
    case Load(p) => Pc(s, p).Ticketed?
    case Construct(p) => Pc(s, p).Loaded?
    case Mark(p) => Pc(s, p).Constructed?
    case Count(p) => Pc(s, p).Marked?
    case Publish(p) => Pc(s, p).Full?
    case Lock(p) => Pc(s, p).Published? && s.lock.None?
    case Enqueue(p) => Pc(s, p).Locked?
    case ResetIndex(p) => Pc(s, p).Queued?
    case Unlock(p) => Pc(s, p).Unlocking?
    case BeginPop => s.reader.Outside?
    case LockFront => s.reader.WantsFront? && s.lock.None?
    case ReadFront => s.reader.HasFront?
    case UnlockFront => s.reader.LeavesFront?
    case Check => s.reader.Checks?
    case Take => s.reader.Takes?
    case LockRetire => s.reader.WantsRetire? && s.lock.None?
    case Retire => s.reader.HasRetire?
    case UnlockRetire => s.reader.LeavesRetire?
  }

  /** The memory accesses of an action stay inside a buffer, and pop finds a queue that is not empty. */
  predicate Safe(s: State, a: Action) {
    match a
    case Draw(p) => s.current < |s.issued|
    case Construct(p) => Pc(s, p).Loaded? && var pc := Pc(s, p); pc.buffer < |s.buffers| && pc.index < |s.buffers[pc.buffer].slots|
    case Mark(p) => Pc(s, p).Constructed? && var pc := Pc(s, p); pc.buffer < |s.buffers| && pc.index < |s.buffers[pc.buffer].written|
    case Count(p) => Pc(s, p).Marked? && var pc := Pc(s, p); pc.buffer < |s.buffers| && pc.issuedFor < |s.counted|
    case Check => s.readBuffer.Some? && s.readBuffer.value < |s.buffers| && s.readIndex < |s.buffers[s.readBuffer.value].written|
    case Take =>
      && s.readBuffer.Some? && s.readBuffer.value < |s.buffers|
      && s.readIndex < |s.buffers[s.readBuffer.value].slots|
      && s.buffers[s.readBuffer.value].slots[s.readIndex].Some?
    case Retire => s.queue != []
    case _ => true
  }

  /** push is called. */
  function DoCall(s: State, p: Id, line: Line): State {
    Move(s, p, Called(line)).(calls := s.calls + [(p, line)])
  }

  /** m_write_index.fetch_add(1) and the test of its result. */
  function DoDraw(s: State, p: Id): State
    requires Enabled(s, Draw(p)) && Safe(s, Draw(p))
  {
    var line := Pc(s, p).line;
    if s.writeIndex < s.size then
      Move(s, p, Ticketed(line, s.writeIndex, s.current)).(
        writeIndex := s.writeIndex + 1,
        issued := s.issued[s.current := s.issued[s.current] + [(p, line)]])
    else Move(s, p, Spinning(line)).(writeIndex := s.writeIndex + 1)
  }

  /** One turn of the loop that waits for a new buffer; at its end push calls itself. */
  function DoSpin(s: State, p: Id): State
    requires Enabled(s, Spin(p))
  {
    if s.writeIndex < s.size then Move(s, p, Called(Pc(s, p).line)) else s
  }

  /** m_current_write_buffer.load */
  function DoLoad(s: State, p: Id): State
    requires Enabled(s, Load(p))
  {
    var pc := Pc(s, p);
    Move(s, p, Loaded(pc.line, pc.index, pc.issuedFor, s.current))
  }

  /** The item is constructed in its slot. */
  function DoConstruct(s: State, p: Id): State
    requires Enabled(s, Construct(p)) && Safe(s, Construct(p))
  {
    var pc := Pc(s, p);
    var b := s.buffers[pc.buffer];
    Move(s, p, Constructed(pc.line, pc.index, pc.issuedFor, pc.buffer)).(
      buffers := s.buffers[pc.buffer := b.(slots := b.slots[pc.index := Some(pc.line)])])
  }

  /** m_write_state[write_index].store(1) */
  function DoMark(s: State, p: Id): State
    requires Enabled(s, Mark(p)) && Safe(s, Mark(p))
  {
    var pc := Pc(s, p);
    var b := s.buffers[pc.buffer];
    Move(s, p, Marked(pc.line, pc.index, pc.issuedFor, pc.buffer)).(
      buffers := s.buffers[pc.buffer := b.(written := b.written[pc.index := true])])
  }

  /** m_write_state[size].fetch_add(1) + 1 == size */
  function DoCount(s: State, p: Id): State
    requires Enabled(s, Count(p)) && Safe(s, Count(p))
  {
    var pc := Pc(s, p);
    var b := s.buffers[pc.buffer];
    var last := b.count + 1 == s.size;
    Move(s, p, if last then Full else Idle).(
      buffers := s.buffers[pc.buffer := b.(count := b.count + 1)],
      counted := s.counted[pc.issuedFor := s.counted[pc.issuedFor] + {pc.index}],
      rotator := if last then Some(p) else s.rotator)
  }

  /** setup_next_write_buffer: a new buffer becomes the current one. */
  function DoPublish(s: State, p: Id): State {
    Move(s, p, Published(|s.buffers|)).(
      buffers := s.buffers + [NewBuffer(s.size)], current := |s.buffers|,
      issued := s.issued + [[]], counted := s.counted + [{}])
  }

  function DoLock(s: State, p: Id): State
    requires Enabled(s, Lock(p))
  {
    Move(s, p, Locked(Pc(s, p).next)).(lock := Some(Writer(p)))
  }

  function DoEnqueue(s: State, p: Id): State
    requires Enabled(s, Enqueue(p))
  {
    Move(s, p, Queued).(queue := s.queue + [Pc(s, p).next])
  }

  /** m_write_index.store(0): from here on tickets are for the new buffer. */
  function DoResetIndex(s: State, p: Id): State {
    Move(s, p, Unlocking).(writeIndex := 0, rotator := None)
  }

  function DoUnlock(s: State, p: Id): State {
    Move(s, p, Idle).(lock := None)
  }

  // ---------------------------------------------------------------------------------------------
  // The steps of try_pop
  // ---------------------------------------------------------------------------------------------

  function DoBeginPop(s: State): State {
    s.(reader := if s.readBuffer.None? then WantsFront else Checks)
  }

  function DoLockFront(s: State): State {
    s.(reader := HasFront, lock := Some(TheReader))
  }

  /** get_next_read_buffer */
  function DoReadFront(s: State): State {
    s.(reader := LeavesFront, readBuffer := if s.queue == [] then None else Some(s.queue[0]))
  }

  function DoUnlockFront(s: State): State {
    s.(reader := if s.readBuffer.None? then Outside else Checks, lock := None)
  }

  /** m_write_state[read_index].load() */
  function DoCheck(s: State): State
    requires Safe(s, Check)
  {
    s.(reader := if s.buffers[s.readBuffer.value].written[s.readIndex] then Takes else Outside)
  }

  /** The line is moved out; a buffer read to its end is given up. */
  function DoTake(s: State): State
    requires Safe(s, Take)
  {
    var t := s.(popped := s.popped + [s.buffers[s.readBuffer.value].slots[s.readIndex].value]);
    if s.readIndex + 1 == s.size then t.(readIndex := 0, readBuffer := None, reader := WantsRetire)
    else t.(readIndex := s.readIndex + 1, reader := Outside)
  }

  function DoLockRetire(s: State): State {
    s.(reader := HasRetire, lock := Some(TheReader))
  }

  /** m_buffers.pop() */
  function DoRetire(s: State): State
    requires Safe(s, Retire)
  {
    s.(reader := LeavesRetire, queue := s.queue[1..], retired := s.retired + 1)
  }

  function DoUnlockRetire(s: State): State {
    s.(reader := Outside, lock := None)
  }

  function Do(s: State, a: Action): State
    requires Enabled(s, a) && Safe(s, a)
  {
    match a
    case Call(p, line) => DoCall(s, p, line)
    case Draw(p) => DoDraw(s, p)
    case Spin(p) => DoSpin(s, p)
    case Load(p) => DoLoad(s, p)
    case Construct(p) => DoConstruct(s, p)
    case Mark(p) => DoMark(s, p)
    case Count(p) => DoCount(s, p)
    case Publish(p) => DoPublish(s, p)
    case Lock(p) => DoLock(s, p)
    case Enqueue(p) => DoEnqueue(s, p)
    case ResetIndex(p) => DoResetIndex(s, p)
    case Unlock(p) => DoUnlock(s, p)
    case BeginPop => DoBeginPop(s)
    case LockFront => DoLockFront(s)
    case ReadFront => DoReadFront(s)
    case UnlockFront => DoUnlockFront(s)
    case Check => DoCheck(s)
    case Take => DoTake(s)
    case LockRetire => DoLockRetire(s)
    case Retire => DoRetire(s)
    case UnlockRetire => DoUnlockRetire(s)
  }
}
