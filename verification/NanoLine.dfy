/** A log line under construction (3rd_party/NanoLog/NanoLog.cpp): the buffer starts on the stack, moves
    to the heap when it is full, and doubles from there on. */
module NanoLine {
  import opened NanoBytes
  import opened NanoPrint
  import opened Wrappers

  /** sizeof(m_stack_buffer) and the least size of a heap buffer. */
  const STACK_SIZE := 224
  const HEAP_SIZE := 512

  datatype Header = Header(timestamp: int, file: int, function_: int, line: int, level: Byte) {
    predicate Fits() {
      && 0 <= timestamp < 0x1_0000_0000_0000_0000 && 0 <= file < 0x1_0000_0000_0000_0000
      && 0 <= function_ < 0x1_0000_0000_0000_0000 && 0 <= line < 0x1_0000_0000
    }

    function Bytes(): (r: seq<Byte>)
      ensures |r| == 29
    {
      Stored(timestamp, 8) + Stored(file, 8) + Stored(function_, 8) + Stored(line, 4) + [level]
    }
  }

  function HeaderOf(bytes: seq<Byte>): Header
    requires |bytes| >= 29
  {
    Header(Loaded(bytes[..8]), Loaded(bytes[8..16]), Loaded(bytes[16..24]), Loaded(bytes[24..28]), bytes[28])
  }

  /** What is printed before the arguments. */
  function HeaderText(h: Header, env: Environment): Characters
    requires h.Fits()
  {
    Stamp(h.timestamp) + Ascii("[") + LevelName(h.level) + Ascii("]") + Ascii("[") + env.literal(h.file) + Ascii(":")
    + env.literal(h.function_) + Ascii(":") + Integer(h.line) + Ascii("] ")
  }

  /** The line that these arguments make. */
  function LineText(h: Header, args: seq<Arg>, env: Environment): Characters
    requires h.Fits()
  {
    HeaderText(h, env) + ShownAll(args, env) + Ascii("\n")
  }

  lemma {:induction false} HeaderRoundTrip(h: Header, rest: seq<Byte>)
    requires h.Fits()
    ensures HeaderOf(h.Bytes() + rest) == h
  {
    hide Stored, Loaded, Power;
    Powers();
    var bytes := h.Bytes() + rest;
    assert bytes[..8] == Stored(h.timestamp, 8);
    assert bytes[8..16] == Stored(h.file, 8);
    assert bytes[16..24] == Stored(h.function_, 8);
    assert bytes[24..28] == Stored(h.line, 4);
    StoreLoad(h.timestamp, 8);
    StoreLoad(h.file, 8);
    StoreLoad(h.function_, 8);
    StoreLoad(h.line, 4);
  }

  /** m_buffer_size after resize_buffer_if_needed. */
  function NewSize(onHeap: bool, size: nat, required: nat): (r: nat)
    ensures required <= r && size <= r
  {
    if required <= size then size
    else
      var least := if onHeap then 2 * size else HEAP_SIZE;
      if least > required then least else required
  }

  lemma {:induction false} AppendedLast(args: seq<Arg>, a: Arg)
    ensures EncodedAll(args + [a]) == EncodedAll(args) + Encoded(a)
  {
    assert (args + [a])[..|args|] == args;
  }

  lemma {:induction false} EncodedParts(a: Arg)
    ensures Encoded(a) == if a == Text([]) then [] else [TypeId(a)] + Payload(a)
    ensures a != Text([]) ==> |Encoded(a)| == 1 + |Payload(a)|
  {
  }

  class NanoLogLine {
    const stack: array<Byte>
    var heap: array?<Byte>
    var used: nat
    var size: nat
    /** What was put into the line. */
    ghost var header: Header
    ghost var args: seq<Arg>

    function Buffer(): array<Byte>
      reads this
    {
      if heap == null then stack else heap
    }

    ghost function Contents(): seq<Byte>
      requires used <= Buffer().Length
      reads this, stack, heap
    {
      Buffer()[..used]
    }

    /** The bytes in use never exceed the capacity, and they are the header and the arguments. */
    ghost predicate Valid()
      reads this, stack, heap
    {
      && stack.Length == STACK_SIZE
      && used <= size == Buffer().Length
      && header.Fits() && (forall i | 0 <= i < |args| :: Fits(args[i]))
      && Contents() == header.Bytes() + EncodedAll(args)
    }

    constructor (h: Header)
      requires h.Fits()
      ensures Valid() && fresh(stack) && heap == null && header == h && args == []
    {
      stack := new Byte[STACK_SIZE](_ => 0);
      heap := null;
      used := 0;
      size := STACK_SIZE;
      header := h;
      args := [];
      new;
      PutHeader(h);
      assert h.Bytes() + [] == h.Bytes();
    }

    /** The five fields that come first in every line. */
    method PutHeader(h: Header)
      requires used == 0 && size == Buffer().Length == STACK_SIZE
      modifies this`used, Buffer()
      ensures used == 29 && Contents() == h.Bytes()
    {
      hide Stored;
      Put(Stored(h.timestamp, 8));
      Put(Stored(h.file, 8));
      Put(Stored(h.function_, 8));
      Put(Stored(h.line, 4));
      Put([h.level]);
    }

    /** Bytes written at buffer(), and m_bytes_used advanced past them. */
    method Put(bytes: seq<Byte>)
      requires used + |bytes| <= size == Buffer().Length
      modifies this`used, Buffer()
      ensures used == old(used) + |bytes|
      ensures Contents() == old(Contents()) + bytes
    {
      var b := Buffer();
      forall i | 0 <= i < |bytes| {
        b[used + i] := bytes[i];
      }
      used := used + |bytes|;
    }

    /** resize_buffer_if_needed: room is made, and no byte in use changes. */
    method Resize(additional: nat)
      requires used <= size == Buffer().Length
      modifies this`heap, this`size
      ensures heap == old(heap) || fresh(heap)
      ensures size == Buffer().Length == NewSize(old(heap) != null, old(size), used + additional)
      ensures heap == old(heap) <==> used + additional <= old(size)
      ensures Contents() == old(Contents())
    {
      var required := used + additional;
      if required <= size {
        return;
      }
      var from := Buffer();
      size := if heap == null then (if HEAP_SIZE > required then HEAP_SIZE else required)
              else if 2 * size > required then 2 * size else required;
      var grown := new Byte[size](_ => 0);
      forall i | 0 <= i < used {
        grown[i] := from[i];
      }
      heap := grown;
    }

    /** encode: room for the type id and the bytes after it, then both. */
    method Encode(id: Byte, payload: seq<Byte>)
      requires used <= size == Buffer().Length
      modifies this`heap, this`size, this`used, Buffer()
      ensures used <= size == Buffer().Length && (heap == old(heap) || fresh(heap))
      ensures Contents() == old(Contents()) + ([id] + payload)
      ensures size == NewSize(old(heap) != null, old(size), old(used) + 1 + |payload|)
    {
      hide NewSize;
      ghost var before := Contents();
      Resize(1 + |payload|);
      Put([id]);
      Put(payload);
      assert before + [id] + payload == before + ([id] + payload);
    }

    /** operator<<: one argument is appended. */
    method Append(a: Arg)
      requires Valid() && Fits(a)
      modifies this`heap, this`size, this`used, this`args, Buffer()
      ensures Valid() && (heap == old(heap) || fresh(heap))
      ensures header == old(header) && args == old(args) + [a]
      ensures Contents() == old(Contents()) + Encoded(a)
      ensures size == NewSize(old(heap) != null, old(size), old(used) + |Encoded(a)|)
    {
      AppendedLast(args, a);
      EncodedParts(a);
      hide Payload, TypeId, Fits, Header.Bytes, Header.Fits, EncodedAll, Encoded;
      ghost var before, start, rest := Contents(), header.Bytes(), EncodedAll(args);
      if a != Text([]) {
        Encode(TypeId(a), Payload(a));
      }
      args := args + [a];
      assert Contents() == before + Encoded(a);
      assert (start + rest) + Encoded(a) == start + (rest + Encoded(a));
    }

    /** operator<< of a pointer to characters; a null pointer appends nothing. */
    method AppendPointer(s: Option<seq<Byte>>)
      requires Valid() && (s.Some? ==> 0 !in s.value)
      modifies this`heap, this`size, this`used, this`args, Buffer()
      ensures Valid() && (heap == old(heap) || fresh(heap))
      ensures header == old(header) && args == old(args) + if s.Some? then [Text(s.value)] else []
    {
      if s.Some? {
        Append(Text(s.value));
      }
    }

    /** stringify: what is read back is what was put in, exactly when no text holds a NUL; and then what
        is printed is the header and every argument in turn. */
    method Stringify(env: Environment) returns (h: Header, r: Option<seq<Arg>>, text: Characters)
      requires Valid()
      ensures h == header
      ensures r == Some(Kept(args)) <==> NoNul(args)
      ensures r.Some? ==> NoNul(r.value)
      ensures NoNul(args) ==> header.Fits() && text == LineText(header, args, env)
    {
      hide HeaderOf, EncodedAll, Decoded, Kept, NoNul, Fits, Shown, ShownAll, Stamp, LevelName, Integer, Ascii;
      ghost var rest := EncodedAll(args);
      HeaderRoundTrip(header, rest);
      RoundTrip(args);
      KeptShowsAll(args, env);
      var b := Buffer();
      assert b[..used][29..used] == rest;
      h := HeaderOf(b[..used]);
      text := HeaderText(h, env);
      var shown: Characters;
      r, shown := StringifyFrom(b, 29, used, env);
      text := text + shown + Ascii("\n");
      if r.Some? {
        DecodedTextsHaveNoNul(rest);
      }
    }
  }

  /** The decode of a text: the place of its NUL, or the end. */
  method FindNul(b: array<Byte>, start: nat, end: nat) returns (i: nat)
    requires start <= end <= b.Length
    ensures start <= i <= end
    ensures 0 !in b[start..i] && (i < end ==> b[i] == 0) && (i == end ==> UpToNul(b[start..end]).None?)
  {
    i := start;
    while i < end && b[i] != 0
      invariant start <= i <= end
      invariant 0 !in b[start..i]
    {
      i := i + 1;
    }
    if i == end {
      NoNulAtAll(b[start..end]);
    }
  }

  lemma {:induction false} TextIsCut(bytes: seq<Byte>)
    requires bytes != [] && bytes[0] == 7 && UpToNul(bytes[1..]).None?
    ensures Decoded(bytes).None?
  {
  }

  lemma {:induction false} NumberIsCut(bytes: seq<Byte>)
    requires bytes != [] && bytes[0] < 7 && |bytes| < 1 + Width(bytes[0])
    ensures Decoded(bytes).None?
  {
  }

  /** decode: one argument and where the next begins; none when it does not end before the end. */
  method DecodeOne(b: array<Byte>, start: nat, end: nat) returns (arg: Option<Arg>, next: nat)
    requires start < end <= b.Length && b[start] <= 7
    ensures arg.None? ==> Decoded(b[start..end]).None?
    ensures arg.Some? ==> start < next <= end
    ensures arg.Some? ==> Decoded(b[start..end]) == Before(arg.value, Decoded(b[next..end]))
  {
    hide UpToNul, FixedArg, Decoded;
    var id := b[start];
    next := start;
    if id == 7 {
      var i := FindNul(b, start + 1, end);
      if i == end {
        SliceOfSlice(b[..], start, end, 1);
        TextIsCut(b[start..end]);
        return None, next;
      }
      var text := b[start + 1..i];
      arg, next := Some(Text(text)), i + 1;
      Cut(b[..], start, i, end);
      DecodesText(text, b[next..end]);
    } else {
      next := start + 1 + Width(id);
      if end < next {
        NumberIsCut(b[start..end]);
        return None, next;
      }
      var payload := b[start + 1..next];
      arg := Some(FixedArg(id, payload));
      Cut(b[..], start, next - 1, end);
      assert payload == b[start + 1..next - 1] + [b[next - 1]];
      DecodesFixed(id, payload, b[next..end]);
    }
  }

  /** The recursive part of stringify: every argument is printed as it is decoded. */
  method StringifyFrom(b: array<Byte>, start: nat, end: nat, env: Environment)
    returns (r: Option<seq<Arg>>, text: Characters)
    requires start <= end <= b.Length
    ensures r == Decoded(b[start..end])
    ensures r.Some? ==> text == ShownAll(r.value, env)
    decreases end - start
  {
    hide Shown, ShownAll;
    NothingShown(env);
    if start == end || b[start] > 7 {
      return Some([]), [];
    }
    var arg, next := DecodeOne(b, start, end);
    if arg.None? {
      return None, [];
    }
    r, text := StringifyFrom(b, next, end, env);
    if r.Some? {
      ShowsFirst(arg.value, r.value, env);
      r, text := Some([arg.value] + r.value), Shown(arg.value, env) + text;
    }
  }

  lemma {:induction false} NothingShown(env: Environment)
    ensures ShownAll([], env) == []
  {
  }

  lemma {:induction false} Cut(s: seq<Byte>, start: nat, i: nat, end: nat)
    requires start < i < end <= |s|
    ensures s[start..end] == [s[start]] + (s[start + 1..i] + [s[i]]) + s[i + 1..end]
  {
    forall k | 0 <= k < end - start
      ensures s[start..end][k] == ([s[start]] + (s[start + 1..i] + [s[i]]) + s[i + 1..end])[k]
    {
    }
  }

  lemma {:induction false} SliceOfSlice(s: seq<Byte>, start: nat, end: nat, n: nat)
    requires start + n <= end <= |s|
    ensures s[start..end][n..] == s[start + n..end]
  {
  }

  lemma {:induction false} NoNulAtAll(bytes: seq<Byte>)
    requires 0 !in bytes
    ensures UpToNul(bytes).None?
  {
    if bytes != [] {
      NoNulAtAll(bytes[1..]);
    }
  }
}
