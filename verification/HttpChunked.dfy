/** Chunked transfer coding (3rd_party/cpp-httplib/httplib.h; section 4.1 of RFC 7230): the loop that
    writes a streamed response and the function that reads it. */
module HttpChunked {
  import opened HttpBytes
  import opened HttpStream
  import opened Wrappers

  const CRLF: Bytes := [CR, LF]

  // ---------------------------------------------------------------------------------------------
  // Chunk sizes
  // ---------------------------------------------------------------------------------------------

  function HexChar(d: int): Byte
    requires 0 <= d < 16
  {
    if d < 10 then 0x30 + d else 0x61 + d - 10
  }

  function Hex(n: nat): (r: Bytes)
    ensures r != []
  {
    (if n < 16 then [] else Hex(n / 16)) + [HexChar(n % 16)]
  }

  lemma {:induction false} LastDigit(n: nat, s: Bytes)
    ensures Hex(n) + s == (if n < 16 then [] else Hex(n / 16)) + ([HexChar(n % 16)] + s)
  {
  }

  /** from_i_to_hex: the last digit first. */
  method FromIToHex(number: nat) returns (ret: Bytes)
    ensures ret == Hex(number)
  {
    hide Hex, HexChar;
    var n := number;
    LastDigit(n, []);
    assert Hex(number) + [] == Hex(number) && [HexChar(n % 16)] + [] == [HexChar(n % 16)];
    ret := [HexChar(n % 16)];
    n := n / 16;
    while n > 0
      invariant (if n == 0 then [] else Hex(n)) + ret == Hex(number)
    {
      LastDigit(n, ret);
      ret := [HexChar(n % 16)] + ret;
      n := n / 16;
    }
    assert [] + ret == ret;
  }

  /** The digits at the front, read on from v. */
  function Digits(s: Bytes, v: int): int {
    if s == [] || HexDigit(s[0]).None? then v else Digits(s[1..], 16 * v + HexDigit(s[0]).value)
  }

  predicate IsSpace(c: Byte) {
    c == 0x20 || 9 <= c <= 13
  }

  function SkipSpace(s: Bytes): Bytes {
    if s != [] && IsSpace(s[0]) then SkipSpace(s[1..]) else s
  }

  /** After an optional 0x. */
  function SkipPrefix(s: Bytes): Bytes {
    if |s| > 2 && s[0] == 0x30 && (s[1] == 0x78 || s[1] == 0x58) && HexDigit(s[2]).Some? then s[2..] else s
  }

  /** std::stoi(s, 0, 16); None when it throws. */
  function Stoi(s: Bytes): Option<int> {
    var t := SkipSpace(s);
    var negative := t != [] && t[0] == 0x2D;
    var u := SkipPrefix(if t != [] && (t[0] == 0x2D || t[0] == 0x2B) then t[1..] else t);
    if u == [] || HexDigit(u[0]).None? then None
    else
      var v := if negative then -Digits(u, 0) else Digits(u, 0);
      if -INT_MAX - 1 <= v <= INT_MAX then Some(v) else None
  }

  // ---------------------------------------------------------------------------------------------
  // Writing
  // ---------------------------------------------------------------------------------------------

  function ChunkBytes(chunk: Bytes): Bytes {
    Hex(|chunk|) + CRLF + chunk + CRLF
  }

  function AllChunkBytes(chunks: seq<Bytes>): Bytes {
    if chunks == [] then [] else ChunkBytes(chunks[0]) + AllChunkBytes(chunks[1..])
  }

  function Concat(chunks: seq<Bytes>): Bytes {
    if chunks == [] then [] else chunks[0] + Concat(chunks[1..])
  }

  /** What a stream callback may return over the calls: any number of chunks, then an empty one. */
  predicate EndsEmpty(chunks: seq<Bytes>) {
    chunks != [] && chunks[|chunks| - 1] == [] && forall i | 0 <= i < |chunks| - 1 :: chunks[i] != []
  }

  /** The loop of write_response for a chunked response. The k-th call of the callback returns chunks[k].
      What was sent is the coding of the first chunks, and of all of them unless a write failed. */
  method WriteChunks(strm: Stream, chunks: seq<Bytes>) returns (offset: nat, ghost sent: nat)
    requires EndsEmpty(chunks)
    modifies strm`output
    ensures sent <= |chunks| && strm.output == old(strm.output) + AllChunkBytes(chunks[..sent])
    ensures strm.reliable ==> strm.output == old(strm.output) + AllChunkBytes(chunks) && offset == |Concat(chunks)|
    ensures offset == |Concat(chunks[..if sent < |chunks| then sent + 1 else sent])|
  {
    offset := 0;
    var k := 0;
    var dataAvailable := true;
    while dataAvailable
      invariant 0 <= k <= |chunks| && (dataAvailable <==> k < |chunks|)
      invariant strm.output == old(strm.output) + AllChunkBytes(chunks[..k])
      invariant offset == |Concat(chunks[..k])|
      decreases |chunks| - k
    {
      var chunk := chunks[k];
      OneMoreChunk(chunks, k);
      offset := offset + |chunk|;
      dataAvailable := chunk != [];
      var size := FromIToHex(|chunk|);
      var n := strm.Write(size + CRLF + chunk + CRLF);
      if n < 0 {
        sent := k;
        return;
      }
      k := k + 1;
    }
    sent := k;
    assert chunks[..k] == chunks;
  }

  lemma {:induction false} FirstChunk(chunks: seq<Bytes>)
    requires chunks != []
    ensures AllChunkBytes(chunks) == ChunkBytes(chunks[0]) + AllChunkBytes(chunks[1..])
    ensures Concat(chunks) == chunks[0] + Concat(chunks[1..])
  {
  }

  lemma {:induction false} NoChunks()
    ensures AllChunkBytes([]) == [] && Concat([]) == []
  {
  }

  lemma {:induction false} OneMoreChunk(chunks: seq<Bytes>, k: nat)
    requires k < |chunks|
    ensures AllChunkBytes(chunks[..k + 1]) == AllChunkBytes(chunks[..k]) + ChunkBytes(chunks[k])
    ensures Concat(chunks[..k + 1]) == Concat(chunks[..k]) + chunks[k]
  {
    hide ChunkBytes, AllChunkBytes, Concat;
    FirstChunk(chunks[..k + 1]);
    if k == 0 {
      NoChunks();
      assert chunks[..1][1..] == [] && chunks[..0] == [];
    } else {
      OneMoreChunk(chunks[1..], k - 1);
      FirstChunk(chunks[..k]);
      assert chunks[..k + 1][1..] == chunks[1..][..k] && chunks[..k][1..] == chunks[1..][..k - 1];
    }
  }

  // ---------------------------------------------------------------------------------------------
  // Reading
  // ---------------------------------------------------------------------------------------------

  /** How reading a body ends: with the body and the bytes after it, with false, or with an exception. */
  datatype Reply = Body(out: Bytes, rest: Bytes) | Failed | Threw

  /** The text of the first line as a C string. */
  function LineText(input: Bytes): Bytes {
    CString(FirstLine(input))
  }

  /** The end of the chunks: one empty line after a size of 0, nothing after a negative size. */
  function Trailer(len: int, input: Bytes, out: Bytes): Reply
    requires len <= 0
  {
    if len < 0 then Body(out, input)
    else if input == [] || LineText(input) != CRLF then Failed
    else Body(out, AfterLine(input))
  }

  /** read_content_chunked once a size is known. A chunk without its line end is dropped, and what came
      before it returned. */
  function ChunksFrom(len: int, input: Bytes, out: Bytes): Reply
    decreases |input|
  {
    if len <= 0 then Trailer(len, input, out)
    else if |input| <= len then Failed
    else
      var chunk, after := input[..len], input[len..];
      if LineText(after) != CRLF then Body(out, AfterLine(after))
      else
        var more := AfterLine(after);
        if more == [] then Failed
        else
          match Stoi(LineText(more))
          case None => Threw
          case Some(next) => ChunksFrom(next, AfterLine(more), out + chunk)
  }

  function ReadChunks(input: Bytes): Reply {
    if input == [] then Failed
    else
      match Stoi(LineText(input))
      case None => Threw
      case Some(len) => ChunksFrom(len, AfterLine(input), [])
  }

  /** What a progress callback says to r of len bytes; without one reading goes on. */
  predicate GoesOn(progress: Option<(nat, nat) -> bool>, r: nat, len: nat) {
    progress.None? || progress.value(r, len)
  }

  /** read_content_with_length: the next len bytes, unless there are fewer or the callback stops it. */
  method ReadContentWithLength(strm: Stream, len: nat, progress: Option<(nat, nat) -> bool>) returns (ok: bool, out: Bytes)
    modifies strm`input
    ensures ok ==> len <= |old(strm.input)| && out == old(strm.input)[..len] && strm.input == old(strm.input)[len..]
    ensures ok && len > 0 ==> GoesOn(progress, len, len)
    ensures strm.reliable && len <= |old(strm.input)| && (forall r | 0 < r <= len :: GoesOn(progress, r, len)) ==> ok
    ensures |out| == len
    ensures exists r :: 0 <= r <= len && r <= |old(strm.input)| && out[..r] == old(strm.input)[..r] && strm.input == old(strm.input)[r..]
  {
    ghost var all := strm.input;
    out := seq(len, _ => 0);
    var r := 0;
    while r < len
      invariant r <= len == |out| && r <= |all| && out[..r] == all[..r] && strm.input == all[r..]
      invariant r > 0 ==> GoesOn(progress, r, len)
    {
      var n, data := strm.Read(len - r);
      if n <= 0 {
        return false, out;
      }
      assert all[..r] + data == all[..r + n];
      out := out[..r] + data + out[r + n..];
      r := r + n;
      assert out[..r] == all[..r];
      if progress.Some? {
        var more := progress.value(r, len);
        if !more {
          assert !GoesOn(progress, r, len);
          return false, out;
        }
      }
    }
    ok := true;
  }

  /** How read_content_chunked ended. */
  datatype Outcome = Returned(ok: bool) | Exception

  predicate Matches(outcome: Outcome, out: Bytes, rest: Bytes, reply: Reply, reliable: bool) {
    && (outcome == Returned(true) ==> reply == Body(out, rest))
    && (outcome.Exception? ==> reply.Threw?)
    && (outcome == Returned(false) && reliable ==> reply.Failed?)
  }

  /** getline, and the line as a C string. */
  method NextLine(reader: StreamLineReader) returns (ok: bool, text: Bytes)
    requires reader.Valid()
    modifies reader, reader.fixed, reader.strm`input
    ensures reader.Valid()
    ensures ok ==> old(reader.strm.input) != [] && text == LineText(old(reader.strm.input))
                   && reader.strm.input == AfterLine(old(reader.strm.input))
    ensures reader.strm.reliable && old(reader.strm.input) != [] ==> ok
  {
    ok := reader.GetLine();
    text := [];
    if ok {
      text := reader.Ptr();
    }
  }

  /** read_content_chunked. */
  method ReadContentChunked(strm: Stream) returns (outcome: Outcome, out: Bytes)
    modifies strm`input
    ensures Matches(outcome, out, strm.input, ReadChunks(old(strm.input)), strm.reliable)
  {
    hide Stoi, FirstLine, CString, LineText;
    out := [];
    ghost var reply := ReadChunks(strm.input);
    var buf := new Byte[16](_ => 0);
    var reader := new StreamLineReader(strm, buf);
    var ok, text := NextLine(reader);
    if !ok {
      return Returned(false), out;
    }
    var size := Stoi(text);
    if size.None? {
      return Exception, out;
    }
    var chunkLen := size.value;
    while chunkLen > 0
      invariant reader.Valid() && reader.strm == strm && fresh(reader) && fresh(reader.fixed)
      invariant reply == ChunksFrom(chunkLen, strm.input, out)
      decreases |strm.input|
    {
      ghost var input := strm.input;
      var chunk: Bytes;
      ok, chunk := ReadContentWithLength(strm, chunkLen, None);
      if !ok {
        return Returned(false), out;
      }
      ok, text := NextLine(reader);
      if !ok {
        return Returned(false), out;
      }
      if text != CRLF {
        return Returned(true), out;
      }
      out := out + chunk;
      ok, text := NextLine(reader);
      if !ok {
        return Returned(false), out;
      }
      size := Stoi(text);
      if size.None? {
        return Exception, out;
      }
      chunkLen := size.value;
    }
    if chunkLen == 0 {
      ok, text := NextLine(reader);
      if !ok || text != CRLF {
        return Returned(false), out;
      }
    }
    outcome := Returned(true);
  }

  // ---------------------------------------------------------------------------------------------
  // Reading undoes writing
  // ---------------------------------------------------------------------------------------------

  lemma {:induction false} CrlfLine(s: Bytes, tail: Bytes)
    requires LF !in s && NUL !in s
    ensures FirstLine(s + CRLF + tail) == s + CRLF && LineText(s + CRLF + tail) == s + CRLF
    ensures AfterLine(s + CRLF + tail) == tail
  {
    var all := s + CRLF + tail;
    var k := |s| + 1;
    assert all[..k] == s + [CR] && all[..k + 1] == s + CRLF;
    LineGrows(all, k);
    NoNul(s + CRLF);
    assert all[k + 1..] == tail;
  }

  lemma {:induction false} NoNul(s: Bytes)
    requires NUL !in s
    ensures CString(s) == s
  {
    if s != [] {
      NoNul(s[1..]);
    }
  }

  lemma {:induction false} HexDigits(n: nat)
    ensures forall i | 0 <= i < |Hex(n)| :: HexDigit(Hex(n)[i]).Some?
    ensures LF !in Hex(n) && NUL !in Hex(n)
  {
    if n >= 16 {
      HexDigits(n / 16);
    }
  }

  lemma {:induction false} DigitsAppend(s: Bytes, d: int, tail: Bytes, v: int)
    requires (forall i | 0 <= i < |s| :: HexDigit(s[i]).Some?) && 0 <= d < 16
    requires tail == [] || HexDigit(tail[0]).None?
    ensures Digits(s + [HexChar(d)] + tail, v) == 16 * Digits(s, v) + d
  {
    var all := s + [HexChar(d)] + tail;
    if s == [] {
      assert all[0] == HexChar(d) && all[1..] == tail;
    } else {
      assert all[0] == s[0] && all[1..] == s[1..] + [HexChar(d)] + tail;
      DigitsAppend(s[1..], d, tail, 16 * v + HexDigit(s[0]).value);
    }
  }

  /** Printing a size and parsing it gives the size. */
  lemma {:induction false} HexRoundTrip(n: nat, tail: Bytes)
    requires tail == [] || HexDigit(tail[0]).None?
    ensures Digits(Hex(n) + tail, 0) == n
  {
    var s := if n < 16 then [] else Hex(n / 16);
    if n >= 16 {
      HexRoundTrip(n / 16, []);
      HexDigits(n / 16);
      assert Hex(n / 16) + [] == Hex(n / 16);
    }
    DigitsAppend(s, n % 16, tail, 0);
  }

  lemma {:induction false} SizeParses(n: nat)
    ensures Stoi(Hex(n) + CRLF) == if n <= INT_MAX then Some(n) else None
  {
    hide Hex, Digits;
    HexDigits(n);
    HexRoundTrip(n, CRLF);
    var s := Hex(n) + CRLF;
    assert s[0] == Hex(n)[0];
    assert |Hex(n)| > 1 ==> s[1] == Hex(n)[1];
    assert |Hex(n)| == 1 ==> s[1] == CR;
  }

  function FromSize(input: Bytes, out: Bytes): Reply {
    match Stoi(LineText(input))
    case None => Threw
    case Some(len) => ChunksFrom(len, AfterLine(input), out)
  }

  predicate Small(chunks: seq<Bytes>) {
    forall i | 0 <= i < |chunks| :: |chunks[i]| <= INT_MAX
  }

  lemma {:induction false} ReadsOne(chunk: Bytes, more: Bytes, out: Bytes)
    requires chunk != [] ==> more != []
    ensures FromSize(ChunkBytes(chunk) + more, out)
         == if |chunk| > INT_MAX then Threw
            else if chunk == [] then Body(out, more)
            else FromSize(more, out + chunk)
  {
    hide Hex, Stoi;
    var after := chunk + CRLF + more;
    HexDigits(|chunk|);
    SizeParses(|chunk|);
    CrlfLine(Hex(|chunk|), after);
    assert ChunkBytes(chunk) + more == Hex(|chunk|) + CRLF + after;
    CrlfLine([], more);
    assert [] + CRLF + more == CRLF + more && [] + CRLF == CRLF;
    assert after[..|chunk|] == chunk && after[|chunk|..] == CRLF + more;
    hide FirstLine, CString, LineText, AfterLine;
  }

  lemma {:induction false} ReadsAll(chunks: seq<Bytes>, out: Bytes, rest: Bytes)
    requires EndsEmpty(chunks)
    ensures FromSize(AllChunkBytes(chunks) + rest, out)
         == if Small(chunks) then Body(out + Concat(chunks), rest) else Threw
  {
    hide FromSize, ChunkBytes;
    var chunk, others := chunks[0], chunks[1..];
    assert Small(chunks) <==> |chunk| <= INT_MAX && Small(others) by {
      assert forall i | 0 <= i < |others| :: others[i] == chunks[i + 1];
      assert forall i | 0 < i < |chunks| :: others[i - 1] == chunks[i];
    }
    var more := AllChunkBytes(others) + rest;
    assert AllChunkBytes(chunks) + rest == ChunkBytes(chunk) + more;
    if others == [] {
      ReadsOne(chunk, more, out);
      assert more == rest && out + ([] + []) == out;
    } else {
      assert EndsEmpty(others);
      NotEmpty(others);
      ReadsOne(chunk, more, out);
      ReadsAll(others, out + chunk, rest);
      assert out + chunk + Concat(others) == out + (chunk + Concat(others));
    }
  }

  lemma {:induction false} NotEmpty(chunks: seq<Bytes>)
    requires chunks != []
    ensures AllChunkBytes(chunks) != []
  {
  }

  /** read_content_chunked gives the chunks back, and takes exactly the bytes that were written for them,
      if and only if each size fits an int; otherwise it throws. */
  lemma {:induction false} RoundTrip(chunks: seq<Bytes>, rest: Bytes)
    requires EndsEmpty(chunks)
    ensures ReadChunks(AllChunkBytes(chunks) + rest) == if Small(chunks) then Body(Concat(chunks), rest) else Threw
  {
    hide Stoi, LineText, AllChunkBytes;
    NotEmpty(chunks);
    ReadsAll(chunks, [], rest);
    assert [] + Concat(chunks) == Concat(chunks);
  }
}
