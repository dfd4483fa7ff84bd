/** What read_content_chunked makes of any body, also of one that this program did not write
    (3rd_party/cpp-httplib/httplib.h:861-904): how a size is written, and how the chunks can end. */
module HttpBodies {
  import opened HttpBytes
  import opened HttpChunked
  import opened HttpEscapes
  import opened HttpStream
  import opened Wrappers

  // ---------------------------------------------------------------------------------------------
  // Sizes
  // ---------------------------------------------------------------------------------------------

  /** The number with these hexadecimal digits. */
  function ValueOf(ds: seq<nat>): nat {
    if ds == [] then 0 else 16 * ValueOf(ds[..|ds| - 1]) + ds[|ds| - 1]
  }

  /** These bytes are the digits, in either case. */
  predicate AreDigits(digits: Bytes, ds: seq<nat>) {
    |digits| == |ds| && forall i | 0 <= i < |ds| :: IsDigit(digits[i], ds[i])
  }

  predicate NoDigitFollows(tail: Bytes) {
    tail == [] || !IsHex(tail[0])
  }

  lemma {:induction false} DigitsAreValue(digits: Bytes, ds: seq<nat>, tail: Bytes)
    requires AreDigits(digits, ds) && NoDigitFollows(tail)
    ensures Digits(digits + tail, 0) == ValueOf(ds)
  {
    hide IsDigit, IsHex, HexDigit;
    DigitsFrom(digits, ds, tail, 0);
    Horner(ds);
  }

  /** Digits read on from v. */
  function Onward(ds: seq<nat>, v: int): int {
    if ds == [] then v else Onward(ds[1..], 16 * v + ds[0])
  }

  lemma {:induction false} DigitsFrom(digits: Bytes, ds: seq<nat>, tail: Bytes, v: int)
    requires AreDigits(digits, ds) && NoDigitFollows(tail)
    ensures Digits(digits + tail, v) == Onward(ds, v)
  {
    hide IsDigit, IsHex, HexDigit;
    if digits == [] {
      assert [] + tail == tail;
      if tail != [] {
        HexIsRead(tail[0]);
      }
    } else {
      DigitIsRead(digits[0], ds[0]);
      assert (digits + tail)[1..] == digits[1..] + tail;
      DigitsFrom(digits[1..], ds[1..], tail, 16 * v + ds[0]);
    }
  }

  lemma {:induction false} OnwardLast(ds: seq<nat>, v: int)
    requires ds != []
    ensures Onward(ds, v) == 16 * Onward(ds[..|ds| - 1], v) + ds[|ds| - 1]
  {
    if |ds| > 1 {
      OnwardLast(ds[1..], 16 * v + ds[0]);
      assert ds[1..][..|ds| - 2] == ds[..|ds| - 1][1..];
    }
  }

  lemma {:induction false} Horner(ds: seq<nat>)
    ensures Onward(ds, 0) == ValueOf(ds)
  {
    if ds != [] {
      OnwardLast(ds, 0);
      Horner(ds[..|ds| - 1]);
    }
  }

  predicate AreSpaces(s: Bytes) {
    forall i | 0 <= i < |s| :: s[i] == 0x20 || 9 <= s[i] <= 13
  }

  lemma {:induction false} SkipsSpaces(spaces: Bytes, s: Bytes)
    requires AreSpaces(spaces) && s != [] && !AreSpaces([s[0]])
    ensures SkipSpace(spaces + s) == s
  {
    if spaces == [] {
      assert [] + s == s && [s[0]][0] == s[0];
    } else {
      assert (spaces + s)[1..] == spaces[1..] + s;
      SkipsSpaces(spaces[1..], s);
    }
  }

  /** The digits after an optional 0x, which must not look like one themselves. */
  lemma {:induction false} SkipsPrefix(prefix: Bytes, digits: Bytes, ds: seq<nat>, tail: Bytes)
    requires prefix == [] || prefix == [0x30, 0x78] || prefix == [0x30, 0x58]
    requires digits != [] && AreDigits(digits, ds) && NoDigitFollows(tail)
    requires prefix == [] && digits == [0x30] && |tail| > 1 && (tail[0] == 0x78 || tail[0] == 0x58) ==> !IsHex(tail[1])
    ensures SkipPrefix(prefix + digits + tail) == digits + tail
  {
    var s := prefix + digits + tail;
    FirstIsHex(digits, ds);
    hide IsDigit, IsHex, HexDigit;
    HexIsRead(digits[0]);
    if prefix != [] {
      assert s[2..] == digits + tail && s[2] == digits[0];
    } else {
      assert s == digits + tail;
      if |digits| > 1 {
        NotX(digits[1], ds[1]);
      } else if |tail| > 1 {
        HexIsRead(tail[1]);
      }
    }
  }

  lemma {:induction false} NotX(b: Byte, d: nat)
    requires IsDigit(b, d)
    ensures b != 0x78 && b != 0x58 && b != 0x2D && b != 0x2B && !AreSpaces([b])
  {
    assert [b][0] == b;
  }

  lemma {:induction false} FirstIsHex(digits: Bytes, ds: seq<nat>)
    requires digits != [] && AreDigits(digits, ds)
    ensures IsHex(digits[0]) && IsDigit(digits[0], ds[0]) && ds[0] < 16
  {
  }

  function Signed(sign: Bytes, n: nat): int {
    var value: int := n;
    if sign == [0x2D] then -value else value
  }

  /** A size: spaces, a sign, 0x, hexadecimal digits of either case, and anything that is no digit. */
  lemma {:induction false} SizeIsRead(spaces: Bytes, sign: Bytes, prefix: Bytes, digits: Bytes, ds: seq<nat>, tail: Bytes)
    requires AreSpaces(spaces) && (sign == [] || sign == [0x2B] || sign == [0x2D])
    requires prefix == [] || prefix == [0x30, 0x78] || prefix == [0x30, 0x58]
    requires digits != [] && AreDigits(digits, ds) && NoDigitFollows(tail)
    requires prefix == [] && digits == [0x30] && |tail| > 1 && (tail[0] == 0x78 || tail[0] == 0x58) ==> !IsHex(tail[1])
    ensures var v := Signed(sign, ValueOf(ds));
            Stoi(spaces + (sign + (prefix + digits + tail))) == if -2147483648 <= v <= 2147483647 then Some(v) else None
  {
    hide SkipSpace, SkipPrefix, Digits, ValueOf, IsDigit, IsHex, NoDigitFollows, AreSpaces;
    var body := prefix + digits + tail;
    var t := sign + body;
    FirstIsHex(digits, ds);
    NotX(digits[0], ds[0]);
    ZeroIsDigit();
    NotX(0x30, 0);
    HexIsRead(digits[0]);
    assert body[0] == if prefix == [] then digits[0] else 0x30;
    MarksAreNoSpaces();
    SkipsSpaces(spaces, t);
    SkipsPrefix(prefix, digits, ds, tail);
    DigitsAreValue(digits, ds, tail);
    assert sign != [] ==> t[1..] == body;
    assert sign == [] ==> t == body;
  }

  lemma {:induction false} ZeroIsDigit()
    ensures IsDigit(0x30, 0)
  {
  }

  lemma {:induction false} MarksAreNoSpaces()
    ensures !AreSpaces([0x2B]) && !AreSpaces([0x2D])
  {
    assert [0x2B][0] == 0x2B && [0x2D][0] == 0x2D;
  }

  /** No digit after the spaces and the sign. */
  lemma {:induction false} NoSize(spaces: Bytes, sign: Bytes, rest: Bytes)
    requires AreSpaces(spaces) && (sign == [] || sign == [0x2B] || sign == [0x2D])
    requires rest != [] && !IsHex(rest[0]) && rest[0] != 0x2B && rest[0] != 0x2D && !AreSpaces([rest[0]])
    ensures Stoi(spaces + (sign + rest)) == None
  {
    var t := sign + rest;
    HexIsRead(rest[0]);
    assert [t[0]][0] == t[0];
    SkipsSpaces(spaces, t);
    hide IsHex;
    HexIsRead(0x30);
    assert sign != [] ==> t[1..] == rest;
    assert sign == [] ==> t == rest;
    assert HexDigit(0x30).Some?;
  }

  // ---------------------------------------------------------------------------------------------
  // Chunks, however their sizes are written
  // ---------------------------------------------------------------------------------------------

  /** A line without its line feed. */
  predicate IsLine(line: Bytes) {
    LF !in line && NUL !in line
  }

  predicate AreChunks(lines: seq<Bytes>, chunks: seq<Bytes>) {
    && |lines| == |chunks|
    && forall i | 0 <= i < |lines| :: IsLine(lines[i]) && chunks[i] != [] && Stoi(lines[i] + [LF]) == Some(|chunks[i]|)
  }

  function Coded(lines: seq<Bytes>, chunks: seq<Bytes>): Bytes
    requires |lines| == |chunks|
  {
    if lines == [] then [] else lines[0] + [LF] + chunks[0] + CRLF + Coded(lines[1..], chunks[1..])
  }

  lemma {:induction false} TakesLine(line: Bytes, more: Bytes)
    requires IsLine(line)
    ensures LineText(line + [LF] + more) == line + [LF] && AfterLine(line + [LF] + more) == more
  {
    var all := line + [LF] + more;
    var k := |line|;
    assert all[..k] == line && all[..k + 1] == line + [LF];
    LineGrows(all, k);
    NoNul(line + [LF]);
    assert all[k + 1..] == more;
  }

  predicate StartsCrlf(s: Bytes) {
    |s| >= 2 && s[0] == CR && s[1] == LF
  }

  lemma {:induction false} CrlfIsFirst(s: Bytes)
    requires s != []
    ensures LineText(s) == CRLF <==> StartsCrlf(s)
    ensures StartsCrlf(s) ==> AfterLine(s) == s[2..]
  {
    if StartsCrlf(s) {
      CrlfLine([], s[2..]);
      assert [] + CRLF + s[2..] == s && [] + CRLF == CRLF;
    } else if LineText(s) == CRLF {
      Shorter(FirstLine(s));
    }
  }

  lemma {:induction false} Shorter(s: Bytes)
    ensures |CString(s)| <= |s| && CString(s) == s[..|CString(s)|]
  {
    if s != [] && s[0] != NUL {
      Shorter(s[1..]);
      assert s == [s[0]] + s[1..];
    }
  }

  lemma {:induction false} TakesChunk(line: Bytes, chunk: Bytes, more: Bytes, out: Bytes)
    requires IsLine(line) && chunk != [] && Stoi(line + [LF]) == Some(|chunk|) && more != []
    ensures FromSize(line + [LF] + chunk + CRLF + more, out) == FromSize(more, out + chunk)
  {
    hide Stoi, LineText, FirstLine;
    var after := chunk + (CRLF + more);
    TakesLine(line, after);
    assert line + [LF] + chunk + CRLF + more == line + [LF] + after;
    assert after[..|chunk|] == chunk && after[|chunk|..] == CRLF + more;
    CrlfIsFirst(CRLF + more);
    assert (CRLF + more)[2..] == more;
    hide AfterLine;
  }

  lemma {:induction false} TakesChunks(lines: seq<Bytes>, chunks: seq<Bytes>, more: Bytes, out: Bytes)
    requires AreChunks(lines, chunks) && more != []
    ensures FromSize(Coded(lines, chunks) + more, out) == FromSize(more, out + Concat(chunks))
  {
    hide FromSize, Stoi, IsLine;
    if lines == [] {
      assert [] + more == more && out + [] == out;
    } else {
      var rest := Coded(lines[1..], chunks[1..]) + more;
      TakesChunk(lines[0], chunks[0], rest, out);
      assert Coded(lines, chunks) + more == lines[0] + [LF] + chunks[0] + CRLF + rest;
      TakesChunks(lines[1..], chunks[1..], more, out + chunks[0]);
      assert out + chunks[0] + Concat(chunks[1..]) == out + Concat(chunks);
    }
  }

  /** After any chunks, whatever comes next: a line that is no size throws; a negative one ends the body; a
      zero ends it if an empty line follows, and fails otherwise; a chunk that is cut short fails; one
      that is not followed by an empty line is dropped with that line, and ends the body; and when
      nothing at all follows, reading fails. */
  lemma {:induction false} HowItEnds(lines: seq<Bytes>, chunks: seq<Bytes>, line: Bytes, after: Bytes)
    requires AreChunks(lines, chunks) && IsLine(line)
    ensures var reply, out := ReadChunks(Coded(lines, chunks) + (line + [LF] + after)), Concat(chunks);
            match Stoi(line + [LF])
            case None => reply == Threw
            case Some(size) =>
              && (size < 0 ==> reply == Body(out, after))
              && (size == 0 ==> reply == if StartsCrlf(after) then Body(out, after[2..]) else Failed)
              && (size > 0 && |after| <= size ==> reply == Failed)
              && (size > 0 && |after| > size && !StartsCrlf(after[size..]) ==> reply == Body(out, AfterLine(after[size..])))
              && (size > 0 && |after| > size && after[size..] == CRLF ==> reply == Failed)
  {
    hide Stoi, LineText, FirstLine, CString, AfterLine, IsLine;
    var more := line + [LF] + after;
    var input := Coded(lines, chunks) + more;
    assert input != [];
    assert ReadChunks(input) == FromSize(input, []);
    TakesChunks(lines, chunks, more, []);
    assert [] + Concat(chunks) == Concat(chunks);
    TakesLine(line, after);
    if Stoi(line + [LF]).Some? {
      EndsWith(Stoi(line + [LF]).value, after, Concat(chunks));
    }
  }

  lemma {:induction false} EndsWith(size: int, after: Bytes, out: Bytes)
    ensures var reply := ChunksFrom(size, after, out);
            && (size < 0 ==> reply == Body(out, after))
            && (size == 0 ==> reply == if StartsCrlf(after) then Body(out, after[2..]) else Failed)
            && (size > 0 && |after| <= size ==> reply == Failed)
            && (size > 0 && |after| > size && !StartsCrlf(after[size..]) ==> reply == Body(out, AfterLine(after[size..])))
            && (size > 0 && |after| > size && after[size..] == CRLF ==> reply == Failed)
  {
    hide Stoi, LineText, FirstLine, CString, AfterLine;
    if size == 0 && after != [] {
      CrlfIsFirst(after);
    } else if size > 0 && |after| > size {
      CrlfIsFirst(after[size..]);
      assert CRLF[2..] == [];
    }
  }

  // ---------------------------------------------------------------------------------------------
  // Sizes as they are written
  // ---------------------------------------------------------------------------------------------

  /** In small letters, without leading zeros. */
  lemma {:induction false} SizeIsWritten(n: nat)
    ensures forall i | 0 <= i < |Hex(n)| :: 0x30 <= Hex(n)[i] <= 0x39 || 0x61 <= Hex(n)[i] <= 0x66
    ensures n > 0 ==> Hex(n)[0] != 0x30
  {
    if n >= 16 {
      SizeIsWritten(n / 16);
    }
  }
}
