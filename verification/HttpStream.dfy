/** Byte streams and the line reader on top of them (3rd_party/cpp-httplib/httplib.h). */
module HttpStream {
  import opened HttpBytes
  import opened Wrappers

  /** A connection: the bytes that are still to arrive, and those sent. A read gives any part of what is
      to come; on an unreliable connection reads and writes may also fail. */
  class Stream {
    var input: Bytes
    var output: Bytes
    const reliable: bool

    constructor (input: Bytes, reliable: bool)
      ensures this.input == input && this.output == [] && this.reliable == reliable
    {
      this.input := input;
      this.output := [];
      this.reliable := reliable;
    }

    /** Negative on failure, 0 at the end, else the number of bytes read. */
    method Read(size: nat) returns (n: int, data: Bytes)
      requires size > 0
      modifies this`input
      ensures n <= size && (n < 0 ==> !reliable) && (n == 0 ==> old(input) == [])
      ensures n <= 0 ==> input == old(input) && data == []
      ensures n > 0 ==> n <= |old(input)| && data == old(input)[..n] && input == old(input)[n..]
    {
      var fails: bool := *;
      if fails && !reliable {
        return -1, [];
      }
      if input == [] {
        return 0, [];
      }
      var part: int := *;
      var most := if size < |input| then size else |input|;
      n := if 0 < part <= most then part else most;
      data, input := input[..n], input[n..];
    }

    /** Negative on failure. */
    method Write(data: Bytes) returns (n: int)
      modifies this`output
      ensures n >= 0 ==> output == old(output) + data
      ensures n < 0 ==> !reliable && output == old(output)
    {
      var fails: bool := *;
      if fails && !reliable {
        return -1;
      }
      output := output + data;
      n := |data|;
    }
  }

  /** The bytes up to and with the first line feed, or all of them. */
  function FirstLine(s: Bytes): (r: Bytes)
    ensures |r| <= |s| && r == s[..|r|] && (s != [] ==> r != [])
  {
    if s == [] then [] else if s[0] == LF then [LF] else [s[0]] + FirstLine(s[1..])
  }

  function AfterLine(s: Bytes): Bytes {
    s[|FirstLine(s)|..]
  }

  /** What a char pointer to these bytes stands for. */
  function CString(s: Bytes): (r: Bytes)
    ensures |r| <= |s| && NUL !in r
  {
    if s == [] || s[0] == NUL then [] else [s[0]] + CString(s[1..])
  }

  lemma {:induction false} LineGrows(s: Bytes, k: nat)
    requires k < |s| && LF !in s[..k]
    ensures s[k] == LF ==> FirstLine(s) == s[..k + 1]
    ensures k + 1 == |s| ==> FirstLine(s) == s
  {
    if k > 0 {
      assert s[1..][..k - 1] == s[..k][1..];
      assert s[..k][0] == s[0];
      LineGrows(s[1..], k - 1);
      assert s[1..][..k] == s[..k + 1][1..];
    }
  }

  /** stream_line_reader: a fixed buffer for short lines, a string once it is full. */
  class StreamLineReader {
    const strm: Stream
    const fixed: array<Byte>
    var used: nat
    var growable: Bytes

    /** The text of the line; a NUL ends it in the fixed buffer. */
    ghost predicate Valid()
      reads this, fixed
    {
      && 1 < fixed.Length && used < fixed.Length
      && (growable == [] && used > 0 ==> fixed[used] == NUL)
      && (growable != [] ==> used == fixed.Length - 1)
    }

    ghost function Line(): Bytes
      requires Valid()
      reads this, fixed
    {
      if growable == [] then fixed[..used] else growable
    }

    constructor (strm: Stream, fixed: array<Byte>)
      requires 1 < fixed.Length
      ensures this.strm == strm && this.fixed == fixed && Valid()
    {
      this.strm := strm;
      this.fixed := fixed;
      used := 0;
      growable := [];
    }

    /** ptr(), read as a C string. */
    method Ptr() returns (r: Bytes)
      requires Valid() && Line() != []
      ensures r == CString(Line())
    {
      if growable == [] {
        CutAtNul(fixed[..], used);
        r := CString(fixed[..]);
      } else {
        r := CString(growable);
      }
    }

    method Append(c: Byte)
      requires Valid()
      modifies this, fixed
      ensures Valid() && Line() == old(Line()) + [c]
    {
      if used < fixed.Length - 1 {
        fixed[used] := c;
        used := used + 1;
        fixed[used] := NUL;
      } else {
        if growable == [] {
          growable := fixed[..used];
        }
        growable := growable + [c];
      }
    }

    /** getline: the next line; false only at the end of the input or on failure. */
    method GetLine() returns (ok: bool)
      requires Valid()
      modifies this, fixed, strm`input
      ensures Valid()
      ensures ok ==> old(strm.input) != [] && Line() == FirstLine(old(strm.input)) && strm.input == AfterLine(old(strm.input))
      ensures strm.reliable && old(strm.input) != [] ==> ok
    {
      used := 0;
      growable := [];
      ghost var all := strm.input;
      var i := 0;
      while true
        invariant i <= |all| && Valid() && Line() == all[..i] && strm.input == all[i..]
        invariant LF !in all[..i]
        decreases |all| - i
      {
        var n, data := strm.Read(1);
        if n < 0 {
          return false;
        } else if n == 0 {
          if i == 0 {
            return false;
          } else {
            LineGrows(all, i - 1);
            break;
          }
        }
        assert data == [all[i]] && all[..i] + [all[i]] == all[..i + 1];
        Append(data[0]);
        if data[0] == LF {
          LineGrows(all, i);
          i := i + 1;
          break;
        }
        i := i + 1;
      }
      assert AfterLine(all) == all[i..];
      return true;
    }
  }

  lemma {:induction false} CutAtNul(s: Bytes, n: nat)
    requires n < |s| && s[n] == NUL
    ensures CString(s) == CString(s[..n])
  {
    if n > 0 && s[0] != NUL {
      CutAtNul(s[1..], n - 1);
      assert s[1..][..n - 1] == s[..n][1..];
    }
  }
}
