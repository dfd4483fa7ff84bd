/** Percent-encoding (3rd_party/cpp-httplib/httplib.h; section 2.1 of RFC 3986). */
module HttpUrl {
  import opened HttpBytes
  import opened Wrappers

  const SPACE: Byte := 0x20
  const PERCENT: Byte := 0x25
  const PLUS: Byte := 0x2B
  const LOWER_U: Byte := 0x75

  // ---------------------------------------------------------------------------------------------
  // Hexadecimal digits
  // ---------------------------------------------------------------------------------------------

  /** The value of the first n bytes when all of them are hexadecimal digits, read on from v. */
  function HexNumber(s: Bytes, n: nat, v: nat): Option<nat>
    decreases n
  {
    if n == 0 then Some(v)
    else if s == [] then None
    else
      var d :- HexDigit(s[0]);
      HexNumber(s[1..], n - 1, 16 * v + d)
  }

  function UpperDigit(d: int): Byte
    requires 0 <= d < 16
  {
    if d < 10 then 0x30 + d else 0x41 + d - 10
  }

  // ---------------------------------------------------------------------------------------------
  // Encoding
  // ---------------------------------------------------------------------------------------------

  /** The bytes that are written as an escape. */
  predicate MustEscape(c: Byte) {
    c in {SPACE, PLUS, 0x27, 0x2C, 0x3A, 0x3B} || c >= 0x80
  }

  function EncodedByte(c: Byte): Bytes {
    if MustEscape(c) then [PERCENT, UpperDigit(c / 16), UpperDigit(c % 16)] else [c]
  }

  /** The source stops at the first NUL. */
  function Encoded(s: Bytes): Bytes {
    if s == [] || s[0] == NUL then [] else EncodedByte(s[0]) + Encoded(s[1..])
  }

  /** snprintf with "%02X", for the bytes it is used on. */
  method HexOf(c: Byte) returns (hex: Bytes)
    requires c >= 0x80
    ensures hex == [UpperDigit(c / 16), UpperDigit(c % 16)]
  {
    hex := [UpperDigit(c / 16), UpperDigit(c % 16)];
  }

  /** The escapes that encode_url spells out. */
  method EncodeByte(c: Byte) returns (r: Bytes)
    ensures r == EncodedByte(c)
  {
    match c
    case 0x20 => r := [0x25, 0x32, 0x30];
    case 0x2B => r := [0x25, 0x32, 0x42];
    case 0x27 => r := [0x25, 0x32, 0x37];
    case 0x2C => r := [0x25, 0x32, 0x43];
    case 0x3A => r := [0x25, 0x33, 0x41];
    case 0x3B => r := [0x25, 0x33, 0x42];
    case _ =>
      if c >= 0x80 {
        r := [PERCENT];
        var hex := HexOf(c);
        r := r + hex;
      } else {
        r := [c];
      }
  }

  method EncodeUrl(s: Bytes) returns (result: Bytes)
    ensures result == Encoded(s)
  {
    result := [];
    var i := 0;
    while i < |s| && s[i] != NUL
      invariant 0 <= i <= |s|
      invariant result + Encoded(s[i..]) == Encoded(s)
      decreases |s| - i
    {
      var more := EncodeByte(s[i]);
      assert s[i..][1..] == s[i + 1..];
      assert result + (more + Encoded(s[i + 1..])) == (result + more) + Encoded(s[i + 1..]);
      result := result + more;
      i := i + 1;
    }
    assert result + [] == result;
  }

  // ---------------------------------------------------------------------------------------------
  // Decoding
  // ---------------------------------------------------------------------------------------------

  /** to_utf8; nothing for a surrogate. */
  function Utf8(code: nat): (r: Bytes)
    requires code < 0x10000
    ensures |r| <= 3
  {
    if code < 0x80 then [code]
    else if code < 0x800 then [0xC0 + code / 64 % 32, 0x80 + code % 64]
    else if 0xD800 <= code < 0xE000 then []
    else [0xE0 + code / 4096 % 16, 0x80 + code / 64 % 64, 0x80 + code % 64]
  }

  /** The number of bytes of the escape this begins with: %uXXXX or %XX. */
  function EscapeWidth(s: Bytes): (n: nat)
    ensures n <= |s|
  {
    if |s| < 2 || s[0] != PERCENT then 0
    else if s[1] == LOWER_U then (if HexNumber(s[2..], 4, 0).Some? then (EnoughDigits(s[2..], 4, 0); 6) else 0)
    else if HexNumber(s[1..], 2, 0).Some? then (EnoughDigits(s[1..], 2, 0); 3) else 0
  }

  lemma {:induction false} EnoughDigits(s: Bytes, n: nat, v: nat)
    requires HexNumber(s, n, v).Some?
    ensures n <= |s|
    decreases n
  {
    if n > 0 {
      EnoughDigits(s[1..], n - 1, 16 * v + HexDigit(s[0]).value);
    }
  }

  lemma {:induction false} NumberBelow(s: Bytes, n: nat, v: nat, bound: nat)
    requires HexNumber(s, n, v).Some? && v < bound
    ensures n == 2 ==> HexNumber(s, n, v).value < 256 * bound
    ensures n == 4 ==> HexNumber(s, n, v).value < 65536 * bound
  {
    if n == 4 {
      var w := 16 * v + HexDigit(s[0]).value;
      var x := 16 * w + HexDigit(s[1]).value;
      assert s[1..][1..] == s[2..] && s[1..][0] == s[1];
      assert HexNumber(s, 4, v) == HexNumber(s[2..], 2, x);
      NumberBelow(s[2..], 2, x, 256 * bound);
    } else if n == 2 {
      var w := 16 * v + HexDigit(s[0]).value;
      var x := 16 * w + HexDigit(s[1..][0]).value;
      assert HexNumber(s, 2, v) == Some(x);
    }
  }

  /** What an escape stands for. */
  function Unescaped(s: Bytes): Bytes
    requires EscapeWidth(s) > 0
  {
    if s[1] == LOWER_U then
      NumberBelow(s[2..], 4, 0, 1);
      Utf8(HexNumber(s[2..], 4, 0).value)
    else
      NumberBelow(s[1..], 2, 0, 1);
      [HexNumber(s[1..], 2, 0).value]
  }

  function Decoded(s: Bytes): Bytes
    decreases |s|
  {
    if s == [] then []
    else
      var n := EscapeWidth(s);
      if n > 0 then Unescaped(s) + Decoded(s[n..])
      else [if s[0] == PLUS then SPACE else s[0]] + Decoded(s[1..])
  }

  /** from_hex_to_i. A std::string reads as NUL at its end. */
  method FromHexToI(s: Bytes, start: nat, count: nat) returns (r: Option<nat>)
    requires count > 0
    ensures r == if start < |s| then HexNumber(s[start..], count, 0) else None
  {
    if start >= |s| {
      return None;
    }
    var val: nat := 0;
    var i, cnt := start, count;
    while cnt > 0
      invariant start <= i <= |s| && i == start + (count - cnt)
      invariant HexNumber(s[start..], count, 0) == HexNumber(s[i..], cnt, val)
    {
      if i == |s| {
        return None;
      }
      var v := HexDigit(s[i]);
      if v.None? {
        return None;
      }
      assert s[i..][1..] == s[i + 1..];
      val := val * 16 + v.value;
      i, cnt := i + 1, cnt - 1;
    }
    r := Some(val);
  }

  /** What decode_url appends at position i, and where it goes on. */
  method DecodeAt(s: Bytes, i: nat) returns (r: Bytes, next: nat)
    requires i < |s|
    ensures i < next <= |s|
    ensures var rest := s[i..];
            if EscapeWidth(rest) > 0 then next == i + EscapeWidth(rest) && r == Unescaped(rest)
            else next == i + 1 && r == [if s[i] == PLUS then SPACE else s[i]]
  {
    hide HexNumber, Utf8;
    ghost var rest := s[i..];
    r, next := [s[i]], i + 1;
    if s[i] == PERCENT && i + 1 < |s| {
      assert s[i + 1..] == rest[1..];
      if s[i + 1] == LOWER_U {
        assert rest[2..] == s[i + 2..];
        var val := FromHexToI(s, i + 2, 4);
        NoDigits(4);
        if val.Some? {
          NumberBelow(rest[2..], 4, 0, 1);
          EnoughDigits(rest[2..], 4, 0);
          r, next := Utf8(val.value), i + 6;
        }
      } else {
        var val := FromHexToI(s, i + 1, 2);
        if val.Some? {
          NumberBelow(rest[1..], 2, 0, 1);
          EnoughDigits(rest[1..], 2, 0);
          r, next := [val.value], i + 3;
        }
      }
    } else if s[i] == PLUS {
      r := [SPACE];
    }
  }

  method DecodeUrl(s: Bytes) returns (result: Bytes)
    ensures result == Decoded(s)
  {
    hide EscapeWidth, Unescaped;
    result := [];
    var i := 0;
    while i < |s|
      invariant 0 <= i <= |s|
      invariant result + Decoded(s[i..]) == Decoded(s)
    {
      var r, next := DecodeAt(s, i);
      DecodedStep(s[i..], next - i, r);
      assert s[i..][next - i..] == s[next..];
      assert result + (r + Decoded(s[next..])) == (result + r) + Decoded(s[next..]);
      result, i := result + r, next;
    }
    assert result + [] == result;
  }

  lemma {:induction false} NoDigits(n: nat)
    requires n > 0
    ensures HexNumber([], n, 0).None?
  {
  }

  lemma {:induction false} DecodedStep(s: Bytes, n: nat, r: Bytes)
    requires s != [] && 0 < n <= |s|
    requires if EscapeWidth(s) > 0 then n == EscapeWidth(s) && r == Unescaped(s)
             else n == 1 && r == [if s[0] == PLUS then SPACE else s[0]]
    ensures Decoded(s) == r + Decoded(s[n..])
  {
  }

  // ---------------------------------------------------------------------------------------------
  // Decoding undoes encoding
  // ---------------------------------------------------------------------------------------------

  /** No position begins something that reads as an escape. */
  predicate NoEscape(s: Bytes) {
    forall i | 0 <= i < |s| :: EscapeWidth(s[i..]) == 0
  }

  lemma {:induction false} NoEscapeFirst(s: Bytes)
    requires s != []
    ensures NoEscape(s) <==> EscapeWidth(s) == 0 && NoEscape(s[1..])
  {
    hide EscapeWidth;
    assert s[0..] == s;
    assert forall i | 0 <= i < |s| - 1 :: s[1..][i..] == s[i + 1..];
    if EscapeWidth(s) == 0 && NoEscape(s[1..]) {
      forall i | 0 <= i < |s| ensures EscapeWidth(s[i..]) == 0 {
        assert i > 0 ==> s[1..][i - 1..] == s[i..];
      }
    }
  }

  /** A hexadecimal digit of the text is one of the encoded text, and the other way round. */
  lemma {:induction false} EncodedDigits(s: Bytes, n: nat, v: nat)
    requires NUL !in s
    ensures HexNumber(Encoded(s), n, v) == HexNumber(s, n, v)
    ensures HexNumber(s, n, v).Some? ==> n <= |s| && n <= |Encoded(s)| && Encoded(s)[n..] == Encoded(s[n..])
    decreases n
  {
    if n > 0 && s != [] {
      if HexDigit(s[0]).Some? {
        EncodedDigits(s[1..], n - 1, 16 * v + HexDigit(s[0]).value);
        assert Encoded(s)[1..] == Encoded(s[1..]);
        if HexNumber(s, n, v).Some? {
          assert Encoded(s)[n..] == Encoded(s)[1..][n - 1..];
          assert s[1..][n - 1..] == s[n..];
        }
      } else {
        assert HexDigit(EncodedByte(s[0])[0]).None?;
      }
    }
  }

  lemma {:induction false} EscapedByte(c: Byte, rest: Bytes)
    requires MustEscape(c)
    ensures Decoded(EncodedByte(c) + rest) == [c] + Decoded(rest)
  {
    var s := EncodedByte(c) + rest;
    var high, low := c / 16, c % 16;
    assert HexDigit(UpperDigit(high)) == Some(high) && HexDigit(UpperDigit(low)) == Some(low);
    assert s[1] == UpperDigit(high) && s[1..][0] == s[1] && s[1..][1..][0] == UpperDigit(low);
    assert HexNumber(s[1..], 2, 0) == HexNumber(s[1..][1..], 1, high);
    assert HexNumber(s[1..][1..], 1, high) == Some(16 * high + low);
    assert s[3..] == rest;
  }

  /** The encoded text reads as an escape where the text does. */
  lemma {:induction false} SameWidth(s: Bytes)
    requires NUL !in s && s != [] && s[0] == PERCENT
    ensures var n := EscapeWidth(s); EscapeWidth(Encoded(s)) == n && Encoded(s)[n..] == Encoded(s[n..])
  {
    hide HexNumber;
    var rest := s[1..];
    var t := Encoded(rest);
    assert Encoded(s) == [PERCENT] + t && Encoded(s)[1..] == t;
    if rest != [] {
      assert s[1] == rest[0];
      if rest[0] == LOWER_U {
        assert t == [LOWER_U] + Encoded(rest[1..]);
        assert s[2..] == rest[1..] && Encoded(s)[2..] == Encoded(rest[1..]);
        EncodedDigits(rest[1..], 4, 0);
        if EscapeWidth(s) > 0 {
          assert Encoded(s)[6..] == Encoded(rest[1..])[4..];
          assert rest[1..][4..] == s[6..];
        }
      } else {
        EncodedDigits(rest, 2, 0);
        assert t[0] != LOWER_U && Encoded(s)[1] == t[0];
        if EscapeWidth(s) > 0 {
          assert Encoded(s)[3..] == t[2..];
          assert rest[2..] == s[3..];
        }
      }
    }
  }

  lemma {:induction false} Shortens(s: Bytes)
    requires EscapeWidth(s) > 0
    ensures |Unescaped(s)| < EscapeWidth(s)
  {
  }

  /** Encoding and decoding never makes a text longer, and makes it shorter where it reads as an escape. */
  lemma {:induction false} ThereAndBack(s: Bytes)
    requires NUL !in s
    ensures |Decoded(Encoded(s))| <= |s|
    ensures NoEscape(s) ==> Decoded(Encoded(s)) == s
    ensures !NoEscape(s) ==> |Decoded(Encoded(s))| < |s|
    decreases |s|
  {
    if s != [] {
      var c, rest := s[0], s[1..];
      var e := Encoded(s);
      assert s == [c] + rest;
      NoEscapeFirst(s);
      ThereAndBack(rest);
      hide NoEscape, HexNumber;
      if MustEscape(c) {
        EscapedByte(c, Encoded(rest));
      } else if c == PERCENT {
        SameWidth(s);
        var n := EscapeWidth(s);
        if n > 0 {
          ThereAndBack(s[n..]);
          Shortens(e);
          hide EscapeWidth, Unescaped, Encoded;
          DecodedStep(e, n, Unescaped(e));
        } else {
          hide EscapeWidth, Unescaped;
          assert e == [PERCENT] + Encoded(rest) && e[1..] == Encoded(rest);
          DecodedStep(e, 1, [PERCENT]);
        }
      } else {
        assert e == [c] + Encoded(rest) && e[1..] == Encoded(rest);
        DecodedStep(e, 1, [c]);
      }
    }
  }

  lemma {:induction false} UpToNul(s: Bytes, n: nat)
    requires n < |s| && s[n] == NUL && NUL !in s[..n]
    ensures Encoded(s) == Encoded(s[..n])
  {
    if n > 0 {
      assert s[1..][..n - 1] == s[..n][1..];
      assert s[..n][0] == s[0] && s[1..][n - 1] == NUL;
      UpToNul(s[1..], n - 1);
    }
  }

  lemma {:induction false} FirstNul(s: Bytes) returns (n: nat)
    requires NUL in s
    ensures n < |s| && s[n] == NUL && NUL !in s[..n]
  {
    n := 0;
    while s[n] != NUL
      invariant n < |s| && NUL !in s[..n] && NUL in s[n..]
      decreases |s| - n
    {
      n := n + 1;
    }
  }

  /** decode_url gives back what went into encode_url if and only if that holds no NUL and nothing that
      reads as an escape; in particular when it holds no percent sign. */
  lemma {:induction false} RoundTrip(s: Bytes)
    ensures Decoded(Encoded(s)) == s <==> NUL !in s && NoEscape(s)
    ensures PERCENT !in s ==> NoEscape(s)
  {
    hide Encoded, Decoded, HexNumber, EscapeWidth, NoEscape;
    if NUL in s {
      var n := FirstNul(s);
      UpToNul(s, n);
      ThereAndBack(s[..n]);
    } else {
      ThereAndBack(s);
    }
    if PERCENT !in s {
      NoPercent(s);
    }
  }

  lemma {:induction false} NoPercent(s: Bytes)
    requires PERCENT !in s
    ensures NoEscape(s)
  {
  }
}
