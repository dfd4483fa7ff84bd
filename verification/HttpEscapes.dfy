/** What decode_url does with every escape, and what encode_url leaves in its output
    (3rd_party/cpp-httplib/httplib.h:937-1085), said of the bytes themselves. */
module HttpEscapes {
  import opened HttpBytes
  import opened HttpUrl
  import opened Wrappers

  /** b is a hexadecimal digit of this value, in either case. */
  predicate IsDigit(b: Byte, d: nat) {
    if d < 10 then b == 0x30 + d else d < 16 && (b == 0x41 + d - 10 || b == 0x61 + d - 10)
  }

  lemma {:induction false} DigitIsRead(b: Byte, d: nat)
    ensures HexDigit(b) == Some(d) <==> IsDigit(b, d)
  {
  }

  lemma {:induction false} TwoDigits(h: Byte, l: Byte, rest: Bytes, c: Byte)
    requires IsDigit(h, c / 16) && IsDigit(l, c % 16)
    ensures HexNumber([h, l] + rest, 2, 0) == Some(c)
  {
    var s := [h, l] + rest;
    DigitIsRead(h, c / 16);
    DigitIsRead(l, c % 16);
    assert s[1..] == [l] + rest;
    assert HexNumber(s, 2, 0) == HexNumber([l] + rest, 1, c / 16);
  }

  /** A percent sign and the two digits of any byte stand for the byte. */
  lemma {:induction false} EscapeDecodes(h: Byte, l: Byte, rest: Bytes, c: Byte)
    requires IsDigit(h, c / 16) && IsDigit(l, c % 16)
    ensures Decoded([PERCENT, h, l] + rest) == [c] + Decoded(rest)
  {
    var s := [PERCENT, h, l] + rest;
    TwoDigits(h, l, rest, c);
    hide HexNumber;
    assert s[1..] == [h, l] + rest && s[3..] == rest;
    assert h != LOWER_U;
    DecodedStep(s, 3, [c]);
  }

  /** Every other byte but a percent sign stands for itself, and a plus for a space. */
  lemma {:induction false} PlainDecodes(c: Byte, rest: Bytes)
    requires c != PERCENT
    ensures Decoded([c] + rest) == [if c == PLUS then SPACE else c] + Decoded(rest)
  {
    assert ([c] + rest)[1..] == rest;
  }

  predicate IsHex(b: Byte) {
    exists d | 0 <= d < 16 :: IsDigit(b, d)
  }

  /** n hexadecimal digits follow. */
  predicate DigitsFollow(s: Bytes, n: nat) {
    n <= |s| && forall i | 0 <= i < n :: IsHex(s[i])
  }

  lemma {:induction false} HexIsRead(b: Byte)
    ensures HexDigit(b).Some? <==> IsHex(b)
  {
    if HexDigit(b).Some? {
      DigitIsRead(b, HexDigit(b).value);
    }
    if IsHex(b) {
      var d :| 0 <= d < 16 && IsDigit(b, d);
      DigitIsRead(b, d);
    }
  }

  lemma {:induction false} DigitsAreRead(s: Bytes, n: nat, v: nat)
    ensures HexNumber(s, n, v).Some? <==> DigitsFollow(s, n)
    decreases n
  {
    hide IsHex, HexDigit;
    if n > 0 && s != [] {
      HexIsRead(s[0]);
      if HexDigit(s[0]).Some? {
        DigitsAreRead(s[1..], n - 1, 16 * v + HexDigit(s[0]).value);
        assert s == [s[0]] + s[1..];
      }
    }
  }

  /** A percent sign before anything else stands for itself. */
  lemma {:induction false} PercentStays(rest: Bytes)
    requires if rest != [] && rest[0] == LOWER_U then !DigitsFollow(rest[1..], 4) else !DigitsFollow(rest, 2)
    ensures Decoded([PERCENT] + rest) == [PERCENT] + Decoded(rest)
  {
    hide DigitsFollow, HexNumber;
    var s := [PERCENT] + rest;
    assert s[1..] == rest;
    if rest != [] && rest[0] == LOWER_U {
      assert s[2..] == rest[1..];
      DigitsAreRead(rest[1..], 4, 0);
    } else {
      DigitsAreRead(rest, 2, 0);
    }
    DecodedStep(s, 1, [PERCENT]);
  }

  // ---------------------------------------------------------------------------------------------
  // Any way to write a text
  // ---------------------------------------------------------------------------------------------

  /** How one byte is written: as it is, as a plus, or as an escape with these two digits. */
  datatype Way = Plain | AsPlus | Escape(high: Byte, low: Byte)

  predicate Allows(way: Way, c: Byte) {
    match way
    case Plain => c != PERCENT && c != PLUS
    case AsPlus => c == SPACE
    case Escape(high, low) => IsDigit(high, c / 16) && IsDigit(low, c % 16)
  }

  function Write(way: Way, c: Byte): Bytes {
    match way
    case Plain => [c]
    case AsPlus => [PLUS]
    case Escape(high, low) => [PERCENT, high, low]
  }

  function Written(s: Bytes, ways: seq<Way>): Bytes
    requires |s| == |ways|
  {
    if s == [] then [] else Write(ways[0], s[0]) + Written(s[1..], ways[1..])
  }

  /** A text in which any bytes are escaped, among them each percent sign and plus, and in which any
      space is written as a plus, is decoded to itself. */
  lemma {:induction false} AnyWritingDecodes(s: Bytes, ways: seq<Way>)
    requires |s| == |ways| && forall i | 0 <= i < |s| :: Allows(ways[i], s[i])
    ensures Decoded(Written(s, ways)) == s
  {
    if s == [] {
    } else {
      hide Decoded, IsDigit;
      var rest := Written(s[1..], ways[1..]);
      AnyWritingDecodes(s[1..], ways[1..]);
      assert Allows(ways[0], s[0]);
      match ways[0]
      case Plain => PlainDecodes(s[0], rest);
      case AsPlus => PlainDecodes(PLUS, rest);
      case Escape(high, low) => EscapeDecodes(high, low, rest, s[0]);
    }
  }

  // ---------------------------------------------------------------------------------------------
  // Code points
  // ---------------------------------------------------------------------------------------------

  predicate Continues(b: Byte) {
    0x80 <= b < 0xC0
  }

  /** The UTF-8 coding of a code point below 0x10000: its lead byte says the number of bytes, which is the
      least, and each of the others gives six bits. */
  predicate IsUtf8(s: Bytes, code: nat) {
    if code < 0x80 then s == [code]
    else if code < 0x800 then
      |s| == 2 && 0xC0 <= s[0] < 0xE0 && Continues(s[1]) && code == 64 * (s[0] as int - 0xC0) + (s[1] as int - 0x80)
    else
      && |s| == 3 && 0xE0 <= s[0] < 0xF0 && Continues(s[1]) && Continues(s[2])
      && code == 4096 * (s[0] as int - 0xE0) + 64 * (s[1] as int - 0x80) + (s[2] as int - 0x80)
  }

  lemma {:induction false} Utf8IsUtf8(code: nat)
    requires code < 0x10000
    ensures if 0xD800 <= code < 0xE000 then Utf8(code) == [] else IsUtf8(Utf8(code), code)
  {
    var q := code / 64;
    assert code == 64 * q + code % 64 && q == 64 * (q / 64) + q % 64;
    assert q / 64 == code / 4096;
    if code < 0x800 {
      assert q % 32 == q;
    } else {
      assert code / 4096 % 16 == code / 4096;
    }
  }

  /** `%u` and four digits stand for the UTF-8 coding of that code point, and for nothing when it is a surrogate. */
  lemma {:induction false} CodePointDecodes(a: nat, b: nat, c: nat, d: nat, digits: Bytes, rest: Bytes) returns (utf8: Bytes)
    requires |digits| == 4 && IsDigit(digits[0], a) && IsDigit(digits[1], b) && IsDigit(digits[2], c) && IsDigit(digits[3], d)
    ensures Decoded([PERCENT, LOWER_U] + digits + rest) == utf8 + Decoded(rest)
    ensures var code := 4096 * a + 256 * b + 16 * c + d;
            if 0xD800 <= code < 0xE000 then utf8 == [] else IsUtf8(utf8, code)
  {
    var s, code := [PERCENT, LOWER_U] + digits + rest, 4096 * a + 256 * b + 16 * c + d;
    FourDigits(a, b, c, d, digits, rest);
    hide HexNumber, Utf8, IsDigit;
    assert s[2..] == digits + rest && s[6..] == rest;
    utf8 := Utf8(code);
    Utf8IsUtf8(code);
    DecodedStep(s, 6, utf8);
  }

  lemma {:induction false} FourDigits(a: nat, b: nat, c: nat, d: nat, digits: Bytes, rest: Bytes)
    requires |digits| == 4 && IsDigit(digits[0], a) && IsDigit(digits[1], b) && IsDigit(digits[2], c) && IsDigit(digits[3], d)
    ensures a < 16 && b < 16 && c < 16 && d < 16
    ensures HexNumber(digits + rest, 4, 0) == Some(4096 * a + 256 * b + 16 * c + d)
  {
    var s := digits + rest;
    DigitIsRead(digits[0], a);
    DigitIsRead(digits[1], b);
    DigitIsRead(digits[2], c);
    DigitIsRead(digits[3], d);
    hide IsDigit, HexDigit;
    assert s[1..][0] == digits[1] && s[1..][1..] == s[2..] && s[2..][0] == digits[2] && s[2..][1..] == s[3..] && s[3..][0] == digits[3];
    assert HexNumber(s, 4, 0) == HexNumber(s[1..], 3, a);
    assert HexNumber(s[1..], 3, a) == HexNumber(s[2..], 2, 16 * a + b);
    assert HexNumber(s[2..], 2, 16 * a + b) == HexNumber(s[3..], 1, 16 * (16 * a + b) + c);
  }

  // ---------------------------------------------------------------------------------------------
  // What encode_url leaves
  // ---------------------------------------------------------------------------------------------

  /** Space, plus, apostrophe, comma, colon, semicolon, and everything beyond ASCII. */
  predicate IsUnsafe(b: Byte) {
    b == 0x20 || b == 0x2B || b == 0x27 || b == 0x2C || b == 0x3A || b == 0x3B || b >= 0x80
  }

  /** No byte of the output is one of these. */
  lemma {:induction false} EncodesUnsafe(s: Bytes)
    ensures forall i | 0 <= i < |Encoded(s)| :: !IsUnsafe(Encoded(s)[i])
  {
    if s != [] && s[0] != NUL {
      EncodesUnsafe(s[1..]);
      assert forall i | 0 <= i < |EncodedByte(s[0])| :: !IsUnsafe(EncodedByte(s[0])[i]);
    }
  }

  /** A text without these is left as it is. */
  lemma {:induction false} LeavesSafe(s: Bytes)
    requires forall i | 0 <= i < |s| :: !IsUnsafe(s[i]) && s[i] != NUL
    ensures Encoded(s) == s
  {
    if s != [] {
      LeavesSafe(s[1..]);
      assert s == [s[0]] + s[1..];
    }
  }
}
