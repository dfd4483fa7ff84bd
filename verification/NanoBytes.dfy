/** The bytes of a log line (3rd_party/NanoLog/NanoLog.cpp): how arguments are laid out in its buffer, and
    what stringify reads back. Numbers are stored in little-endian byte order. */
module NanoBytes {
  import opened Wrappers

  /** The arguments a line can carry, in the order of SupportedTypes. A double is its 64-bit pattern and a
      string literal the address of its characters. */
  datatype Arg =
    | Char(c: Byte)
    | UInt32(u: int)
    | UInt64(u: int)
    | Int32(i: int)
    | Int64(i: int)
    | Double(bits: int)
    | Literal(address: int)
    | Text(s: seq<Byte>)

  /** The value fits its C type. */
  predicate Fits(a: Arg) {
    match a
    case Char(_) => true
    case UInt32(u) => 0 <= u < 0x1_0000_0000
    case Int32(i) => -0x8000_0000 <= i < 0x8000_0000
    case UInt64(u) => 0 <= u < 0x1_0000_0000_0000_0000
    case Int64(i) => -0x8000_0000_0000_0000 <= i < 0x8000_0000_0000_0000
    case Double(bits) => 0 <= bits < 0x1_0000_0000_0000_0000
    case Literal(address) => 0 <= address < 0x1_0000_0000_0000_0000
    case Text(_) => true
  }

  // ---------------------------------------------------------------------------------------------
  // Numbers in memory
  // ---------------------------------------------------------------------------------------------

  /** The n low bytes of v, lowest first. */
  function Stored(v: int, n: nat): (r: seq<Byte>)
    ensures |r| == n
    decreases n
  {
    if n == 0 then [] else [v % 256] + Stored(v / 256, n - 1)
  }

  function Loaded(bytes: seq<Byte>): nat {
    if bytes == [] then 0 else bytes[0] + 256 * Loaded(bytes[1..])
  }

  function Power(n: nat): nat {
    if n == 0 then 1 else 256 * Power(n - 1)
  }

  /** Storing keeps the value up to the width of the type. */
  lemma {:induction false} StoreLoad(v: int, n: nat)
    requires 0 <= v < Power(n)
    ensures Loaded(Stored(v, n)) == v
  {
    if n > 0 {
      StoreLoad(v / 256, n - 1);
    }
  }

  lemma {:induction false} Powers()
    ensures Power(4) == 0x1_0000_0000 && Power(8) == 0x1_0000_0000_0000_0000
  {
    assert Power(2) == 0x1_0000;
    assert Power(4) == 0x1_0000_0000;
    assert Power(6) == 0x1_0000_0000_0000;
  }

  /** Two's complement. */
  function Signed(v: int, range: nat): int {
    if 2 * v >= range then v - range else v
  }

  // ---------------------------------------------------------------------------------------------
  // One argument
  // ---------------------------------------------------------------------------------------------

  function TypeId(a: Arg): Byte {
    match a
    case Char(_) => 0
    case UInt32(_) => 1
    case UInt64(_) => 2
    case Int32(_) => 3
    case Int64(_) => 4
    case Double(_) => 5
    case Literal(_) => 6
    case Text(_) => 7
  }

  /** The bytes after the type id. */
  function Payload(a: Arg): seq<Byte> {
    match a
    case Char(c) => [c]
    case UInt32(u) => Stored(u, 4)
    case UInt64(u) => Stored(u, 8)
    case Int32(i) => Stored(i % 0x1_0000_0000, 4)
    case Int64(i) => Stored(i % 0x1_0000_0000_0000_0000, 8)
    case Double(bits) => Stored(bits, 8)
    case Literal(address) => Stored(address, 8)
    case Text(s) => s + [0]
  }

  /** What one << appends; an empty text appends nothing. */
  function Encoded(a: Arg): seq<Byte> {
    if a == Text([]) then [] else [TypeId(a)] + Payload(a)
  }

  function EncodedAll(args: seq<Arg>): seq<Byte> {
    if args == [] then [] else EncodedAll(args[..|args| - 1]) + Encoded(args[|args| - 1])
  }

  /** sizeof the type with this id; a text has no fixed size. */
  function Width(id: Byte): nat
    requires id < 7
  {
    match id case 0 => 1 case 1 => 4 case 3 => 4 case _ => 8
  }

  function FixedArg(id: Byte, bytes: seq<Byte>): Arg
    requires id < 7 && |bytes| == Width(id)
  {
    match id
    case 0 => Char(bytes[0])
    case 1 => UInt32(Loaded(bytes))
    case 2 => UInt64(Loaded(bytes))
    case 3 => Int32(Signed(Loaded(bytes), 0x1_0000_0000))
    case 4 => Int64(Signed(Loaded(bytes), 0x1_0000_0000_0000_0000))
    case 5 => Double(Loaded(bytes))
    case _ => Literal(Loaded(bytes))
  }

  // ---------------------------------------------------------------------------------------------
  // stringify
  // ---------------------------------------------------------------------------------------------

  /** The characters up to the first NUL; None when there is none before the end. */
  function UpToNul(bytes: seq<Byte>): (r: Option<seq<Byte>>)
    ensures r.Some? ==> |r.value| < |bytes| && r.value + [0] <= bytes
  {
    if bytes == [] then None
    else if bytes[0] == 0 then Some([])
    else
      var rest :- UpToNul(bytes[1..]);
      Some([bytes[0]] + rest)
  }

  /** The arguments stringify prints. An unknown type id ends the line; None when it would read past the
      bytes in use. */
  function Decoded(bytes: seq<Byte>): Option<seq<Arg>>
    decreases |bytes|
  {
    if bytes == [] then Some([])
    else if bytes[0] > 7 then Some([])
    else if bytes[0] == 7 then
      var text :- UpToNul(bytes[1..]);
      var rest :- Decoded(bytes[|text| + 2..]);
      Some([Text(text)] + rest)
    else
      var n := 1 + Width(bytes[0]);
      if |bytes| < n then None
      else
        var rest :- Decoded(bytes[n..]);
        Some([FixedArg(bytes[0], bytes[1..n])] + rest)
  }

  // ---------------------------------------------------------------------------------------------
  // Decoding undoes encoding, exactly when no text holds a NUL
  // ---------------------------------------------------------------------------------------------

  /** Only a std::string can hold a NUL. */
  predicate NoNul(args: seq<Arg>) {
    forall i | 0 <= i < |args| && args[i].Text? :: 0 !in args[i].s
  }

  /** The arguments without the empty texts. */
  function Kept(args: seq<Arg>): seq<Arg> {
    if args == [] then []
    else (if args[0] == Text([]) then [] else [args[0]]) + Kept(args[1..])
  }

  lemma {:induction false} NulEndsText(s: seq<Byte>, rest: seq<Byte>)
    requires 0 !in s
    ensures UpToNul(s + [0] + rest) == Some(s)
  {
    if s == [] {
      assert (s + [0] + rest)[0] == 0;
    } else {
      NulEndsText(s[1..], rest);
      assert (s + [0] + rest)[1..] == s[1..] + [0] + rest;
      assert [s[0]] + s[1..] == s;
    }
  }

  lemma {:induction false} FixedRoundTrip(a: Arg)
    requires Fits(a) && !a.Text?
    ensures TypeId(a) < 7 && |Payload(a)| == Width(TypeId(a)) && FixedArg(TypeId(a), Payload(a)) == a
  {
    hide Stored, Loaded, Power;
    Powers();
    match a
    case Char(c) =>
    case UInt32(u) => StoreLoad(u, 4);
    case UInt64(u) => StoreLoad(u, 8);
    case Int32(i) => StoreLoad(i % 0x1_0000_0000, 4);
    case Int64(i) => StoreLoad(i % 0x1_0000_0000_0000_0000, 8);
    case Double(bits) => StoreLoad(bits, 8);
    case Literal(address) => StoreLoad(address, 8);
  }

  /** One more argument in front. */
  function Before(a: Arg, rest: Option<seq<Arg>>): Option<seq<Arg>> {
    if rest.None? then None else Some([a] + rest.value)
  }

  lemma {:induction false} DecodesText(s: seq<Byte>, rest: seq<Byte>)
    requires 0 !in s
    ensures Decoded([7] + (s + [0]) + rest)
         == Before(Text(s), Decoded(rest))
  {
    hide FixedArg, Width, UpToNul;
    var bytes: seq<Byte> := [7] + (s + [0]) + rest;
    NulEndsText(s, rest);
    assert bytes[1..] == s + [0] + rest;
    assert bytes[|s| + 2..] == rest;
  }

  lemma {:induction false} DecodesFixed(id: Byte, payload: seq<Byte>, rest: seq<Byte>)
    requires id < 7 && |payload| == Width(id)
    ensures Decoded([id] + payload + rest)
         == Before(FixedArg(id, payload), Decoded(rest))
  {
    hide FixedArg, Width, UpToNul;
    var bytes := [id] + payload + rest;
    assert bytes[1..1 + Width(id)] == payload;
    assert bytes[1 + Width(id)..] == rest;
  }

  /** One argument in front of anything. */
  lemma {:induction false} DecodesFirst(a: Arg, rest: seq<Byte>)
    requires Fits(a) && a != Text([]) && (a.Text? ==> 0 !in a.s)
    ensures Decoded(Encoded(a) + rest)
         == Before(a, Decoded(rest))
  {
    hide FixedArg, Width, Decoded;
    if a.Text? {
      DecodesText(a.s, rest);
    } else {
      FixedRoundTrip(a);
      DecodesFixed(TypeId(a), Payload(a), rest);
    }
  }

  lemma {:induction false} EncodedFirst(args: seq<Arg>)
    requires args != []
    ensures EncodedAll(args) == Encoded(args[0]) + EncodedAll(args[1..])
  {
    hide Encoded;
    if |args| > 1 {
      var n := |args| - 1;
      EncodedFirst(args[..n]);
      assert args[..n][1..] == args[1..][..n - 1];
      assert args[..n][0] == args[0] && args[1..][n - 1] == args[n];
    } else {
      assert args[..0] == [] && args[1..] == [];
    }
  }

  lemma {:induction false} NulFreeRoundTrip(args: seq<Arg>)
    requires (forall i | 0 <= i < |args| :: Fits(args[i])) && NoNul(args)
    ensures Decoded(EncodedAll(args)) == Some(Kept(args))
  {
    hide Encoded, Fits;
    if args != [] {
      EncodedFirst(args);
      var rest := args[1..];
      assert forall i | 0 <= i < |rest| :: rest[i] == args[i + 1];
      NulFreeRoundTrip(rest);
      if args[0] == Text([]) {
        assert Encoded(args[0]) == [] by {
          EmptyText();
        }
        assert EncodedAll(args) == EncodedAll(rest);
        assert Kept(args) == Kept(rest);
      } else {
        DecodesFirst(args[0], EncodedAll(rest));
      }
    }
  }

  lemma {:induction false} EmptyText()
    ensures Encoded(Text([])) == []
  {
  }

  lemma {:induction false} DecodedTextsHaveNoNul(bytes: seq<Byte>)
    requires Decoded(bytes).Some?
    ensures NoNul(Decoded(bytes).value)
    decreases |bytes|
  {
    hide FixedArg;
    if bytes == [] || bytes[0] > 7 {
    } else if bytes[0] == 7 {
      var text := UpToNul(bytes[1..]).value;
      UpToNulHasNoNul(bytes[1..]);
      DecodedTextsHaveNoNul(bytes[|text| + 2..]);
    } else {
      var n := 1 + Width(bytes[0]);
      FixedIsNoText(bytes[0], bytes[1..n]);
      DecodedTextsHaveNoNul(bytes[n..]);
    }
  }

  lemma {:induction false} FixedIsNoText(id: Byte, bytes: seq<Byte>)
    requires id < 7 && |bytes| == Width(id)
    ensures !FixedArg(id, bytes).Text?
  {
  }

  lemma {:induction false} UpToNulHasNoNul(bytes: seq<Byte>)
    requires UpToNul(bytes).Some?
    ensures 0 !in UpToNul(bytes).value
  {
    if bytes[0] != 0 {
      UpToNulHasNoNul(bytes[1..]);
    }
  }

  lemma {:induction false} NoNulFirst(a: Arg, rest: seq<Arg>)
    ensures NoNul([a] + rest) <==> (a.Text? ==> 0 !in a.s) && NoNul(rest)
  {
    var args := [a] + rest;
    assert args[0] == a;
    assert forall i | 0 <= i < |rest| :: args[i + 1] == rest[i];
    if (a.Text? ==> 0 !in a.s) && NoNul(rest) {
      forall i | 0 <= i < |args| && args[i].Text? ensures 0 !in args[i].s {
        assert i > 0 ==> args[i] == rest[i - 1];
      }
    }
  }

  lemma {:induction false} KeptNoNul(args: seq<Arg>)
    ensures NoNul(Kept(args)) <==> NoNul(args)
  {
    hide NoNul;
    if args != [] {
      KeptNoNul(args[1..]);
      assert args == [args[0]] + args[1..];
      NoNulFirst(args[0], args[1..]);
      NoNulFirst(args[0], Kept(args[1..]));
      assert args[0] == Text([]) ==> Kept(args) == Kept(args[1..]);
    } else {
      assert Kept(args) == args;
    }
  }

  /** stringify reads back exactly the arguments that were appended, empty texts aside, if and only if
      none of the texts holds a NUL. */
  lemma {:induction false} RoundTrip(args: seq<Arg>)
    requires forall i | 0 <= i < |args| :: Fits(args[i])
    ensures Decoded(EncodedAll(args)) == Some(Kept(args)) <==> NoNul(args)
  {
    hide Fits, Decoded, EncodedAll, Kept;
    if NoNul(args) {
      NulFreeRoundTrip(args);
    } else if Decoded(EncodedAll(args)).Some? {
      DecodedTextsHaveNoNul(EncodedAll(args));
      KeptNoNul(args);
    }
  }
}
