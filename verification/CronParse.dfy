/** The parser of cron expressions as it runs: two-pass string routines over buffers of computed
    size, and bitsets filled in place. Each method is proved to compute what CronText says. */
module CronParse {
  import opened Bits
  import opened CronSpec
  import opened Wrappers
  import opened CronText
  import opened CronImpl

  // ---------------------------------------------------------------------------------------------
  // split_str
  // ---------------------------------------------------------------------------------------------

  /** The pieces that are complete before the last segment, and the piece that the last one makes. */
  function Complete(s: string, del: char): seq<string> {
    var segments := SplitOn(s, del);
    NonEmpty(segments[..|segments| - 1])
  }

  function Pending(s: string, del: char): string {
    var segments := SplitOn(s, del);
    Strip(segments[|segments| - 1])
  }

  lemma {:induction false} NextChar(str: string, i: nat, del: char)
    requires i < |str|
    ensures var s, t, c := str[..i], str[..i + 1], str[i];
            if c == del then
              && Complete(t, del) == (if Pending(s, del) == [] then Complete(s, del) else Complete(s, del) + [Pending(s, del)])
              && Pending(t, del) == []
            else
              && Complete(t, del) == Complete(s, del)
              && Pending(t, del) == (if IsSpace(c) then Pending(s, del) else Pending(s, del) + [c])
  {
    var s, t, c := str[..i], str[..i + 1], str[i];
    assert t[..|t| - 1] == s && t[|t| - 1] == c;
    var r := SplitOn(s, del);
    if c == del {
      assert (r + [[]])[..|r|] == r;
    } else {
      var last := r[|r| - 1] + [c];
      assert (r[..|r| - 1] + [last])[..|r| - 1] == r[..|r| - 1];
      assert last[..|last| - 1] == r[|r| - 1];
    }
  }

  lemma {:induction false} AllPieces(s: string, del: char)
    ensures Pieces(s, del) == Complete(s, del) + (if Pending(s, del) == [] then [] else [Pending(s, del)])
  {
  }

  lemma {:induction false} CompleteShort(str: string, i: nat, del: char)
    requires i <= |str|
    ensures |Complete(str[..i], del)| <= |Complete(str, del)|
    ensures |Complete(str[..i], del)| + (if Pending(str[..i], del) == [] then 0 else 1) <= |Pieces(str, del)|
    decreases |str| - i
  {
    AllPieces(str, del);
    assert str[..|str|] == str;
    if i < |str| {
      NextChar(str, i, del);
      CompleteShort(str, i + 1, del);
    }
  }

  /** split_str: the first pass counts the pieces, the second one fills a table of that size. A NULL
      result is a table without entries. */
  method SplitStr(str: string, del: char) returns (res: array<string>)
    ensures fresh(res) && res[..] == CronText.SplitStr(str, del)
  {
    hide Complete, Pending, Pieces;
    var stlen := 0;
    while stlen < |str|
      invariant stlen <= |str| && stlen < MAX_STR_LEN_TO_SPLIT
    {
      stlen := stlen + 1;
      if stlen >= MAX_STR_LEN_TO_SPLIT {
        return new string[0];
      }
    }

    var len, accum := 0, 0;
    EmptyPrefix(str, del);
    for i := 0 to stlen
      invariant len == |Complete(str[..i], del)| && accum == |Pending(str[..i], del)|
    {
      NextChar(str, i, del);
      if del == str[i] {
        if accum > 0 {
          len := len + 1;
          accum := 0;
        }
      } else if !IsSpace(str[i]) {
        accum := accum + 1;
      }
    }
    assert str[..stlen] == str;
    AllPieces(str, del);
    if accum > 0 {
      len := len + 1;
    }
    if len == 0 {
      return new string[0];
    }

    var buf := new char[stlen + 1](_ => '\0');
    res := new string[len](_ => []);
    var bi, ri := 0, 0;
    for i := 0 to stlen
      invariant fresh(res) && fresh(buf) && res.Length == len && buf.Length == stlen + 1
      invariant bi <= i && buf[..bi] == Pending(str[..i], del)
      invariant ri == |Complete(str[..i], del)| <= len && res[..ri] == Complete(str[..i], del)
    {
      NextChar(str, i, del);
      CompleteShort(str, i, del);
      if del == str[i] {
        if bi > 0 {
          res[ri] := buf[..bi];
          ri := ri + 1;
          bi := 0;
        }
      } else if !IsSpace(str[i]) {
        buf[bi] := str[i];
        bi := bi + 1;
      }
    }
    if bi > 0 {
      res[ri] := buf[..bi];
      ri := ri + 1;
    }
    assert ri == len;
  }

  lemma {:induction false} EmptyPrefix(str: string, del: char)
    ensures Complete(str[..0], del) == [] && Pending(str[..0], del) == []
  {
    assert SplitOn([], del) == [[]];
    var none: seq<string> := [[]];
    assert none[..0] == [];
  }

  // ---------------------------------------------------------------------------------------------
  // str_replace
  // ---------------------------------------------------------------------------------------------

  predicate OccursAt(s: string, rep: string, k: int) {
    0 <= k <= |s| - |rep| && s[k..k + |rep|] == rep
  }

  /** strstr: the first place at or after the given one where rep occurs, or -1. */
  function Strstr(s: string, rep: string, o: nat): (r: int)
    requires rep != [] && o <= |s|
    ensures r >= 0 ==> o <= r <= |s| - |rep| && OccursAt(s, rep, r)
    ensures forall k :: o <= k && OccursAt(s, rep, k) ==> 0 <= r <= k
    decreases |s| - o
  {
    if o + |rep| > |s| then -1
    else if OccursAt(s, rep, o) then o
    else Strstr(s, rep, o + 1)
  }

  /** The number of replacements. */
  function Occurrences(s: string, rep: string): nat
    requires rep != []
  {
    if |s| < |rep| then 0
    else if s[..|rep|] == rep then 1 + Occurrences(s[|rep|..], rep)
    else Occurrences(s[1..], rep)
  }

  lemma {:induction false} Distribute(d: int, n: int)
    ensures d * (n + 1) == d * n + d
  {
  }

  lemma {:induction false} ReplacedLength(s: string, rep: string, with_: string)
    requires rep != []
    ensures |Replaced(s, rep, with_)| == |s| + (|with_| - |rep|) * Occurrences(s, rep)
    decreases |s|
  {
    if |s| < |rep| {
    } else if s[..|rep|] == rep {
      ReplacedLength(s[|rep|..], rep, with_);
      Distribute(|with_| - |rep|, Occurrences(s[|rep|..], rep));
    } else {
      ReplacedLength(s[1..], rep, with_);
    }
  }

  lemma {:induction false} ReplacedShort(s: string, rep: string, with_: string, o: nat)
    requires rep != [] && |s| - |rep| < o <= |s|
    ensures Replaced(s[o..], rep, with_) == s[o..] && Occurrences(s[o..], rep) == 0
  {
  }

  lemma {:induction false} ReplacedStep(s: string, rep: string, with_: string, o: nat)
    requires rep != [] && o < |s| && !OccursAt(s, rep, o)
    ensures Replaced(s[o..], rep, with_) == [s[o]] + Replaced(s[o + 1..], rep, with_) || |s| - o < |rep|
    ensures Occurrences(s[o..], rep) == Occurrences(s[o + 1..], rep)
  {
    assert s[o..][1..] == s[o + 1..];
    if o + |rep| <= |s| {
      assert s[o..][..|rep|] == s[o..o + |rep|];
    }
  }

  lemma {:induction false} ReplacedHit(s: string, rep: string, with_: string, o: nat)
    requires rep != [] && o < |s| && OccursAt(s, rep, o)
    ensures Replaced(s[o..], rep, with_) == with_ + Replaced(s[o + |rep|..], rep, with_)
    ensures Occurrences(s[o..], rep) == 1 + Occurrences(s[o + |rep|..], rep)
  {
    assert s[o..][..|rep|] == s[o..o + |rep|];
    assert s[o..][|rep|..] == s[o + |rep|..];
  }

  lemma {:induction false} PrependChar(s: string, o: nat, k: int, rest: string)
    requires o < k <= |s|
    ensures [s[o]] + (s[o + 1..k] + rest) == s[o..k] + rest
  {
  }

  /** Nothing happens up to the next occurrence. */
  lemma {:induction false} ReplacedNext(s: string, rep: string, with_: string, o: nat)
    requires rep != [] && o <= |s|
    ensures var k := Strstr(s, rep, o);
            if k < 0 then Replaced(s[o..], rep, with_) == s[o..] && Occurrences(s[o..], rep) == 0
            else
              && Replaced(s[o..], rep, with_) == s[o..k] + (with_ + Replaced(s[k + |rep|..], rep, with_))
              && Occurrences(s[o..], rep) == 1 + Occurrences(s[k + |rep|..], rep)
    decreases |s| - o
  {
    hide Replaced, Occurrences, OccursAt;
    var k := Strstr(s, rep, o);
    if o + |rep| > |s| {
      ReplacedShort(s, rep, with_, o);
    } else if OccursAt(s, rep, o) {
      ReplacedHit(s, rep, with_, o);
      assert s[o..o] == [];
    } else {
      assert k == Strstr(s, rep, o + 1);
      hide Strstr;
      ReplacedNext(s, rep, with_, o + 1);
      ReplacedStep(s, rep, with_, o);
      if k < 0 {
        assert [s[o]] + s[o + 1..] == s[o..];
      } else {
        PrependChar(s, o, k, with_ + Replaced(s[k + |rep|..], rep, with_));
      }
    }
  }

  /** str_replace: the buffer has room for exactly the replaced string and its NUL. */
  method StrReplace(orig: string, rep: string, with_: string) returns (result: array<char>)
    requires rep != []
    ensures fresh(result) && result[..] == Replaced(orig, rep, with_) + ['\0']
  {
    hide Replaced, Occurrences, Strstr;
    var ins, count := 0, 0;
    var next := Strstr(orig, rep, ins);
    assert orig[0..] == orig;
    while next >= 0
      invariant 0 <= ins <= |orig| && next == Strstr(orig, rep, ins)
      invariant count + Occurrences(orig[ins..], rep) == Occurrences(orig, rep)
      decreases |orig| - ins
    {
      ReplacedNext(orig, rep, with_, ins);
      ins := next + |rep|;
      count := count + 1;
      next := Strstr(orig, rep, ins);
    }
    ReplacedNext(orig, rep, with_, ins);
    ReplacedLength(orig, rep, with_);
    result := new char[|orig| + (|with_| - |rep|) * count + 1];
    var tmp, o := 0, 0;
    while count > 0
      invariant 0 <= count && 0 <= o <= |orig| && fresh(result)
      invariant result.Length == |Replaced(orig, rep, with_)| + 1
      invariant count == Occurrences(orig[o..], rep)
      invariant 0 <= tmp < result.Length && result[..tmp] + Replaced(orig[o..], rep, with_) == Replaced(orig, rep, with_)
    {
      ReplacedNext(orig, rep, with_, o);
      ins := Strstr(orig, rep, o);
      Copied(result[..tmp], orig[o..ins], with_, Replaced(orig[ins + |rep|..], rep, with_), Replaced(orig, rep, with_));
      tmp := Append(result, tmp, orig[o..ins]);
      tmp := Append(result, tmp, with_);
      o := ins + |rep|;
      count := count - 1;
    }
    ReplacedNext(orig, rep, with_, o);
    tmp := Append(result, tmp, orig[o..]);
    tmp := Append(result, tmp, ['\0']);
  }

  lemma {:induction false} Copied(a: string, b: string, c: string, d: string, whole: string)
    requires a + (b + (c + d)) == whole
    ensures a + b + c + d == whole
    ensures |a| + |b| + |c| <= |whole|
  {
  }

  /** strncpy or strcpy to the end of what a buffer already holds. */
  method Append(a: array<char>, tmp: int, s: string) returns (end: int)
    requires 0 <= tmp && tmp + |s| <= a.Length
    modifies a
    ensures end == tmp + |s| && a[..end] == old(a[..tmp]) + s
  {
    for i := 0 to |s|
      invariant a[..tmp + i] == old(a[..tmp]) + s[..i]
    {
      a[tmp + i] := s[i];
      assert a[..tmp + i + 1] == a[..tmp + i] + [s[i]];
    }
    end := tmp + |s|;
  }

  // ---------------------------------------------------------------------------------------------
  // Names, numerals and ranges
  // ---------------------------------------------------------------------------------------------

  lemma {:induction false} NumberedStep(value: string, names: seq<string>, i: nat)
    requires i < |names| && forall n | n in names :: n != []
    ensures names[i] != []
    ensures Numbered(value, names, i) == Numbered(Replaced(value, names[i], Decimal(i)), names, i + 1)
  {
    assert names[i] in names;
  }

  /** replace_ordinals. */
  method ReplaceOrdinals(value: string, names: seq<string>) returns (res: string)
    requires forall n | n in names :: n != []
    ensures res == Numbered(value, names, 0)
  {
    hide Replaced, Decimal, Numbered;
    res := value;
    for i := 0 to |names|
      invariant Numbered(res, names, i) == Numbered(value, names, 0)
    {
      NumberedStep(res, names, i);
      var buffer := StrReplace(res, names[i], Decimal(i));
      res := buffer[..buffer.Length - 1];
    }
    assert Numbered(res, names, |names|) == res by {
      NumberedEnd(res, names);
    }
  }

  lemma {:induction false} NumberedEnd(value: string, names: seq<string>)
    requires forall n | n in names :: n != []
    ensures Numbered(value, names, |names|) == value
  {
  }

  /** get_range. */
  method GetRange(field: string, min: int, max: int) returns (r: Result<(int, int)>)
    ensures r == RangeOf(field, min, max)
  {
    hide ParseUint, CronText.SplitStr;
    var lo, hi: int;
    if field == "*" {
      lo, hi := min, max - 1;
    } else if '-' !in field {
      var val := ParseUint(field);
      if val.None? {
        return Err(NotANumber);
      }
      lo, hi := val.value, val.value;
    } else {
      var parts := SplitStr(field, '-');
      if parts.Length != 2 {
        return Err(RangeFields);
      }
      var first := ParseUint(parts[0]);
      if first.None? {
        return Err(NotANumber);
      }
      var second := ParseUint(parts[1]);
      if second.None? {
        return Err(NotANumber);
      }
      lo, hi := first.value, second.value;
    }
    if lo >= max || hi >= max {
      return Err(RangeExceedsMaximum);
    }
    if lo < min || hi < min {
      return Err(RangeBelowMinimum);
    }
    if lo > hi {
      return Err(RangeBackwards);
    }
    return Ok((lo, hi));
  }

  // ---------------------------------------------------------------------------------------------
  // set_number_hits
  // ---------------------------------------------------------------------------------------------

  /** The loop over a range or an increment. */
  method SetBits(target: array<bv8>, lo: int, hi: int, step: int)
    requires 0 <= lo && hi < 8 * target.Length && step > 0
    modifies target
    ensures BitSet(target[..]) == old(BitSet(target[..])) + Steps(lo, hi, step)
  {
    hide BitSet;
    var i := lo;
    ghost var k := 0;
    while i <= hi
      invariant i == lo + k * step && k >= 0
      invariant BitSet(target[..]) == old(BitSet(target[..])) + Steps(lo, if i <= hi then i - 1 else hi, step)
      decreases hi - i
    {
      SetBit(target, i);
      NextStep(lo, hi, step, k);
      i := i + step;
      k := k + 1;
    }
  }

  lemma {:induction false} NextStep(lo: int, hi: int, step: int, k: int)
    requires step > 0 && k >= 0 && lo + k * step <= hi
    ensures var i := lo + k * step;
            && Steps(lo, i - 1, step) + {i} == Steps(lo, if i + step <= hi then i + step - 1 else hi, step)
            && lo + (k + 1) * step == i + step
  {
    hide Range;
    var i := lo + k * step;
    Distribute(step, k);
    var before, after := Steps(lo, i - 1, step) + {i}, Steps(lo, if i + step <= hi then i + step - 1 else hi, step);
    OffMultiple(k, step, i - lo);
    MulLe(0, k, step);
    forall v ensures v in before <==> v in after {
      if i < v < i + step {
        OffMultiple(k, step, v - lo);
      }
    }
  }

  lemma {:induction false} MulLe(a: int, b: int, c: int)
    requires c > 0
    ensures a <= b ==> a * c <= b * c
  {
  }

  lemma {:induction false} OffMultiple(k: int, step: int, v: int)
    requires step > 0 && k * step <= v < k * step + step
    ensures v % step == v - k * step
  {
    Quotient(v, step);
    SameQuotient(v / step, k, step, v % step, v - k * step);
  }

  lemma {:induction false} Quotient(v: int, step: int)
    requires step > 0
    ensures v == v / step * step + v % step && 0 <= v % step < step
  {
  }

  lemma {:induction false} SameQuotient(q: int, k: int, step: int, r: int, s: int)
    requires q * step + r == k * step + s && 0 <= r < step && 0 <= s < step
    ensures r == s
  {
    if q < k {
      MulLe(q + 1, k, step);
      Distribute(step, q);
    } else if k < q {
      MulLe(k + 1, q, step);
      Distribute(step, k);
    }
  }

  lemma {:induction false} StepsOfOne(lo: int, hi: int)
    ensures Steps(lo, hi, 1) == Range(lo, hi + 1)
  {
  }

  /** One item of a comma list. */
  method SetItem(field: string, target: array<bv8>, min: int, max: int) returns (error: Option<Error>)
    requires 0 <= min && max <= 8 * target.Length
    modifies target
    ensures match ItemSet(field, min, max)
            case Ok(s) => error.None? && BitSet(target[..]) == old(BitSet(target[..])) + s
            case Err(e) => error == Some(e)
  {
    hide BitSet, Steps, ParseUint, CronText.SplitStr, Range;
    if '/' !in field {
      var range := GetRange(field, min, max);
      if range.Err? {
        return Some(range.error);
      }
      SetBits(target, range.value.0, range.value.1, 1);
      StepsOfOne(range.value.0, range.value.1);
    } else {
      var split := SplitStr(field, '/');
      if split.Length != 2 {
        return Some(IncrementerFields);
      }
      var range := GetRange(split[0], min, max);
      if range.Err? {
        return Some(range.error);
      }
      var hi := if '-' !in split[0] then max - 1 else range.value.1;
      var delta := ParseUint(split[1]);
      if delta.None? {
        return Some(NotANumber);
      }
      if delta.value == 0 {
        return Some(IncrementerZero);
      }
      ParseUintSign(split[1]);
      SetBits(target, range.value.0, hi, delta.value);
    }
    return None;
  }

  lemma {:induction false} ParseUintSign(s: string)
    ensures ParseUint(s).Some? ==> ParseUint(s).value >= 0
  {
  }

  /** set_number_hits. */
  method SetNumberHits(value: string, target: array<bv8>, min: int, max: int) returns (error: Option<Error>)
    requires 0 <= min && max <= 8 * target.Length
    modifies target
    ensures match ListSet(value, min, max)
            case Ok(s) => error.None? && BitSet(target[..]) == old(BitSet(target[..])) + s
            case Err(e) => error == Some(e)
  {
    hide BitSet, ItemSet, CronText.SplitStr;
    var fields := SplitStr(value, ',');
    if fields.Length == 0 {
      return Some(CommaSplit);
    }
    ghost var items := fields[..];
    for i := 0 to fields.Length
      invariant fields[..] == items
      invariant ItemsSet(items, i, min, max).Ok?
      invariant BitSet(target[..]) == old(BitSet(target[..])) + ItemsSet(items, i, min, max).value
    {
      error := SetItem(fields[i], target, min, max);
      if error.Some? {
        FirstError(items, i + 1, min, max);
        return;
      }
    }
    return None;
  }

  lemma {:induction false} FirstError(items: seq<string>, n: nat, min: int, max: int)
    requires n <= |items| && ItemsSet(items, n, min, max).Err?
    ensures ItemsSet(items, |items|, min, max) == ItemsSet(items, n, min, max)
    decreases |items| - n
  {
    hide ItemSet;
    if n < |items| {
      FirstError(items, n + 1, min, max);
    }
  }

  // ---------------------------------------------------------------------------------------------
  // The fields of an expression
  // ---------------------------------------------------------------------------------------------

  /** The bits once those below i have been rotated. */
  function RotatedBelow(bits: set<int>, i: int): set<int> {
    Shifted(set m | m in bits && 1 <= m < i) + (set m | m in bits && !(1 <= m < i))
  }

  lemma {:induction false} InRotatedBelow(bits: set<int>, i: int, v: int)
    ensures v in RotatedBelow(bits, i) <==> (0 <= v < i - 1 && v + 1 in bits) || (v in bits && !(1 <= v < i))
  {
    InShifted((set m | m in bits && 1 <= m < i), v);
  }

  lemma {:induction false} RotateOne(bits: set<int>, i: int)
    requires 1 <= i <= 12
    ensures i in RotatedBelow(bits, i) <==> i in bits
    ensures RotatedBelow(bits, i + 1)
         == if i in bits then RotatedBelow(bits, i) + {i - 1} - {i} else RotatedBelow(bits, i)
  {
    hide RotatedBelow;
    var now, next := RotatedBelow(bits, i), RotatedBelow(bits, i + 1);
    forall v ensures v in next <==> if i in bits then v == i - 1 || (v in now && v != i) else v in now {
      InRotatedBelow(bits, i, v);
      InRotatedBelow(bits, i + 1, v);
    }
    InRotatedBelow(bits, i, i);
  }

  lemma {:induction false} RotatedEnds(bits: set<int>)
    ensures RotatedBelow(bits, 1) == bits && RotatedBelow(bits, 13) == Rotated(bits)
  {
    assert (set m | m in bits && 1 <= m < 1) == {};
    assert (set m | m in bits && 1 <= m < 13) == (set m | m in bits && 1 <= m <= 12);
  }

  /** The loop that rotates the months to the front, in place. */
  method Rotate(targ: array<bv8>)
    requires targ.Length == 2
    modifies targ
    ensures BitSet(targ[..]) == Rotated(old(BitSet(targ[..])))
  {
    hide BitSet, RotatedBelow, Rotated;
    ghost var bits := BitSet(targ[..]);
    RotatedEnds(bits);
    for i := 1 to 13
      invariant BitSet(targ[..]) == RotatedBelow(bits, i)
    {
      RotateOne(bits, i);
      var set? := GetBit(targ, i);
      if set? {
        SetBit(targ, i - 1);
        DelBit(targ, i);
      }
    }
  }

  /** set_months. The months are rotated even when the list is wrong. */
  method SetMonths(value: string, targ: array<bv8>) returns (error: Option<Error>)
    requires targ.Length == 2
    modifies targ
    ensures match ListSet(Numbered(ToUpper(value), MONTHS, 0), 1, 13)
            case Ok(s) => error.None? && BitSet(targ[..]) == Rotated(old(BitSet(targ[..])) + s)
            case Err(e) => error == Some(e)
  {
    hide BitSet, ListSet, Numbered, Rotated;
    var replaced := ReplaceOrdinals(ToUpper(value), MONTHS);
    error := SetNumberHits(replaced, targ, 1, 13);
    Rotate(targ);
  }

  /** set_days and set_days_of_month. */
  method SetDays(field: string, targ: array<bv8>, min: int, max: int) returns (error: Option<Error>)
    requires 0 <= min && max <= 8 * targ.Length
    modifies targ
    ensures match ListSet(NoQuestion(field), min, max)
            case Ok(s) => error.None? && BitSet(targ[..]) == old(BitSet(targ[..])) + s
            case Err(e) => error == Some(e)
  {
    hide BitSet, ListSet;
    error := SetNumberHits(if field == "?" then "*" else field, targ, min, max);
  }

  /** The day of the week: names become numbers, and Sunday may be written 0 or 7. */
  method SetDaysOfWeek(field: string, targ: array<bv8>) returns (error: Option<Error>)
    requires targ.Length == 1
    modifies targ
    ensures match ListSet(NoQuestion(Numbered(ToUpper(field), DAYS, 0)), 0, 8)
            case Ok(s) => error.None? && BitSet(targ[..]) == Folded(old(BitSet(targ[..])) + s)
            case Err(e) => error == Some(e)
  {
    hide BitSet, ListSet, Numbered, ToUpper, NoQuestion;
    var daysReplaced := ReplaceOrdinals(ToUpper(field), DAYS);
    error := SetDays(daysReplaced, targ, 0, 8);
    if error.Some? {
      return;
    }
    var sunday := GetBit(targ, 7);
    if sunday {
      SetBit(targ, 0);
      DelBit(targ, 7);
    }
  }

  /** cron_parse_expr. On a target whose bits are all clear it leaves the meaning of the expression. */
  method CronParseExpr(expression: string, target: CronExpr) returns (error: Option<Error>)
    requires target.Shape()
    modifies target.seconds, target.minutes, target.hours, target.daysOfWeek, target.daysOfMonth, target.months
    ensures match MeaningOn(old(target.View()), expression)
            case Ok(e) => error.None? && target.View() == e
            case Err(e) => error == Some(e)
    ensures error.None? ==> Valid(target.Used())
    ensures error.None? && old(target.View()) == ZEROED ==> Meaning(expression) == Ok(target.View()) && target.Used() == target.View()
  {
    hide BitSet, ListSet, Numbered, CronText.SplitStr, ToUpper, NoQuestion, Shifted, Rotated, Folded, Valid, Clipped, Meaning;
    ghost var memory := target.View();
    var fields := SplitStr(expression, ' ');
    if fields.Length != 6 {
      return Some(WrongNumberOfFields);
    }
    error := SetNumberHits(fields[0], target.seconds, 0, 60);
    if error.Some? {
      return;
    }
    error := SetNumberHits(fields[1], target.minutes, 0, 60);
    if error.Some? {
      return;
    }
    error := SetNumberHits(fields[2], target.hours, 0, 24);
    if error.Some? {
      return;
    }
    error := SetDaysOfWeek(fields[5], target.daysOfWeek);
    if error.Some? {
      return;
    }
    error := SetDays(fields[3], target.daysOfMonth, 1, 32);
    if error.Some? {
      return;
    }
    error := SetMonths(fields[4], target.months);
    if error.Some? {
      return;
    }
    ZeroedTarget(expression);
    TargetMatters(memory, expression);
    BitsReadMatter(memory, expression);
    MeaningIsValid(expression);
    ClippedValid(Meaning(expression).value);
  }
}
