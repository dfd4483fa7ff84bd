/** The byte arrays that hold the bitsets of a cron expression (cron_set_bit, cron_del_bit,
    cron_get_bit), read as sets of bit numbers. */
module Bits {

  /** 1 << k. */
  function Mask(k: int): bv8
    requires 0 <= k < 8
  {
    if k == 0 then 0x01 else if k == 1 then 0x02 else if k == 2 then 0x04 else if k == 3 then 0x08
    else if k == 4 then 0x10 else if k == 5 then 0x20 else if k == 6 then 0x40 else 0x80
  }

  predicate HasBit(b: bv8, k: int) requires 0 <= k < 8 { b & Mask(k) != 0 }

  function WithBit(b: bv8, k: int): bv8 requires 0 <= k < 8 { b | Mask(k) }

  function WithoutBit(b: bv8, k: int): bv8 requires 0 <= k < 8 { b & !Mask(k) }

  lemma {:induction false} OneBits(b: bv8, p: bv8, q: bv8)
    requires p == 0x01 || p == 0x02 || p == 0x04 || p == 0x08 || p == 0x10 || p == 0x20 || p == 0x40 || p == 0x80
    requires q == 0x01 || q == 0x02 || q == 0x04 || q == 0x08 || q == 0x10 || q == 0x20 || q == 0x40 || q == 0x80
    ensures (b | p) & q != 0 <==> p == q || b & q != 0
    ensures (b & !p) & q != 0 <==> p != q && b & q != 0
  {
  }

  lemma {:induction false} BitOps(b: bv8, k: int, m: int)
    requires 0 <= k < 8 && 0 <= m < 8
    ensures HasBit(WithBit(b, k), m) <==> k == m || HasBit(b, m)
    ensures HasBit(WithoutBit(b, k), m) <==> k != m && HasBit(b, m)
  {
    OneBits(b, Mask(k), Mask(m));
  }

  predicate Bit(bytes: seq<bv8>, idx: int)
    requires 0 <= idx < 8 * |bytes|
  {
    HasBit(bytes[idx / 8], idx % 8)
  }

  /** The numbers of the bits that are set. */
  function BitSet(bytes: seq<bv8>): set<int> {
    set idx | 0 <= idx < 8 * |bytes| && Bit(bytes, idx)
  }

  lemma {:induction false} NoBits(bytes: seq<bv8>)
    requires forall j | 0 <= j < |bytes| :: bytes[j] == 0
    ensures BitSet(bytes) == {}
  {
  }

  lemma {:induction false} SameBit(i: int, idx: int)
    ensures i == idx <==> i / 8 == idx / 8 && i % 8 == idx % 8
  {
  }

  /** Writing one byte changes one bit of the set. */
  lemma {:induction false} WriteByte(bytes: seq<bv8>, idx: int)
    requires 0 <= idx < 8 * |bytes|
    ensures var j, k := idx / 8, idx % 8;
            && BitSet(bytes[j := WithBit(bytes[j], k)]) == BitSet(bytes) + {idx}
            && BitSet(bytes[j := WithoutBit(bytes[j], k)]) == BitSet(bytes) - {idx}
  {
    hide HasBit, WithBit, WithoutBit;
    var j, k := idx / 8, idx % 8;
    var on, off := bytes[j := WithBit(bytes[j], k)], bytes[j := WithoutBit(bytes[j], k)];
    forall i | 0 <= i < 8 * |bytes|
      ensures Bit(on, i) <==> i == idx || Bit(bytes, i)
      ensures Bit(off, i) <==> i != idx && Bit(bytes, i)
    {
      SameBit(i, idx);
      BitOps(bytes[j], k, i % 8);
    }
  }

  method SetBit(rbyte: array<bv8>, idx: int)
    requires 0 <= idx < 8 * rbyte.Length
    modifies rbyte
    ensures BitSet(rbyte[..]) == old(BitSet(rbyte[..])) + {idx}
  {
    hide BitSet, HasBit, WithBit, WithoutBit;
    var j, k := idx / 8, idx % 8;
    ghost var before := rbyte[..];
    WriteByte(before, idx);
    rbyte[j] := WithBit(rbyte[j], k);
    assert rbyte[..] == before[j := WithBit(before[j], k)];
  }

  method DelBit(rbyte: array<bv8>, idx: int)
    requires 0 <= idx < 8 * rbyte.Length
    modifies rbyte
    ensures BitSet(rbyte[..]) == old(BitSet(rbyte[..])) - {idx}
  {
    hide BitSet, HasBit, WithBit, WithoutBit;
    var j, k := idx / 8, idx % 8;
    ghost var before := rbyte[..];
    WriteByte(before, idx);
    rbyte[j] := WithoutBit(rbyte[j], k);
    assert rbyte[..] == before[j := WithoutBit(before[j], k)];
  }

  method GetBit(rbyte: array<bv8>, idx: int) returns (r: bool)
    requires 0 <= idx < 8 * rbyte.Length
    ensures r <==> idx in BitSet(rbyte[..])
  {
    hide HasBit;
    var j, k := idx / 8, idx % 8;
    r := HasBit(rbyte[j], k);
    assert r == Bit(rbyte[..], idx);
  }
}
