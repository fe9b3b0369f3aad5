/** Integer and string encodings shared by the file formats (util/coding.h, util/coding.cc). */
module Coding {
  import opened Keys
  import opened Version

  // ---------------------------------------------------------------------------------------------
  // Fixed-width integers
  // ---------------------------------------------------------------------------------------------

  function EncodeFixed32(v: nat): (r: Bytes)
    requires v < 0x1_0000_0000
    ensures |r| == 4
  {
    [v % 256, v / 256 % 256, v / 65536 % 256, v / 16777216]
  }

  function DecodeFixed32(b: Bytes): (v: nat)
    requires |b| >= 4
    ensures v < 0x1_0000_0000
  {
    (b[0] as nat) + 256 * (b[1] as nat) + 65536 * (b[2] as nat) + 16777216 * (b[3] as nat)
  }

  lemma {:induction false} Fixed32RoundTrip(v: nat, rest: Bytes)
    requires v < 0x1_0000_0000
    ensures DecodeFixed32(EncodeFixed32(v) + rest) == v
  {
    var w := v / 256;
    var x := w / 256;
    assert v / 65536 == x && v / 16777216 == x / 256;
    assert v == 256 * w + v % 256 && w == 256 * x + w % 256 && x == 256 * (x / 256) + x % 256;
  }

  const TWO64: nat := 0x1_0000_0000_0000_0000

  /** The low half first. */
  function EncodeFixed64(v: nat): (r: Bytes)
    requires v < TWO64
    ensures |r| == 8
  {
    EncodeFixed32(v % 0x1_0000_0000) + EncodeFixed32(v / 0x1_0000_0000)
  }

  function DecodeFixed64(b: Bytes): (v: nat)
    requires |b| >= 8
    ensures v < TWO64
  {
    DecodeFixed32(b) + 0x1_0000_0000 * DecodeFixed32(b[4..])
  }

  lemma {:induction false} Fixed64RoundTrip(v: nat, rest: Bytes)
    requires v < TWO64
    ensures DecodeFixed64(EncodeFixed64(v) + rest) == v
  {
    hide EncodeFixed32, DecodeFixed32;
    var low, high := v % 0x1_0000_0000, v / 0x1_0000_0000;
    var b := EncodeFixed64(v) + rest;
    assert b == EncodeFixed32(low) + (EncodeFixed32(high) + rest);
    Fixed32RoundTrip(low, EncodeFixed32(high) + rest);
    assert b[4..] == EncodeFixed32(high) + rest;
    Fixed32RoundTrip(high, rest);
  }

  // ---------------------------------------------------------------------------------------------
  // Varints
  // ---------------------------------------------------------------------------------------------

  /** Seven bits a byte, lowest first; the high bit says that more follow. */
  function Varint(v: nat): (r: Bytes)
    ensures |r| >= 1
  {
    if v < 128 then [v] else [v % 128 + 128] + Varint(v / 128)
  }

  /** The value and the length of a varint of at most the given number of bytes at the front of b. */
  function ReadVarint(b: Bytes, groups: nat): (r: Option<(nat, nat)>)
    ensures r.Some? ==> 1 <= r.value.1 <= |b| && r.value.1 <= groups
    decreases groups
  {
    if groups == 0 || b == [] then None
    else if b[0] < 128 then Some((b[0], 1))
    else
      match ReadVarint(b[1..], groups - 1)
      case None => None
      case Some((v, n)) => Some((b[0] - 128 + 128 * v, n + 1))
  }

  function Pow128(n: nat): (r: nat)
    ensures r > 0
  {
    if n == 0 then 1 else 128 * Pow128(n - 1)
  }

  lemma {:induction false} VarintRoundTrip(v: nat, groups: nat, rest: Bytes)
    requires groups >= 1 && v < Pow128(groups)
    ensures |Varint(v)| <= groups
    ensures ReadVarint(Varint(v) + rest, groups) == Some((v, |Varint(v)|))
    decreases groups
  {
    if v < 128 {
      assert (Varint(v) + rest)[0] == v;
    } else {
      var b := Varint(v) + rest;
      assert Pow128(groups) == 128 * Pow128(groups - 1) && Pow128(0) == 1;
      VarintRoundTrip(v / 128, groups - 1, rest);
      assert b == [v % 128 + 128] + (Varint(v / 128) + rest);
      assert b[1..] == Varint(v / 128) + rest;
    }
  }

  /** EncodeVarint64, and EncodeVarint32, whose five cases write the same bytes. */
  method EncodeVarint(v0: nat) returns (dst: Bytes)
    ensures dst == Varint(v0)
  {
    dst := [];
    var v := v0;
    while v >= 128
      invariant dst + Varint(v) == Varint(v0)
    {
      ghost var was, old_v := dst, v;
      dst := dst + [v % 128 + 128];
      v := v / 128;
      assert was + Varint(old_v) == dst + Varint(v);
    }
    dst := dst + [v];
  }

  /**
   GetVarint32PtrFallback and GetVarint64Ptr: a loop over shifts of seven bits up to the width of the result.
   Bits beyond the width are lost, as they are from an unsigned integer.
   */
  method GetVarint(b: Bytes, groups: nat, width: nat) returns (r: Option<(nat, nat)>)
    requires width > 0
    ensures r == match ReadVarint(b, groups)
                 case None => None
                 case Some((v, n)) => Some((v % width, n))
  {
    var result: nat, scale: nat, p: nat := 0, 1, 0;
    ghost var goal := ReadVarint(b, groups);
    while p < groups && p < |b|
      invariant p <= groups && p <= |b| && 0 < scale
      invariant goal == match ReadVarint(b[p..], groups - p)
                        case None => None
                        case Some((v, n)) => Some((result + scale * v, p + n))
    {
      var byte := b[p];
      assert b[p..][0] == byte && b[p..][1..] == b[p + 1..];
      if byte < 128 {
        return Some(((result + scale * byte) % width, p + 1));
      }
      ScaleUp(result, scale, byte - 128, ReadVarint(b[p + 1..], groups - p - 1));
      result := result + scale * (byte - 128);
      scale := scale * 128;
      p := p + 1;
    }
    return None;
  }

  lemma {:induction false} ScaleUp(result: nat, scale: nat, digit: nat, rest: Option<(nat, nat)>)
    ensures rest.Some? ==>
        result + scale * (digit + 128 * rest.value.0) == result + scale * digit + scale * 128 * rest.value.0
  {
  }

  /** PutLengthPrefixedSlice. */
  function LengthPrefixed(s: Bytes): Bytes {
    Varint(|s|) + s
  }
}
