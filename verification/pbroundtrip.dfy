/** Decoding what was encoded gives the message back (pb_encode.c, pb_decode.c). */
module PbRoundTrip {
  import opened Keys
  import opened Version
  import opened Coding
  import opened Crc32c
  import opened PbSchema
  import opened PbEncode
  import opened PbDecode

  // ---------------------------------------------------------------------------------------------
  // Varints and length prefixes
  // ---------------------------------------------------------------------------------------------

  function Shift(k: nat): nat {
    if k == 0 then 1 else if k == 1 then 128 else if k == 2 then 16384 else if k == 3 then 2097152 else 268435456
  }

  /** A digit off a number of which 128 to the power k is the unit. */
  lemma {:induction false} TakeDigit(v: nat, k: nat, result: nat)
    requires 1 <= k <= 4 && 1 <= v && result < Shift(k) && result + v * Shift(k) < TWO32
    ensures result + v % 128 * Shift(k) < TWO32 && v % 128 * Shift(k) >= 0
    ensures v >= 128 ==>
              && k < 4 && Shift(k) * 128 == Shift(k + 1) && result + v % 128 * Shift(k) < Shift(k + 1)
              && result + v % 128 * Shift(k) + v / 128 * Shift(k + 1) == result + v * Shift(k)
    ensures k == 4 ==> v < 16
  {
    var q, d := v / 128, v % 128;
    assert v == 128 * q + d;
    if k == 1 {
      assert d * 128 + q * 16384 == v * 128;
    } else if k == 2 {
      assert d * 16384 + q * 2097152 == v * 16384;
    } else if k == 3 {
      assert d * 2097152 + q * 268435456 == v * 2097152;
    }
  }

  /** What is left of a canonical varint, at bit position 7k. */
  lemma {:induction false} MoreRoundTrip(v: nat, k: nat, result: nat, rest: Bytes)
    requires 1 <= k <= 4 && 1 <= v && result < Shift(k) && result + v * Shift(k) < TWO32
    ensures ReadMore32(Coding.Varint(v) + rest, 7 * k, result) == Some((result + v * Shift(k), |Coding.Varint(v)|))
    decreases 4 - k
  {
    hide Shift, OrDigit;
    var b := Coding.Varint(v) + rest;
    TakeDigit(v, k, result);
    ShiftIsPow2(k);
    var more := result + v % 128 * Shift(k);
    if v >= 128 {
      assert b == [v % 128 + 128] + (Coding.Varint(v / 128) + rest);
      assert b[1..] == Coding.Varint(v / 128) + rest;
      MoreRoundTrip(v / 128, k + 1, more, rest);
      MoreStep(b, 7 * k, result, v % 128);
    } else {
      LastStep(b, 7 * k, result, v);
    }
  }

  lemma {:induction false} ShiftIsPow2(k: nat)
    requires k <= 4
    ensures Shift(k) == Pow2(7 * k)
  {
    assert Pow2(7) == 128;
    assert Pow2(14) == 16384;
    assert Pow2(21) == 2097152;
    assert Pow2(28) == 268435456;
  }

  /** A digit above all bits so far. */
  lemma {:induction false} DigitAdds(result: nat, digit: nat, bitpos: nat)
    requires bitpos < 32 && result < Pow2(bitpos) && digit * Pow2(bitpos) < TWO32 && result < TWO32
    ensures OrDigit(result, digit, bitpos) == result + digit * Pow2(bitpos)
  {
    hide Pow2, Or;
    Pow2Of32();
    OrOfDisjoint(32, bitpos, result, digit);
    ghost var high := digit * Pow2(bitpos);
    assert 0 <= high < TWO32 && high % TWO32 == high;
  }

  lemma {:induction false} MoreStep(b: Bytes, bitpos: nat, result: nat, digit: nat)
    requires b != [] && b[0] == digit + 128 && bitpos < 32 && result + digit * Pow2(bitpos) < TWO32 && result < Pow2(bitpos)
    ensures result < TWO32
    ensures ReadMore32(b, bitpos, result)
         == match ReadMore32(b[1..], bitpos + 7, result + digit * Pow2(bitpos))
            case None => None
            case Some((v, n)) => Some((v, n + 1))
  {
    hide OrDigit, Pow2;
    DigitAdds(result, digit, bitpos);
    assert b[0] % 128 == digit;
  }

  lemma {:induction false} LastStep(b: Bytes, bitpos: nat, result: nat, digit: nat)
    requires b != [] && b[0] == digit < 128 && bitpos < 32 && result + digit * Pow2(bitpos) < TWO32 && result < Pow2(bitpos)
    requires bitpos == 28 ==> digit < 16
    ensures result < TWO32
    ensures ReadMore32(b, bitpos, result) == Some((result + digit * Pow2(bitpos), 1))
  {
    hide OrDigit, Pow2;
    DigitAdds(result, digit, bitpos);
    assert b[0] % 128 == digit;
  }

  lemma {:induction false} Varint32RoundTrip(v: nat, rest: Bytes)
    requires v < TWO32
    ensures ReadVarint32(Coding.Varint(v) + rest) == Some((v, |Coding.Varint(v)|))
  {
    var b := Coding.Varint(v) + rest;
    if v >= 128 {
      assert b == [v % 128 + 128] + (Coding.Varint(v / 128) + rest);
      assert b[1..] == Coding.Varint(v / 128) + rest;
      MoreRoundTrip(v / 128, 1, v % 128, rest);
    }
  }

  /** The digits from place k on, k >= 5, as the 32-bit reader takes them: zeroes or all ones, and a one at the top. */
  predicate SignDigits(w: nat, k: nat)
    decreases w
  {
    if k >= 9 then w == 1 else w >= 128 && (w % 128 == 0 || w % 128 == 127) && SignDigits(w / 128, k + 1)
  }

  /** What fits 32 bits, and what looks like a negative 32-bit number extended to 64 bits. */
  predicate Accepted32(v: nat) {
    v < TWO32 || (v % TWO32 >= TWO32 / 2 && SignDigits(v / 0x8_0000_0000, 5))
  }

  lemma {:induction false} SignDigitsRead(w: nat, k: nat, result: nat, rest: Bytes)
    requires 5 <= k <= 9 && 1 <= w && (k == 9 ==> w < 2) && result < TWO32
    requires k == 8 ==> w < 256
    requires k == 7 ==> w < 32768
    requires k == 6 ==> w < 4194304
    requires k == 5 ==> w < 536870912
    ensures ReadMore32(Coding.Varint(w) + rest, 7 * k, result)
         == if result >= TWO32 / 2 && SignDigits(w, k) then Some((result, |Coding.Varint(w)|)) else None
    decreases 9 - k
  {
    hide OrDigit;
    var b := Coding.Varint(w) + rest;
    if w >= 128 {
      assert b == [w % 128 + 128] + (Coding.Varint(w / 128) + rest);
      assert b[1..] == Coding.Varint(w / 128) + rest;
      SignDigitsRead(w / 128, k + 1, result, rest);
      assert b[0] % 128 == w % 128;
    } else {
      assert b[0] == w;
    }
  }

  /** The fifth digit keeps its low four bits. */
  lemma {:induction false} FifthDigit(result: nat, digit: nat)
    requires result < 268435456 && digit < 128
    ensures OrDigit(result, digit, 28) == result + digit % 16 * 268435456 < TWO32
  {
    hide Or;
    Pow2Of32();
    assert Pow2(28) == 268435456 by { ShiftIsPow2(4); }
    hide Pow2;
    var low := digit % 16;
    assert digit == 16 * (digit / 16) + low;
    assert digit * 268435456 == digit / 16 * TWO32 + low * 268435456;
    assert digit * 268435456 % TWO32 == low * 268435456;
    OrOfDisjoint(32, 28, result, low);
  }

  lemma {:induction false} NoSignDigits()
    ensures !SignDigits(0, 5)
  {
  }

  /** A number that does not fit 32 bits, from its fifth digit on. */
  lemma {:induction false} WideReadLast(v: nat, result: nat, rest: Bytes)
    requires result < 268435456 && TWO32 <= result + v * 268435456 < TWO64
    ensures var total := result + v * 268435456;
            ReadMore32(Coding.Varint(v) + rest, 28, result)
              == if Accepted32(total) then Some((total % TWO32, |Coding.Varint(v)|)) else None
  {
    hide OrDigit, SignDigits;
    var b := Coding.Varint(v) + rest;
    FifthDigit(result, v % 128);
    WideTotal(v, result);
    if v >= 128 {
      VarintUnfolds(v, rest);
      hide Coding.Varint;
      SignDigitsRead(v / 128, 5, result + v % 16 * 268435456, rest);
    } else {
      assert b[0] == v && v / 16 % 8 != 0 && v / 128 == 0;
      NoSignDigits();
    }
  }

  /** From its digit k on. */
  lemma {:induction false} WideRead(v: nat, k: nat, result: nat, rest: Bytes)
    requires 1 <= k <= 4 && 1 <= v && result < Shift(k) && TWO32 <= result + v * Shift(k) < TWO64
    ensures var total := result + v * Shift(k);
            ReadMore32(Coding.Varint(v) + rest, 7 * k, result)
              == if Accepted32(total) then Some((total % TWO32, |Coding.Varint(v)|)) else None
    decreases 4 - k
  {
    hide OrDigit, Accepted32, Pow2, ReadMore32, Coding.Varint;
    if k == 4 {
      WideReadLast(v, result, rest);
    } else {
      WideStep(v, k, result);
      ShiftIsPow2(k);
      hide Shift;
      VarintUnfolds(v, rest);
      var b := Coding.Varint(v) + rest;
      DigitAdds(result, v % 128, 7 * k);
      WideRead(v / 128, k + 1, result + v % 128 * Shift(k), rest);
      MoreStep(b, 7 * k, result, v % 128);
    }
  }

  lemma {:induction false} VarintUnfolds(v: nat, rest: Bytes)
    requires v >= 128
    ensures var b := Coding.Varint(v) + rest;
            && b != [] && b[0] == v % 128 + 128 && b[0] % 128 == v % 128 && b[1..] == Coding.Varint(v / 128) + rest
            && |Coding.Varint(v)| == |Coding.Varint(v / 128)| + 1
  {
    assert Coding.Varint(v) + rest == [v % 128 + 128] + (Coding.Varint(v / 128) + rest);
  }

  lemma {:induction false} WideStep(v: nat, k: nat, result: nat)
    requires 1 <= k < 4 && 1 <= v && result < Shift(k) && TWO32 <= result + v * Shift(k)
    ensures v >= 128 && result < Pow2(7 * k) && v % 128 * Pow2(7 * k) < TWO32
    ensures result + v % 128 * Shift(k) < Shift(k + 1)
    ensures result + v % 128 * Shift(k) + v / 128 * Shift(k + 1) == result + v * Shift(k)
  {
    ShiftIsPow2(k);
    var q, d := v / 128, v % 128;
    assert v == 128 * q + d;
    if k == 1 {
      assert d * 128 + q * 16384 == v * 128;
    } else if k == 2 {
      assert d * 16384 + q * 2097152 == v * 16384;
    } else {
      assert d * 2097152 + q * 268435456 == v * 2097152;
    }
  }

  lemma {:induction false} By32Bits(x: nat, q: nat, r: nat)
    requires x == TWO32 * q + r && r < TWO32
    ensures x % TWO32 == r
  {
  }

  lemma {:induction false} By35Bits(x: nat, q: nat, r: nat)
    requires x == 0x8_0000_0000 * q + r && r < 0x8_0000_0000
    ensures x / 0x8_0000_0000 == q
  {
  }

  lemma {:induction false} WideDigits(a: nat, b: nat, c: nat, result: nat, total: nat)
    requires total == result + (128 * a + 16 * b + c) * 268435456 && b < 8 && c < 16 && result < 268435456
    ensures total % TWO32 == result + c * 268435456 && total / 0x8_0000_0000 == a
  {
    By32Bits(total, 8 * a + b, result + c * 268435456);
    By35Bits(total, a, result + (16 * b + c) * 268435456);
  }

  lemma {:induction false} Nibbles(v: nat)
    ensures v == 128 * (v / 128) + 16 * (v % 128 / 16) + v % 16 && v % 128 / 16 < 8 && v % 128 % 16 == v % 16
  {
  }

  lemma {:induction false} WideTotal(v: nat, result: nat)
    requires result < 268435456 && TWO32 <= result + v * 268435456 < TWO64
    ensures var total := result + v * 268435456;
            && total % TWO32 == result + v % 16 * 268435456 && total / 0x8_0000_0000 == v / 128
            && v < 68719476736 && v / 128 < 536870912 && v % 128 % 16 == v % 16 && 16 <= v
  {
    Nibbles(v);
    WideDigits(v / 128, v % 128 / 16, v % 16, result, result + v * 268435456);
  }

  /**
   The 32-bit reader on the varint of any 64-bit number: it gives what fits 32 bits, cuts what looks like a
   negative 32-bit number extended to 64 bits, and refuses the rest.
   */
  lemma {:induction false} Varint32Exact(v: nat, rest: Bytes)
    requires v < TWO64
    ensures ReadVarint32(Coding.Varint(v) + rest) == if Accepted32(v) then Some((v % TWO32, |Coding.Varint(v)|)) else None
  {
    hide ReadMore32, SignDigits;
    var b := Coding.Varint(v) + rest;
    if v < TWO32 {
      Varint32RoundTrip(v, rest);
    } else {
      assert b == [v % 128 + 128] + (Coding.Varint(v / 128) + rest);
      assert b[1..] == Coding.Varint(v / 128) + rest;
      assert v == 128 * (v / 128) + v % 128;
      WideRead(v / 128, 1, v % 128, rest);
    }
  }

  /** Negative 32-bit numbers that were extended to 64 bits are accepted. */
  lemma {:induction false} SignExtendedRead(n: int, rest: Bytes)
    requires -(TWO32 / 2) <= n < 0
    ensures ReadVarint32(Coding.Varint(Unsigned(n)) + rest) == Some((n + TWO32, |Coding.Varint(Unsigned(n))|))
  {
    hide ReadVarint32, Coding.Varint;
    var v := Unsigned(n);
    var w := v / 0x8_0000_0000;
    assert w == 536870911;
    assert w / 128 == 4194303 && w / 128 / 128 == 32767 && w / 128 / 128 / 128 == 255 && w / 128 / 128 / 128 / 128 == 1;
    assert SignDigits(1, 9) && SignDigits(255, 8) && SignDigits(32767, 7) && SignDigits(4194303, 6) && SignDigits(w, 5);
    Varint32Exact(v, rest);
  }

  lemma {:induction false} Varint64RoundTrip(v: nat, rest: Bytes)
    requires v < TWO64
    ensures ReadVarint64(Coding.Varint(v) + rest) == Some((v, |Coding.Varint(v)|))
  {
    assert Pow128(5) == 0x8_0000_0000;
    assert Pow128(10) == 0x8_0000_0000 * 0x8_0000_0000 by {
      Pow128Of10();
    }
    VarintRoundTrip(v, 10, rest);
  }

  lemma {:induction false} Pow128Of10()
    ensures Pow128(10) == 0x8_0000_0000 * 0x8_0000_0000
  {
    assert Pow128(5) == 0x8_0000_0000;
    assert Pow128(7) == 16384 * Pow128(5);
    assert Pow128(9) == 16384 * Pow128(7);
  }

  lemma {:induction false} SubstreamRoundTrip(p: Bytes, rest: Bytes)
    requires |p| < TWO32
    ensures Substream(LengthPrefixed(p) + rest) == Some((p, rest))
  {
    hide Coding.Varint, ReadVarint32;
    var b := LengthPrefixed(p) + rest;
    var n := |Coding.Varint(|p|)|;
    assert b == Coding.Varint(|p|) + (p + rest);
    Varint32RoundTrip(|p|, p + rest);
    assert b[n..n + |p|] == p && b[n + |p|..] == rest;
  }

  lemma {:induction false} CStringOf(s: Bytes)
    requires forall i :: 0 <= i < |s| ==> s[i] != 0
    ensures CString(s) == s
  {
    if s != [] {
      CStringOf(s[1..]);
      assert s == [s[0]] + s[1..];
    }
  }

  lemma {:induction false} UnzigzagUndoesZigzag(n: int)
    requires -(TWO64 / 2) <= n < TWO64 / 2
    ensures Unzigzag(Zigzag(n)) == n
  {
  }

  lemma {:induction false} SignedUndoesUnsigned(n: int, w: nat)
    requires ValidWidth(w) && -(Bound(w) / 2) <= n < Bound(w) / 2
    ensures Signed(Unsigned(n), if w == 64 then 64 else 32) == n
  {
  }

  // ---------------------------------------------------------------------------------------------
  // Items
  // ---------------------------------------------------------------------------------------------

  /** Every string that is sent leaves room for its terminator, which the encoder does not write but the decoder does. */
  predicate Terminated(l: LType, v: Value)
    requires ShapedItem(l, v)
    decreases l
  {
    match l
    case StringType(size) => |v.bytes| < size
    case Submessage(fields) => AllTerminated(fields, v.message)
    case _ => true
  }

  predicate AllTerminated(fields: Fields, m: Message)
    requires Shaped(fields, m)
    decreases fields
  {
    forall i :: 0 <= i < |fields| ==> SlotTerminated(fields[i], m.slots[i])
  }

  /** A field without a presence flag is not sent at its default. */
  predicate SlotTerminated(f: Field, s: Slot)
    requires ShapedSlot(f, s)
    decreases f
  {
    (f.htype.Singular? && IsDefaultItem(f.ltype, s.items[0])) || FirstTerminated(f, s, |s.items|)
  }

  /** The first n items of a field. */
  predicate FirstTerminated(f: Field, s: Slot, n: nat)
    requires ShapedSlot(f, s) && n <= |s.items|
    decreases f, 0
  {
    forall k :: 0 <= k < n ==> Terminated(f.ltype, s.items[k])
  }

  /** The first n fields of a message. */
  predicate PrefixTerminated(fields: Fields, m: Message, n: nat)
    requires Shaped(fields, m) && n <= |fields|
  {
    forall i :: 0 <= i < n ==> SlotTerminated(fields[i], m.slots[i])
  }

  lemma {:induction false} NumbersTerminated(l: LType, v: Value)
    requires Packable(l) && ShapedItem(l, v)
    ensures Terminated(l, v)
  {
  }

  lemma {:induction false} ScalarRoundTrip(l: LType, v: Value, rest: Bytes)
    requires !l.Submessage? && ShapedItem(l, v) && EncodeItem(l, v).Some? && |EncodeItem(l, v).value| < TWO32
    ensures DecodeScalar(l, EncodeItem(l, v).value + rest) == if Terminated(l, v) then Some((v, rest)) else None
  {
    hide Coding.Varint, ReadVarint32, ReadVarint64, Substream, Signed, Unsigned, Zigzag, Unzigzag, EncodeFixed32, DecodeFixed32,
      EncodeFixed64, DecodeFixed64, LengthPrefixed;
    var b := EncodeItem(l, v).value + rest;
    match l
    case Bool =>
      Varint32RoundTrip(v.n, rest);
      assert b[|Coding.Varint(v.n)|..] == rest;
    case Varint(w) =>
      Varint64RoundTrip(Unsigned(v.n), rest);
      assert b[|Coding.Varint(Unsigned(v.n))|..] == rest;
      SignedUndoesUnsigned(v.n, w);
    case Uvarint(w) =>
      Varint64RoundTrip(v.n, rest);
      assert b[|Coding.Varint(v.n)|..] == rest;
    case Svarint(w) =>
      Varint64RoundTrip(Zigzag(v.n), rest);
      assert b[|Coding.Varint(Zigzag(v.n))|..] == rest;
      UnzigzagUndoesZigzag(v.n);
    case Fixed32 =>
      Fixed32RoundTrip(v.n, rest);
      assert b[4..] == rest;
    case Fixed64 =>
      Fixed64RoundTrip(v.n, rest);
      assert b[8..] == rest;
    case BytesType(size) =>
      PrefixFits(v.bytes);
      SubstreamRoundTrip(v.bytes, rest);
    case StringType(size) =>
      PrefixFits(v.bytes);
      SubstreamRoundTrip(v.bytes, rest);
      CStringOf(v.bytes);
    case FixedLengthBytes(size) =>
      PrefixFits(v.bytes);
      SubstreamRoundTrip(v.bytes, rest);
      if size == 0 {
        assert v.bytes == ZeroBytes(0);
      }
  }

  lemma {:induction false} PrefixFits(p: Bytes)
    ensures |p| < |LengthPrefixed(p)|
  {
  }

  /** Exactly the terminated strings come back; a string that fills its array cannot be decoded. */
  lemma {:induction false} StringComesBackIff(size: nat, v: Value, rest: Bytes)
    requires ShapedItem(StringType(size), v) && |v.bytes| < TWO32
    ensures DecodeScalar(StringType(size), LengthPrefixed(v.bytes) + rest) == Some((v, rest)) <==> |v.bytes| < size
    ensures |v.bytes| >= size ==> DecodeScalar(StringType(size), LengthPrefixed(v.bytes) + rest) == None
  {
    hide LengthPrefixed;
    SubstreamRoundTrip(v.bytes, rest);
    CStringOf(v.bytes);
  }

  // ---------------------------------------------------------------------------------------------
  // Messages
  // ---------------------------------------------------------------------------------------------

  /** The slots after the first n fields have been decoded. */
  function Partial(fields: Fields, m: Message, n: nat): (slots: seq<Slot>)
    requires |m.slots| == |fields| && n <= |fields|
    ensures |slots| == |fields|
  {
    m.slots[..n] + Default(fields).slots[n..]
  }

  /** The fields among the first n that were written at all. */
  ghost function Emitted(fields: Fields, m: Message, n: nat): set<nat>
    requires Shaped(fields, m) && n <= |fields|
  {
    set i: nat | i < n && EncodeSlot(fields[i], m.slots[i]) != Some([]) :: i
  }

  lemma {:induction false} Append3(a: Bytes, b: Bytes, c: Bytes)
    ensures a + b + c == a + (b + c)
  {
  }

  /** A tag in front leads to the decoding of its field. */
  lemma {:induction false} TagLeads(fields: Fields, i: nat, wireType: nat, payload: Bytes, m: Message, seen: set<nat>)
    requires ValidFields(fields) && i < |fields| == |m.slots| && wireType < 8
    ensures DecodeLoop(fields, TagBytes(wireType, fields[i].tag) + payload, m, seen)
         == match DecodeField(fields, i, wireType, payload, m.slots)
            case None => None
            case Some((slots, rest)) => DecodeLoop(fields, rest, Message(slots), seen + {i})
  {
    hide Coding.Varint, ReadVarint32, DecodeField, FindField;
    var temp := fields[i].tag * 8 + wireType;
    assert ValidField(fields[i]);
    var b := TagBytes(wireType, fields[i].tag) + payload;
    Varint32RoundTrip(temp, payload);
    assert b[|Coding.Varint(temp)|..] == payload;
    assert temp / 8 == fields[i].tag && temp % 8 == wireType;
  }

  /** An item put into the slot of a field that is not an array. */
  lemma {:induction false} SingleDecodes(fields: Fields, i: nat, m: Message, wireType: nat, b: Bytes, rest: Bytes)
    requires Shaped(fields, m) && i < |fields| && !fields[i].htype.Repeated? && m.slots[i].items != []
    requires DecodeItem(fields[i].ltype, b, DefaultItem(fields[i].ltype)) == Some((m.slots[i].items[0], rest))
    ensures DecodeField(fields, i, wireType, b, Partial(fields, m, i)) == Some((Partial(fields, m, i + 1), rest))
  {
    hide DecodeItem, DefaultItem;
    var slots := Partial(fields, m, i);
    var f := fields[i];
    assert ShapedSlot(f, m.slots[i]);
    assert m.slots[i].items == [m.slots[i].items[0]];
    assert slots[i] == DefaultSlot(f);
    var cleared := ClearUnion(fields, slots, i);
    forall j | 0 <= j < |fields| && j != i ensures cleared[j] == slots[j] {
      if f.htype.Oneof? && fields[j].htype == f.htype {
        if j < i {
          assert slots[j] == m.slots[j];
        } else {
          assert slots[j] == DefaultSlot(fields[j]);
        }
      }
    }
    assert cleared[i := Slot([m.slots[i].items[0]])] == Partial(fields, m, i + 1);
  }

  /** An item that cannot be decoded fails its field. */
  lemma {:induction false} SingleFails(fields: Fields, i: nat, m: Message, wireType: nat, b: Bytes)
    requires Shaped(fields, m) && i < |fields| && !fields[i].htype.Repeated?
    requires DecodeItem(fields[i].ltype, b, DefaultItem(fields[i].ltype)) == None
    ensures DecodeField(fields, i, wireType, b, Partial(fields, m, i)) == None
  {
    hide DecodeItem, DefaultItem;
    assert Partial(fields, m, i)[i] == DefaultSlot(fields[i]);
  }

  lemma {:induction false} NothingWritten(fields: Fields, i: nat, m: Message)
    requires Shaped(fields, m) && i < |fields| && EncodeSlot(fields[i], m.slots[i]) == Some([])
    ensures Partial(fields, m, i) == Partial(fields, m, i + 1) && SlotTerminated(fields[i], m.slots[i])
  {
    var f, s := fields[i], m.slots[i];
    assert ShapedSlot(f, s);
    NothingMeansDefault(f, s);
    assert Partial(fields, m, i)[i] == DefaultSlot(f);
  }

  lemma {:induction false} TagIsSomething(wireType: nat, tag: nat, b: Bytes)
    ensures TagBytes(wireType, tag) + b != []
  {
  }

  /** Only a field at its default writes nothing. */
  lemma {:induction false} NothingMeansDefault(f: Field, s: Slot)
    requires ShapedSlot(f, s) && EncodeSlot(f, s) == Some([])
    ensures s == DefaultSlot(f) && SlotTerminated(f, s)
  {
    hide EncodeItem, TagBytes, ShapedItem, IsDefaultItem, DefaultItem, LengthPrefixed, Terminated;
    if f.htype.Repeated? {
      if s.items != [] {
        SomethingWritten(f, s.items);
      }
      assert s.items == [];
    } else if s.items != [] {
      if f.htype.Singular? && IsDefaultItem(f.ltype, s.items[0]) {
        DefaultIsTheOnlyDefault(f.ltype, s.items[0]);
        assert s.items == [s.items[0]];
      } else {
        TagIsSomething(WireType(f.ltype), f.tag, EncodeItem(f.ltype, s.items[0]).value);
        assert false;
      }
    }
  }

  lemma {:induction false} SomethingWritten(f: Field, items: seq<Value>)
    requires f.htype.Repeated? && items != [] && (forall v :: v in items ==> ShapedItem(f.ltype, v))
    ensures EncodeArray(f, items) != Some([])
  {
    hide EncodeItem, TagBytes, ShapedItem, LengthPrefixed;
    var tag := TagBytes(WireType(f.ltype), f.tag);
    TagIsSomething(WT_STRING, f.tag, []);
    TagIsSomething(WireType(f.ltype), f.tag, []);
    assert tag + [] == tag && TagBytes(WT_STRING, f.tag) + [] == TagBytes(WT_STRING, f.tag);
  }

  /** The packed items of an array, followed by more. */
  lemma {:induction false} PackedDecodes(l: LType, items: seq<Value>, n: nat, arraySize: nat, rest: Bytes)
    requires Packable(l) && n <= |items| <= arraySize && (forall v :: v in items ==> ShapedItem(l, v))
    requires EncodeItems(l, [], items, n).Some? && |EncodeItems(l, [], items, n).value| < TWO32
    ensures DecodePacked(l, EncodeItems(l, [], items, n).value + rest, [], arraySize) == DecodePacked(l, rest, items[..n], arraySize)
  {
    hide EncodeItem, DecodeScalar, ShapedItem;
    if n == 0 {
      assert [] + rest == rest;
    } else {
      var front, v := EncodeItems(l, [], items, n - 1).value, items[n - 1];
      var item := EncodeItem(l, v).value;
      assert [] + item == item;
      Append3(front, item, rest);
      PackedDecodes(l, items, n - 1, arraySize, item + rest);
      NumberRoundTrip(l, v, rest);
      assert items[..n - 1] + [v] == items[..n];
    }
  }

  lemma {:induction false} NumberRoundTrip(l: LType, v: Value, rest: Bytes)
    requires Packable(l) && ShapedItem(l, v) && EncodeItem(l, v).Some? && |EncodeItem(l, v).value| < TWO32
    ensures EncodeItem(l, v).value + rest != []
    ensures DecodeScalar(l, EncodeItem(l, v).value + rest) == Some((v, rest))
  {
    ScalarRoundTrip(l, v, rest);
    NumbersTerminated(l, v);
  }

  lemma {:induction false} ItemRoundTrip(l: LType, v: Value, rest: Bytes)
    requires ValidType(l) && ShapedItem(l, v)
    requires EncodeItem(l, v).Some? && |EncodeItem(l, v).value| < TWO32
    ensures DecodeItem(l, EncodeItem(l, v).value + rest, DefaultItem(l)) == if Terminated(l, v) then Some((v, rest)) else None
    decreases l, 0, 0, 0
  {
    match l
    case Submessage(fields) =>
      hide LengthPrefixed, Substream, EncodeFields, DecodeNoInit, Default, Shaped, ValidFields, AllTerminated;
      var part := EncodeFields(fields, v.message, |fields|).value;
      PrefixFits(part);
      SubstreamRoundTrip(part, rest);
      MessageRoundTrip(fields, v.message);
    case _ =>
      ScalarRoundTrip(l, v, rest);
  }

  /** An array that is not packed: its first n items. */
  lemma {:induction false} ItemsDecode(fields: Fields, i: nat, m: Message, n: nat, rest: Bytes, seen: set<nat>)
    requires ValidFields(fields) && Shaped(fields, m) && i < |fields| && ShapedSlot(fields[i], m.slots[i])
    requires fields[i].htype.Repeated? && !Packable(fields[i].ltype)
    requires n <= |m.slots[i].items| <= fields[i].htype.arraySize
    requires var f := fields[i];
             var b := EncodeItems(f.ltype, TagBytes(WireType(f.ltype), f.tag), m.slots[i].items, n);
             b.Some? && |b.value| < TWO32
    ensures var f := fields[i];
            var items := m.slots[i].items;
            DecodeLoop(fields, EncodeItems(f.ltype, TagBytes(WireType(f.ltype), f.tag), items, n).value + rest,
                       Message(Partial(fields, m, i)), seen)
              == if FirstTerminated(f, m.slots[i], n)
                 then DecodeLoop(fields, rest, Message(Partial(fields, m, i)[i := Slot(items[..n])]), seen + if n > 0 then {i} else {})
                 else None
    decreases fields, i, 0, n
  {
    hide EncodeItem, DecodeItem, ShapedItem, TagBytes, DecodeLoop, Terminated;
    var f, items := fields[i], m.slots[i].items;
    var tag := TagBytes(WireType(f.ltype), f.tag);
    assert ShapedSlot(f, m.slots[i]) && ValidField(f);
    var slots := Partial(fields, m, i);
    if n == 0 {
      assert [] + rest == rest;
      assert slots[i] == DefaultSlot(f);
      assert slots[i := Slot(items[..0])] == slots;
      assert seen + {} == seen;
    } else {
      var front := EncodeItems(f.ltype, tag, items, n - 1).value;
      var v := items[n - 1];
      var item := EncodeItem(f.ltype, v).value;
      Append3(front, tag + item, rest);
      Append3(tag, item, rest);
      ItemsDecode(fields, i, m, n - 1, tag + item + rest, seen);
      var before := slots[i := Slot(items[..n - 1])];
      var seen' := seen + if n - 1 > 0 then {i} else {};
      TagLeads(fields, i, WireType(f.ltype), item + rest, Message(before), seen');
      FieldItem(f, v, rest);
      assert items[..n - 1] + [v] == items[..n];
      assert before[i := Slot(items[..n])] == slots[i := Slot(items[..n])];
      assert seen' + {i} == seen + {i};
    }
  }

  /** One field, followed by more. */
  lemma {:induction false} SlotDecodes(fields: Fields, i: nat, m: Message, rest: Bytes, seen: set<nat>)
    requires ValidFields(fields) && Shaped(fields, m) && i < |fields|
    requires EncodeSlot(fields[i], m.slots[i]).Some? && |EncodeSlot(fields[i], m.slots[i]).value| < TWO32
    ensures var b := EncodeSlot(fields[i], m.slots[i]).value;
            DecodeLoop(fields, b + rest, Message(Partial(fields, m, i)), seen)
              == if SlotTerminated(fields[i], m.slots[i])
                 then DecodeLoop(fields, rest, Message(Partial(fields, m, i + 1)), seen + if b == [] then {} else {i})
                 else None
    decreases fields, i, 2, 0
  {
    var f, s := fields[i], m.slots[i];
    assert ShapedSlot(f, s) && ValidField(f);
    if EncodeSlot(f, s) == Some([]) {
      NothingWritten(fields, i, m);
      assert [] + rest == rest && seen + {} == seen;
    } else if f.htype.Repeated? {
      ArrayDecodes(fields, i, m, rest, seen);
    } else {
      OneItemDecodes(fields, i, m, rest, seen);
    }
  }

  /** A field that is not an array, when it is written. */
  lemma {:induction false} OneItemDecodes(fields: Fields, i: nat, m: Message, rest: Bytes, seen: set<nat>)
    requires ValidFields(fields) && Shaped(fields, m) && i < |fields| && !fields[i].htype.Repeated?
    requires ShapedSlot(fields[i], m.slots[i]) && ValidField(fields[i])
    requires var b := EncodeSlot(fields[i], m.slots[i]); b.Some? && b != Some([]) && |b.value| < TWO32
    ensures DecodeLoop(fields, EncodeSlot(fields[i], m.slots[i]).value + rest, Message(Partial(fields, m, i)), seen)
         == if SlotTerminated(fields[i], m.slots[i]) then DecodeLoop(fields, rest, Message(Partial(fields, m, i + 1)), seen + {i})
            else None
    decreases fields, i, 1, 0
  {
    hide EncodeItem, DecodeItem, ShapedItem, TagBytes, DecodeLoop, Terminated, DecodeField, Partial, Shaped, ValidFields;
    SlotCount(fields, m);
    var f, s := fields[i], m.slots[i];
    var tag, item := TagBytes(WireType(f.ltype), f.tag), EncodeItem(f.ltype, s.items[0]).value;
    Append3(tag, item, rest);
    TagLeads(fields, i, WireType(f.ltype), item + rest, Message(Partial(fields, m, i)), seen);
    FieldItem(f, s.items[0], rest);
    assert SlotTerminated(f, s) <==> Terminated(f.ltype, s.items[0]);
    if Terminated(f.ltype, s.items[0]) {
      SingleDecodes(fields, i, m, WireType(f.ltype), item + rest, rest);
    } else {
      SingleFails(fields, i, m, WireType(f.ltype), item + rest);
    }
  }

  lemma {:induction false} SlotCount(fields: Fields, m: Message)
    requires Shaped(fields, m)
    ensures |m.slots| == |fields|
  {
  }

  /** An item of a field; the types nest in the schema. */
  lemma {:induction false} FieldItem(f: Field, v: Value, rest: Bytes)
    requires ValidField(f) && ShapedItem(f.ltype, v)
    requires EncodeItem(f.ltype, v).Some? && |EncodeItem(f.ltype, v).value| < TWO32
    ensures DecodeItem(f.ltype, EncodeItem(f.ltype, v).value + rest, DefaultItem(f.ltype))
         == if Terminated(f.ltype, v) then Some((v, rest)) else None
    decreases f, 0, 0, 0
  {
    ItemRoundTrip(f.ltype, v, rest);
  }

  lemma {:induction false} ArrayDecodes(fields: Fields, i: nat, m: Message, rest: Bytes, seen: set<nat>)
    requires ValidFields(fields) && Shaped(fields, m) && i < |fields| && fields[i].htype.Repeated?
    requires ShapedSlot(fields[i], m.slots[i])
    requires var b := EncodeArray(fields[i], m.slots[i].items); b.Some? && b != Some([]) && |b.value| < TWO32
    ensures DecodeLoop(fields, EncodeArray(fields[i], m.slots[i].items).value + rest, Message(Partial(fields, m, i)), seen)
         == if SlotTerminated(fields[i], m.slots[i]) then DecodeLoop(fields, rest, Message(Partial(fields, m, i + 1)), seen + {i})
            else None
    decreases fields, i, 1, 0
  {
    hide EncodeItem, DecodeItem, ShapedItem, TagBytes, DecodeLoop, Terminated, LengthPrefixed, Substream, DecodePacked;
    var f, items := fields[i], m.slots[i].items;
    var slots := Partial(fields, m, i);
    assert ShapedSlot(f, m.slots[i]) && ValidField(f);
    assert slots[i] == DefaultSlot(f);
    assert items[..|items|] == items;
    assert slots[i := Slot(items)] == Partial(fields, m, i + 1);
    if Packable(f.ltype) {
      forall k | 0 <= k < |items| ensures Terminated(f.ltype, items[k]) {
        assert items[k] in items;
        NumbersTerminated(f.ltype, items[k]);
      }
      assert FirstTerminated(f, m.slots[i], |items|);
      var part := EncodeItems(f.ltype, [], items, |items|).value;
      var tag := TagBytes(WT_STRING, f.tag);
      PrefixFits(part);
      Append3(tag, LengthPrefixed(part), rest);
      TagLeads(fields, i, WT_STRING, LengthPrefixed(part) + rest, Message(slots), seen);
      SubstreamRoundTrip(part, rest);
      PackedDecodes(f.ltype, items, |items|, f.htype.arraySize, []);
      assert part + [] == part;
      PackedEnds(f.ltype, items, f.htype.arraySize);
    } else {
      ItemsDecode(fields, i, m, |items|, rest, seen);
    }
  }

  lemma {:induction false} PackedEnds(l: LType, items: seq<Value>, arraySize: nat)
    requires Packable(l)
    ensures DecodePacked(l, [], items, arraySize) == Some(items)
  {
  }

  /** The first n fields, followed by more. */
  lemma {:induction false} PrefixDecodes(fields: Fields, m: Message, n: nat, rest: Bytes)
    requires ValidFields(fields) && Shaped(fields, m) && n <= |fields|
    requires EncodeFields(fields, m, n).Some? && |EncodeFields(fields, m, n).value| < TWO32
    ensures DecodeLoop(fields, EncodeFields(fields, m, n).value + rest, Default(fields), {})
         == if PrefixTerminated(fields, m, n) then DecodeLoop(fields, rest, Message(Partial(fields, m, n)), Emitted(fields, m, n))
            else None
    decreases fields, n, 1, 0
  {
    hide EncodeSlot, DecodeLoop, ShapedSlot, SlotTerminated, ValidFields;
    if n == 0 {
      assert [] + rest == rest;
      assert Partial(fields, m, 0) == Default(fields).slots;
      assert Emitted(fields, m, 0) == {};
    } else {
      var front, b := EncodeFields(fields, m, n - 1).value, EncodeSlot(fields[n - 1], m.slots[n - 1]).value;
      Append3(front, b, rest);
      PrefixDecodes(fields, m, n - 1, b + rest);
      SlotDecodes(fields, n - 1, m, rest, Emitted(fields, m, n - 1));
      assert Emitted(fields, m, n) == Emitted(fields, m, n - 1) + if b == [] then {} else {n - 1};
    }
  }

  lemma {:induction false} RequiredAreEmitted(fields: Fields, m: Message)
    requires Shaped(fields, m)
    ensures AllRequiredSeen(fields, Emitted(fields, m, |fields|))
  {
    hide EncodeItem, TagBytes, ShapedItem;
    forall i | 0 <= i < |fields| && fields[i].htype.Required? ensures i in Emitted(fields, m, |fields|) {
      var f, s := fields[i], m.slots[i];
      assert ShapedSlot(f, s);
      if EncodeItem(f.ltype, s.items[0]).Some? {
        TagIsSomething(WireType(f.ltype), f.tag, EncodeItem(f.ltype, s.items[0]).value);
      }
      assert EncodeSlot(f, s) != Some([]);
    }
  }

  /**
   Decoding undoes encoding, for every valid schema and every message in which all strings that are sent leave
   room for their terminators; any other message is encoded, and then cannot be decoded.
   */
  lemma {:induction false} MessageRoundTrip(fields: Fields, m: Message)
    requires ValidFields(fields) && Shaped(fields, m)
    requires EncodeMessage(fields, m).Some? && |EncodeMessage(fields, m).value| < TWO32
    ensures DecodeMessage(fields, EncodeMessage(fields, m).value) == if AllTerminated(fields, m) then Some(m) else None
    decreases fields, |fields|, 3, 0
  {
    assert AllTerminated(fields, m) <==> PrefixTerminated(fields, m, |fields|);
    hide EncodeFields, PrefixTerminated, Shaped, ValidFields, AllTerminated, AllRequiredSeen;
    var b := EncodeMessage(fields, m).value;
    assert b + [] == b;
    PrefixDecodes(fields, m, |fields|, []);
    WholeMessage(fields, m);
    RequiredAreEmitted(fields, m);
  }

  lemma {:induction false} WholeMessage(fields: Fields, m: Message)
    requires Shaped(fields, m)
    ensures |m.slots| == |fields| && Message(Partial(fields, m, |fields|)) == m
  {
    assert Partial(fields, m, |fields|) == m.slots;
  }
}
