/** The bytes of a message (pb_encode.c), and the encoder with its sizing pass. */
module PbEncode {
  import opened Keys
  import opened Version
  import opened Coding
  import opened PbSchema

  const WT_VARINT: nat := 0
  const WT_64BIT: nat := 1
  const WT_STRING: nat := 2
  const WT_32BIT: nat := 5

  // ---------------------------------------------------------------------------------------------
  // The bytes
  // ---------------------------------------------------------------------------------------------

  function TagBytes(wireType: nat, tag: nat): Bytes {
    Coding.Varint(tag * 8 + wireType)
  }

  function WireType(l: LType): (wt: nat)
    ensures wt < 8
  {
    match l
    case Fixed32 => WT_32BIT
    case Fixed64 => WT_64BIT
    case Bool => WT_VARINT
    case Varint(_) => WT_VARINT
    case Uvarint(_) => WT_VARINT
    case Svarint(_) => WT_VARINT
    case _ => WT_STRING
  }

  /** A signed number as 64 unsigned bits. */
  function Unsigned(n: int): (u: nat)
    requires -(TWO64 / 2) <= n < TWO64 / 2
    ensures u < TWO64
  {
    if n < 0 then n + TWO64 else n
  }

  function Zigzag(n: int): (u: nat)
    requires -(TWO64 / 2) <= n < TWO64 / 2
    ensures u < TWO64
  {
    if n < 0 then -2 * n - 1 else 2 * n
  }

  function EncodeItem(l: LType, v: Value): (r: Option<Bytes>)
    requires ShapedItem(l, v)
    decreases l, 0
  {
    match l
    case Bool => Some(Coding.Varint(v.n))
    case Varint(_) => Some(Coding.Varint(Unsigned(v.n)))
    case Uvarint(_) => Some(Coding.Varint(v.n))
    case Svarint(_) => Some(Coding.Varint(Zigzag(v.n)))
    case Fixed32 => Some(EncodeFixed32(v.n))
    case Fixed64 => Some(EncodeFixed64(v.n))
    case BytesType(size) => if |v.bytes| > size then None else Some(LengthPrefixed(v.bytes))
    case StringType(_) => Some(LengthPrefixed(v.bytes))
    case FixedLengthBytes(_) => Some(LengthPrefixed(v.bytes))
    case Submessage(fields) =>
      match EncodeFields(fields, v.message, |fields|)
      case None => None
      case Some(b) => Some(LengthPrefixed(b))
  }

  function Join(a: Option<Bytes>, b: Option<Bytes>): Option<Bytes> {
    if a.Some? && b.Some? then Some(a.value + b.value) else None
  }

  /** The first n items, each behind the prefix. */
  function EncodeItems(l: LType, prefix: Bytes, items: seq<Value>, n: nat): Option<Bytes>
    requires n <= |items| && forall v :: v in items ==> ShapedItem(l, v)
    decreases l, 1 + n
  {
    if n == 0 then Some([])
    else Join(EncodeItems(l, prefix, items, n - 1), Join(Some(prefix), EncodeItem(l, items[n - 1])))
  }

  /** Arrays of numbers are packed; other arrays repeat the tag. */
  function EncodeArray(f: Field, items: seq<Value>): Option<Bytes>
    requires f.htype.Repeated? && forall v :: v in items ==> ShapedItem(f.ltype, v)
    decreases f, 0
  {
    if items == [] then Some([])
    else if |items| > f.htype.arraySize then None
    else if Packable(f.ltype) then
      match EncodeItems(f.ltype, [], items, |items|)
      case None => None
      case Some(b) => Some(TagBytes(WT_STRING, f.tag) + LengthPrefixed(b))
    else EncodeItems(f.ltype, TagBytes(WireType(f.ltype), f.tag), items, |items|)
  }

  function EncodeSlot(f: Field, s: Slot): Option<Bytes>
    requires ShapedSlot(f, s)
    decreases f, 1
  {
    if f.htype.Repeated? then EncodeArray(f, s.items)
    else if s.items == [] then Some([])
    else if f.htype.Singular? && IsDefaultItem(f.ltype, s.items[0]) then Some([])
    else Join(Some(TagBytes(WireType(f.ltype), f.tag)), EncodeItem(f.ltype, s.items[0]))
  }

  /** The first n fields of a message. */
  function EncodeFields(fields: Fields, m: Message, n: nat): Option<Bytes>
    requires Shaped(fields, m) && n <= |fields|
    decreases fields, n
  {
    if n == 0 then Some([])
    else Join(EncodeFields(fields, m, n - 1), EncodeSlot(fields[n - 1], m.slots[n - 1]))
  }

  function EncodeMessage(fields: Fields, m: Message): Option<Bytes>
    requires Shaped(fields, m)
  {
    EncodeFields(fields, m, |fields|)
  }
}
