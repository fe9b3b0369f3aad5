/**
 Protocol Buffers messages as nanopb describes them (pb.h): field descriptors and the values of a message
 struct. Values are logical: an absent optional field, an unused array entry and the inactive members of a
 union have no content.
 */
module PbSchema {
  import opened Keys
  import opened Version

  /** The data type of a field, with the size of its storage. Widths are in bits, sizes in bytes. */
  datatype LType =
    | Bool
    | Varint(width: nat)
    | Uvarint(width: nat)
    | Svarint(width: nat)
    | Fixed32
    | Fixed64
    | BytesType(size: nat)
    | StringType(size: nat)
    | FixedLengthBytes(size: nat)
    | Submessage(fields: seq<Field>)

  /** Required, optional with a has_ flag, optional without one (proto3), repeated with a count, or in a union. */
  datatype HType = Required | Optional | Singular | Repeated(arraySize: nat) | Oneof(group: nat)

  datatype Field = Field(tag: nat, htype: HType, ltype: LType)

  datatype Value = Num(n: int) | Blob(bytes: Bytes) | Sub(message: Message)

  /** The items of a field: one, none or one, or as many as an array holds. */
  datatype Slot = Slot(items: seq<Value>)

  datatype Message = Message(slots: seq<Slot>)

  type Fields = seq<Field>

  const MAX_TAG: nat := 0x2000_0000
  const MAX_REQUIRED_FIELDS: nat := 64

  predicate Packable(l: LType) {
    l.Bool? || l.Varint? || l.Uvarint? || l.Svarint? || l.Fixed32? || l.Fixed64?
  }

  predicate ValidWidth(w: nat) {
    w == 8 || w == 16 || w == 32 || w == 64
  }

  function Bound(w: nat): nat
    requires ValidWidth(w)
  {
    if w == 8 then 0x100 else if w == 16 then 0x1_0000 else if w == 32 then 0x1_0000_0000 else 0x1_0000_0000_0000_0000
  }

  /** The C struct can hold the value in an item of the type. */
  predicate ShapedItem(l: LType, v: Value)
    decreases l
  {
    match l
    case Bool => v.Num? && 0 <= v.n <= 1
    case Varint(w) => ValidWidth(w) && v.Num? && -(Bound(w) / 2) <= v.n < Bound(w) / 2
    case Svarint(w) => ValidWidth(w) && v.Num? && -(Bound(w) / 2) <= v.n < Bound(w) / 2
    case Uvarint(w) => ValidWidth(w) && v.Num? && 0 <= v.n < Bound(w)
    case Fixed32 => v.Num? && 0 <= v.n < Bound(32)
    case Fixed64 => v.Num? && 0 <= v.n < Bound(64)
    case BytesType(_) => v.Blob?
    case StringType(size) => v.Blob? && |v.bytes| <= size && forall i :: 0 <= i < |v.bytes| ==> v.bytes[i] != 0
    case FixedLengthBytes(size) => v.Blob? && |v.bytes| == size
    case Submessage(fields) => v.Sub? && Shaped(fields, v.message)
  }

  predicate ShapedSlot(f: Field, s: Slot)
    decreases f
  {
    && (match f.htype
        case Required => |s.items| == 1
        case Singular => |s.items| == 1
        case Optional => |s.items| <= 1
        case Oneof(_) => |s.items| <= 1
        case Repeated(_) => true)
    && forall v :: v in s.items ==> ShapedItem(f.ltype, v)
  }

  /** The C struct can hold the message; only one member of a union is in use. */
  predicate Shaped(fields: Fields, m: Message)
    decreases fields
  {
    && |m.slots| == |fields|
    && (forall i :: 0 <= i < |fields| ==> ShapedSlot(fields[i], m.slots[i]))
    && (forall i, j :: 0 <= i < j < |fields| && fields[i].htype.Oneof? && fields[i].htype == fields[j].htype ==>
                         m.slots[i].items == [] || m.slots[j].items == [])
  }

  /** Tags are distinct and fit a 32-bit tag varint. */
  predicate ValidFields(fields: Fields)
    decreases fields
  {
    && (forall i :: 0 <= i < |fields| ==> ValidField(fields[i]))
    && (forall i, j :: 0 <= i < j < |fields| ==> fields[i].tag != fields[j].tag)
  }

  predicate ValidField(f: Field)
    decreases f
  {
    0 < f.tag < MAX_TAG && ValidType(f.ltype)
  }

  predicate ValidType(l: LType)
    decreases l
  {
    match l
    case Submessage(fields) => ValidFields(fields)
    case _ => true
  }

  // ---------------------------------------------------------------------------------------------
  // Defaults
  // ---------------------------------------------------------------------------------------------

  function ZeroBytes(n: nat): (r: Bytes)
    ensures |r| == n
  {
    seq(n, i => 0)
  }

  /** What an item holds before anything is decoded into it. */
  function DefaultItem(l: LType): Value
    decreases l
  {
    match l
    case Submessage(fields) => Sub(Default(fields))
    case BytesType(_) => Blob([])
    case StringType(_) => Blob([])
    case FixedLengthBytes(size) => Blob(ZeroBytes(size))
    case _ => Num(0)
  }

  function DefaultSlot(f: Field): Slot
    decreases f
  {
    if f.htype.Required? || f.htype.Singular? then Slot([DefaultItem(f.ltype)]) else Slot([])
  }

  /** pb_message_set_to_defaults. */
  function Default(fields: Fields): (m: Message)
    ensures |m.slots| == |fields|
    decreases fields
  {
    Message(seq(|fields|, i requires 0 <= i < |fields| => DefaultSlot(fields[i])))
  }

  /** pb_check_proto3_default_value, on an item. */
  predicate IsDefaultItem(l: LType, v: Value)
    requires ShapedItem(l, v)
    decreases l
  {
    match l
    case Submessage(fields) => AllDefault(fields, v.message)
    case BytesType(_) => v.bytes == []
    case StringType(_) => v.bytes == []
    case FixedLengthBytes(size) => size == 0
    case _ => v.n == 0
  }

  /** The fields of a submessage are all at their defaults. */
  predicate AllDefault(fields: Fields, m: Message)
    requires Shaped(fields, m)
    decreases fields
  {
    forall i :: 0 <= i < |fields| ==> IsDefaultSlot(fields[i], m.slots[i])
  }

  /** pb_check_proto3_default_value, on a field. */
  predicate IsDefaultSlot(f: Field, s: Slot)
    requires ShapedSlot(f, s)
    decreases f
  {
    match f.htype
    case Required => false
    case Singular => IsDefaultItem(f.ltype, s.items[0])
    case _ => s.items == []
  }

  lemma {:induction false} DefaultIsTheOnlyDefault(l: LType, v: Value)
    requires ShapedItem(l, v) && IsDefaultItem(l, v)
    ensures v == DefaultItem(l)
    decreases l
  {
    match l
    case Submessage(fields) =>
      assert Shaped(fields, v.message) && AllDefault(fields, v.message);
      var d := Default(fields);
      forall i | 0 <= i < |fields| ensures v.message.slots[i] == d.slots[i] {
        DefaultSlotIsTheOnlyDefault(fields[i], v.message.slots[i]);
      }
      assert v.message.slots == d.slots;
    case FixedLengthBytes(size) =>
      assert v.bytes == ZeroBytes(size);
    case _ =>
  }

  lemma {:induction false} DefaultSlotIsTheOnlyDefault(f: Field, s: Slot)
    requires ShapedSlot(f, s) && IsDefaultSlot(f, s)
    ensures s == DefaultSlot(f)
    decreases f
  {
    if f.htype.Singular? {
      DefaultIsTheOnlyDefault(f.ltype, s.items[0]);
      assert s.items == [s.items[0]];
    }
  }
}
