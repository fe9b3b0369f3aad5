/**
 Schemas that differ (pb_decode.c): fields a decoder does not know are passed over, fields an encoder did not
 know are at their defaults; and what any bytes at all can be decoded to.
 */
module PbCompat {
  import opened Keys
  import opened Version
  import opened Coding
  import opened Crc32c
  import opened PbSchema
  import opened PbEncode
  import opened PbDecode
  import opened PbRoundTrip

  // ---------------------------------------------------------------------------------------------
  // Unknown fields
  // ---------------------------------------------------------------------------------------------

  predicate Unknown(fields: Fields, tag: nat) {
    forall j :: 0 <= j < |fields| ==> fields[j].tag != tag
  }

  lemma {:induction false} VarintSkipped(v: nat, rest: Bytes)
    ensures SkipVarint(Coding.Varint(v) + rest) == Some(rest)
  {
    var b := Coding.Varint(v) + rest;
    if v < 128 {
      assert b[1..] == rest;
    } else {
      VarintSkipped(v / 128, rest);
      assert b[1..] == Coding.Varint(v / 128) + rest;
    }
  }

  lemma {:induction false} PartSkipped(part: Bytes, rest: Bytes)
    requires |part| < TWO32
    ensures SkipField(WT_STRING, LengthPrefixed(part) + rest) == Some(rest)
  {
    hide LengthPrefixed, Substream;
    SubstreamRoundTrip(part, rest);
  }

  /** The wire type alone says where an item ends. */
  lemma {:induction false} ItemSkipped(l: LType, v: Value, rest: Bytes)
    requires ShapedItem(l, v) && EncodeItem(l, v).Some? && |EncodeItem(l, v).value| < TWO32
    ensures SkipField(WireType(l), EncodeItem(l, v).value + rest) == Some(rest)
  {
    hide Coding.Varint, SkipVarint, Substream, Unsigned, Zigzag, LengthPrefixed, EncodeFields, Shaped;
    var item := EncodeItem(l, v).value;
    match l
    case Bool => VarintSkipped(v.n, rest);
    case Varint(_) => VarintSkipped(Unsigned(v.n), rest);
    case Uvarint(_) => VarintSkipped(v.n, rest);
    case Svarint(_) => VarintSkipped(Zigzag(v.n), rest);
    case Fixed32 => assert (item + rest)[4..] == rest;
    case Fixed64 => assert (item + rest)[8..] == rest;
    case Submessage(fields) =>
      var part := EncodeFields(fields, v.message, |fields|).value;
      PrefixFits(part);
      PartSkipped(part, rest);
    case _ =>
      PrefixFits(v.bytes);
      PartSkipped(v.bytes, rest);
  }

  /** An unknown tag in front leads to the skipping of what it announces. */
  lemma {:induction false} UnknownTagLeads(fields: Fields, tag: nat, wireType: nat, payload: Bytes, rest: Bytes, m: Message, seen: set<nat>)
    requires 0 < tag < MAX_TAG && Unknown(fields, tag) && |m.slots| == |fields| && wireType < 8
    requires SkipField(wireType, payload) == Some(rest)
    ensures DecodeLoop(fields, TagBytes(wireType, tag) + payload, m, seen) == DecodeLoop(fields, rest, m, seen)
  {
    hide Coding.Varint, ReadVarint32, DecodeField, FindField, SkipField;
    var temp := tag * 8 + wireType;
    var b := TagBytes(wireType, tag) + payload;
    Varint32RoundTrip(temp, payload);
    assert b[|Coding.Varint(temp)|..] == payload;
    assert temp / 8 == tag && temp % 8 == wireType;
    assert FindField(fields, tag) == |fields|;
  }

  /** The items of an array that is not packed. */
  lemma {:induction false} UnknownItemsArePassed(fields: Fields, f: Field, items: seq<Value>, n: nat, rest: Bytes, m: Message, seen: set<nat>)
    requires 0 < f.tag < MAX_TAG && Unknown(fields, f.tag) && |m.slots| == |fields|
    requires n <= |items| && forall v :: v in items ==> ShapedItem(f.ltype, v)
    requires var b := EncodeItems(f.ltype, TagBytes(WireType(f.ltype), f.tag), items, n); b.Some? && |b.value| < TWO32
    ensures DecodeLoop(fields, EncodeItems(f.ltype, TagBytes(WireType(f.ltype), f.tag), items, n).value + rest, m, seen)
         == DecodeLoop(fields, rest, m, seen)
  {
    hide EncodeItem, ShapedItem, TagBytes, DecodeLoop, SkipField, Unknown;
    var tag := TagBytes(WireType(f.ltype), f.tag);
    if n == 0 {
      assert [] + rest == rest;
    } else {
      var front := EncodeItems(f.ltype, tag, items, n - 1).value;
      var item := EncodeItem(f.ltype, items[n - 1]).value;
      Append3(front, tag + item, rest);
      Append3(tag, item, rest);
      UnknownItemsArePassed(fields, f, items, n - 1, tag + item + rest, m, seen);
      ItemSkipped(f.ltype, items[n - 1], rest);
      UnknownTagLeads(fields, f.tag, WireType(f.ltype), item + rest, rest, m, seen);
    }
  }

  /** A field whose tag the schema does not have changes nothing, whatever its type and however it is written. */
  lemma {:induction false} UnknownFieldIsPassed(fields: Fields, f: Field, s: Slot, rest: Bytes, m: Message, seen: set<nat>)
    requires ValidField(f) && Unknown(fields, f.tag) && |m.slots| == |fields|
    requires ShapedSlot(f, s) && EncodeSlot(f, s).Some? && |EncodeSlot(f, s).value| < TWO32
    ensures DecodeLoop(fields, EncodeSlot(f, s).value + rest, m, seen) == DecodeLoop(fields, rest, m, seen)
  {
    hide EncodeItem, EncodeItems, ShapedItem, TagBytes, DecodeLoop, SkipField, Unknown, LengthPrefixed, IsDefaultItem;
    var b := EncodeSlot(f, s).value;
    if b == [] {
      assert [] + rest == rest;
    } else if f.htype.Repeated? && Packable(f.ltype) {
      var part := EncodeItems(f.ltype, [], s.items, |s.items|).value;
      var tag := TagBytes(WT_STRING, f.tag);
      PrefixFits(part);
      Append3(tag, LengthPrefixed(part), rest);
      PartSkipped(part, rest);
      UnknownTagLeads(fields, f.tag, WT_STRING, LengthPrefixed(part) + rest, rest, m, seen);
    } else if f.htype.Repeated? {
      UnknownItemsArePassed(fields, f, s.items, |s.items|, rest, m, seen);
    } else {
      var tag, item := TagBytes(WireType(f.ltype), f.tag), EncodeItem(f.ltype, s.items[0]).value;
      Append3(tag, item, rest);
      ItemSkipped(f.ltype, s.items[0], rest);
      UnknownTagLeads(fields, f.tag, WireType(f.ltype), item + rest, rest, m, seen);
    }
  }

  /** An unknown field of a wire type that says nothing about its length fails the message. */
  lemma {:induction false} UnknownWireTypeFails(fields: Fields, tag: nat, wireType: nat, payload: Bytes, m: Message, seen: set<nat>)
    requires 0 < tag < MAX_TAG && Unknown(fields, tag) && |m.slots| == |fields|
    requires wireType == 3 || wireType == 4 || wireType == 6 || wireType == 7
    ensures DecodeLoop(fields, TagBytes(wireType, tag) + payload, m, seen) == None
  {
    hide Coding.Varint, ReadVarint32, DecodeField, FindField;
    var temp := tag * 8 + wireType;
    var b := TagBytes(wireType, tag) + payload;
    Varint32RoundTrip(temp, payload);
    assert b[|Coding.Varint(temp)|..] == payload;
    assert temp / 8 == tag && temp % 8 == wireType;
    assert FindField(fields, tag) == |fields|;
  }

  /** Which bytes an item of a sized type takes: up to its size, or all of it, where none at all stands for zeroes. */
  lemma {:induction false} SizedPartIs(size: nat, part: Bytes, rest: Bytes)
    requires |part| < TWO32
    ensures DecodeScalar(BytesType(size), LengthPrefixed(part) + rest) == if |part| <= size then Some((Blob(part), rest)) else None
    ensures DecodeScalar(FixedLengthBytes(size), LengthPrefixed(part) + rest)
         == if part == [] then Some((Blob(seq(size, i => 0)), rest)) else if |part| == size then Some((Blob(part), rest)) else None
  {
    hide LengthPrefixed;
    SubstreamRoundTrip(part, rest);
    assert ZeroBytes(size) == seq(size, i => 0);
  }

  // ---------------------------------------------------------------------------------------------
  // Newer and older schemas
  // ---------------------------------------------------------------------------------------------

  /** The first n fields are the same whatever fields follow them. */
  lemma {:induction false} PrefixEncodes(fields: Fields, m: Message, k: nat, n: nat)
    requires Shaped(fields, m) && n <= k <= |fields|
    ensures Shaped(fields[..k], Message(m.slots[..k]))
    ensures EncodeFields(fields, m, n) == EncodeFields(fields[..k], Message(m.slots[..k]), n)
  {
    hide EncodeSlot, ShapedSlot;
    if n > 0 {
      PrefixEncodes(fields, m, k, n - 1);
    }
  }

  /** The fields from k to n, which an older schema does not have, add nothing to what it reads. */
  lemma {:induction false} NewFieldsArePassed(fields: Fields, m: Message, k: nat, n: nat, rest: Bytes)
    requires ValidFields(fields) && Shaped(fields, m) && k <= n <= |fields|
    requires EncodeFields(fields, m, n).Some? && |EncodeFields(fields, m, n).value| < TWO32
    ensures EncodeFields(fields, m, k).Some? && |EncodeFields(fields, m, k).value| < TWO32
    ensures DecodeLoop(fields[..k], EncodeFields(fields, m, n).value + rest, Default(fields[..k]), {})
         == DecodeLoop(fields[..k], EncodeFields(fields, m, k).value + rest, Default(fields[..k]), {})
    decreases n
  {
    hide EncodeSlot, DecodeLoop, ShapedSlot, ValidField;
    if n > k {
      var f, s := fields[n - 1], m.slots[n - 1];
      var front, b := EncodeFields(fields, m, n - 1).value, EncodeSlot(f, s).value;
      Append3(front, b, rest);
      NewFieldsArePassed(fields, m, k, n - 1, b + rest);
      PrefixValid(fields, k);
      UnknownAfter(fields, m, k, b, f, s, rest);
    }
  }

  lemma {:induction false} PrefixValid(fields: Fields, k: nat)
    requires ValidFields(fields) && k <= |fields|
    ensures ValidFields(fields[..k])
  {
    hide ValidField;
  }

  /** Skipping a field behind others. */
  lemma {:induction false} UnknownAfter(fields: Fields, m: Message, k: nat, b: Bytes, f: Field, s: Slot, rest: Bytes)
    requires ValidFields(fields) && Shaped(fields, m) && k <= |fields| && ValidFields(fields[..k])
    requires EncodeFields(fields, m, k).Some? && |EncodeFields(fields, m, k).value| < TWO32
    requires ValidField(f) && Unknown(fields[..k], f.tag) && ShapedSlot(f, s) && EncodeSlot(f, s) == Some(b) && |b| < TWO32
    ensures DecodeLoop(fields[..k], EncodeFields(fields, m, k).value + (b + rest), Default(fields[..k]), {})
         == DecodeLoop(fields[..k], EncodeFields(fields, m, k).value + rest, Default(fields[..k]), {})
  {
    hide EncodeSlot, DecodeLoop, ShapedSlot, ValidField, Unknown, PrefixTerminated, Partial, Emitted, EncodeFields, ValidFields, Shaped;
    SlotCount(fields, m);
    PrefixEncodes(fields, m, k, k);
    var old', held := fields[..k], Message(m.slots[..k]);
    PrefixDecodes(old', held, k, b + rest);
    PrefixDecodes(old', held, k, rest);
    UnknownFieldIsPassed(old', f, s, rest, Message(Partial(old', held, k)), Emitted(old', held, k));
  }

  /** A decoder with an older schema reads the fields it has from a message of a newer one. */
  lemma {:induction false} NewerMessageDecodes(fields: Fields, m: Message, k: nat)
    requires ValidFields(fields) && Shaped(fields, m) && k <= |fields|
    requires EncodeMessage(fields, m).Some? && |EncodeMessage(fields, m).value| < TWO32
    ensures DecodeMessage(fields[..k], EncodeMessage(fields, m).value)
         == if PrefixTerminated(fields, m, k) then Some(Message(m.slots[..k])) else None
  {
    hide DecodeLoop, EncodeSlot, ShapedSlot, SlotTerminated, ValidField;
    var b, front := EncodeMessage(fields, m).value, EncodeFields(fields, m, k);
    assert b + [] == b;
    NewFieldsArePassed(fields, m, k, |fields|, []);
    assert front.value + [] == front.value;
    PrefixEncodes(fields, m, k, k);
    PrefixValid(fields, k);
    MessageRoundTrip(fields[..k], Message(m.slots[..k]));
    assert DecodeMessage(fields[..k], b) == DecodeMessage(fields[..k], front.value);
  }

  /** Required field i is among those that are tracked. */
  predicate Tracked(fields: Fields, i: nat)
    requires i < |fields|
  {
    fields[i].htype.Required? && RequiredBefore(fields, i) < MAX_REQUIRED_FIELDS
  }

  lemma {:induction false} AllSeenIff(fields: Fields, m: Message, k: nat)
    requires Shaped(fields, m) && k <= |fields|
    ensures AllRequiredSeen(fields, Emitted(fields, m, k)) <==> forall i :: k <= i < |fields| ==> !Tracked(fields, i)
  {
    hide EncodeSlot, ShapedSlot, RequiredBefore;
    RequiredAreEmitted(fields, m);
    var seen := Emitted(fields, m, k);
    forall i: nat | i < |fields| && Tracked(fields, i) ensures i in seen <==> i < k {
      assert i in Emitted(fields, m, |fields|);
    }
    if AllRequiredSeen(fields, seen) {
      forall i | k <= i < |fields| ensures !Tracked(fields, i) {
        assert Tracked(fields, i) ==> i in seen;
      }
    } else {
      var i: nat :| i < |fields| && Tracked(fields, i) && i !in seen;
    }
  }

  /**
   A decoder with a newer schema reads a message of an older one, with the fields it does not find there at their
   defaults; it fails exactly for the lack of a tracked required field or of room for a terminator.
   */
  lemma {:induction false} OlderMessageDecodes(fields: Fields, m: Message, k: nat)
    requires ValidFields(fields) && Shaped(fields, m) && k <= |fields|
    requires EncodeFields(fields, m, k).Some? && |EncodeFields(fields, m, k).value| < TWO32
    ensures DecodeMessage(fields, EncodeFields(fields, m, k).value)
         == if PrefixTerminated(fields, m, k) && (forall i :: k <= i < |fields| ==> !Tracked(fields, i))
            then Some(Message(m.slots[..k] + Default(fields).slots[k..])) else None
  {
    hide EncodeFields, EncodeSlot, ShapedSlot, SlotTerminated, ValidField, PrefixTerminated, RequiredBefore;
    var b := EncodeFields(fields, m, k).value;
    assert b + [] == b;
    PrefixDecodes(fields, m, k, []);
    AllSeenIff(fields, m, k);
  }

  // ---------------------------------------------------------------------------------------------
  // Any bytes
  // ---------------------------------------------------------------------------------------------

  /** C can declare the storage: integers have a width, strings room for a terminator. */
  predicate Storable(l: LType)
    decreases l
  {
    match l
    case Varint(w) => ValidWidth(w)
    case Uvarint(w) => ValidWidth(w)
    case Svarint(w) => ValidWidth(w)
    case StringType(size) => size > 0
    case Submessage(fields) => AllStorable(fields)
    case _ => true
  }

  predicate AllStorable(fields: Fields)
    decreases fields
  {
    forall i :: 0 <= i < |fields| ==> StorableField(fields[i])
  }

  predicate StorableField(f: Field)
    decreases f
  {
    Storable(f.ltype)
  }

  /** The storage of an item holds the value, a terminator included. */
  predicate HasRoom(l: LType, v: Value)
    decreases l
  {
    match l
    case BytesType(size) => v.Blob? && |v.bytes| <= size
    case StringType(size) => v.Blob? && |v.bytes| < size
    case Submessage(fields) => v.Sub? && AllHaveRoom(fields, v.message)
    case _ => true
  }

  predicate SlotHasRoom(f: Field, s: Slot)
    decreases f
  {
    && (f.htype.Repeated? ==> |s.items| <= f.htype.arraySize)
    && forall v :: v in s.items ==> HasRoom(f.ltype, v)
  }

  predicate AllHaveRoom(fields: Fields, m: Message)
    decreases fields
  {
    |m.slots| == |fields| && forall i :: 0 <= i < |fields| ==> SlotHasRoom(fields[i], m.slots[i])
  }

  /** Within the struct: of a type's shape, within its sizes, and at most one member of each union. */
  predicate Within(fields: Fields, m: Message) {
    Shaped(fields, m) && AllHaveRoom(fields, m)
  }

  predicate ItemWithin(l: LType, v: Value) {
    ShapedItem(l, v) && HasRoom(l, v)
  }

  predicate SlotWithin(f: Field, s: Slot) {
    ShapedSlot(f, s) && SlotHasRoom(f, s)
  }

  lemma {:induction false} DefaultItemWithin(l: LType)
    requires Storable(l)
    ensures ItemWithin(l, DefaultItem(l))
    decreases l
  {
    match l
    case Submessage(fields) => DefaultWithin(fields);
    case _ =>
  }

  lemma {:induction false} DefaultWithin(fields: Fields)
    requires AllStorable(fields)
    ensures Within(fields, Default(fields))
    decreases fields
  {
    hide ShapedItem, HasRoom, DefaultItem;
    forall i | 0 <= i < |fields| ensures SlotWithin(fields[i], Default(fields).slots[i]) {
      assert StorableField(fields[i]);
      FieldDefaultWithin(fields[i]);
    }
  }

  lemma {:induction false} FieldDefaultWithin(f: Field)
    requires StorableField(f)
    ensures SlotWithin(f, DefaultSlot(f))
    decreases f
  {
    hide ShapedItem, HasRoom, DefaultItem, Storable;
    DefaultItemWithin(f.ltype);
  }

  lemma {:induction false} CStringIsClean(b: Bytes)
    ensures |CString(b)| <= |b| && forall i :: 0 <= i < |CString(b)| ==> CString(b)[i] != 0
  {
    if b != [] && b[0] != 0 {
      CStringIsClean(b[1..]);
    }
  }

  lemma {:induction false} ScalarWithin(l: LType, b: Bytes)
    requires !l.Submessage? && Storable(l) && DecodeScalar(l, b).Some?
    ensures ItemWithin(l, DecodeScalar(l, b).value.0)
  {
    hide ReadVarint32, ReadVarint64, Substream, Signed, Unzigzag, CString;
    match l
    case StringType(size) =>
      CStringIsClean(Substream(b).value.0);
    case _ =>
  }

  lemma {:induction false} PackedWithin(l: LType, part: Bytes, items: seq<Value>, arraySize: nat)
    requires Packable(l) && Storable(l) && |items| <= arraySize && (forall v :: v in items ==> ItemWithin(l, v))
    requires DecodePacked(l, part, items, arraySize).Some?
    ensures var r := DecodePacked(l, part, items, arraySize).value; |r| <= arraySize && forall v :: v in r ==> ItemWithin(l, v)
    decreases |part|
  {
    hide DecodeScalar, ItemWithin;
    if part != [] {
      var (v, rest) := DecodeScalar(l, part).value;
      ScalarWithin(l, part);
      PackedWithin(l, rest, items + [v], arraySize);
    }
  }

  lemma {:induction false} ItemWithinStruct(l: LType, b: Bytes, held: Value)
    requires Storable(l) && ItemWithin(l, held) && DecodeItem(l, b, held).Some?
    ensures ItemWithin(l, DecodeItem(l, b, held).value.0)
    decreases |b|, 1
  {
    match l
    case Submessage(fields) =>
      hide Substream, DecodeNoInit, AllStorable;
      MessageWithin(fields, Substream(b).value.0, held.message);
    case _ =>
      ScalarWithin(l, b);
  }

  /** One slot takes the new value, and of its union only that one keeps any. */
  lemma {:induction false} ReplacedWithin(fields: Fields, slots: seq<Slot>, i: nat, s: Slot)
    requires Within(fields, Message(slots)) && i < |fields| && SlotWithin(fields[i], s)
    ensures Within(fields, Message(ClearUnion(fields, slots, i)[i := s]))
  {
    hide ShapedItem, HasRoom;
    var next := ClearUnion(fields, slots, i)[i := s];
    forall j | 0 <= j < |fields| ensures SlotWithin(fields[j], next[j]) {
      assert SlotWithin(fields[j], slots[j]);
    }
  }

  lemma {:induction false} RepeatedWithin(fields: Fields, slots: seq<Slot>, i: nat, s: Slot)
    requires Within(fields, Message(slots)) && i < |fields| && SlotWithin(fields[i], s) && fields[i].htype.Repeated?
    ensures Within(fields, Message(slots[i := s]))
  {
    hide ShapedItem, HasRoom;
    var next := slots[i := s];
    forall j | 0 <= j < |fields| ensures SlotWithin(fields[j], next[j]) {
      assert SlotWithin(fields[j], slots[j]);
    }
  }

  lemma {:induction false} FieldWithin(fields: Fields, i: nat, wireType: nat, b: Bytes, slots: seq<Slot>)
    requires AllStorable(fields) && Within(fields, Message(slots)) && i < |fields|
    requires DecodeField(fields, i, wireType, b, slots).Some?
    ensures Within(fields, Message(DecodeField(fields, i, wireType, b, slots).value.0))
    decreases |b|, 2
  {
    hide Substream, DecodeItem, DecodePacked, DefaultItem, ShapedItem, HasRoom, Storable, ClearUnion, Within;
    SlotOf(fields, slots, i);
    var f, held := fields[i], slots[i].items;
    assert StorableField(f);
    DefaultItemWithin(f.ltype);
    if f.htype.Repeated? {
      if wireType == WT_STRING && Packable(f.ltype) {
        var (part, rest) := Substream(b).value;
        PackedWithin(f.ltype, part, held, f.htype.arraySize);
        RepeatedWithin(fields, slots, i, Slot(DecodePacked(f.ltype, part, held, f.htype.arraySize).value));
      } else {
        ItemWithinStruct(f.ltype, b, DefaultItem(f.ltype));
        RepeatedWithin(fields, slots, i, Slot(held + [DecodeItem(f.ltype, b, DefaultItem(f.ltype)).value.0]));
      }
    } else {
      var before := if held == [] then DefaultItem(f.ltype) else held[0];
      ItemWithinStruct(f.ltype, b, before);
      ReplacedWithin(fields, slots, i, Slot([DecodeItem(f.ltype, b, before).value.0]));
    }
  }

  lemma {:induction false} SlotOf(fields: Fields, slots: seq<Slot>, i: nat)
    requires Within(fields, Message(slots)) && i < |fields|
    ensures |slots| == |fields| && SlotWithin(fields[i], slots[i])
  {
  }

  lemma {:induction false} LoopWithin(fields: Fields, b: Bytes, m: Message, seen: set<nat>)
    requires AllStorable(fields) && Within(fields, m) && DecodeLoop(fields, b, m, seen).Some?
    ensures Within(fields, DecodeLoop(fields, b, m, seen).value.0)
    decreases |b|, 3
  {
    hide DecodeScalar, DecodeField, SkipField, FindField, ReadVarint32, AllStorable, Shaped, AllHaveRoom;
    SlotCount(fields, m);
    if b != [] {
      var (temp, n) := ReadVarint32(b).value;
      if temp == 0 {
      } else if fields == [] && temp / 8 == 0 {
        LoopWithin(fields, DecodeScalar(Bool, b[n..]).value.1, m, seen);
      } else {
        var i := FindField(fields, temp / 8);
        if i == |fields| {
          LoopWithin(fields, SkipField(temp % 8, b[n..]).value, m, seen);
        } else {
          var (slots, rest) := DecodeField(fields, i, temp % 8, b[n..], m.slots).value;
          FieldWithin(fields, i, temp % 8, b[n..], m.slots);
          LoopWithin(fields, rest, Message(slots), seen + {i});
        }
      }
    }
  }

  /** Whatever the bytes, what is decoded stays within the struct. */
  lemma {:induction false} MessageWithin(fields: Fields, b: Bytes, m: Message)
    requires AllStorable(fields) && Within(fields, m) && DecodeNoInit(fields, b, m).Some?
    ensures Within(fields, DecodeNoInit(fields, b, m).value)
    decreases |b|, 4
  {
    hide DecodeLoop, AllStorable, Within, AllRequiredSeen;
    LoopWithin(fields, b, m, {});
  }

  lemma {:induction false} ItemEncodes(l: LType, v: Value)
    requires ItemWithin(l, v)
    ensures EncodeItem(l, v).Some? && Terminated(l, v)
    decreases l, 0
  {
    match l
    case Submessage(fields) =>
      MessageEncodes(fields, v.message, |fields|);
    case _ =>
  }

  lemma {:induction false} ItemsEncode(l: LType, prefix: Bytes, items: seq<Value>, n: nat)
    requires n <= |items| && (forall v :: v in items ==> ItemWithin(l, v))
    ensures forall v :: v in items ==> ShapedItem(l, v)
    ensures EncodeItems(l, prefix, items, n).Some?
    decreases l, 1 + n
  {
    hide EncodeItem, ShapedItem, HasRoom;
    if n > 0 {
      ItemsEncode(l, prefix, items, n - 1);
      ItemEncodes(l, items[n - 1]);
    }
  }

  lemma {:induction false} SlotEncodes(f: Field, s: Slot)
    requires SlotWithin(f, s)
    ensures EncodeSlot(f, s).Some? && SlotTerminated(f, s)
    decreases f, 1
  {
    hide EncodeItem, EncodeItems, ShapedItem, HasRoom, Terminated, TagBytes, LengthPrefixed, IsDefaultItem;
    forall k | 0 <= k < |s.items| ensures ItemWithin(f.ltype, s.items[k]) && EncodeItem(f.ltype, s.items[k]).Some? && Terminated(f.ltype, s.items[k]) {
      ItemEncodes(f.ltype, s.items[k]);
    }
    if f.htype.Repeated? {
      ItemsEncode(f.ltype, [], s.items, |s.items|);
      ItemsEncode(f.ltype, TagBytes(WireType(f.ltype), f.tag), s.items, |s.items|);
    }
  }

  lemma {:induction false} MessageEncodes(fields: Fields, m: Message, n: nat)
    requires Within(fields, m) && n <= |fields|
    ensures EncodeFields(fields, m, n).Some? && PrefixTerminated(fields, m, n)
    decreases fields, n
  {
    hide EncodeSlot, ShapedSlot, SlotHasRoom, SlotTerminated;
    if n > 0 {
      MessageEncodes(fields, m, n - 1);
      SlotEncodes(fields[n - 1], m.slots[n - 1]);
    }
  }

  /** What any bytes decode to can be encoded, and encoding it and decoding again gives the same message. */
  lemma {:induction false} DecodedComesBack(fields: Fields, b: Bytes)
    requires ValidFields(fields) && AllStorable(fields) && DecodeMessage(fields, b).Some?
    ensures Within(fields, DecodeMessage(fields, b).value)
    ensures EncodeMessage(fields, DecodeMessage(fields, b).value).Some?
    ensures var e := EncodeMessage(fields, DecodeMessage(fields, b).value).value;
            |e| < TWO32 ==> DecodeMessage(fields, e) == DecodeMessage(fields, b)
  {
    hide DecodeNoInit, EncodeFields, ValidFields, AllStorable, AllHaveRoom, SlotTerminated;
    DefaultWithin(fields);
    MessageWithin(fields, b, Default(fields));
    var m := DecodeMessage(fields, b).value;
    MessageEncodes(fields, m, |fields|);
    if |EncodeMessage(fields, m).value| < TWO32 {
      MessageRoundTrip(fields, m);
    }
  }
}
