/**
 The encoder over an output stream (pb_encode.c): every submessage and every packed array is encoded twice,
 once into a stream that only counts.
 */
module PbEncoder {
  import opened Keys
  import opened Version
  import opened Coding
  import opened PbSchema
  import opened PbEncode

  /** How far a stream has come. */
  datatype Progress = Progress(written: nat, output: Bytes)

  /** From one point to the next a stream took the bytes; it fails just when there are none or they do not fit. */
  ghost predicate Took(sizing: bool, maxSize: nat, from: Progress, to: Progress, b: Option<Bytes>, ok: bool) {
    && (sizing || to.written <= maxSize)
    && (ok <==> b.Some? && (sizing || from.written + |b.value| <= maxSize))
    && (ok ==> to.written == from.written + |b.value| && (!sizing ==> to.output == from.output + b.value))
  }

  lemma {:induction false} TookBoth(sizing: bool, maxSize: nat, x: Progress, y: Progress, z: Progress,
                                    a: Option<Bytes>, b: Option<Bytes>, ok: bool)
    requires Took(sizing, maxSize, x, y, a, true) && Took(sizing, maxSize, y, z, b, ok)
    ensures Took(sizing, maxSize, x, z, Join(a, b), ok)
  {
  }

  lemma {:induction false} TookNeither(sizing: bool, maxSize: nat, x: Progress, y: Progress, a: Option<Bytes>, b: Option<Bytes>)
    requires Took(sizing, maxSize, x, y, a, false)
    ensures Took(sizing, maxSize, x, y, Join(a, b), false)
  {
  }

  /** When a part does not fit, the whole does not. */
  lemma {:induction false} TookTooFew(sizing: bool, maxSize: nat, x: Progress, y: Progress, a: Option<Bytes>, b: Option<Bytes>)
    requires Took(sizing, maxSize, x, y, a, false) && (b.Some? ==> a.Some? && |a.value| <= |b.value|)
    ensures Took(sizing, maxSize, x, y, b, false)
  {
  }

  lemma {:induction false} FieldsGrow(fields: Fields, m: Message, i: nat, n: nat)
    requires Shaped(fields, m) && i <= n <= |fields|
    ensures var a, b := EncodeFields(fields, m, i), EncodeFields(fields, m, n); b.Some? ==> a.Some? && |a.value| <= |b.value|
    decreases n
  {
    hide EncodeSlot;
    if i < n {
      FieldsGrow(fields, m, i, n - 1);
    }
  }

  lemma {:induction false} ItemsGrow(l: LType, prefix: Bytes, items: seq<Value>, i: nat, n: nat)
    requires i <= n <= |items| && forall v :: v in items ==> ShapedItem(l, v)
    ensures var a, b := EncodeItems(l, prefix, items, i), EncodeItems(l, prefix, items, n);
            b.Some? ==> a.Some? && |a.value| <= |b.value|
    decreases n
  {
    hide EncodeItem;
    if i < n {
      ItemsGrow(l, prefix, items, i, n - 1);
    }
  }

  /** The buffer when its last byte has lost the top bit. */
  function Terminated(buffer: Bytes): Bytes {
    if buffer == [] || buffer[|buffer| - 1] < 128 then buffer
    else buffer[|buffer| - 1 := buffer[|buffer| - 1] - 128]
  }

  lemma {:induction false} VarintOfOne(value: nat)
    requires value < 128
    ensures Coding.Varint(value) == [value]
  {
  }

  /** One more group of seven bits in the buffer. */
  lemma {:induction false} GroupAdded(buffer: Bytes, value: nat)
    requires value > 0
    ensures var more := buffer + [value % 128 + 128];
            buffer + Coding.Varint(value) == if value >= 128 then more + Coding.Varint(value / 128) else Terminated(more)
  {
    var more := buffer + [value % 128 + 128];
    if value < 128 {
      assert Terminated(more) == buffer + [value];
    } else {
      assert buffer + ([value % 128 + 128] + Coding.Varint(value / 128)) == more + Coding.Varint(value / 128);
    }
  }

  class OStream {
    /** A stream without a callback only counts (PB_OSTREAM_SIZING). */
    const sizing: bool
    const maxSize: nat
    var bytesWritten: nat
    /** What the callback has received. */
    var output: Bytes

    ghost predicate Ok()
      reads this
    {
      sizing || bytesWritten <= maxSize
    }

    ghost function At(): Progress
      reads this
    {
      Progress(bytesWritten, output)
    }

    constructor (sizing: bool, maxSize: nat, output: Bytes)
      ensures Ok() && this.sizing == sizing && this.maxSize == maxSize && bytesWritten == 0 && this.output == output
    {
      this.sizing, this.maxSize := sizing, maxSize;
      bytesWritten, this.output := 0, output;
    }

    /** pb_write. */
    method Write(b: Bytes) returns (ok: bool)
      requires Ok()
      modifies this
      ensures Took(sizing, maxSize, old(At()), At(), Some(b), ok)
    {
      if |b| > 0 && !sizing {
        if bytesWritten + |b| > maxSize {
          return false;
        }
        output := output + b;
      }
      bytesWritten := bytesWritten + |b|;
      return true;
    }

    /** pb_write without a buffer, on a stream that only counts. */
    method Count(n: nat)
      requires Ok() && sizing
      modifies this
      ensures Ok() && bytesWritten == old(bytesWritten) + n
    {
      bytesWritten := bytesWritten + n;
    }

    /** pb_encode_varint; the last byte loses its top bit after the loop. */
    method WriteVarint(value0: nat) returns (ok: bool)
      requires Ok()
      modifies this
      ensures Took(sizing, maxSize, old(At()), At(), Some(Coding.Varint(value0)), ok)
    {
      hide Coding.Varint;
      if value0 <= 0x7f {
        VarintOfOne(value0);
        ok := Write([value0]);
        return;
      }
      var value: nat, buffer: Bytes := value0, [];
      assert [] + Coding.Varint(value0) == Coding.Varint(value0);
      while value > 0
        invariant Ok() && At() == old(At())
        invariant value == 0 ==> buffer != [] && buffer[|buffer| - 1] >= 128
        invariant Coding.Varint(value0) == if value > 0 then buffer + Coding.Varint(value) else Terminated(buffer)
      {
        GroupAdded(buffer, value);
        buffer := buffer + [value % 128 + 128];
        value := value / 128;
      }
      buffer := buffer[|buffer| - 1 := buffer[|buffer| - 1] - 128];
      ok := Write(buffer);
    }
  }

  // ---------------------------------------------------------------------------------------------
  // Tags and items
  // ---------------------------------------------------------------------------------------------

  /** pb_encode_tag. */
  method WriteTag(s: OStream, wireType: nat, tag: nat) returns (ok: bool)
    requires s.Ok()
    modifies s
    ensures Took(s.sizing, s.maxSize, old(s.At()), s.At(), Some(TagBytes(wireType, tag)), ok)
  {
    ok := s.WriteVarint(tag * 8 + wireType);
  }

  /** pb_encode_string. */
  method WriteString(s: OStream, b: Bytes) returns (ok: bool)
    requires s.Ok()
    modifies s
    ensures Took(s.sizing, s.maxSize, old(s.At()), s.At(), Some(LengthPrefixed(b)), ok)
  {
    hide Coding.Varint;
    ghost var x := s.At();
    ok := s.WriteVarint(|b|);
    ghost var y := s.At();
    if !ok {
      TookNeither(s.sizing, s.maxSize, x, y, Some(Coding.Varint(|b|)), Some(b));
      return;
    }
    ok := s.Write(b);
    TookBoth(s.sizing, s.maxSize, x, y, s.At(), Some(Coding.Varint(|b|)), Some(b), ok);
  }

  /** The field encoders. */
  method WriteItem(s: OStream, l: LType, v: Value) returns (ok: bool)
    requires s.Ok() && ShapedItem(l, v)
    modifies s
    ensures Took(s.sizing, s.maxSize, old(s.At()), s.At(), EncodeItem(l, v), ok)
    decreases l, 0, 0, 0
  {
    match l
    case Bool => ok := s.WriteVarint(v.n);
    case Varint(_) => ok := s.WriteVarint(Unsigned(v.n));
    case Uvarint(_) => ok := s.WriteVarint(v.n);
    case Svarint(_) => ok := s.WriteVarint(Zigzag(v.n));
    case Fixed32 => ok := s.Write(EncodeFixed32(v.n));
    case Fixed64 => ok := s.Write(EncodeFixed64(v.n));
    case BytesType(size) =>
      if |v.bytes| > size {
        return false;
      }
      ok := WriteString(s, v.bytes);
    case StringType(_) => ok := WriteString(s, v.bytes);
    case FixedLengthBytes(_) => ok := WriteString(s, v.bytes);
    case Submessage(fields) => ok := WriteSubmessage(s, fields, v.message);
  }

  /** pb_encode_submessage: count first, then write exactly that many bytes. */
  method WriteSubmessage(s: OStream, fields: Fields, m: Message) returns (ok: bool)
    requires s.Ok() && Shaped(fields, m)
    modifies s
    ensures Took(s.sizing, s.maxSize, old(s.At()), s.At(),
                 match EncodeMessage(fields, m) case None => None case Some(b) => Some(LengthPrefixed(b)), ok)
    decreases fields, |fields| + 1, 1, 0
  {
    hide Shaped, EncodeMessage, Coding.Varint;
    ghost var x := s.At();
    var sizer := new OStream(true, 0, []);
    ok := WriteMessage(sizer, fields, m);
    if !ok {
      return;
    }
    var size := sizer.bytesWritten;
    ghost var b := EncodeMessage(fields, m).value;
    ok := s.WriteVarint(size);
    ghost var y := s.At();
    if !ok {
      TookNeither(s.sizing, s.maxSize, x, y, Some(Coding.Varint(size)), Some(b));
      return;
    }
    if s.sizing {
      s.Count(size);
      TookBoth(s.sizing, s.maxSize, x, y, s.At(), Some(Coding.Varint(size)), Some(b), ok);
      return;
    }
    if s.bytesWritten + size > s.maxSize {
      TookBoth(s.sizing, s.maxSize, x, y, y, Some(Coding.Varint(size)), Some(b), false);
      return false;
    }
    var substream := new OStream(false, size, s.output);
    var status := WriteMessage(substream, fields, m);
    s.bytesWritten := s.bytesWritten + substream.bytesWritten;
    s.output := substream.output;
    if substream.bytesWritten != size {
      // The source reports "submsg size changed" here.
      assert false;
    }
    ok := status;
    TookBoth(s.sizing, s.maxSize, x, y, s.At(), Some(Coding.Varint(size)), Some(b), ok);
  }

  /** pb_encode. */
  method WriteMessage(s: OStream, fields: Fields, m: Message) returns (ok: bool)
    requires s.Ok() && Shaped(fields, m)
    modifies s
    ensures Took(s.sizing, s.maxSize, old(s.At()), s.At(), EncodeMessage(fields, m), ok)
    decreases fields, |fields| + 1, 0, 0
  {
    ok := true;
    var i := 0;
    while i < |fields|
      invariant i <= |fields| && s.Ok() && ok
      invariant Took(s.sizing, s.maxSize, old(s.At()), s.At(), EncodeFields(fields, m, i), true)
    {
      ghost var y := s.At();
      ok := WriteField(s, fields[i], m.slots[i]);
      TookBoth(s.sizing, s.maxSize, old(s.At()), y, s.At(), EncodeFields(fields, m, i), EncodeSlot(fields[i], m.slots[i]), ok);
      if !ok {
        FieldsGrow(fields, m, i + 1, |fields|);
        TookTooFew(s.sizing, s.maxSize, old(s.At()), s.At(), EncodeFields(fields, m, i + 1), EncodeMessage(fields, m));
        return;
      }
      i := i + 1;
    }
  }

  method WriteField(s: OStream, f: Field, slot: Slot) returns (ok: bool)
    requires s.Ok() && ShapedSlot(f, slot)
    modifies s
    ensures Took(s.sizing, s.maxSize, old(s.At()), s.At(), EncodeSlot(f, slot), ok)
    decreases f, 2, 0, 0
  {
    if f.htype.Repeated? {
      ok := WriteArray(s, f, slot.items);
    } else if slot.items == [] || (f.htype.Singular? && IsDefaultItem(f.ltype, slot.items[0])) {
      ok := true;
    } else {
      ok := WriteTagged(s, f, slot.items[0]);
    }
  }

  /** The tag of a field and one item. */
  method WriteTagged(s: OStream, f: Field, v: Value) returns (ok: bool)
    requires s.Ok() && ShapedItem(f.ltype, v)
    modifies s
    ensures Took(s.sizing, s.maxSize, old(s.At()), s.At(),
                 Join(Some(TagBytes(WireType(f.ltype), f.tag)), EncodeItem(f.ltype, v)), ok)
    decreases f, 0, 0, 0
  {
    hide TagBytes, EncodeItem, ShapedItem;
    ghost var x := s.At();
    ok := WriteTag(s, WireType(f.ltype), f.tag);
    ghost var y := s.At();
    if !ok {
      TookNeither(s.sizing, s.maxSize, x, y, Some(TagBytes(WireType(f.ltype), f.tag)), EncodeItem(f.ltype, v));
      return;
    }
    ok := WriteItem(s, f.ltype, v);
    TookBoth(s.sizing, s.maxSize, x, y, s.At(), Some(TagBytes(WireType(f.ltype), f.tag)), EncodeItem(f.ltype, v), ok);
  }

  /** encode_array. */
  method WriteArray(s: OStream, f: Field, items: seq<Value>) returns (ok: bool)
    requires s.Ok() && f.htype.Repeated? && forall v :: v in items ==> ShapedItem(f.ltype, v)
    modifies s
    ensures Took(s.sizing, s.maxSize, old(s.At()), s.At(), EncodeArray(f, items), ok)
    decreases f, 1, 1, 0
  {
    hide ShapedItem;
    if items == [] {
      return true;
    }
    if |items| > f.htype.arraySize {
      return false;
    }
    if Packable(f.ltype) {
      ok := WritePacked(s, f, items);
    } else {
      ok := WriteUnpacked(s, f, items);
    }
  }

  method WriteUnpacked(s: OStream, f: Field, items: seq<Value>) returns (ok: bool)
    requires s.Ok() && forall v :: v in items ==> ShapedItem(f.ltype, v)
    modifies s
    ensures Took(s.sizing, s.maxSize, old(s.At()), s.At(),
                 EncodeItems(f.ltype, TagBytes(WireType(f.ltype), f.tag), items, |items|), ok)
    decreases f, 1, 0, 0
  {
    hide TagBytes, EncodeItem, ShapedItem;
    ghost var tag := TagBytes(WireType(f.ltype), f.tag);
    var i := 0;
    while i < |items|
      invariant i <= |items| && s.Ok()
      invariant Took(s.sizing, s.maxSize, old(s.At()), s.At(), EncodeItems(f.ltype, tag, items, i), true)
    {
      ghost var y := s.At();
      ok := WriteTagged(s, f, items[i]);
      TookBoth(s.sizing, s.maxSize, old(s.At()), y, s.At(), EncodeItems(f.ltype, tag, items, i),
               Join(Some(tag), EncodeItem(f.ltype, items[i])), ok);
      if !ok {
        ItemsGrow(f.ltype, tag, items, i + 1, |items|);
        TookTooFew(s.sizing, s.maxSize, old(s.At()), s.At(), EncodeItems(f.ltype, tag, items, i + 1),
                   EncodeItems(f.ltype, tag, items, |items|));
        return;
      }
      i := i + 1;
    }
    return true;
  }

  /** The items of a packed array, behind their tag and their size. */
  method WritePacked(s: OStream, f: Field, items: seq<Value>) returns (ok: bool)
    requires s.Ok() && Packable(f.ltype) && forall v :: v in items ==> ShapedItem(f.ltype, v)
    modifies s
    ensures Took(s.sizing, s.maxSize, old(s.At()), s.At(),
                 match EncodeItems(f.ltype, [], items, |items|)
                 case None => None
                 case Some(b) => Some(TagBytes(WT_STRING, f.tag) + LengthPrefixed(b)), ok)
    decreases f, 1, 0, 0
  {
    hide TagBytes, EncodeItem, ShapedItem, Coding.Varint, EncodeItems;
    NumbersEncode(f.ltype, items, |items|);
    ghost var b := EncodeItems(f.ltype, [], items, |items|).value;
    ghost var x := s.At();
    ok := WriteTag(s, WT_STRING, f.tag);
    ghost var y := s.At();
    if !ok {
      TookNeither(s.sizing, s.maxSize, x, y, Some(TagBytes(WT_STRING, f.tag)), Some(LengthPrefixed(b)));
      return;
    }
    var size := PackedSize(f.ltype, items);
    ok := s.WriteVarint(size);
    ghost var z := s.At();
    if !ok {
      TookNeither(s.sizing, s.maxSize, y, z, Some(Coding.Varint(size)), Some(b));
      TookBoth(s.sizing, s.maxSize, x, y, z, Some(TagBytes(WT_STRING, f.tag)), Some(LengthPrefixed(b)), false);
      return;
    }
    if s.sizing {
      s.Count(size);
    } else {
      ok := WriteItems(s, f.ltype, items);
    }
    TookBoth(s.sizing, s.maxSize, y, z, s.At(), Some(Coding.Varint(size)), Some(b), ok);
    TookBoth(s.sizing, s.maxSize, x, y, s.At(), Some(TagBytes(WT_STRING, f.tag)), Some(LengthPrefixed(b)), ok);
  }

  /** The total size of a packed array, counted when the items differ in size. */
  method PackedSize(l: LType, items: seq<Value>) returns (size: nat)
    requires Packable(l) && forall v :: v in items ==> ShapedItem(l, v)
    ensures EncodeItems(l, [], items, |items|).Some? && size == |EncodeItems(l, [], items, |items|).value|
    decreases l, 2, 0, 0
  {
    NumbersEncode(l, items, |items|);
    if l.Fixed32? {
      size := 4 * |items|;
    } else if l.Fixed64? {
      size := 8 * |items|;
    } else {
      var sizer := new OStream(true, 0, []);
      var ok := WriteItems(sizer, l, items);
      size := sizer.bytesWritten;
    }
  }

  method WriteItems(s: OStream, l: LType, items: seq<Value>) returns (ok: bool)
    requires s.Ok() && Packable(l) && forall v :: v in items ==> ShapedItem(l, v)
    modifies s
    ensures Took(s.sizing, s.maxSize, old(s.At()), s.At(), EncodeItems(l, [], items, |items|), ok)
    decreases l, 1, 0, 0
  {
    hide EncodeItem, ShapedItem;
    var i := 0;
    while i < |items|
      invariant i <= |items| && s.Ok()
      invariant Took(s.sizing, s.maxSize, old(s.At()), s.At(), EncodeItems(l, [], items, i), true)
    {
      ghost var y := s.At();
      ok := WriteItem(s, l, items[i]);
      JoinNothing(EncodeItem(l, items[i]));
      TookBoth(s.sizing, s.maxSize, old(s.At()), y, s.At(), EncodeItems(l, [], items, i), EncodeItem(l, items[i]), ok);
      if !ok {
        ItemsGrow(l, [], items, i + 1, |items|);
        TookTooFew(s.sizing, s.maxSize, old(s.At()), s.At(), EncodeItems(l, [], items, i + 1), EncodeItems(l, [], items, |items|));
        return;
      }
      i := i + 1;
    }
    return true;
  }

  lemma {:induction false} JoinNothing(b: Option<Bytes>)
    ensures Join(Some([]), b) == b
  {
    if b.Some? {
      assert [] + b.value == b.value;
    }
  }

  /** Numbers always encode; fixed-width ones to their width. */
  lemma {:induction false} NumbersEncode(l: LType, items: seq<Value>, n: nat)
    requires Packable(l) && n <= |items| && forall v :: v in items ==> ShapedItem(l, v)
    ensures EncodeItems(l, [], items, n).Some?
    ensures l.Fixed32? ==> |EncodeItems(l, [], items, n).value| == 4 * n
    ensures l.Fixed64? ==> |EncodeItems(l, [], items, n).value| == 8 * n
  {
    if n > 0 {
      NumbersEncode(l, items, n - 1);
      assert EncodeItem(l, items[n - 1]).Some?;
    }
  }
}
