/** The decoder over an input stream (pb_decode.c) and the cyclic field iterator (pb_common.c). */
module PbDecoder {
  import opened Keys
  import opened Version
  import opened Coding
  import opened Crc32c
  import opened PbSchema
  import opened PbEncode
  import opened PbDecode

  // ---------------------------------------------------------------------------------------------
  // The input stream
  // ---------------------------------------------------------------------------------------------

  class IStream {
    /** The bytes left; bytes_left is their number. */
    var left: Bytes

    constructor (b: Bytes)
      ensures left == b
    {
      left := b;
    }

    /** pb_readbyte. */
    method ReadByte() returns (r: Option<Byte>)
      modifies this
      ensures old(left) == [] ==> r == None && left == []
      ensures old(left) != [] ==> r == Some(old(left)[0]) && left == old(left)[1..]
    {
      if left == [] {
        return None;
      }
      r := Some(left[0]);
      left := left[1..];
    }

    /** pb_read. */
    method Read(count: nat) returns (r: Option<Bytes>)
      modifies this
      ensures |old(left)| < count ==> r == None && left == old(left)
      ensures |old(left)| >= count ==> r == Some(old(left)[..count]) && left == old(left)[count..]
    {
      if |left| < count {
        return None;
      }
      r := Some(left[..count]);
      left := left[count..];
    }

    /** What a reader of the stream must return and leave, given what there is to read. */
    ghost predicate After<T(!new)>(spec: Option<(T, nat)>, before: Bytes, r: Option<T>)
      reads this
    {
      match spec
      case None => r == None
      case Some((v, n)) => n <= |before| && r == Some(v) && left == before[n..]
    }

    /** pb_decode_varint. */
    method DecodeVarint() returns (r: Option<nat>)
      modifies this
      ensures After(ReadVarint64(old(left)), old(left), r)
    {
      hide ReadVarint, Moved;
      var bitpos: nat, result: nat, shift: nat := 0, 0, 1;
      ghost var before, k: nat := left, 0;
      MovesNot(before, 10);
      while true
        invariant bitpos == 7 * k && k <= 10 && k <= |before| && left == before[k..]
        invariant ReadVarint(before, 10) == Moved(ReadVarint(left, 10 - k), result, shift, k)
        decreases 10 - k
      {
        MovesNowhere(left, 10 - k, result, shift, k);
        if bitpos >= 64 {
          return None;
        }
        var byte := ReadByte();
        if byte == None {
          return None;
        }
        assert before[k..][1..] == before[k + 1..];
        MovesOn(before[k..], 10 - k, result, shift, k);
        result := result + byte.value % 128 * shift;
        shift := shift * 128;
        bitpos := bitpos + 7;
        k := k + 1;
        if byte.value < 128 {
          return Some(if result < TWO64 then result else result % TWO64);
        }
      }
    }

    /** pb_decode_varint32. */
    method DecodeVarint32() returns (r: Option<nat>)
      modifies this
      ensures After(ReadVarint32(old(left)), old(left), r)
    {
      hide ReadMore32, Later, OrDigit;
      ghost var before := left;
      var first := ReadByte();
      if first == None {
        return None;
      }
      if first.value < 128 {
        return first;
      }
      var bitpos: nat, result: nat := 7, first.value - 128;
      ghost var k: nat := 1;
      LaterStarts(before);
      while true
        invariant 1 <= k <= |before| && left == before[k..] && result < TWO32
        invariant ReadVarint32(before) == Later(ReadMore32(left, bitpos, result), k)
        decreases |left|
      {
        LaterGoesOn(left, bitpos, result, k);
        var next := ReadByte();
        if next == None {
          return None;
        }
        var byte := next.value;
        if bitpos >= 32 {
          var signExtension := if bitpos < 63 then 0xff else 0x01;
          if byte % 128 != 0 && (result < TWO32 / 2 || byte != signExtension) {
            return None;
          }
        } else {
          result := OrDigit(result, byte % 128, bitpos);
        }
        bitpos, k := (bitpos + 7) % 256, k + 1;
        if byte < 128 {
          if bitpos == 35 && byte / 16 % 8 != 0 {
            return None;
          }
          return Some(result);
        }
      }
    }

    /** pb_make_string_substream; the parent goes on behind the part at once. */
    method MakeSubstream() returns (substream: Option<IStream>)
      modifies this
      ensures match Substream(old(left))
              case None => substream == None
              case Some((part, rest)) =>
                && substream.Some? && fresh(substream.value) && substream.value.left == part && left == rest
    {
      hide ReadVarint32;
      ghost var before := left;
      var size := DecodeVarint32();
      if size == None {
        return None;
      }
      if |left| < size.value {
        return None;
      }
      var part := left[..size.value];
      var s := new IStream(part);
      left := left[size.value..];
      return Some(s);
    }

    /** pb_skip_varint. */
    method SkipVarintBytes() returns (ok: bool)
      modifies this
      ensures SkipVarint(old(left)) == if ok then Some(left) else None
    {
      while true
        invariant SkipVarint(old(left)) == SkipVarint(left)
        decreases |left|
      {
        var byte := ReadByte();
        if byte == None {
          return false;
        }
        if byte.value < 128 {
          return true;
        }
      }
    }

    /** pb_skip_field. */
    method Skip(wireType: nat) returns (ok: bool)
      modifies this
      ensures SkipField(wireType, old(left)) == if ok then Some(left) else None
    {
      hide Substream, SkipVarint;
      if wireType == WT_VARINT {
        ok := SkipVarintBytes();
      } else if wireType == WT_64BIT {
        var r := Read(8);
        ok := r.Some?;
      } else if wireType == WT_STRING {
        var r := MakeSubstream();
        ok := r.Some?;
      } else if wireType == WT_32BIT {
        var r := Read(4);
        ok := r.Some?;
      } else {
        ok := false;
      }
    }
  }

  /** The first of the remaining bytes is k bytes into the varint. */
  function Later(r: Option<(nat, nat)>, k: nat): Option<(nat, nat)> {
    match r
    case None => None
    case Some((v, n)) => Some((v, n + k))
  }

  lemma {:induction false} LaterStarts(b: Bytes)
    requires b != [] && b[0] >= 128
    ensures ReadVarint32(b) == Later(ReadMore32(b[1..], 7, b[0] - 128), 1)
  {
  }

  /** One step of the loop over the bytes of a 32-bit varint. */
  lemma {:induction false} LaterGoesOn(b: Bytes, bitpos: nat, result: nat, k: nat)
    requires result < TWO32
    ensures b == [] ==> Later(ReadMore32(b, bitpos, result), k) == None
    ensures b != [] ==>
      var byte := b[0];
      var signExtension := if bitpos < 63 then 0xff else 0x01;
      var more := if bitpos >= 32 then result else OrDigit(result, byte % 128, bitpos);
      Later(ReadMore32(b, bitpos, result), k)
        == if bitpos >= 32 && byte % 128 != 0 && (result < TWO32 / 2 || byte != signExtension) then None
           else if byte >= 128 then Later(ReadMore32(b[1..], (bitpos + 7) % 256, more), k + 1)
           else if bitpos == 28 && byte / 16 % 8 != 0 then None
           else Some((more, k + 1))
  {
  }

  /** A varint that began k bytes earlier, with what those bytes gave. */
  function Moved(r: Option<(nat, nat)>, result: nat, shift: nat, k: nat): Option<(nat, nat)> {
    match r
    case None => None
    case Some((v, n)) => Some((result + v * shift, n + k))
  }

  lemma {:induction false} MovesNot(b: Bytes, groups: nat)
    ensures Moved(ReadVarint(b, groups), 0, 1, 0) == ReadVarint(b, groups)
  {
  }

  lemma {:induction false} MovesNowhere(b: Bytes, groups: nat, result: nat, shift: nat, k: nat)
    ensures groups == 0 || b == [] ==> Moved(ReadVarint(b, groups), result, shift, k) == None
  {
  }

  lemma {:induction false} MovesOn(b: Bytes, groups: nat, result: nat, shift: nat, k: nat)
    requires groups > 0 && b != []
    ensures Moved(ReadVarint(b, groups), result, shift, k)
         == if b[0] < 128 then Some((result + b[0] % 128 * shift, k + 1))
            else Moved(ReadVarint(b[1..], groups - 1), result + b[0] % 128 * shift, shift * 128, k + 1)
  {
    if b[0] >= 128 {
      match ReadVarint(b[1..], groups - 1) {
        case None =>
        case Some((v, n)) =>
          assert (b[0] - 128 + 128 * v) * shift == (b[0] - 128) * shift + v * (shift * 128);
      }
    }
  }

  // ---------------------------------------------------------------------------------------------
  // The field iterator
  // ---------------------------------------------------------------------------------------------

  class FieldIter {
    const fields: Fields
    var pos: nat
    var requiredFieldIndex: nat

    ghost predicate Ok()
      reads this
    {
      && (fields == [] ==> pos == 0)
      && (fields != [] ==> pos < |fields|)
      && requiredFieldIndex == RequiredBefore(fields, pos)
    }

    /** pb_field_iter_begin. */
    constructor (fields: Fields)
      ensures Ok() && this.fields == fields && pos == 0
    {
      this.fields := fields;
      pos, requiredFieldIndex := 0, 0;
    }

    /** pb_field_iter_next: false when it wraps around to the first field. */
    method Next() returns (more: bool)
      requires Ok()
      modifies this
      ensures Ok()
      ensures more <==> old(pos) + 1 < |fields|
      ensures pos == if more then old(pos) + 1 else 0
    {
      if fields == [] {
        return false;
      }
      if pos + 1 == |fields| {
        pos, requiredFieldIndex := 0, 0;
        return false;
      }
      if fields[pos].htype.Required? {
        requiredFieldIndex := requiredFieldIndex + 1;
      }
      pos := pos + 1;
      return true;
    }

    /** pb_field_iter_find: searches from the current field around to it again. Without fields it stands on the terminator. */
    method Find(tag: nat) returns (found: bool)
      requires Ok()
      modifies this
      ensures Ok()
      ensures if fields == [] then found <==> tag == 0
              else found <==> exists i :: 0 <= i < |fields| && fields[i].tag == tag
      ensures found && fields != [] ==> fields[pos].tag == tag
    {
      if fields == [] {
        return tag == 0;
      }
      var start := pos;
      ghost var seen: set<nat> := {};
      ghost var steps: nat := 0;
      while true
        invariant Ok() && start < |fields| && steps < |fields|
        invariant pos == (if start + steps < |fields| then start + steps else start + steps - |fields|)
        invariant forall i :: 0 <= i < |fields| && Passed(start, steps, |fields|, i) ==> fields[i].tag != tag
        decreases |fields| - steps
      {
        if fields[pos].tag == tag {
          return true;
        }
        var _ := Next();
        steps := steps + 1;
        if pos == start {
          return false;
        }
      }
    }

    /** The number of required fields, found by going on to the end. */
    method CountRequired() returns (count: nat)
      requires Ok()
      modifies this
      ensures Ok() && count == RequiredBefore(fields, |fields|)
    {
      var lastRequired := false;
      while true
        invariant Ok()
        decreases |fields| - pos
      {
        count := requiredFieldIndex;
        lastRequired := fields != [] && fields[pos].htype.Required?;
        ghost var last := pos;
        var more := Next();
        if !more {
          if lastRequired {
            count := count + 1;
          }
          assert fields != [] ==> last + 1 == |fields|;
          return;
        }
      }
    }
  }

  /** Field i is among the first steps fields from start on, going around. */
  ghost predicate Passed(start: nat, steps: nat, n: nat, i: nat) {
    start <= i < start + steps || i + n < start + steps
  }

  // ---------------------------------------------------------------------------------------------
  // Items
  // ---------------------------------------------------------------------------------------------

  /** What a decoder of an item must return and leave. */
  ghost predicate Left<T(!new)>(spec: Option<(T, Bytes)>, r: Option<T>, left: Bytes) {
    match spec
    case None => r == None
    case Some((v, rest)) => r == Some(v) && left == rest
  }

  /** The field decoders for everything but submessages. */
  method ReadScalar(s: IStream, l: LType) returns (r: Option<Value>)
    requires !l.Submessage?
    modifies s
    ensures Left(DecodeScalar(l, old(s.left)), r, s.left)
  {
    hide ReadVarint32, ReadVarint64, Substream, DecodeFixed32, DecodeFixed64, CString, Signed, Unzigzag;
    r := None;
    match l
    case Bool =>
      var v := s.DecodeVarint32();
      if v.Some? {
        r := Some(Num(if v.value != 0 then 1 else 0));
      }
    case Varint(w) =>
      var v := s.DecodeVarint();
      if v.Some? && ValidWidth(w) {
        var svalue := Signed(v.value, if w == 64 then 64 else 32);
        if -(Bound(w) / 2) <= svalue < Bound(w) / 2 {
          r := Some(Num(svalue));
        }
      }
    case Uvarint(w) =>
      var v := s.DecodeVarint();
      if v.Some? && ValidWidth(w) && v.value < Bound(w) {
        r := Some(Num(v.value));
      }
    case Svarint(w) =>
      var v := s.DecodeVarint();
      if v.Some? && ValidWidth(w) && -(Bound(w) / 2) <= Unzigzag(v.value) < Bound(w) / 2 {
        r := Some(Num(Unzigzag(v.value)));
      }
    case Fixed32 =>
      r := ReadFixed32(s);
    case Fixed64 =>
      r := ReadFixed64(s);
    case BytesType(size) =>
      var part := s.MakeSubstream();
      if part.Some? && |part.value.left| <= size {
        r := Some(Blob(part.value.left));
      }
    case StringType(size) =>
      var part := s.MakeSubstream();
      if part.Some? && |part.value.left| + 1 <= size {
        r := Some(Blob(CString(part.value.left)));
      }
    case FixedLengthBytes(size) =>
      var part := s.MakeSubstream();
      if part.Some? {
        if |part.value.left| == 0 {
          r := Some(Blob(PbSchema.ZeroBytes(size)));
        } else if |part.value.left| == size {
          r := Some(Blob(part.value.left));
        }
      }
  }

  method ReadFixed32(s: IStream) returns (r: Option<Value>)
    modifies s
    ensures Left(DecodeScalar(Fixed32, old(s.left)), r, s.left)
  {
    var before := s.left;
    var b := s.Read(4);
    if b == None {
      return None;
    }
    assert b.value[0] == before[0] && b.value[1] == before[1] && b.value[2] == before[2] && b.value[3] == before[3];
    return Some(Num(DecodeFixed32(b.value)));
  }

  method ReadFixed64(s: IStream) returns (r: Option<Value>)
    modifies s
    ensures Left(DecodeScalar(Fixed64, old(s.left)), r, s.left)
  {
    var before := s.left;
    var b := s.Read(8);
    if b == None {
      return None;
    }
    assert forall i :: 0 <= i < 8 ==> b.value[i] == before[i];
    return Some(Num(DecodeFixed64(b.value)));
  }

  // ---------------------------------------------------------------------------------------------
  // Messages
  // ---------------------------------------------------------------------------------------------

  method ReadItem(s: IStream, l: LType, held: Value) returns (r: Option<Value>)
    requires ValidType(l)
    modifies s
    ensures Left(DecodeItem(l, old(s.left), held), r, s.left)
    decreases |s.left|, 1
  {
    hide Substream, DecodeNoInit, DecodeScalar, Default;
    match l
    case Submessage(fields) =>
      var part := s.MakeSubstream();
      if part == None {
        return None;
      }
      var before := if held.Sub? && |held.message.slots| == |fields| then held.message else Default(fields);
      ghost var rest := s.left;
      var m := ReadMessage(part.value, fields, before);
      if m == None {
        return None;
      }
      return Some(Sub(m.value));
    case _ =>
      r := ReadScalar(s, l);
  }

  /** The packed branch of decode_static_field. */
  method ReadPacked(s: IStream, l: LType, items0: seq<Value>, arraySize: nat) returns (r: Option<seq<Value>>)
    requires Packable(l)
    modifies s
    ensures r == DecodePacked(l, old(s.left), items0, arraySize)
  {
    hide DecodeScalar;
    var items := items0;
    while s.left != [] && |items| < arraySize
      invariant DecodePacked(l, s.left, items, arraySize) == DecodePacked(l, old(s.left), items0, arraySize)
      decreases |s.left|
    {
      var v := ReadScalar(s, l);
      if v == None {
        return None;
      }
      items := items + [v.value];
    }
    if s.left != [] {
      return None;
    }
    return Some(items);
  }

  /** decode_static_field. */
  method ReadField(s: IStream, fields: Fields, i: nat, wireType: nat, slots: seq<Slot>) returns (r: Option<seq<Slot>>)
    requires |fields| == |slots| && i < |fields| && ValidField(fields[i])
    modifies s
    ensures Left(DecodeField(fields, i, wireType, old(s.left), slots), r, s.left)
    decreases |s.left|, 2
  {
    hide Substream, DecodeItem, DecodePacked, DefaultItem;
    var f, held := fields[i], slots[i].items;
    if f.htype.Repeated? {
      if wireType == WT_STRING && Packable(f.ltype) {
        var part := s.MakeSubstream();
        if part == None {
          return None;
        }
        var items := ReadPacked(part.value, f.ltype, held, f.htype.arraySize);
        if items == None {
          return None;
        }
        return Some(slots[i := Slot(items.value)]);
      }
      if |held| >= f.htype.arraySize {
        return None;
      }
      var v := ReadItem(s, f.ltype, DefaultItem(f.ltype));
      if v == None {
        return None;
      }
      return Some(slots[i := Slot(held + [v.value])]);
    }
    var v := ReadItem(s, f.ltype, if held == [] then DefaultItem(f.ltype) else held[0]);
    if v == None {
      return None;
    }
    return Some(ClearUnion(fields, slots, i)[i := Slot([v.value])]);
  }

  /** The bitmap says which of the first 64 required fields have been seen. */
  ghost predicate Maps(fields: Fields, bits: seq<bool>, seen: set<nat>) {
    && |bits| == MAX_REQUIRED_FIELDS
    && forall i :: 0 <= i < |fields| && fields[i].htype.Required? && RequiredBefore(fields, i) < MAX_REQUIRED_FIELDS ==>
                     (i in seen <==> bits[RequiredBefore(fields, i)])
  }

  lemma {:induction false} RequiredGrows(fields: Fields, i: nat, j: nat)
    requires i < j <= |fields|
    ensures RequiredBefore(fields, i) + (if fields[i].htype.Required? then 1 else 0) <= RequiredBefore(fields, j)
    decreases j
  {
    if i < j - 1 {
      RequiredGrows(fields, i, j - 1);
    }
  }

  /** Every index below the count belongs to a required field. */
  lemma {:induction false} RequiredAt(fields: Fields, n: nat, k: nat) returns (i: nat)
    requires n <= |fields| && k < RequiredBefore(fields, n)
    ensures i < n && fields[i].htype.Required? && RequiredBefore(fields, i) == k
  {
    if k < RequiredBefore(fields, n - 1) {
      i := RequiredAt(fields, n - 1, k);
    } else {
      i := n - 1;
    }
  }

  lemma {:induction false} MarksSeen(fields: Fields, bits: seq<bool>, seen: set<nat>, i: nat, marked: seq<bool>)
    requires Maps(fields, bits, seen) && i < |fields|
    requires marked == if fields[i].htype.Required? && RequiredBefore(fields, i) < MAX_REQUIRED_FIELDS
                       then bits[RequiredBefore(fields, i) := true] else bits
    ensures Maps(fields, marked, seen + {i})
  {
    forall j | 0 <= j < |fields| && fields[j].htype.Required? && RequiredBefore(fields, j) < MAX_REQUIRED_FIELDS
      ensures j in seen + {i} <==> marked[RequiredBefore(fields, j)]
    {
      if i < j {
        RequiredGrows(fields, i, j);
      } else if j < i {
        RequiredGrows(fields, j, i);
      }
    }
  }

  /** The check at the end: the bits of the required fields, at most 64 of them, are all set. */
  lemma {:induction false} BitsSayAll(fields: Fields, bits: seq<bool>, seen: set<nat>, count: nat)
    requires Maps(fields, bits, seen) && count == RequiredBefore(fields, |fields|)
    ensures AllRequiredSeen(fields, seen) <==> forall k :: 0 <= k < count && k < MAX_REQUIRED_FIELDS ==> bits[k]
  {
    if AllRequiredSeen(fields, seen) {
      forall k | 0 <= k < count && k < MAX_REQUIRED_FIELDS ensures bits[k] {
        var i := RequiredAt(fields, |fields|, k);
      }
    }
    if forall k :: 0 <= k < count && k < MAX_REQUIRED_FIELDS ==> bits[k] {
      forall i | 0 <= i < |fields| && fields[i].htype.Required? && RequiredBefore(fields, i) < MAX_REQUIRED_FIELDS ensures i in seen {
        RequiredGrows(fields, i, |fields|);
      }
    }
  }

  /** All of the bits that stand for a required field. */
  method AllSet(bits: seq<bool>, count: nat) returns (all: bool)
    requires |bits| == MAX_REQUIRED_FIELDS
    ensures all <==> forall k :: 0 <= k < count && k < MAX_REQUIRED_FIELDS ==> bits[k]
  {
    all := true;
    for k := 0 to if count < MAX_REQUIRED_FIELDS then count else MAX_REQUIRED_FIELDS
      invariant all <==> forall j :: 0 <= j < k ==> bits[j]
    {
      all := all && bits[k];
    }
  }

  /** pb_decode_noinit. */
  method ReadMessage(s: IStream, fields: Fields, m: Message) returns (r: Option<Message>)
    requires |m.slots| == |fields| && ValidFields(fields)
    modifies s
    ensures r == DecodeNoInit(fields, old(s.left), m)
    decreases |s.left|, 4
  {
    hide DecodeField, DecodeScalar, FindField, ReadVarint32, SkipField, AllRequiredSeen, Maps;
    var fieldsSeen: seq<bool> := seq(MAX_REQUIRED_FIELDS, i => false);
    var iter := new FieldIter(fields);
    var slots := m.slots;
    ghost var seen: set<nat> := {};
    NoneSeen(fields, fieldsSeen);
    var stop := false;
    while s.left != [] && !stop
      invariant iter.Ok() && iter.fields == fields && |slots| == |fields| && |s.left| <= |old(s.left)|
      invariant |fieldsSeen| == MAX_REQUIRED_FIELDS && Maps(fields, fieldsSeen, seen)
      invariant DecodeLoop(fields, old(s.left), m, {})
             == if stop then Some((Message(slots), seen)) else DecodeLoop(fields, s.left, Message(slots), seen)
      decreases |s.left|, !stop
    {
      var temp := s.DecodeVarint32();
      if temp == None {
        return None;
      }
      if temp.value == 0 {
        stop := true;
      } else {
        var found := iter.Find(temp.value / 8);
        ghost var i := FindField(fields, temp.value / 8);
        if !found {
          var ok := s.Skip(temp.value % 8);
          if !ok {
            return None;
          }
        } else if fields == [] {
          var ignored := ReadScalar(s, Bool);
          if ignored == None {
            return None;
          }
        } else {
          ghost var bits := fieldsSeen;
          if fields[iter.pos].htype.Required? && iter.requiredFieldIndex < MAX_REQUIRED_FIELDS {
            fieldsSeen := fieldsSeen[iter.requiredFieldIndex := true];
          }
          MarksSeen(fields, bits, seen, iter.pos, fieldsSeen);
          seen := seen + {iter.pos};
          assert ValidField(fields[iter.pos]);
          var next := ReadField(s, fields, iter.pos, temp.value % 8, slots);
          if next == None {
            return None;
          }
          slots := next.value;
        }
      }
    }
    var count := iter.CountRequired();
    BitsSayAll(fields, fieldsSeen, seen, count);
    var all := AllSet(fieldsSeen, count);
    return if all then Some(Message(slots)) else None;
  }

  lemma {:induction false} NoneSeen(fields: Fields, bits: seq<bool>)
    requires |bits| == MAX_REQUIRED_FIELDS && forall k :: 0 <= k < |bits| ==> !bits[k]
    ensures Maps(fields, bits, {})
  {
  }

  /** pb_decode. */
  method Decode(s: IStream, fields: Fields) returns (r: Option<Message>)
    requires ValidFields(fields)
    modifies s
    ensures r == DecodeMessage(fields, old(s.left))
  {
    r := ReadMessage(s, fields, Default(fields));
  }
}
