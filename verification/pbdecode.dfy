/** Decoding a message (pb_decode.c), as a function of the input bytes. */
module PbDecode {
  import opened Keys
  import opened Version
  import opened Coding
  import opened Crc32c
  import opened PbSchema
  import opened PbEncode

  // ---------------------------------------------------------------------------------------------
  // Varints
  // ---------------------------------------------------------------------------------------------

  /** pb_decode_varint: up to ten bytes, in 64 bits. */
  function ReadVarint64(b: Bytes): (r: Option<(nat, nat)>)
    ensures r.Some? ==> 1 <= r.value.1 <= |b| && r.value.0 < TWO64
  {
    match ReadVarint(b, 10)
    case None => None
    case Some((v, n)) => Some((if v < TWO64 then v else v % TWO64, n))
  }

  /** a | b, for words of n bits. */
  function Or(n: nat, a: nat, b: nat): (r: nat)
    requires a < Pow2(n) && b < Pow2(n)
    ensures r < Pow2(n)
  {
    if n == 0 then 0
    else 2 * Or(n - 1, a / 2, b / 2) + if a % 2 == 1 || b % 2 == 1 then 1 else 0
  }

  lemma {:induction false} Pow2Of32()
    ensures Pow2(32) == TWO32
  {
    assert Pow2(8) == 256;
    assert Pow2(16) == 65536;
    assert Pow2(24) == 16777216;
  }

  /** result | (uint32_t)digit << bitpos. */
  function OrDigit(result: nat, digit: nat, bitpos: nat): (r: nat)
    requires result < TWO32
    ensures r < TWO32
  {
    Pow2Of32();
    Or(32, result, digit * Pow2(bitpos) % TWO32)
  }

  lemma {:induction false} OrWithZero(n: nat, b: nat)
    requires b < Pow2(n)
    ensures Or(n, 0, b) == b
  {
    if n > 0 {
      OrWithZero(n - 1, b / 2);
    }
  }

  /** Words without a common bit are or-ed by adding them. */
  lemma {:induction false} OrOfDisjoint(n: nat, k: nat, a: nat, c: nat)
    requires k <= n && a < Pow2(k) && a < Pow2(n) && c * Pow2(k) < Pow2(n)
    ensures Or(n, a, c * Pow2(k)) == a + c * Pow2(k)
  {
    if k == 0 {
      OrWithZero(n, c);
    } else {
      var b := c * Pow2(k);
      assert b == 2 * (c * Pow2(k - 1));
      OrOfDisjoint(n - 1, k - 1, a / 2, c);
    }
  }

  /** The bytes of a 32-bit varint after the first: bitpos, an 8-bit counter, and result as in the loop. */
  function ReadMore32(b: Bytes, bitpos: nat, result: nat): (r: Option<(nat, nat)>)
    requires result < TWO32
    ensures r.Some? ==> 1 <= r.value.1 <= |b| && r.value.0 < TWO32
    decreases |b|
  {
    if b == [] then None
    else
      var byte := b[0];
      var signExtension := if bitpos < 63 then 0xff else 0x01;
      var overflow := bitpos >= 32 && byte % 128 != 0 && (result < TWO32 / 2 || byte != signExtension);
      if overflow then None
      else
        var more := if bitpos >= 32 then result else OrDigit(result, byte % 128, bitpos);
        if byte < 128 then
          if bitpos == 28 && byte / 16 % 8 != 0 then None else Some((more, 1))
        else
          match ReadMore32(b[1..], (bitpos + 7) % 256, more)
          case None => None
          case Some((v, n)) => Some((v, n + 1))
  }

  /** pb_decode_varint32. */
  function ReadVarint32(b: Bytes): (r: Option<(nat, nat)>)
    ensures r.Some? ==> 1 <= r.value.1 <= |b| && r.value.0 < TWO32
  {
    if b == [] then None
    else if b[0] < 128 then Some((b[0], 1))
    else
      match ReadMore32(b[1..], 7, b[0] - 128)
      case None => None
      case Some((v, n)) => Some((v, n + 1))
  }

  /** A length-delimited part of the input and what follows it. */
  function Substream(b: Bytes): (r: Option<(Bytes, Bytes)>)
    ensures r.Some? ==> |r.value.0| < |b| && |r.value.1| < |b|
  {
    match ReadVarint32(b)
    case None => None
    case Some((size, n)) =>
      if |b| - n < size then None else Some((b[n..n + size], b[n + size..]))
  }

  // ---------------------------------------------------------------------------------------------
  // Items
  // ---------------------------------------------------------------------------------------------

  /** The low w bits as a signed number. */
  function Signed(u: nat, w: nat): int
    requires ValidWidth(w)
  {
    var low := u % Bound(w);
    if low < Bound(w) / 2 then low else low - Bound(w)
  }

  function Unzigzag(u: nat): int
    requires u < TWO64
  {
    if u % 2 == 1 then -(u / 2) - 1 else u / 2
  }

  function Fit(n: int, low: int, high: int, rest: Bytes): Option<(Value, Bytes)> {
    if low <= n < high then Some((Num(n), rest)) else None
  }

  /** The characters before the first zero. */
  function CString(b: Bytes): Bytes {
    if b == [] || b[0] == 0 then [] else [b[0]] + CString(b[1..])
  }

  /** One item of any type but a submessage, and what follows it. */
  function DecodeScalar(l: LType, b: Bytes): (r: Option<(Value, Bytes)>)
    requires !l.Submessage?
    ensures r.Some? ==> |r.value.1| < |b|
  {
    match l
    case Bool =>
      (match ReadVarint32(b)
       case None => None
       case Some((v, n)) => Some((Num(if v != 0 then 1 else 0), b[n..])))
    case Varint(w) =>
      (match ReadVarint64(b)
       case None => None
       case Some((v, n)) =>
         if !ValidWidth(w) then None
         else
           var svalue := Signed(v, if w == 64 then 64 else 32);
           Fit(svalue, -(Bound(w) / 2), Bound(w) / 2, b[n..]))
    case Uvarint(w) =>
      (match ReadVarint64(b)
       case None => None
       case Some((v, n)) => if !ValidWidth(w) then None else Fit(v, 0, Bound(w), b[n..]))
    case Svarint(w) =>
      (match ReadVarint64(b)
       case None => None
       case Some((v, n)) => if !ValidWidth(w) then None else Fit(Unzigzag(v), -(Bound(w) / 2), Bound(w) / 2, b[n..]))
    case Fixed32 => if |b| < 4 then None else Some((Num(DecodeFixed32(b)), b[4..]))
    case Fixed64 => if |b| < 8 then None else Some((Num(DecodeFixed64(b)), b[8..]))
    case BytesType(size) =>
      (match Substream(b)
       case None => None
       case Some((part, rest)) => if |part| > size then None else Some((Blob(part), rest)))
    case StringType(size) =>
      (match Substream(b)
       case None => None
       case Some((part, rest)) => if |part| + 1 > size then None else Some((Blob(CString(part)), rest)))
    case FixedLengthBytes(size) =>
      (match Substream(b)
       case None => None
       case Some((part, rest)) =>
         if |part| == 0 then Some((Blob(ZeroBytes(size)), rest))
         else if |part| != size then None
         else Some((Blob(part), rest)))
  }

  // ---------------------------------------------------------------------------------------------
  // Messages
  // ---------------------------------------------------------------------------------------------

  /** pb_field_iter_find: the field with the tag, or the number of fields. Where the search starts does not matter. */
  function FindField(fields: Fields, tag: nat): (i: nat)
    ensures i <= |fields|
    ensures i < |fields| ==> fields[i].tag == tag
    ensures i == |fields| ==> forall j :: 0 <= j < |fields| ==> fields[j].tag != tag
  {
    if fields == [] || fields[0].tag == tag then 0 else 1 + FindField(fields[1..], tag)
  }

  function SkipVarint(b: Bytes): (r: Option<Bytes>)
    ensures r.Some? ==> |r.value| < |b|
  {
    if b == [] then None else if b[0] < 128 then Some(b[1..]) else SkipVarint(b[1..])
  }

  function SkipField(wireType: nat, b: Bytes): (r: Option<Bytes>)
    ensures r.Some? ==> |r.value| <= |b|
  {
    if wireType == WT_VARINT then SkipVarint(b)
    else if wireType == WT_64BIT then if |b| < 8 then None else Some(b[8..])
    else if wireType == WT_32BIT then if |b| < 4 then None else Some(b[4..])
    else if wireType == WT_STRING then (match Substream(b) case None => None case Some((_, rest)) => Some(rest))
    else None
  }

  /** The other members of the union that field i belongs to. */
  function ClearUnion(fields: Fields, slots: seq<Slot>, i: nat): (r: seq<Slot>)
    requires |fields| == |slots| && i < |fields|
    ensures |r| == |slots|
  {
    seq(|slots|, j requires 0 <= j < |slots| =>
      if j != i && fields[j].htype == fields[i].htype && fields[i].htype.Oneof? then Slot([]) else slots[j])
  }

  /** One item, read into what the struct held before when it is a submessage. */
  function DecodeItem(l: LType, b: Bytes, held: Value): (r: Option<(Value, Bytes)>)
    ensures r.Some? ==> |r.value.1| < |b|
    decreases |b|, 1
  {
    match l
    case Submessage(fields) =>
      (match Substream(b)
       case None => None
       case Some((part, rest)) =>
         var before := if held.Sub? && |held.message.slots| == |fields| then held.message else Default(fields);
         match DecodeNoInit(fields, part, before)
         case None => None
         case Some(m) => Some((Sub(m), rest)))
    case _ => DecodeScalar(l, b)
  }

  /** A packed array: items until the part is used up or the array is full. */
  function DecodePacked(l: LType, part: Bytes, items: seq<Value>, arraySize: nat): Option<seq<Value>>
    requires Packable(l)
    decreases |part|, 0
  {
    if part == [] then Some(items)
    else if |items| >= arraySize then None
    else
      match DecodeScalar(l, part)
      case None => None
      case Some((v, rest)) => DecodePacked(l, rest, items + [v], arraySize)
  }

  /** decode_static_field: what becomes of the slots. */
  function DecodeField(fields: Fields, i: nat, wireType: nat, b: Bytes, slots: seq<Slot>): (r: Option<(seq<Slot>, Bytes)>)
    requires |fields| == |slots| && i < |fields|
    ensures r.Some? ==> |r.value.1| < |b| && |r.value.0| == |slots|
    decreases |b|, 2
  {
    var f, held := fields[i], slots[i].items;
    match f.htype
    case Repeated(arraySize) =>
      if wireType == WT_STRING && Packable(f.ltype) then
        match Substream(b)
        case None => None
        case Some((part, rest)) =>
          match DecodePacked(f.ltype, part, held, arraySize)
          case None => None
          case Some(items) => Some((slots[i := Slot(items)], rest))
      else if |held| >= arraySize then None
      else
        (match DecodeItem(f.ltype, b, DefaultItem(f.ltype))
         case None => None
         case Some((v, rest)) => Some((slots[i := Slot(held + [v])], rest)))
    case _ =>
      match DecodeItem(f.ltype, b, if held == [] then DefaultItem(f.ltype) else held[0])
      case None => None
      case Some((v, rest)) => Some((ClearUnion(fields, slots, i)[i := Slot([v])], rest))
  }

  /**
   The fields one after another: the message and the fields seen; a zero tag ends the message. A table without
   fields has only its terminator, which tag 0 finds: it reads as a bool, and what is read is no field's value.
   */
  function DecodeLoop(fields: Fields, b: Bytes, m: Message, seen: set<nat>): (r: Option<(Message, set<nat>)>)
    requires |m.slots| == |fields|
    ensures r.Some? ==> |r.value.0.slots| == |fields|
    decreases |b|, 3
  {
    if b == [] then Some((m, seen))
    else
      match ReadVarint32(b)
      case None => None
      case Some((temp, n)) =>
        if temp == 0 then Some((m, seen))
        else if fields == [] && temp / 8 == 0 then
          match DecodeScalar(Bool, b[n..])
          case None => None
          case Some((_, rest)) => DecodeLoop(fields, rest, m, seen)
        else
          var i := FindField(fields, temp / 8);
          if i == |fields| then
            match SkipField(temp % 8, b[n..])
            case None => None
            case Some(rest) => DecodeLoop(fields, rest, m, seen)
          else
            match DecodeField(fields, i, temp % 8, b[n..], m.slots)
            case None => None
            case Some((slots, rest)) => DecodeLoop(fields, rest, Message(slots), seen + {i})
  }

  /** The number of required fields before field i. */
  function RequiredBefore(fields: Fields, i: nat): nat
    requires i <= |fields|
  {
    if i == 0 then 0 else RequiredBefore(fields, i - 1) + if fields[i - 1].htype.Required? then 1 else 0
  }

  /** The bitmap holds the first 64 required fields. */
  predicate AllRequiredSeen(fields: Fields, seen: set<nat>) {
    forall i :: 0 <= i < |fields| && fields[i].htype.Required? && RequiredBefore(fields, i) < MAX_REQUIRED_FIELDS ==> i in seen
  }

  function DecodeNoInit(fields: Fields, b: Bytes, m: Message): (r: Option<Message>)
    requires |m.slots| == |fields|
    ensures r.Some? ==> |r.value.slots| == |fields|
    decreases |b|, 4
  {
    match DecodeLoop(fields, b, m, {})
    case None => None
    case Some((result, seen)) => if AllRequiredSeen(fields, seen) then Some(result) else None
  }

  function DecodeMessage(fields: Fields, b: Bytes): Option<Message> {
    DecodeNoInit(fields, b, Default(fields))
  }
}
