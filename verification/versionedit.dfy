/** Version edits as manifest records (db/version_edit.cc). */
module VersionEdits {
  import opened Keys
  import opened Version
  import opened Coding
  import opened WriteBatches

  /** A tagged field of an encoded edit. */
  datatype Part =
    | Comparator(name: Bytes)
    | LogNumber(n: nat)
    | PrevLogNumber(n: nat)
    | NextFileNumber(n: nat)
    | LastSequence(n: nat)
    | CompactPointer(level: nat, key: Bytes)
    | DeletedFile(level: nat, number: nat)
    | NewFile(level: nat, number: nat, size: nat, smallest: Bytes, largest: Bytes)

  datatype Edit = Edit(
    comparator: Option<Bytes>, logNumber: Option<nat>, prevLogNumber: Option<nat>, nextFileNumber: Option<nat>,
    lastSequence: Option<nat>, compactPointers: seq<Part>, deletedFiles: set<Part>, newFiles: seq<Part>)

  const NOTHING := Edit(None, None, None, None, None, [], {}, [])

  // ---------------------------------------------------------------------------------------------
  // Parts as bytes
  // ---------------------------------------------------------------------------------------------

  /** Levels are those of the engine; numbers take 64 bits and lengths 32. */
  predicate ValidPart(p: Part) {
    match p
    case Comparator(name) => |name| < LIMIT
    case LogNumber(n) => n < TWO64
    case PrevLogNumber(n) => n < TWO64
    case NextFileNumber(n) => n < TWO64
    case LastSequence(n) => n < TWO64
    case CompactPointer(level, key) => level < NUM_LEVELS && |key| < LIMIT
    case DeletedFile(level, number) => level < NUM_LEVELS && number < TWO64
    case NewFile(level, number, size, smallest, largest) =>
      level < NUM_LEVELS && number < TWO64 && size < TWO64 && |smallest| < LIMIT && |largest| < LIMIT
  }

  function TagOf(p: Part): (tag: nat)
    ensures 1 <= tag <= 9
  {
    match p
    case Comparator(_) => 1
    case LogNumber(_) => 2
    case NextFileNumber(_) => 3
    case LastSequence(_) => 4
    case CompactPointer(_, _) => 5
    case DeletedFile(_, _) => 6
    case NewFile(_, _, _, _, _) => 7
    case PrevLogNumber(_) => 9
  }

  function FieldsOf(p: Part): Bytes {
    match p
    case Comparator(name) => LengthPrefixed(name)
    case LogNumber(n) => Varint(n)
    case PrevLogNumber(n) => Varint(n)
    case NextFileNumber(n) => Varint(n)
    case LastSequence(n) => Varint(n)
    case CompactPointer(level, key) => Varint(level) + LengthPrefixed(key)
    case DeletedFile(level, number) => Varint(level) + Varint(number)
    case NewFile(level, number, size, smallest, largest) =>
      Varint(level) + (Varint(number) + (Varint(size) + (LengthPrefixed(smallest) + LengthPrefixed(largest))))
  }

  function PartBytes(p: Part): (r: Bytes)
    ensures r != []
  {
    Varint(TagOf(p)) + FieldsOf(p)
  }

  function PartsBytes(parts: seq<Part>): Bytes {
    if parts == [] then [] else PartBytes(parts[0]) + PartsBytes(parts[1..])
  }

  // ---------------------------------------------------------------------------------------------
  // Reading parts
  // ---------------------------------------------------------------------------------------------

  /** GetVarint64. */
  function ReadNumber(b: Bytes): (r: Option<(nat, Bytes)>)
    ensures r.Some? ==> |r.value.1| < |b|
  {
    match ReadVarint(b, 10)
    case None => None
    case Some((v, n)) => Some((if v < TWO64 then v else v % TWO64, b[n..]))
  }

  /** GetVarint32. */
  function ReadNumber32(b: Bytes): (r: Option<(nat, Bytes)>)
    ensures r.Some? ==> |r.value.1| < |b|
  {
    match ReadVarint(b, 5)
    case None => None
    case Some((v, n)) => Some((if v < LIMIT then v else v % LIMIT, b[n..]))
  }

  /** GetLevel. */
  function ReadLevel(b: Bytes): (r: Option<(nat, Bytes)>)
    ensures r.Some? ==> |r.value.1| < |b|
  {
    match ReadNumber32(b)
    case None => None
    case Some((v, rest)) => if v < NUM_LEVELS then Some((v, rest)) else None
  }

  function ReadNewFile(b: Bytes): (r: Option<(Part, Bytes)>)
    ensures r.Some? ==> |r.value.1| < |b|
  {
    match ReadLevel(b)
    case None => None
    case Some((level, b)) =>
      match ReadNumber(b)
      case None => None
      case Some((number, b)) =>
        match ReadNumber(b)
        case None => None
        case Some((size, b)) =>
          match ReadString(b)
          case None => None
          case Some((smallest, b)) =>
            match ReadString(b)
            case None => None
            case Some((largest, b)) => Some((NewFile(level, number, size, smallest, largest), b))
  }

  /** The fields behind a tag. */
  function ReadFields(tag: nat, b: Bytes): (r: Option<(Part, Bytes)>)
    ensures r.Some? ==> |r.value.1| < |b|
  {
    if tag == 1 then
      (match ReadString(b) case None => None case Some((name, rest)) => Some((Comparator(name), rest)))
    else if tag == 2 then
      (match ReadNumber(b) case None => None case Some((n, rest)) => Some((LogNumber(n), rest)))
    else if tag == 9 then
      (match ReadNumber(b) case None => None case Some((n, rest)) => Some((PrevLogNumber(n), rest)))
    else if tag == 3 then
      (match ReadNumber(b) case None => None case Some((n, rest)) => Some((NextFileNumber(n), rest)))
    else if tag == 4 then
      (match ReadNumber(b) case None => None case Some((n, rest)) => Some((LastSequence(n), rest)))
    else if tag == 5 then
      match ReadLevel(b)
      case None => None
      case Some((level, rest)) =>
        match ReadString(rest)
        case None => None
        case Some((key, rest)) => Some((CompactPointer(level, key), rest))
    else if tag == 6 then
      match ReadLevel(b)
      case None => None
      case Some((level, rest)) =>
        match ReadNumber(rest)
        case None => None
        case Some((number, rest)) => Some((DeletedFile(level, number), rest))
    else if tag == 7 then ReadNewFile(b)
    else None
  }

  /** Every part of a record; None for the source's corruption errors. */
  function ReadParts(b: Bytes): Option<seq<Part>>
    decreases |b|
  {
    if b == [] then Some([])
    else
      match ReadNumber32(b)
      case None => None
      case Some((tag, rest)) =>
        match ReadFields(tag, rest)
        case None => None
        case Some((p, rest)) =>
          match ReadParts(rest)
          case None => None
          case Some(parts) => Some([p] + parts)
  }

  lemma {:induction false} NumberRoundTrip(v: nat, rest: Bytes)
    requires v < TWO64
    ensures ReadNumber(Varint(v) + rest) == Some((v, rest))
  {
    hide Varint, ReadVarint;
    var b := Varint(v) + rest;
    assert Pow128(10) >= TWO64 by {
      Pow128Of10();
    }
    VarintRoundTrip(v, 10, rest);
    assert b[|Varint(v)|..] == rest;
  }

  lemma {:induction false} Pow128Of10()
    ensures Pow128(10) == 0x8_0000_0000 * 0x8_0000_0000
  {
    assert Pow128(5) == 0x8_0000_0000;
    assert Pow128(7) == 16384 * Pow128(5);
    assert Pow128(9) == 16384 * Pow128(7);
  }

  lemma {:induction false} Number32RoundTrip(v: nat, rest: Bytes)
    requires v < LIMIT
    ensures ReadNumber32(Varint(v) + rest) == Some((v, rest))
  {
    hide Varint, ReadVarint;
    var b := Varint(v) + rest;
    assert Pow128(5) == 0x8_0000_0000;
    VarintRoundTrip(v, 5, rest);
    assert b[|Varint(v)|..] == rest;
  }

  lemma {:induction false} Append3(a: Bytes, b: Bytes, c: Bytes)
    ensures a + b + c == a + (b + c)
  {
  }

  lemma {:induction false} FieldsRoundTrip(p: Part, rest: Bytes)
    requires ValidPart(p)
    ensures ReadFields(TagOf(p), FieldsOf(p) + rest) == Some((p, rest))
  {
    hide Varint, LengthPrefixed, ReadNumber, ReadNumber32, ReadString;
    match p
    case Comparator(name) => StringRoundTrip(name, rest);
    case LogNumber(n) => NumberRoundTrip(n, rest);
    case PrevLogNumber(n) => NumberRoundTrip(n, rest);
    case NextFileNumber(n) => NumberRoundTrip(n, rest);
    case LastSequence(n) => NumberRoundTrip(n, rest);
    case CompactPointer(level, key) =>
      Append3(Varint(level), LengthPrefixed(key), rest);
      Number32RoundTrip(level, LengthPrefixed(key) + rest);
      StringRoundTrip(key, rest);
    case DeletedFile(level, number) =>
      Append3(Varint(level), Varint(number), rest);
      Number32RoundTrip(level, Varint(number) + rest);
      NumberRoundTrip(number, rest);
    case NewFile(level, number, size, smallest, largest) =>
      var d := LengthPrefixed(smallest) + LengthPrefixed(largest);
      var c := Varint(size) + d;
      var b := Varint(number) + c;
      Append3(Varint(level), b, rest);
      Append3(Varint(number), c, rest);
      Append3(Varint(size), d, rest);
      Append3(LengthPrefixed(smallest), LengthPrefixed(largest), rest);
      Number32RoundTrip(level, b + rest);
      NumberRoundTrip(number, c + rest);
      NumberRoundTrip(size, d + rest);
      StringRoundTrip(smallest, LengthPrefixed(largest) + rest);
      StringRoundTrip(largest, rest);
  }

  lemma {:induction false} PartsRoundTrip(parts: seq<Part>)
    requires forall p :: p in parts ==> ValidPart(p)
    ensures ReadParts(PartsBytes(parts)) == Some(parts)
  {
    hide Varint, FieldsOf, ReadFields, ReadNumber32, TagOf;
    if parts != [] {
      var p, rest := parts[0], PartsBytes(parts[1..]);
      Append3(Varint(TagOf(p)), FieldsOf(p), rest);
      Number32RoundTrip(TagOf(p), FieldsOf(p) + rest);
      FieldsRoundTrip(p, rest);
      PartsRoundTrip(parts[1..]);
      assert [p] + parts[1..] == parts;
    }
  }

  lemma {:induction false} ReadStringFits(b: Bytes)
    requires ReadString(b).Some?
    ensures |ReadString(b).value.0| < LIMIT
  {
  }

  /** Whatever the bytes, levels are those of the engine and numbers fit their widths. */
  lemma {:induction false} FieldsAreValid(tag: nat, b: Bytes)
    requires ReadFields(tag, b).Some?
    ensures ValidPart(ReadFields(tag, b).value.0) && TagOf(ReadFields(tag, b).value.0) == tag
  {
    hide ReadVarint, ReadString;
    forall c: Bytes | ReadString(c).Some? ensures |ReadString(c).value.0| < LIMIT {
      ReadStringFits(c);
    }
  }

  /** Any record that is accepted is a list of valid parts, which reads back as itself when it is written again. */
  lemma {:induction false} PartsComeBack(b: Bytes)
    requires ReadParts(b).Some?
    ensures forall p :: p in ReadParts(b).value ==> ValidPart(p)
    ensures ReadParts(PartsBytes(ReadParts(b).value)) == ReadParts(b)
  {
    PartsAreValid(b);
    PartsRoundTrip(ReadParts(b).value);
  }

  lemma {:induction false} PartsAreValid(b: Bytes)
    requires ReadParts(b).Some?
    ensures forall p :: p in ReadParts(b).value ==> ValidPart(p)
    decreases |b|
  {
    hide ReadNumber32, ReadFields, ValidPart;
    if b != [] {
      var (tag, rest) := ReadNumber32(b).value;
      FieldsAreValid(tag, rest);
      PartsAreValid(ReadFields(tag, rest).value.1);
    }
  }

  /** A record with any other tag is refused. */
  lemma {:induction false} UnknownTagIsRefused(tag: nat, rest: Bytes)
    requires tag < LIMIT && (tag == 0 || tag == 8 || 9 < tag)
    ensures ReadParts(Varint(tag) + rest) == None
  {
    hide ReadNumber32, Varint;
    Number32RoundTrip(tag, rest);
    assert Varint(tag) + rest != [] by {
      TagIsSomething(tag);
    }
  }

  lemma {:induction false} TagIsSomething(tag: nat)
    ensures Varint(tag) != []
  {
  }

  // ---------------------------------------------------------------------------------------------
  // Edits
  // ---------------------------------------------------------------------------------------------

  /** The numbers and the name that are set, in the order they are written. */
  function ScalarsOf(e: Edit): seq<Part> {
    (if e.comparator.Some? then [Comparator(e.comparator.value)] else [])
    + (if e.logNumber.Some? then [LogNumber(e.logNumber.value)] else [])
    + (if e.prevLogNumber.Some? then [PrevLogNumber(e.prevLogNumber.value)] else [])
    + (if e.nextFileNumber.Some? then [NextFileNumber(e.nextFileNumber.value)] else [])
    + (if e.lastSequence.Some? then [LastSequence(e.lastSequence.value)] else [])
  }

  /** The parts of an edit in the order they are written; order lists the deleted files. */
  function PartsOf(e: Edit, order: seq<Part>): seq<Part> {
    ScalarsOf(e) + e.compactPointers + order + e.newFiles
  }

  /** What DecodeFrom does with a part. */
  function Take(e: Edit, p: Part): Edit {
    match p
    case Comparator(name) => e.(comparator := Some(name))
    case LogNumber(n) => e.(logNumber := Some(n))
    case PrevLogNumber(n) => e.(prevLogNumber := Some(n))
    case NextFileNumber(n) => e.(nextFileNumber := Some(n))
    case LastSequence(n) => e.(lastSequence := Some(n))
    case CompactPointer(_, _) => e.(compactPointers := e.compactPointers + [p])
    case DeletedFile(_, _) => e.(deletedFiles := e.deletedFiles + {p})
    case NewFile(_, _, _, _, _) => e.(newFiles := e.newFiles + [p])
  }

  function TakeAll(e: Edit, parts: seq<Part>): Edit
    decreases parts
  {
    if parts == [] then e else TakeAll(Take(e, parts[0]), parts[1..])
  }

  predicate ValidEdit(e: Edit) {
    && (forall p :: p in e.compactPointers ==> p.CompactPointer?)
    && (forall p :: p in e.deletedFiles ==> p.DeletedFile?)
    && (forall p :: p in e.newFiles ==> p.NewFile?)
  }

  lemma {:induction false} TakesJoin(e: Edit, a: seq<Part>, b: seq<Part>)
    ensures TakeAll(e, a + b) == TakeAll(TakeAll(e, a), b)
    decreases a
  {
    hide Take;
    if a == [] {
      assert a + b == b;
    } else {
      assert (a + b)[1..] == a[1..] + b;
      TakesJoin(Take(e, a[0]), a[1..], b);
    }
  }

  lemma {:induction false} TakesPointers(e: Edit, ps: seq<Part>)
    requires forall p :: p in ps ==> p.CompactPointer?
    ensures TakeAll(e, ps) == e.(compactPointers := e.compactPointers + ps)
    decreases ps
  {
    if ps == [] {
      assert e.compactPointers + ps == e.compactPointers;
    } else {
      assert ps[0] in ps;
      TakesPointers(Take(e, ps[0]), ps[1..]);
      assert e.compactPointers + [ps[0]] + ps[1..] == e.compactPointers + ps;
    }
  }

  lemma {:induction false} TakesFiles(e: Edit, ps: seq<Part>)
    requires forall p :: p in ps ==> p.NewFile?
    ensures TakeAll(e, ps) == e.(newFiles := e.newFiles + ps)
    decreases ps
  {
    if ps == [] {
      assert e.newFiles + ps == e.newFiles;
    } else {
      assert ps[0] in ps;
      TakesFiles(Take(e, ps[0]), ps[1..]);
      assert e.newFiles + [ps[0]] + ps[1..] == e.newFiles + ps;
    }
  }

  lemma {:induction false} TakesDeletions(e: Edit, ps: seq<Part>)
    requires forall p :: p in ps ==> p.DeletedFile?
    ensures TakeAll(e, ps) == e.(deletedFiles := e.deletedFiles + set p | p in ps)
    decreases ps
  {
    if ps == [] {
      assert e.deletedFiles + (set p | p in ps) == e.deletedFiles;
    } else {
      assert ps[0] in ps;
      TakesDeletions(Take(e, ps[0]), ps[1..]);
      assert ps == [ps[0]] + ps[1..];
      assert e.deletedFiles + {ps[0]} + (set p | p in ps[1..]) == e.deletedFiles + set p | p in ps;
    }
  }

  lemma {:induction false} TakesAtMostOne(e: Edit, o: seq<Part>)
    requires |o| <= 1
    ensures TakeAll(e, o) == if o == [] then e else Take(e, o[0])
  {
    assert o != [] ==> o[1..] == [];
  }

  function OnlyScalars(e: Edit): Edit {
    e.(compactPointers := [], deletedFiles := {}, newFiles := [])
  }

  lemma {:induction false} ScalarsBack(e: Edit)
    ensures TakeAll(NOTHING, ScalarsOf(e)) == OnlyScalars(e)
  {
    hide TakeAll;
    var a := if e.comparator.Some? then [Comparator(e.comparator.value)] else [];
    var b := if e.logNumber.Some? then [LogNumber(e.logNumber.value)] else [];
    var c := if e.prevLogNumber.Some? then [PrevLogNumber(e.prevLogNumber.value)] else [];
    var d := if e.nextFileNumber.Some? then [NextFileNumber(e.nextFileNumber.value)] else [];
    var f := if e.lastSequence.Some? then [LastSequence(e.lastSequence.value)] else [];
    TakesJoin(NOTHING, a, b);
    TakesJoin(NOTHING, a + b, c);
    TakesJoin(NOTHING, a + b + c, d);
    TakesJoin(NOTHING, a + b + c + d, f);
    TakesAtMostOne(NOTHING, a);
    var e1 := TakeAll(NOTHING, a);
    TakesAtMostOne(e1, b);
    var e2 := TakeAll(e1, b);
    TakesAtMostOne(e2, c);
    var e3 := TakeAll(e2, c);
    TakesAtMostOne(e3, d);
    TakesAtMostOne(TakeAll(e3, d), f);
  }

  lemma {:induction false} TakesBack(e: Edit, order: seq<Part>)
    requires ValidEdit(e) && e.deletedFiles == set p | p in order
    ensures TakeAll(NOTHING, PartsOf(e, order)) == e
  {
    hide TakeAll, ScalarsOf;
    var head := ScalarsOf(e);
    TakesJoin(NOTHING, head, e.compactPointers);
    TakesJoin(NOTHING, head + e.compactPointers, order);
    TakesJoin(NOTHING, head + e.compactPointers + order, e.newFiles);
    ScalarsBack(e);
    var scalars := OnlyScalars(e);
    TakesPointers(scalars, e.compactPointers);
    TakesDeletions(scalars.(compactPointers := e.compactPointers), order);
    TakesFiles(scalars.(compactPointers := e.compactPointers, deletedFiles := e.deletedFiles), e.newFiles);
    assert [] + e.compactPointers == e.compactPointers && {} + e.deletedFiles == e.deletedFiles && [] + e.newFiles == e.newFiles;
  }

  /** EncodeTo, part by part. */
  method EncodeTo(e: Edit, order: seq<Part>) returns (dst: Bytes)
    ensures dst == PartsBytes(PartsOf(e, order))
  {
    hide PartBytes;
    var parts := PartsOf(e, order);
    dst := [];
    for i := 0 to |parts|
      invariant dst + PartsBytes(parts[i..]) == PartsBytes(parts)
    {
      assert parts[i..][1..] == parts[i + 1..];
      Append3(dst, PartBytes(parts[i]), PartsBytes(parts[i + 1..]));
      dst := dst + PartBytes(parts[i]);
    }
  }

  /** DecodeFrom, on any record. */
  method DecodeFrom(src: Bytes) returns (r: Option<Edit>)
    ensures r == match ReadParts(src) case None => None case Some(parts) => Some(TakeAll(NOTHING, parts))
  {
    hide ReadFields, ReadNumber32, Take;
    var e, input := NOTHING, src;
    ghost var goal := match ReadParts(src) case None => None case Some(parts) => Some(TakeAll(NOTHING, parts));
    while input != []
      invariant goal == match ReadParts(input) case None => None case Some(parts) => Some(TakeAll(e, parts))
      decreases |input|
    {
      var tag := ReadNumber32(input);
      if tag == None {
        return None;
      }
      var p := ReadFields(tag.value.0, tag.value.1);
      if p == None {
        return None;
      }
      ghost var rest := ReadParts(p.value.1);
      assert rest.Some? ==> ([p.value.0] + rest.value)[1..] == rest.value;
      e := Take(e, p.value.0);
      input := p.value.1;
    }
    return Some(e);
  }

  /** A decoded edit is the edit that was encoded, in whatever order its deleted files were listed. */
  lemma {:induction false} EditRoundTrip(e: Edit, order: seq<Part>)
    requires ValidEdit(e) && e.deletedFiles == (set p | p in order) && forall p :: p in PartsOf(e, order) ==> ValidPart(p)
    ensures var parts := ReadParts(PartsBytes(PartsOf(e, order)));
            parts.Some? && TakeAll(NOTHING, parts.value) == e
  {
    PartsRoundTrip(PartsOf(e, order));
    TakesBack(e, order);
  }
}
