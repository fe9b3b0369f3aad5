/**
 What a log reader can return at all (db/log_reader.cc): on any file, however damaged, a record is made of
 checked fragments of the right types that lie directly one behind the other.
 */
module LogSoundness {
  import opened Keys
  import opened Version
  import opened Coding
  import opened Crc32c
  import opened RecordLog

  /** A fragment and where its header is. */
  datatype Part = Part(pos: nat, kind: Byte, data: Bytes)

  function EndOf(p: Part): nat {
    p.pos + HEADER_SIZE + |p.data|
  }

  /** Header, checksum and payload are those of a fragment, within one block. */
  predicate PartLies(sum: Checksum, file: Bytes, p: Part) {
    && EndOf(p) <= |file| && p.pos % BLOCK_SIZE + HEADER_SIZE + |p.data| <= BLOCK_SIZE
    && file[p.pos..EndOf(p)] == FragmentBytes(sum, p.kind, p.data)
  }

  /** Where the header behind a fragment is. */
  function HeaderBehind(end: nat): nat {
    if BLOCK_SIZE - end % BLOCK_SIZE < HEADER_SIZE then end - end % BLOCK_SIZE + BLOCK_SIZE else end
  }

  function Payload(parts: seq<Part>): Bytes {
    if parts == [] then [] else Payload(parts[..|parts| - 1]) + parts[|parts| - 1].data
  }

  /** Fragments one behind the other, the first of them a FIRST, the others MIDDLEs. */
  ghost predicate Begun(sum: Checksum, file: Bytes, parts: seq<Part>) {
    && parts != [] && parts[0].kind == FIRST
    && (forall k :: 0 <= k < |parts| ==> PartLies(sum, file, parts[k]))
    && (forall k :: 0 < k < |parts| ==> parts[k].kind == MIDDLE && parts[k].pos == HeaderBehind(EndOf(parts[k - 1])))
  }

  /** A whole record: one FULL fragment, or FIRST, MIDDLEs and LAST. */
  ghost predicate Spells(sum: Checksum, file: Bytes, parts: seq<Part>, record: Bytes) {
    && parts != [] && record == Payload(parts)
    && var last := parts[|parts| - 1];
    && PartLies(sum, file, last)
    && if |parts| == 1 then last.kind == FULL
       else Begun(sum, file, parts[..|parts| - 1]) && last.kind == LAST && last.pos == HeaderBehind(EndOf(parts[|parts| - 2]))
  }

  ghost predicate IsRecord(sum: Checksum, file: Bytes, record: Bytes) {
    exists parts :: Spells(sum, file, parts, record)
  }

  lemma {:induction false} EncodeUndoesDecode(b: Bytes)
    requires |b| >= 4
    ensures EncodeFixed32(DecodeFixed32(b)) == b[..4]
  {
    var x := (b[2] as nat) + 256 * (b[3] as nat);
    var w := (b[1] as nat) + 256 * x;
    var v := (b[0] as nat) + 256 * w;
    assert v == DecodeFixed32(b);
    assert v % 256 == b[0] as nat && v / 256 == w;
    assert w % 256 == b[1] as nat && w / 256 == x;
    assert x % 256 == b[2] as nat && x / 256 == b[3] as nat;
    assert v / 65536 == x && v / 16777216 == x / 256;
  }

  lemma {:induction false} MaskUndoesUnmask(masked: nat)
    requires masked < TWO32
    ensures Mask(Unmask(masked)) == masked
  {
    var rot := (masked + TWO32 - MASK_DELTA) % TWO32;
    var low, high := rot / TWO17, rot % TWO17;
    assert Unmask(masked) / TWO15 == high && Unmask(masked) % TWO15 == low;
    assert high + low * TWO17 == rot;
  }

  /** A fragment that parses is what the writer would have written. */
  lemma {:induction false} ParsedIsWritten(sum: Checksum, buffer: Bytes, eof: bool)
    requires |buffer| >= HEADER_SIZE && ParseBuffer(sum, buffer, eof).found.Fragment?
    ensures var p := ParseBuffer(sum, buffer, eof);
            && |p.found.data| <= 0xffff && p.used == HEADER_SIZE + |p.found.data|
            && buffer[..p.used] == FragmentBytes(sum, p.found.kind, p.found.data)
  {
    hide EncodeFixed32, DecodeFixed32, Mask, Unmask;
    var p := ParseBuffer(sum, buffer, eof);
    var n := |p.found.data|;
    EncodeUndoesDecode(buffer);
    MaskUndoesUnmask(DecodeFixed32(buffer));
    assert n % 256 == buffer[4] as nat && n / 256 == buffer[5] as nat;
    assert buffer[..p.used] == buffer[..4] + [buffer[4], buffer[5], buffer[6]] + buffer[HEADER_SIZE..p.used];
  }

  /** The reader stands in the block that ends at blockEnd. */
  predicate InBlock(pos: nat, blockEnd: nat) {
    blockEnd % BLOCK_SIZE == 0 && pos <= blockEnd <= pos + BLOCK_SIZE
  }

  lemma {:induction false} BlockOffset(pos: nat, blockEnd: nat)
    requires InBlock(pos, blockEnd)
    ensures pos < blockEnd ==> pos % BLOCK_SIZE == BLOCK_SIZE - (blockEnd - pos) || blockEnd - pos == BLOCK_SIZE
    ensures pos == blockEnd || blockEnd - pos == BLOCK_SIZE ==> pos % BLOCK_SIZE == 0
    ensures HeaderBehind(pos) == if 0 < blockEnd - pos < HEADER_SIZE then blockEnd else pos
  {
    var q := blockEnd / BLOCK_SIZE;
    assert blockEnd == BLOCK_SIZE * q;
    if pos == blockEnd {
    } else if blockEnd - pos == BLOCK_SIZE {
      assert pos == BLOCK_SIZE * (q - 1);
    } else {
      assert pos == BLOCK_SIZE * (q - 1) + (BLOCK_SIZE - (blockEnd - pos));
    }
  }

  lemma {:induction false} NextBlock(blockEnd: nat)
    requires blockEnd % BLOCK_SIZE == 0
    ensures InBlock(blockEnd, blockEnd + BLOCK_SIZE)
  {
  }

  lemma {:induction false} PhysicalIsPart(sum: Checksum, file: Bytes, pos: nat, blockEnd: nat)
    requires pos <= |file| && InBlock(pos, blockEnd)
    ensures var r := ReadPhysical(sum, file, pos, blockEnd);
            && InBlock(r.pos, r.blockEnd)
            && (r.found.Fragment? ==>
                  && r.pos == HeaderBehind(pos) + HEADER_SIZE + |r.found.data|
                  && PartLies(sum, file, Part(HeaderBehind(pos), r.found.kind, r.found.data)))
    decreases |file| + BLOCK_SIZE - blockEnd
  {
    hide ParseBuffer, HeaderBehind, FragmentBytes;
    var buffer := Buffered(file, pos, blockEnd);
    BlockOffset(pos, blockEnd);
    if |buffer| < HEADER_SIZE {
      if blockEnd <= |file| {
        NextBlock(blockEnd);
        BlockOffset(blockEnd, blockEnd + BLOCK_SIZE);
        PhysicalIsPart(sum, file, blockEnd, blockEnd + BLOCK_SIZE);
      }
    } else {
      var p := ParseBuffer(sum, buffer, blockEnd > |file|);
      if p.found.Fragment? {
        ParsedIsWritten(sum, buffer, blockEnd > |file|);
        assert buffer[..p.used] == file[pos..pos + p.used];
      }
    }
  }

  lemma {:induction false} PayloadMore(parts: seq<Part>, p: Part)
    ensures Payload(parts + [p]) == Payload(parts) + p.data
  {
    assert (parts + [p])[..|parts|] == parts;
  }

  lemma {:induction false} BegunMore(sum: Checksum, file: Bytes, parts: seq<Part>, p: Part)
    requires Begun(sum, file, parts) && PartLies(sum, file, p) && p.pos == HeaderBehind(EndOf(parts[|parts| - 1]))
    ensures p.kind == MIDDLE ==> Begun(sum, file, parts + [p])
    ensures p.kind == LAST ==> Spells(sum, file, parts + [p], Payload(parts) + p.data)
  {
    hide PartLies, HeaderBehind, EndOf;
    PayloadMore(parts, p);
    assert (parts + [p])[..|parts|] == parts;
  }

  lemma {:induction false} Alone(sum: Checksum, file: Bytes, p: Part)
    requires PartLies(sum, file, p)
    ensures p.kind == FULL ==> Spells(sum, file, [p], p.data)
    ensures p.kind == FIRST ==> Begun(sum, file, [p])
    ensures Payload([p]) == p.data
  {
    hide PartLies;
    PayloadMore([], p);
    assert [] + [p] == [p] && [] + p.data == p.data;
  }

  /** From a state in which parts have been read of a record, if any. */
  lemma {:induction false} RecordIsWhole(sum: Checksum, file: Bytes, pos: nat, blockEnd: nat, inFragment: bool, scratch: Bytes, parts: seq<Part>)
    requires pos <= |file| && InBlock(pos, blockEnd)
    requires inFragment ==> Begun(sum, file, parts) && scratch == Payload(parts) && pos == EndOf(parts[|parts| - 1])
    ensures var o := ReadRecord(sum, file, pos, blockEnd, inFragment, scratch);
            InBlock(o.pos, o.blockEnd) && (o.record.Some? ==> IsRecord(sum, file, o.record.value))
    decreases |file| - pos
  {
    hide ReadPhysical, PartLies, HeaderBehind, Begun, Spells, Payload;
    PhysicalIsPart(sum, file, pos, blockEnd);
    var r := ReadPhysical(sum, file, pos, blockEnd);
    var parts' := parts;
    if r.found.Fragment? {
      var p := Part(HeaderBehind(pos), r.found.kind, r.found.data);
      Alone(sum, file, p);
      parts' := [p];
      if inFragment {
        BegunMore(sum, file, parts, p);
        if p.kind == MIDDLE {
          PayloadMore(parts, p);
          parts' := parts + [p];
        }
      }
    }
    match Follow(r.found, inFragment, scratch)
    case Stop(record, _) =>
    case GoOn(inFragment', scratch', _) =>
      RecordIsWhole(sum, file, r.pos, r.blockEnd, inFragment', scratch', parts');
  }

  lemma {:induction false} AllAreWhole(sum: Checksum, file: Bytes, pos: nat, blockEnd: nat)
    requires pos <= |file| && InBlock(pos, blockEnd)
    ensures forall record :: record in ReadAll(sum, file, pos, blockEnd).0 ==> IsRecord(sum, file, record)
    decreases |file| - pos
  {
    hide ReadRecord, IsRecord;
    RecordIsWhole(sum, file, pos, blockEnd, false, [], []);
    var o := ReadRecord(sum, file, pos, blockEnd, false, []);
    if o.record.Some? {
      AllAreWhole(sum, file, o.pos, o.blockEnd);
    }
  }

  /** On any file, what is read is made of checked fragments, and nothing between them is left out. */
  lemma {:induction false} OnlyWholeRecords(sum: Checksum, file: Bytes)
    ensures forall record :: record in ReadAll(sum, file, 0, 0).0 ==> IsRecord(sum, file, record)
  {
    AllAreWhole(sum, file, 0, 0);
  }

  // ---------------------------------------------------------------------------------------------
  // Preallocated space
  // ---------------------------------------------------------------------------------------------

  predicate ZeroesFrom(file: Bytes, pos: nat) {
    forall i :: pos <= i < |file| ==> file[i] == 0
  }

  lemma {:induction false} ZeroBufferIsSkipped(sum: Checksum, buffer: Bytes, eof: bool)
    requires |buffer| >= HEADER_SIZE && forall i :: 0 <= i < |buffer| ==> buffer[i] == 0
    ensures ParseBuffer(sum, buffer, eof) == Parsed(BadRecord, |buffer|, [])
  {
  }

  lemma {:induction false} ZeroesArePassed(sum: Checksum, file: Bytes, pos: nat, blockEnd: nat)
    requires pos <= |file| && pos <= blockEnd && ZeroesFrom(file, pos)
    ensures var r := ReadPhysical(sum, file, pos, blockEnd); !r.found.Fragment? && r.reports == [] && r.pos >= pos
    decreases |file| + BLOCK_SIZE - blockEnd
  {
    hide ParseBuffer;
    var buffer := Buffered(file, pos, blockEnd);
    if |buffer| >= HEADER_SIZE {
      ZeroBufferIsSkipped(sum, buffer, blockEnd > |file|);
    } else if blockEnd <= |file| {
      ZeroesArePassed(sum, file, blockEnd, blockEnd + BLOCK_SIZE);
    }
  }

  lemma {:induction false} ZeroesReadNothing(sum: Checksum, file: Bytes, pos: nat, blockEnd: nat)
    requires pos <= |file| && pos <= blockEnd && ZeroesFrom(file, pos)
    ensures var o := ReadRecord(sum, file, pos, blockEnd, false, []); o.record == None && o.reports == []
    decreases |file| - pos
  {
    hide ReadPhysical;
    ZeroesArePassed(sum, file, pos, blockEnd);
    var r := ReadPhysical(sum, file, pos, blockEnd);
    if r.found.BadRecord? {
      ZeroesReadNothing(sum, file, r.pos, r.blockEnd);
    }
  }

  lemma {:induction false} LogThenZeroes(sum: Checksum, file: Bytes, pos: nat, offset: nat, records: seq<Bytes>)
    requires pos <= |file| && offset <= BLOCK_SIZE && LiesAt(file, pos, LogBytes(sum, offset, records))
    requires ZeroesFrom(file, pos + |LogBytes(sum, offset, records)|)
    ensures ReadAll(sum, file, pos, pos + BLOCK_SIZE - offset) == (records, [])
    decreases records
  {
    hide RecordBytes, RecordEnd, ReadRecord, ZeroesFrom;
    var o := ReadRecord(sum, file, pos, pos + BLOCK_SIZE - offset, false, []);
    if records == [] {
      ZeroesReadNothing(sum, file, pos, pos + BLOCK_SIZE - offset);
    } else {
      var r, end := RecordBytes(sum, offset, records[0], true), RecordEnd(offset, |records[0]|);
      LiesSplit(file, pos, r, LogBytes(sum, end, records[1..]), LogBytes(sum, offset, records));
      ReadsRecord(sum, file, file, pos, offset, records[0], true, []);
      assert [] + records[0] == records[0];
      ReadAllUnfolds(sum, file, pos, pos + BLOCK_SIZE - offset, o);
      LogThenZeroes(sum, file, pos + |r|, end, records[1..]);
      assert [records[0]] + records[1..] == records;
    }
  }

  /** Zeroes behind a log, as preallocated space leaves them, add no record and are not reported. */
  lemma {:induction false} ZeroesAreSkipped(sum: Checksum, records: seq<Bytes>, n: nat)
    ensures ReadAll(sum, LogBytes(sum, 0, records) + seq(n, i => 0), 0, 0) == (records, [])
  {
    hide LogBytes, ReadAll;
    FullBlockIsEmptyBlock(sum, records, 0);
    var full := LogBytes(sum, BLOCK_SIZE, records);
    LogThenZeroes(sum, full + seq(n, i => 0), 0, BLOCK_SIZE, records);
  }

  // ---------------------------------------------------------------------------------------------
  // What becomes of the bytes
  // ---------------------------------------------------------------------------------------------

  function Total(sizes: seq<nat>): nat {
    if sizes == [] then 0 else sizes[0] + Total(sizes[1..])
  }

  function TotalLength(records: seq<Bytes>): nat {
    if records == [] then 0 else |records[0]| + TotalLength(records[1..])
  }

  lemma {:induction false} TotalOfBoth(a: seq<nat>, b: seq<nat>)
    ensures Total(a + b) == Total(a) + Total(b)
  {
    if a == [] {
      assert a + b == b;
    } else {
      assert (a + b)[1..] == a[1..] + b;
      TotalOfBoth(a[1..], b);
    }
  }

  /** The payloads of all fragments from a place on that pass their checks, and the bytes dropped without looking. */
  function Arriving(sum: Checksum, file: Bytes, pos: nat, blockEnd: nat): nat
    requires pos <= |file| && pos <= blockEnd
    decreases |file| - pos
  {
    var r := ReadPhysical(sum, file, pos, blockEnd);
    if r.found.Eof? then 0
    else (if r.found.Fragment? then |r.found.data| else 0) + Total(r.reports) + Arriving(sum, file, r.pos, r.blockEnd)
  }

  /** What a record begun and not ended holds at the end of the file. */
  function Unfinished(sum: Checksum, file: Bytes, pos: nat, blockEnd: nat, inFragment: bool, scratch: Bytes): nat
    requires pos <= |file| && pos <= blockEnd
    decreases |file| - pos
  {
    var r := ReadPhysical(sum, file, pos, blockEnd);
    if r.found.Eof? then Held(inFragment, scratch)
    else
      match Follow(r.found, inFragment, scratch)
      case Stop(_, _) => Unfinished(sum, file, r.pos, r.blockEnd, false, [])
      case GoOn(inFragment', scratch', _) => Unfinished(sum, file, r.pos, r.blockEnd, inFragment', scratch')
  }

  function Held(inFragment: bool, scratch: Bytes): nat {
    if inFragment then |scratch| else 0
  }

  /** What one fragment adds is in a record, in a report, or held on to. */
  lemma {:induction false} FollowAccounts(found: Found, inFragment: bool, scratch: Bytes)
    ensures var data := if found.Fragment? then |found.data| else 0;
            match Follow(found, inFragment, scratch)
            case Stop(None, reports) => found.Eof? && reports == [] && Total([]) == 0
            case Stop(Some(record), reports) => !found.Eof? && |record| + Total(reports) == data + Held(inFragment, scratch)
            case GoOn(inFragment', scratch', reports) =>
              !found.Eof? && Total(reports) + Held(inFragment', scratch') == data + Held(inFragment, scratch)
  {
    assert forall n: nat :: Total([n]) == n + Total([n][1..]) && [n][1..] == [];
  }

  lemma {:induction false} RecordAccounts(sum: Checksum, file: Bytes, pos: nat, blockEnd: nat, inFragment: bool, scratch: Bytes)
    requires pos <= |file| && pos <= blockEnd
    ensures var o := ReadRecord(sum, file, pos, blockEnd, inFragment, scratch);
            var held := Held(inFragment, scratch);
            if o.record.None? then
              Total(o.reports) + Unfinished(sum, file, pos, blockEnd, inFragment, scratch) == Arriving(sum, file, pos, blockEnd) + held
            else
              && |o.record.value| + Total(o.reports) + Arriving(sum, file, o.pos, o.blockEnd) == Arriving(sum, file, pos, blockEnd) + held
              && Unfinished(sum, file, pos, blockEnd, inFragment, scratch) == Unfinished(sum, file, o.pos, o.blockEnd, false, [])
    decreases |file| - pos
  {
    hide ReadPhysical, Follow, Total, Held;
    var r := ReadPhysical(sum, file, pos, blockEnd);
    FollowAccounts(r.found, inFragment, scratch);
    match Follow(r.found, inFragment, scratch)
    case Stop(_, reports) =>
      TotalOfBoth(r.reports, reports);
    case GoOn(inFragment', scratch', reports) =>
      var o := ReadRecord(sum, file, r.pos, r.blockEnd, inFragment', scratch');
      TotalOfBoth(r.reports, reports);
      TotalOfBoth(r.reports + reports, o.reports);
      RecordAccounts(sum, file, r.pos, r.blockEnd, inFragment', scratch');
  }

  lemma {:induction false} AllAccount(sum: Checksum, file: Bytes, pos: nat, blockEnd: nat)
    requires pos <= |file| && pos <= blockEnd
    ensures var all := ReadAll(sum, file, pos, blockEnd);
            TotalLength(all.0) + Total(all.1) + Unfinished(sum, file, pos, blockEnd, false, []) == Arriving(sum, file, pos, blockEnd)
    decreases |file| - pos
  {
    hide ReadRecord, Unfinished, Arriving, Total;
    RecordAccounts(sum, file, pos, blockEnd, false, []);
    var o := ReadRecord(sum, file, pos, blockEnd, false, []);
    if o.record.Some? {
      var all := ReadAll(sum, file, o.pos, o.blockEnd);
      AllAccount(sum, file, o.pos, o.blockEnd);
      TotalOfBoth(o.reports, all.1);
      assert ([o.record.value] + all.0)[1..] == all.0;
    }
  }

  /** The payload bytes that pass their checks on any file are in records, in reports, or in a record that the file breaks off. */
  lemma {:induction false} NothingVanishes(sum: Checksum, file: Bytes)
    ensures var all := ReadAll(sum, file, 0, 0);
            TotalLength(all.0) + Total(all.1) + Unfinished(sum, file, 0, 0, false, []) == Arriving(sum, file, 0, 0)
  {
    AllAccount(sum, file, 0, 0);
  }
}
