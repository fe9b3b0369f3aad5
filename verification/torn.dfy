/**
 Reopening a log where it was torn (db/log_writer.cc with db/log_reader.cc, and reuse_logs in db/db_impl.cc): what a
 reader makes of a log that was cut anywhere and then written on, and exactly when it reads everything that is whole.
 */
module TornLogs {
  import opened Keys
  import opened Version
  import opened Coding
  import opened Crc32c
  import opened RecordLog

  // ---------------------------------------------------------------------------------------------
  // The records that are still to come
  // ---------------------------------------------------------------------------------------------

  /** The records that a reader returns from a place on, with a record begun or not. */
  function RecordsFrom(sum: Checksum, file: Bytes, pos: nat, blockEnd: nat, inFragment: bool, scratch: Bytes): seq<Bytes>
    requires pos <= |file| && pos <= blockEnd
  {
    var o := ReadRecord(sum, file, pos, blockEnd, inFragment, scratch);
    if o.record.None? then [] else [o.record.value] + ReadAll(sum, file, o.pos, o.blockEnd).0
  }

  /** One physical record at a time. */
  lemma {:induction false} RecordsUnfold(sum: Checksum, file: Bytes, pos: nat, blockEnd: nat, inFragment: bool, scratch: Bytes)
    requires pos <= |file| && pos <= blockEnd
    ensures var r := ReadPhysical(sum, file, pos, blockEnd);
            RecordsFrom(sum, file, pos, blockEnd, inFragment, scratch)
            == match Follow(r.found, inFragment, scratch)
               case Stop(record, _) => if record.None? then [] else [record.value] + RecordsFrom(sum, file, r.pos, r.blockEnd, false, [])
               case GoOn(in2, scratch2, _) => RecordsFrom(sum, file, r.pos, r.blockEnd, in2, scratch2)
  {
    hide ReadPhysical, Follow;
    var r := ReadPhysical(sum, file, pos, blockEnd);
    AllFrom(sum, file, r.pos, r.blockEnd);
  }

  lemma {:induction false} AllFrom(sum: Checksum, file: Bytes, pos: nat, blockEnd: nat)
    requires pos <= |file| && pos <= blockEnd
    ensures ReadAll(sum, file, pos, blockEnd).0 == RecordsFrom(sum, file, pos, blockEnd, false, [])
  {
    hide ReadRecord;
  }

  lemma {:induction false} NothingFrom(sum: Checksum, file: Bytes, blockEnd: nat, inFragment: bool, scratch: Bytes)
    requires |file| <= blockEnd
    ensures RecordsFrom(sum, file, |file|, blockEnd, inFragment, scratch) == []
  {
    hide RecordsFrom;
    RecordsUnfold(sum, file, |file|, blockEnd, inFragment, scratch);
  }

  /** Two places from which the same physical record is read. */
  lemma {:induction false} SamePlace(sum: Checksum, file: Bytes, p: nat, pEnd: nat, q: nat, qEnd: nat, inFragment: bool, scratch: Bytes)
    requires p <= |file| && p <= pEnd && q <= |file| && q <= qEnd
    requires ReadPhysical(sum, file, p, pEnd) == ReadPhysical(sum, file, q, qEnd)
    ensures RecordsFrom(sum, file, p, pEnd, inFragment, scratch) == RecordsFrom(sum, file, q, qEnd, inFragment, scratch)
  {
    hide ReadPhysical, RecordsFrom, Follow;
    RecordsUnfold(sum, file, p, pEnd, inFragment, scratch);
    RecordsUnfold(sum, file, q, qEnd, inFragment, scratch);
  }

  /** A whole fragment at the reader's place. */
  lemma {:induction false} FragmentFrom(sum: Checksum, file: Bytes, pos: nat, offset: nat, data: Bytes, begin: bool,
                                        inFragment: bool, scratch: Bytes)
    requires pos <= |file| && offset <= BLOCK_SIZE && LiesAt(file, pos, HeadBytes(sum, offset, data, begin))
    ensures var n, next := FragmentLength(offset, |data|), pos + |HeadBytes(sum, offset, data, begin)|;
            var nextEnd := next + BLOCK_SIZE - NextOffset(offset, |data|);
            RecordsFrom(sum, file, pos, pos + BLOCK_SIZE - offset, inFragment, scratch)
            == match Follow(Fragment(FragmentKind(begin, n == |data|), data[..n]), inFragment, scratch)
               case Stop(record, _) => if record.None? then [] else [record.value] + RecordsFrom(sum, file, next, nextEnd, false, [])
               case GoOn(in2, scratch2, _) => RecordsFrom(sum, file, next, nextEnd, in2, scratch2)
  {
    hide *;
    ReadsHead(sum, file, file, pos, offset, data, begin);
    RecordsUnfold(sum, file, pos, pos + BLOCK_SIZE - offset, inFragment, scratch);
    HeadLies(sum, file, pos, offset, data, begin);
  }

  lemma {:induction false} HeadLies(sum: Checksum, file: Bytes, pos: nat, offset: nat, data: Bytes, begin: bool)
    requires pos <= |file| && offset <= BLOCK_SIZE && LiesAt(file, pos, HeadBytes(sum, offset, data, begin))
    ensures pos + |HeadBytes(sum, offset, data, begin)| <= |file|
  {
  }

  // ---------------------------------------------------------------------------------------------
  // Whole records
  // ---------------------------------------------------------------------------------------------

  /** What a whole fragment does to the record that is being put together. */
  lemma {:induction false} HeadFrom(sum: Checksum, file: Bytes, pos: nat, offset: nat, data: Bytes, begin: bool,
                                    inFragment: bool, scratch: Bytes)
    requires pos <= |file| && offset <= BLOCK_SIZE && LiesAt(file, pos, HeadBytes(sum, offset, data, begin))
    ensures var n, next := FragmentLength(offset, |data|), pos + |HeadBytes(sum, offset, data, begin)|;
            var nextEnd := next + BLOCK_SIZE - NextOffset(offset, |data|);
            var scratch2 := if begin then data[..n] else if inFragment then scratch + data[..n] else scratch;
            && next <= |file|
            && RecordsFrom(sum, file, pos, pos + BLOCK_SIZE - offset, inFragment, scratch)
               == if n < |data| then RecordsFrom(sum, file, next, nextEnd, begin || inFragment, scratch2)
                  else if begin || inFragment then [scratch2] + RecordsFrom(sum, file, next, nextEnd, false, [])
                  else RecordsFrom(sum, file, next, nextEnd, false, scratch)
  {
    hide HeadBytes, NextOffset, RecordsFrom, LiesAt;
    HeadLies(sum, file, pos, offset, data, begin);
    FragmentFrom(sum, file, pos, offset, data, begin, inFragment, scratch);
  }

  /** A whole record is returned, whatever was begun before it; the rest of one whose start is missing is dropped. */
  lemma {:induction false} RecordFrom(sum: Checksum, file: Bytes, pos: nat, offset: nat, data: Bytes, begin: bool,
                                      inFragment: bool, scratch: Bytes)
    requires pos <= |file| && offset <= BLOCK_SIZE && LiesAt(file, pos, RecordBytes(sum, offset, data, begin))
    ensures var next := pos + |RecordBytes(sum, offset, data, begin)|;
            var nextEnd := next + BLOCK_SIZE - RecordEnd(offset, |data|);
            next <= |file| &&
            RecordsFrom(sum, file, pos, pos + BLOCK_SIZE - offset, inFragment, scratch)
            == if begin then [data] + RecordsFrom(sum, file, next, nextEnd, false, [])
               else if inFragment then [scratch + data] + RecordsFrom(sum, file, next, nextEnd, false, [])
               else RecordsFrom(sum, file, next, nextEnd, false, scratch)
    decreases |data|, HeaderAt(offset)
  {
    hide RecordBytes, HeadBytes, RecordEnd, NextOffset, FragmentLength, RecordsFrom, HeaderAt, LiesAt, FragmentKind, Trailer;
    var n, head := FragmentLength(offset, |data|), HeadBytes(sum, offset, data, begin);
    RecordUnfolds(sum, offset, data, begin);
    var rest := if n == |data| then [] else RecordBytes(sum, NextOffset(offset, |data|), data[n..], false);
    LiesSplit(file, pos, head, rest, RecordBytes(sum, offset, data, begin));
    HeadFrom(sum, file, pos, offset, data, begin, inFragment, scratch);
    if n == |data| {
      assert data[..n] == data;
    } else {
      var scratch2 := if begin then data[..n] else if inFragment then scratch + data[..n] else scratch;
      RecordFrom(sum, file, pos + |head|, NextOffset(offset, |data|), data[n..], false, begin || inFragment, scratch2);
      assert data[..n] + data[n..] == data;
      assert scratch + data[..n] + data[n..] == scratch + data;
    }
  }

  /** A log to the end of the file is read whole, whatever was begun before it. */
  lemma {:induction false} LogFrom(sum: Checksum, file: Bytes, pos: nat, offset: nat, records: seq<Bytes>, inFragment: bool, scratch: Bytes)
    requires pos <= |file| && offset <= BLOCK_SIZE && file[pos..] == LogBytes(sum, offset, records)
    ensures RecordsFrom(sum, file, pos, pos + BLOCK_SIZE - offset, inFragment, scratch) == records
    decreases records
  {
    hide *;
    if records == [] {
      LogNothing(sum, file, pos, offset);
      NothingFrom(sum, file, pos + BLOCK_SIZE - offset, inFragment, scratch);
    } else {
      var r := RecordBytes(sum, offset, records[0], true);
      LogUnfolds(sum, file, pos, offset, records);
      RecordFrom(sum, file, pos, offset, records[0], true, inFragment, scratch);
      LogFrom(sum, file, pos + |r|, RecordEnd(offset, |records[0]|), records[1..], false, []);
    }
  }

  /** A log inside the file is read whole, and the reader goes on behind it. */
  lemma {:induction false} PrefixFrom(sum: Checksum, file: Bytes, pos: nat, offset: nat, records: seq<Bytes>)
    requires pos <= |file| && offset <= BLOCK_SIZE && LiesAt(file, pos, LogBytes(sum, offset, records))
    ensures var next := pos + |LogBytes(sum, offset, records)|;
            next <= |file| &&
            RecordsFrom(sum, file, pos, pos + BLOCK_SIZE - offset, false, [])
            == records + RecordsFrom(sum, file, next, next + BLOCK_SIZE - LogEnd(offset, records), false, [])
    decreases records
  {
    hide RecordBytes, RecordEnd, RecordsFrom;
    if records != [] {
      var r, end := RecordBytes(sum, offset, records[0], true), RecordEnd(offset, |records[0]|);
      LiesSplit(file, pos, r, LogBytes(sum, end, records[1..]), LogBytes(sum, offset, records));
      RecordFrom(sum, file, pos, offset, records[0], true, false, []);
      PrefixFrom(sum, file, pos + |r|, end, records[1..]);
      assert [records[0]] + records[1..] == records;
    }
  }

  // ---------------------------------------------------------------------------------------------
  // After a block was dropped
  // ---------------------------------------------------------------------------------------------

  /** The records of a log that start before the end of the block it starts in. */
  function Missed(offset: nat, records: seq<Bytes>): (n: nat)
    requires offset <= BLOCK_SIZE
    ensures n <= |records|
    ensures n == 0 <==> records == [] || BLOCK_SIZE - offset < HEADER_SIZE
    decreases records
  {
    if records == [] || BLOCK_SIZE - offset < HEADER_SIZE then 0
    else if FragmentLength(offset, |records[0]|) < |records[0]| then 1
    else 1 + Missed(NextOffset(offset, |records[0]|), records[1..])
  }

  function DropEnd(file: Bytes, blockEnd: nat): nat {
    if blockEnd < |file| then blockEnd else |file|
  }

  /** From the end of a block on, exactly the records that start behind it are read. */
  lemma {:induction false} DroppedFrom(sum: Checksum, file: Bytes, pos: nat, offset: nat, records: seq<Bytes>, scratch: Bytes)
    requires pos <= |file| && offset <= BLOCK_SIZE && file[pos..] == LogBytes(sum, offset, records)
    ensures var end := pos + BLOCK_SIZE - offset;
            RecordsFrom(sum, file, DropEnd(file, end), end, false, scratch) == records[Missed(offset, records)..]
    decreases records
  {
    hide *;
    var end := pos + BLOCK_SIZE - offset;
    if records == [] {
      LogNothing(sum, file, pos, offset);
      EndsBefore(file, end);
      NothingFrom(sum, file, end, false, scratch);
      NoneMissed(offset, records);
    } else if BLOCK_SIZE - offset < 7 {
      NoneMissed(offset, records);
      DropAtTrailer(sum, file, pos, offset, records, scratch);
    } else {
      var data, head := records[0], HeadBytes(sum, offset, records[0], true);
      var n := FragmentLength(offset, |data|);
      LogUnfolds(sum, file, pos, offset, records);
      RecordUnfolds(sum, offset, data, true);
      HeadFits(sum, offset, data, true);
      MissedUnfolds(offset, records);
      if n == |data| {
        HeadLies(sum, file, pos, offset, data, true);
        DroppedFrom(sum, file, pos + |head|, NextOffset(offset, |data|), records[1..], scratch);
      } else {
        DropInRecord(sum, file, pos, offset, records, scratch);
      }
    }
  }

  lemma {:induction false} EndsBefore(file: Bytes, end: nat)
    requires |file| <= end
    ensures DropEnd(file, end) == |file|
  {
  }

  lemma {:induction false} NoneMissed(offset: nat, records: seq<Bytes>)
    requires offset <= BLOCK_SIZE && (records == [] || BLOCK_SIZE - offset < 7)
    ensures Missed(offset, records) == 0 && records[Missed(offset, records)..] == records
  {
  }

  lemma {:induction false} MissedUnfolds(offset: nat, records: seq<Bytes>)
    requires offset <= BLOCK_SIZE && records != [] && BLOCK_SIZE - offset >= 7
    ensures records[Missed(offset, records)..]
         == if FragmentLength(offset, |records[0]|) < |records[0]| then records[1..]
            else records[1..][Missed(NextOffset(offset, |records[0]|), records[1..])..]
  {
  }

  /** A fragment that fits in the block ends where the next offset says; one that goes on ends the block. */
  lemma {:induction false} HeadFits(sum: Checksum, offset: nat, data: Bytes, begin: bool)
    requires offset <= BLOCK_SIZE && BLOCK_SIZE - offset >= 7
    ensures |HeadBytes(sum, offset, data, begin)| == NextOffset(offset, |data|) - offset
    ensures FragmentLength(offset, |data|) < |data| ==> NextOffset(offset, |data|) == BLOCK_SIZE
    ensures FragmentLength(offset, |data|) <= |data|
  {
    hide FragmentBytes;
  }

  /** The log starts with a trailer: nothing of it is lost with the block. */
  lemma {:induction false} DropAtTrailer(sum: Checksum, file: Bytes, pos: nat, offset: nat, records: seq<Bytes>, scratch: Bytes)
    requires pos <= |file| && offset <= BLOCK_SIZE && file[pos..] == LogBytes(sum, offset, records)
    requires records != [] && BLOCK_SIZE - offset < 7
    ensures var end := pos + BLOCK_SIZE - offset;
            RecordsFrom(sum, file, DropEnd(file, end), end, false, scratch) == records
  {
    hide LogBytes, RecordBytes, RecordsFrom, ParseBuffer;
    var end := pos + BLOCK_SIZE - offset;
    LogUnfolds(sum, file, pos, offset, records);
    RecordIsLong(sum, offset, records[0]);
    assert end <= |file|;
    SamePlace(sum, file, pos, end, end, end, false, scratch);
    LogFrom(sum, file, pos, offset, records, false, scratch);
  }

  lemma {:induction false} RecordIsLong(sum: Checksum, offset: nat, data: Bytes)
    requires offset <= BLOCK_SIZE
    ensures |RecordBytes(sum, offset, data, true)| >= |Trailer(offset)| + 7
  {
    hide FragmentBytes;
    RecordUnfolds(sum, offset, data, true);
  }

  /** The first record goes on behind the block: what is left of it is dropped too. */
  lemma {:induction false} DropInRecord(sum: Checksum, file: Bytes, pos: nat, offset: nat, records: seq<Bytes>, scratch: Bytes)
    requires pos <= |file| && offset <= BLOCK_SIZE && file[pos..] == LogBytes(sum, offset, records)
    requires records != [] && BLOCK_SIZE - offset >= 7 && FragmentLength(offset, |records[0]|) < |records[0]|
    ensures var end := pos + BLOCK_SIZE - offset;
            RecordsFrom(sum, file, DropEnd(file, end), end, false, scratch) == records[1..]
  {
    hide LogBytes, RecordBytes, RecordsFrom, HeadBytes, RecordEnd, LiesAt, NextOffset, FragmentLength;
    var data, end := records[0], pos + BLOCK_SIZE - offset;
    var n, next := FragmentLength(offset, |data|), NextOffset(offset, |data|);
    var head, rest := HeadBytes(sum, offset, data, true), RecordBytes(sum, next, data[n..], false);
    LogUnfolds(sum, file, pos, offset, records);
    RecordUnfolds(sum, offset, data, true);
    HeadFits(sum, offset, data, true);
    LiesSplit(file, pos, head, rest, RecordBytes(sum, offset, data, true));
    HeadLies(sum, file, pos, offset, data, true);
    assert DropEnd(file, end) == end == pos + |head|;
    RecordFrom(sum, file, end, next, data[n..], false, false, scratch);
    LogFrom(sum, file, pos + |head| + |rest|, RecordEnd(offset, |data|), records[1..], false, scratch);
  }

  // ---------------------------------------------------------------------------------------------
  // The torn record
  // ---------------------------------------------------------------------------------------------

  /** A torn fragment: where its header starts in the record, and at which place of its block. */
  datatype Torn = Torn(start: nat, offset: nat)

  /**
   The fragment that is cut through when only the first m bytes are left of a record of the given length; None when
   the cut is at the end of a block, or in a trailer.
   */
  function TornAt(offset: nat, length: nat, m: nat): (t: Option<Torn>)
    requires offset <= BLOCK_SIZE
    ensures t.Some? ==> t.value.start < m && t.value.offset + HEADER_SIZE <= BLOCK_SIZE
    decreases length, HeaderAt(offset)
  {
    var n, skipped := FragmentLength(offset, length), |Trailer(offset)|;
    var head := skipped + HEADER_SIZE + n;
    if m <= skipped then None
    else if m < head then Some(Torn(skipped, HeaderAt(offset)))
    else if n == length then None
    else
      match TornAt(NextOffset(offset, length), length - n, m - head)
      case None => None
      case Some(t) => Some(Torn(t.start + head, t.offset))
  }

  /** What the torn header and the bytes written behind it make up is not taken for a fragment. */
  predicate Unverified(sum: Checksum, file: Bytes, start: nat, offset: nat)
    requires offset <= BLOCK_SIZE
  {
    var end := start + BLOCK_SIZE - offset;
    start + HEADER_SIZE <= DropEnd(file, end) ==> !ParseBuffer(sum, file[start..DropEnd(file, end)], end > |file|).found.Fragment?
  }

  predicate TornUnverified(sum: Checksum, file: Bytes, pos: nat, offset: nat, length: nat, m: nat)
    requires offset <= BLOCK_SIZE
  {
    match TornAt(offset, length, m)
    case None => true
    case Some(t) => Unverified(sum, file, pos + t.start, t.offset)
  }

  /** The place in its block of byte m of a log that starts at the given place. */
  ghost predicate PlaceIs(offset: nat, m: nat, place: nat) {
    place < BLOCK_SIZE && exists blocks: nat :: offset + m == place + BLOCK_SIZE * blocks
  }

  /** The records that are read of those written behind a torn one. */
  function ReadBehind(place: nat, records: seq<Bytes>): seq<Bytes>
    requires place <= BLOCK_SIZE
  {
    if HeaderAt(place) == 0 then records else records[Missed(place, records)..]
  }

  /** The first m bytes of what a record adds, and then a log of other records. */
  ghost predicate TornLog(sum: Checksum, file: Bytes, pos: nat, offset: nat, data: Bytes, begin: bool, m: nat, place: nat, records: seq<Bytes>) {
    && offset <= BLOCK_SIZE && place <= BLOCK_SIZE && m < |RecordBytes(sum, offset, data, begin)| && pos + m <= |file|
    && file[pos..pos + m] == RecordBytes(sum, offset, data, begin)[..m]
    && file[pos + m..] == LogBytes(sum, place, records)
  }

  /** Before the first header: nothing is torn, the new log starts at the reader's place or in the trailer. */
  lemma {:induction false} TrailerFrom(sum: Checksum, file: Bytes, pos: nat, offset: nat, m: nat, place: nat, records: seq<Bytes>,
                                       inFragment: bool, scratch: Bytes)
    requires offset <= BLOCK_SIZE && PlaceIs(offset, m, place) && m <= |Trailer(offset)|
    requires pos + m <= |file| && file[pos + m..] == LogBytes(sum, place, records)
    ensures RecordsFrom(sum, file, pos, pos + BLOCK_SIZE - offset, inFragment, scratch) == records
    ensures m > 0 ==> HeaderAt(place) == 0
    ensures offset == BLOCK_SIZE ==> HeaderAt(place) == 0
  {
    hide LogBytes, RecordsFrom, ParseBuffer;
    PlaceInTrailer(offset, m, place);
    SamePlace(sum, file, pos, pos + BLOCK_SIZE - offset, pos + m, pos + m + BLOCK_SIZE - place, inFragment, scratch);
    LogFrom(sum, file, pos + m, place, records, inFragment, scratch);
  }

  lemma {:induction false} PlaceInTrailer(offset: nat, m: nat, place: nat)
    requires offset <= BLOCK_SIZE && PlaceIs(offset, m, place) && m <= |Trailer(offset)|
    ensures place == (if offset + m == BLOCK_SIZE then 0 else offset + m)
  {
    var blocks: nat :| offset + m == place + BLOCK_SIZE * blocks;
    assert offset + m <= BLOCK_SIZE;
  }

  /** In a fragment: the place is inside it, so in the block of its header. */
  lemma {:induction false} PlaceInFragment(offset: nat, length: nat, m: nat, place: nat)
    requires offset <= BLOCK_SIZE && PlaceIs(offset, m, place)
    requires |Trailer(offset)| < m < |Trailer(offset)| + HEADER_SIZE + FragmentLength(offset, length)
    ensures place == HeaderAt(offset) + (m - |Trailer(offset)|) && place > 0
  {
    var blocks: nat :| offset + m == place + BLOCK_SIZE * blocks;
    var skipped := |Trailer(offset)|;
    assert offset + m == HeaderAt(offset) + (m - skipped) + (if HeaderAt(offset) == offset then 0 else BLOCK_SIZE);
    assert HeaderAt(offset) + (m - skipped) < BLOCK_SIZE;
  }

  /** Past the first fragment of a record that goes on. */
  lemma {:induction false} PlaceBehind(sum: Checksum, offset: nat, data: Bytes, begin: bool, m: nat, place: nat)
    requires offset <= BLOCK_SIZE && PlaceIs(offset, m, place)
    requires |HeadBytes(sum, offset, data, begin)| <= m && FragmentLength(offset, |data|) < |data|
    ensures NextOffset(offset, |data|) == BLOCK_SIZE
    ensures PlaceIs(BLOCK_SIZE, m - |HeadBytes(sum, offset, data, begin)|, place)
    ensures |HeadBytes(sum, offset, data, begin)| == |Trailer(offset)| + HEADER_SIZE + FragmentLength(offset, |data|)
  {
    hide FragmentBytes;
    var blocks: nat :| offset + m == place + BLOCK_SIZE * blocks;
    var head, skipped := |HeadBytes(sum, offset, data, begin)|, |Trailer(offset)|;
    var crossed: nat := if HeaderAt(offset) == offset then 0 else 1;
    assert offset + skipped == HeaderAt(offset) + BLOCK_SIZE * crossed;
    assert offset + head == BLOCK_SIZE + BLOCK_SIZE * crossed;
    assert BLOCK_SIZE + (m - head) + BLOCK_SIZE * crossed == place + BLOCK_SIZE * blocks;
    assert blocks >= crossed;
    assert BLOCK_SIZE + (m - head) == place + BLOCK_SIZE * (blocks - crossed);
  }

  /** Through a fragment: the reader drops the rest of its block, new records included. */
  lemma {:induction false} TornFrom(sum: Checksum, file: Bytes, pos: nat, offset: nat, length: nat, m: nat, place: nat, records: seq<Bytes>,
                                    inFragment: bool, scratch: Bytes)
    requires offset <= BLOCK_SIZE && PlaceIs(offset, m, place)
    requires |Trailer(offset)| < m < |Trailer(offset)| + HEADER_SIZE + FragmentLength(offset, length)
    requires pos + m <= |file| && file[pos + m..] == LogBytes(sum, place, records)
    requires Unverified(sum, file, pos + |Trailer(offset)|, HeaderAt(offset))
    ensures RecordsFrom(sum, file, pos, pos + BLOCK_SIZE - offset, inFragment, scratch) == ReadBehind(place, records)
  {
    hide LogBytes, RecordsFrom, ParseBuffer, ReadPhysical, Unverified, Missed, FragmentLength;
    var start := pos + |Trailer(offset)|;
    var end := start + BLOCK_SIZE - HeaderAt(offset);
    PlaceInFragment(offset, length, m, place);
    SkipsTrailer(sum, file, pos, offset);
    SamePlace(sum, file, pos, pos + BLOCK_SIZE - offset, start, end, inFragment, scratch);
    UnverifiedDrops(sum, file, start, HeaderAt(offset));
    RecordsUnfold(sum, file, start, end, inFragment, scratch);
    DroppedFrom(sum, file, pos + m, place, records, []);
    assert pos + m + BLOCK_SIZE - place == end;
    if ReadPhysical(sum, file, start, end).found.Eof? {
      NothingFrom(sum, file, end, false, []);
    }
    NoneMissedAt(place, records);
  }

  lemma {:induction false} NoneMissedAt(place: nat, records: seq<Bytes>)
    requires 0 < place < BLOCK_SIZE
    ensures ReadBehind(place, records) == records[Missed(place, records)..]
  {
  }

  /** At an unverified header the reader drops the block, or is at the end of the file. */
  lemma {:induction false} UnverifiedDrops(sum: Checksum, file: Bytes, start: nat, offset: nat)
    requires offset + HEADER_SIZE <= BLOCK_SIZE && start <= |file| && Unverified(sum, file, start, offset)
    ensures var end := start + BLOCK_SIZE - offset;
            var r := ReadPhysical(sum, file, start, end);
            && !r.found.Fragment? && r.pos == DropEnd(file, end) && r.blockEnd == end
            && (r.found.Eof? ==> |file| < end)
  {
    hide ParseBuffer;
    var end := start + BLOCK_SIZE - offset;
    if start + HEADER_SIZE <= DropEnd(file, end) {
      ParseUses(sum, file[start..DropEnd(file, end)], end > |file|);
    }
  }

  lemma {:induction false} ParseUses(sum: Checksum, buffer: Bytes, eof: bool)
    requires |buffer| >= HEADER_SIZE
    ensures var p := ParseBuffer(sum, buffer, eof); !p.found.Fragment? ==> p.used == |buffer|
  {
  }

  /** A record cut anywhere, and a log written behind the cut. */
  lemma {:induction false} TornRecordFrom(sum: Checksum, file: Bytes, pos: nat, offset: nat, data: Bytes, begin: bool, m: nat, place: nat,
                                          records: seq<Bytes>, inFragment: bool, scratch: Bytes)
    requires TornLog(sum, file, pos, offset, data, begin, m, place, records) && PlaceIs(offset, m, place)
    requires TornUnverified(sum, file, pos, offset, |data|, m) && (!begin ==> inFragment)
    ensures RecordsFrom(sum, file, pos, pos + BLOCK_SIZE - offset, inFragment, scratch)
         == if m == 0 then records else ReadBehind(place, records)
    decreases |data|, HeaderAt(offset)
  {
    hide LogBytes, RecordsFrom, ParseBuffer, RecordBytes, HeadBytes, Unverified, FragmentLength, NextOffset, ReadBehind, PlaceIs;
    var n, head := FragmentLength(offset, |data|), HeadBytes(sum, offset, data, begin);
    RecordUnfolds(sum, offset, data, begin);
    HeadLength(sum, offset, data, begin);
    if m <= |Trailer(offset)| {
      TrailerFrom(sum, file, pos, offset, m, place, records, inFragment, scratch);
      WholeBehind(place, records);
    } else if m < |head| {
      TornFrom(sum, file, pos, offset, |data|, m, place, records, inFragment, scratch);
    } else {
      var rest := RecordBytes(sum, NextOffset(offset, |data|), data[n..], false);
      PlaceBehind(sum, offset, data, begin, m, place);
      CutBehind(file, pos, head, rest, m);
      FragmentFrom(sum, file, pos, offset, data, begin, inFragment, scratch);
      var scratch2 := if begin then data[..n] else scratch + data[..n];
      TornRecordFrom(sum, file, pos + |head|, BLOCK_SIZE, data[n..], false, m - |head|, place, records, true, scratch2);
      if m == |head| {
        TrailerFrom(sum, file, pos + |head|, BLOCK_SIZE, 0, place, records, true, scratch2);
        WholeBehind(place, records);
      }
    }
  }

  lemma {:induction false} WholeBehind(place: nat, records: seq<Bytes>)
    requires place <= BLOCK_SIZE
    ensures HeaderAt(place) == 0 ==> ReadBehind(place, records) == records
  {
  }

  lemma {:induction false} HeadLength(sum: Checksum, offset: nat, data: Bytes, begin: bool)
    requires offset <= BLOCK_SIZE
    ensures |HeadBytes(sum, offset, data, begin)| == |Trailer(offset)| + HEADER_SIZE + FragmentLength(offset, |data|)
  {
  }

  lemma {:induction false} CutBehind(file: Bytes, pos: nat, head: Bytes, rest: Bytes, m: nat)
    requires |head| <= m <= |head| + |rest| && pos + m <= |file| && file[pos..pos + m] == (head + rest)[..m]
    ensures LiesAt(file, pos, head)
    ensures file[pos + |head|..pos + m] == rest[..m - |head|]
  {
    assert file[pos..pos + m][..|head|] == file[pos..pos + |head|];
    assert file[pos..pos + m][|head|..] == file[pos + |head|..pos + m];
    assert (head + rest)[..m][..|head|] == head;
    assert (head + rest)[..m][|head|..] == rest[..m - |head|];
  }

  // ---------------------------------------------------------------------------------------------
  // Any log, any cut
  // ---------------------------------------------------------------------------------------------

  /** The log of a, cut at n, and b written by a writer reopened at that length. */
  function Reopened(sum: Checksum, a: seq<Bytes>, n: nat, b: seq<Bytes>): Bytes
    requires n <= |LogBytes(sum, 0, a)|
  {
    LogBytes(sum, 0, a)[..n] + LogBytes(sum, n % BLOCK_SIZE, b)
  }

  /** The length of the whole records in the first n bytes. */
  function WholeLength(sum: Checksum, a: seq<Bytes>, n: nat): nat {
    |LogBytes(sum, 0, a[..Whole(sum, 0, a, n)])|
  }

  /**
   Where the cut goes through a fragment, its header with what was kept of the fragment and what was written behind it
   is not taken for a fragment: the bytes do not match the checksum, or no fragment of that length fits.
   */
  predicate CutUnverified(sum: Checksum, a: seq<Bytes>, n: nat, b: seq<Bytes>)
    requires n <= |LogBytes(sum, 0, a)|
  {
    var k := Whole(sum, 0, a, n);
    k < |a| && WholeLength(sum, a, n) <= n ==>
      TornUnverified(sum, Reopened(sum, a, n, b), WholeLength(sum, a, n), LogEnd(BLOCK_SIZE, a[..k]), |a[k]|, n - WholeLength(sum, a, n))
  }

  /** The whole records of a cut log, and the record that is cut. */
  lemma {:induction false} WholeBounds(sum: Checksum, offset: nat, records: seq<Bytes>, n: nat)
    requires offset <= BLOCK_SIZE && n <= |LogBytes(sum, offset, records)|
    ensures var k := Whole(sum, offset, records, n);
            var start := |LogBytes(sum, offset, records[..k])|;
            && start <= n
            && (k < |records| ==> n < start + |RecordBytes(sum, LogEnd(offset, records[..k]), records[k], true)|)
            && (k == |records| ==> n == start)
    decreases records
  {
    hide RecordBytes, RecordEnd;
    var k := Whole(sum, offset, records, n);
    if k > 0 {
      var r, end := |RecordBytes(sum, offset, records[0], true)|, RecordEnd(offset, |records[0]|);
      WholeBounds(sum, end, records[1..], n - r);
      assert records[..k][1..] == records[1..][..k - 1];
    } else {
      assert records[..0] == [];
    }
    assert k == |records| ==> records[..k] == records;
  }

  /** A log, one of its records, and the rest. */
  lemma {:induction false} LogAround(sum: Checksum, a: seq<Bytes>, k: nat)
    requires k < |a|
    ensures var offset := LogEnd(BLOCK_SIZE, a[..k]);
            LogBytes(sum, BLOCK_SIZE, a)
            == LogBytes(sum, BLOCK_SIZE, a[..k])
               + (RecordBytes(sum, offset, a[k], true) + LogBytes(sum, RecordEnd(offset, |a[k]|), a[k..][1..]))
  {
    hide RecordBytes, RecordEnd, LogEnd;
    LogsJoin(sum, BLOCK_SIZE, a[..k], a[k..]);
    assert a[..k] + a[k..] == a;
    assert a[k..][0] == a[k];
  }

  lemma {:induction false} PlaceOfCut(sum: Checksum, a: seq<Bytes>, m: nat)
    ensures PlaceIs(LogEnd(BLOCK_SIZE, a), m, (|LogBytes(sum, BLOCK_SIZE, a)| + m) % BLOCK_SIZE)
  {
    hide LogBytes, LogEnd;
    LogEndIsLength(sum, BLOCK_SIZE, a);
    var blocks: nat :| LogEnd(BLOCK_SIZE, a) + BLOCK_SIZE * blocks == BLOCK_SIZE + |LogBytes(sum, BLOCK_SIZE, a)|;
    RestOfBlocks(LogEnd(BLOCK_SIZE, a) + m, |LogBytes(sum, BLOCK_SIZE, a)| + m, blocks);
  }

  lemma {:induction false} RestOfBlocks(x: nat, n: nat, blocks: nat)
    requires x + BLOCK_SIZE * blocks == BLOCK_SIZE + n
    ensures exists more: nat :: x == n % BLOCK_SIZE + BLOCK_SIZE * more
  {
    var q := n / BLOCK_SIZE;
    assert n == BLOCK_SIZE * q + n % BLOCK_SIZE;
    assert x == n % BLOCK_SIZE + BLOCK_SIZE * (q + 1 - blocks);
    assert q + 1 - blocks >= 0;
    var more: nat := q + 1 - blocks;
    assert x == n % BLOCK_SIZE + BLOCK_SIZE * more;
  }

  /** What is read of a log that was cut anywhere and then written on. */
  lemma {:induction false} ReopenedLogReads(sum: Checksum, a: seq<Bytes>, n: nat, b: seq<Bytes>)
    requires n <= |LogBytes(sum, 0, a)| && CutUnverified(sum, a, n, b)
    ensures ReadAll(sum, Reopened(sum, a, n, b), 0, 0).0
         == a[..Whole(sum, 0, a, n)] + if n == WholeLength(sum, a, n) then b else ReadBehind(n % BLOCK_SIZE, b)
  {
    hide LogBytes, RecordBytes, RecordEnd, Whole, WholeLength, Reopened, LogEnd, RecordsFrom, ReadAll, LiesAt, TornLog, PlaceIs,
      TornUnverified, CutUnverified, ReadBehind, Trailer;
    var k, place := Whole(sum, 0, a, n), n % BLOCK_SIZE;
    WholeBounds(sum, 0, a, n);
    CutParts(sum, a, n, b);
    var file, start, offset := Reopened(sum, a, n, b), WholeLength(sum, a, n), LogEnd(BLOCK_SIZE, a[..k]);
    AllFrom(sum, file, 0, 0);
    PrefixFrom(sum, file, 0, BLOCK_SIZE, a[..k]);
    PlaceOfCut(sum, a[..k], n - start);
    if k < |a| {
      CutIsUnverified(sum, a, n, b);
      TornRecordFrom(sum, file, start, offset, a[k], true, n - start, place, b, false, []);
    } else {
      TrailerFrom(sum, file, start, offset, 0, place, b, false, []);
    }
  }

  lemma {:induction false} CutIsUnverified(sum: Checksum, a: seq<Bytes>, n: nat, b: seq<Bytes>)
    requires n <= |LogBytes(sum, 0, a)| && CutUnverified(sum, a, n, b)
    requires Whole(sum, 0, a, n) < |a| && WholeLength(sum, a, n) <= n
    ensures var k := Whole(sum, 0, a, n);
            TornUnverified(sum, Reopened(sum, a, n, b), WholeLength(sum, a, n), LogEnd(BLOCK_SIZE, a[..k]), |a[k]|, n - WholeLength(sum, a, n))
  {
  }

  /** The bytes of the reopened log, around the whole records. */
  lemma {:induction false} CutParts(sum: Checksum, a: seq<Bytes>, n: nat, b: seq<Bytes>)
    requires n <= |LogBytes(sum, 0, a)|
    ensures var k, start, file := Whole(sum, 0, a, n), WholeLength(sum, a, n), Reopened(sum, a, n, b);
            && start == |LogBytes(sum, BLOCK_SIZE, a[..k])| <= n <= |file| && n % BLOCK_SIZE <= BLOCK_SIZE
            && LiesAt(file, 0, LogBytes(sum, BLOCK_SIZE, a[..k])) && file[n..] == LogBytes(sum, n % BLOCK_SIZE, b)
            && (k == |a| ==> n == start)
            && (k < |a| ==> TornLog(sum, file, start, LogEnd(BLOCK_SIZE, a[..k]), a[k], true, n - start, n % BLOCK_SIZE, b))
  {
    hide LogBytes, RecordBytes, RecordEnd, LogEnd, Whole;
    var k, file := Whole(sum, 0, a, n), Reopened(sum, a, n, b);
    FullBlockIsEmptyBlock(sum, a, n);
    FullBlockIsEmptyBlock(sum, a[..k], n);
    WholeBounds(sum, BLOCK_SIZE, a, n);
    var full, start := LogBytes(sum, BLOCK_SIZE, a), |LogBytes(sum, BLOCK_SIZE, a[..k])|;
    assert file[n..] == LogBytes(sum, n % BLOCK_SIZE, b);
    assert file[..n] == full[..n];
    if k < |a| {
      var offset := LogEnd(BLOCK_SIZE, a[..k]);
      LogAround(sum, a, k);
      CutAround(file, full, LogBytes(sum, BLOCK_SIZE, a[..k]), RecordBytes(sum, offset, a[k], true),
                LogBytes(sum, RecordEnd(offset, |a[k]|), a[k..][1..]), n);
    } else {
      assert a[..k] == a;
      assert file[0..0 + |full|] == full;
    }
  }

  lemma {:induction false} CutAround(file: Bytes, full: Bytes, front: Bytes, r: Bytes, rest: Bytes, n: nat)
    requires full == front + (r + rest) && |front| <= n < |front| + |r| && n <= |file| && file[..n] == full[..n]
    ensures LiesAt(file, 0, front) && file[|front|..n] == r[..n - |front|]
  {
    assert file[0..0 + |front|] == file[..n][..|front|] == front;
    assert file[|front|..n] == file[..n][|front|..] == r[..n - |front|];
  }

  /**
   Exactly when reopening behind a cut is safe: every record that is whole before the cut and every record written
   behind it is read if and only if the cut falls at the end of a record, or the next header goes to a new block
   anyway. In all other cases the first record that is written shares its block with the torn bytes, and is lost.
   */
  lemma {:induction false} ReopenedLogReadsIff(sum: Checksum, a: seq<Bytes>, n: nat, b: seq<Bytes>)
    requires n <= |LogBytes(sum, 0, a)| && CutUnverified(sum, a, n, b) && b != []
    ensures ReadAll(sum, Reopened(sum, a, n, b), 0, 0).0 == a[..Whole(sum, 0, a, n)] + b <==>
            n == WholeLength(sum, a, n) || n % BLOCK_SIZE == 0 || BLOCK_SIZE - n % BLOCK_SIZE < HEADER_SIZE
  {
    hide LogBytes, Whole, WholeLength, CutUnverified, Reopened, ReadAll;
    ReopenedLogReads(sum, a, n, b);
    var place := n % BLOCK_SIZE;
    if n != WholeLength(sum, a, n) && place != 0 && BLOCK_SIZE - place >= HEADER_SIZE {
      var read := a[..Whole(sum, 0, a, n)] + ReadBehind(place, b);
      assert |ReadBehind(place, b)| < |b|;
      assert |read| < |a[..Whole(sum, 0, a, n)] + b|;
    }
  }

  // ---------------------------------------------------------------------------------------------
  // With the checksum in use
  // ---------------------------------------------------------------------------------------------

  /** The polynomial has its last bit set, so that a step can be undone. */
  lemma {:induction false} BitStepInjective(l: Word, m: Word)
    requires BitStep(l) == BitStep(m)
    ensures l == m
  {
    hide ToBits;
    var p := ToBits(32, 0x82f63b78);
    assert p[31] by { PolynomialTop(); }
    assert BitStep(l)[31] == l[0] && BitStep(m)[31] == m[0];
    forall i | 1 <= i < 32 ensures l[i] == m[i] {
      assert (l[1..] + [false])[i - 1] == l[i] && (m[1..] + [false])[i - 1] == m[i];
      assert BitStep(l)[i - 1] == BitStep(m)[i - 1];
    }
  }

  lemma {:induction false} PolynomialTop()
    ensures ToBits(32, 0x82f63b78)[31]
  {
    assert Pow2(8) == 0x100;
    Pow2Doubles(8);
    Pow2Doubles(16);
    assert Pow2(32) == 2 * Pow2(31);
    TopBit(32, 0x82f63b78);
  }

  lemma {:induction false} Pow2Doubles(n: nat)
    ensures Pow2(n + n) == Pow2(n) * Pow2(n)
  {
    Pow2Adds(n, n);
  }

  lemma {:induction false} Pow2Adds(m: nat, n: nat)
    ensures Pow2(m + n) == Pow2(m) * Pow2(n)
  {
    if m > 0 {
      Pow2Adds(m - 1, n);
      assert Pow2(m) * Pow2(n) == 2 * (Pow2(m - 1) * Pow2(n));
    }
  }

  lemma {:induction false} TopBit(n: nat, x: nat)
    requires n >= 1 && Pow2(n - 1) <= x < Pow2(n)
    ensures ToBits(n, x)[n - 1]
  {
    if n > 1 {
      TopBit(n - 1, x / 2);
      assert ToBits(n, x)[1..] == ToBits(n - 1, x / 2);
    }
  }

  lemma {:induction false} BitStepsInjective(n: nat, l: Word, m: Word)
    requires BitSteps(n, l) == BitSteps(n, m)
    ensures l == m
  {
    hide BitStep;
    if n > 0 {
      BitStepsInjective(n - 1, BitStep(l), BitStep(m));
      BitStepInjective(l, m);
    }
  }

  /** Two bytes put through the same register leave it different. */
  lemma {:induction false} StepTellsBytes(l: Word, x: Byte, y: Byte)
    requires Step(CastagnoliTables(), l, x) == Step(CastagnoliTables(), l, y)
    ensures x == y
  {
    hide BitSteps, ToBits, FromBits;
    var u, v, s := Xor(l[..8], OctetOf(x)), Xor(l[..8], OctetOf(y)), ShiftRight(l);
    XorTells(CastagnoliBytes(u), CastagnoliBytes(v), s);
    BitStepsInjective(8, Placed(u, 0), Placed(v, 0));
    assert Placed(u, 0)[..8] == u && Placed(v, 0)[..8] == v;
    XorCommutes(l[..8], OctetOf(x));
    XorCommutes(l[..8], OctetOf(y));
    XorTells(OctetOf(x), OctetOf(y), l[..8]);
    ByteRoundTrip(x);
    ByteRoundTrip(y);
  }

  lemma {:induction false} XorTells(a: Bits, b: Bits, c: Bits)
    requires |a| == |b| == |c| && Xor(a, c) == Xor(b, c)
    ensures a == b
  {
    forall i | 0 <= i < |a| ensures a[i] == b[i] {
      assert Xor(a, c)[i] == Xor(b, c)[i];
    }
  }

  lemma {:induction false} XorCommutes(a: Bits, b: Bits)
    requires |a| == |b|
    ensures Xor(a, b) == Xor(b, a)
  {
  }

  lemma {:induction false} ByteRoundTrip(x: Byte)
    ensures FromBits(OctetOf(x)) == x
  {
    assert Pow2(8) == 0x100;
    NatRoundTrip(8, x);
  }

  /** The CRC of two payloads that differ in their last byte is different. */
  lemma {:induction false} CrcTellsLastByte(kind: Byte, front: Bytes, x: Byte, y: Byte)
    requires CrcChecksum(kind, front + [x]) == CrcChecksum(kind, front + [y])
    ensures x == y
  {
    hide Step, FromBits, Xor;
    var t := CastagnoliTables();
    var l := Steps(t, Xor(Zeroes(32), AllOnes()), [kind] + front);
    CrcOfLast(kind, front, x);
    CrcOfLast(kind, front, y);
    BitsRoundTrip(Xor(Step(t, l, x), AllOnes()));
    BitsRoundTrip(Xor(Step(t, l, y), AllOnes()));
    XorBack(Step(t, l, x));
    XorBack(Step(t, l, y));
    StepTellsBytes(l, x, y);
  }

  lemma {:induction false} CrcOfLast(kind: Byte, front: Bytes, x: Byte)
    ensures var t := CastagnoliTables();
            CrcChecksum(kind, front + [x]) == FromBits(Xor(Step(t, Steps(t, Xor(Zeroes(32), AllOnes()), [kind] + front), x), AllOnes()))
  {
    hide Step, FromBits, Xor;
    var t := CastagnoliTables();
    assert [kind] + (front + [x]) == [kind] + front + [x];
    StepsCompose(t, Xor(Zeroes(32), AllOnes()), [kind] + front, [x]);
    assert [x][1..] == [];
  }

  lemma {:induction false} XorBack(l: Word)
    ensures Xor(Xor(l, AllOnes()), AllOnes()) == l
  {
  }

  /** kHeader of a write batch: no record of the engine's logs is shorter. */
  const BATCH_HEADER: nat := 12

  /** A single record in the first block. */
  lemma {:induction false} OneRecord(sum: Checksum, data: Bytes, n: nat)
    requires HEADER_SIZE + |data| < BLOCK_SIZE && n < HEADER_SIZE + |data|
    ensures LogBytes(sum, 0, [data]) == FragmentBytes(sum, FULL, data)
    ensures Whole(sum, 0, [data], n) == 0 && WholeLength(sum, [data], n) == 0 && LogEnd(BLOCK_SIZE, []) == BLOCK_SIZE
  {
    hide FragmentBytes;
    assert FragmentLength(0, |data|) == |data| && data[..|data|] == data;
    assert Trailer(0) == [] && RecordBytes(sum, 0, data, true) == FragmentBytes(sum, FULL, data);
    assert [data][1..] == [] && [data][..0] == [];
  }

  lemma {:induction false} TornInFirst(length: nat, m: nat)
    requires HEADER_SIZE + length < BLOCK_SIZE && 0 < m < HEADER_SIZE + length
    ensures TornAt(BLOCK_SIZE, length, m) == Some(Torn(0, 0))
  {
  }

  /** The header of a record that lost its last byte does not fit the first byte written behind it. */
  lemma {:induction false} LastByteTells(front: Bytes, x: Byte, rest: Bytes)
    requires HEADER_SIZE + |front| + 1 < BLOCK_SIZE && rest != [] && rest[0] != x
    ensures var file := FragmentBytes(CrcChecksum, FULL, front + [x])[..HEADER_SIZE + |front|] + rest;
            Unverified(CrcChecksum, file, 0, 0)
  {
    hide FragmentBytes, CrcChecksum, ParseBuffer;
    var data, length := front + [x], HEADER_SIZE + |front|;
    var file := FragmentBytes(CrcChecksum, FULL, data)[..length] + rest;
    var buffer := file[0..DropEnd(file, BLOCK_SIZE)];
    MixedBuffer(CrcChecksum, front, x, rest, buffer[length + 1..], buffer);
    if CrcChecksum(FULL, front + [rest[0]]) == CrcChecksum(FULL, data) {
      CrcTellsLastByte(FULL, front, rest[0], x);
      assert false;
    }
    MixedIsBad(CrcChecksum, front, x, rest[0], buffer, BLOCK_SIZE > |file|);
  }

  lemma {:induction false} MixedBuffer(sum: Checksum, front: Bytes, x: Byte, rest: Bytes, more: Bytes, buffer: Bytes)
    requires HEADER_SIZE + |front| + 1 < BLOCK_SIZE && rest != []
    requires var file := FragmentBytes(sum, FULL, front + [x])[..HEADER_SIZE + |front|] + rest;
             buffer == file[0..DropEnd(file, BLOCK_SIZE)]
    requires HEADER_SIZE + |front| + 1 <= |buffer| && more == buffer[HEADER_SIZE + |front| + 1..]
    ensures buffer == EncodeFixed32(Mask(sum(FULL, front + [x]))) + [(|front| + 1) % 256, (|front| + 1) / 256, FULL] + front + [rest[0]] + more
  {
    hide EncodeFixed32;
    var header := EncodeFixed32(Mask(sum(FULL, front + [x]))) + [(|front| + 1) % 256, (|front| + 1) / 256, FULL];
    assert FragmentBytes(sum, FULL, front + [x]) == header + front + [x];
    assert FragmentBytes(sum, FULL, front + [x])[..HEADER_SIZE + |front|] == header + front;
    assert buffer[..HEADER_SIZE + |front| + 1] == header + front + [rest[0]];
    assert buffer == buffer[..HEADER_SIZE + |front| + 1] + more;
  }

  lemma {:induction false} MixedIsBad(sum: Checksum, front: Bytes, x: Byte, y: Byte, buffer: Bytes, eof: bool)
    requires HEADER_SIZE + |front| + 1 < BLOCK_SIZE && HEADER_SIZE + |front| + 1 <= |buffer|
    requires buffer == EncodeFixed32(Mask(sum(FULL, front + [x]))) + [(|front| + 1) % 256, (|front| + 1) / 256, FULL] + front + [y]
                       + buffer[HEADER_SIZE + |front| + 1..]
    requires sum(FULL, front + [y]) != sum(FULL, front + [x])
    ensures !ParseBuffer(sum, buffer, eof).found.Fragment?
  {
    hide EncodeFixed32, DecodeFixed32, Mask, Unmask;
    var masked, n := Mask(sum(FULL, front + [x])), |front| + 1;
    var behind := [n % 256, n / 256, FULL] + front + [y] + buffer[HEADER_SIZE + n..];
    assert buffer == EncodeFixed32(masked) + behind;
    Fixed32RoundTrip(masked, behind);
    UnmaskUndoesMask(sum(FULL, front + [x]));
    assert buffer[4] == n % 256 && buffer[5] == n / 256 && buffer[6] == FULL;
    assert buffer[HEADER_SIZE..HEADER_SIZE + n] == front + [y];
  }

  /**
   With the checksum in use: a batch that lost its last byte, and other batches written behind it by a writer that was
   reopened there. Unless the first byte written is the lost one, the first of them is lost.
   */
  lemma {:induction false} TornBatchLosesNext(front: Bytes, x: Byte, b: seq<Bytes>)
    requires BATCH_HEADER <= |front| + 1 && 3 * HEADER_SIZE + |front| < BLOCK_SIZE
    requires b != [] && forall r :: r in b ==> |r| >= BATCH_HEADER
    requires var n := HEADER_SIZE + |front|; LogBytes(CrcChecksum, n, b) != [] && LogBytes(CrcChecksum, n, b)[0] != x
    ensures var n := HEADER_SIZE + |front|;
            && n < |LogBytes(CrcChecksum, 0, [front + [x]])| && CutUnverified(CrcChecksum, [front + [x]], n, b)
            && ReadAll(CrcChecksum, Reopened(CrcChecksum, [front + [x]], n, b), 0, 0).0 == b[Missed(n, b)..]
            && Missed(n, b) > 0
  {
    hide FragmentBytes, CrcChecksum, LogBytes, Whole, WholeLength, ReadAll, Unverified, TornAt, LogEnd;
    var n, a, rest := HEADER_SIZE + |front|, [front + [x]], LogBytes(CrcChecksum, HEADER_SIZE + |front|, b);
    assert n % BLOCK_SIZE == n;
    OneRecord(CrcChecksum, a[0], n);
    TornInFirst(|front| + 1, n);
    LastByteTells(front, x, rest);
    assert a[..0] == [];
    ReopenedLogReads(CrcChecksum, a, n, b);
    NoneMissedAt(n, b);
    assert a[..0] + ReadBehind(n, b) == ReadBehind(n, b);
  }
}
