/**
 The record log (db/log_format.h, db/log_writer.cc, db/log_reader.cc), byte for byte: records cut into
 checksummed fragments that never cross a 32 KB block, and a reader that survives any truncation.
 */
module RecordLog {
  import opened Keys
  import opened Version
  import opened Coding
  import opened Crc32c

  const BLOCK_SIZE: nat := 32768
  const HEADER_SIZE: nat := 7

  const ZERO: Byte := 0
  const FULL: Byte := 1
  const FIRST: Byte := 2
  const MIDDLE: Byte := 3
  const LAST: Byte := 4

  // ---------------------------------------------------------------------------------------------
  // The bytes of a log
  // ---------------------------------------------------------------------------------------------

  /**
   The checksum of a fragment's type and payload, a parameter of the log. WriterAndReaderAgree gives the one
   in use: the writer extends the CRC of the type byte, the reader takes the CRC of both at once.
   */
  type Sum32 = x: nat | x < TWO32
  type Checksum = (Byte, Bytes) -> Sum32

  function CrcChecksum(kind: Byte, data: Bytes): Sum32 {
    WordFits(Crc(CastagnoliTables(), Zeroes(32), [kind] + data));
    FromBits(Crc(CastagnoliTables(), Zeroes(32), [kind] + data))
  }

  lemma {:induction false} WriterAndReaderAgree(kind: Byte, data: Bytes)
    ensures CrcChecksum(kind, data) == FromBits(Crc(CastagnoliTables(), Crc(CastagnoliTables(), Zeroes(32), [kind]), data))
  {
    CrcComposes(CastagnoliTables(), Zeroes(32), [kind], data);
  }

  function FragmentBytes(sum: Checksum, kind: Byte, data: Bytes): (r: Bytes)
    requires |data| <= 0xffff
    ensures |r| == HEADER_SIZE + |data|
  {
    EncodeFixed32(Mask(sum(kind, data))) + [|data| % 256, |data| / 256, kind] + data
  }

  function FragmentKind(begin: bool, end: bool): Byte {
    if begin && end then FULL else if begin then FIRST else if end then LAST else MIDDLE
  }

  /** Where the next header goes, in a block filled up to offset: in the next block when there is no room. */
  function HeaderAt(offset: nat): (start: nat)
    requires offset <= BLOCK_SIZE
    ensures start + HEADER_SIZE <= BLOCK_SIZE
  {
    if BLOCK_SIZE - offset < HEADER_SIZE then 0 else offset
  }

  /** The zeroes that fill up a block with no room for a header. */
  function Trailer(offset: nat): (r: Bytes)
    requires offset <= BLOCK_SIZE
    ensures |r| == if HeaderAt(offset) == offset then 0 else BLOCK_SIZE - offset
  {
    seq(if BLOCK_SIZE - offset < HEADER_SIZE then BLOCK_SIZE - offset else 0, i => 0)
  }

  /** The payload of the next fragment of a record with left bytes to go. */
  function FragmentLength(offset: nat, left: nat): (n: nat)
    requires offset <= BLOCK_SIZE
    ensures n <= left && HeaderAt(offset) + HEADER_SIZE + n <= BLOCK_SIZE
    ensures n < left ==> HeaderAt(offset) + HEADER_SIZE + n == BLOCK_SIZE
  {
    var avail := BLOCK_SIZE - HeaderAt(offset) - HEADER_SIZE;
    if left < avail then left else avail
  }

  /** How far the block is filled after the next fragment. */
  function NextOffset(offset: nat, left: nat): (next: nat)
    requires offset <= BLOCK_SIZE
    ensures next <= BLOCK_SIZE
  {
    HeaderAt(offset) + HEADER_SIZE + FragmentLength(offset, left)
  }

  /** The next fragment of a record, behind its trailer. */
  function HeadBytes(sum: Checksum, offset: nat, left: Bytes, begin: bool): (r: Bytes)
    requires offset <= BLOCK_SIZE
  {
    var n := FragmentLength(offset, |left|);
    Trailer(offset) + FragmentBytes(sum, FragmentKind(begin, n == |left|), left[..n])
  }

  /** What one record adds to a block filled up to offset; begin is false once a first fragment is out. */
  function RecordBytes(sum: Checksum, offset: nat, data: Bytes, begin: bool): Bytes
    requires offset <= BLOCK_SIZE
    decreases |data|, HeaderAt(offset)
  {
    var n := FragmentLength(offset, |data|);
    HeadBytes(sum, offset, data, begin)
    + if n == |data| then [] else RecordBytes(sum, NextOffset(offset, |data|), data[n..], false)
  }

  /** How far the block is filled after a record. */
  function RecordEnd(offset: nat, left: nat): (end: nat)
    requires offset <= BLOCK_SIZE
    ensures end <= BLOCK_SIZE
    decreases left, HeaderAt(offset)
  {
    var n := FragmentLength(offset, left);
    if n == left then NextOffset(offset, left) else RecordEnd(NextOffset(offset, left), left - n)
  }

  /** The bytes that a list of records adds to a block filled up to offset. */
  function LogBytes(sum: Checksum, offset: nat, records: seq<Bytes>): Bytes
    requires offset <= BLOCK_SIZE
    decreases records
  {
    if records == [] then []
    else RecordBytes(sum, offset, records[0], true) + LogBytes(sum, RecordEnd(offset, |records[0]|), records[1..])
  }

  lemma {:induction false} Append3(a: Bytes, b: Bytes, c: Bytes, r: Bytes)
    requires r == b + c
    ensures a + r == (a + b) + c
  {
  }

  lemma {:induction false} AddingFragment(sum: Checksum, dest: Bytes, offset: nat, data: Bytes, begin: bool)
    requires offset <= BLOCK_SIZE
    ensures var n := FragmentLength(offset, |data|);
            dest + RecordBytes(sum, offset, data, begin) == (dest + HeadBytes(sum, offset, data, begin))
              + if n == |data| then [] else RecordBytes(sum, NextOffset(offset, |data|), data[n..], false)
  {
    var n := FragmentLength(offset, |data|);
    var rest := if n == |data| then [] else RecordBytes(sum, NextOffset(offset, |data|), data[n..], false);
    Append3(dest, HeadBytes(sum, offset, data, begin), rest, RecordBytes(sum, offset, data, begin));
  }

  // ---------------------------------------------------------------------------------------------
  // The writer
  // ---------------------------------------------------------------------------------------------

  class Writer {
    const sum: Checksum
    var dest: Bytes
    var blockOffset: nat

    ghost predicate Ok()
      reads this
    {
      blockOffset <= BLOCK_SIZE
    }

    /** A writer on a log of any earlier length, zero included. */
    constructor (sum: Checksum, dest: Bytes)
      ensures Ok() && this.sum == sum && this.dest == dest && blockOffset == |dest| % BLOCK_SIZE
    {
      this.sum, this.dest := sum, dest;
      blockOffset := |dest| % BLOCK_SIZE;
    }

    method AddRecord(data: Bytes)
      requires Ok()
      modifies this
      ensures Ok()
      ensures dest == old(dest) + RecordBytes(sum, old(blockOffset), data, true)
      ensures blockOffset == RecordEnd(old(blockOffset), |data|)
    {
      var left := data;
      var begin, end := true, false;
      ghost var all := dest + RecordBytes(sum, blockOffset, data, true);
      while !end
        invariant Ok()
        invariant all == dest + if end then [] else RecordBytes(sum, blockOffset, left, begin)
        invariant RecordEnd(old(blockOffset), |data|) == if end then blockOffset else RecordEnd(blockOffset, |left|)
        decreases !end, |left|, HeaderAt(blockOffset)
      {
        AddingFragment(sum, dest, blockOffset, left, begin);
        left, end := AddFragment(left, begin);
        begin := false;
      }
    }

    /** The body of the loop: one fragment of what is left of the record. */
    method AddFragment(data: Bytes, begin: bool) returns (left: Bytes, end: bool)
      requires Ok()
      modifies this
      ensures Ok()
      ensures dest == old(dest) + HeadBytes(sum, old(blockOffset), data, begin)
      ensures blockOffset == NextOffset(old(blockOffset), |data|)
      ensures left == data[FragmentLength(old(blockOffset), |data|)..] && (end <==> left == [])
    {
      var leftover := BLOCK_SIZE - blockOffset;
      if leftover < HEADER_SIZE {
        if leftover > 0 {
          dest := dest + seq(leftover, i => 0);
        }
        blockOffset := 0;
      }
      var avail := BLOCK_SIZE - blockOffset - HEADER_SIZE;
      var fragmentLength := if |data| < avail then |data| else avail;
      end := |data| == fragmentLength;
      EmitPhysicalRecord(FragmentKind(begin, end), data[..fragmentLength]);
      left := data[fragmentLength..];
    }

    method EmitPhysicalRecord(kind: Byte, data: Bytes)
      requires blockOffset + HEADER_SIZE + |data| <= BLOCK_SIZE
      modifies this
      ensures dest == old(dest) + FragmentBytes(sum, kind, data)
      ensures blockOffset == old(blockOffset) + HEADER_SIZE + |data|
    {
      var crc := sum(kind, data);
      dest := dest + (EncodeFixed32(Mask(crc)) + [|data| % 256, |data| / 256, kind]);
      dest := dest + data;
      blockOffset := blockOffset + HEADER_SIZE + |data|;
    }
  }

  // ---------------------------------------------------------------------------------------------
  // The reader as a function of the file
  // ---------------------------------------------------------------------------------------------

  /** What ReadPhysicalRecord returns. */
  datatype Found = Fragment(kind: Byte, data: Bytes) | BadRecord | Eof

  /** What the bytes left in a block hold, how many of them are used up, and the sizes of the drops reported. */
  datatype Parsed = Parsed(found: Found, used: nat, reports: seq<nat>)

  function ParseBuffer(sum: Checksum, buffer: Bytes, eof: bool): (p: Parsed)
    requires |buffer| >= HEADER_SIZE
    ensures 0 < p.used <= |buffer| && (p.found.Eof? ==> eof && p.used == |buffer| && p.reports == [])
  {
    var length := (buffer[4] as nat) + 256 * (buffer[5] as nat);
    var kind := buffer[6];
    if HEADER_SIZE + length > |buffer| then
      if eof then Parsed(Eof, |buffer|, []) else Parsed(BadRecord, |buffer|, [|buffer|])
    else if kind == ZERO && length == 0 then Parsed(BadRecord, |buffer|, [])
    else
      var data := buffer[HEADER_SIZE..HEADER_SIZE + length];
      if sum(kind, data) != Unmask(DecodeFixed32(buffer)) then Parsed(BadRecord, |buffer|, [|buffer|])
      else Parsed(Fragment(kind, data), HEADER_SIZE + length, [])
  }

  /** What ReadPhysicalRecord finds from pos on, in the block that ends at blockEnd, and where it leaves off. */
  datatype Physical = Physical(found: Found, pos: nat, blockEnd: nat, reports: seq<nat>)

  function Buffered(file: Bytes, pos: nat, blockEnd: nat): Bytes
    requires pos <= |file| && pos <= blockEnd
  {
    file[pos..if blockEnd < |file| then blockEnd else |file|]
  }

  function ReadPhysical(sum: Checksum, file: Bytes, pos: nat, blockEnd: nat): (r: Physical)
    requires pos <= |file| && pos <= blockEnd
    ensures r.pos <= |file| && r.pos <= r.blockEnd
    ensures !r.found.Eof? ==> r.pos > pos
    ensures r.found.Eof? ==> r.pos == |file| < r.blockEnd && r.reports == []
    decreases |file| + BLOCK_SIZE - blockEnd
  {
    var buffer := Buffered(file, pos, blockEnd);
    if |buffer| < HEADER_SIZE then
      if blockEnd <= |file| then ReadPhysical(sum, file, blockEnd, blockEnd + BLOCK_SIZE)
      else Physical(Eof, |file|, blockEnd, [])
    else
      var p := ParseBuffer(sum, buffer, blockEnd > |file|);
      Physical(p.found, pos + p.used, blockEnd, p.reports)
  }

  /** What ReadRecord returns, where it leaves off, and the sizes of the drops it reports. */
  datatype Outcome = Outcome(record: Option<Bytes>, pos: nat, blockEnd: nat, reports: seq<nat>)

  function Reporting(reports: seq<nat>, o: Outcome): Outcome {
    o.(reports := reports + o.reports)
  }

  /** What ReadRecord makes of a physical record: it stops with a record or none, or goes on. */
  datatype Next =
    | Stop(record: Option<Bytes>, reports: seq<nat>)
    | GoOn(inFragment: bool, scratch: Bytes, reports: seq<nat>)

  function Follow(found: Found, inFragment: bool, scratch: Bytes): Next {
    var partial := if inFragment && scratch != [] then [|scratch|] else [];
    match found
    case Eof => Stop(None, [])
    case BadRecord => GoOn(false, [], if inFragment then [|scratch|] else [])
    case Fragment(kind, data) =>
      if kind == FULL then Stop(Some(data), partial)
      else if kind == FIRST then GoOn(true, data, partial)
      else if kind == MIDDLE then
        if inFragment then GoOn(true, scratch + data, []) else GoOn(false, scratch, [|data|])
      else if kind == LAST then
        if inFragment then Stop(Some(scratch + data), []) else GoOn(false, scratch, [|data|])
      else GoOn(false, [], [|data| + if inFragment then |scratch| else 0])
  }

  function ReadRecord(sum: Checksum, file: Bytes, pos: nat, blockEnd: nat, inFragment: bool, scratch: Bytes): (o: Outcome)
    requires pos <= |file| && pos <= blockEnd
    ensures o.pos <= |file| && o.pos <= o.blockEnd
    ensures o.record.Some? ==> o.pos > pos
    decreases |file| - pos
  {
    var r := ReadPhysical(sum, file, pos, blockEnd);
    match Follow(r.found, inFragment, scratch)
    case Stop(record, reports) => Outcome(record, r.pos, r.blockEnd, r.reports + reports)
    case GoOn(inFragment, scratch, reports) =>
      Reporting(r.reports + reports, ReadRecord(sum, file, r.pos, r.blockEnd, inFragment, scratch))
  }

  /** Reading a log to its end, as recovery does: the records and the reports. */
  function ReadAll(sum: Checksum, file: Bytes, pos: nat, blockEnd: nat): (r: (seq<Bytes>, seq<nat>))
    requires pos <= |file| && pos <= blockEnd
    decreases |file| - pos
  {
    var o := ReadRecord(sum, file, pos, blockEnd, false, []);
    if o.record.None? then ([], o.reports)
    else
      var (records, reports) := ReadAll(sum, file, o.pos, o.blockEnd);
      ([o.record.value] + records, o.reports + reports)
  }

  // ---------------------------------------------------------------------------------------------
  // Reading a cut log
  // ---------------------------------------------------------------------------------------------

  /** The fragment lies in the full log at pos. */
  ghost predicate LiesAt(full: Bytes, pos: nat, part: Bytes) {
    pos + |part| <= |full| && full[pos..pos + |part|] == part
  }

  /** A fragment at the front of the buffer is parsed back. */
  lemma {:induction false} ParsesFragment(sum: Checksum, kind: Byte, data: Bytes, rest: Bytes, eof: bool)
    requires |data| <= 0xffff && kind != ZERO
    ensures ParseBuffer(sum, FragmentBytes(sum, kind, data) + rest, eof) == Parsed(Fragment(kind, data), HEADER_SIZE + |data|, [])
  {
    var buffer := FragmentBytes(sum, kind, data) + rest;
    Fixed32RoundTrip(Mask(sum(kind, data)), [|data| % 256, |data| / 256, kind] + data + rest);
    assert buffer == EncodeFixed32(Mask(sum(kind, data))) + ([|data| % 256, |data| / 256, kind] + data + rest);
    UnmaskUndoesMask(sum(kind, data));
    assert buffer[4] == |data| % 256 && buffer[5] == |data| / 256;
    assert buffer[HEADER_SIZE..HEADER_SIZE + |data|] == data;
  }

  /** A fragment whose payload is cut off is the end of the file. */
  lemma {:induction false} ParsesCutFragment(sum: Checksum, kind: Byte, data: Bytes, buffer: Bytes)
    requires |data| <= 0xffff && HEADER_SIZE <= |buffer| < HEADER_SIZE + |data|
    requires buffer == FragmentBytes(sum, kind, data)[..|buffer|]
    ensures ParseBuffer(sum, buffer, true) == Parsed(Eof, |buffer|, [])
  {
    assert buffer[4] == |data| % 256 && buffer[5] == |data| / 256;
  }

  /** A fragment is read back when it lies wholly inside the cut, and is the end of the file otherwise. */
  lemma {:induction false} ReadsFragment(sum: Checksum, file: Bytes, full: Bytes, pos: nat, blockEnd: nat, kind: Byte, data: Bytes)
    requires file <= full && pos <= |file| && |data| <= 0xffff
    requires LiesAt(full, pos, FragmentBytes(sum, kind, data))
    requires pos + HEADER_SIZE + |data| <= blockEnd && kind != ZERO
    ensures var r := ReadPhysical(sum, file, pos, blockEnd);
            if pos + HEADER_SIZE + |data| <= |file| then
              r == Physical(Fragment(kind, data), pos + HEADER_SIZE + |data|, blockEnd, [])
            else r.found.Eof?
  {
    hide FragmentBytes, ParseBuffer;
    var f := FragmentBytes(sum, kind, data);
    var buffer := Buffered(file, pos, blockEnd);
    assert forall i :: 0 <= i < |f| && i < |buffer| ==> buffer[i] == full[pos..pos + |f|][i] == f[i];
    if |buffer| >= |f| {
      assert buffer == f + buffer[|f|..];
      ParsesFragment(sum, kind, data, buffer[|f|..], blockEnd > |file|);
    } else if |buffer| >= HEADER_SIZE {
      assert buffer == f[..|buffer|];
      ParsesCutFragment(sum, kind, data, buffer);
    }
  }

  lemma {:induction false} LiesSplit(full: Bytes, pos: nat, a: Bytes, b: Bytes, ab: Bytes)
    requires LiesAt(full, pos, ab) && ab == a + b
    ensures LiesAt(full, pos, a) && LiesAt(full, pos + |a|, b)
  {
    assert full[pos..pos + |ab|][..|a|] == full[pos..pos + |a|];
    assert full[pos..pos + |ab|][|a|..] == full[pos + |a|..pos + |ab|];
  }

  /** A trailer is skipped, or is the end of the file. */
  lemma {:induction false} SkipsTrailer(sum: Checksum, file: Bytes, pos: nat, offset: nat)
    requires pos <= |file| && offset <= BLOCK_SIZE
    ensures var start := pos + |Trailer(offset)|;
            var r := ReadPhysical(sum, file, pos, pos + BLOCK_SIZE - offset);
            if start <= |file| then r == ReadPhysical(sum, file, start, start + BLOCK_SIZE - HeaderAt(offset))
            else r.found.Eof?
  {
  }

  lemma {:induction false} HeadParts(sum: Checksum, offset: nat, data: Bytes, begin: bool)
    requires offset <= BLOCK_SIZE
    ensures var n := FragmentLength(offset, |data|);
            var kind := FragmentKind(begin, n == |data|);
            && HeadBytes(sum, offset, data, begin) == Trailer(offset) + FragmentBytes(sum, kind, data[..n])
            && NextOffset(offset, |data|) == HeaderAt(offset) + HEADER_SIZE + n && kind != ZERO && n <= 0xffff
  {
  }

  /** The same for a fragment behind a trailer, which is skipped. */
  lemma {:induction false} ReadsHead(sum: Checksum, file: Bytes, full: Bytes, pos: nat, offset: nat, data: Bytes, begin: bool)
    requires file <= full && pos <= |file| && offset <= BLOCK_SIZE
    requires LiesAt(full, pos, HeadBytes(sum, offset, data, begin))
    ensures var n, next := FragmentLength(offset, |data|), pos + |HeadBytes(sum, offset, data, begin)|;
            var r := ReadPhysical(sum, file, pos, pos + BLOCK_SIZE - offset);
            if next <= |file| then
              && r.found == Fragment(FragmentKind(begin, n == |data|), data[..n])
              && r.pos == next && r.blockEnd == next + BLOCK_SIZE - NextOffset(offset, |data|) && r.reports == []
            else r.found.Eof?
  {
    hide *;
    var n := FragmentLength(offset, |data|);
    var kind := FragmentKind(begin, n == |data|);
    var start := pos + |Trailer(offset)|;
    HeadParts(sum, offset, data, begin);
    LiesSplit(full, pos, Trailer(offset), FragmentBytes(sum, kind, data[..n]), HeadBytes(sum, offset, data, begin));
    SkipsTrailer(sum, file, pos, offset);
    if start <= |file| {
      ReadsFragment(sum, file, full, start, start + BLOCK_SIZE - HeaderAt(offset), kind, data[..n]);
    }
  }

  /** What ReadRecord does with a fragment of a well-formed record. */
  lemma {:induction false} FollowsFragment(sum: Checksum, file: Bytes, pos: nat, blockEnd: nat, begin: bool, end: bool, scratch: Bytes, r: Physical)
    requires pos <= |file| && pos <= blockEnd && r == ReadPhysical(sum, file, pos, blockEnd)
    requires r.found.Fragment? ==> r.found.kind == FragmentKind(begin, end)
    requires !r.found.BadRecord? && r.reports == [] && (begin ==> scratch == [])
    ensures ReadRecord(sum, file, pos, blockEnd, !begin, scratch)
         == if r.found.Eof? then Outcome(None, r.pos, r.blockEnd, [])
            else if end then Outcome(Some(scratch + r.found.data), r.pos, r.blockEnd, [])
            else ReadRecord(sum, file, r.pos, r.blockEnd, true, scratch + r.found.data)
  {
    hide ReadPhysical;
    if r.found.Fragment? {
      assert begin ==> [] + r.found.data == r.found.data;
      if !end {
        var o := ReadRecord(sum, file, r.pos, r.blockEnd, true, scratch + r.found.data);
        assert Reporting([] + [], o) == o;
      }
    }
  }

  lemma {:induction false} RecordUnfolds(sum: Checksum, offset: nat, data: Bytes, begin: bool)
    requires offset <= BLOCK_SIZE
    ensures var n := FragmentLength(offset, |data|);
            if n == |data| then
              && RecordBytes(sum, offset, data, begin) == HeadBytes(sum, offset, data, begin)
              && RecordEnd(offset, |data|) == NextOffset(offset, |data|)
            else
              && RecordBytes(sum, offset, data, begin)
                 == HeadBytes(sum, offset, data, begin) + RecordBytes(sum, NextOffset(offset, |data|), data[n..], false)
              && RecordEnd(offset, |data|) == RecordEnd(NextOffset(offset, |data|), |data| - n)
              && (n == 0 ==> HeaderAt(NextOffset(offset, |data|)) < HeaderAt(offset))
  {
    hide HeadBytes;
  }

  /** A record is read back when it lies wholly inside the cut; otherwise the log ends, with nothing reported. */
  lemma {:induction false} ReadsRecord(sum: Checksum, file: Bytes, full: Bytes, pos: nat, offset: nat,
                                       data: Bytes, begin: bool, scratch: Bytes)
    requires file <= full && pos <= |file| && offset <= BLOCK_SIZE && (begin ==> scratch == [])
    requires LiesAt(full, pos, RecordBytes(sum, offset, data, begin))
    ensures var next := pos + |RecordBytes(sum, offset, data, begin)|;
            var o := ReadRecord(sum, file, pos, pos + BLOCK_SIZE - offset, !begin, scratch);
            if next <= |file| then o == Outcome(Some(scratch + data), next, next + BLOCK_SIZE - RecordEnd(offset, |data|), [])
            else o.record.None? && o.reports == []
    decreases |data|, HeaderAt(offset)
  {
    hide *;
    var n, head := FragmentLength(offset, |data|), HeadBytes(sum, offset, data, begin);
    RecordUnfolds(sum, offset, data, begin);
    var rest := if n == |data| then [] else RecordBytes(sum, NextOffset(offset, |data|), data[n..], false);
    LiesSplit(full, pos, head, rest, RecordBytes(sum, offset, data, begin));
    ReadsHead(sum, file, full, pos, offset, data, begin);
    var r := ReadPhysical(sum, file, pos, pos + BLOCK_SIZE - offset);
    FollowsFragment(sum, file, pos, pos + BLOCK_SIZE - offset, begin, n == |data|, scratch, r);
    if n == |data| {
      assert data[..n] == data;
    } else if pos + |head| <= |file| {
      ReadsRecord(sum, file, full, pos + |head|, NextOffset(offset, |data|), data[n..], false, scratch + data[..n]);
      assert scratch + data[..n] + data[n..] == scratch + data;
    }
  }

  /** The number of records whose last fragment ends within the first n bytes. */
  function Whole(sum: Checksum, offset: nat, records: seq<Bytes>, n: nat): (k: nat)
    requires offset <= BLOCK_SIZE
    ensures k <= |records|
    decreases records
  {
    if records == [] || |RecordBytes(sum, offset, records[0], true)| > n then 0
    else 1 + Whole(sum, RecordEnd(offset, |records[0]|), records[1..], n - |RecordBytes(sum, offset, records[0], true)|)
  }

  lemma {:induction false} EndOfLog(sum: Checksum, file: Bytes, blockEnd: nat)
    requires |file| <= blockEnd
    ensures ReadAll(sum, file, |file|, blockEnd) == ([], [])
  {
    hide ReadPhysical;
  }

  lemma {:induction false} LogNothing(sum: Checksum, full: Bytes, pos: nat, offset: nat)
    requires pos <= |full| && offset <= BLOCK_SIZE && full[pos..] == LogBytes(sum, offset, [])
    ensures pos == |full| && Whole(sum, offset, [], 0) == 0
  {
  }

  lemma {:induction false} WholeUnfolds(sum: Checksum, offset: nat, records: seq<Bytes>, n: nat)
    requires offset <= BLOCK_SIZE && records != []
    ensures var r := RecordBytes(sum, offset, records[0], true);
            records[..Whole(sum, offset, records, n)]
              == if |r| > n then []
                 else [records[0]] + records[1..][..Whole(sum, RecordEnd(offset, |records[0]|), records[1..], n - |r|)]
  {
    hide RecordBytes, RecordEnd;
  }

  lemma {:induction false} LogUnfolds(sum: Checksum, full: Bytes, pos: nat, offset: nat, records: seq<Bytes>)
    requires pos <= |full| && offset <= BLOCK_SIZE && records != []
    requires full[pos..] == LogBytes(sum, offset, records)
    ensures var r := RecordBytes(sum, offset, records[0], true);
            && LiesAt(full, pos, r)
            && full[pos + |r|..] == LogBytes(sum, RecordEnd(offset, |records[0]|), records[1..])
  {
    hide RecordBytes, RecordEnd;
    var r := RecordBytes(sum, offset, records[0], true);
    assert full[pos..][..|r|] == r;
    assert full[pos..][|r|..] == full[pos + |r|..];
  }

  lemma {:induction false} ReadAllUnfolds(sum: Checksum, file: Bytes, pos: nat, blockEnd: nat, o: Outcome)
    requires pos <= |file| && pos <= blockEnd && o == ReadRecord(sum, file, pos, blockEnd, false, []) && o.reports == []
    ensures ReadAll(sum, file, pos, blockEnd)
         == if o.record.None? then ([], [])
            else var r := ReadAll(sum, file, o.pos, o.blockEnd); ([o.record.value] + r.0, r.1)
  {
    hide ReadRecord;
    if o.record.Some? {
      assert [] + ReadAll(sum, file, o.pos, o.blockEnd).1 == ReadAll(sum, file, o.pos, o.blockEnd).1;
    }
  }

  lemma {:induction false} ReadsLog(sum: Checksum, file: Bytes, full: Bytes, pos: nat, offset: nat, records: seq<Bytes>)
    requires file <= full && pos <= |file| && offset <= BLOCK_SIZE
    requires full[pos..] == LogBytes(sum, offset, records)
    ensures ReadAll(sum, file, pos, pos + BLOCK_SIZE - offset)
         == (records[..Whole(sum, offset, records, |file| - pos)], [])
    decreases records
  {
    hide *;
    if records == [] {
      LogNothing(sum, full, pos, offset);
      EndOfLog(sum, file, pos + BLOCK_SIZE - offset);
    } else {
      var r := RecordBytes(sum, offset, records[0], true);
      LogUnfolds(sum, full, pos, offset, records);
      ReadsRecord(sum, file, full, pos, offset, records[0], true, []);
      WholeUnfolds(sum, offset, records, |file| - pos);
      ReadAllUnfolds(sum, file, pos, pos + BLOCK_SIZE - offset, ReadRecord(sum, file, pos, pos + BLOCK_SIZE - offset, false, []));
      if pos + |r| <= |file| {
        assert [] + records[0] == records[0];
        ReadsLog(sum, file, full, pos + |r|, RecordEnd(offset, |records[0]|), records[1..]);
      }
    }
  }

  // ---------------------------------------------------------------------------------------------
  // Whole logs
  // ---------------------------------------------------------------------------------------------

  function LogEnd(offset: nat, records: seq<Bytes>): (end: nat)
    requires offset <= BLOCK_SIZE
    ensures end <= BLOCK_SIZE
    decreases records
  {
    if records == [] then offset else LogEnd(RecordEnd(offset, |records[0]|), records[1..])
  }

  lemma {:induction false} LogsJoin(sum: Checksum, offset: nat, a: seq<Bytes>, b: seq<Bytes>)
    requires offset <= BLOCK_SIZE
    ensures LogBytes(sum, offset, a + b) == LogBytes(sum, offset, a) + LogBytes(sum, LogEnd(offset, a), b)
    decreases a
  {
    hide RecordBytes, RecordEnd;
    if a == [] {
      assert a + b == b;
    } else {
      assert (a + b)[1..] == a[1..] + b;
      LogsJoin(sum, RecordEnd(offset, |a[0]|), a[1..], b);
    }
  }

  lemma {:induction false} FullBlockRecord(sum: Checksum, data: Bytes)
    ensures RecordBytes(sum, 0, data, true) == RecordBytes(sum, BLOCK_SIZE, data, true)
    ensures RecordEnd(0, |data|) == RecordEnd(BLOCK_SIZE, |data|)
  {
    hide FragmentBytes;
    assert Trailer(0) == Trailer(BLOCK_SIZE);
    assert HeadBytes(sum, 0, data, true) == HeadBytes(sum, BLOCK_SIZE, data, true);
  }

  /** A full block and an untouched one take the same bytes. */
  lemma {:induction false} FullBlockIsEmptyBlock(sum: Checksum, records: seq<Bytes>, n: nat)
    ensures LogBytes(sum, 0, records) == LogBytes(sum, BLOCK_SIZE, records)
    ensures Whole(sum, 0, records, n) == Whole(sum, BLOCK_SIZE, records, n)
  {
    hide RecordBytes, RecordEnd;
    if records != [] {
      FullBlockRecord(sum, records[0]);
    }
  }

  /** The offset of a writer is its distance from the last block boundary. */
  lemma {:induction false} RecordEndIsLength(sum: Checksum, offset: nat, data: Bytes, begin: bool)
    requires offset <= BLOCK_SIZE
    ensures exists blocks: nat :: RecordEnd(offset, |data|) + BLOCK_SIZE * blocks == offset + |RecordBytes(sum, offset, data, begin)|
    decreases |data|, HeaderAt(offset)
  {
    hide FragmentBytes;
    var n := FragmentLength(offset, |data|);
    var skipped: nat := if HeaderAt(offset) == offset then 0 else 1;
    assert NextOffset(offset, |data|) + BLOCK_SIZE * skipped == offset + |HeadBytes(sum, offset, data, begin)|;
    RecordUnfolds(sum, offset, data, begin);
    if n < |data| {
      RecordEndIsLength(sum, NextOffset(offset, |data|), data[n..], false);
      var blocks: nat :| RecordEnd(NextOffset(offset, |data|), |data| - n) + BLOCK_SIZE * blocks
        == NextOffset(offset, |data|) + |RecordBytes(sum, NextOffset(offset, |data|), data[n..], false)|;
      assert RecordEnd(offset, |data|) + BLOCK_SIZE * (blocks + skipped) == offset + |RecordBytes(sum, offset, data, begin)|;
    }
  }

  lemma {:induction false} LogEndIsLength(sum: Checksum, offset: nat, records: seq<Bytes>)
    requires offset <= BLOCK_SIZE
    ensures exists blocks: nat :: LogEnd(offset, records) + BLOCK_SIZE * blocks == offset + |LogBytes(sum, offset, records)|
    decreases records
  {
    hide RecordBytes, RecordEnd;
    if records == [] {
      assert LogEnd(offset, records) + BLOCK_SIZE * 0 == offset + |LogBytes(sum, offset, records)|;
    } else {
      var next := RecordEnd(offset, |records[0]|);
      RecordEndIsLength(sum, offset, records[0], true);
      var a: nat :| next + BLOCK_SIZE * a == offset + |RecordBytes(sum, offset, records[0], true)|;
      LogEndIsLength(sum, next, records[1..]);
      var b: nat :| LogEnd(next, records[1..]) + BLOCK_SIZE * b == next + |LogBytes(sum, next, records[1..])|;
      assert LogEnd(offset, records) + BLOCK_SIZE * (a + b) == offset + |LogBytes(sum, offset, records)|;
    }
  }

  /** A writer reopened on the old length goes on as the first one would have. */
  lemma {:induction false} ReopenedLogJoins(sum: Checksum, a: seq<Bytes>, b: seq<Bytes>)
    ensures LogBytes(sum, 0, a) + LogBytes(sum, |LogBytes(sum, 0, a)| % BLOCK_SIZE, b) == LogBytes(sum, 0, a + b)
  {
    hide LogBytes, LogEnd;
    LogsJoin(sum, 0, a, b);
    LogEndIsLength(sum, 0, a);
    FullBlockIsEmptyBlock(sum, b, 0);
  }

  /**
   Any cut of a log reads as the records that lie wholly inside it, in order, and reports no corruption.
   */
  lemma {:induction false} TruncatedLogReads(sum: Checksum, records: seq<Bytes>, n: nat)
    requires n <= |LogBytes(sum, 0, records)|
    ensures ReadAll(sum, LogBytes(sum, 0, records)[..n], 0, 0) == (records[..Whole(sum, 0, records, n)], [])
  {
    hide *;
    FullBlockIsEmptyBlock(sum, records, n);
    var full := LogBytes(sum, BLOCK_SIZE, records);
    assert full[0..] == full;
    ReadsLog(sum, full[..n], full, 0, BLOCK_SIZE, records);
  }

  /** With nothing cut off, every record comes back. */
  lemma {:induction false} WholeLog(sum: Checksum, offset: nat, records: seq<Bytes>)
    requires offset <= BLOCK_SIZE
    ensures Whole(sum, offset, records, |LogBytes(sum, offset, records)|) == |records|
    decreases records
  {
    hide RecordBytes, RecordEnd;
    if records != [] {
      WholeLog(sum, RecordEnd(offset, |records[0]|), records[1..]);
    }
  }

  /** A writer reopened where the cut log ends with a whole record goes on with the log of the whole records. */
  lemma {:induction false} ReopenedAtRecordEnd(sum: Checksum, a: seq<Bytes>, k: nat, b: seq<Bytes>)
    requires k <= |a|
    ensures var n := |LogBytes(sum, 0, a[..k])|;
            && n <= |LogBytes(sum, 0, a)|
            && LogBytes(sum, 0, a)[..n] + LogBytes(sum, n % BLOCK_SIZE, b) == LogBytes(sum, 0, a[..k] + b)
  {
    hide LogBytes, LogEnd;
    LogsJoin(sum, 0, a[..k], a[k..]);
    assert a[..k] + a[k..] == a;
    ReopenedLogJoins(sum, a[..k], b);
  }

  // ---------------------------------------------------------------------------------------------
  // The reader
  // ---------------------------------------------------------------------------------------------

  /** The bytes of a truncated header make no difference. */
  lemma {:induction false} PastEnd(sum: Checksum, file: Bytes, pos: nat, blockEnd: nat)
    requires pos <= |file| < blockEnd && |file| - pos < HEADER_SIZE
    ensures ReadPhysical(sum, file, pos, blockEnd) == ReadPhysical(sum, file, |file|, blockEnd) == Physical(Eof, |file|, blockEnd, [])
  {
  }

  /** What is left of a block is a trailer. */
  lemma {:induction false} PastTrailer(sum: Checksum, file: Bytes, pos: nat, blockEnd: nat)
    requires pos <= blockEnd <= |file| && blockEnd - pos < HEADER_SIZE
    ensures ReadPhysical(sum, file, pos, blockEnd) == ReadPhysical(sum, file, blockEnd, blockEnd + BLOCK_SIZE)
  {
  }

  lemma {:induction false} RecordUnrolls(sum: Checksum, file: Bytes, pos: nat, blockEnd: nat, inFragment: bool, scratch: Bytes, before: seq<nat>)
    requires pos <= |file| && pos <= blockEnd
    ensures var r := ReadPhysical(sum, file, pos, blockEnd);
            Reporting(before, ReadRecord(sum, file, pos, blockEnd, inFragment, scratch))
              == match Follow(r.found, inFragment, scratch)
                 case Stop(record, reports) => Outcome(record, r.pos, r.blockEnd, before + r.reports + reports)
                 case GoOn(in2, scratch2, reports) =>
                   Reporting(before + r.reports + reports, ReadRecord(sum, file, r.pos, r.blockEnd, in2, scratch2))
  {
    hide ReadPhysical, Follow;
  }

  class Reader {
    const sum: Checksum
    const file: Bytes
    /** Bytes taken from the file so far. */
    var consumed: nat
    var buffer: Bytes
    var eof: bool
    var reports: seq<nat>
    ghost var blockEnd: nat

    ghost predicate Ok()
      reads this
    {
      && consumed <= |file| && |buffer| <= consumed && buffer == file[consumed - |buffer|..consumed]
      && (!eof ==> consumed == blockEnd)
      && (eof ==> consumed == |file| < blockEnd)
    }

    ghost function Pos(): nat
      requires Ok()
      reads this
    {
      consumed - |buffer|
    }

    constructor (sum: Checksum, file: Bytes)
      ensures Ok() && this.sum == sum && this.file == file && Pos() == 0 && blockEnd == 0 && reports == []
    {
      this.sum, this.file := sum, file;
      consumed, buffer, eof, reports, blockEnd := 0, [], false, [], 0;
    }

    /** SequentialFile::Read. */
    method Read(n: nat) returns (r: Bytes)
      requires consumed <= |file|
      modifies this`consumed
      ensures consumed == if old(consumed) + n <= |file| then old(consumed) + n else |file|
      ensures r == file[old(consumed)..consumed]
    {
      var end := if consumed + n <= |file| then consumed + n else |file|;
      r := file[consumed..end];
      consumed := end;
    }

    /** Reads blocks until a header is in the buffer, or the file is at its end. */
    method FillBuffer() returns (atEnd: bool)
      requires Ok()
      modifies this
      ensures Ok() && reports == old(reports)
      ensures ReadPhysical(sum, file, Pos(), blockEnd) == ReadPhysical(sum, file, old(Pos()), old(blockEnd))
      ensures if atEnd then Pos() == |file| < blockEnd else |buffer| >= HEADER_SIZE
    {
      hide ReadPhysical;
      while |buffer| < HEADER_SIZE
        invariant Ok() && reports == old(reports)
        invariant ReadPhysical(sum, file, Pos(), blockEnd) == ReadPhysical(sum, file, old(Pos()), old(blockEnd))
        decreases !eof, |file| + BLOCK_SIZE - consumed
      {
        if eof {
          PastEnd(sum, file, Pos(), blockEnd);
          buffer := [];
          return true;
        }
        PastTrailer(sum, file, Pos(), blockEnd);
        buffer := Read(BLOCK_SIZE);
        blockEnd := blockEnd + BLOCK_SIZE;
        if |buffer| < BLOCK_SIZE {
          eof := true;
        }
      }
      return false;
    }

    /** Takes one physical record from the buffer. */
    method ParseRecord() returns (found: Found)
      requires |buffer| >= HEADER_SIZE
      modifies this`buffer, this`reports
      ensures var p := ParseBuffer(sum, old(buffer), eof);
              found == p.found && buffer == old(buffer)[p.used..] && reports == old(reports) + p.reports
    {
      var length := (buffer[4] as nat) + 256 * (buffer[5] as nat);
      var kind := buffer[6];
      if HEADER_SIZE + length > |buffer| {
        var dropSize := |buffer|;
        buffer := [];
        if !eof {
          reports := reports + [dropSize];
          return BadRecord;
        }
        return Eof;
      }
      if kind == ZERO && length == 0 {
        buffer := [];
        return BadRecord;
      }
      var data := buffer[HEADER_SIZE..HEADER_SIZE + length];
      if sum(kind, data) != Unmask(DecodeFixed32(buffer)) {
        var dropSize := |buffer|;
        buffer := [];
        reports := reports + [dropSize];
        return BadRecord;
      }
      buffer := buffer[HEADER_SIZE + length..];
      return Fragment(kind, data);
    }

    method ReadPhysicalRecord() returns (found: Found)
      requires Ok()
      modifies this
      ensures Ok()
      ensures var r := ReadPhysical(sum, file, old(Pos()), old(blockEnd));
              && found == r.found && Pos() == r.pos && blockEnd == r.blockEnd && reports == old(reports) + r.reports
    {
      hide ParseBuffer;
      var atEnd := FillBuffer();
      if atEnd {
        buffer := [];
        return Eof;
      }
      assert buffer == Buffered(file, Pos(), blockEnd);
      found := ParseRecord();
    }

    method Record() returns (record: Option<Bytes>)
      requires Ok()
      modifies this
      ensures Ok()
      ensures var o := ReadRecord(sum, file, old(Pos()), old(blockEnd), false, []);
              && record == o.record && Pos() == o.pos && blockEnd == o.blockEnd && reports == old(reports) + o.reports
    {
      hide ReadPhysical, ReadRecord, Follow;
      var scratch: Bytes := [];
      var inFragmentedRecord := false;
      ghost var goal := Reporting(reports, ReadRecord(sum, file, Pos(), blockEnd, false, []));
      while true
        invariant Ok()
        invariant goal == Reporting(reports, ReadRecord(sum, file, Pos(), blockEnd, inFragmentedRecord, scratch))
        decreases |file| - Pos()
      {
        RecordUnrolls(sum, file, Pos(), blockEnd, inFragmentedRecord, scratch, reports);
        var found := ReadPhysicalRecord();
        var done;
        done, record, inFragmentedRecord, scratch := Assemble(found, inFragmentedRecord, scratch);
        if done {
          return;
        }
      }
    }

    /** What a physical record adds to the logical record being put together. */
    method Assemble(found: Found, inFragment: bool, soFar: Bytes)
      returns (done: bool, record: Option<Bytes>, inFragmentedRecord: bool, scratch: Bytes)
      modifies this`reports
      ensures found == Eof ==> done
      ensures match Follow(found, inFragment, soFar)
              case Stop(r, dropped) => done && record == r && reports == old(reports) + dropped
              case GoOn(in2, scratch2, dropped) =>
                !done && inFragmentedRecord == in2 && scratch == scratch2 && reports == old(reports) + dropped
    {
      done, record, inFragmentedRecord, scratch := false, None, inFragment, soFar;
      match found {
        case Eof =>
          done := true;
        case BadRecord =>
          if inFragmentedRecord {
            reports := reports + [|scratch|];
          }
          inFragmentedRecord, scratch := false, [];
        case Fragment(kind, data) =>
          if kind == FULL {
            if inFragmentedRecord && scratch != [] {
              reports := reports + [|scratch|];
            }
            done, record := true, Some(data);
          } else if kind == FIRST {
            if inFragmentedRecord && scratch != [] {
              reports := reports + [|scratch|];
            }
            inFragmentedRecord, scratch := true, data;
          } else if kind == MIDDLE {
            if !inFragmentedRecord {
              reports := reports + [|data|];
            } else {
              scratch := scratch + data;
            }
          } else if kind == LAST {
            if !inFragmentedRecord {
              reports := reports + [|data|];
            } else {
              done, record := true, Some(scratch + data);
            }
          } else {
            reports := reports + [|data| + if inFragmentedRecord then |scratch| else 0];
            inFragmentedRecord, scratch := false, [];
          }
      }
    }
  }
}
