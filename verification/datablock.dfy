/**
 Data blocks as bytes (table/block_builder.cc, table/block.cc) under the tables of table/table.cc: the lists of
 entries that Tables works with, encoded by the block builder and read back by the block iterator.
 */
module DataBlocks {
  import opened Keys
  import opened Version
  import opened Separators
  import opened Tables
  import opened MemTables
  import Blocks

  /** The order of encoded internal keys, as the block iterator sees it. */
  function KeyRank(b: Bytes): real {
    if |b| >= 8 then RankOf(ParseKey(b)) else 0.0
  }

  function PairsOf(entries: seq<RawEntry>): (r: seq<Blocks.Pair>)
    requires forall e :: e in entries ==> FitsKey(e.key)
    ensures |r| == |entries| && forall i :: 0 <= i < |r| ==> r[i] == Blocks.Pair(KeyBytes(entries[i].key), entries[i].value)
  {
    seq(|entries|, i requires 0 <= i < |entries| => Blocks.Pair(KeyBytes(entries[i].key), entries[i].value))
  }

  ghost predicate EncodedAs(contents: Bytes, entries: seq<RawEntry>, layout: Blocks.Layout, points: seq<nat>) {
    && (forall e :: e in entries ==> FitsKey(e.key))
    && Blocks.IsBlock(contents, layout, points) && layout.entries == PairsOf(entries)
  }

  /** The bytes are a block of these entries. */
  ghost predicate Encodes(contents: Bytes, entries: seq<RawEntry>) {
    exists layout, points :: EncodedAs(contents, entries, layout, points)
  }

  method BuildDataBlock(entries: seq<RawEntry>, interval: nat) returns (contents: Bytes)
    requires interval >= 1 && forall e :: e in entries ==> FitsKey(e.key)
    ensures |contents| < Blocks.LIMIT ==> Encodes(contents, entries)
  {
    hide Blocks.IsBlock, KeyBytes;
    var builder := new Blocks.BlockBuilder(interval);
    for i := 0 to |entries|
      invariant builder.Ok() && !builder.finished && fresh(builder)
      invariant builder.layout.entries == PairsOf(entries)[..i]
    {
      builder.Add(KeyBytes(entries[i].key), entries[i].value);
    }
    contents := builder.Finish();
    if |contents| < Blocks.LIMIT {
      assert EncodedAs(contents, entries, builder.layout, builder.restarts);
    }
  }

  lemma {:induction false} EncodedInOrder(entries: seq<RawEntry>)
    requires RawSorted(entries) && forall e :: e in entries ==> FitsKey(e.key)
    ensures Blocks.Increasing(KeyRank, PairsOf(entries))
  {
    hide RawLess, RankOf, KeyBytes, ParseKey;
    forall i, j | 0 <= i < j < |entries| ensures KeyRank(PairsOf(entries)[i].key) < KeyRank(PairsOf(entries)[j].key) {
      RankOfEntry(entries[i].key);
      RankOfEntry(entries[j].key);
      RankIsOrder(entries[i].key, entries[j].key);
    }
  }

  lemma {:induction false} RankOfEntry(k: RawKey)
    requires FitsKey(k)
    ensures KeyRank(KeyBytes(k)) == RankOf(k)
  {
    hide RankOf, KeyBytes, ParseKey;
    KeyRoundTrip(k);
  }

  /** i is the first entry at or after k. */
  ghost predicate FirstFrom(entries: seq<RawEntry>, k: RawKey, i: nat) {
    && i <= |entries| && (i < |entries| ==> !RawLess(entries[i].key, k))
    && forall j :: 0 <= j < i ==> RawLess(entries[j].key, k)
  }

  /** r is the first of the entries at or after k; None says that all come before it. */
  ghost predicate LandsOn(entries: seq<RawEntry>, k: RawKey, r: Option<RawEntry>) {
    match r
    case None => forall e :: e in entries ==> RawLess(e.key, k)
    case Some(f) => f in entries && !RawLess(f.key, k) && forall e :: e in entries ==> e == f || RawLess(e.key, k) || RawLess(f.key, e.key)
  }

  lemma {:induction false} FirstIsLanding(entries: seq<RawEntry>, k: RawKey, i: nat)
    requires RawSorted(entries) && FirstFrom(entries, k, i)
    ensures LandsOn(entries, k, if i < |entries| then Some(entries[i]) else None)
  {
    hide RawLess;
    SoughtInBlock(entries, i, k);
  }

  /** Block::Iter::Seek over the bytes, and the entry it lands on. */
  method SeekDataBlockBytes(contents: Bytes, ghost entries: seq<RawEntry>, k: RawKey) returns (r: Option<RawEntry>, ghost i: nat)
    requires Encodes(contents, entries) && RawSorted(entries) && FitsKey(k)
    ensures LandsOn(entries, k, r)
    ensures FirstFrom(entries, k, i) && r == if i < |entries| then Some(entries[i]) else None
  {
    hide Blocks.IsBlock, KeyBytes, ParseKey, RankOf, RawLess, RawSorted, KeyRank, Blocks.Increasing, LandsOn;
    ghost var layout, points :| EncodedAs(contents, entries, layout, points);
    EncodedInOrder(entries);
    var iter := new Blocks.Iter(contents, KeyRank, layout, points);
    iter.Seek(KeyBytes(k));
    i := iter.at;
    RankOfEntry(k);
    forall j | 0 <= j < |entries| ensures j < i <==> RawLess(entries[j].key, k) {
      assert layout.entries[j].key == KeyBytes(entries[j].key) && entries[j] in entries;
      RankOfEntry(entries[j].key);
      RankIsOrder(entries[j].key, k);
    }
    iter.CurrentEntry();
    r := None;
    if iter.Valid() {
      assert entries[i] in entries;
      KeyRoundTrip(entries[i].key);
      r := Some(RawEntry(ParseKey(iter.key), iter.Value()));
    }
    FirstIsLanding(entries, k, i);
  }

  /** The bytes of every data block of a table, by offset. */
  ghost predicate HoldsBlocks(table: Table, contents: map<nat, Bytes>) {
    forall i :: 0 <= i < |table.written| ==>
      table.written[i].handle.offset in contents && Encodes(contents[table.written[i].handle.offset], table.written[i].entries)
  }

  /** Table::InternalGet with its data blocks as bytes. */
  method InternalGetBytes(table: Table, contents: map<nat, Bytes>, user: Bytes, snapshot: nat) returns (r: Option<RawEntry>)
    requires table.Ok() && HoldsBlocks(table, contents) && FitsKey(RawSeekKey(user, snapshot))
    ensures Answers(table.added, user, snapshot, r)
  {
    hide RawLess, RawSorted, Flat, Indexed, Filtered, Marks, CompareBytes, Answers, Sees, Encodes;
    var k := RawSeekKey(user, snapshot);
    r := None;
    var i := SeekIndexBlock(table.index, k);
    if i < |table.index| {
      table.IndexedAt(i);
      var may := table.MayMatch(i, user);
      BlockSorted(table.written, i);
      if may {
        ghost var j;
        r, j := SeekDataBlockBytes(contents[table.index[i].handle.offset], table.written[i].entries, k);
        SoughtInBlock(table.written[i].entries, j, k);
      }
    }
    Answered(table.index, table.file, table.written, table.added, i, user, snapshot, r);
  }
}
