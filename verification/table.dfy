/**
 Tables (table/table_builder.cc, table/table.cc): data blocks, an index of shortened separators, and filters.

 A block is the list of its entries here; DataBlocks encodes these lists as bytes and reads them back.
 */
module Tables {
  import opened Keys
  import opened Version
  import opened Separators
  import opened Filters
  import Blocks

  datatype RawEntry = RawEntry(key: RawKey, value: Bytes)
  datatype Handle = Handle(offset: nat, size: nat)
  datatype IndexEntry = IndexEntry(key: RawKey, handle: Handle)

  const BLOCK_TRAILER_SIZE: nat := 5

  predicate RawSorted(s: seq<RawEntry>) {
    forall i, j :: 0 <= i < j < |s| ==> RawLess(s[i].key, s[j].key)
  }

  lemma {:induction false} RawOrder(a: RawKey, b: RawKey, c: RawKey)
    ensures !RawLess(a, a) && (RawLess(a, b) || a == b || RawLess(b, a)) && !(RawLess(a, b) && RawLess(b, a))
    ensures RawLess(a, b) && RawLess(b, c) ==> RawLess(a, c)
  {
    LiftPreservesOrder(a, a);
    LiftPreservesOrder(a, b);
    LiftPreservesOrder(b, a);
    LiftPreservesOrder(b, c);
    LiftPreservesOrder(a, c);
  }

  // ---------------------------------------------------------------------------------------------
  // The layout of a table
  // ---------------------------------------------------------------------------------------------

  /** A data block written to the file. */
  datatype Written = Written(handle: Handle, entries: seq<RawEntry>)

  function Flat(w: seq<Written>): seq<RawEntry> {
    if w == [] then [] else Flat(w[..|w| - 1]) + w[|w| - 1].entries
  }

  function Last(w: Written): RawKey
    requires w.entries != []
  {
    w.entries[|w.entries| - 1].key
  }

  /** The entries behind block i: the next block, or the entries not yet in a block. */
  function Behind(w: seq<Written>, tail: seq<RawEntry>, i: nat): seq<RawEntry>
    requires i < |w|
  {
    if i + 1 < |w| then w[i + 1].entries else tail
  }

  /** The index key of a block: its last key, or one whose user key lies strictly before the next block's first. */
  ghost predicate Marks(last: RawKey, key: RawKey, behind: seq<RawEntry>) {
    && (|| key == last
        || (CompareBytes(last.user, key.user) < 0 && (behind != [] ==> CompareBytes(key.user, behind[0].key.user) < 0)))
    && if behind == [] then ShortSuccessor(last, key) else ShortestSeparator(last, behind[0].key, key)
  }

  ghost predicate Indexed(w: seq<Written>, tail: seq<RawEntry>, index: seq<IndexEntry>, i: nat)
    requires i < |w| && i < |index|
  {
    w[i].entries != [] && index[i].handle == w[i].handle && Marks(Last(w[i]), index[i].key, Behind(w, tail, i))
  }

  /** Where the block behind the first n begins. */
  function EndOf(w: seq<Written>, n: nat): nat
    requires n <= |w|
  {
    if n == 0 then 0 else w[n - 1].handle.offset + w[n - 1].handle.size + BLOCK_TRAILER_SIZE
  }

  /** Blocks lie one behind the other, each with its trailer. */
  ghost predicate Placed(w: seq<Written>, end: nat) {
    (forall i :: 0 <= i < |w| ==> PlacedAt(w, i)) && end == EndOf(w, |w|)
  }

  ghost predicate PlacedAt(w: seq<Written>, i: nat)
    requires i < |w|
  {
    w[i].entries != [] && w[i].handle.offset == EndOf(w, i)
  }

  lemma {:induction false} PlacedMore(w: seq<Written>, b: Written)
    requires Placed(w, b.handle.offset) && b.entries != []
    ensures Placed(w + [b], b.handle.offset + b.handle.size + BLOCK_TRAILER_SIZE)
  {
    forall i | 0 <= i < |w| + 1 ensures PlacedAt(w + [b], i) {
      if i < |w| {
        assert PlacedAt(w, i);
      }
    }
  }

  lemma {:induction false} OffsetsIncrease(w: seq<Written>, end: nat, i: nat, j: nat)
    requires Placed(w, end) && i < j <= |w|
    ensures w[i].handle.offset < EndOf(w, j)
  {
    if i + 1 < j {
      assert PlacedAt(w, j - 1);
      OffsetsIncrease(w, end, i, j - 1);
    }
  }

  /** The filter group of every block holds the user keys of its entries, and a group holds no other keys. */
  ghost predicate Filtered(w: seq<Written>, groups: seq<seq<Bytes>>) {
    && (forall i, e :: 0 <= i < |w| && e in w[i].entries ==> InGroup(groups, w[i].handle.offset, e.key.user))
    && (forall g: nat, user :: g < |groups| && user in groups[g] ==> BeginsIn(w, g, user))
  }

  predicate InGroup(groups: seq<seq<Bytes>>, offset: nat, user: Bytes) {
    Group(offset) < |groups| && user in groups[Group(offset)]
  }

  /** The user key of an entry of a block that begins in the group. */
  ghost predicate BeginsIn(w: seq<Written>, g: nat, user: Bytes) {
    exists i, e :: 0 <= i < |w| && e in w[i].entries && Group(w[i].handle.offset) == g && e.key.user == user
  }

  lemma {:induction false} FlatMembers(w: seq<Written>, e: RawEntry)
    ensures e in Flat(w) <==> exists i :: 0 <= i < |w| && e in w[i].entries
  {
    if w != [] {
      FlatMembers(w[..|w| - 1], e);
      if i :| 0 <= i < |w| && e in w[i].entries {
        if i < |w| - 1 {
          assert e in w[..|w| - 1][i].entries;
        }
      }
    }
  }

  lemma {:induction false} FlatMore(w: seq<Written>, b: Written)
    ensures Flat(w + [b]) == Flat(w) + b.entries
  {
    assert (w + [b])[..|w|] == w;
  }

  ghost predicate InFile(w: seq<Written>, file: map<nat, seq<RawEntry>>) {
    forall i :: 0 <= i < |w| ==> w[i].handle.offset in file && file[w[i].handle.offset] == w[i].entries
  }

  // ---------------------------------------------------------------------------------------------
  // The builder
  // ---------------------------------------------------------------------------------------------

  /** The fields of a builder, with the blocks in the file by offset, and what they stand for. */
  datatype Rep = Rep(offset: nat, dataBlock: seq<RawEntry>, index: seq<IndexEntry>, lastKey: RawKey, pendingIndexEntry: bool,
                     pendingHandle: Handle, file: map<nat, seq<RawEntry>>)

  ghost predicate AllIndexed(w: seq<Written>, tail: seq<RawEntry>, index: seq<IndexEntry>) {
    |index| <= |w| && forall i :: 0 <= i < |index| ==> Indexed(w, tail, index, i)
  }

  ghost predicate Building(r: Rep, w: seq<Written>, added: seq<RawEntry>) {
    && added == Flat(w) + r.dataBlock
    && RawSorted(added)
    && (added != [] ==> r.lastKey == added[|added| - 1].key)
    && Placed(w, r.offset) && InFile(w, r.file)
    && AllIndexed(w, r.dataBlock, r.index)
    && |w| == |r.index| + (if r.pendingIndexEntry then 1 else 0)
    && (r.pendingIndexEntry ==> r.dataBlock == [] && r.pendingHandle == w[|w| - 1].handle)
    && (r.dataBlock == [] ==> r.pendingIndexEntry || w == [])
  }

  ghost predicate Filtering(r: Rep, w: seq<Written>, groups: seq<seq<Bytes>>, count: nat) {
    count == Group(r.offset) && Filtered(w + Unwritten(r), groups)
  }

  /** The data block as it would be written next. */
  function Unwritten(r: Rep): seq<Written> {
    if r.dataBlock == [] then [] else [Written(Handle(r.offset, 0), r.dataBlock)]
  }

  function Flushed(r: Rep, size: nat): Rep {
    r.(offset := r.offset + size + BLOCK_TRAILER_SIZE, dataBlock := [], pendingIndexEntry := true,
       pendingHandle := Handle(r.offset, size), file := r.file[r.offset := r.dataBlock])
  }

  lemma {:induction false} FlushIndexed(w: seq<Written>, b: Written, index: seq<IndexEntry>)
    requires AllIndexed(w, b.entries, index)
    ensures AllIndexed(w + [b], [], index)
  {
    hide Marks;
    forall i | 0 <= i < |index| ensures Indexed(w + [b], [], index, i) {
      assert Indexed(w, b.entries, index, i);
    }
  }

  /** A new block goes behind all others. */
  lemma {:induction false} BlocksLieBefore(r: Rep, w: seq<Written>)
    requires Placed(w, r.offset)
    ensures forall i :: 0 <= i < |w| ==> w[i].handle.offset < r.offset
  {
    hide PlacedAt;
    forall i | 0 <= i < |w| ensures w[i].handle.offset < r.offset {
      OffsetsIncrease(w, r.offset, i, |w|);
    }
  }

  lemma {:induction false} FlushBuilds(r: Rep, w: seq<Written>, added: seq<RawEntry>, size: nat)
    requires Building(r, w, added) && r.dataBlock != []
    ensures Building(Flushed(r, size), w + [Written(Handle(r.offset, size), r.dataBlock)], added)
  {
    hide RawSorted, AllIndexed, Flat, Placed;
    var b := Written(Handle(r.offset, size), r.dataBlock);
    FlatMore(w, b);
    PlacedMore(w, b);
    BlocksLieBefore(r, w);
    FlushIndexed(w, b, r.index);
    assert Flat(w + [b]) + [] == added;
  }

  lemma {:induction false} FlushFilters(r: Rep, w: seq<Written>, size: nat, groups: seq<seq<Bytes>>, count: nat)
    requires Filtering(r, w, groups, count) && r.dataBlock != []
    ensures var end := r.offset + size + BLOCK_TRAILER_SIZE;
            Filtering(Flushed(r, size), w + [Written(Handle(r.offset, size), r.dataBlock)],
                      Padded(groups, Group(end) + 1), Group(end))
  {
    hide Group;
    var b, groups' := Written(Handle(r.offset, size), r.dataBlock), Padded(groups, Group(r.offset + size + BLOCK_TRAILER_SIZE) + 1);
    var was, w' := w + Unwritten(r), w + [b];
    assert w' + [] == w';
    forall i, e | 0 <= i < |w'| && e in w'[i].entries ensures InGroup(groups', w'[i].handle.offset, e.key.user) {
      assert e in was[i].entries;
      assert InGroup(groups, was[i].handle.offset, e.key.user);
    }
    forall g: nat, user | g < |groups'| && user in groups'[g] ensures BeginsIn(w', g, user) {
      assert g < |groups| && user in groups[g];
      assert BeginsIn(was, g, user);
      var i, e :| 0 <= i < |was| && e in was[i].entries && Group(was[i].handle.offset) == g && e.key.user == user;
      assert e in w'[i].entries;
    }
  }

  /** Adding an entry; sep goes to the index when an index entry is pending. */
  function More(r: Rep, e: RawEntry, sep: RawKey): Rep {
    r.(dataBlock := r.dataBlock + [e], lastKey := e.key, pendingIndexEntry := false,
       index := r.index + if r.pendingIndexEntry then [IndexEntry(sep, r.pendingHandle)] else [])
  }

  lemma {:induction false} AddBuilds(r: Rep, w: seq<Written>, added: seq<RawEntry>, e: RawEntry, sep: RawKey)
    requires Building(r, w, added) && (added != [] ==> RawLess(added[|added| - 1].key, e.key))
    requires r.pendingIndexEntry ==> Separates(r.lastKey, sep, e.key) && ShortestSeparator(r.lastKey, e.key, sep)
    ensures Building(More(r, e, sep), w, added + [e])
  {
    hide RawSorted, RawLess, InFile, Placed, ShortestSeparator, ShortSuccessor;
    var m := More(r, e, sep);
    SortedMore(added, e);
    assert added + [e] == Flat(w) + m.dataBlock;
    if r.pendingIndexEntry {
      LastBlock(r, w, added);
    }
    forall i | 0 <= i < |m.index| ensures Indexed(w, m.dataBlock, m.index, i) {
      if i < |r.index| {
        assert Indexed(w, r.dataBlock, r.index, i);
      }
    }
  }

  /** With nothing in the data block, the last key added is that of the last block. */
  lemma {:induction false} LastBlock(r: Rep, w: seq<Written>, added: seq<RawEntry>)
    requires Building(r, w, added) && r.pendingIndexEntry
    ensures w[|w| - 1].entries != [] && r.lastKey == Last(w[|w| - 1])
  {
    hide RawSorted, AllIndexed, InFile;
    assert PlacedAt(w, |w| - 1);
  }

  /** A finished table. */
  ghost predicate Complete(index: seq<IndexEntry>, file: map<nat, seq<RawEntry>>, w: seq<Written>, added: seq<RawEntry>) {
    && added == Flat(w) && RawSorted(added)
    && |index| == |w| && AllIndexed(w, [], index) && InFile(w, file)
  }

  /** The last index entry, with nothing behind its block. */
  lemma {:induction false} FinishBuilds(r: Rep, w: seq<Written>, added: seq<RawEntry>, sep: RawKey)
    requires Building(r, w, added) && r.dataBlock == []
    requires r.pendingIndexEntry ==>
               (sep == r.lastKey || CompareBytes(r.lastKey.user, sep.user) < 0) && ShortSuccessor(r.lastKey, sep)
    ensures Complete(r.index + if r.pendingIndexEntry then [IndexEntry(sep, r.pendingHandle)] else [], r.file, w, added)
  {
    hide RawSorted, CompareBytes, InFile, Placed, ShortestSeparator, ShortSuccessor;
    var index := r.index + if r.pendingIndexEntry then [IndexEntry(sep, r.pendingHandle)] else [];
    if r.pendingIndexEntry {
      LastBlock(r, w, added);
    }
    assert Flat(w) + [] == Flat(w);
    forall i | 0 <= i < |index| ensures Indexed(w, [], index, i) {
      if i < |r.index| {
        assert Indexed(w, r.dataBlock, r.index, i);
      }
    }
  }

  lemma {:induction false} NoPending(keys: Bytes, start: seq<nat>, pending: seq<Bytes>)
    requires Flattened(keys, start, pending) && start == []
    ensures pending == []
  {
  }

  /** Nothing is added to a block that is full. */
  ghost predicate Unfilled(full: seq<RawEntry> -> bool, block: seq<RawEntry>, n: nat) {
    forall k: nat :: 0 < k < n && k <= |block| ==> !full(block[..k])
  }

  ghost predicate FilledAt(sizeOf: seq<RawEntry> -> nat, full: seq<RawEntry> -> bool, b: Written) {
    b.handle.size == sizeOf(b.entries) && Unfilled(full, b.entries, |b.entries|)
  }

  /** Handles say the sizes of their blocks, and no block went on once it was full. */
  ghost predicate Filled(sizeOf: seq<RawEntry> -> nat, full: seq<RawEntry> -> bool, w: seq<Written>, block: seq<RawEntry>) {
    (forall i :: 0 <= i < |w| ==> FilledAt(sizeOf, full, w[i])) && Unfilled(full, block, |block| + 1)
  }

  lemma {:induction false} FilledMore(sizeOf: seq<RawEntry> -> nat, full: seq<RawEntry> -> bool, w: seq<Written>, block: seq<RawEntry>, e: RawEntry)
    requires Filled(sizeOf, full, w, block)
    ensures Unfilled(full, block + [e], |block + [e]|)
    ensures !full(block + [e]) ==> Filled(sizeOf, full, w, block + [e])
  {
    hide FilledAt;
    forall k: nat | 0 < k <= |block| ensures (block + [e])[..k] == block[..k] {
    }
    assert (block + [e])[..|block| + 1] == block + [e];
  }

  lemma {:induction false} FilledClosed(sizeOf: seq<RawEntry> -> nat, full: seq<RawEntry> -> bool, w: seq<Written>, offset: nat, block: seq<RawEntry>)
    requires forall i :: 0 <= i < |w| ==> FilledAt(sizeOf, full, w[i])
    requires Unfilled(full, block, |block|)
    ensures Filled(sizeOf, full, Closed(w, offset, sizeOf(block), block), [])
  {
    hide Unfilled;
    assert Unfilled(full, [], 1) by {
      NothingFilled(full);
    }
  }

  lemma {:induction false} FilledIsUnfilled(sizeOf: seq<RawEntry> -> nat, full: seq<RawEntry> -> bool, w: seq<Written>, block: seq<RawEntry>)
    requires Filled(sizeOf, full, w, block)
    ensures Unfilled(full, block, |block|)
  {
  }

  lemma {:induction false} NothingFilled(full: seq<RawEntry> -> bool)
    ensures Unfilled(full, [], 1)
  {
  }

  /** The blocks with the data block written behind them, unless it is empty. */
  function Closed(w: seq<Written>, offset: nat, size: nat, block: seq<RawEntry>): seq<Written> {
    if block == [] then w else w + [Written(Handle(offset, size), block)]
  }

  lemma {:induction false} ClosedIs(w: seq<Written>, offset: nat, size: nat, block: seq<RawEntry>)
    requires block != []
    ensures Closed(w, offset, size, block) == w + [Written(Handle(offset, size), block)]
  {
  }

  class TableBuilder {
    /** The size of a finished data block, and whether it has grown to block_size. */
    const sizeOf: seq<RawEntry> -> nat
    const full: seq<RawEntry> -> bool
    const filterBlock: FilterBlockBuilder?
    var rep: Rep
    ghost var written: seq<Written>
    ghost var added: seq<RawEntry>

    ghost predicate Ok()
      reads this, filterBlock
    {
      Sound() && Filled(sizeOf, full, written, rep.dataBlock)
    }

    /** Everything but the size of the data block, which may have become full. */
    ghost predicate Sound()
      reads this, filterBlock
    {
      && Building(rep, written, added)
      && (filterBlock != null ==>
            filterBlock.Ok() && Filtering(rep, written, filterBlock.Groups(), |filterBlock.filterOffsets|))
    }

    constructor (sizeOf: seq<RawEntry> -> nat, full: seq<RawEntry> -> bool, filterBlock: FilterBlockBuilder?)
      requires filterBlock != null ==> filterBlock.Ok() && filterBlock.Groups() == [[]] && filterBlock.filterOffsets == []
      ensures Ok() && added == [] && written == [] && this.filterBlock == filterBlock
    {
      this.sizeOf, this.full, this.filterBlock := sizeOf, full, filterBlock;
      rep := Rep(0, [], [], RawKey([], 0, Deletion), false, Handle(0, 0), map[]);
      written, added := [], [];
    }

    method Flush()
      requires Sound() && Unfilled(full, rep.dataBlock, |rep.dataBlock|)
      requires forall i :: 0 <= i < |written| ==> FilledAt(sizeOf, full, written[i])
      modifies this, filterBlock
      ensures Ok() && added == old(added) && rep.dataBlock == []
      ensures written == Closed(old(written), old(rep.offset), sizeOf(old(rep.dataBlock)), old(rep.dataBlock))
    {
      FilledClosed(sizeOf, full, written, rep.offset, rep.dataBlock);
      if rep.dataBlock == [] {
        return;
      }
      hide *;
      ghost var r, w := rep, written;
      Parts();
      WriteBlock();
      FlushBuilds(r, w, added, sizeOf(r.dataBlock));
      if filterBlock != null {
        StartFilter(filterBlock, r, w, sizeOf(r.dataBlock), rep.offset);
      }
      ClosedIs(w, r.offset, sizeOf(r.dataBlock), r.dataBlock);
      written := written + [Written(Handle(r.offset, sizeOf(r.dataBlock)), r.dataBlock)];
      Whole();
    }

    lemma {:induction false} Parts()
      requires Sound()
      ensures Building(rep, written, added)
      ensures filterBlock != null ==>
                filterBlock.Ok() && Filtering(rep, written, filterBlock.Groups(), |filterBlock.filterOffsets|)
    {
    }

    lemma {:induction false} Whole()
      requires Building(rep, written, added) && Filled(sizeOf, full, written, rep.dataBlock)
      requires filterBlock != null ==>
                 filterBlock.Ok() && Filtering(rep, written, filterBlock.Groups(), |filterBlock.filterOffsets|)
      ensures Ok()
    {
      hide Building, Filled, Filtering;
    }

    /** Writes the data block at the end of the file. */
    method WriteBlock()
      modifies this`rep
      ensures rep == Flushed(old(rep), sizeOf(old(rep).dataBlock))
      ensures rep.offset == old(rep).offset + sizeOf(old(rep).dataBlock) + BLOCK_TRAILER_SIZE && rep.dataBlock == []
    {
      var size := sizeOf(rep.dataBlock);
      rep := rep.(file := rep.file[rep.offset := rep.dataBlock], pendingHandle := Handle(rep.offset, size));
      rep := rep.(offset := rep.offset + size + BLOCK_TRAILER_SIZE, pendingIndexEntry := true, dataBlock := []);
    }

    /** The source asserts that keys come in strictly increasing order. */
    method Add(key: RawKey, value: Bytes)
      requires Ok() && (added != [] ==> RawLess(added[|added| - 1].key, key))
      modifies this, filterBlock
      ensures Ok() && added == old(added) + [RawEntry(key, value)]
      // The data block is written exactly when the entry has made it full.
      ensures var block := old(rep.dataBlock) + [RawEntry(key, value)];
              if full(block) then written == Closed(old(written), old(rep.offset), sizeOf(block), block) && rep.dataBlock == []
              else written == old(written) && rep.dataBlock == block
    {
      hide Building, Filtering, RawLess, FiltersLie, Flattened, Unfilled, FilledAt;
      FilledMore(sizeOf, full, written, rep.dataBlock, RawEntry(key, value));
      var sep := rep.lastKey;
      if rep.pendingIndexEntry {
        sep := FindInternalSeparator(rep.lastKey, key);
      }
      AddBuilds(rep, written, added, RawEntry(key, value), sep);
      ghost var more := More(rep, RawEntry(key, value), sep);
      if rep.pendingIndexEntry {
        rep := rep.(index := rep.index + [IndexEntry(sep, rep.pendingHandle)], pendingIndexEntry := false);
      }
      if filterBlock != null {
        filterBlock.AddKey(key.user);
        AddFilters(old(rep), written, RawEntry(key, value), sep, old(filterBlock.groups), old(filterBlock.pending));
      }
      rep := rep.(lastKey := key, dataBlock := rep.dataBlock + [RawEntry(key, value)]);
      added := added + [RawEntry(key, value)];
      assert rep == more;
      if full(rep.dataBlock) {
        Flush();
      }
    }

    /** Writes what is pending; the filter block's bytes come back, empty when there is no filter. */
    method Finish() returns (filterContents: Bytes)
      requires Ok()
      modifies this, filterBlock
      ensures added == old(added) && Complete(rep.index, rep.file, written, added) && !rep.pendingIndexEntry
      ensures written == Closed(old(written), old(rep.offset), sizeOf(old(rep.dataBlock)), old(rep.dataBlock))
      ensures filterBlock != null ==>
                && IsFilterBlock(filterBlock.policy.hash, filterContents, filterBlock.filterOffsets, filterBlock.groups)
                && Filtered(written, filterBlock.groups)
    {
      FilledIsUnfilled(sizeOf, full, written, rep.dataBlock);
      Flush();
      hide Building, Filtering, Complete, FiltersLie, Flattened, IsFilterBlock, Filled;
      filterContents := [];
      var sep := rep.lastKey;
      if rep.pendingIndexEntry {
        sep := FindInternalSuccessor(rep.lastKey);
      }
      FinishBuilds(rep, written, added, sep);
      if filterBlock != null {
        filterContents := FinishFilter(filterBlock, rep, written);
      }
      if rep.pendingIndexEntry {
        rep := rep.(index := rep.index + [IndexEntry(sep, rep.pendingHandle)], pendingIndexEntry := false);
      }
    }
  }

  /** Closes the filter block behind the last data block. */
  method FinishFilter(filterBlock: FilterBlockBuilder, ghost r: Rep, ghost w: seq<Written>) returns (contents: Bytes)
    requires filterBlock.Ok() && Filtering(r, w, filterBlock.Groups(), |filterBlock.filterOffsets|) && r.dataBlock == []
    modifies filterBlock
    ensures IsFilterBlock(filterBlock.policy.hash, contents, filterBlock.filterOffsets, filterBlock.groups)
    ensures Filtered(w, filterBlock.groups)
  {
    hide FiltersLie, Flattened, IsFilterBlock, Filtered;
    assert w + Unwritten(r) == w;
    if filterBlock.start == [] {
      NoPending(filterBlock.keys, filterBlock.start, filterBlock.pending);
      NoLastGroup(w, filterBlock.groups);
    }
    contents := filterBlock.Finish();
  }

  lemma {:induction false} NoLastGroup(w: seq<Written>, groups: seq<seq<Bytes>>)
    requires Filtered(w, groups + [[]])
    ensures Filtered(w, groups)
  {
    var all := groups + [[]];
    forall i, e | 0 <= i < |w| && e in w[i].entries ensures InGroup(groups, w[i].handle.offset, e.key.user) {
      assert InGroup(all, w[i].handle.offset, e.key.user);
    }
    forall g: nat, user | g < |groups| && user in groups[g] ensures BeginsIn(w, g, user) {
      assert user in all[g];
    }
  }

  /** Tells the filter block where the next data block begins. */
  method StartFilter(filterBlock: FilterBlockBuilder, ghost r: Rep, ghost w: seq<Written>, ghost size: nat, offset: nat)
    requires filterBlock.Ok() && Filtering(r, w, filterBlock.Groups(), |filterBlock.filterOffsets|) && r.dataBlock != []
    requires offset == r.offset + size + BLOCK_TRAILER_SIZE
    modifies filterBlock
    ensures filterBlock.Ok()
    ensures Filtering(Flushed(r, size), w + [Written(Handle(r.offset, size), r.dataBlock)],
                      filterBlock.Groups(), |filterBlock.filterOffsets|)
  {
    hide Filtering, Padded, FiltersLie, Flattened, Group, Flushed;
    FlushFilters(r, w, size, filterBlock.Groups(), |filterBlock.filterOffsets|);
    CountBound(r, w, filterBlock.Groups(), |filterBlock.filterOffsets|, offset);
    filterBlock.StartBlock(offset);
  }

  lemma {:induction false} CountBound(r: Rep, w: seq<Written>, groups: seq<seq<Bytes>>, count: nat, end: nat)
    requires Filtering(r, w, groups, count) && end >= r.offset
    ensures Group(end) >= count
  {
  }

  lemma {:induction false} AddFilters(r: Rep, w: seq<Written>, e: RawEntry, sep: RawKey, groups: seq<seq<Bytes>>, pending: seq<Bytes>)
    requires Filtering(r, w, groups + [pending], |groups|)
    ensures Filtering(More(r, e, sep), w, groups + [pending + [e.key.user]], |groups|)
  {
    hide Group;
    var was, w' := w + Unwritten(r), w + Unwritten(More(r, e, sep));
    var before, after := groups + [pending], groups + [pending + [e.key.user]];
    assert w'[|w|] == Written(Handle(r.offset, 0), r.dataBlock + [e]);
    forall i, f | 0 <= i < |w'| && f in w'[i].entries ensures InGroup(after, w'[i].handle.offset, f.key.user) {
      if i < |w| || f in r.dataBlock {
        assert f in was[i].entries;
        assert InGroup(before, was[i].handle.offset, f.key.user);
      }
    }
    forall g: nat, user | g < |after| && user in after[g] ensures BeginsIn(w', g, user) {
      if user in before[g] {
        assert BeginsIn(was, g, user);
        var i, f :| 0 <= i < |was| && f in was[i].entries && Group(was[i].handle.offset) == g && f.key.user == user;
        assert f in w'[i].entries;
      } else {
        assert e in w'[|w|].entries;
      }
    }
  }

  lemma {:induction false} SortedMore(s: seq<RawEntry>, e: RawEntry)
    requires RawSorted(s) && (s != [] ==> RawLess(s[|s| - 1].key, e.key))
    ensures RawSorted(s + [e])
  {
    hide RawLess;
    forall i, j | 0 <= i < j < |s| + 1 ensures RawLess((s + [e])[i].key, (s + [e])[j].key) {
      if j == |s| && i < |s| - 1 {
        RawOrder(s[i].key, s[|s| - 1].key, e.key);
      }
    }
  }

  // ---------------------------------------------------------------------------------------------
  // Order across blocks
  // ---------------------------------------------------------------------------------------------

  lemma {:induction false} FlatOrdered(w: seq<Written>, i: nat, j: nat, e: RawEntry, f: RawEntry)
    requires RawSorted(Flat(w)) && i < j < |w| && e in w[i].entries && f in w[j].entries
    ensures RawLess(e.key, f.key)
  {
    hide RawLess;
    var front, last := w[..|w| - 1], w[|w| - 1].entries;
    if j == |w| - 1 {
      assert front[i] == w[i];
      FlatMembers(front, e);
      var a :| 0 <= a < |Flat(front)| && Flat(front)[a] == e;
      var b :| 0 <= b < |last| && last[b] == f;
      assert Flat(w)[a] == e && Flat(w)[|Flat(front)| + b] == f;
    } else {
      assert Flat(front) == Flat(w)[..|Flat(front)|];
      FlatOrdered(front, i, j, e, f);
    }
  }

  lemma {:induction false} BlockSorted(w: seq<Written>, i: nat)
    requires RawSorted(Flat(w)) && i < |w|
    ensures RawSorted(w[i].entries)
  {
    hide RawLess;
    var front := w[..|w| - 1];
    if i == |w| - 1 {
      forall a, b | 0 <= a < b < |w[i].entries| ensures RawLess(w[i].entries[a].key, w[i].entries[b].key) {
        assert Flat(w)[|Flat(front)| + a] == w[i].entries[a] && Flat(w)[|Flat(front)| + b] == w[i].entries[b];
      }
    } else {
      assert Flat(front) == Flat(w)[..|Flat(front)|];
      BlockSorted(front, i);
    }
  }

  /** A read of the user key at the snapshot may answer with the entry. */
  predicate Sees(e: RawEntry, user: Bytes, snapshot: nat) {
    e.key.user == user && e.key.sequence <= snapshot
  }

  function RawSeekKey(user: Bytes, snapshot: nat): RawKey {
    RawKey(user, snapshot, Live)
  }

  /** Entries before the seek key are not visible. */
  lemma {:induction false} BeforeIsUnseen(e: RawEntry, user: Bytes, snapshot: nat)
    requires RawLess(e.key, RawSeekKey(user, snapshot))
    ensures !Sees(e, user, snapshot)
  {
    EmbeddingPreservesOrder(e.key.user, user);
  }

  /** An entry between the seek key and a visible one is of the same user key, visible and newer. */
  lemma {:induction false} BetweenIsNewer(g: RawEntry, f: RawEntry, user: Bytes, snapshot: nat)
    requires !RawLess(g.key, RawSeekKey(user, snapshot)) && RawLess(g.key, f.key) && Sees(f, user, snapshot)
    ensures Sees(g, user, snapshot) && f.key.sequence <= g.key.sequence
  {
    EmbeddingPreservesOrder(g.key.user, user);
    EmbeddingPreservesOrder(user, g.key.user);
    EmbeddingPreservesOrder(g.key.user, f.key.user);
  }

  /** Past a separator that is not the last key, no user key at or before the separator goes on. */
  lemma {:induction false} PastSeparator(last: RawKey, sep: RawKey, first: RawKey, f: RawEntry, user: Bytes, snapshot: nat)
    requires CompareBytes(sep.user, first.user) < 0
    requires !RawLess(sep, RawSeekKey(user, snapshot)) && (f.key == first || RawLess(first, f.key))
    ensures !Sees(f, user, snapshot)
  {
    EmbeddingPreservesOrder(sep.user, first.user);
    EmbeddingPreservesOrder(sep.user, user);
    EmbeddingPreservesOrder(user, sep.user);
    EmbeddingPreservesOrder(first.user, f.key.user);
  }

  // ---------------------------------------------------------------------------------------------
  // Reading a table
  // ---------------------------------------------------------------------------------------------

  /** What an answer must be: the newest visible entry of the user key, or nothing of use when there is none. */
  ghost predicate Answers(added: seq<RawEntry>, user: Bytes, snapshot: nat, r: Option<RawEntry>) {
    if r.Some? && r.value.key.user == user then
      && r.value in added && Sees(r.value, user, snapshot)
      && forall f :: f in added && Sees(f, user, snapshot) ==> f.key.sequence <= r.value.key.sequence
    else forall f :: f in added ==> !Sees(f, user, snapshot)
  }

  /** An answer is a lookup in the entries as the engine modules see them. */
  lemma {:induction false} AnswersAreLookups(added: seq<RawEntry>, user: Bytes, snapshot: nat, r: Option<RawEntry>)
    requires Answers(added, user, snapshot, r)
    ensures var E := set e | e in added :: Entry(Lift(e.key), e.value);
            if r.Some? && r.value.key.user == user then Newest(E, Embed(user), snapshot, Entry(Lift(r.value.key), r.value.value))
            else forall e :: !Visible(E, Embed(user), snapshot, e)
  {
    var E := set e | e in added :: Entry(Lift(e.key), e.value);
    forall g | Visible(E, Embed(user), snapshot, g)
      ensures exists f :: f in added && Sees(f, user, snapshot) && g == Entry(Lift(f.key), f.value)
    {
      var f :| f in added && g == Entry(Lift(f.key), f.value);
      EmbeddingPreservesOrder(f.key.user, user);
    }
  }

  /** The first index entry at or after the key. */
  method SeekIndexBlock(index: seq<IndexEntry>, k: RawKey) returns (i: nat)
    ensures i <= |index| && (i < |index| ==> !RawLess(index[i].key, k))
    ensures forall j :: 0 <= j < i ==> RawLess(index[j].key, k)
  {
    i := 0;
    while i < |index| && RawLess(index[i].key, k)
      invariant i <= |index| && forall j :: 0 <= j < i ==> RawLess(index[j].key, k)
    {
      i := i + 1;
    }
  }

  /** The first entry of the block at or after the key. */
  method SeekDataBlock(block: seq<RawEntry>, k: RawKey) returns (i: nat)
    ensures i <= |block| && (i < |block| ==> !RawLess(block[i].key, k))
    ensures forall j :: 0 <= j < i ==> RawLess(block[j].key, k)
  {
    i := 0;
    while i < |block| && RawLess(block[i].key, k)
      invariant i <= |block| && forall j :: 0 <= j < i ==> RawLess(block[j].key, k)
    {
      i := i + 1;
    }
  }

  /** Entries of blocks whose index key comes before the seek key are not visible. */
  lemma {:induction false} EarlierBlocks(w: seq<Written>, index: seq<IndexEntry>, j: nat, e: RawEntry, user: Bytes, snapshot: nat)
    requires RawSorted(Flat(w)) && j < |w| == |index| && Indexed(w, [], index, j) && e in w[j].entries
    requires RawLess(index[j].key, RawSeekKey(user, snapshot))
    ensures !Sees(e, user, snapshot)
  {
    hide CompareBytes;
    BlockSorted(w, j);
    LiftPreservesOrder(e.key, Last(w[j]));
    RawOrder(e.key, Last(w[j]), RawSeekKey(user, snapshot));
    RawOrder(Last(w[j]), index[j].key, RawSeekKey(user, snapshot));
    BeforeIsUnseen(e, user, snapshot);
  }

  /** When the block of the seek key ends before it, later blocks do not hold the user key. */
  lemma {:induction false} LaterBlocks(w: seq<Written>, index: seq<IndexEntry>, i: nat, j: nat, f: RawEntry, user: Bytes, snapshot: nat)
    requires RawSorted(Flat(w)) && i < j < |w| == |index| && AllIndexed(w, [], index) && f in w[j].entries && w[i].entries != []
    requires !RawLess(index[i].key, RawSeekKey(user, snapshot)) && RawLess(Last(w[i]), RawSeekKey(user, snapshot))
    ensures !Sees(f, user, snapshot)
  {
    hide CompareBytes, RawLess, RawSorted;
    assert Indexed(w, [], index, i) && Indexed(w, [], index, i + 1);
    var first := w[i + 1].entries[0];
    if i + 1 < j {
      FlatOrdered(w, i + 1, j, first, f);
    } else {
      BlockSorted(w, j);
      FirstIsFirst(w[j].entries, f);
    }
    PastSeparator(Last(w[i]), index[i].key, first.key, f, user, snapshot);
  }

  lemma {:induction false} FirstIsFirst(s: seq<RawEntry>, e: RawEntry)
    requires RawSorted(s) && e in s
    ensures e.key == s[0].key || RawLess(s[0].key, e.key)
  {
    var i :| 0 <= i < |s| && s[i] == e;
  }

  /** Later blocks hold nothing newer than the first entry of the block at or after the seek key. */
  lemma {:induction false} FoundIsNewest(w: seq<Written>, i: nat, g: RawEntry, j: nat, f: RawEntry, user: Bytes, snapshot: nat)
    requires RawSorted(Flat(w)) && i <= j < |w| && g in w[i].entries && f in w[j].entries && Sees(f, user, snapshot)
    requires !RawLess(g.key, RawSeekKey(user, snapshot)) && (i == j ==> f == g || RawLess(g.key, f.key))
    ensures Sees(g, user, snapshot) && f.key.sequence <= g.key.sequence
  {
    hide RawLess, RawSorted;
    if i < j {
      FlatOrdered(w, i, j, g, f);
    }
    if f != g {
      BetweenIsNewer(g, f, user, snapshot);
    }
  }

  /** What the search in block i has found: the first entry at or after the key, or that the block is of no use. */
  ghost predicate Sought(w: seq<Written>, i: nat, user: Bytes, k: RawKey, r: Option<RawEntry>)
    requires i < |w|
  {
    match r
    case Some(g) =>
      && g in w[i].entries && !RawLess(g.key, k)
      && forall e :: e in w[i].entries ==> e == g || RawLess(e.key, k) || RawLess(g.key, e.key)
    case None =>
      || (forall e :: e in w[i].entries ==> RawLess(e.key, k))
      || (forall e :: e in w[i].entries ==> e.key.user != user)
  }

  lemma {:induction false} SoughtInBlock(block: seq<RawEntry>, j: nat, k: RawKey)
    requires RawSorted(block) && j <= |block| && (j < |block| ==> !RawLess(block[j].key, k))
    requires forall i :: 0 <= i < j ==> RawLess(block[i].key, k)
    ensures j < |block| ==>
        forall e :: e in block ==> e == block[j] || RawLess(e.key, k) || RawLess(block[j].key, e.key)
    ensures j == |block| ==> forall e :: e in block ==> RawLess(e.key, k)
  {
    hide RawLess;
  }

  lemma {:induction false} AtOrAfterIsSeen(e: RawEntry, user: Bytes, snapshot: nat)
    requires !RawLess(e.key, RawSeekKey(user, snapshot)) && e.key.user == user
    ensures Sees(e, user, snapshot)
  {
    EmbeddingPreservesOrder(user, user);
  }

  /** Any visible entry of the table is answered by what was found. */
  lemma {:induction false} VisibleIsAnswered(index: seq<IndexEntry>, w: seq<Written>, i: nat, user: Bytes, snapshot: nat,
                                             r: Option<RawEntry>, m: nat, f: RawEntry)
    requires RawSorted(Flat(w)) && |index| == |w| && AllIndexed(w, [], index) && i <= |w|
    requires forall j :: 0 <= j < i ==> RawLess(index[j].key, RawSeekKey(user, snapshot))
    requires i < |w| ==> !RawLess(index[i].key, RawSeekKey(user, snapshot)) && Sought(w, i, user, RawSeekKey(user, snapshot), r)
    requires i == |w| ==> r == None
    requires m < |w| && f in w[m].entries && Sees(f, user, snapshot)
    ensures r.Some? && Sees(r.value, user, snapshot) && f.key.sequence <= r.value.key.sequence
  {
    hide RawLess, RawSorted, Marks;
    var k := RawSeekKey(user, snapshot);
    assert Indexed(w, [], index, m);
    if m < i {
      EarlierBlocks(w, index, m, f, user, snapshot);
      assert false;
    }
    assert Indexed(w, [], index, i);
    if RawLess(f.key, k) {
      BeforeIsUnseen(f, user, snapshot);
      assert false;
    }
    match r {
      case Some(g) =>
        FoundIsNewest(w, i, g, m, f, user, snapshot);
      case None =>
        NothingFound(index, w, i, user, snapshot, m, f);
    }
  }

  /** With nothing found in block i, nothing is visible from it on. */
  lemma {:induction false} NothingFound(index: seq<IndexEntry>, w: seq<Written>, i: nat, user: Bytes, snapshot: nat, m: nat, f: RawEntry)
    requires RawSorted(Flat(w)) && |index| == |w| && AllIndexed(w, [], index) && i <= m < |w|
    requires !RawLess(index[i].key, RawSeekKey(user, snapshot)) && Sought(w, i, user, RawSeekKey(user, snapshot), None)
    requires f in w[m].entries
    ensures !Sees(f, user, snapshot)
  {
    hide RawLess, RawSorted, Marks;
    var k := RawSeekKey(user, snapshot);
    assert Indexed(w, [], index, i);
    var last := w[i].entries[|w[i].entries| - 1];
    if RawLess(Last(w[i]), k) {
      if i < m {
        LaterBlocks(w, index, i, m, f, user, snapshot);
      } else if RawLess(f.key, k) {
        BeforeIsUnseen(f, user, snapshot);
      }
    } else if Sees(f, user, snapshot) && i < m {
      FlatOrdered(w, i, m, last, f);
      BetweenIsNewer(last, f, user, snapshot);
    }
  }

  lemma {:induction false} Answered(index: seq<IndexEntry>, file: map<nat, seq<RawEntry>>, w: seq<Written>, added: seq<RawEntry>,
                                    i: nat, user: Bytes, snapshot: nat, r: Option<RawEntry>)
    requires Complete(index, file, w, added) && i <= |w|
    requires forall j :: 0 <= j < i ==> RawLess(index[j].key, RawSeekKey(user, snapshot))
    requires i < |w| ==> !RawLess(index[i].key, RawSeekKey(user, snapshot)) && Sought(w, i, user, RawSeekKey(user, snapshot), r)
    requires i == |w| ==> r == None
    ensures Answers(added, user, snapshot, r)
  {
    hide RawLess, RawSorted, Marks, Sees;
    forall f | f in added && Sees(f, user, snapshot)
      ensures r.Some? && Sees(r.value, user, snapshot) && f.key.sequence <= r.value.key.sequence
    {
      FlatMembers(w, f);
      var m :| 0 <= m < |w| && f in w[m].entries;
      VisibleIsAnswered(index, w, i, user, snapshot, r, m, f);
    }
    if r.Some? {
      FlatMembers(w, r.value);
      if r.value.key.user == user {
        AtOrAfterIsSeen(r.value, user, snapshot);
      } else {
        OtherUser(r.value, user, snapshot);
      }
    }
  }

  lemma {:induction false} OtherUser(e: RawEntry, user: Bytes, snapshot: nat)
    requires e.key.user != user
    ensures !Sees(e, user, snapshot)
  {
  }

  class Table {
    const index: seq<IndexEntry>
    const file: map<nat, seq<RawEntry>>
    const filter: FilterBlockReader?
    ghost const written: seq<Written>
    ghost const added: seq<RawEntry>
    ghost const offsets: seq<nat>
    ghost const groups: seq<seq<Bytes>>

    ghost predicate Ok() {
      && Complete(index, file, written, added)
      && (filter != null ==> Reads(filter, offsets, groups) && Filtered(written, groups))
    }

    constructor (index: seq<IndexEntry>, file: map<nat, seq<RawEntry>>, filter: FilterBlockReader?,
                 ghost written: seq<Written>, ghost added: seq<RawEntry>, ghost offsets: seq<nat>, ghost groups: seq<seq<Bytes>>)
      requires Complete(index, file, written, added)
      requires filter != null ==> Reads(filter, offsets, groups) && Filtered(written, groups)
      ensures Ok() && this.added == added && this.filter == filter
    {
      this.index, this.file, this.filter := index, file, filter;
      this.written, this.added, this.offsets, this.groups := written, added, offsets, groups;
    }

    /** The filter for the blocks that begin in the same 2 KB as block i. */
    ghost function FilterFor(i: nat): Choice
      requires Ok() && filter != null && i < |index|
    {
      ReadsInBounds(filter, offsets, groups);
      Choose(filter.data, filter.offset, filter.num, FilterIndex(index[i].handle.offset, filter.baseLg))
    }

    /**
     Whether the filter lets the search into block i. It always does when the block holds the user key; it does
     for no other key, unless the keys of the blocks that begin in the same 2 KB took all its probes.
     */
    method MayMatch(i: nat, user: Bytes) returns (may: bool)
      requires Ok() && i < |index|
      ensures (exists e :: e in written[i].entries && e.key.user == user) ==> may
      ensures filter == null ==> may
      ensures filter != null ==>
                && FilterFor(i).Ask? && Group(index[i].handle.offset) < |groups|
                && (may <==> var f := FilterFor(i).filter;
                             |f| >= 2 && AllProbesTaken(filter.policy.hash, 8 * (|f| - 1), f[|f| - 1], groups[Group(index[i].handle.offset)], user))
    {
      hide Reads, Choose, Covers, Group, AllProbesTaken, Matches, Complete;
      if filter == null {
        return true;
      }
      ReadsInBounds(filter, offsets, groups);
      may := filter.KeyMayMatch(index[i].handle.offset, user);
      IndexedAt(i);
      assert written[i].entries[0] in written[i].entries;
      assert InGroup(groups, written[i].handle.offset, written[i].entries[0].key.user);
      NeverHidden(filter, offsets, groups, index[i].handle.offset, user);
      if e :| e in written[i].entries && e.key.user == user {
        assert InGroup(groups, written[i].handle.offset, e.key.user);
      }
    }

    method InternalGet(user: Bytes, snapshot: nat) returns (r: Option<RawEntry>)
      requires Ok()
      ensures Answers(added, user, snapshot, r)
    {
      hide RawLess, RawSorted, Flat, Indexed, Reads, Filtered, Marks, CompareBytes, Answers, Sees;
      var k := RawSeekKey(user, snapshot);
      r := None;
      var i := SeekIndexBlock(index, k);
      if i < |index| {
        IndexedAt(i);
        var may := MayMatch(i, user);
        if may {
          var block := file[index[i].handle.offset];
          var j := SeekDataBlock(block, k);
          if j < |block| {
            r := Some(block[j]);
          }
          BlockSorted(written, i);
          SoughtInBlock(block, j, k);
        }
      }
      Answered(index, file, written, added, i, user, snapshot, r);
    }

    lemma {:induction false} IndexedAt(i: nat)
      requires Ok() && i < |index|
      ensures |index| == |written| && index[i].handle == written[i].handle && written[i].entries != []
      ensures index[i].handle.offset in file && file[index[i].handle.offset] == written[i].entries
    {
      assert Indexed(written, [], index, i);
    }
  }

  lemma {:induction false} ReadsInBounds(reader: FilterBlockReader, offsets: seq<nat>, groups: seq<seq<Bytes>>)
    requires Reads(reader, offsets, groups)
    ensures reader.InBounds()
  {
  }

  /** Opens a finished table; the filter is used when there is one. */
  method Open(builder: TableBuilder, filterContents: Bytes) returns (table: Table)
    requires Complete(builder.rep.index, builder.rep.file, builder.written, builder.added)
    requires builder.filterBlock != null ==>
               && |filterContents| < Blocks.LIMIT
               && IsFilterBlock(builder.filterBlock.policy.hash, filterContents, builder.filterBlock.filterOffsets,
                                builder.filterBlock.groups)
               && Filtered(builder.written, builder.filterBlock.groups)
    ensures table.Ok() && table.added == builder.added && (table.filter != null <==> builder.filterBlock != null)
  {
    hide IsFilterBlock, Reads;
    var reader: FilterBlockReader? := null;
    ghost var offsets: seq<nat>, groups: seq<seq<Bytes>> := [], [];
    if builder.filterBlock != null {
      offsets, groups := builder.filterBlock.filterOffsets, builder.filterBlock.groups;
      reader := OpenFilter(builder.filterBlock.policy, filterContents, offsets, groups);
    }
    table := new Table(builder.rep.index, builder.rep.file, reader, builder.written, builder.added, offsets, groups);
  }
}
