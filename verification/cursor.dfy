/**
 The Iterator interface (include/leveldb/iterator.h) over a sorted run of entries: what the engine's
 iterators rely on from the iterators below them.
 */
module Cursors {
  import opened Keys

  class Cursor {
    const entries: seq<Entry>
    /** The current entry, or |entries| when the cursor is not valid. */
    var pos: nat

    ghost predicate Ok()
      reads this
    {
      Sorted(entries) && pos <= |entries|
    }

    predicate Valid()
      reads this
    {
      pos < |entries|
    }

    constructor (entries: seq<Entry>)
      requires Sorted(entries)
      ensures Ok() && !Valid() && this.entries == entries
    {
      this.entries := entries;
      pos := |entries|;
    }

    function Key(): InternalKey
      requires Valid()
      reads this
    {
      entries[pos].key
    }

    function Value(): Bytes
      requires Valid()
      reads this
    {
      entries[pos].value
    }

    method SeekToFirst()
      requires Ok()
      modifies this
      ensures Ok() && pos == 0
    {
      pos := 0;
    }

    method SeekToLast()
      requires Ok()
      modifies this
      ensures Ok() && pos == if |entries| == 0 then 0 else |entries| - 1
    {
      pos := if |entries| == 0 then 0 else |entries| - 1;
    }

    /** Moves to the first entry at or after the target. */
    method Seek(target: InternalKey)
      requires Ok()
      modifies this
      ensures Ok()
      ensures forall i :: 0 <= i < pos ==> Less(entries[i].key, target)
      ensures forall i :: pos <= i < |entries| ==> AtMost(target, entries[i].key)
    {
      pos := 0;
      while pos < |entries| && Less(entries[pos].key, target)
        invariant pos <= |entries|
        invariant forall i :: 0 <= i < pos ==> Less(entries[i].key, target)
      {
        pos := pos + 1;
      }
      if pos < |entries| {
        PackedOrder(entries[pos].key, target);
      }
    }

    method Next()
      requires Ok() && Valid()
      modifies this
      ensures Ok() && pos == old(pos) + 1
    {
      pos := pos + 1;
    }

    method Prev()
      requires Ok() && Valid()
      modifies this
      ensures Ok() && pos == if old(pos) == 0 then |entries| else old(pos) - 1
    {
      pos := if pos == 0 then |entries| else pos - 1;
    }
  }
}
