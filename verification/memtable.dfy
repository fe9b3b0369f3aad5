/**
 The memtable (db/memtable.cc): a skip list of buffers. Every entry is one buffer, the length-prefixed internal
 key and then the length-prefixed value; the list orders them by the internal keys at their front.
 */
module MemTables {
  import opened Keys
  import opened Version
  import opened Coding
  import opened Separators
  import opened Tables
  import opened WriteBatches
  import opened SkipLists

  // ---------------------------------------------------------------------------------------------
  // The buffers
  // ---------------------------------------------------------------------------------------------

  predicate FitsKey(k: RawKey) {
    |k.user| + 8 < WriteBatches.LIMIT && k.sequence <= MAX_SEQUENCE
  }

  predicate FitsEntry(e: RawEntry) {
    FitsKey(e.key) && |e.value| < WriteBatches.LIMIT
  }

  /** The user key and the fixed64 tag. */
  function KeyBytes(k: RawKey): (r: Bytes)
    requires FitsKey(k)
    ensures |r| == |k.user| + 8
  {
    k.user + EncodeFixed64(PackSequenceAndType(k.sequence, k.kind))
  }

  function EntryBytes(e: RawEntry): Bytes
    requires FitsEntry(e)
  {
    LengthPrefixed(KeyBytes(e.key)) + LengthPrefixed(e.value)
  }

  /** ParseInternalKey: the tag is the last eight bytes. */
  function ParseKey(b: Bytes): RawKey
    requires |b| >= 8
  {
    var tag := DecodeFixed64(b[|b| - 8..]);
    RawKey(b[..|b| - 8], tag / 256, if tag % 256 == 1 then Live else Deletion)
  }

  lemma {:induction false} TagSplits(sequence: nat, kind: Kind)
    ensures PackSequenceAndType(sequence, kind) / 256 == sequence
    ensures PackSequenceAndType(sequence, kind) % 256 == KindByte(kind)
  {
  }

  lemma {:induction false} KeyRoundTrip(k: RawKey)
    requires FitsKey(k)
    ensures ParseKey(KeyBytes(k)) == k
  {
    hide EncodeFixed64, DecodeFixed64, PackSequenceAndType;
    var tag := PackSequenceAndType(k.sequence, k.kind);
    TagFits(k);
    var b := KeyBytes(k);
    assert b[..|b| - 8] == k.user && b[|b| - 8..] == EncodeFixed64(tag);
    Fixed64RoundTrip(tag, []);
    assert EncodeFixed64(tag) + [] == EncodeFixed64(tag);
    TagSplits(k.sequence, k.kind);
  }

  lemma {:induction false} TagFits(k: RawKey)
    requires FitsKey(k)
    ensures PackSequenceAndType(k.sequence, k.kind) < TWO64
  {
  }

  /** The internal key and the value of a buffer. */
  lemma {:induction false} EntryRoundTrip(e: RawEntry)
    requires FitsEntry(e)
    ensures ReadString(EntryBytes(e)) == Some((KeyBytes(e.key), LengthPrefixed(e.value)))
    ensures ReadString(LengthPrefixed(e.value)) == Some((e.value, []))
  {
    hide LengthPrefixed, ReadString, KeyBytes;
    StringRoundTrip(KeyBytes(e.key), LengthPrefixed(e.value));
    StringRoundTrip(e.value, []);
    assert LengthPrefixed(e.value) + [] == LengthPrefixed(e.value);
  }

  // ---------------------------------------------------------------------------------------------
  // The memtable
  // ---------------------------------------------------------------------------------------------

  /** The place of an internal key among all internal keys: the digits of its user key, then its tag counted down. */
  function Rank(user: Bytes, tag: nat): (r: real)
    ensures 0.0 <= r < 1.0
  {
    if user == [] then (if tag < TWO64 then (TWO64 - 1 - tag) as real / TWO64 as real else 0.0) / 257.0
    else (user[0] as real + 1.0 + Rank(user[1..], tag)) / 257.0
  }

  function RankOf(k: RawKey): real {
    Rank(k.user, PackSequenceAndType(k.sequence, k.kind))
  }

  lemma {:induction false} RanksInOrder(a: Bytes, s: nat, b: Bytes, t: nat)
    requires s < TWO64 && t < TWO64
    ensures Rank(a, s) < Rank(b, t) <==> CompareBytes(a, b) < 0 || (CompareBytes(a, b) == 0 && s > t)
    ensures Rank(a, s) == Rank(b, t) <==> CompareBytes(a, b) == 0 && s == t
  {
    if a == [] && b == [] {
      TagsInOrder(s, t);
    } else if a != [] && b != [] {
      RanksInOrder(a[1..], s, b[1..], t);
    }
  }

  lemma {:induction false} TagsInOrder(s: nat, t: nat)
    requires s < TWO64 && t < TWO64
    ensures Rank([], s) < Rank([], t) <==> s > t
    ensures Rank([], s) == Rank([], t) <==> s == t
  {
  }

  /** The comparator's order is the order of the ranks. */
  lemma {:induction false} RankIsOrder(a: RawKey, b: RawKey)
    requires a.sequence <= MAX_SEQUENCE && b.sequence <= MAX_SEQUENCE
    ensures RawLess(a, b) <==> RankOf(a) < RankOf(b)
    ensures a == b <==> RankOf(a) == RankOf(b)
  {
    hide Rank, CompareBytes;
    EmbeddingPreservesOrder(a.user, b.user);
    TagSplits(a.sequence, a.kind);
    TagSplits(b.sequence, b.kind);
    RanksInOrder(a.user, PackSequenceAndType(a.sequence, a.kind), b.user, PackSequenceAndType(b.sequence, b.kind));
  }

  /** The key of an entry in the skip list. */
  function ListKey(e: RawEntry): Key
    requires FitsEntry(e)
  {
    Key(RankOf(e.key), EntryBytes(e))
  }

  ghost predicate Holds(keys: seq<Key>, entries: seq<RawEntry>) {
    |keys| == |entries| && forall i :: 0 <= i < |entries| ==> FitsEntry(entries[i]) && keys[i] == ListKey(entries[i])
  }

  /** Keys in order hold entries in order. */
  lemma {:induction false} HeldInOrder(keys: seq<Key>, entries: seq<RawEntry>)
    requires Holds(keys, entries) && forall i, j :: 0 <= i < j < |keys| ==> keys[i].rank < keys[j].rank
    ensures RawSorted(entries)
  {
    hide RawLess, RankOf, EntryBytes;
    forall i, j | 0 <= i < j < |entries| ensures RawLess(entries[i].key, entries[j].key) {
      assert keys[i] == ListKey(entries[i]) && keys[j] == ListKey(entries[j]);
      RankIsOrder(entries[i].key, entries[j].key);
    }
  }

  lemma {:induction false} InsertedHolds(keys: seq<Key>, s: seq<RawEntry>, k: nat, e: RawEntry, more: seq<Key>)
    requires Holds(keys, s) && FitsEntry(e) && InsertedAt(keys, k, ListKey(e), more)
    ensures k <= |s| && Holds(more, s[..k] + [e] + s[k..])
  {
    hide ListKey, FitsEntry;
  }

  lemma {:induction false} OneMoreEntry(s: seq<RawEntry>, i: nat, e: RawEntry)
    requires i <= |s|
    ensures multiset(s[..i] + [e] + s[i..]) == multiset(s) + multiset{e}
  {
    assert s == s[..i] + s[i..];
  }

  /** What a read of user at snapshot is told: its newest visible entry, or None when there is none. */
  ghost predicate Reports(entries: seq<RawEntry>, user: Bytes, snapshot: nat, r: Option<Read>) {
    match r
    case None => forall e :: e in entries ==> !Sees(e, user, snapshot)
    case Some(read) => exists e :: NewestIn(entries, user, snapshot, e) && read == ReadOfRaw(e)
  }

  ghost predicate NewestIn(entries: seq<RawEntry>, user: Bytes, snapshot: nat, e: RawEntry) {
    && e in entries && Sees(e, user, snapshot)
    && forall f :: f in entries && Sees(f, user, snapshot) ==> f.key.sequence <= e.key.sequence
  }

  function ReadOfRaw(e: RawEntry): Read {
    if e.key.kind == Live then Found(e.value) else NotFound
  }

  /** The first entry at or after the seek key answers the read. */
  lemma {:induction false} FirstAfterSeek(s: seq<RawEntry>, i: nat, user: Bytes, snapshot: nat)
    requires RawSorted(s) && i <= |s|
    requires forall j :: 0 <= j < i ==> RawLess(s[j].key, RawSeekKey(user, snapshot))
    requires i < |s| ==> !RawLess(s[i].key, RawSeekKey(user, snapshot))
    ensures i < |s| && s[i].key.user == user ==> NewestIn(s, user, snapshot, s[i])
    ensures i == |s| || s[i].key.user != user ==> forall e :: e in s ==> !Sees(e, user, snapshot)
  {
    hide RawLess, Sees;
    forall e | e in s && Sees(e, user, snapshot)
      ensures i < |s| && Sees(s[i], user, snapshot) && s[i].key.user == user && e.key.sequence <= s[i].key.sequence
    {
      var j :| 0 <= j < |s| && s[j] == e;
      if j < i {
        BeforeIsUnseen(s[j], user, snapshot);
        assert false;
      }
      SameUser(e, user, snapshot);
      if j > i {
        BetweenIsNewer(s[i], e, user, snapshot);
        SameUser(s[i], user, snapshot);
      }
    }
    if i < |s| && s[i].key.user == user {
      AtSeekIsSeen(s[i], snapshot);
    }
  }

  lemma {:induction false} SameUser(e: RawEntry, user: Bytes, snapshot: nat)
    requires Sees(e, user, snapshot)
    ensures e.key.user == user
  {
  }

  lemma {:induction false} AtSeekIsSeen(e: RawEntry, snapshot: nat)
    requires !RawLess(e.key, RawSeekKey(e.key.user, snapshot))
    ensures Sees(e, e.key.user, snapshot)
  {
    EmbeddingPreservesOrder(e.key.user, e.key.user);
  }

  class MemTable {
    const list: SkipList
    /** The entries in the order of the list. */
    ghost var entries: seq<RawEntry>

    ghost predicate Ok()
      reads this, list
    {
      list.Ok() && RawSorted(entries) && Holds(list.Keys(), entries)
    }

    constructor ()
      ensures Ok() && entries == [] && fresh(list)
    {
      list := new SkipList();
      entries := [];
    }

    /** The key and the value in a node of the list. */
    lemma {:induction false} NodeHolds(i: nat)
      requires Ok() && i < |entries|
      ensures i < |list.chains[0]| && list.chains[0][i] < |list.arena|
      ensures var buffer := list.arena[list.chains[0][i]].key.buffer;
              && ReadString(buffer) == Some((KeyBytes(entries[i].key), LengthPrefixed(entries[i].value)))
              && ReadString(LengthPrefixed(entries[i].value)) == Some((entries[i].value, []))
              && FitsEntry(entries[i]) && ParseKey(KeyBytes(entries[i].key)) == entries[i].key
    {
      hide EntryBytes, ReadString, KeyBytes, LengthPrefixed, RankOf, ParseKey;
      assert list.Keys()[i] == ListKey(entries[i]);
      EntryRoundTrip(entries[i]);
      KeyRoundTrip(entries[i].key);
    }

    /** Table::Iterator::Seek: the node of the first entry at or after k. */
    method Seek(k: RawKey) returns (node: Option<nat>, ghost i: nat)
      requires Ok() && k.sequence <= MAX_SEQUENCE
      ensures i <= |entries| && (i < |entries| ==> !RawLess(entries[i].key, k))
      ensures forall j :: 0 <= j < i ==> RawLess(entries[j].key, k)
      ensures |list.chains| > 0 && node == LinkAt(list.chains[0], i) && |list.chains[0]| == |entries|
    {
      hide RawLess, RankOf, EntryBytes, RawSorted, Valid;
      list.InBounds();
      var prev;
      ghost var ks;
      node, prev, ks := list.FindGreaterOrEqual(RankOf(k), list.maxHeight);
      i := ks[0];
      forall j | 0 <= j < |entries| ensures j < i <==> RawLess(entries[j].key, k) {
        assert list.Keys()[j] == ListKey(entries[j]);
        RankIsOrder(entries[j].key, k);
      }
    }

    /** The height is the outcome of RandomHeight. */
    method Add(sequence: nat, kind: Kind, key: Bytes, value: Bytes, height: nat)
      requires Ok() && FitsEntry(RawEntry(RawKey(key, sequence, kind), value)) && 1 <= height <= MAX_HEIGHT
      requires forall e :: e in entries ==> e.key != RawKey(key, sequence, kind)
      modifies this, list
      ensures Ok()
      ensures multiset(entries) == multiset(old(entries)) + multiset{RawEntry(RawKey(key, sequence, kind), value)}
    {
      hide RawLess, RankOf, EntryBytes, RawSorted, Valid, KeysOf;
      var e := RawEntry(RawKey(key, sequence, kind), value);
      ghost var keys := list.Keys();
      NewToList(e);
      var listKey := ListKey(e);
      ghost var k := list.Insert(listKey, height);
      InsertedHolds(keys, entries, k, e, list.Keys());
      OneMoreEntry(entries, k, e);
      entries := entries[..k] + [e] + entries[k..];
      list.KeysIncrease();
      HeldInOrder(list.Keys(), entries);
    }

    lemma {:induction false} NewToList(e: RawEntry)
      requires Ok() && FitsEntry(e) && forall d :: d in entries ==> d.key != e.key
      ensures forall n :: n in list.chains[0] ==> n < |list.arena| && list.arena[n].key.rank != RankOf(e.key)
    {
      hide RawLess, RankOf, EntryBytes, RawSorted, Valid;
      list.InBounds();
      forall n | n in list.chains[0] ensures n < |list.arena| && list.arena[n].key.rank != RankOf(e.key) {
        var j :| 0 <= j < |list.chains[0]| && list.chains[0][j] == n;
        assert list.Keys()[j] == ListKey(entries[j]) && entries[j] in entries;
        RankIsOrder(entries[j].key, e.key);
      }
    }

    method Get(user: Bytes, snapshot: nat) returns (r: Option<Read>)
      requires Ok() && snapshot <= MAX_SEQUENCE
      ensures Reports(entries, user, snapshot, r)
    {
      hide RawLess, ReadString, ParseKey, EntryBytes, LengthPrefixed, KeyBytes, RawSorted, Valid, Holds, KeysOf;
      var node, i := Seek(RawSeekKey(user, snapshot));
      FirstAfterSeek(entries, i, user, snapshot);
      if node.Some? {
        NodeHolds(i);
        var (keyBytes, rest) := ReadString(list.arena[node.value].key.buffer).value;
        var key := ParseKey(keyBytes);
        if key.user == user {
          if key.kind == Live {
            return Some(Found(ReadString(rest).value.0));
          }
          return Some(NotFound);
        }
      }
      return None;
    }
  }

  /** Get is the view of the entries added, as the engine modules see them. */
  lemma {:induction false} ReportsIsView(entries: seq<RawEntry>, user: Bytes, snapshot: nat, r: Option<Read>)
    requires Reports(entries, user, snapshot, r)
    requires UniquelyKeyed(set e | e in entries :: Entry(Lift(e.key), e.value))
    ensures var E := set e | e in entries :: Entry(Lift(e.key), e.value);
            View(E, Embed(user), snapshot) == if r.Some? then r.value else NotFound
  {
    var E := set e | e in entries :: Entry(Lift(e.key), e.value);
    if r == None {
      AnswersAreLookups(entries, user, snapshot, None);
    } else {
      var e :| NewestIn(entries, user, snapshot, e) && r.value == ReadOfRaw(e);
      AnswersAreLookups(entries, user, snapshot, Some(e));
    }
  }

  // ---------------------------------------------------------------------------------------------
  // Applying a batch
  // ---------------------------------------------------------------------------------------------

  /** The entry that an operation becomes under a sequence number. */
  function EntryOf(sequence: nat, op: Operation): RawEntry {
    match op
    case Put(key, value) => RawEntry(RawKey(key, sequence, Live), value)
    case Delete(key) => RawEntry(RawKey(key, sequence, Deletion), [])
  }

  function EntriesOf(added: seq<(nat, Operation)>): multiset<RawEntry> {
    if added == [] then multiset{}
    else
      var last := added[|added| - 1];
      EntriesOf(added[..|added| - 1]) + multiset{EntryOf(last.0, last.1)}
  }

  method AddOperation(mem: MemTable, sequence: nat, op: Operation, height: nat)
    requires mem.Ok() && Fits(op) && |op.key| + 8 < WriteBatches.LIMIT && sequence <= MAX_SEQUENCE && 1 <= height <= MAX_HEIGHT
    requires forall e :: e in mem.entries ==> e.key.sequence < sequence
    modifies mem, mem.list
    ensures mem.Ok() && multiset(mem.entries) == multiset(old(mem.entries)) + multiset{EntryOf(sequence, op)}
    ensures forall e :: e in mem.entries ==> e.key.sequence < sequence + 1
  {
    hide RawSorted, Holds;
    match op {
      case Put(key, value) => mem.Add(sequence, Live, key, value, height);
      case Delete(key) => mem.Add(sequence, Deletion, key, [], height);
    }
    forall e | e in mem.entries ensures e.key.sequence < sequence + 1 {
      assert e in multiset(mem.entries);
      assert e != EntryOf(sequence, op) ==> e in multiset(old(mem.entries));
    }
  }

  /** What RandomHeight gives for one node after another. */
  ghost predicate Heights(heights: nat -> nat) {
    forall i :: 1 <= heights(i) <= MAX_HEIGHT
  }

  /** MemTableInserter: a decoded batch, operation by operation, under consecutive sequence numbers. */
  method InsertBatch(b: WriteBatch, mem: MemTable, heights: nat -> nat)
    requires b.Ok() && mem.Ok() && b.sequence + |b.ops| <= MAX_SEQUENCE + 1 && Heights(heights)
    requires forall op :: op in b.ops ==> |op.key| + 8 < WriteBatches.LIMIT
    requires forall e :: e in mem.entries ==> e.key.sequence < b.sequence
    modifies mem, mem.list
    ensures mem.Ok()
    ensures multiset(mem.entries) == multiset(old(mem.entries)) + EntriesOf(Inserted(b.sequence, b.ops))
  {
    hide RawSorted, Holds, Inserted;
    var added := WriteBatches.InsertInto(b);
    ghost var first, ops := b.sequence, b.ops;
    assert forall op :: op in ops ==> Fits(op) && |op.key| + 8 < WriteBatches.LIMIT;
    InsertAll(added, first, ops, mem, heights);
  }

  method InsertAll(added: seq<(nat, Operation)>, ghost first: nat, ghost ops: seq<Operation>, mem: MemTable, heights: nat -> nat)
    requires mem.Ok() && added == Inserted(first, ops) && first + |ops| <= MAX_SEQUENCE + 1 && Heights(heights)
    requires forall op :: op in ops ==> Fits(op) && |op.key| + 8 < WriteBatches.LIMIT
    requires forall e :: e in mem.entries ==> e.key.sequence < first
    modifies mem, mem.list
    ensures mem.Ok() && multiset(mem.entries) == multiset(old(mem.entries)) + EntriesOf(added)
  {
    hide RawSorted, Holds, Fits, EntryOf, Inserted, Valid;
    for i := 0 to |added|
      invariant mem.Ok()
      invariant multiset(mem.entries) == multiset(old(mem.entries)) + EntriesOf(added[..i])
      invariant forall e :: e in mem.entries ==> e.key.sequence < first + i
    {
      assert added[i] == (first + i, ops[i]) && ops[i] in ops;
      AddOperation(mem, added[i].0, added[i].1, heights(i));
      assert added[..i + 1][..i] == added[..i];
    }
    assert added[..|added|] == added;
  }
}
