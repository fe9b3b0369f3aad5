/**
 A version: the table files of every level, their invariant, and point lookup
 (db/version_set.cc, db/db_impl.cc, db/memtable.cc).
 */
module Version {
  import opened Keys

  const NUM_LEVELS: nat := 7

  datatype Option<+T> = None | Some(value: T)

  /** FileMetaData together with the entries of the table it names. */
  datatype File = File(number: nat, size: nat, smallest: InternalKey, largest: InternalKey, entries: seq<Entry>)

  /** files_: one list of files per level. */
  type Levels = seq<seq<File>>

  // ---------------------------------------------------------------------------------------------
  // Invariants
  // ---------------------------------------------------------------------------------------------

  ghost predicate ValidFile(f: File) {
    && f.entries != []
    && Sorted(f.entries)
    && f.smallest == f.entries[0].key
    && f.largest == f.entries[|f.entries| - 1].key
    && forall e :: e in f.entries ==> e.key.sequence <= MAX_SEQUENCE
  }

  /** Files of one level >= 1: sorted, with disjoint ranges of internal keys. */
  ghost predicate DisjointLevel(files: seq<File>) {
    forall i, j :: 0 <= i < j < |files| ==> Less(files[i].largest, files[j].smallest)
  }

  /** Every entry of newer beats every entry of older on their common user keys. */
  ghost predicate NewerEntries(newer: seq<Entry>, older: seq<Entry>) {
    forall d, e :: d in newer && e in older && d.key.user == e.key.user ==> d.key.sequence > e.key.sequence
  }

  ghost predicate NewerPair(v: Levels, l: nat, m: nat, f: File, g: File) {
    l < m < |v| && f in v[l] && g in v[m] ==> NewerEntries(f.entries, g.entries)
  }

  /** Entries only ever move down: a file at a shallower level is newer. */
  ghost predicate NewerLevels(v: Levels) {
    forall l, m, f, g :: NewerPair(v, l, m, f, g)
  }

  /** Level-0 files may overlap; the higher file number holds the newer entries. */
  ghost predicate NewerNumbers(files: seq<File>) {
    && (forall f, g :: f in files && g in files && f.number == g.number ==> f == g)
    && (forall f, g :: f in files && g in files && f.number > g.number ==> NewerEntries(f.entries, g.entries))
  }

  ghost predicate LevelInvariant(v: Levels) {
    && |v| == NUM_LEVELS
    && (forall l, f :: 0 <= l < |v| && f in v[l] ==> ValidFile(f))
    && (forall l :: 1 <= l < |v| ==> DisjointLevel(v[l]))
    && NewerNumbers(v[0])
    && NewerLevels(v)
    && UniquelyKeyed(Contents(v))
  }

  ghost function Contents(v: Levels): set<Entry> {
    set l, f, e | 0 <= l < |v| && f in v[l] && e in f.entries :: e
  }

  lemma {:induction false} FileBounds(f: File, e: Entry)
    requires ValidFile(f) && e in f.entries
    ensures AtMost(f.smallest, e.key) && AtMost(e.key, f.largest)
    ensures f.smallest.user <= e.key.user <= f.largest.user
  {
    var i :| 0 <= i < |f.entries| && f.entries[i] == e;
  }

  // ---------------------------------------------------------------------------------------------
  // Lookup in one sorted table
  // ---------------------------------------------------------------------------------------------

  /** Iterator::Seek: index of the first entry at or after target, |entries| if there is none. */
  function SeekIndex(entries: seq<Entry>, target: InternalKey): (i: nat)
    ensures i <= |entries|
    ensures forall k :: 0 <= k < i ==> Less(entries[k].key, target)
    ensures i < |entries| ==> !Less(entries[i].key, target)
  {
    if entries == [] || !Less(entries[0].key, target) then 0 else 1 + SeekIndex(entries[1..], target)
  }

  /** Seek, then accept the entry only if it carries the wanted user key (SaveValue, MemTable::Get). */
  function TableGet(entries: seq<Entry>, user: UserKey, snapshot: nat): Option<Entry> {
    var i := SeekIndex(entries, SeekKey(user, snapshot));
    if i < |entries| && entries[i].key.user == user then Some(entries[i]) else None
  }

  ghost predicate Silent(entries: seq<Entry>, user: UserKey, snapshot: nat) {
    forall e :: e in entries ==> !(e.key.user == user && e.key.sequence <= snapshot)
  }

  /** The first entry at or after the seek key is the newest visible one, if any is visible. */
  lemma {:induction false} TableGetIsNewest(entries: seq<Entry>, user: UserKey, snapshot: nat)
    requires Sorted(entries)
    ensures TableGet(entries, user, snapshot) == None ==> Silent(entries, user, snapshot)
    ensures TableGet(entries, user, snapshot).Some? ==>
              Newest(ToSet(entries), user, snapshot, TableGet(entries, user, snapshot).value)
  {
    var i := SeekIndex(entries, SeekKey(user, snapshot));
    forall e | e in entries && e.key.user == user && e.key.sequence <= snapshot
      ensures i < |entries| && entries[i].key.user == user && e.key.sequence <= entries[i].key.sequence <= snapshot
    {
      var k :| 0 <= k < |entries| && entries[k] == e;
      PackedOrder(e.key, SeekKey(user, snapshot));
      assert k >= i;
      PackedOrder(entries[i].key, SeekKey(user, snapshot));
      PackedOrder(entries[i].key, e.key);
    }
  }
}
