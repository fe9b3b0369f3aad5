/**
 Layered point lookup refines the flat view (DBImpl::Get, Version::Get, FindFile).
 */
module Lookup {
  import opened Keys
  import opened Version

  /** The binary search of FindFile between left and right, on any list. */
  function Bisect(files: seq<File>, key: InternalKey, left: nat, right: nat): (r: nat)
    requires left <= right <= |files|
    ensures left <= r <= right
    decreases right - left
  {
    if left == right then right
    else
      var mid := (left + right) / 2;
      if Less(files[mid].largest, key) then Bisect(files, key, mid + 1, right) else Bisect(files, key, left, mid)
  }

  /** On a sorted level it ends at the first file whose largest key is at or after key. */
  lemma {:induction false} BisectFinds(files: seq<File>, key: InternalKey, left: nat, right: nat)
    requires DisjointLevel(files) && (forall f :: f in files ==> ValidFile(f)) && left <= right <= |files|
    requires forall i :: 0 <= i < left ==> Less(files[i].largest, key)
    requires forall i :: right <= i < |files| ==> !Less(files[i].largest, key)
    ensures var r := Bisect(files, key, left, right);
            && (forall i :: 0 <= i < r ==> Less(files[i].largest, key))
            && (forall i :: r <= i < |files| ==> !Less(files[i].largest, key))
    decreases right - left
  {
    if left < right {
      var mid := (left + right) / 2;
      LargestIncreasing(files, mid);
      if Less(files[mid].largest, key) {
        BisectFinds(files, key, mid + 1, right);
      } else {
        BisectFinds(files, key, left, mid);
      }
    }
  }

  method FindFile(files: seq<File>, key: InternalKey) returns (right: nat)
    ensures right == Bisect(files, key, 0, |files|)
  {
    var left := 0;
    right := |files|;
    while left < right
      invariant 0 <= left <= right <= |files|
      invariant Bisect(files, key, left, right) == Bisect(files, key, 0, |files|)
    {
      var mid := (left + right) / 2;
      if Less(files[mid].largest, key) {
        left := mid + 1;
      } else {
        right := mid;
      }
    }
  }

  lemma {:induction false} LargestIncreasing(files: seq<File>, m: nat)
    requires DisjointLevel(files) && forall f :: f in files ==> ValidFile(f)
    requires m < |files|
    ensures forall i :: 0 <= i < m ==> Less(files[i].largest, files[m].largest)
    ensures forall i :: m < i < |files| ==> Less(files[m].largest, files[i].largest)
  {
    forall i | 0 <= i < |files|
      ensures AtMost(files[i].smallest, files[i].largest)
    {
      assert ValidFile(files[i]);
      FileBounds(files[i], files[i].entries[0]);
    }
  }

  // ---------------------------------------------------------------------------------------------
  // Level 0: overlapping files, newest first
  // ---------------------------------------------------------------------------------------------

  predicate Covers(f: File, user: UserKey) {
    f.smallest.user <= user <= f.largest.user
  }

  predicate NewestFirst(s: seq<File>) {
    forall i, j :: 0 <= i < j < |s| ==> s[i].number >= s[j].number
  }

  function InsertByNumber(f: File, s: seq<File>): (r: seq<File>)
    requires NewestFirst(s)
    ensures NewestFirst(r) && forall g :: g in r <==> g == f || g in s
  {
    if s == [] || f.number >= s[0].number then [f] + s
    else
      var t := InsertByNumber(f, s[1..]);
      assert forall k :: 0 <= k < |t| ==> t[k] in t;
      assert forall g :: g in t ==> g.number <= s[0].number;
      [s[0]] + t
  }

  /** std::sort with NewestFirst. */
  function SortNewestFirst(s: seq<File>): (r: seq<File>)
    ensures NewestFirst(r) && forall g :: g in r <==> g in s
  {
    if s == [] then [] else InsertByNumber(s[0], SortNewestFirst(s[1..]))
  }

  // ---------------------------------------------------------------------------------------------
  // One level
  // ---------------------------------------------------------------------------------------------

  /** r is what the files of one level know about the newest visible entry of user. */
  ghost predicate LevelAnswer(files: seq<File>, user: UserKey, snapshot: nat, r: Option<Entry>) {
    match r
    case None => forall f :: f in files ==> Silent(f.entries, user, snapshot)
    case Some(e) =>
      && (exists f :: f in files && e in f.entries)
      && e.key.user == user && e.key.sequence <= snapshot
      && forall f, d :: f in files && d in f.entries && d.key.user == user && d.key.sequence <= snapshot
           ==> d.key.sequence <= e.key.sequence
  }

  method CoveringFiles(files: seq<File>, user: UserKey) returns (tmp: seq<File>)
    ensures forall f :: f in tmp <==> f in files && Covers(f, user)
  {
    tmp := [];
    for i := 0 to |files|
      invariant forall f :: f in tmp <==> f in files[..i] && Covers(f, user)
    {
      assert files[..i + 1] == files[..i] + [files[i]];
      if files[i].smallest.user <= user && user <= files[i].largest.user {
        tmp := tmp + [files[i]];
      }
    }
    assert files[..|files|] == files;
  }

  method SearchLevelZero(files: seq<File>, user: UserKey, snapshot: nat) returns (r: Option<Entry>)
    requires NewerNumbers(files) && forall f :: f in files ==> ValidFile(f)
    ensures LevelAnswer(files, user, snapshot, r)
  {
    hide LevelAnswer, Silent, NewerNumbers, Newest, Covers, TableGet, Less;
    var tmp := CoveringFiles(files, user);
    OthersAreSilent(files, user, snapshot);
    tmp := SortNewestFirst(tmp);
    for i := 0 to |tmp|
      invariant forall k :: 0 <= k < i ==> Silent(tmp[k].entries, user, snapshot)
    {
      assert ValidFile(tmp[i]);
      r := TableGet(tmp[i].entries, user, snapshot);
      TableGetIsNewest(tmp[i].entries, user, snapshot);
      if r.Some? {
        FirstHitIsNewest(files, tmp, i, user, snapshot, r.value);
        return;
      }
    }
    r := None;
    AllAreSilent(files, tmp, user, snapshot);
  }

  lemma {:induction false} AllAreSilent(files: seq<File>, sorted: seq<File>, user: UserKey, snapshot: nat)
    requires forall f :: f in files && f !in sorted ==> Silent(f.entries, user, snapshot)
    requires forall k :: 0 <= k < |sorted| ==> Silent(sorted[k].entries, user, snapshot)
    ensures LevelAnswer(files, user, snapshot, None)
  {
    hide Silent;
    forall f | f in files ensures Silent(f.entries, user, snapshot) {
      if f in sorted {
        var k :| 0 <= k < |sorted| && sorted[k] == f;
      }
    }
  }

  lemma {:induction false} OthersAreSilent(files: seq<File>, user: UserKey, snapshot: nat)
    requires forall f :: f in files ==> ValidFile(f)
    ensures forall f :: f in files && !Covers(f, user) ==> Silent(f.entries, user, snapshot)
  {
    forall f, e | f in files && e in f.entries && e.key.user == user
      ensures Covers(f, user)
    {
      FileBounds(f, e);
    }
  }

  lemma {:induction false} FirstHitIsNewest(files: seq<File>, sorted: seq<File>, i: nat, user: UserKey, snapshot: nat, e: Entry)
    requires NewerNumbers(files) && forall f :: f in sorted ==> f in files
    requires forall f :: f in files && f !in sorted ==> Silent(f.entries, user, snapshot)
    requires NewestFirst(sorted) && i < |sorted|
    requires forall k :: 0 <= k < i ==> Silent(sorted[k].entries, user, snapshot)
    requires Newest(ToSet(sorted[i].entries), user, snapshot, e)
    ensures LevelAnswer(files, user, snapshot, Some(e))
  {
    assert Visible(ToSet(sorted[i].entries), user, snapshot, e);
    forall f, d | f in files && d in f.entries && d.key.user == user && d.key.sequence <= snapshot
      ensures d.key.sequence <= e.key.sequence
    {
      var k :| 0 <= k < |sorted| && sorted[k] == f;
      if f == sorted[i] {
        assert Visible(ToSet(f.entries), user, snapshot, d);
      } else {
        assert NewerEntries(sorted[i].entries, f.entries);
      }
    }
  }

  /** Levels >= 1: binary search leaves at most one file to read. */
  method SearchLevel(files: seq<File>, user: UserKey, snapshot: nat) returns (r: Option<Entry>)
    ensures r == LevelGet(files, user, snapshot)
  {
    var index := FindFile(files, SeekKey(user, snapshot));
    if index >= |files| || user < files[index].smallest.user {
      r := None;
    } else {
      r := TableGet(files[index].entries, user, snapshot);
    }
  }

  /** A search of a level >= 1, on any list: one file is searched. */
  function LevelGet(files: seq<File>, user: UserKey, snapshot: nat): Option<Entry> {
    var index := Bisect(files, SeekKey(user, snapshot), 0, |files|);
    if index >= |files| || user < files[index].smallest.user then None else TableGet(files[index].entries, user, snapshot)
  }

  /** On a sorted level that one file is enough. */
  lemma {:induction false} LevelGetAnswers(files: seq<File>, user: UserKey, snapshot: nat)
    requires DisjointLevel(files) && forall f :: f in files ==> ValidFile(f)
    ensures LevelAnswer(files, user, snapshot, LevelGet(files, user, snapshot))
  {
    hide DisjointLevel, ValidFile, Less, TableGet, LevelAnswer;
    var index := Bisect(files, SeekKey(user, snapshot), 0, |files|);
    BisectFinds(files, SeekKey(user, snapshot), 0, |files|);
    OneFileSuffices(files, user, snapshot, index);
  }

  /** What a search of one table finds, when there is something to find. */
  lemma {:induction false} TableAnswers(entries: seq<Entry>, user: UserKey, snapshot: nat)
    requires Sorted(entries)
    ensures var r := TableGet(entries, user, snapshot);
            && (r.Some? ==> r.value in entries && r.value.key.user == user && r.value.key.sequence <= snapshot)
            && forall e :: Newest(ToSet(entries), user, snapshot, e) ==> r.Some? && r.value.key.sequence == e.key.sequence
  {
    hide TableGet, Sorted;
    TableGetIsNewest(entries, user, snapshot);
  }

  /** A file reaching the seek key before a file with the user key ends with that user key. */
  lemma {:induction false} HoldsLast(g: File, f: File, user: UserKey, snapshot: nat, d: Entry)
    requires ValidFile(g) && ValidFile(f) && Less(g.largest, f.smallest) && !Less(g.largest, SeekKey(user, snapshot))
    requires d in f.entries && d.key.user == user
    ensures g.smallest.user <= user
    ensures exists e :: Newest(ToSet(g.entries), user, snapshot, e) && d.key.sequence <= e.key.sequence
  {
    hide Sorted;
    var last := g.entries[|g.entries| - 1];
    assert last in ToSet(g.entries);
    FileBounds(f, d);
    FileBounds(g, g.entries[0]);
    PackedOrder(last.key, SeekKey(user, snapshot));
    PackedOrder(last.key, d.key);
    assert Visible(ToSet(g.entries), user, snapshot, last);
    NewestExists(ToSet(g.entries), user, snapshot, last);
  }

  /** A visible entry of the level is in the file searched, or that file ends with a newer one. */
  lemma {:induction false} FileHolds(files: seq<File>, user: UserKey, snapshot: nat, index: nat, f: File, d: Entry)
    requires DisjointLevel(files) && forall f :: f in files ==> ValidFile(f)
    requires index <= |files|
    requires forall i :: 0 <= i < index ==> Less(files[i].largest, SeekKey(user, snapshot))
    requires forall i :: index <= i < |files| ==> !Less(files[i].largest, SeekKey(user, snapshot))
    requires f in files && d in f.entries && d.key.user == user && d.key.sequence <= snapshot
    ensures index < |files| && files[index].smallest.user <= user
    ensures var r := TableGet(files[index].entries, user, snapshot); r.Some? && d.key.sequence <= r.value.key.sequence
  {
    hide Sorted, TableGet;
    var seek := SeekKey(user, snapshot);
    var j :| 0 <= j < |files| && files[j] == f;
    FileBounds(f, d);
    PackedOrder(d.key, seek);
    PackedOrder(f.largest, seek);
    var g := files[index];
    assert ValidFile(g) && ValidFile(f);
    if j == index {
      assert Visible(ToSet(g.entries), user, snapshot, d);
      NewestExists(ToSet(g.entries), user, snapshot, d);
    } else {
      HoldsLast(g, f, user, snapshot, d);
    }
    TableAnswers(g.entries, user, snapshot);
  }

  /**
   A user key may be spread over neighbouring files of a level. Its newest visible entry is then in
   the first file whose largest key reaches the seek key.
   */
  lemma {:induction false} OneFileSuffices(files: seq<File>, user: UserKey, snapshot: nat, index: nat)
    requires DisjointLevel(files) && forall f :: f in files ==> ValidFile(f)
    requires index <= |files|
    requires forall i :: 0 <= i < index ==> Less(files[i].largest, SeekKey(user, snapshot))
    requires forall i :: index <= i < |files| ==> !Less(files[i].largest, SeekKey(user, snapshot))
    ensures index == |files| ==> LevelAnswer(files, user, snapshot, None)
    ensures index < |files| && user < files[index].smallest.user ==> LevelAnswer(files, user, snapshot, None)
    ensures index < |files| && files[index].smallest.user <= user ==>
              LevelAnswer(files, user, snapshot, TableGet(files[index].entries, user, snapshot))
  {
    hide TableGet, Less, Sorted, DisjointLevel;
    forall f, d | f in files && d in f.entries && d.key.user == user && d.key.sequence <= snapshot
      ensures index < |files| && files[index].smallest.user <= user
      ensures var r := TableGet(files[index].entries, user, snapshot); r.Some? && d.key.sequence <= r.value.key.sequence
    {
      FileHolds(files, user, snapshot, index, f, d);
    }
    if index < |files| {
      assert files[index] in files && ValidFile(files[index]);
      TableAnswers(files[index].entries, user, snapshot);
    }
  }

  // ---------------------------------------------------------------------------------------------
  // All levels, and the memtables above them
  // ---------------------------------------------------------------------------------------------

  /** Version::Get: level by level, stopping at the first hit. */
  method GetFromVersion(v: Levels, user: UserKey, snapshot: nat) returns (r: Option<Entry>)
    requires LevelInvariant(v)
    ensures r == None ==> forall e :: !Visible(Contents(v), user, snapshot, e)
    ensures r.Some? ==> Newest(Contents(v), user, snapshot, r.value)
  {
    for level := 0 to NUM_LEVELS
      invariant forall l, f :: 0 <= l < level && f in v[l] ==> Silent(f.entries, user, snapshot)
    {
      if level == 0 {
        r := SearchLevelZero(v[0], user, snapshot);
      } else {
        r := SearchLevel(v[level], user, snapshot);
        LevelGetAnswers(v[level], user, snapshot);
      }
      if r.Some? {
        FirstLevelIsNewest(v, level, user, snapshot, r.value);
        return;
      }
    }
    r := None;
  }

  /** Entries never hop across levels: the first level with a visible entry has the newest one. */
  lemma {:induction false} FirstLevelIsNewest(v: Levels, level: nat, user: UserKey, snapshot: nat, e: Entry)
    requires LevelInvariant(v) && level < NUM_LEVELS
    requires forall l, f :: 0 <= l < level && f in v[l] ==> Silent(f.entries, user, snapshot)
    requires LevelAnswer(v[level], user, snapshot, Some(e))
    ensures Newest(Contents(v), user, snapshot, e)
  {
    var g :| g in v[level] && e in g.entries;
    forall d | Visible(Contents(v), user, snapshot, d)
      ensures d.key.sequence <= e.key.sequence
    {
      var l, f :| 0 <= l < |v| && f in v[l] && d in f.entries;
      if l > level {
        assert NewerPair(v, level, l, g, f);
      }
    }
  }

  ghost predicate NewerThanVersion(mem: seq<Entry>, v: Levels) {
    forall l, f :: 0 <= l < |v| && f in v[l] ==> NewerEntries(mem, f.entries)
  }

  /** The write buffer being filled, the one being flushed if any, and the installed version. */
  datatype Database = Database(mem: seq<Entry>, imm: Option<seq<Entry>>, current: Levels) {
    ghost function ImmEntries(): seq<Entry> {
      if imm.Some? then imm.value else []
    }

    ghost predicate Valid() {
      && Sorted(mem) && Sorted(ImmEntries()) && LevelInvariant(current)
      && NewerEntries(mem, ImmEntries())
      && NewerThanVersion(mem, current) && NewerThanVersion(ImmEntries(), current)
      && UniquelyKeyed(All())
    }

    /** Every entry of the database, as one flat set. */
    ghost function All(): set<Entry> {
      ToSet(mem) + ToSet(ImmEntries()) + Contents(current)
    }
  }

  /** DBImpl::Get: memtable, immutable memtable, then the version; the flat view is what it answers. */
  method Get(db: Database, user: UserKey, snapshot: nat) returns (r: Read)
    requires db.Valid()
    ensures r == View(db.All(), user, snapshot)
  {
    var hit := TableGet(db.mem, user, snapshot);
    TableGetIsNewest(db.mem, user, snapshot);
    if hit == None && db.imm.Some? {
      hit := TableGet(db.imm.value, user, snapshot);
      TableGetIsNewest(db.imm.value, user, snapshot);
    }
    if hit == None {
      hit := GetFromVersion(db.current, user, snapshot);
    }
    if hit.Some? {
      assert Newest(db.All(), user, snapshot, hit.value) by { UpperHitIsNewest(db, user, snapshot, hit.value); }
      ViewIs(db.All(), user, snapshot, hit.value);
      r := ReadOf(hit.value);
    } else {
      assert forall d :: Visible(db.All(), user, snapshot, d) ==> Visible(Contents(db.current), user, snapshot, d);
      ViewIsNothing(db.All(), user, snapshot);
      r := NotFound;
    }
  }

  /** A hit in one layer beats everything in the layers below it. */
  lemma {:induction false} UpperHitIsNewest(db: Database, user: UserKey, snapshot: nat, e: Entry)
    requires db.Valid()
    requires || Newest(ToSet(db.mem), user, snapshot, e)
             || (Silent(db.mem, user, snapshot) && Newest(ToSet(db.ImmEntries()), user, snapshot, e))
             || (Silent(db.mem, user, snapshot) && Silent(db.ImmEntries(), user, snapshot)
                 && Newest(Contents(db.current), user, snapshot, e))
    ensures Newest(db.All(), user, snapshot, e)
  {
    forall d | Visible(db.All(), user, snapshot, d)
      ensures d.key.sequence <= e.key.sequence
    {
      if d in db.mem {
        assert Visible(ToSet(db.mem), user, snapshot, d);
      } else if d in db.ImmEntries() {
        assert Visible(ToSet(db.ImmEntries()), user, snapshot, d);
      } else {
        assert Visible(Contents(db.current), user, snapshot, d);
        var l, f :| 0 <= l < |db.current| && f in db.current[l] && d in f.entries;
        assert NewerEntries(db.mem, f.entries) && NewerEntries(db.ImmEntries(), f.entries);
      }
    }
  }
}
