/**
 Every installed step keeps the level invariant: placing a flushed memtable
 (Version::PickLevelForMemTableOutput), a compaction, and a trivial move.
 */
module Install {
  import opened Keys
  import opened Version
  import opened Lookup
  import opened Selection
  import opened DropRule
  import opened CompactionLoop
  import opened CompactionSafety
  import opened VersionBuilder

  /** What holds of every current version: the level invariant, listed levels, file numbers used once. */
  ghost predicate ValidVersion(v: Levels) {
    && LevelInvariant(v)
    && (forall l :: 0 <= l < |v| ==> Listed(v[l]))
    && (forall l, m, f, g :: 0 <= l < |v| && 0 <= m < |v| && f in v[l] && g in v[m] && f.number == g.number ==> l == m && f == g)
  }

  /** The members of a level after an edit. */
  lemma {:induction false} AppliedMembers(files: seq<File>, e: Edit, level: nat)
    requires Listed(files) && DistinctAt(level, e.added) && Numbers(files) !! NumbersAt(level, e.added)
    ensures Listed(AppliedLevel(files, e, level))
    ensures forall f :: f in AppliedLevel(files, e, level) <==>
                        (f in files && f.number !in DeletedAt(level, e.deleted)) || (level, f) in e.added
  {
    var now := AddedAfter([], level, e.added);
    var gone := DeletedAt(level, e.deleted) - NumbersAt(level, e.added);
    AddedAfterMembers([], level, e.added);
    MergeListed(files, now);
    MergeMembers(files, now);
    KeepListed(Merge(files, now), gone);
    KeepMembers(Merge(files, now), gone);
    forall f ensures f in AppliedLevel(files, e, level) <==>
                     (f in files && f.number !in DeletedAt(level, e.deleted)) || (level, f) in e.added
    {
      assert f in now <==> (level, f) in e.added;
      assert f in files ==> f.number in Numbers(files);
      assert (level, f) in e.added ==> f.number in NumbersAt(level, e.added);
    }
  }

  lemma {:induction false} PairwiseIsDisjoint(files: seq<File>)
    requires Listed(files) && forall f :: f in files ==> ValidFile(f)
    requires forall f, g :: f in files && g in files && f != g ==> Less(f.largest, g.smallest) || Less(g.largest, f.smallest)
    ensures DisjointLevel(files)
  {
    forall i, j | 0 <= i < j < |files|
      ensures Less(files[i].largest, files[j].smallest)
    {
      assert BySmallest(files[i], files[j]);
      FileOrdered(files, i);
      FileOrdered(files, j);
    }
  }

  // ---------------------------------------------------------------------------------------------
  // Where a flushed memtable goes
  // ---------------------------------------------------------------------------------------------

  /** SomeFileOverlapsRange: every file of level 0, by binary search elsewhere. */
  method SomeFileOverlapsRange(disjoint: bool, files: seq<File>, r: Range) returns (overlap: bool)
    requires forall f :: f in files ==> ValidFile(f)
    requires disjoint ==> DisjointLevel(files)
    ensures overlap <==> exists f :: f in files && Overlaps(f, r)
  {
    if !disjoint {
      for i := 0 to |files|
        invariant forall k :: 0 <= k < i ==> !Overlaps(files[k], r)
      {
        if (r.begin.Some? && r.begin.value > files[i].largest.user) || (r.end.Some? && r.end.value < files[i].smallest.user) {
        } else {
          assert files[i] in files && Overlaps(files[i], r);
          return true;
        }
      }
      return false;
    }
    var index := 0;
    if r.begin.Some? {
      index := FindFile(files, InternalKey(r.begin.value, MAX_SEQUENCE, Live));
      BisectFinds(files, InternalKey(r.begin.value, MAX_SEQUENCE, Live), 0, |files|);
    }
    EarlierFilesMiss(files, r, index);
    if index >= |files| {
      return false;
    }
    overlap := !(r.end.Some? && r.end.value < files[index].smallest.user);
    if overlap {
      assert files[index] in files && Overlaps(files[index], r);
    }
  }

  /** Files before the binary search result end before the range; if that file misses, so do all later ones. */
  lemma {:induction false} EarlierFilesMiss(files: seq<File>, r: Range, index: nat)
    requires DisjointLevel(files) && forall f :: f in files ==> ValidFile(f)
    requires index <= |files|
    requires r.begin == None ==> index == 0
    requires r.begin.Some? ==>
               && (forall i :: 0 <= i < index ==> Less(files[i].largest, InternalKey(r.begin.value, MAX_SEQUENCE, Live)))
               && (forall i :: index <= i < |files| ==> !Less(files[i].largest, InternalKey(r.begin.value, MAX_SEQUENCE, Live)))
    ensures forall i :: 0 <= i < index ==> !Overlaps(files[i], r)
    ensures index < |files| && r.end.Some? && r.end.value < files[index].smallest.user ==>
              forall i :: index <= i < |files| ==> !Overlaps(files[i], r)
    ensures index < |files| && r.begin.Some? ==> r.begin.value <= files[index].largest.user
  {
    forall i | 0 <= i < |files|
      ensures files[i].largest.sequence <= MAX_SEQUENCE
    {
      assert ValidFile(files[i]);
      assert files[i].entries[|files[i].entries| - 1] in files[i].entries;
    }
    forall i | index < i < |files|
      ensures files[index].smallest.user <= files[i].smallest.user
    {
      UserRangesIncrease(files, index, i);
    }
  }

  const MAX_MEM_COMPACT_LEVEL: nat := 2

  ghost predicate NoOverlapDownTo(v: Levels, level: nat, r: Range) {
    forall l, f :: 0 <= l <= level && l < |v| && f in v[l] ==> !Overlaps(f, r)
  }

  predicate SomeMeets(files: seq<File>, r: Range) {
    exists f :: f in files && Overlaps(f, r)
  }

  /** The bytes of the level's files that meet the range. */
  function BytesMeeting(files: seq<File>, r: Range): nat {
    TotalFileSize(Select(files, r))
  }

  predicate FewBytesMeet(v: Levels, m: nat, r: Range, max: nat) {
    m < |v| ==> BytesMeeting(v[m], r) <= max
  }

  /** Pushes a new table below level 0 while nothing it could hide, or be hidden by, is in the way. */
  method PickLevelForMemTableOutput(v: Levels, smallest: UserKey, largest: UserKey, maxGrandparentOverlap: nat)
      returns (level: nat)
    requires LevelInvariant(v)
    ensures level <= MAX_MEM_COMPACT_LEVEL
    ensures level > 0 ==> NoOverlapDownTo(v, level, Range(Some(smallest), Some(largest)))
    ensures forall m: nat :: 2 <= m < level + 2 ==> FewBytesMeet(v, m, Range(Some(smallest), Some(largest)), maxGrandparentOverlap)
    // It stops for a reason.
    ensures var r := Range(Some(smallest), Some(largest));
            level < MAX_MEM_COMPACT_LEVEL ==>
              || (level == 0 && SomeMeets(v[0], r)) || SomeMeets(v[level + 1], r)
              || BytesMeeting(v[level + 2], r) > maxGrandparentOverlap
  {
    hide Less, ValidFile, DisjointLevel, NewerLevels, NewerNumbers, Contents, UniquelyKeyed, Overlaps, Select, TotalFileSize;
    level := 0;
    var r := Range(Some(smallest), Some(largest));
    var overlap := SomeFileOverlapsRange(false, v[0], r);
    if !overlap {
      while level < MAX_MEM_COMPACT_LEVEL
        invariant level <= MAX_MEM_COMPACT_LEVEL
        invariant NoOverlapDownTo(v, level, r)
        invariant forall m: nat :: 2 <= m < level + 2 ==> FewBytesMeet(v, m, r, maxGrandparentOverlap)
      {
        overlap := SomeFileOverlapsRange(true, v[level + 1], r);
        if overlap {
          break;
        }
        if level + 2 < NUM_LEVELS {
          ghost var reach;
          var overlaps;
          overlaps, reach := GetOverlappingInputs(level + 2, v[level + 2], r);
          if TotalFileSize(overlaps) > maxGrandparentOverlap {
            break;
          }
        }
        level := level + 1;
      }
    }
  }

  /** What a freshly written level-0 table is to the current version. */
  ghost predicate FreshTable(v: Levels, f: File) {
    && ValidFile(f)
    && (forall l, g :: 0 <= l < |v| && g in v[l] ==> NewerEntries(f.entries, g.entries) && g.number < f.number)
    && UniquelyKeyed(Contents(v) + ToSet(f.entries))
  }

  ghost function AddEdit(level: nat, f: File): Edit {
    Edit([], [(level, f)])
  }

  /** v' is v after the edit, level by level. */
  ghost predicate Applied(v: Levels, e: Edit, v': Levels) {
    |v| == |v'| == NUM_LEVELS && forall l :: 0 <= l < NUM_LEVELS ==> v'[l] == AppliedLevel(v[l], e, l)
  }

  lemma {:induction false} FlushMembers(v: Levels, level: nat, f: File, v': Levels, l: nat)
    requires ValidVersion(v) && FreshTable(v, f) && Applied(v, AddEdit(level, f), v') && l < NUM_LEVELS
    ensures Listed(v'[l])
    ensures forall g :: g in v'[l] <==> g in v[l] || (l == level && g == f)
  {
    var e := AddEdit(level, f);
    assert DeletedAt(l, e.deleted) == {};
    forall n | n in NumbersAt(l, e.added) ensures n == f.number {
    }
    AppliedMembers(v[l], e, l);
  }

  lemma {:induction false} FlushPairs(v: Levels, level: nat, f: File, v': Levels, l: nat, m: nat, g: File, h: File)
    requires ValidVersion(v) && FreshTable(v, f) && Applied(v, AddEdit(level, f), v')
    requires level > 0 ==> NoOverlapDownTo(v, level, Range(Some(f.smallest.user), Some(f.largest.user)))
    ensures NewerPair(v', l, m, g, h)
  {
    if l < m < |v'| && g in v'[l] && h in v'[m] {
      FlushMembers(v, level, f, v', l);
      FlushMembers(v, level, f, v', m);
      if g in v[l] && h in v[m] {
        assert NewerPair(v, l, m, g, h);
      } else if g in v[l] {
        NoOverlapIsNewer(g, f);
      }
    }
  }

  /** Tables without a common user key are newer than each other. */
  lemma {:induction false} NoOverlapIsNewer(g: File, f: File)
    requires ValidFile(g) && ValidFile(f) && !Overlaps(g, Range(Some(f.smallest.user), Some(f.largest.user)))
    ensures NewerEntries(g.entries, f.entries)
    ensures Less(g.largest, f.smallest) || Less(f.largest, g.smallest)
  {
    forall d, e | d in g.entries && e in f.entries ensures d.key.user != e.key.user {
      FileBounds(g, d);
      FileBounds(f, e);
    }
  }

  lemma {:induction false} FlushDisjoint(v: Levels, level: nat, f: File, v': Levels, l: nat)
    requires ValidVersion(v) && FreshTable(v, f) && Applied(v, AddEdit(level, f), v')
    requires level > 0 ==> NoOverlapDownTo(v, level, Range(Some(f.smallest.user), Some(f.largest.user)))
    requires 1 <= l < NUM_LEVELS
    ensures DisjointLevel(v'[l])
  {
    FlushMembers(v, level, f, v', l);
    forall g, h | g in v'[l] && h in v'[l] && g != h
      ensures Less(g.largest, h.smallest) || Less(h.largest, g.smallest)
    {
      if g in v[l] && h in v[l] {
        OrderInLevel(v[l], g, h);
      } else {
        NoOverlapIsNewer(if g in v[l] then g else h, f);
      }
    }
    PairwiseIsDisjoint(v'[l]);
  }

  /** v' holds the files of v and f. */
  ghost predicate Plus(v: Levels, level: nat, f: File, v': Levels) {
    && |v| == |v'| == NUM_LEVELS && level < NUM_LEVELS
    && forall l, g :: 0 <= l < NUM_LEVELS ==> (g in v'[l] <==> g in v[l] || (l == level && g == f))
  }

  lemma {:induction false} PlusContents(v: Levels, level: nat, f: File, v': Levels)
    requires Plus(v, level, f, v')
    ensures Contents(v') == Contents(v) + ToSet(f.entries)
  {
    forall e ensures e in Contents(v') <==> e in Contents(v) || e in f.entries {
      if e in Contents(v) {
        var l: nat, g: File :| 0 <= l < |v| && g in v[l] && e in g.entries;
        assert g in v'[l];
      }
      if e in f.entries {
        assert f in v'[level];
      }
      if e in Contents(v') {
        var l: nat, g: File :| 0 <= l < |v'| && g in v'[l] && e in g.entries;
        assert g in v[l] || g == f;
      }
    }
  }

  lemma {:induction false} FlushIsPlus(v: Levels, level: nat, f: File, v': Levels)
    requires ValidVersion(v) && FreshTable(v, f) && Applied(v, AddEdit(level, f), v') && level < NUM_LEVELS
    ensures Plus(v, level, f, v')
    ensures forall l :: 0 <= l < NUM_LEVELS ==> Listed(v'[l])
  {
    forall l | 0 <= l < NUM_LEVELS ensures Listed(v'[l]) && forall g :: g in v'[l] <==> g in v[l] || (l == level && g == f) {
      FlushMembers(v, level, f, v', l);
    }
  }

  lemma {:induction false} FlushNumbers(v: Levels, level: nat, f: File, v': Levels)
    requires ValidVersion(v) && FreshTable(v, f) && Plus(v, level, f, v')
    ensures NewerNumbers(v'[0])
    ensures forall l, m, g, h :: 0 <= l < |v'| && 0 <= m < |v'| && g in v'[l] && h in v'[m] && g.number == h.number ==> l == m && g == h
    ensures forall l, g :: 0 <= l < |v'| && g in v'[l] ==> ValidFile(g)
  {
    hide Less;
    FlushNumbersDistinct(v, level, f, v');
    forall g, h | g in v'[0] && h in v'[0] && g.number > h.number ensures NewerEntries(g.entries, h.entries) {
      assert g in v[0] || g == f;
    }
  }

  lemma {:induction false} FlushNumbersDistinct(v: Levels, level: nat, f: File, v': Levels)
    requires ValidVersion(v) && FreshTable(v, f) && Plus(v, level, f, v')
    ensures forall l, m, g, h :: 0 <= l < |v'| && 0 <= m < |v'| && g in v'[l] && h in v'[m] && g.number == h.number ==> l == m && g == h
    ensures forall l, g :: 0 <= l < |v'| && g in v'[l] ==> ValidFile(g)
  {
    hide Less, NewerEntries, ValidFile, UniquelyKeyed, Contents, NewerLevels, DisjointLevel, Listed, NewerNumbers;
    forall l, m, g, h | 0 <= l < |v'| && 0 <= m < |v'| && g in v'[l] && h in v'[m] && g.number == h.number ensures l == m && g == h {
      assert g in v[l] || (l == level && g == f);
      assert h in v[m] || (m == level && h == f);
    }
  }

  /** Placing a flushed memtable where PickLevelForMemTableOutput says keeps the version valid. */
  lemma {:induction false} FlushKeepsInvariant(v: Levels, level: nat, f: File, v': Levels)
    requires ValidVersion(v) && FreshTable(v, f) && level < NUM_LEVELS
    requires level > 0 ==> NoOverlapDownTo(v, level, Range(Some(f.smallest.user), Some(f.largest.user)))
    requires Applied(v, AddEdit(level, f), v')
    ensures ValidVersion(v') && Contents(v') == Contents(v) + ToSet(f.entries)
  {
    FlushIsPlus(v, level, f, v');
    PlusContents(v, level, f, v');
    FlushNumbers(v, level, f, v');
    forall l | 1 <= l < NUM_LEVELS ensures DisjointLevel(v'[l]) { FlushDisjoint(v, level, f, v', l); }
    forall l: nat, m: nat, g, h ensures NewerPair(v', l, m, g, h) { FlushPairs(v, level, f, v', l, m, g, h); }
    assert LevelInvariant(v');
  }

  // ---------------------------------------------------------------------------------------------
  // Installing a compaction, or a trivial move
  // ---------------------------------------------------------------------------------------------

  /** The inputs go, the outputs come in at level + 1. */
  ghost predicate IsCompactionEdit(e: Edit, level: nat, inputs0: seq<File>, inputs1: seq<File>, outs: seq<File>) {
    && DeletedAt(level, e.deleted) == Numbers(inputs0)
    && DeletedAt(level + 1, e.deleted) == Numbers(inputs1)
    && (forall l :: l != level && l != level + 1 ==> DeletedAt(l, e.deleted) == {})
    && (forall l, f :: (l, f) in e.added <==> l == level + 1 && f in outs)
    && DistinctAt(level + 1, e.added)
  }

  /** Compaction::AddInputDeletions and the additions of InstallCompactionResults. */
  method CompactionEdit(level: nat, inputs0: seq<File>, inputs1: seq<File>, outs: seq<File>) returns (e: Edit)
    requires DistinctNumbers(outs)
    ensures IsCompactionEdit(e, level, inputs0, inputs1, outs)
  {
    var deleted: seq<(nat, nat)> := [];
    for i := 0 to |inputs0|
      invariant forall d :: d in deleted <==> d.0 == level && exists k :: 0 <= k < i && inputs0[k].number == d.1
    {
      deleted := deleted + [(level, inputs0[i].number)];
    }
    for i := 0 to |inputs1|
      invariant forall d :: d in deleted <==>
                  || (d.0 == level && exists k :: 0 <= k < |inputs0| && inputs0[k].number == d.1)
                  || (d.0 == level + 1 && exists k :: 0 <= k < i && inputs1[k].number == d.1)
    {
      deleted := deleted + [(level + 1, inputs1[i].number)];
    }
    var added: seq<(nat, File)> := [];
    for i := 0 to |outs|
      invariant |added| == i && forall k :: 0 <= k < i ==> added[k] == (level + 1, outs[k])
    {
      added := added + [(level + 1, outs[i])];
    }
    e := Edit(deleted, added);
    forall l, n
      ensures n in DeletedAt(l, deleted) <==> (l == level && n in Numbers(inputs0)) || (l == level + 1 && n in Numbers(inputs1))
    {
      assert n in DeletedAt(l, deleted) <==> (l, n) in deleted;
      assert n in Numbers(inputs0) <==> exists k :: 0 <= k < |inputs0| && inputs0[k].number == n;
      assert n in Numbers(inputs1) <==> exists k :: 0 <= k < |inputs1| && inputs1[k].number == n;
    }
    forall l, f ensures (l, f) in added <==> l == level + 1 && f in outs {
      if l == level + 1 && f in outs {
        var k :| 0 <= k < |outs| && outs[k] == f;
        assert added[k] == (l, f);
      }
    }
  }

  /** The outputs hold input entries only, in order, under numbers no remaining file has. */
  ghost predicate ValidOutputs(v: Levels, inputs0: seq<File>, inputs1: seq<File>, outs: seq<File>) {
    && (forall o :: o in outs ==> ValidFile(o) && ToSet(o.entries) <= FileEntries(inputs0) + FileEntries(inputs1))
    && DisjointLevel(outs) && DistinctNumbers(outs)
    && (forall o, l, g :: o in outs && 0 <= l < |v| && g in v[l] && g.number == o.number ==> g == o && g in inputs0)
  }

  ghost predicate Chosen(v: Levels, level: nat, inputs0: seq<File>, inputs1: seq<File>) {
    && ValidVersion(v) && level + 1 < NUM_LEVELS
    && Choice(level, v[level], inputs0) && NextInputs(v[level + 1], inputs0, inputs1)
  }

  ghost predicate CompactedMember(v: Levels, level: nat, inputs0: seq<File>, inputs1: seq<File>, outs: seq<File>, l: nat, g: File)
    requires l < |v|
  {
    if l == level then g in v[l] && g !in inputs0
    else if l == level + 1 then (g in v[l] && g !in inputs1) || g in outs
    else g in v[l]
  }

  ghost predicate Compacted(v: Levels, level: nat, inputs0: seq<File>, inputs1: seq<File>, outs: seq<File>, v': Levels) {
    && |v| == |v'| == NUM_LEVELS
    && forall l, g :: 0 <= l < NUM_LEVELS ==> (g in v'[l] <==> CompactedMember(v, level, inputs0, inputs1, outs, l, g))
  }

  lemma {:induction false} InputsInVersion(v: Levels, level: nat, inputs0: seq<File>, inputs1: seq<File>)
    requires Chosen(v, level, inputs0, inputs1)
    ensures forall f :: f in inputs0 ==> f in v[level]
    ensures forall f :: f in inputs1 ==> f in v[level + 1]
  {
    ChoiceIsSubset(level, v[level], inputs0);
    NextInputsAreThere(v[level + 1], inputs0, inputs1);
  }

  lemma {:induction false} CompactionMembers(v: Levels, level: nat, inputs0: seq<File>, inputs1: seq<File>, outs: seq<File>, e: Edit, v': Levels, l: nat)
    requires Chosen(v, level, inputs0, inputs1) && ValidOutputs(v, inputs0, inputs1, outs)
    requires IsCompactionEdit(e, level, inputs0, inputs1, outs) && Applied(v, e, v') && l < NUM_LEVELS
    ensures Listed(v'[l])
    ensures forall g :: g in v'[l] <==> CompactedMember(v, level, inputs0, inputs1, outs, l, g)
  {
    hide Less, ValidFile, DisjointLevel, NewerNumbers, NewerLevels, UniquelyKeyed, Contents, Choice, NextInputs, AppliedLevel;
    InputsInVersion(v, level, inputs0, inputs1);
    OutputNumbersFresh(v, level, inputs0, inputs1, outs, e, l);
    assert l != level + 1 ==> NumbersAt(l, e.added) == {} && DistinctAt(l, e.added) by {
      forall a | a in e.added && a.0 == l ensures l == level + 1 {
        assert (a.0, a.1) in e.added;
      }
    }
    AppliedMembers(v[l], e, l);
    DeletedNumbers(v, level, inputs0, inputs1, outs, e, l);
  }

  lemma {:induction false} DeletedNumbers(v: Levels, level: nat, inputs0: seq<File>, inputs1: seq<File>, outs: seq<File>, e: Edit, l: nat)
    requires Chosen(v, level, inputs0, inputs1) && IsCompactionEdit(e, level, inputs0, inputs1, outs) && l < NUM_LEVELS
    ensures forall g :: g in v[l] ==>
      (g.number in DeletedAt(l, e.deleted) <==> (l == level && g in inputs0) || (l == level + 1 && g in inputs1))
  {
    hide Less, ValidFile, DisjointLevel, NewerNumbers, NewerLevels, UniquelyKeyed, Contents, Choice, NextInputs, Listed;
    InputsInVersion(v, level, inputs0, inputs1);
    forall g | g in v[l] ensures g.number in DeletedAt(l, e.deleted) <==>
                                 (l == level && g in inputs0) || (l == level + 1 && g in inputs1)
    {
      SameNumber(v, l, level, inputs0, g);
      SameNumber(v, l, level + 1, inputs1, g);
    }
  }

  lemma {:induction false} OutputNumbersFresh(v: Levels, level: nat, inputs0: seq<File>, inputs1: seq<File>, outs: seq<File>, e: Edit, l: nat)
    requires Chosen(v, level, inputs0, inputs1) && ValidOutputs(v, inputs0, inputs1, outs)
    requires IsCompactionEdit(e, level, inputs0, inputs1, outs) && l < NUM_LEVELS
    ensures Numbers(v[l]) !! NumbersAt(l, e.added)
  {
    hide Less, ValidFile, UniquelyKeyed, Contents, NewerLevels, NewerNumbers, Choice, NextInputs, DisjointLevel, DistinctNumbers, FileEntries;
    InputsInVersion(v, level, inputs0, inputs1);
    forall n | n in NumbersAt(l, e.added) ensures n !in Numbers(v[l]) {
      var a :| a in e.added && a.0 == l && a.1.number == n;
      assert (a.0, a.1) in e.added;
      forall g | g in v[l] ensures g.number != n {
      }
    }
  }

  /** Deleting by number deletes exactly the listed files. */
  lemma {:induction false} SameNumber(v: Levels, l: nat, m: nat, files: seq<File>, g: File)
    requires ValidVersion(v) && l < |v| && m < |v| && g in v[l] && forall f :: f in files ==> f in v[m]
    ensures l == m ==> (g.number in Numbers(files) <==> g in files)
  {
    if f :| f in files && f.number == g.number {
      assert f in v[m];
    }
  }

  // The invariant, clause by clause.

  lemma {:induction false} OutputEntry(v: Levels, inputs0: seq<File>, inputs1: seq<File>, outs: seq<File>, o: File, e: Entry) returns (f: File)
    requires ValidOutputs(v, inputs0, inputs1, outs) && o in outs && e in o.entries
    ensures e in f.entries && (f in inputs0 || f in inputs1)
  {
    assert e in ToSet(o.entries);
    if e in FileEntries(inputs0) {
      f :| f in inputs0 && e in f.entries;
    } else {
      f :| f in inputs1 && e in f.entries;
    }
  }

  lemma {:induction false} CompactionContents(v: Levels, level: nat, inputs0: seq<File>, inputs1: seq<File>, outs: seq<File>, v': Levels)
    requires |v| == NUM_LEVELS && level + 1 < NUM_LEVELS
    requires Compacted(v, level, inputs0, inputs1, outs, v')
    ensures Contents(v') == FileEntries(outs) + Contents(Remaining(v, level, inputs0, inputs1))
  {
    var r := Remaining(v, level, inputs0, inputs1);
    forall e ensures e in Contents(v') <==> e in FileEntries(outs) || e in Contents(r) {
      if e in Contents(v') {
        var l: nat, g: File :| 0 <= l < |v'| && g in v'[l] && e in g.entries;
        assert CompactedMember(v, level, inputs0, inputs1, outs, l, g);
        assert g in r[l] || g in outs;
      }
      if e in FileEntries(outs) {
        var g :| g in outs && e in g.entries;
        assert g in v'[level + 1];
      }
      if e in Contents(r) {
        var l: nat, g: File :| 0 <= l < |r| && g in r[l] && e in g.entries;
        assert g in v'[l];
      }
    }
  }

  lemma {:induction false} RemainingContents(v: Levels, level: nat, inputs0: seq<File>, inputs1: seq<File>)
    requires |v| == NUM_LEVELS && level + 1 < NUM_LEVELS
    ensures Contents(Remaining(v, level, inputs0, inputs1)) <= Contents(v)
  {
    var r := Remaining(v, level, inputs0, inputs1);
    forall e | e in Contents(r) ensures e in Contents(v) {
      var l: nat, g: File :| 0 <= l < |r| && g in r[l] && e in g.entries;
      assert g in v[l];
    }
  }

  lemma {:induction false} OutputContents(v: Levels, level: nat, inputs0: seq<File>, inputs1: seq<File>, outs: seq<File>)
    requires |v| == NUM_LEVELS && level + 1 < NUM_LEVELS
    requires forall f :: f in inputs0 ==> f in v[level]
    requires forall f :: f in inputs1 ==> f in v[level + 1]
    requires ValidOutputs(v, inputs0, inputs1, outs)
    ensures FileEntries(outs) <= Contents(v)
  {
    forall e | e in FileEntries(outs) ensures e in Contents(v) {
      var o :| o in outs && e in o.entries;
      var f := OutputEntry(v, inputs0, inputs1, outs, o, e);
      assert f in v[level] || f in v[level + 1];
    }
  }

  /** A file left at level + 1 lies wholly before or wholly after all input entries. */
  lemma {:induction false} OutsiderApart(next: seq<File>, inputs0: seq<File>, inputs1: seq<File>, g: File)
    requires SortedLevel(next) && NextInputs(next, inputs0, inputs1)
    requires forall f :: f in inputs0 ==> ValidFile(f)
    requires g in next && g !in inputs1
    ensures || (forall f, e :: (f in inputs0 || f in inputs1) && e in f.entries ==> Less(g.largest, e.key))
            || (forall f, e :: (f in inputs0 || f in inputs1) && e in f.entries ==> Less(e.key, g.smallest))
  {
    var span :| Spans(inputs0, span) && inputs1 == Select(next, span);
    SelectMembers(next, span);
    forall f, e | (f in inputs0 || f in inputs1) && e in f.entries
      ensures if g.largest.user < span.begin.value then Less(g.largest, e.key) else Less(e.key, g.smallest)
    {
      FileBounds(f, e);
      if f in inputs0 {
        assert Inside(f, span);
      } else {
        OrderInLevel(next, f, g);
      }
    }
  }

  lemma {:induction false} CompactionDisjoint(v: Levels, level: nat, inputs0: seq<File>, inputs1: seq<File>, outs: seq<File>, v': Levels)
    requires Chosen(v, level, inputs0, inputs1) && ValidOutputs(v, inputs0, inputs1, outs)
    requires Compacted(v, level, inputs0, inputs1, outs, v') && Listed(v'[level + 1])
    ensures DisjointLevel(v'[level + 1])
  {
    hide Less, Sorted, UniquelyKeyed, Contents, NewerLevels, NewerNumbers, Choice, NextInputs, DistinctNumbers, FileEntries;
    var next, files := v[level + 1], v'[level + 1];
    InputsInVersion(v, level, inputs0, inputs1);
    forall g | g in files ensures ValidFile(g) {
      assert CompactedMember(v, level, inputs0, inputs1, outs, level + 1, g);
    }
    forall g, h | g in files && h in files && g != h
      ensures Less(g.largest, h.smallest) || Less(h.largest, g.smallest)
    {
      assert CompactedMember(v, level, inputs0, inputs1, outs, level + 1, g);
      assert CompactedMember(v, level, inputs0, inputs1, outs, level + 1, h);
      if g in outs && h in outs {
      } else if g in outs {
        OutputApart(v, level, inputs0, inputs1, outs, h, g);
      } else if h in outs {
        OutputApart(v, level, inputs0, inputs1, outs, g, h);
      } else {
        OrderInLevel(next, g, h);
      }
    }
    PairwiseIsDisjoint(files);
  }

  lemma {:induction false} OutputApart(v: Levels, level: nat, inputs0: seq<File>, inputs1: seq<File>, outs: seq<File>, g: File, o: File)
    requires Chosen(v, level, inputs0, inputs1) && ValidOutputs(v, inputs0, inputs1, outs)
    requires g in v[level + 1] && g !in inputs1 && o in outs
    ensures Less(g.largest, o.smallest) || Less(o.largest, g.smallest)
  {
    hide Less, Sorted, UniquelyKeyed, Contents, NewerLevels, NewerNumbers, Choice, NextInputs, DisjointLevel, DistinctNumbers, FileEntries;
    InputsInVersion(v, level, inputs0, inputs1);
    var first, last := o.entries[0], o.entries[|o.entries| - 1];
    assert first in o.entries && last in o.entries;
    var f := OutputEntry(v, inputs0, inputs1, outs, o, first);
    var h := OutputEntry(v, inputs0, inputs1, outs, o, last);
    assert SortedLevel(v[level + 1]);
    assert forall i :: i in inputs0 ==> ValidFile(i);
    OutsiderApart(v[level + 1], inputs0, inputs1, g);
    assert Less(g.largest, first.key) || Less(last.key, g.smallest);
  }

  /** An output is newer than what lies deeper, and older than what lies above. */
  lemma {:induction false} CompactionPairs(v: Levels, level: nat, inputs0: seq<File>, inputs1: seq<File>, outs: seq<File>, v': Levels,
                        l: nat, m: nat, g: File, h: File)
    requires Chosen(v, level, inputs0, inputs1) && ValidOutputs(v, inputs0, inputs1, outs)
    requires Compacted(v, level, inputs0, inputs1, outs, v')
    ensures NewerPair(v', l, m, g, h)
  {
    if l < m < |v'| && g in v'[l] && h in v'[m] {
      assert CompactedMember(v, level, inputs0, inputs1, outs, l, g);
      assert CompactedMember(v, level, inputs0, inputs1, outs, m, h);
      forall d, e | d in g.entries && e in h.entries && d.key.user == e.key.user
        ensures d.key.sequence > e.key.sequence
      {
        CompactionEntryPair(v, level, inputs0, inputs1, outs, l, m, g, h, d, e);
      }
    }
  }

  lemma {:induction false} CompactionEntryPair(v: Levels, level: nat, inputs0: seq<File>, inputs1: seq<File>, outs: seq<File>,
                            l: nat, m: nat, g: File, h: File, d: Entry, e: Entry)
    requires Chosen(v, level, inputs0, inputs1) && ValidOutputs(v, inputs0, inputs1, outs)
    requires l < m < NUM_LEVELS
    requires CompactedMember(v, level, inputs0, inputs1, outs, l, g) && CompactedMember(v, level, inputs0, inputs1, outs, m, h)
    requires d in g.entries && e in h.entries && d.key.user == e.key.user
    ensures d.key.sequence > e.key.sequence
  {
    InputsInVersion(v, level, inputs0, inputs1);
    if g in v[l] && h in v[m] {
      assert NewerPair(v, l, m, g, h);
    } else if g in v[l] {
      AboveOutput(v, level, inputs0, inputs1, outs, l, g, h, d, e);
    } else {
      var f := OutputEntry(v, inputs0, inputs1, outs, g, d);
      BelowInput(v, if f in inputs0 then level else level + 1, m, f, h, d, e);
    }
  }

  lemma {:induction false} BelowInput(v: Levels, l: nat, m: nat, f: File, h: File, d: Entry, e: Entry)
    requires NewerLevels(v) && l < m < |v| && f in v[l] && h in v[m]
    requires d in f.entries && e in h.entries && d.key.user == e.key.user
    ensures d.key.sequence > e.key.sequence
  {
    assert NewerPair(v, l, m, f, h);
  }

  lemma {:induction false} AboveOutput(v: Levels, level: nat, inputs0: seq<File>, inputs1: seq<File>, outs: seq<File>,
                    l: nat, g: File, o: File, d: Entry, e: Entry)
    requires Chosen(v, level, inputs0, inputs1) && ValidOutputs(v, inputs0, inputs1, outs)
    requires l <= level && g in v[l] && (l == level ==> g !in inputs0) && o in outs
    requires d in g.entries && e in o.entries && d.key.user == e.key.user
    ensures d.key.sequence > e.key.sequence
  {
    InputsInVersion(v, level, inputs0, inputs1);
    var f := OutputEntry(v, inputs0, inputs1, outs, o, e);
    if l == level && f in inputs0 {
      ChoiceSettled(v, level, inputs0);
      assert NewerEntries(g.entries, f.entries);
    } else {
      BelowInput(v, l, if f in inputs0 then level else level + 1, g, f, d, e);
    }
  }

  lemma {:induction false} CompactionNumbers(v: Levels, level: nat, inputs0: seq<File>, inputs1: seq<File>, outs: seq<File>, v': Levels)
    requires Chosen(v, level, inputs0, inputs1) && ValidOutputs(v, inputs0, inputs1, outs)
    requires Compacted(v, level, inputs0, inputs1, outs, v')
    ensures NewerNumbers(v'[0])
    ensures forall l, g :: 0 <= l < |v'| && g in v'[l] ==> ValidFile(g)
    ensures forall l, m, g, h :: 0 <= l < |v'| && 0 <= m < |v'| && g in v'[l] && h in v'[m] && g.number == h.number ==> l == m && g == h
  {
    hide Less, ValidFile, UniquelyKeyed, Contents, NewerLevels, Choice, NextInputs, DisjointLevel, DistinctNumbers, FileEntries;
    InputsInVersion(v, level, inputs0, inputs1);
    forall l, g | 0 <= l < |v'| && g in v'[l] ensures ValidFile(g) {
      assert CompactedMember(v, level, inputs0, inputs1, outs, l, g);
    }
    forall g | g in v'[0] ensures g in v[0] {
      assert CompactedMember(v, level, inputs0, inputs1, outs, 0, g);
    }
    forall l, m, g, h | 0 <= l < |v'| && 0 <= m < |v'| && g in v'[l] && h in v'[m] && g.number == h.number
      ensures l == m && g == h
    {
      UniqueNumber(v, level, inputs0, inputs1, outs, l, m, g, h);
    }
  }

  lemma {:induction false} UniqueNumber(v: Levels, level: nat, inputs0: seq<File>, inputs1: seq<File>, outs: seq<File>,
                     l: nat, m: nat, g: File, h: File)
    requires Chosen(v, level, inputs0, inputs1) && ValidOutputs(v, inputs0, inputs1, outs)
    requires l < NUM_LEVELS && m < NUM_LEVELS && g.number == h.number
    requires CompactedMember(v, level, inputs0, inputs1, outs, l, g) && CompactedMember(v, level, inputs0, inputs1, outs, m, h)
    ensures l == m && g == h
  {
    hide Less, ValidFile, UniquelyKeyed, Contents, NewerLevels, NewerNumbers, Choice, NextInputs, DisjointLevel, FileEntries;
    InputsInVersion(v, level, inputs0, inputs1);
  }

  lemma {:induction false} CompactionIsCompacted(v: Levels, level: nat, inputs0: seq<File>, inputs1: seq<File>, outs: seq<File>, e: Edit, v': Levels)
    requires Chosen(v, level, inputs0, inputs1) && ValidOutputs(v, inputs0, inputs1, outs)
    requires IsCompactionEdit(e, level, inputs0, inputs1, outs) && Applied(v, e, v')
    ensures Compacted(v, level, inputs0, inputs1, outs, v')
    ensures forall l :: 0 <= l < NUM_LEVELS ==> Listed(v'[l])
  {
    forall l | 0 <= l < NUM_LEVELS
      ensures Listed(v'[l]) && forall g :: g in v'[l] <==> CompactedMember(v, level, inputs0, inputs1, outs, l, g)
    {
      CompactionMembers(v, level, inputs0, inputs1, outs, e, v', l);
    }
  }

  lemma {:induction false} CompactionUnique(v: Levels, level: nat, inputs0: seq<File>, inputs1: seq<File>, outs: seq<File>, v': Levels)
    requires Chosen(v, level, inputs0, inputs1) && ValidOutputs(v, inputs0, inputs1, outs)
    requires Compacted(v, level, inputs0, inputs1, outs, v')
    ensures UniquelyKeyed(Contents(v'))
  {
    CompactionContents(v, level, inputs0, inputs1, outs, v');
    InputsInVersion(v, level, inputs0, inputs1);
    OutputContents(v, level, inputs0, inputs1, outs);
    RemainingContents(v, level, inputs0, inputs1);
    SubsetUniquelyKeyed(Contents(v'), Contents(v));
  }

  lemma {:induction false} CompactionAllDisjoint(v: Levels, level: nat, inputs0: seq<File>, inputs1: seq<File>, outs: seq<File>, v': Levels, l: nat)
    requires Chosen(v, level, inputs0, inputs1) && ValidOutputs(v, inputs0, inputs1, outs)
    requires Compacted(v, level, inputs0, inputs1, outs, v') && 1 <= l < NUM_LEVELS && Listed(v'[l])
    ensures DisjointLevel(v'[l])
  {
    hide Less, ValidFile, UniquelyKeyed, Contents, NewerLevels, NewerNumbers, Choice, NextInputs, ValidOutputs, Listed, LevelInvariant,
      DisjointLevel;
    if l == level + 1 {
      CompactionDisjoint(v, level, inputs0, inputs1, outs, v');
    } else {
      forall g | g in v'[l] ensures g in v[l] {
        assert CompactedMember(v, level, inputs0, inputs1, outs, l, g);
      }
      SubLevelDisjoint(v, l, v'[l]);
    }
  }

  /** Installing a compaction keeps the version valid. */
  lemma {:induction false} CompactionKeepsInvariant(v: Levels, level: nat, inputs0: seq<File>, inputs1: seq<File>, outs: seq<File>,
                                 e: Edit, v': Levels)
    requires Chosen(v, level, inputs0, inputs1) && ValidOutputs(v, inputs0, inputs1, outs)
    requires IsCompactionEdit(e, level, inputs0, inputs1, outs) && Applied(v, e, v')
    ensures ValidVersion(v')
    ensures Contents(v') == FileEntries(outs) + Contents(Remaining(v, level, inputs0, inputs1))
  {
    CompactionIsCompacted(v, level, inputs0, inputs1, outs, e, v');
    CompactedIsValid(v, level, inputs0, inputs1, outs, v');
    CompactionContents(v, level, inputs0, inputs1, outs, v');
  }

  lemma {:induction false} CompactedIsValid(v: Levels, level: nat, inputs0: seq<File>, inputs1: seq<File>, outs: seq<File>, v': Levels)
    requires Chosen(v, level, inputs0, inputs1) && ValidOutputs(v, inputs0, inputs1, outs)
    requires Compacted(v, level, inputs0, inputs1, outs, v')
    requires forall l :: 0 <= l < NUM_LEVELS ==> Listed(v'[l])
    ensures ValidVersion(v')
  {
    CompactionUnique(v, level, inputs0, inputs1, outs, v');
    CompactionNumbers(v, level, inputs0, inputs1, outs, v');
    CompactionNewerLevels(v, level, inputs0, inputs1, outs, v');
    CompactionDisjointLevels(v, level, inputs0, inputs1, outs, v');
    Assemble(v');
  }

  lemma {:induction false} Assemble(v: Levels)
    requires |v| == NUM_LEVELS && UniquelyKeyed(Contents(v)) && NewerNumbers(v[0]) && NewerLevels(v)
    requires forall l, g :: 0 <= l < |v| && g in v[l] ==> ValidFile(g)
    requires forall l, m, g, h :: 0 <= l < |v| && 0 <= m < |v| && g in v[l] && h in v[m] && g.number == h.number ==> l == m && g == h
    requires forall l :: 1 <= l < |v| ==> DisjointLevel(v[l])
    requires forall l :: 0 <= l < |v| ==> Listed(v[l])
    ensures ValidVersion(v)
  {
    assert LevelInvariant(v);
  }

  lemma {:induction false} CompactionNewerLevels(v: Levels, level: nat, inputs0: seq<File>, inputs1: seq<File>, outs: seq<File>, v': Levels)
    requires Chosen(v, level, inputs0, inputs1) && ValidOutputs(v, inputs0, inputs1, outs)
    requires Compacted(v, level, inputs0, inputs1, outs, v')
    ensures NewerLevels(v')
  {
    forall l: nat, m: nat, g, h ensures NewerPair(v', l, m, g, h) {
      CompactionPairs(v, level, inputs0, inputs1, outs, v', l, m, g, h);
    }
  }

  lemma {:induction false} CompactionDisjointLevels(v: Levels, level: nat, inputs0: seq<File>, inputs1: seq<File>, outs: seq<File>, v': Levels)
    requires Chosen(v, level, inputs0, inputs1) && ValidOutputs(v, inputs0, inputs1, outs)
    requires Compacted(v, level, inputs0, inputs1, outs, v')
    requires forall l :: 0 <= l < NUM_LEVELS ==> Listed(v'[l])
    ensures forall l :: 1 <= l < |v'| ==> DisjointLevel(v'[l])
  {
    forall l | 1 <= l < NUM_LEVELS ensures DisjointLevel(v'[l]) {
      CompactionAllDisjoint(v, level, inputs0, inputs1, outs, v', l);
    }
  }

  lemma {:induction false} SubLevelDisjoint(v: Levels, l: nat, files: seq<File>)
    requires ValidVersion(v) && 1 <= l < NUM_LEVELS
    requires Listed(files) && forall g :: g in files ==> g in v[l]
    ensures DisjointLevel(files)
  {
    forall g, h | g in files && h in files && g != h
      ensures Less(g.largest, h.smallest) || Less(h.largest, g.smallest)
    {
      OrderInLevel(v[l], g, h);
    }
    PairwiseIsDisjoint(files);
  }

  // ---------------------------------------------------------------------------------------------
  // The outputs of the compaction loop, and a trivial move, are valid outputs
  // ---------------------------------------------------------------------------------------------

  lemma {:induction false} ConcatSorted(outputs: seq<seq<Entry>>, i: nat)
    requires Sorted(Concat(outputs)) && i < |outputs|
    ensures Sorted(outputs[i]) && forall e :: e in outputs[i] ==> e in Concat(outputs)
  {
    hide Less;
    var n := |outputs| - 1;
    var head, all := Concat(outputs[..n]), Concat(outputs);
    assert all == head + outputs[n];
    assert head == all[..|head|] && outputs[n] == all[|head|..];
    if i < n {
      ConcatSorted(outputs[..n], i);
    }
  }

  lemma {:induction false} ConcatIncreases(outputs: seq<seq<Entry>>, i: nat, j: nat, d: Entry, e: Entry)
    requires Sorted(Concat(outputs)) && i < j < |outputs| && d in outputs[i] && e in outputs[j]
    ensures Less(d.key, e.key)
  {
    hide Less;
    var n := |outputs| - 1;
    var head, all := Concat(outputs[..n]), Concat(outputs);
    assert all == head + outputs[n];
    assert head == all[..|head|];
    if j < n {
      ConcatIncreases(outputs[..n], i, j, d, e);
    } else {
      ConcatSorted(outputs[..n], i);
      var a :| 0 <= a < |head| && head[a] == d;
      var b :| 0 <= b < |outputs[n]| && outputs[n][b] == e;
      assert all[a] == d && all[|head| + b] == e;
    }
  }

  /** outs are files written from outputs, under fresh numbers. */
  ghost predicate WrittenAs(v: Levels, outputs: seq<seq<Entry>>, outs: seq<File>) {
    && |outs| == |outputs|
    && (forall i :: 0 <= i < |outs| ==>
          outs[i].entries == outputs[i] && WrittenFile(outs[i]))
    && DistinctNumbers(outs)
    && (forall o, l, g :: o in outs && 0 <= l < |v| && g in v[l] ==> g.number != o.number)
  }

  /** What DoCompactionWork leaves, written to files under fresh numbers. */
  lemma {:induction false} LoopOutputsValid(v: Levels, inputs0: seq<File>, inputs1: seq<File>, input: seq<Entry>,
                                            smallestSnapshot: nat, base: UserKey -> bool,
                                            outputs: seq<seq<Entry>>, outs: seq<File>)
    requires ValidInput(input) && ToSet(input) == FileEntries(inputs0) + FileEntries(inputs1)
    requires Cut(outputs, [], Kept(input, smallestSnapshot, base, |input|)) && WrittenAs(v, outputs, outs)
    ensures ValidOutputs(v, inputs0, inputs1, outs)
    ensures FileEntries(outs) == ToSet(Kept(input, smallestSnapshot, base, |input|))
  {
    hide Less, Kept, Dropped, ValidFile, UniquelyKeyed;
    var kept := Kept(input, smallestSnapshot, base, |input|);
    KeptSorted(input, smallestSnapshot, base, |input|);
    KeptMembers(input, smallestSnapshot, base, |input|);
    assert Concat(outputs) == kept;
    forall i | 0 <= i < |outs| ensures ValidFile(outs[i]) && ToSet(outs[i].entries) <= ToSet(input) {
      assert WrittenFile(outs[i]) && outs[i].entries in outputs;
      OutputFromInput(input, kept, outputs, outs[i]);
    }
    forall i, j | 0 <= i < j < |outs| ensures Less(outs[i].largest, outs[j].smallest) {
      var o := outputs[i];
      assert WrittenFile(outs[i]) && WrittenFile(outs[j]);
      ConcatIncreases(outputs, i, j, o[|o| - 1], outputs[j][0]);
    }
    assert forall o :: o in outs ==> exists i :: 0 <= i < |outs| && outs[i] == o;
    OutputsHoldKept(outputs, outs);
  }

  lemma {:induction false} OutputsHoldKept(outputs: seq<seq<Entry>>, outs: seq<File>)
    requires |outs| == |outputs| && forall i :: 0 <= i < |outs| ==> outs[i].entries == outputs[i]
    ensures FileEntries(outs) == ToSet(Concat(outputs))
  {
    if outs != [] {
      var n := |outs| - 1;
      OutputsHoldKept(outputs[..n], outs[..n]);
      assert outs == outs[..n] + [outs[n]];
      forall e ensures e in FileEntries(outs) <==> e in FileEntries(outs[..n]) || e in outs[n].entries {
        if e in FileEntries(outs) {
          var f :| f in outs && e in f.entries;
          assert f in outs[..n] || f == outs[n];
        }
        if e in outs[n].entries {
          assert outs[n] in outs;
        }
      }
    }
  }

  ghost predicate WrittenFile(o: File) {
    o.entries != [] && o.smallest == o.entries[0].key && o.largest == o.entries[|o.entries| - 1].key
  }

  lemma {:induction false} OutputFromInput(input: seq<Entry>, kept: seq<Entry>, outputs: seq<seq<Entry>>, o: File)
    requires Sorted(kept) && Concat(outputs) == kept && (forall e :: e in kept ==> e in input)
    requires forall e :: e in input ==> e.key.sequence <= MAX_SEQUENCE
    requires o.entries in outputs && WrittenFile(o)
    ensures ValidFile(o) && ToSet(o.entries) <= ToSet(input)
  {
    var i :| 0 <= i < |outputs| && outputs[i] == o.entries;
    ConcatSorted(outputs, i);
    forall e | e in o.entries ensures e in input {
      assert e in kept;
    }
  }

  /** Moving one file down is a compaction whose output is its input. */
  lemma {:induction false} TrivialMoveValid(v: Levels, level: nat, f: File)
    requires Chosen(v, level, [f], [])
    ensures ValidOutputs(v, [f], [], [f])
    ensures FileEntries([f]) + Contents(Remaining(v, level, [f], [])) == Contents(v)
  {
    InputsInVersion(v, level, [f], []);
    assert f in [f];
    MovedFileValid(v, f);
    TrivialMoveContents(v, level, f);
  }

  lemma {:induction false} MovedFileValid(v: Levels, f: File)
    requires ValidFile(f)
    requires forall l, g :: 0 <= l < |v| && g in v[l] && g.number == f.number ==> g == f
    ensures ValidOutputs(v, [f], [], [f])
  {
    assert f in [f];
  }

  lemma {:induction false} TrivialMoveContents(v: Levels, level: nat, f: File)
    requires |v| == NUM_LEVELS && level + 1 < NUM_LEVELS && f in v[level]
    ensures FileEntries([f]) + Contents(Remaining(v, level, [f], [])) == Contents(v)
  {
    var r := Remaining(v, level, [f], []);
    assert f in [f];
    forall e ensures e in FileEntries([f]) + Contents(r) <==> e in Contents(v) {
      if e in Contents(v) {
        var l: nat, g: File :| 0 <= l < |v| && g in v[l] && e in g.entries;
        assert g == f || g in r[l];
      }
      if e in Contents(r) {
        var l: nat, g: File :| 0 <= l < |r| && g in r[l] && e in g.entries;
        assert g in v[l];
      }
    }
  }

  // ---------------------------------------------------------------------------------------------
  // Whole runs
  // ---------------------------------------------------------------------------------------------

  datatype Step =
    | Flush(at: nat, table: File)
    | Compact(level: nat, inputs0: seq<File>, inputs1: seq<File>, outs: seq<File>, edit: Edit)

  /** One installed step: v' comes from v by step. */
  ghost predicate Installs(v: Levels, step: Step, v': Levels)
    requires ValidVersion(v)
  {
    match step
    case Flush(at, f) =>
      && at < NUM_LEVELS && FreshTable(v, f) && Applied(v, AddEdit(at, f), v')
      && (at > 0 ==> NoOverlapDownTo(v, at, Range(Some(f.smallest.user), Some(f.largest.user))))
    case Compact(level, inputs0, inputs1, outs, e) =>
      && Chosen(v, level, inputs0, inputs1) && ValidOutputs(v, inputs0, inputs1, outs)
      && IsCompactionEdit(e, level, inputs0, inputs1, outs) && Applied(v, e, v')
  }

  /** run is a sequence of versions, each installed from the one before. */
  ghost predicate Run(run: seq<Levels>, steps: seq<Step>) {
    && |run| == |steps| + 1
    && forall i :: 0 <= i < |steps| ==> ValidVersion(run[i]) ==> Installs(run[i], steps[i], run[i + 1])
  }

  lemma {:induction false} EveryVersionValid(run: seq<Levels>, steps: seq<Step>, i: nat)
    requires Run(run, steps) && ValidVersion(run[0]) && i < |run|
    ensures ValidVersion(run[i])
  {
    if i > 0 {
      EveryVersionValid(run, steps, i - 1);
      var v, v' := run[i - 1], run[i];
      match steps[i - 1]
      case Flush(at, f) => FlushKeepsInvariant(v, at, f, v');
      case Compact(level, inputs0, inputs1, outs, e) => CompactionKeepsInvariant(v, level, inputs0, inputs1, outs, e, v');
    }
  }
}
