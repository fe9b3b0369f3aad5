/**
 A memtable flushed while a compaction runs (DBImpl::DoCompactionWork calls CompactMemTable between entries): when the
 outputs of the compaction still fit into the version that has grown meanwhile.
 */
module MidFlush {
  import opened Keys
  import opened Version
  import opened Lookup
  import opened Selection
  import opened DropRule
  import opened CompactionLoop
  import opened CompactionSafety
  import opened VersionBuilder
  import opened Install

  // ---------------------------------------------------------------------------------------------
  // A version that has grown by flushes
  // ---------------------------------------------------------------------------------------------

  /** f was not in v, is newer than all of v, and met nothing of v on its way down to its level. */
  ghost predicate CameAfter(v: Levels, l: nat, f: File) {
    && (forall m, g :: 0 <= m < |v| && g in v[m] ==> NewerEntries(f.entries, g.entries) && g.number < f.number)
    && (l > 0 ==> NoOverlapDownTo(v, l, Range(Some(f.smallest.user), Some(f.largest.user))))
  }

  ghost predicate OldOrNew(v: Levels, l: nat, f: File)
    requires l < |v|
  {
    f in v[l] || CameAfter(v, l, f)
  }

  /** w is v with flushed tables added. */
  ghost predicate Grown(v: Levels, w: Levels) {
    && ValidVersion(w) && |v| == |w| == NUM_LEVELS
    && (forall l, f :: 0 <= l < NUM_LEVELS && f in v[l] ==> f in w[l])
    && forall l, f :: 0 <= l < NUM_LEVELS && f in w[l] ==> OldOrNew(v, l, f)
  }

  lemma {:induction false} NotGrown(v: Levels)
    requires ValidVersion(v)
    ensures Grown(v, v)
  {
  }

  /** One more flush. */
  lemma {:induction false} FlushGrows(v: Levels, w: Levels, at: nat, f: File, w': Levels)
    requires Grown(v, w) && FreshTable(w, f) && at < NUM_LEVELS && Applied(w, AddEdit(at, f), w')
    requires at > 0 ==> NoOverlapDownTo(w, at, Range(Some(f.smallest.user), Some(f.largest.user)))
    ensures Grown(v, w')
  {
    hide Less, ValidFile, NewerEntries, LevelInvariant, UniquelyKeyed, Contents, AppliedLevel, Listed, Overlaps;
    FlushKeepsInvariant(w, at, f, w');
    FlushIsPlus(w, at, f, w');
    forall l, g | 0 <= l < NUM_LEVELS && g in w'[l] ensures OldOrNew(v, l, g) {
      if g !in w[l] {
        assert g == f && l == at;
        assert CameAfter(v, at, f);
      }
    }
  }

  // ---------------------------------------------------------------------------------------------
  // Installing a compaction on it
  // ---------------------------------------------------------------------------------------------

  /** The ranges of the two do not meet, in internal-key order. */
  predicate Apart(f: File, g: File) {
    Less(f.largest, g.smallest) || Less(g.largest, f.smallest)
  }

  /** The outputs leave room for what was flushed to their level meanwhile. */
  ghost predicate LeavesRoom(v: Levels, w: Levels, level: nat, outs: seq<File>)
    requires |v| == |w| == NUM_LEVELS && level + 1 < NUM_LEVELS
  {
    forall f, o :: f in w[level + 1] && f !in v[level + 1] && o in outs ==> Apart(f, o)
  }

  /** The numbers of the outputs are new in w, except for a file that moves. */
  ghost predicate NumbersNew(w: Levels, inputs0: seq<File>, outs: seq<File>) {
    forall o, l, g :: o in outs && 0 <= l < |w| && g in w[l] && g.number == o.number ==> g == o && g in inputs0
  }

  /** A compaction chosen on v ends on w, with w' as the outcome. */
  ghost predicate EndsOn(v: Levels, w: Levels, level: nat, inputs0: seq<File>, inputs1: seq<File>, outs: seq<File>, e: Edit, w': Levels) {
    && Chosen(v, level, inputs0, inputs1) && ValidOutputs(v, inputs0, inputs1, outs)
    && Grown(v, w) && NumbersNew(w, inputs0, outs)
    && IsCompactionEdit(e, level, inputs0, inputs1, outs) && Applied(w, e, w')
  }

  /** What is at a level afterwards: the files flushed meanwhile, and what the compaction would have left of v. */
  ghost predicate EndMember(v: Levels, w: Levels, level: nat, inputs0: seq<File>, inputs1: seq<File>, outs: seq<File>, l: nat, f: File)
    requires l < |v| && l < |w|
  {
    (f in w[l] && f !in v[l]) || CompactedMember(v, level, inputs0, inputs1, outs, l, f)
  }

  lemma {:induction false} AddsOnly(level: nat, inputs0: seq<File>, inputs1: seq<File>, outs: seq<File>, e: Edit, w: Levels, l: nat)
    requires IsCompactionEdit(e, level, inputs0, inputs1, outs) && NumbersNew(w, inputs0, outs) && l < |w|
    requires l == level + 1 ==> forall f :: f in inputs0 ==> f !in w[l]
    ensures DistinctAt(l, e.added) && Numbers(w[l]) !! NumbersAt(l, e.added)
  {
    forall a | a in e.added ensures a.0 == level + 1 && a.1 in outs {
      assert (a.0, a.1) in e.added;
    }
    forall n | n in NumbersAt(l, e.added) ensures n !in Numbers(w[l]) {
      var a :| a in e.added && a.0 == l && a.1.number == n;
      forall g | g in w[l] ensures g.number != n {
      }
    }
  }

  /** Files are deleted by number; in w too the numbers are those of the inputs alone. */
  lemma {:induction false} DeletesInputs(w: Levels, level: nat, inputs0: seq<File>, inputs1: seq<File>, outs: seq<File>, e: Edit, l: nat)
    requires ValidVersion(w) && |w| == NUM_LEVELS && level + 1 < NUM_LEVELS && IsCompactionEdit(e, level, inputs0, inputs1, outs) && l < NUM_LEVELS
    requires (forall f :: f in inputs0 ==> f in w[level]) && forall f :: f in inputs1 ==> f in w[level + 1]
    ensures forall g :: g in w[l] ==>
      (g.number in DeletedAt(l, e.deleted) <==> (l == level && g in inputs0) || (l == level + 1 && g in inputs1))
  {
    hide Less, ValidFile, DisjointLevel, NewerNumbers, NewerLevels, UniquelyKeyed, Contents, Listed;
    forall g | g in w[l] ensures g.number in DeletedAt(l, e.deleted) <==>
                                 (l == level && g in inputs0) || (l == level + 1 && g in inputs1)
    {
      SameNumber(w, l, level, inputs0, g);
      SameNumber(w, l, level + 1, inputs1, g);
    }
  }

  lemma {:induction false} InputsStay(v: Levels, w: Levels, level: nat, inputs0: seq<File>, inputs1: seq<File>)
    requires Chosen(v, level, inputs0, inputs1) && Grown(v, w)
    ensures |v| == |w| == NUM_LEVELS
    ensures forall f :: f in inputs0 ==> f in v[level] && f in w[level] && f !in w[level + 1]
    ensures forall f :: f in inputs1 ==> f in v[level + 1] && f in w[level + 1]
  {
    hide Less, ValidFile, DisjointLevel, NewerNumbers, NewerLevels, UniquelyKeyed, Contents, Listed, Choice, NextInputs;
    InputsInVersion(v, level, inputs0, inputs1);
    forall f | f in inputs0 ensures f !in w[level + 1] {
      if f in w[level + 1] {
        OneLevel(w, level, level + 1, f);
      }
    }
  }

  lemma {:induction false} OneLevel(w: Levels, l: nat, m: nat, f: File)
    requires ValidVersion(w) && l < |w| && m < |w| && f in w[l] && f in w[m]
    ensures l == m
  {
  }

  lemma {:induction false} EndMembers(v: Levels, w: Levels, level: nat, inputs0: seq<File>, inputs1: seq<File>, outs: seq<File>,
                                      e: Edit, w': Levels, l: nat)
    requires EndsOn(v, w, level, inputs0, inputs1, outs, e, w') && l < NUM_LEVELS
    ensures |v| == |w| == |w'| == NUM_LEVELS && Listed(w'[l])
    ensures forall g :: g in w'[l] <==> EndMember(v, w, level, inputs0, inputs1, outs, l, g)
  {
    hide Less, ValidFile, LevelInvariant, Choice, NextInputs, AppliedLevel, CameAfter, ValidOutputs, Listed;
    InputsStay(v, w, level, inputs0, inputs1);
    AddsOnly(level, inputs0, inputs1, outs, e, w, l);
    DeletesInputs(w, level, inputs0, inputs1, outs, e, l);
    AppliedMembers(w[l], e, l);
    forall g ensures g in w'[l] <==> EndMember(v, w, level, inputs0, inputs1, outs, l, g) {
      assert (l, g) in e.added <==> l == level + 1 && g in outs;
    }
  }

  lemma {:induction false} EndNumber(v: Levels, w: Levels, level: nat, inputs0: seq<File>, inputs1: seq<File>, outs: seq<File>,
                                     l: nat, m: nat, g: File, h: File)
    requires Chosen(v, level, inputs0, inputs1) && ValidOutputs(v, inputs0, inputs1, outs) && Grown(v, w) && NumbersNew(w, inputs0, outs)
    requires l < NUM_LEVELS && m < NUM_LEVELS && g.number == h.number
    requires EndMember(v, w, level, inputs0, inputs1, outs, l, g) && EndMember(v, w, level, inputs0, inputs1, outs, m, h)
    ensures l == m && g == h
  {
    hide Less, ValidFile, DisjointLevel, NewerNumbers, NewerLevels, UniquelyKeyed, Contents, Listed, Choice, NextInputs, CameAfter, FileEntries;
    InputsStay(v, w, level, inputs0, inputs1);
    var gOld := CompactedMember(v, level, inputs0, inputs1, outs, l, g);
    var hOld := CompactedMember(v, level, inputs0, inputs1, outs, m, h);
    if gOld && hOld {
      UniqueNumber(v, level, inputs0, inputs1, outs, l, m, g, h);
    } else if gOld {
      NewHasOwnNumber(v, w, level, inputs0, inputs1, outs, m, h, l, g);
    } else if hOld {
      NewHasOwnNumber(v, w, level, inputs0, inputs1, outs, l, g, m, h);
    }
  }

  /** A file flushed meanwhile has its number for itself. */
  lemma {:induction false} NewHasOwnNumber(v: Levels, w: Levels, level: nat, inputs0: seq<File>, inputs1: seq<File>, outs: seq<File>,
                                           l: nat, f: File, m: nat, g: File)
    requires Chosen(v, level, inputs0, inputs1) && Grown(v, w) && NumbersNew(w, inputs0, outs)
    requires l < NUM_LEVELS && m < NUM_LEVELS && f in w[l] && f !in v[l] && CompactedMember(v, level, inputs0, inputs1, outs, m, g)
    ensures g.number == f.number ==> l == m && f == g
  {
    hide Less, ValidFile, DisjointLevel, NewerNumbers, NewerLevels, UniquelyKeyed, Contents, Listed, Choice, NextInputs, CameAfter;
    InputsStay(v, w, level, inputs0, inputs1);
    if g.number == f.number && g !in v[m] {
      OneLevel(w, l, level, f);
    }
  }

  lemma {:induction false} EndEntryPair(v: Levels, w: Levels, level: nat, inputs0: seq<File>, inputs1: seq<File>, outs: seq<File>,
                                        l: nat, m: nat, g: File, h: File, d: Entry, e: Entry)
    requires Chosen(v, level, inputs0, inputs1) && ValidOutputs(v, inputs0, inputs1, outs) && Grown(v, w)
    requires l < m < NUM_LEVELS && d in g.entries && e in h.entries && d.key.user == e.key.user
    requires EndMember(v, w, level, inputs0, inputs1, outs, l, g) && EndMember(v, w, level, inputs0, inputs1, outs, m, h)
    ensures d.key.sequence > e.key.sequence
  {
    hide Less, Sorted, DisjointLevel, NewerNumbers, UniquelyKeyed, Contents, Listed, Choice, NextInputs, FileEntries, ValidOutputs, CameAfter;
    InputsStay(v, w, level, inputs0, inputs1);
    if CompactedMember(v, level, inputs0, inputs1, outs, l, g) && CompactedMember(v, level, inputs0, inputs1, outs, m, h) {
      CompactionEntryPair(v, level, inputs0, inputs1, outs, l, m, g, h, d, e);
    } else if g in w[l] && h in w[m] {
      assert NewerPair(w, l, m, g, h);
    } else if CompactedMember(v, level, inputs0, inputs1, outs, m, h) {
      var f := OutputEntry(v, inputs0, inputs1, outs, h, e);
      NewAboveInput(v, w, l, g, if f in inputs0 then level else level + 1, f, d, e);
    } else {
      var f := OutputEntry(v, inputs0, inputs1, outs, g, d);
      NewBelowInput(v, w, m, h, if f in inputs0 then level else level + 1, f, d, e);
    }
  }

  lemma {:induction false} NewAboveInput(v: Levels, w: Levels, l: nat, f: File, m: nat, g: File, d: Entry, e: Entry)
    requires Grown(v, w) && l < NUM_LEVELS && m < NUM_LEVELS && f in w[l] && f !in v[l] && g in v[m]
    requires d in f.entries && e in g.entries && d.key.user == e.key.user
    ensures d.key.sequence > e.key.sequence
  {
    hide Less, ValidVersion;
    assert OldOrNew(v, l, f);
    assert NewerEntries(f.entries, g.entries);
  }

  /** A file flushed past a level shares no user key with the files there. */
  lemma {:induction false} NewBelowInput(v: Levels, w: Levels, l: nat, f: File, m: nat, g: File, d: Entry, e: Entry)
    requires Grown(v, w) && 0 < l < NUM_LEVELS && m <= l && f in w[l] && f !in v[l] && g in v[m] && e in f.entries && d in g.entries
    ensures d.key.user != e.key.user
  {
    hide Less, Sorted, DisjointLevel, NewerNumbers, NewerLevels, UniquelyKeyed, Contents, Listed;
    assert OldOrNew(v, l, f);
    assert g in w[m] && ValidFile(f) && ValidFile(g);
    assert !Overlaps(g, Range(Some(f.smallest.user), Some(f.largest.user)));
    FileBounds(f, e);
    FileBounds(g, d);
  }

  lemma {:induction false} EndApart(v: Levels, w: Levels, level: nat, inputs0: seq<File>, inputs1: seq<File>, outs: seq<File>, v': Levels,
                                    l: nat, g: File, h: File)
    requires Chosen(v, level, inputs0, inputs1) && Grown(v, w) && LeavesRoom(v, w, level, outs)
    requires ValidVersion(v') && Compacted(v, level, inputs0, inputs1, outs, v') && 1 <= l < NUM_LEVELS
    requires EndMember(v, w, level, inputs0, inputs1, outs, l, g) && EndMember(v, w, level, inputs0, inputs1, outs, l, h) && g != h
    ensures Apart(g, h)
  {
    hide Less, NewerNumbers, NewerLevels, UniquelyKeyed, Contents, Listed, Choice, NextInputs, CameAfter;
    InputsStay(v, w, level, inputs0, inputs1);
    if CompactedMember(v, level, inputs0, inputs1, outs, l, g) && CompactedMember(v, level, inputs0, inputs1, outs, l, h) {
      assert g in v'[l] && h in v'[l];
      OrderInLevel(v'[l], g, h);
    } else if g in w[l] && h in w[l] {
      OrderInLevel(w[l], g, h);
    } else if CompactedMember(v, level, inputs0, inputs1, outs, l, g) {
      assert l == level + 1 && g in outs && h in w[l] && h !in v[l];
      assert Apart(h, g);
    } else {
      assert l == level + 1 && h in outs && g in w[l] && g !in v[l];
      assert Apart(g, h);
    }
  }

  /** Seen from w, the inputs go and the outputs come in. */
  lemma {:induction false} EndCompacted(v: Levels, w: Levels, level: nat, inputs0: seq<File>, inputs1: seq<File>, outs: seq<File>,
                                        e: Edit, w': Levels)
    requires EndsOn(v, w, level, inputs0, inputs1, outs, e, w')
    ensures Compacted(w, level, inputs0, inputs1, outs, w')
  {
    hide Less, LevelInvariant, Listed, Choice, NextInputs, CameAfter, ValidOutputs, Contents, FileEntries, AppliedLevel, IsCompactionEdit;
    InputsStay(v, w, level, inputs0, inputs1);
    SizeOf(v, w, level, inputs0, inputs1, outs, e, w');
    forall l, g | 0 <= l < NUM_LEVELS ensures g in w'[l] <==> CompactedMember(w, level, inputs0, inputs1, outs, l, g) {
      EndMembers(v, w, level, inputs0, inputs1, outs, e, w', l);
    }
  }

  lemma {:induction false} EndContents(v: Levels, w: Levels, level: nat, inputs0: seq<File>, inputs1: seq<File>, outs: seq<File>,
                                       e: Edit, w': Levels)
    requires EndsOn(v, w, level, inputs0, inputs1, outs, e, w')
    ensures |w| == NUM_LEVELS && level + 1 < NUM_LEVELS
    ensures Contents(w') == FileEntries(outs) + Contents(Remaining(w, level, inputs0, inputs1)) <= Contents(w)
  {
    hide Less, LevelInvariant, Listed, Choice, NextInputs, CameAfter, ValidOutputs, Contents, FileEntries, AppliedLevel, IsCompactionEdit;
    InputsStay(v, w, level, inputs0, inputs1);
    EndCompacted(v, w, level, inputs0, inputs1, outs, e, w');
    CompactionContents(w, level, inputs0, inputs1, outs, w');
    OutputsInside(v, w, level, inputs0, inputs1, outs);
    RemainingContents(w, level, inputs0, inputs1);
  }

  lemma {:induction false} OutputsInside(v: Levels, w: Levels, level: nat, inputs0: seq<File>, inputs1: seq<File>, outs: seq<File>)
    requires Chosen(v, level, inputs0, inputs1) && ValidOutputs(v, inputs0, inputs1, outs) && Grown(v, w)
    ensures FileEntries(outs) <= Contents(w)
  {
    hide Less, ValidVersion, Choice, NextInputs, CameAfter, ValidOutputs;
    InputsStay(v, w, level, inputs0, inputs1);
    forall e | e in FileEntries(outs) ensures e in Contents(w) {
      var o :| o in outs && e in o.entries;
      var f := OutputEntry(v, inputs0, inputs1, outs, o, e);
      assert f in w[level] || f in w[level + 1];
    }
  }

  /**
   Exactly when a compaction may end on a version that has grown by flushes: the outcome meets the level invariant if and
   only if every table flushed to the output level meanwhile lies apart from every output.
   */
  lemma {:induction false} EndIsValidIff(v: Levels, w: Levels, level: nat, inputs0: seq<File>, inputs1: seq<File>, outs: seq<File>,
                                         e: Edit, w': Levels)
    requires EndsOn(v, w, level, inputs0, inputs1, outs, e, w')
    ensures |v| == |w| == NUM_LEVELS && level + 1 < NUM_LEVELS
    ensures ValidVersion(w') <==> LeavesRoom(v, w, level, outs)
  {
    hide Less, LevelInvariant, Listed, Choice, NextInputs, CameAfter, ValidOutputs, Contents, FileEntries, AppliedLevel, IsCompactionEdit;
    InputsStay(v, w, level, inputs0, inputs1);
    if LeavesRoom(v, w, level, outs) {
      EndIsValid(v, w, level, inputs0, inputs1, outs, e, w');
    } else {
      EndIsNotValid(v, w, level, inputs0, inputs1, outs, e, w');
    }
  }

  lemma {:induction false} EndIsNotValid(v: Levels, w: Levels, level: nat, inputs0: seq<File>, inputs1: seq<File>, outs: seq<File>,
                                         e: Edit, w': Levels)
    requires EndsOn(v, w, level, inputs0, inputs1, outs, e, w') && |v| == |w| == NUM_LEVELS && level + 1 < NUM_LEVELS
    requires !LeavesRoom(v, w, level, outs)
    ensures !ValidVersion(w')
  {
    hide Less, LevelInvariant, Listed, Choice, NextInputs, CameAfter, FileEntries, AppliedLevel, IsCompactionEdit, ValidOutputs, Applied;
    EndMembers(v, w, level, inputs0, inputs1, outs, e, w', level + 1);
    InputsStay(v, w, level, inputs0, inputs1);
    var f, o :| f in w[level + 1] && f !in v[level + 1] && o in outs && !Apart(f, o);
    assert f != o;
    if ValidVersion(w') {
      InOneLevel(w', level + 1, f, o);
    }
  }

  lemma {:induction false} InOneLevel(w: Levels, l: nat, f: File, g: File)
    requires ValidVersion(w) && 1 <= l < |w| && f in w[l] && g in w[l] && f != g
    ensures Apart(f, g)
  {
    hide Less, Sorted, NewerNumbers, NewerLevels, UniquelyKeyed, Contents, Listed;
    OrderInLevel(w[l], f, g);
  }

  lemma {:induction false} EndIsValid(v: Levels, w: Levels, level: nat, inputs0: seq<File>, inputs1: seq<File>, outs: seq<File>,
                                      e: Edit, w': Levels)
    requires EndsOn(v, w, level, inputs0, inputs1, outs, e, w') && |v| == |w| == NUM_LEVELS && level + 1 < NUM_LEVELS
    requires LeavesRoom(v, w, level, outs)
    ensures ValidVersion(w')
  {
    hide Less, ValidFile, NewerEntries, Choice, NextInputs, CameAfter, ValidOutputs, FileEntries, Applied, IsCompactionEdit, BySmallest,
      Contents, UniquelyKeyed, EndMember, LeavesRoom, Chosen, NewerNumbers, NewerPair, DisjointLevel, Listed, NumbersNew, Remaining;
    SizeOf(v, w, level, inputs0, inputs1, outs, e, w');
    forall l | 0 <= l < NUM_LEVELS
      ensures Listed(w'[l]) && forall g :: g in w'[l] <==> EndMember(v, w, level, inputs0, inputs1, outs, l, g)
    {
      EndMembers(v, w, level, inputs0, inputs1, outs, e, w', l);
    }
    forall l, g | 0 <= l < NUM_LEVELS && g in w'[l] ensures ValidFile(g) {
      EndFileValid(v, w, level, inputs0, inputs1, outs, l, g);
    }
    forall l, m, g, h | 0 <= l < NUM_LEVELS && 0 <= m < NUM_LEVELS && g in w'[l] && h in w'[m] && g.number == h.number
      ensures l == m && g == h
    {
      EndNumber(v, w, level, inputs0, inputs1, outs, l, m, g, h);
    }
    forall l: nat, m: nat, g, h ensures NewerPair(w', l, m, g, h) { EndPair(v, w, level, inputs0, inputs1, outs, w', l, m, g, h); }
    forall l | 1 <= l < NUM_LEVELS ensures DisjointLevel(w'[l]) { EndDisjoint(v, w, level, inputs0, inputs1, outs, e, w', l); }
    EndContents(v, w, level, inputs0, inputs1, outs, e, w');
    WasUnique(v, w);
    SubsetUniquelyKeyed(Contents(w'), Contents(w));
    EndNumbersNewer(v, w, level, inputs0, inputs1, outs, w');
  }

  lemma {:induction false} SizeOf(v: Levels, w: Levels, level: nat, inputs0: seq<File>, inputs1: seq<File>, outs: seq<File>, e: Edit, w': Levels)
    requires EndsOn(v, w, level, inputs0, inputs1, outs, e, w')
    ensures |w'| == NUM_LEVELS
  {
  }

  lemma {:induction false} WasUnique(v: Levels, w: Levels)
    requires Grown(v, w)
    ensures UniquelyKeyed(Contents(w))
  {
  }

  lemma {:induction false} EndFileValid(v: Levels, w: Levels, level: nat, inputs0: seq<File>, inputs1: seq<File>, outs: seq<File>, l: nat, g: File)
    requires Chosen(v, level, inputs0, inputs1) && ValidOutputs(v, inputs0, inputs1, outs) && Grown(v, w)
    requires l < NUM_LEVELS && EndMember(v, w, level, inputs0, inputs1, outs, l, g)
    ensures ValidFile(g)
  {
    hide Less, ValidFile, DisjointLevel, NewerNumbers, NewerLevels, UniquelyKeyed, Contents, Listed, Choice, NextInputs, CameAfter, FileEntries;
  }

  lemma {:induction false} EndPair(v: Levels, w: Levels, level: nat, inputs0: seq<File>, inputs1: seq<File>, outs: seq<File>, w': Levels,
                                   l: nat, m: nat, g: File, h: File)
    requires Chosen(v, level, inputs0, inputs1) && ValidOutputs(v, inputs0, inputs1, outs) && Grown(v, w) && |w'| == NUM_LEVELS
    requires forall l, g :: 0 <= l < NUM_LEVELS ==> (g in w'[l] <==> EndMember(v, w, level, inputs0, inputs1, outs, l, g))
    ensures NewerPair(w', l, m, g, h)
  {
    hide Less, LevelInvariant, Listed, Choice, NextInputs, CameAfter, ValidOutputs, Contents, FileEntries, EndMember;
    if l < m < |w'| && g in w'[l] && h in w'[m] {
      forall d, e | d in g.entries && e in h.entries && d.key.user == e.key.user ensures d.key.sequence > e.key.sequence {
        EndEntryPair(v, w, level, inputs0, inputs1, outs, l, m, g, h, d, e);
      }
    }
  }

  lemma {:induction false} EndDisjoint(v: Levels, w: Levels, level: nat, inputs0: seq<File>, inputs1: seq<File>, outs: seq<File>,
                                       e: Edit, w': Levels, l: nat)
    requires EndsOn(v, w, level, inputs0, inputs1, outs, e, w') && |v| == |w| == NUM_LEVELS && level + 1 < NUM_LEVELS
    requires LeavesRoom(v, w, level, outs) && 1 <= l < NUM_LEVELS
    ensures DisjointLevel(w'[l])
  {
    hide Less, ValidFile, LevelInvariant, NewerEntries, Choice, NextInputs, CameAfter, ValidOutputs, FileEntries, AppliedLevel, IsCompactionEdit,
      BySmallest, DisjointLevel, EndMember, LeavesRoom, Listed;
    EndMembers(v, w, level, inputs0, inputs1, outs, e, w', l);
    var v': Levels := seq(NUM_LEVELS, m requires 0 <= m < NUM_LEVELS => AppliedLevel(v[m], e, m));
    CompactionKeepsInvariant(v, level, inputs0, inputs1, outs, e, v');
    CompactionIsCompacted(v, level, inputs0, inputs1, outs, e, v');
    forall g | g in w'[l] ensures ValidFile(g) {
      EndFileValid(v, w, level, inputs0, inputs1, outs, l, g);
    }
    forall g, h | g in w'[l] && h in w'[l] && g != h ensures Less(g.largest, h.smallest) || Less(h.largest, g.smallest) {
      EndApart(v, w, level, inputs0, inputs1, outs, v', l, g, h);
    }
    PairwiseIsDisjoint(w'[l]);
  }

  lemma {:induction false} EndNumbersNewer(v: Levels, w: Levels, level: nat, inputs0: seq<File>, inputs1: seq<File>, outs: seq<File>, w': Levels)
    requires Chosen(v, level, inputs0, inputs1) && Grown(v, w) && |w'| == NUM_LEVELS
    requires forall l, g :: 0 <= l < NUM_LEVELS ==> (g in w'[l] <==> EndMember(v, w, level, inputs0, inputs1, outs, l, g))
    ensures NewerNumbers(w'[0])
  {
    hide Less, ValidFile, NewerEntries, DisjointLevel, NewerLevels, UniquelyKeyed, Contents, Listed, Choice, NextInputs, CameAfter;
    forall g | g in w'[0] ensures g in w[0] {
      assert EndMember(v, w, level, inputs0, inputs1, outs, 0, g);
    }
  }

  // ---------------------------------------------------------------------------------------------
  // Inputs without a gap
  // ---------------------------------------------------------------------------------------------

  /** A table that meets none of the files then lies before all of them or behind all of them. */
  lemma {:induction false} OnOneSide(files: seq<File>, t: File)
    requires NoGap(files) && t.smallest.user <= t.largest.user
    requires forall f :: f in files ==> f.smallest.user <= f.largest.user && !Overlaps(f, Range(Some(t.smallest.user), Some(t.largest.user)))
    ensures (forall f :: f in files ==> f.largest.user < t.smallest.user) || (forall f :: f in files ==> t.largest.user < f.smallest.user)
  {
    assert !Covered(files, t.smallest.user) by {
      forall h | h in files ensures !(h.smallest.user <= t.smallest.user <= h.largest.user) {
        assert !Overlaps(h, Range(Some(t.smallest.user), Some(t.largest.user)));
      }
    }
    if f :| f in files && f.largest.user >= t.smallest.user {
      forall g | g in files ensures t.largest.user < g.smallest.user {
        assert !Overlaps(g, Range(Some(t.smallest.user), Some(t.largest.user)));
      }
    }
  }

  /** Inputs without a gap leave room, however the outputs are cut. */
  lemma {:induction false} NoGapLeavesRoom(v: Levels, w: Levels, level: nat, inputs0: seq<File>, inputs1: seq<File>, outs: seq<File>)
    requires Chosen(v, level, inputs0, inputs1) && ValidOutputs(v, inputs0, inputs1, outs) && Grown(v, w) && NoGap(inputs0 + inputs1)
    ensures |v| == |w| == NUM_LEVELS && LeavesRoom(v, w, level, outs)
  {
    hide Less, Sorted, DisjointLevel, NewerNumbers, NewerLevels, UniquelyKeyed, Contents, Listed, Choice, NextInputs, FileEntries, NoGap;
    InputsStay(v, w, level, inputs0, inputs1);
    forall t, o | t in w[level + 1] && t !in v[level + 1] && o in outs ensures Apart(t, o) {
      MissesInputs(v, w, level, inputs0, inputs1, t);
      OnOneSide(inputs0 + inputs1, t);
      OutputBetween(v, inputs0, inputs1, outs, o, t);
    }
  }

  lemma {:induction false} MissesInputs(v: Levels, w: Levels, level: nat, inputs0: seq<File>, inputs1: seq<File>, t: File)
    requires Chosen(v, level, inputs0, inputs1) && Grown(v, w) && t in w[level + 1] && t !in v[level + 1]
    ensures t.smallest.user <= t.largest.user
    ensures forall f :: f in inputs0 + inputs1 ==>
              ValidFile(f) && f.smallest.user <= f.largest.user && !Overlaps(f, Range(Some(t.smallest.user), Some(t.largest.user)))
  {
    hide Less, Sorted, DisjointLevel, NewerNumbers, NewerLevels, UniquelyKeyed, Contents, Listed, Choice, NextInputs;
    InputsStay(v, w, level, inputs0, inputs1);
    assert OldOrNew(v, level + 1, t) && ValidFile(t);
    FileBounds(t, t.entries[0]);
    forall f | f in inputs0 + inputs1
      ensures ValidFile(f) && f.smallest.user <= f.largest.user && !Overlaps(f, Range(Some(t.smallest.user), Some(t.largest.user)))
    {
      assert f in v[level] || f in v[level + 1];
      assert ValidFile(f);
      FileBounds(f, f.entries[0]);
    }
  }

  lemma {:induction false} OutputBetween(v: Levels, inputs0: seq<File>, inputs1: seq<File>, outs: seq<File>, o: File, t: File)
    requires ValidOutputs(v, inputs0, inputs1, outs) && o in outs && forall f :: f in inputs0 + inputs1 ==> ValidFile(f)
    requires (forall f :: f in inputs0 + inputs1 ==> f.largest.user < t.smallest.user)
             || (forall f :: f in inputs0 + inputs1 ==> t.largest.user < f.smallest.user)
    ensures Apart(t, o)
  {
    hide Sorted, DisjointLevel, DistinctNumbers, FileEntries;
    var first, last := o.entries[0], o.entries[|o.entries| - 1];
    assert first in o.entries && last in o.entries;
    var f := OutputEntry(v, inputs0, inputs1, outs, o, first);
    var g := OutputEntry(v, inputs0, inputs1, outs, o, last);
    assert f in inputs0 + inputs1 && g in inputs0 + inputs1;
    FileBounds(f, first);
    FileBounds(g, last);
  }

  /**
   Compactions that the engine picks itself start from one file, or from what surrounds one in level 0; SetupOtherInputs
   keeps them without a gap. However memtables are flushed meanwhile, their outcome meets the level invariant.
   */
  lemma {:induction false} NoGapIsSafe(v: Levels, w: Levels, level: nat, inputs0: seq<File>, inputs1: seq<File>, outs: seq<File>,
                                       e: Edit, w': Levels)
    requires EndsOn(v, w, level, inputs0, inputs1, outs, e, w') && NoGap(inputs0 + inputs1)
    ensures ValidVersion(w')
  {
    hide Less, ValidVersion, Listed, Choice, NextInputs, CameAfter, ValidOutputs, Applied, IsCompactionEdit, NoGap;
    NoGapLeavesRoom(v, w, level, inputs0, inputs1, outs);
    EndIsValidIff(v, w, level, inputs0, inputs1, outs, e, w');
  }
}
