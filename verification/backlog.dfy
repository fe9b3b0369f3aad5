/**
 What compactions have left to do: every entry counts the levels it can still go down. A compaction or a move lowers
 the sum, so that only finitely many follow each other without a flush.
 */
module Backlog {
  import opened Keys
  import opened Version
  import opened Selection
  import opened CompactionLoop
  import opened CompactionSafety
  import opened VersionBuilder
  import opened Install
  import opened MidFlush
  import opened EngineRuns

  /** The levels from l on, each entry times the levels from its own to the bottom. */
  ghost function BacklogFrom(v: Levels, l: nat): nat
    requires l <= |v|
    decreases |v| - l
  {
    if l == |v| then 0 else (|v| - l) * |FileEntries(v[l])| + BacklogFrom(v, l + 1)
  }

  ghost function Backlog(v: Levels): nat {
    BacklogFrom(v, 0)
  }

  lemma {:induction false} SubsetIsSmaller(A: set<Entry>, B: set<Entry>)
    requires A <= B
    ensures |A| <= |B|
  {
    assert B == A + (B - A);
  }

  lemma {:induction false} SameFrom(v: Levels, v': Levels, l: nat)
    requires |v| == |v'| && l <= |v|
    requires forall m :: l <= m < |v| ==> FileEntries(v'[m]) <= FileEntries(v[m])
    ensures BacklogFrom(v', l) <= BacklogFrom(v, l)
    decreases |v| - l
  {
    hide FileEntries;
    if l < |v| {
      SameFrom(v, v', l + 1);
      SubsetIsSmaller(FileEntries(v'[l]), FileEntries(v[l]));
      Weighted(|v| - l, |FileEntries(v'[l])|, |FileEntries(v[l])|);
    }
  }

  lemma {:induction false} Weighted(w: nat, a: nat, b: nat)
    requires a <= b
    ensures w * a <= w * b
  {
  }

  /** Levels before the one that gives entries down do not matter. */
  lemma {:induction false} LowerFrom(v: Levels, v': Levels, level: nat, l: nat)
    requires |v| == |v'| && l <= level < |v|
    requires forall m :: 0 <= m < level ==> FileEntries(v'[m]) <= FileEntries(v[m])
    requires BacklogFrom(v', level) < BacklogFrom(v, level)
    ensures BacklogFrom(v', l) < BacklogFrom(v, l)
    decreases level - l
  {
    hide FileEntries;
    if l < level {
      LowerFrom(v, v', level, l + 1);
      SubsetIsSmaller(FileEntries(v'[l]), FileEntries(v[l]));
      Weighted(|v| - l, |FileEntries(v'[l])|, |FileEntries(v[l])|);
    }
  }

  /** Entries that leave a level for the next one count less there. */
  lemma {:induction false} DownIsLess(w: nat, here: nat, next: nat, moved: nat, here': nat, next': nat)
    requires w >= 1 && 1 <= moved && here' + moved <= here && next' <= next + moved
    ensures (w + 1) * here' + w * next' < (w + 1) * here + w * next
  {
    Weighted(w + 1, here' + moved, here);
    Weighted(w, next', next + moved);
    assert (w + 1) * (here' + moved) == (w + 1) * here' + w * moved + moved;
    assert w * (next + moved) == w * next + w * moved;
  }

  lemma {:induction false} NotNewer(f: File, g: File, e: Entry)
    requires e in f.entries && e in g.entries
    ensures !NewerEntries(f.entries, g.entries)
  {
  }

  /** No two files of a level hold the same entry. */
  lemma {:induction false} OneHolder(v: Levels, l: nat, f: File, g: File, e: Entry)
    requires ValidVersion(v) && l < |v| && f in v[l] && g in v[l] && e in f.entries && e in g.entries
    ensures f == g
  {
    hide Sorted, UniquelyKeyed, Contents, NewerLevels;
    if f != g {
      if l == 0 {
        NotNewer(f, g, e);
        NotNewer(g, f, e);
      } else {
        OrderInLevel(v[l], f, g);
        FileBounds(f, e);
        FileBounds(g, e);
        PackedOrder(f.largest, g.smallest);
        PackedOrder(g.largest, f.smallest);
      }
    }
  }

  /** The inputs are files of the version, and the outputs hold nothing else than they do. */
  ghost predicate Feeds(v: Levels, level: nat, inputs0: seq<File>, inputs1: seq<File>, outs: seq<File>) {
    && ValidVersion(v) && |v| == NUM_LEVELS && level + 1 < NUM_LEVELS && inputs0 != []
    && (forall f :: f in inputs0 ==> f in v[level]) && (forall f :: f in inputs1 ==> f in v[level + 1])
    && forall o :: o in outs ==> ToSet(o.entries) <= FileEntries(inputs0) + FileEntries(inputs1)
  }

  /** What the compacted level keeps is apart from what its inputs held. */
  lemma {:induction false} GivesDown(v: Levels, level: nat, inputs0: seq<File>, inputs1: seq<File>, outs: seq<File>, v': Levels)
    requires Feeds(v, level, inputs0, inputs1, outs) && Compacted(v, level, inputs0, inputs1, outs, v')
    ensures FileEntries(v'[level]) + FileEntries(inputs0) <= FileEntries(v[level])
    ensures FileEntries(v'[level]) !! FileEntries(inputs0)
    ensures FileEntries(inputs0) != {}
  {
    hide Less, Sorted, LevelInvariant, ValidFile;
    forall f | f in v'[level] ensures f in v[level] && f !in inputs0 {
      assert CompactedMember(v, level, inputs0, inputs1, outs, level, f);
    }
    forall e | e in FileEntries(v'[level]) ensures e in FileEntries(v[level]) && e !in FileEntries(inputs0) {
      var f :| f in v'[level] && e in f.entries;
      forall g | g in inputs0 && e in g.entries ensures false {
        OneHolder(v, level, f, g, e);
      }
    }
    forall e | e in FileEntries(inputs0) ensures e in FileEntries(v[level]) {
      var f :| f in inputs0 && e in f.entries;
      assert f in v[level];
    }
    InputsNotEmpty(v, level, inputs0, inputs1, outs);
  }

  lemma {:induction false} InputsNotEmpty(v: Levels, level: nat, inputs0: seq<File>, inputs1: seq<File>, outs: seq<File>)
    requires Feeds(v, level, inputs0, inputs1, outs)
    ensures FileEntries(inputs0) != {}
  {
    hide Less, Sorted, NewerLevels, NewerNumbers, DisjointLevel, Contents;
    var f := inputs0[0];
    assert f in v[level] && ValidFile(f);
    assert f in inputs0 && f.entries[0] in f.entries;
    assert f.entries[0] in FileEntries(inputs0);
  }

  lemma {:induction false} TakesIn(v: Levels, level: nat, inputs0: seq<File>, inputs1: seq<File>, outs: seq<File>, v': Levels)
    requires Feeds(v, level, inputs0, inputs1, outs) && Compacted(v, level, inputs0, inputs1, outs, v')
    ensures FileEntries(v'[level + 1]) <= FileEntries(v[level + 1]) + FileEntries(inputs0)
  {
    hide Less, Sorted, ValidVersion, ValidFile, DisjointLevel;
    forall e | e in FileEntries(v'[level + 1]) ensures e in FileEntries(v[level + 1]) || e in FileEntries(inputs0) {
      var f :| f in v'[level + 1] && e in f.entries;
      assert CompactedMember(v, level, inputs0, inputs1, outs, level + 1, f);
      if f in outs {
        assert e in ToSet(f.entries);
        if e !in FileEntries(inputs0) {
          var g :| g in inputs1 && e in g.entries;
          assert g in v[level + 1];
        }
      }
    }
  }

  lemma {:induction false} OtherLevels(v: Levels, level: nat, inputs0: seq<File>, inputs1: seq<File>, outs: seq<File>, v': Levels, l: nat)
    requires Compacted(v, level, inputs0, inputs1, outs, v') && l < NUM_LEVELS && l != level && l != level + 1
    ensures FileEntries(v'[l]) <= FileEntries(v[l])
  {
    forall e | e in FileEntries(v'[l]) ensures e in FileEntries(v[l]) {
      var f :| f in v'[l] && e in f.entries;
      assert CompactedMember(v, level, inputs0, inputs1, outs, l, f);
    }
  }

  /** A compaction lowers the backlog, whatever it drops and however its outputs are cut. */
  lemma {:induction false} CompactionLowers(v: Levels, level: nat, inputs0: seq<File>, inputs1: seq<File>, outs: seq<File>, v': Levels)
    requires Feeds(v, level, inputs0, inputs1, outs) && Compacted(v, level, inputs0, inputs1, outs, v')
    ensures Backlog(v') < Backlog(v)
  {
    hide FileEntries, ValidVersion, CompactedMember;
    GivesDown(v, level, inputs0, inputs1, outs, v');
    TakesIn(v, level, inputs0, inputs1, outs, v');
    forall l | 0 <= l < NUM_LEVELS && l != level && l != level + 1 ensures FileEntries(v'[l]) <= FileEntries(v[l]) {
      OtherLevels(v, level, inputs0, inputs1, outs, v', l);
    }
    var moved := FileEntries(inputs0);
    assert |FileEntries(v'[level]) + moved| == |FileEntries(v'[level])| + |moved|;
    SubsetIsSmaller(FileEntries(v'[level]) + moved, FileEntries(v[level]));
    SubsetIsSmaller(FileEntries(v'[level + 1]), FileEntries(v[level + 1]) + moved);
    SameFrom(v, v', level + 2);
    var w := NUM_LEVELS - level - 1;
    DownIsLess(w, |FileEntries(v[level])|, |FileEntries(v[level + 1])|, |moved|, |FileEntries(v'[level])|, |FileEntries(v'[level + 1])|);
    assert BacklogFrom(v, level) == (w + 1) * |FileEntries(v[level])| + BacklogFrom(v, level + 1);
    assert BacklogFrom(v', level) == (w + 1) * |FileEntries(v'[level])| + BacklogFrom(v', level + 1);
    LowerFrom(v, v', level, 0);
  }

  /** Every file counts. */
  lemma {:induction false} FilesCount(v: Levels, n: nat)
    requires ValidVersion(v) && n <= |v[0]|
    ensures n <= |FileEntries(v[0][..n])|
  {
    hide Less, Sorted, ValidFile, DisjointLevel, NewerLevels, NewerNumbers, UniquelyKeyed, Contents, FileEntries;
    if n > 0 {
      var init, f := v[0][..n - 1], v[0][n - 1];
      FilesCount(v, n - 1);
      assert v[0][..n] == init + [f];
      OneMoreTable(init, f);
      LastCounts(v, n);
    }
  }

  lemma {:induction false} LastCounts(v: Levels, n: nat)
    requires ValidVersion(v) && 0 < n <= |v[0]|
    ensures |FileEntries(v[0][..n - 1]) + ToSet(v[0][n - 1].entries)| > |FileEntries(v[0][..n - 1])|
  {
    hide Less, Sorted, NewerLevels, NewerNumbers, UniquelyKeyed, Contents;
    var init, f := v[0][..n - 1], v[0][n - 1];
    assert f in v[0] && ValidFile(f);
    var e := f.entries[0];
    assert e !in FileEntries(init) by {
      forall g | g in init && e in g.entries ensures false {
        OneHolder(v, 0, g, f, e);
        var i :| 0 <= i < n - 1 && v[0][i] == g;
        NotTwice(v, i, n - 1);
      }
    }
    SubsetIsSmaller(FileEntries(init) + {e}, FileEntries(init) + ToSet(f.entries));
  }

  lemma {:induction false} NotTwice(v: Levels, i: nat, j: nat)
    requires ValidVersion(v) && i < j < |v[0]|
    ensures v[0][i] != v[0][j]
  {
    hide ValidFile, DisjointLevel, NewerLevels, NewerNumbers, UniquelyKeyed, Contents, BySmallest;
    assert BySmallest(v[0][i], v[0][j]);
    NotBeforeItself(v[0][i]);
  }

  /** The number of level-0 files is no more than the backlog: where there are files there is work. */
  lemma {:induction false} LevelZeroCounts(v: Levels)
    requires ValidVersion(v)
    ensures |v| == NUM_LEVELS && |v[0]| <= Backlog(v)
  {
    hide FileEntries;
    VersionUnique(v);
    FilesCount(v, |v[0]|);
    assert v[0][..|v[0]|] == v[0];
    assert BacklogFrom(v, 0) >= NUM_LEVELS * |FileEntries(v[0])|;
  }

  lemma {:induction false} EndLowers(s: Engine, v: Levels, level: nat, inputs0: seq<File>, inputs1: seq<File>, outs: seq<File>, e: Edit, s': Engine)
    requires Sound(s) && Ends(s, v, level, inputs0, inputs1, outs, e, s')
    ensures Backlog(s'.version) < Backlog(s.version)
  {
    hide Less, LevelInvariant, Listed, NextInputs, CameAfter, Contents, FileEntries, Applied, IsCompactionEdit, Compacted, LeavesRoom, UniquelyKeyed,
      Backlog;
    InputsStay(v, s.version, level, inputs0, inputs1);
    EndCompacted(v, s.version, level, inputs0, inputs1, outs, e, s'.version);
    CompactionLowers(s.version, level, inputs0, inputs1, outs, s'.version);
  }

  lemma {:induction false} StepLowers(s: Engine, ev: Event, s': Engine)
    requires Sound(s) && AllRecorded(s) && Happens(s, ev, s') && Roomy(s, ev) && (ev.Move? || ev.Compact?)
    ensures Backlog(s'.version) < Backlog(s.version)
  {
    hide Sound, AllRecorded, Ends, FromAbove, Roomy, Backlog, ValidVersion, Chosen, IsCompactionEdit, Logged, Cut;
    match ev
    case Move(level, f, e) =>
      MoveEnds(s, level, f, e, s');
      EndLowers(s, s.version, level, [f], [], [f], e, s');
    case Compact(level, inputs0, inputs1, input, smallestSnapshot, outputs, outs, e) =>
      CompactEnds(s, level, inputs0, inputs1, input, smallestSnapshot, outputs, outs, e, s');
      EndLowers(s, s.running.value.version, level, inputs0, inputs1, outs, e, s');
  }

  lemma {:induction false} BeginLeaves(s: Engine, s': Engine)
    requires ValidVersion(s.version) && Happens(s, Begin, s')
    ensures s'.version == s.version
  {
  }

  /** The compactions and moves among the events from i to j. */
  function Ended(events: seq<Event>, i: nat, j: nat): nat
    requires i <= j <= |events|
  {
    if i == j then 0 else Ended(events, i, j - 1) + if events[j - 1].Move? || events[j - 1].Compact? then 1 else 0
  }

  /** While nothing is flushed, only as many compactions and moves can end as the backlog says. */
  lemma {:induction false} CompactionsEnd(run: seq<Engine>, events: seq<Event>, i: nat, j: nat)
    requires EngineRun(run, events) && i <= j < |run|
    requires forall k :: i <= k < j ==> events[k].Move? || events[k].Compact? || events[k] == Begin
    ensures Ended(events, i, j) + Backlog(run[j].version) <= Backlog(run[i].version)
    decreases j - i
  {
    hide Sound, AllRecorded, Happens, Backlog, Roomy;
    if i < j {
      CompactionsEnd(run, events, i, j - 1);
      RunIsSound(run, events, j - 1);
      SoundIsValid(run[j - 1]);
      if events[j - 1] == Begin {
        BeginLeaves(run[j - 1], run[j]);
      } else {
        StepLowers(run[j - 1], events[j - 1], run[j]);
      }
    }
  }

  lemma {:induction false} SoundIsValid(s: Engine)
    requires Sound(s)
    ensures ValidVersion(s.version)
  {
  }
}
