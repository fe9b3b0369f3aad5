/**
 Whole runs of the engine's background work (db/db_impl.cc, db/version_set.cc): flushes, moves and compactions with
 the file numbers and sequence numbers that the engine hands out, the manifest they write, and what reads see.
 */
module EngineRuns {
  import opened Keys
  import opened Version
  import opened Lookup
  import opened Selection
  import opened DropRule
  import opened CompactionLoop
  import opened CompactionSafety
  import opened VersionBuilder
  import opened ManifestReplay
  import opened Install
  import opened MidFlush

  /**
   nextFile: above every file number handed out. savedFile: the next file number that the last edit recorded.
   lastSequence: at least every sequence number in a table. snapshots: at least every smallest snapshot that a
   compaction has used. written: every entry ever put in a table from a memtable or a log. running: what a compaction
   found when it was picked; memtables are flushed while it runs.
   */
  datatype Engine = Engine(version: Levels, nextFile: nat, savedFile: nat, lastSequence: nat, snapshots: nat,
                           manifest: seq<Edit>, written: set<Entry>, running: Option<Running>)

  datatype Running = Running(version: Levels, nextFile: nat, lastSequence: nat)

  datatype Event =
    | Flush(at: nat, table: File)
    | Move(level: nat, file: File, edit: Edit)
    | Begin
    | Compact(level: nat, inputs0: seq<File>, inputs1: seq<File>, input: seq<Entry>, smallestSnapshot: nat,
              outputs: seq<seq<Entry>>, outs: seq<File>, edit: Edit)
    | Reopen(reuse: bool, logged: bool, tables: seq<File>)

  ghost predicate UpTo(entries: set<Entry>, last: nat) {
    forall e :: e in entries ==> e.key.sequence <= last
  }

  ghost predicate NumbersBelow(v: Levels, next: nat) {
    forall l, f :: 0 <= l < |v| && f in v[l] ==> f.number < next
  }

  function NoFiles(): Levels {
    seq(NUM_LEVELS, _ => [])
  }

  /** DBImpl::NewDB: no files, and a manifest of one record without any. */
  ghost predicate Created(s: Engine) {
    && s.version == NoFiles() && s.written == {} && s.manifest == [Edit([], [])]
    && s.savedFile <= s.nextFile && s.snapshots == 0 && s.running == None
  }

  /** A table written from the immutable memtable: a new number, and later sequence numbers than any table has. */
  ghost predicate NewTable(s: Engine, f: File) {
    && ValidFile(f) && f.number >= s.nextFile && UniquelyKeyed(ToSet(f.entries))
    && forall e :: e in f.entries ==> e.key.sequence > s.lastSequence
  }

  /** Tables written from the logs in their order, under numbers that the manifest has not seen. */
  ghost predicate NewTables(s: Engine, tables: seq<File>) {
    && (forall f :: f in tables ==> NewTable(s.(nextFile := s.savedFile), f))
    && forall i, j :: 0 <= i < j < |tables| ==>
         tables[i].number < tables[j].number && NewerEntries(tables[j].entries, tables[i].entries)
  }

  /** The edit of a recovery: its tables go to level 0. */
  function TablesEdit(tables: seq<File>): Edit {
    Edit([], seq(|tables|, i requires 0 <= i < |tables| => (0, tables[i])))
  }

  /** What VersionSet::Recover makes of a manifest. */
  function Replayed(manifest: seq<Edit>): Levels {
    seq(NUM_LEVELS, l requires 0 <= l => ReplayLevel(manifest, l))
  }

  /** The manifest goes on, or a new one starts with a snapshot of the version. */
  function ManifestFor(reuse: bool, manifest: seq<Edit>): seq<Edit> {
    if reuse then manifest else [Edit([], SnapshotAdds(Replayed(manifest), NUM_LEVELS))]
  }

  /** Compaction outputs, in files whose numbers were handed out since next. */
  ghost predicate WrittenNew(next: nat, outputs: seq<seq<Entry>>, outs: seq<File>) {
    && |outs| == |outputs| && DistinctNumbers(outs)
    && (forall i :: 0 <= i < |outs| ==> outs[i].entries == outputs[i] && WrittenFile(outs[i]))
    && forall o :: o in outs ==> o.number >= next
  }

  /** No number was handed out twice. */
  ghost predicate NumbersFree(v: Levels, outs: seq<File>) {
    forall o, l, g :: o in outs && 0 <= l < |v| && g in v[l] ==> g.number != o.number
  }

  /** LogAndApply: the edit goes to the manifest and its outcome becomes the version. */
  ghost predicate Logged(s: Engine, e: Edit, s': Engine) {
    && Applied(s.version, e, s'.version) && s'.manifest == s.manifest + [e]
    && s.nextFile <= s'.nextFile && s.savedFile <= s'.savedFile <= s'.nextFile
  }

  ghost predicate Happens(s: Engine, ev: Event, s': Engine)
    requires ValidVersion(s.version)
  {
    match ev
    case Flush(at, f) =>
      && at < NUM_LEVELS && NewTable(s, f) && Logged(s, AddEdit(at, f), s')
      && (at > 0 ==> NoOverlapDownTo(s.version, at, Range(Some(f.smallest.user), Some(f.largest.user))))
      && f.number < s'.savedFile && s.lastSequence <= s'.lastSequence && UpTo(ToSet(f.entries), s'.lastSequence)
      && s'.written == s.written + ToSet(f.entries) && s'.snapshots == s.snapshots && s'.running == s.running
    case Move(level, f, e) =>
      && Chosen(s.version, level, [f], []) && IsCompactionEdit(e, level, [f], [], [f]) && Logged(s, e, s')
      && s'.lastSequence == s.lastSequence && s'.written == s.written && s'.snapshots == s.snapshots
      && s.running == None == s'.running
    case Begin => s.running == None && s' == s.(running := Some(Running(s.version, s.nextFile, s.lastSequence)))
    case Compact(level, inputs0, inputs1, input, smallestSnapshot, outputs, outs, e) =>
      && s.running.Some? && Chosen(s.running.value.version, level, inputs0, inputs1)
      && Sorted(input) && ToSet(input) == FileEntries(inputs0) + FileEntries(inputs1) && smallestSnapshot < MAX_SEQUENCE
      && Cut(outputs, [], Kept(input, smallestSnapshot, BaseTest(s.running.value.version, level), |input|))
      && WrittenNew(s.running.value.nextFile, outputs, outs) && NumbersFree(s.version, outs)
      && IsCompactionEdit(e, level, inputs0, inputs1, outs) && Logged(s, e, s') && s'.running == None
      && (forall o :: o in outs ==> o.number < s'.savedFile)
      && s'.lastSequence == s.lastSequence && s'.written == s.written
      && s.snapshots <= s'.snapshots && smallestSnapshot <= s'.snapshots
    case Reopen(reuse, logged, tables) =>
      && NewTables(s, tables) && (logged || (reuse && tables == []))
      && s'.manifest == ManifestFor(reuse, s.manifest) + (if logged then [TablesEdit(tables)] else [])
      && (if logged then Applied(Replayed(s.manifest), TablesEdit(tables), s'.version) else s'.version == Replayed(s.manifest))
      && s.savedFile <= s'.savedFile <= s'.nextFile && (forall f :: f in tables ==> f.number < s'.savedFile)
      && s.lastSequence <= s'.lastSequence && UpTo(FileEntries(tables), s'.lastSequence)
      && s'.written == s.written + FileEntries(tables) && s'.snapshots == s.snapshots && s'.running == None
  }

  // ---------------------------------------------------------------------------------------------
  // The invariant
  // ---------------------------------------------------------------------------------------------

  ghost predicate Sound(s: Engine) {
    && ValidVersion(s.version) && NumbersBelow(s.version, s.savedFile) && s.savedFile <= s.nextFile
    && UpTo(Contents(s.version), s.lastSequence) && UpTo(s.written, s.lastSequence) && UniquelyKeyed(s.written)
    && (s.running.Some? ==> SoundRunning(s, s.running.value))
  }

  /** Since a compaction was picked the version has only grown, by newer tables under newer numbers. */
  ghost predicate SoundRunning(s: Engine, r: Running) {
    && ValidVersion(r.version) && Grown(r.version, s.version)
    && NumbersBelow(r.version, r.nextFile) && r.nextFile <= s.nextFile
    && UpTo(Contents(r.version), r.lastSequence) && r.lastSequence <= s.lastSequence
    && forall l, f :: 0 <= l < |s.version| && f in s.version[l] ==> InOrSince(r, l, f)
  }

  ghost predicate InOrSince(r: Running, l: nat, f: File) {
    (l < |r.version| && f in r.version[l]) || (f.number >= r.nextFile && forall e :: e in f.entries ==> e.key.sequence > r.lastSequence)
  }

  /** A file never goes up: a number once added to a level is at that level or further down. */
  ghost predicate GoesDown(s: Engine, l: nat) {
    forall m, f :: 0 <= m < |s.version| && f in s.version[m] && f.number in EverAdded(s.manifest, l) ==> l <= m
  }

  /** The manifest gives the level's list, under numbers that were each added once. */
  ghost predicate Recorded(s: Engine, l: nat)
    requires l < |s.version|
  {
    && NeverReadded(s.manifest, l) && LiveLevel(s.manifest, l) == s.version[l]
    && (forall n :: n in EverAdded(s.manifest, l) ==> n < s.savedFile) && GoesDown(s, l)
  }

  /** Whatever was added since a compaction was picked is still in the version. */
  ghost predicate StillThere(s: Engine, l: nat)
    requires l < |s.version|
  {
    s.running.Some? ==>
      forall n :: n in EverAdded(s.manifest, l) ==> n < s.running.value.nextFile || exists f :: f in s.version[l] && f.number == n
  }

  ghost predicate AllRecorded(s: Engine) {
    |s.version| == NUM_LEVELS && forall l :: 0 <= l < NUM_LEVELS ==> Recorded(s, l) && StillThere(s, l)
  }

  // ---------------------------------------------------------------------------------------------
  // Opening
  // ---------------------------------------------------------------------------------------------

  lemma {:induction false} NumbersDiffer(v: Levels, l: nat)
    requires ValidVersion(v) && l < |v|
    ensures DistinctNumbers(v[l]) && Listed(v[l]) && |v| == NUM_LEVELS
  {
    hide Less, NewerEntries, ValidFile;
    forall i, j | 0 <= i < j < |v[l]| ensures v[l][i].number != v[l][j].number {
      assert BySmallest(v[l][i], v[l][j]) && v[l][i] in v[l] && v[l][j] in v[l];
      NotBeforeItself(v[l][i]);
    }
  }

  lemma {:induction false} NotBeforeItself(f: File)
    ensures !BySmallest(f, f)
  {
  }

  /** A new manifest records the version it starts with. */
  lemma {:induction false} SnapshotIsRecorded(s: Engine, l: nat)
    requires ValidVersion(s.version) && NumbersBelow(s.version, s.savedFile) && |s.version| == NUM_LEVELS
    requires s.manifest == [Edit([], SnapshotAdds(s.version, NUM_LEVELS))] && l < NUM_LEVELS
    ensures Recorded(s, l)
  {
    hide BySmallest, LevelInvariant, Listed, AppliedLevel, LiveLevel, DistinctNumbers, DistinctAt, NeverReadded, Contents, UniquelyKeyed;
    VersionUnique(s.version);
    NumbersDiffer(s.version, l);
    var e := Edit([], SnapshotAdds(s.version, NUM_LEVELS));
    SnapshotMembers(s.version, NUM_LEVELS, l);
    SnapshotRestores(s.version, l);
    OneEdit(e, l);
    ReplayIsLive([e], l);
    forall n | n in NumbersAt(l, e.added) ensures exists f :: f in s.version[l] && f.number == n {
      var a :| a in e.added && a.0 == l && a.1.number == n;
      assert (l, a.1) in e.added;
    }
  }

  lemma {:induction false} OneEdit(e: Edit, l: nat)
    requires DistinctAt(l, e.added)
    ensures NeverReadded([e], l) && EverAdded([e], l) == NumbersAt(l, e.added)
  {
    assert [e][..0] == [];
    assert NeverReadded([e][..0], l) && EverAdded([e][..0], l) == {};
  }

  lemma {:induction false} CreatedIsSound(s: Engine)
    requires Created(s)
    ensures Sound(s) && AllRecorded(s) && s.written == Contents(s.version)
  {
    hide Less;
    assert Contents(s.version) == {};
    forall l | 0 <= l < NUM_LEVELS ensures Recorded(s, l) {
      EmptyRecord(l);
    }
  }

  lemma {:induction false} EmptyRecord(l: nat)
    ensures NeverReadded([Edit([], [])], l) && EverAdded([Edit([], [])], l) == {} && LiveLevel([Edit([], [])], l) == []
  {
    var e := Edit([], []);
    OneEdit(e, l);
    Unfold([], e, l);
    assert [] + [e] == [e];
    AppliedMembers([], e, l);
    var now := AppliedLevel([], e, l);
    assert FileSet(now) == FileSet([]);
    ListedUnique(now, []);
  }

  // ---------------------------------------------------------------------------------------------
  // Steps
  // ---------------------------------------------------------------------------------------------

  /** What a flush assumes of its table follows from the numbers that were handed out. */
  lemma {:induction false} NewTableIsFresh(s: Engine, f: File)
    requires Sound(s) && NewTable(s, f)
    ensures FreshTable(s.version, f)
  {
    hide Less, Sorted, ValidVersion;
    forall l, g | 0 <= l < |s.version| && g in s.version[l] ensures NewerEntries(f.entries, g.entries) && g.number < f.number {
      forall d, e | d in f.entries && e in g.entries ensures d.key.sequence > e.key.sequence {
        assert e in Contents(s.version);
      }
    }
    VersionUnique(s.version);
    JoinUnique(Contents(s.version), ToSet(f.entries), s.lastSequence);
  }

  lemma {:induction false} VersionUnique(v: Levels)
    requires ValidVersion(v)
    ensures UniquelyKeyed(Contents(v)) && LevelInvariant(v) && |v| == NUM_LEVELS
  {
  }

  lemma {:induction false} JoinUnique(E: set<Entry>, F: set<Entry>, last: nat)
    requires UniquelyKeyed(E) && UniquelyKeyed(F) && UpTo(E, last) && forall e :: e in F ==> e.key.sequence > last
    ensures UniquelyKeyed(E + F)
  {
  }

  /** New outputs are outputs of the loop in files that no other file shares a number with. */
  lemma {:induction false} NewOutputs(v: Levels, next: nat, level: nat, inputs0: seq<File>, inputs1: seq<File>, input: seq<Entry>,
                                      smallestSnapshot: nat, outputs: seq<seq<Entry>>, outs: seq<File>)
    requires NumbersBelow(v, next) && Chosen(v, level, inputs0, inputs1)
    requires Sorted(input) && ToSet(input) == FileEntries(inputs0) + FileEntries(inputs1)
    requires Cut(outputs, [], Kept(input, smallestSnapshot, BaseTest(v, level), |input|)) && WrittenNew(next, outputs, outs)
    ensures ValidOutputs(v, inputs0, inputs1, outs)
    ensures FileEntries(outs) == ToSet(Kept(input, smallestSnapshot, BaseTest(v, level), |input|))
    ensures Arranged(OnDisk(v), level, inputs0, inputs1, input)
  {
    hide Less, Sorted, ValidVersion, Kept, Cut, Choice, NextInputs, ValidFile, Contents;
    ArrangedOnDisk(v, level, inputs0, inputs1, input);
    ArrangedIsAll(OnDisk(v), level, inputs0, inputs1, input);
    LoopOutputsValid(v, inputs0, inputs1, input, smallestSnapshot, BaseTest(v, level), outputs, outs);
  }

  /** The database without memtables. */
  ghost function OnDisk(v: Levels): Database {
    Database([], None, v)
  }

  lemma {:induction false} ArrangedOnDisk(v: Levels, level: nat, inputs0: seq<File>, inputs1: seq<File>, input: seq<Entry>)
    requires Chosen(v, level, inputs0, inputs1)
    requires Sorted(input) && ToSet(input) == FileEntries(inputs0) + FileEntries(inputs1)
    ensures Arranged(OnDisk(v), level, inputs0, inputs1, input) && OnDisk(v).All() == Contents(v)
  {
    hide Less, Choice, NextInputs, DisjointLevel, NewerLevels, NewerNumbers, ValidFile, Contents, FileEntries;
    VersionUnique(v);
    assert OnDisk(v).All() == Contents(v);
  }

  /** Moved files keep their numbers, and no other file has them. */
  lemma {:induction false} MovedOutputs(s: Engine, level: nat, f: File)
    requires Sound(s) && Chosen(s.version, level, [f], [])
    ensures ValidOutputs(s.version, [f], [], [f])
    ensures FileEntries([f]) + Contents(Remaining(s.version, level, [f], [])) == Contents(s.version)
  {
    TrivialMoveValid(s.version, level, f);
  }

  /** A compaction or move picked on v ends; what was flushed meanwhile has room. */
  ghost predicate Ends(s: Engine, v: Levels, level: nat, inputs0: seq<File>, inputs1: seq<File>, outs: seq<File>, e: Edit, s': Engine) {
    && EndsOn(v, s.version, level, inputs0, inputs1, outs, e, s'.version) && Logged(s, e, s')
    && (forall o :: o in outs ==> o.number < s'.savedFile)
    && s'.lastSequence == s.lastSequence && s'.written == s.written && s'.running == None
    && |v| == |s.version| == NUM_LEVELS && level + 1 < NUM_LEVELS && LeavesRoom(v, s.version, level, outs)
  }

  /** The version after a step is valid, below the new bounds. */
  lemma {:induction false} EndedIsSound(s: Engine, v: Levels, level: nat, inputs0: seq<File>, inputs1: seq<File>, outs: seq<File>, e: Edit, s': Engine)
    requires Sound(s) && Ends(s, v, level, inputs0, inputs1, outs, e, s')
    ensures Sound(s') && Contents(s'.version) == FileEntries(outs) + Contents(Remaining(s.version, level, inputs0, inputs1))
  {
    hide Less, ValidVersion, ValidOutputs, Chosen, IsCompactionEdit, Applied, Remaining, UniquelyKeyed, Grown, LeavesRoom, Contents;
    EndIsValidIff(v, s.version, level, inputs0, inputs1, outs, e, s'.version);
    EndContents(v, s.version, level, inputs0, inputs1, outs, e, s'.version);
    EndedNumbers(s, v, level, inputs0, inputs1, outs, e, s');
  }

  lemma {:induction false} EndedNumbers(s: Engine, v: Levels, level: nat, inputs0: seq<File>, inputs1: seq<File>, outs: seq<File>, e: Edit, s': Engine)
    requires Sound(s) && Ends(s, v, level, inputs0, inputs1, outs, e, s')
    ensures NumbersBelow(s'.version, s'.savedFile)
  {
    hide Less, LevelInvariant, Listed, ValidOutputs, Choice, NextInputs, IsCompactionEdit, Applied, CameAfter, LeavesRoom, Contents, UniquelyKeyed;
    SizeOf(v, s.version, level, inputs0, inputs1, outs, e, s'.version);
    forall l, g | 0 <= l < |s'.version| && g in s'.version[l] ensures g.number < s'.savedFile {
      EndMembers(v, s.version, level, inputs0, inputs1, outs, e, s'.version, l);
      assert g in s.version[l] || g in outs;
    }
  }

  lemma {:induction false} SmallerContents(v: Levels, level: nat, inputs0: seq<File>, inputs1: seq<File>, outs: seq<File>)
    requires Chosen(v, level, inputs0, inputs1) && ValidOutputs(v, inputs0, inputs1, outs)
    ensures FileEntries(outs) + Contents(Remaining(v, level, inputs0, inputs1)) <= Contents(v)
  {
    InputsInVersion(v, level, inputs0, inputs1);
    OutputContents(v, level, inputs0, inputs1, outs);
    RemainingContents(v, level, inputs0, inputs1);
  }

  lemma {:induction false} FlushIsSound(s: Engine, at: nat, f: File, s': Engine)
    requires Sound(s) && Happens(s, Event.Flush(at, f), s')
    ensures Sound(s') && Contents(s'.version) == Contents(s.version) + ToSet(f.entries)
  {
    hide Less, Sorted, ValidVersion, UniquelyKeyed, NoOverlapDownTo, Contents, Applied;
    NewTableIsFresh(s, f);
    FlushKeepsInvariant(s.version, at, f, s'.version);
    FlushIsPlus(s.version, at, f, s'.version);
    FlushedNumbers(s.version, at, f, s'.version, s'.savedFile);
    JoinUnique(s.written, ToSet(f.entries), s.lastSequence);
    if s.running.Some? {
      FlushKeepsRunning(s, at, f, s');
    }
  }

  lemma {:induction false} FlushKeepsRunning(s: Engine, at: nat, f: File, s': Engine)
    requires Sound(s) && Happens(s, Event.Flush(at, f), s') && s.running.Some?
    ensures SoundRunning(s', s.running.value)
  {
    hide Less, Sorted, ValidVersion, UniquelyKeyed, NoOverlapDownTo, Contents, Applied, Grown, ValidFile;
    var r := s.running.value;
    NewTableIsFresh(s, f);
    FlushGrows(r.version, s.version, at, f, s'.version);
    FlushIsPlus(s.version, at, f, s'.version);
    forall l, g | 0 <= l < |s'.version| && g in s'.version[l] ensures InOrSince(r, l, g) {
      if g in s.version[l] {
        assert InOrSince(r, l, g);
      }
    }
  }

  lemma {:induction false} BeginIsSound(s: Engine, s': Engine)
    requires Sound(s) && AllRecorded(s) && Happens(s, Begin, s')
    ensures Sound(s') && AllRecorded(s')
  {
    hide Less, ValidVersion, UniquelyKeyed, Contents, Grown, GoesDown, NeverReadded, LiveLevel, EverAdded;
    NotGrown(s.version);
    forall l, g | 0 <= l < |s.version| && g in s.version[l] ensures InOrSince(s'.running.value, l, g) {
    }
    forall l | 0 <= l < NUM_LEVELS ensures Recorded(s', l) && StillThere(s', l) {
      assert Recorded(s, l);
      assert GoesDown(s', l) by { SameDown(s, s', l); }
    }
  }

  lemma {:induction false} SameDown(s: Engine, s': Engine, l: nat)
    requires GoesDown(s, l) && s'.version == s.version && s'.manifest == s.manifest
    ensures GoesDown(s', l)
  {
  }

  lemma {:induction false} FlushedNumbers(v: Levels, at: nat, f: File, v': Levels, next: nat)
    requires Plus(v, at, f, v') && NumbersBelow(v, next) && f.number < next
    ensures NumbersBelow(v', next)
  {
  }

  // ---------------------------------------------------------------------------------------------
  // The manifest
  // ---------------------------------------------------------------------------------------------

  /** The level's list after one more edit, if its additions are new to the level. */
  lemma {:induction false} LoggedIsRecorded(s: Engine, e: Edit, s': Engine, l: nat)
    requires l < |s.version| == NUM_LEVELS && Recorded(s, l) && Logged(s, e, s')
    requires DistinctAt(l, e.added) && NumbersAt(l, e.added) !! EverAdded(s.manifest, l)
    requires forall n :: n in NumbersAt(l, e.added) ==> n < s'.savedFile
    requires GoesDown(s', l)
    ensures l < |s'.version| && Recorded(s', l)
  {
    hide AppliedLevel, LiveLevel, NumbersAt, DistinctAt, GoesDown;
    assert (s.manifest + [e])[..|s.manifest|] == s.manifest;
    Unfold(s.manifest, e, l);
  }

  lemma {:induction false} EverUnfolds(init: seq<Edit>, e: Edit, l: nat)
    ensures EverAdded(init + [e], l) == EverAdded(init, l) + NumbersAt(l, e.added)
  {
    assert (init + [e])[..|init|] == init;
  }

  lemma {:induction false} FlushIsRecorded(s: Engine, at: nat, f: File, s': Engine, l: nat)
    requires Sound(s) && AllRecorded(s) && Happens(s, Event.Flush(at, f), s') && l < NUM_LEVELS
    ensures l < |s'.version| && Recorded(s', l)
  {
    hide Less, ValidFile, NewerEntries, Sorted, LevelInvariant, NoOverlapDownTo, LiveLevel, NeverReadded, AppliedLevel, Contents;
    var e := AddEdit(at, f);
    NewTableIsFresh(s, f);
    FlushIsPlus(s.version, at, f, s'.version);
    EverUnfolds(s.manifest, e, l);
    assert Recorded(s, l);
    assert e.added == [(at, f)];
    assert NumbersAt(l, e.added) == if l == at then {f.number} else {} by {
      assert (at, f) in e.added;
    }
    forall m, g | 0 <= m < |s'.version| && g in s'.version[m] && g.number in EverAdded(s'.manifest, l) ensures l <= m {
      if g in s.version[m] {
        assert g.number < s.savedFile;
      }
    }
    LoggedIsRecorded(s, e, s', l);
  }

  /** The numbers of the outputs have been added to levels above the output level only, if at all. */
  ghost predicate FromAbove(s: Engine, level: nat, outs: seq<File>) {
    forall o, l: nat :: o in outs && l < NUM_LEVELS && o.number in EverAdded(s.manifest, l) ==> l <= level
  }

  lemma {:induction false} EndedIsRecorded(s: Engine, v: Levels, level: nat, inputs0: seq<File>, inputs1: seq<File>, outs: seq<File>, e: Edit,
                                           s': Engine, l: nat)
    requires Sound(s) && AllRecorded(s) && l < NUM_LEVELS && Ends(s, v, level, inputs0, inputs1, outs, e, s') && FromAbove(s, level, outs)
    ensures l < |s'.version| && Recorded(s', l)
  {
    hide Less, ValidFile, ValidVersion, LiveLevel, NeverReadded, AppliedLevel, Contents, Chosen, Applied, LeavesRoom, ValidOutputs, EverAdded;
    EverUnfolds(s.manifest, e, l);
    AddedNumbersOf(level, inputs0, inputs1, outs, e, l);
    assert Recorded(s, l);
    forall m, g | 0 <= m < |s'.version| && g in s'.version[m] && g.number in EverAdded(s'.manifest, l) ensures l <= m {
      DownAgain(s, v, level, inputs0, inputs1, outs, e, s', l, m, g);
    }
    LoggedIsRecorded(s, e, s', l);
  }

  lemma {:induction false} AddedNumbersOf(level: nat, inputs0: seq<File>, inputs1: seq<File>, outs: seq<File>, e: Edit, l: nat)
    requires IsCompactionEdit(e, level, inputs0, inputs1, outs)
    ensures forall n :: n in NumbersAt(l, e.added) <==> l == level + 1 && exists o :: o in outs && o.number == n
    ensures DistinctAt(l, e.added)
  {
    forall a | a in e.added ensures a.0 == level + 1 && a.1 in outs {
      assert (a.0, a.1) in e.added;
    }
    forall o | o in outs ensures (level + 1, o) in e.added {
    }
    forall n | l == level + 1 && exists o :: o in outs && o.number == n ensures n in NumbersAt(l, e.added) {
      var o :| o in outs && o.number == n;
      assert (level + 1, o) in e.added;
    }
  }

  lemma {:induction false} DownAgain(s: Engine, v: Levels, level: nat, inputs0: seq<File>, inputs1: seq<File>, outs: seq<File>, e: Edit,
                                     s': Engine, l: nat, m: nat, g: File)
    requires Sound(s) && AllRecorded(s) && l < NUM_LEVELS && Ends(s, v, level, inputs0, inputs1, outs, e, s') && FromAbove(s, level, outs)
    requires m < |s'.version| && g in s'.version[m]
    requires g.number in EverAdded(s.manifest, l) || (l == level + 1 && exists o :: o in outs && o.number == g.number)
    ensures l <= m
  {
    hide Less, ValidFile, LevelInvariant, LiveLevel, NeverReadded, Contents, Listed, EverAdded, ValidOutputs, Choice, NextInputs, CameAfter,
      IsCompactionEdit, Applied, LeavesRoom;
    assert Recorded(s, l);
    SizeOf(v, s.version, level, inputs0, inputs1, outs, e, s'.version);
    EndMembers(v, s.version, level, inputs0, inputs1, outs, e, s'.version, m);
    InputsStay(v, s.version, level, inputs0, inputs1);
    if !(m == level + 1 && g in outs) {
      assert g in s.version[m];
      if g.number !in EverAdded(s.manifest, l) {
        assert g !in inputs0 by {
          if g in inputs0 {
            OneLevel(s.version, level, m, g);
          }
        }
      }
    }
  }

  /** What was flushed while a compaction ran has room beside its outputs. NoGapLeavesRoom gives this for inputs without a gap. */
  ghost predicate Roomy(s: Engine, ev: Event) {
    ev.Compact? && s.running.Some? && ev.level + 1 < NUM_LEVELS && |s.running.value.version| == |s.version| == NUM_LEVELS ==>
      LeavesRoom(s.running.value.version, s.version, ev.level, ev.outs)
  }

  lemma {:induction false} MoveEnds(s: Engine, level: nat, f: File, e: Edit, s': Engine)
    requires Sound(s) && AllRecorded(s) && Happens(s, Move(level, f, e), s')
    ensures Ends(s, s.version, level, [f], [], [f], e, s') && FromAbove(s, level, [f])
  {
    hide Less, LevelInvariant, Listed, UniquelyKeyed, Contents, Choice, NextInputs, IsCompactionEdit, Applied, ValidOutputs, Grown, LiveLevel,
      NeverReadded, EverAdded, SoundRunning;
    MovedOutputs(s, level, f);
    MovedNumber(s, level, f);
    NotGrown(s.version);
    NumbersOfMoved(s, level, f);
    forall o, l: nat | o in [f] && l < NUM_LEVELS && o.number in EverAdded(s.manifest, l) ensures l <= level {
      InputsInVersion(s.version, level, [f], []);
      assert f in [f] && Recorded(s, l);
    }
  }

  lemma {:induction false} NumbersOfMoved(s: Engine, level: nat, f: File)
    requires ValidOutputs(s.version, [f], [], [f])
    ensures NumbersNew(s.version, [f], [f])
  {
  }

  lemma {:induction false} CompactEnds(s: Engine, level: nat, inputs0: seq<File>, inputs1: seq<File>, input: seq<Entry>, smallestSnapshot: nat,
                                       outputs: seq<seq<Entry>>, outs: seq<File>, e: Edit, s': Engine)
    requires Sound(s) && AllRecorded(s) && Happens(s, Event.Compact(level, inputs0, inputs1, input, smallestSnapshot, outputs, outs, e), s')
    requires Roomy(s, Event.Compact(level, inputs0, inputs1, input, smallestSnapshot, outputs, outs, e))
    ensures Ends(s, s.running.value.version, level, inputs0, inputs1, outs, e, s') && FromAbove(s, level, outs)
  {
    hide Less, Sorted, LevelInvariant, Listed, UniquelyKeyed, Contents, Choice, NextInputs, IsCompactionEdit, Applied, ValidOutputs, Grown, LiveLevel,
      NeverReadded, EverAdded, Kept, Cut, LeavesRoom, FileEntries;
    var r := s.running.value;
    NewOutputs(r.version, r.nextFile, level, inputs0, inputs1, input, smallestSnapshot, outputs, outs);
    InputsStay(r.version, s.version, level, inputs0, inputs1);
    forall o, l: nat | o in outs && l < NUM_LEVELS ensures o.number !in EverAdded(s.manifest, l) {
      assert StillThere(s, l);
    }
  }

  // ---------------------------------------------------------------------------------------------
  // Reopening
  // ---------------------------------------------------------------------------------------------

  ghost predicate AllFresh(v: Levels, tables: seq<File>) {
    && (forall f :: f in tables ==> FreshTable(v, f))
    && forall i, j :: 0 <= i < j < |tables| ==>
         tables[i].number < tables[j].number && NewerEntries(tables[j].entries, tables[i].entries)
  }

  ghost predicate JoinedMember(v: Levels, tables: seq<File>, l: nat, g: File)
    requires l < |v|
  {
    g in v[l] || (l == 0 && g in tables)
  }

  /** v' holds the files of v, and the tables at level 0. */
  ghost predicate PlusAll(v: Levels, tables: seq<File>, v': Levels) {
    && |v| == |v'| == NUM_LEVELS
    && forall l, g :: 0 <= l < NUM_LEVELS ==> (g in v'[l] <==> JoinedMember(v, tables, l, g))
  }

  lemma {:induction false} TablesEditAdds(tables: seq<File>, l: nat)
    requires forall i, j :: 0 <= i < j < |tables| ==> tables[i].number < tables[j].number
    ensures DistinctAt(l, TablesEdit(tables).added)
    ensures forall g :: (l, g) in TablesEdit(tables).added <==> l == 0 && g in tables
    ensures forall n :: n in NumbersAt(l, TablesEdit(tables).added) <==> l == 0 && exists g :: g in tables && g.number == n
  {
    var added := TablesEdit(tables).added;
    forall g ensures (l, g) in added <==> l == 0 && g in tables {
      if l == 0 && g in tables {
        var i :| 0 <= i < |tables| && tables[i] == g;
        assert added[i] == (l, g);
      }
    }
    forall n ensures n in NumbersAt(l, added) <==> l == 0 && exists g :: g in tables && g.number == n {
      if n in NumbersAt(l, added) {
        var a :| a in added && a.0 == l && a.1.number == n;
        assert (l, a.1) in added;
      }
      if g :| l == 0 && g in tables && g.number == n {
        assert (l, g) in added;
      }
    }
  }

  lemma {:induction false} TablesMembers(v: Levels, tables: seq<File>, v': Levels)
    requires ValidVersion(v) && AllFresh(v, tables) && Applied(v, TablesEdit(tables), v')
    ensures PlusAll(v, tables, v') && forall l :: 0 <= l < NUM_LEVELS ==> Listed(v'[l])
  {
    hide Less, LevelInvariant, AppliedLevel, NewerEntries, ValidFile, UniquelyKeyed, Contents, TablesEdit, Listed;
    forall l | 0 <= l < NUM_LEVELS
      ensures Listed(v'[l]) && forall g :: g in v'[l] <==> JoinedMember(v, tables, l, g)
    {
      var e := TablesEdit(tables);
      TablesEditAdds(tables, l);
      NoDeletions(tables, l);
      AppliedMembers(v[l], e, l);
    }
  }

  lemma {:induction false} NoDeletions(tables: seq<File>, l: nat)
    ensures DeletedAt(l, TablesEdit(tables).deleted) == {}
  {
  }

  /** Levels are determined by their files. */
  lemma {:induction false} SameLevels(v: Levels, w: Levels)
    requires |v| == |w| && forall l :: 0 <= l < |v| ==> Listed(v[l]) && Listed(w[l])
    requires forall l, g :: 0 <= l < |v| ==> (g in v[l] <==> g in w[l])
    ensures v == w
  {
    hide Listed;
    forall l | 0 <= l < |v| ensures v[l] == w[l] {
      assert FileSet(v[l]) == FileSet(w[l]);
      ListedUnique(v[l], w[l]);
    }
  }

  /** The tables of a recovery come in as if flushed one after the other. */
  lemma {:induction false} TablesJoin(v: Levels, tables: seq<File>, v': Levels)
    requires ValidVersion(v) && AllFresh(v, tables) && Applied(v, TablesEdit(tables), v')
    ensures ValidVersion(v') && Contents(v') == Contents(v) + FileEntries(tables)
    decreases |tables|
  {
    hide Less, LevelInvariant, AppliedLevel, NewerEntries, ValidFile, UniquelyKeyed, Contents, FreshTable, Listed, FileEntries, TablesEdit;
    TablesMembers(v, tables, v');
    VersionUnique(v);
    if tables == [] {
      forall l, g | 0 <= l < |v| ensures g in v[l] <==> g in v'[l] {
        assert JoinedMember(v, tables, l, g) <==> g in v[l];
      }
      SameLevels(v, v');
      NoEntries();
    } else {
      var init, f := tables[..|tables| - 1], tables[|tables| - 1];
      assert tables == init + [f];
      var v1: Levels := seq(NUM_LEVELS, l requires 0 <= l < NUM_LEVELS => AppliedLevel(v[l], TablesEdit(init), l));
      FreshWithoutLast(v, init, f);
      TablesJoin(v, init, v1);
      TablesMembers(v, init, v1);
      LastJoins(v, init, f, v1, v');
      OneMoreTable(init, f);
    }
  }

  lemma {:induction false} FreshWithoutLast(v: Levels, init: seq<File>, f: File)
    requires AllFresh(v, init + [f])
    ensures AllFresh(v, init)
  {
    hide FreshTable, NewerEntries;
    var all := init + [f];
    forall g | g in init ensures FreshTable(v, g) {
      assert g in all;
    }
    forall i, j | 0 <= i < j < |init| ensures init[i].number < init[j].number && NewerEntries(init[j].entries, init[i].entries) {
      assert all[i] == init[i] && all[j] == init[j];
    }
  }

  lemma {:induction false} LastJoins(v: Levels, init: seq<File>, f: File, v1: Levels, v': Levels)
    requires ValidVersion(v) && AllFresh(v, init + [f]) && PlusAll(v, init, v1) && ValidVersion(v1)
    requires PlusAll(v, init + [f], v') && forall l :: 0 <= l < NUM_LEVELS ==> Listed(v'[l])
    ensures ValidVersion(v') && Contents(v') == Contents(v1) + ToSet(f.entries)
  {
    hide Less, LevelInvariant, AppliedLevel, NewerEntries, ValidFile, UniquelyKeyed, Contents, FreshTable, Listed, AllFresh;
    VersionUnique(v1);
    var v2: Levels := seq(NUM_LEVELS, l requires 0 <= l < NUM_LEVELS => AppliedLevel(v1[l], AddEdit(0, f), l));
    LastIsFresh(v, init, f, v1);
    FlushKeepsInvariant(v1, 0, f, v2);
    FlushIsPlus(v1, 0, f, v2);
    forall l, g | 0 <= l < |v2| ensures g in v2[l] <==> g in v'[l] {
      assert JoinedMember(v, init + [f], l, g) <==> JoinedMember(v, init, l, g) || (l == 0 && g == f);
    }
    SameLevels(v2, v');
  }

  lemma {:induction false} NoEntries()
    ensures FileEntries([]) == {}
  {
  }

  lemma {:induction false} OneMoreTable(init: seq<File>, f: File)
    ensures FileEntries(init + [f]) == FileEntries(init) + ToSet(f.entries)
  {
    forall e ensures e in FileEntries(init + [f]) <==> e in FileEntries(init) || e in f.entries {
      if e in FileEntries(init + [f]) {
        var g :| g in init + [f] && e in g.entries;
      }
      if e in FileEntries(init) {
        var g :| g in init && e in g.entries;
        assert g in init + [f];
      }
      assert f in init + [f];
    }
  }

  lemma {:induction false} LastIsFresh(v: Levels, init: seq<File>, f: File, v1: Levels)
    requires ValidVersion(v) && AllFresh(v, init + [f]) && PlusAll(v, init, v1) && ValidVersion(v1)
    ensures FreshTable(v1, f)
  {
    hide Less, LevelInvariant, ValidFile, Listed;
    var all := init + [f];
    assert f in all && FreshTable(v, f);
    forall l, g | 0 <= l < |v1| && g in v1[l] ensures NewerEntries(f.entries, g.entries) && g.number < f.number {
      assert JoinedMember(v, init, l, g);
      if g !in v[l] {
        var i :| 0 <= i < |init| && init[i] == g;
        assert all[i] == g && all[|init|] == f;
      }
    }
    SubsetUniquelyKeyed(ToSet(f.entries), Contents(v) + ToSet(f.entries));
    VersionUnique(v1);
    NewerJoin(v1, f);
  }

  lemma {:induction false} NewerJoin(v: Levels, f: File)
    requires UniquelyKeyed(Contents(v)) && UniquelyKeyed(ToSet(f.entries))
    requires forall l, g :: 0 <= l < |v| && g in v[l] ==> NewerEntries(f.entries, g.entries)
    ensures UniquelyKeyed(Contents(v) + ToSet(f.entries))
  {
    forall d, e | d in f.entries && e in Contents(v) && d.key.user == e.key.user ensures d.key.sequence > e.key.sequence {
      var l: nat, g: File :| 0 <= l < |v| && g in v[l] && e in g.entries;
      assert NewerEntries(f.entries, g.entries);
    }
  }

  // The step.

  lemma {:induction false} ReplayedIsVersion(s: Engine)
    requires Sound(s) && AllRecorded(s)
    ensures Replayed(s.manifest) == s.version
  {
    hide Sound, LiveLevel, ReplayLevel, NeverReadded;
    forall l | 0 <= l < NUM_LEVELS ensures ReplayLevel(s.manifest, l) == s.version[l] {
      assert Recorded(s, l);
      ReplayIsLive(s.manifest, l);
    }
  }

  lemma {:induction false} NewTablesAreFresh(s: Engine, tables: seq<File>)
    requires Sound(s) && NewTables(s, tables)
    ensures AllFresh(s.version, tables)
  {
    hide ValidVersion, ValidFile, FreshTable, NewerEntries, UniquelyKeyed;
    var t := s.(nextFile := s.savedFile, running := None);
    forall f | f in tables ensures FreshTable(s.version, f) {
      NewTableIsFresh(t, f);
    }
  }

  lemma {:induction false} NewTablesUnique(s: Engine, tables: seq<File>)
    requires NewTables(s, tables)
    ensures UniquelyKeyed(FileEntries(tables)) && forall e :: e in FileEntries(tables) ==> e.key.sequence > s.lastSequence
  {
    hide Less, ValidFile, NewerEntries;
    forall d, e | d in FileEntries(tables) && e in FileEntries(tables) && d.key.user == e.key.user && d.key.sequence == e.key.sequence
      ensures d == e
    {
      var f :| f in tables && d in f.entries;
      var g :| g in tables && e in g.entries;
      var i :| 0 <= i < |tables| && tables[i] == f;
      var j :| 0 <= j < |tables| && tables[j] == g;
      assert NewTable(s.(nextFile := s.savedFile), f);
      if i < j {
        LaterIsNewer(s, tables, i, j, d, e);
      } else if j < i {
        LaterIsNewer(s, tables, j, i, e, d);
      } else {
        assert d in ToSet(f.entries) && e in ToSet(f.entries);
      }
    }
  }

  lemma {:induction false} LaterIsNewer(s: Engine, tables: seq<File>, i: nat, j: nat, d: Entry, e: Entry)
    requires NewTables(s, tables) && i < j < |tables| && d in tables[i].entries && e in tables[j].entries && d.key.user == e.key.user
    ensures d.key.sequence < e.key.sequence
  {
    assert NewerEntries(tables[j].entries, tables[i].entries);
  }

  lemma {:induction false} ReopenIsSound(s: Engine, reuse: bool, logged: bool, tables: seq<File>, s': Engine)
    requires Sound(s) && AllRecorded(s) && Happens(s, Reopen(reuse, logged, tables), s')
    ensures Sound(s') && Contents(s'.version) == Contents(s.version) + FileEntries(tables)
    ensures PlusAll(s.version, tables, s'.version)
  {
    hide ValidVersion, UniquelyKeyed, Contents, FileEntries, Applied, NewTables, AllFresh, Recorded, TablesEdit, Replayed;
    ReplayedIsVersion(s);
    NewTablesAreFresh(s, tables);
    NewTablesUnique(s, tables);
    if logged {
      TablesJoin(s.version, tables, s'.version);
      TablesMembers(s.version, tables, s'.version);
    } else {
      NoEntries();
    }
    PlusAllNumbers(s.version, tables, s'.version, s'.savedFile);
    JoinUnique(s.written, FileEntries(tables), s.lastSequence);
  }

  lemma {:induction false} PlusAllNumbers(v: Levels, tables: seq<File>, v': Levels, next: nat)
    requires PlusAll(v, tables, v') && NumbersBelow(v, next) && forall f :: f in tables ==> f.number < next
    ensures NumbersBelow(v', next)
  {
  }

  lemma {:induction false} ReopenIsRecorded(s: Engine, reuse: bool, logged: bool, tables: seq<File>, s': Engine, l: nat)
    requires Sound(s) && AllRecorded(s) && Happens(s, Reopen(reuse, logged, tables), s') && l < NUM_LEVELS
    ensures l < |s'.version| && Recorded(s', l)
  {
    hide LevelInvariant, Listed, UniquelyKeyed, Contents, FileEntries, Applied, LiveLevel, NeverReadded, EverAdded, TablesEdit, Replayed;
    ReopenIsSound(s, reuse, logged, tables, s');
    ReplayedIsVersion(s);
    var base := s.(manifest := ManifestFor(reuse, s.manifest), nextFile := s.savedFile);
    assert Recorded(base, l) by {
      assert Recorded(s, l);
      if !reuse {
        SnapshotIsRecorded(base, l);
      }
    }
    if logged {
      var e := TablesEdit(tables);
      TablesEditAdds(tables, l);
      EverUnfolds(base.manifest, e, l);
      forall m, g | 0 <= m < |s'.version| && g in s'.version[m] && g.number in EverAdded(s'.manifest, l) ensures l <= m {
        assert JoinedMember(s.version, tables, m, g);
        if g in s.version[m] {
          assert g.number < s.savedFile;
        } else {
          assert NewTable(s.(nextFile := s.savedFile), g);
        }
      }
      LoggedIsRecorded(base, e, s', l);
    } else {
      assert s'.manifest == base.manifest;
    }
  }

  // ---------------------------------------------------------------------------------------------
  // Every run
  // ---------------------------------------------------------------------------------------------

  lemma {:induction false} StepIsSound(s: Engine, ev: Event, s': Engine)
    requires Sound(s) && AllRecorded(s) && Happens(s, ev, s') && Roomy(s, ev)
    ensures Sound(s') && AllRecorded(s')
  {
    hide Sound, Recorded, StillThere, ValidVersion, Chosen, ValidOutputs, IsCompactionEdit, Applied, Kept, Cut, NewTable, NoOverlapDownTo,
      Ends, FromAbove, Roomy;
    if ev == Begin {
      BeginIsSound(s, s');
    } else {
      StepIsValid(s, ev, s');
      forall l | 0 <= l < NUM_LEVELS ensures l < |s'.version| && Recorded(s', l) && StillThere(s', l) {
        match ev
        case Flush(at, f) =>
          FlushIsRecorded(s, at, f, s', l);
          FlushStillThere(s, at, f, s', l);
        case Move(level, f, e) =>
          MoveEnds(s, level, f, e, s');
          EndedIsRecorded(s, s.version, level, [f], [], [f], e, s', l);
          NoneRunning(s', l);
        case Compact(level, inputs0, inputs1, input, smallestSnapshot, outputs, outs, e) =>
          CompactEnds(s, level, inputs0, inputs1, input, smallestSnapshot, outputs, outs, e, s');
          EndedIsRecorded(s, s.running.value.version, level, inputs0, inputs1, outs, e, s', l);
          NoneRunning(s', l);
        case Reopen(reuse, logged, tables) =>
          ReopenIsRecorded(s, reuse, logged, tables, s', l);
          NoneRunning(s', l);
      }
    }
  }

  lemma {:induction false} NoneRunning(s: Engine, l: nat)
    requires l < |s.version| && s.running == None
    ensures StillThere(s, l)
  {
  }

  lemma {:induction false} FlushStillThere(s: Engine, at: nat, f: File, s': Engine, l: nat)
    requires Sound(s) && AllRecorded(s) && Happens(s, Event.Flush(at, f), s') && l < NUM_LEVELS
    ensures l < |s'.version| && StillThere(s', l)
  {
    hide Less, ValidFile, NewerEntries, Sorted, LevelInvariant, NoOverlapDownTo, Recorded, AppliedLevel, Contents, EverAdded, SoundRunning;
    var e := AddEdit(at, f);
    NewTableIsFresh(s, f);
    FlushIsPlus(s.version, at, f, s'.version);
    EverUnfolds(s.manifest, e, l);
    assert StillThere(s, l);
    if s.running.Some? {
      forall n | n in EverAdded(s'.manifest, l) ensures n < s.running.value.nextFile || exists g :: g in s'.version[l] && g.number == n {
        if n in EverAdded(s.manifest, l) {
          if g :| g in s.version[l] && g.number == n {
            assert g in s'.version[l];
          }
        } else {
          var a :| a in e.added && a.0 == l && a.1.number == n;
          assert a == (at, f) && f in s'.version[at];
        }
      }
    }
  }

  lemma {:induction false} MovedNumber(s: Engine, level: nat, f: File)
    requires Sound(s) && Chosen(s.version, level, [f], [])
    ensures f.number < s.savedFile
  {
    InputsInVersion(s.version, level, [f], []);
    assert f in [f];
  }

  lemma {:induction false} StepIsValid(s: Engine, ev: Event, s': Engine)
    requires Sound(s) && AllRecorded(s) && Happens(s, ev, s') && Roomy(s, ev) && ev != Begin
    ensures Sound(s') && |s'.version| == NUM_LEVELS
  {
    hide Sound, Chosen, ValidOutputs, IsCompactionEdit, Kept, Cut, NewTable, NoOverlapDownTo, AppliedLevel, Ends, FromAbove, Roomy;
    match ev
    case Flush(at, f) => FlushIsSound(s, at, f, s');
    case Move(level, f, e) =>
      MoveEnds(s, level, f, e, s');
      EndedIsSound(s, s.version, level, [f], [], [f], e, s');
      SoundSize(s');
    case Compact(level, inputs0, inputs1, input, smallestSnapshot, outputs, outs, e) =>
      CompactEnds(s, level, inputs0, inputs1, input, smallestSnapshot, outputs, outs, e, s');
      EndedIsSound(s, s.running.value.version, level, inputs0, inputs1, outs, e, s');
      SoundSize(s');
    case Reopen(reuse, logged, tables) => ReopenIsSound(s, reuse, logged, tables, s');
  }

  lemma {:induction false} SoundSize(s: Engine)
    requires Sound(s)
    ensures ValidVersion(s.version) && |s.version| == NUM_LEVELS
  {
  }

  /** From a database just created, event by event; it may be closed, or crash, and be reopened at any time. */
  ghost predicate AnyRun(run: seq<Engine>, events: seq<Event>) {
    && |run| == |events| + 1 && Created(run[0])
    && forall i :: 0 <= i < |events| ==> ValidVersion(run[i].version) ==> Happens(run[i], events[i], run[i + 1])
  }

  /** A run whose compactions leave room for what was flushed while they ran. */
  ghost predicate EngineRun(run: seq<Engine>, events: seq<Event>) {
    AnyRun(run, events) && forall i :: 0 <= i < |events| ==> Roomy(run[i], events[i])
  }

  lemma {:induction false} RunIsSound(run: seq<Engine>, events: seq<Event>, i: nat)
    requires EngineRun(run, events) && i < |run|
    ensures Sound(run[i]) && AllRecorded(run[i])
  {
    hide Happens, Recorded, ValidVersion, StillThere, Roomy, SoundRunning;
    if i == 0 {
      CreatedIsSound(run[0]);
    } else {
      RunIsSound(run, events, i - 1);
      StepIsSound(run[i - 1], events[i - 1], run[i]);
    }
  }

  /**
   In every state of every run, no file number was added to a level twice, and one builder over the whole
   manifest gives the lists of the current version.
   */
  lemma {:induction false} ManifestIsCurrent(run: seq<Engine>, events: seq<Event>, i: nat, level: nat)
    requires EngineRun(run, events) && i < |run| && level < NUM_LEVELS
    ensures NeverReadded(run[i].manifest, level)
    ensures |run[i].version| == NUM_LEVELS && ReplayLevel(run[i].manifest, level) == run[i].version[level]
  {
    hide Sound, Created, Happens, LiveLevel, ReplayLevel, NeverReadded;
    RunIsSound(run, events, i);
    assert Recorded(run[i], level);
    ReplayIsLive(run[i].manifest, level);
  }

  // ---------------------------------------------------------------------------------------------
  // What reads see
  // ---------------------------------------------------------------------------------------------

  /** No file of level + 1 goes on with the last user key of the inputs taken from there. */
  ghost predicate Guarded(s: Engine, ev: Event) {
    ev.Compact? && s.running.Some? && ev.level + 1 < |s.running.value.version| ==>
      forall k :: IsLargestKey(ev.inputs1, k) ==> NothingContinues(s.running.value.version[ev.level + 1], k)
  }

  ghost predicate GuardedRun(run: seq<Engine>, events: seq<Event>) {
    |run| == |events| + 1 && forall i :: 0 <= i < |events| ==> Guarded(run[i], events[i])
  }

  ghost predicate SameReads(A: set<Entry>, B: set<Entry>, user: UserKey, snapshot: nat) {
    View(A, user, snapshot) == View(B, user, snapshot)
  }

  /** Newer entries on top of sets that read alike. */
  lemma {:induction false} NewerOnTop(A: set<Entry>, B: set<Entry>, F: set<Entry>, last: nat, user: UserKey, snapshot: nat)
    requires UniquelyKeyed(A) && UniquelyKeyed(B) && UniquelyKeyed(F) && UpTo(A, last) && UpTo(B, last)
    requires (forall e :: e in F ==> e.key.sequence > last) && SameReads(A, B, user, snapshot)
    ensures SameReads(A + F, B + F, user, snapshot)
  {
    hide View;
    JoinUnique(A, F, last);
    JoinUnique(B, F, last);
    if f :| Visible(F, user, snapshot, f) {
      NewestExists(F, user, snapshot, f);
      var n :| Newest(F, user, snapshot, n);
      TopIsNewest(A, F, last, user, snapshot, n);
      TopIsNewest(B, F, last, user, snapshot, n);
      ViewIs(A + F, user, snapshot, n);
      ViewIs(B + F, user, snapshot, n);
    } else {
      NothingOnTop(A, F, user, snapshot);
      NothingOnTop(B, F, user, snapshot);
    }
  }

  lemma {:induction false} TopIsNewest(A: set<Entry>, F: set<Entry>, last: nat, user: UserKey, snapshot: nat, n: Entry)
    requires UpTo(A, last) && (forall e :: e in F ==> e.key.sequence > last) && Newest(F, user, snapshot, n)
    ensures Newest(A + F, user, snapshot, n)
  {
    forall g | Visible(A + F, user, snapshot, g) ensures g.key.sequence <= n.key.sequence {
      assert Visible(F, user, snapshot, n);
      if g in F {
        assert Visible(F, user, snapshot, g);
      }
    }
  }

  lemma {:induction false} NothingOnTop(A: set<Entry>, F: set<Entry>, user: UserKey, snapshot: nat)
    requires UniquelyKeyed(A + F) && forall f :: !Visible(F, user, snapshot, f)
    ensures View(A + F, user, snapshot) == View(A, user, snapshot)
  {
    forall e ensures Visible(A + F, user, snapshot, e) <==> Visible(A, user, snapshot, e) {
      assert !Visible(F, user, snapshot, e);
    }
    SameVisibleSameView(A + F, snapshot, A, snapshot, A + F, user);
  }

  /** A guarded compaction reads like the version it started from. */
  lemma {:induction false} CompactionReads(v: Levels, level: nat, inputs0: seq<File>, inputs1: seq<File>, input: seq<Entry>,
                                           smallestSnapshot: nat, outs: seq<File>, user: UserKey, snapshot: nat)
    requires Arranged(OnDisk(v), level, inputs0, inputs1, input) && smallestSnapshot < MAX_SEQUENCE && smallestSnapshot <= snapshot
    requires forall k :: IsLargestKey(inputs1, k) ==> NothingContinues(v[level + 1], k)
    requires FileEntries(outs) == ToSet(Kept(input, smallestSnapshot, BaseTest(v, level), |input|))
    ensures SameReads(Contents(v), FileEntries(outs) + Contents(Remaining(v, level, inputs0, inputs1)), user, snapshot)
  {
    hide View, Contents, Kept, Arranged, IsLargestKey, NothingContinues, FileEntries, BaseTest, Remaining;
    var db := OnDisk(v);
    LevelsThere(db, level, inputs0, inputs1, input);
    var rest := Contents(Remaining(v, level, inputs0, inputs1));
    SafeWithoutCut(db, level, inputs0, inputs1, input, smallestSnapshot);
    ArrangedIsAll(db, level, inputs0, inputs1, input);
    assert ToSet([]) == {};
    assert Rest(db, level, inputs0, inputs1) == rest;
    assert db.All() == Contents(v);
    assert SameRead(input, Kept(input, smallestSnapshot, BaseTest(v, level), |input|), rest, user, snapshot);
  }

  lemma {:induction false} LevelsThere(db: Database, level: nat, inputs0: seq<File>, inputs1: seq<File>, input: seq<Entry>)
    requires Arranged(db, level, inputs0, inputs1, input)
    ensures level + 1 < |db.current|
  {
  }

  lemma {:induction false} FlushReads(s: Engine, at: nat, f: File, s': Engine, user: UserKey, snapshot: nat)
    requires Sound(s) && Happens(s, Event.Flush(at, f), s') && SameReads(s.written, Contents(s.version), user, snapshot)
    ensures SameReads(s'.written, Contents(s'.version), user, snapshot)
  {
    hide SameReads, UniquelyKeyed, Contents, NoOverlapDownTo, ValidFile, Applied, LevelInvariant;
    FlushIsSound(s, at, f, s');
    VersionUnique(s.version);
    NewerOnTop(s.written, Contents(s.version), ToSet(f.entries), s.lastSequence, user, snapshot);
  }

  lemma {:induction false} MoveReads(s: Engine, level: nat, f: File, e: Edit, s': Engine, user: UserKey, snapshot: nat)
    requires Sound(s) && AllRecorded(s) && Happens(s, Move(level, f, e), s') && SameReads(s.written, Contents(s.version), user, snapshot)
    ensures SameReads(s'.written, Contents(s'.version), user, snapshot)
  {
    hide SameReads, Sound, Contents, FileEntries, Remaining, Chosen, ValidOutputs, IsCompactionEdit, Ends, FromAbove;
    MovedOutputs(s, level, f);
    MoveEnds(s, level, f, e, s');
    EndedIsSound(s, s.version, level, [f], [], [f], e, s');
  }

  ghost function Since(s: Engine, r: Running): set<Entry> {
    set e | e in Contents(s.version) && e.key.sequence > r.lastSequence
  }

  lemma {:induction false} SinceIsAbove(s: Engine)
    requires Sound(s) && s.running.Some?
    ensures var r := s.running.value; Contents(s.version) == Contents(r.version) + Since(s, r)
  {
    hide Less, ValidVersion, UniquelyKeyed, CameAfter;
    var r := s.running.value;
    forall e ensures e in Contents(s.version) <==> e in Contents(r.version) || e in Since(s, r) {
      if e in Contents(s.version) {
        var l: nat, f: File :| 0 <= l < |s.version| && f in s.version[l] && e in f.entries;
        assert InOrSince(r, l, f);
      }
      if e in Contents(r.version) {
        var l: nat, f: File :| 0 <= l < |r.version| && f in r.version[l] && e in f.entries;
        assert f in s.version[l];
      }
    }
  }

  lemma {:induction false} InRemaining(v: Levels, level: nat, inputs0: seq<File>, inputs1: seq<File>, l: nat, f: File)
    requires |v| == NUM_LEVELS && level + 1 < NUM_LEVELS && l < NUM_LEVELS
    ensures |Remaining(v, level, inputs0, inputs1)| == NUM_LEVELS
    ensures f in Remaining(v, level, inputs0, inputs1)[l] <==> f in v[l] && (l == level ==> f !in inputs0) && (l == level + 1 ==> f !in inputs1)
  {
  }

  lemma {:induction false} StaysOrSince(s: Engine, level: nat, inputs0: seq<File>, inputs1: seq<File>, l: nat, f: File)
    requires Sound(s) && s.running.Some? && Chosen(s.running.value.version, level, inputs0, inputs1) && l < NUM_LEVELS
    ensures |s.version| == NUM_LEVELS == |s.running.value.version| && level + 1 < NUM_LEVELS
    ensures var r := s.running.value;
            var here, there := Remaining(s.version, level, inputs0, inputs1), Remaining(r.version, level, inputs0, inputs1);
            && |here| == |there| == NUM_LEVELS
            && (f in there[l] ==> f in here[l])
            && (f in here[l] ==> f in s.version[l] && (f in there[l] || forall e :: e in f.entries ==> e.key.sequence > r.lastSequence))
            && (f in s.version[l] && f !in r.version[l] ==> f in here[l])
  {
    hide Less, LevelInvariant, Listed, UniquelyKeyed, CameAfter, Choice, NextInputs, Remaining, Contents;
    var r := s.running.value;
    InputsStay(r.version, s.version, level, inputs0, inputs1);
    InRemaining(s.version, level, inputs0, inputs1, l, f);
    InRemaining(r.version, level, inputs0, inputs1, l, f);
    if f in s.version[l] {
      assert InOrSince(r, l, f);
      if f in inputs0 {
        OneLevel(s.version, l, level, f);
      }
      if f in inputs1 {
        OneLevel(s.version, l, level + 1, f);
      }
    }
  }

  lemma {:induction false} ThereIsHere(s: Engine, level: nat, inputs0: seq<File>, inputs1: seq<File>, e: Entry)
    requires Sound(s) && s.running.Some? && Chosen(s.running.value.version, level, inputs0, inputs1)
    requires |s.version| == NUM_LEVELS == |s.running.value.version| && level + 1 < NUM_LEVELS
    ensures var here, there := Remaining(s.version, level, inputs0, inputs1), Remaining(s.running.value.version, level, inputs0, inputs1);
            e in Contents(here) <==> e in Contents(there) || e in Since(s, s.running.value)
  {
    hide Sound, Chosen, Remaining;
    var r := s.running.value;
    var here, there := Remaining(s.version, level, inputs0, inputs1), Remaining(r.version, level, inputs0, inputs1);
    StaysOrSince(s, level, inputs0, inputs1, 0, File(0, 0, e.key, e.key, []));
    if e in Contents(here) {
      var l: nat, f: File :| 0 <= l < |here| && f in here[l] && e in f.entries;
      StaysOrSince(s, level, inputs0, inputs1, l, f);
    }
    if e in Contents(there) {
      var l: nat, f: File :| 0 <= l < |there| && f in there[l] && e in f.entries;
      StaysOrSince(s, level, inputs0, inputs1, l, f);
    }
    if e in Since(s, r) {
      var l: nat, f: File :| 0 <= l < |s.version| && f in s.version[l] && e in f.entries;
      NotBefore(s, l, f, e);
      StaysOrSince(s, level, inputs0, inputs1, l, f);
    }
  }

  lemma {:induction false} SinceRemains(s: Engine, level: nat, inputs0: seq<File>, inputs1: seq<File>)
    requires Sound(s) && s.running.Some? && Chosen(s.running.value.version, level, inputs0, inputs1)
    ensures |s.version| == NUM_LEVELS == |s.running.value.version| && level + 1 < NUM_LEVELS
    ensures var r := s.running.value;
            Contents(Remaining(s.version, level, inputs0, inputs1)) == Contents(Remaining(r.version, level, inputs0, inputs1)) + Since(s, r)
  {
    hide Less, LevelInvariant, Listed, UniquelyKeyed, CameAfter, Choice, NextInputs, Remaining, Contents, Since;
    InputsStay(s.running.value.version, s.version, level, inputs0, inputs1);
    var here, there := Remaining(s.version, level, inputs0, inputs1), Remaining(s.running.value.version, level, inputs0, inputs1);
    forall e ensures e in Contents(here) <==> e in Contents(there) || e in Since(s, s.running.value) {
      ThereIsHere(s, level, inputs0, inputs1, e);
    }
  }

  lemma {:induction false} NotBefore(s: Engine, l: nat, f: File, e: Entry)
    requires Sound(s) && s.running.Some? && l < |s.version| && f in s.version[l] && e in f.entries && e.key.sequence > s.running.value.lastSequence
    ensures forall m :: 0 <= m < |s.running.value.version| ==> f !in s.running.value.version[m]
  {
    hide Less, ValidVersion, UniquelyKeyed, CameAfter, Grown;
    var v := s.running.value.version;
    forall m | 0 <= m < |v| ensures f !in v[m] {
      assert f in v[m] ==> e in Contents(v);
    }
  }

  lemma {:induction false} CompactReads(s: Engine, level: nat, inputs0: seq<File>, inputs1: seq<File>, input: seq<Entry>, smallestSnapshot: nat,
                                        outputs: seq<seq<Entry>>, outs: seq<File>, e: Edit, s': Engine, user: UserKey, snapshot: nat)
    requires Sound(s) && AllRecorded(s)
    requires var ev := Event.Compact(level, inputs0, inputs1, input, smallestSnapshot, outputs, outs, e);
             Happens(s, ev, s') && Roomy(s, ev) && Guarded(s, ev)
    requires smallestSnapshot <= snapshot
    ensures SameReads(Contents(s.version), Contents(s'.version), user, snapshot)
  {
    hide SameReads, Contents, UniquelyKeyed, Kept, Cut, Chosen, ValidOutputs, IsCompactionEdit, Applied, FileEntries, Remaining, Roomy, Ends, FromAbove,
      Sorted, Recorded, StillThere, NothingContinues, IsLargestKey, Arranged, Grown, ValidVersion;
    var r := s.running.value;
    NewOutputs(r.version, r.nextFile, level, inputs0, inputs1, input, smallestSnapshot, outputs, outs);
    LevelsThere(OnDisk(r.version), level, inputs0, inputs1, input);
    CompactionReads(r.version, level, inputs0, inputs1, input, smallestSnapshot, outs, user, snapshot);
    CompactEnds(s, level, inputs0, inputs1, input, smallestSnapshot, outputs, outs, e, s');
    EndedIsSound(s, r.version, level, inputs0, inputs1, outs, e, s');
    SinceIsAbove(s);
    SinceRemains(s, level, inputs0, inputs1);
    var after, since := FileEntries(outs) + Contents(Remaining(r.version, level, inputs0, inputs1)), Since(s, r);
    SmallerContents(r.version, level, inputs0, inputs1, outs);
    VersionUnique(r.version);
    VersionUnique(s.version);
    SubsetUniquelyKeyed(after, Contents(r.version));
    SubsetUniquelyKeyed(since, Contents(s.version));
    NewerOnTop(Contents(r.version), after, since, r.lastSequence, user, snapshot);
    assert Contents(s'.version) == after + since;
  }

  lemma {:induction false} ReopenReads(s: Engine, reuse: bool, logged: bool, tables: seq<File>, s': Engine, user: UserKey, snapshot: nat)
    requires Sound(s) && AllRecorded(s) && Happens(s, Reopen(reuse, logged, tables), s')
    requires SameReads(s.written, Contents(s.version), user, snapshot)
    ensures SameReads(s'.written, Contents(s'.version), user, snapshot)
  {
    hide SameReads, UniquelyKeyed, Contents, Applied, LevelInvariant, FileEntries, Recorded, Replayed, TablesEdit;
    ReopenIsSound(s, reuse, logged, tables, s');
    VersionUnique(s.version);
    NewTablesUnique(s, tables);
    NewerOnTop(s.written, Contents(s.version), FileEntries(tables), s.lastSequence, user, snapshot);
  }

  /** One event, for one read. */
  lemma {:induction false} StepReads(s: Engine, ev: Event, s': Engine, user: UserKey, snapshot: nat)
    requires Sound(s) && AllRecorded(s) && Happens(s, ev, s') && Roomy(s, ev) && Guarded(s, ev) && s'.snapshots <= snapshot
    requires SameReads(s.written, Contents(s.version), user, snapshot)
    ensures SameReads(s'.written, Contents(s'.version), user, snapshot)
  {
    hide SameReads, Sound, ValidVersion, Chosen, ValidOutputs, IsCompactionEdit, Logged, Kept, Cut, NewTable, NoOverlapDownTo, IsLargestKey,
      NothingContinues, Contents, Remaining, FileEntries, WrittenNew, Sorted, Arranged, UpTo;
    match ev
    case Flush(at, f) => FlushReads(s, at, f, s', user, snapshot);
    case Move(level, f, e) => MoveReads(s, level, f, e, s', user, snapshot);
    case Begin =>
    case Compact(level, inputs0, inputs1, input, smallestSnapshot, outputs, outs, e) =>
      CompactReads(s, level, inputs0, inputs1, input, smallestSnapshot, outputs, outs, e, s', user, snapshot);
      ReadsChain(s.written, Contents(s.version), Contents(s'.version), user, snapshot);
    case Reopen(reuse, logged, tables) => ReopenReads(s, reuse, logged, tables, s', user, snapshot);
  }

  lemma {:induction false} ReadsChain(A: set<Entry>, B: set<Entry>, C: set<Entry>, user: UserKey, snapshot: nat)
    requires SameReads(A, B, user, snapshot) && SameReads(B, C, user, snapshot)
    ensures SameReads(A, C, user, snapshot)
  {
  }

  lemma {:induction false} SnapshotsGrow(s: Engine, ev: Event, s': Engine)
    requires ValidVersion(s.version) && Happens(s, ev, s')
    ensures s.snapshots <= s'.snapshots
  {
  }

  /**
   In every run whose compactions meet the guard: a read at a snapshot that no compaction has gone past answers
   from the current version what it would answer from everything ever flushed.
   */
  lemma {:induction false} ReadsSurviveRuns(run: seq<Engine>, events: seq<Event>, i: nat, user: UserKey, snapshot: nat)
    requires EngineRun(run, events) && GuardedRun(run, events) && i < |run| && run[i].snapshots <= snapshot
    ensures SameReads(run[i].written, Contents(run[i].version), user, snapshot)
  {
    hide Happens, Guarded, Recorded, Contents, View;
    if i == 0 {
      CreatedIsSound(run[0]);
    } else {
      RunIsSound(run, events, i - 1);
      SnapshotsGrow(run[i - 1], events[i - 1], run[i]);
      ReadsSurviveRuns(run, events, i - 1, user, snapshot);
      StepReads(run[i - 1], events[i - 1], run[i], user, snapshot);
    }
  }

  /** The same through Get, with newer entries in the memtables. */
  lemma {:induction false} GetsSurviveRuns(run: seq<Engine>, events: seq<Event>, i: nat, db: Database, user: UserKey, snapshot: nat)
    requires EngineRun(run, events) && GuardedRun(run, events) && i < |run| && run[i].snapshots <= snapshot
    requires db.Valid() && db.current == run[i].version
    requires forall e :: e in db.mem || e in db.ImmEntries() ==> e.key.sequence > run[i].lastSequence
    ensures View(db.All(), user, snapshot) == View(run[i].written + ToSet(db.mem) + ToSet(db.ImmEntries()), user, snapshot)
  {
    hide EngineRun, GuardedRun, Recorded, Contents, View, Sorted, LevelInvariant;
    ReadsSurviveRuns(run, events, i, user, snapshot);
    RunIsSound(run, events, i);
    var s, top := run[i], ToSet(db.mem) + ToSet(db.ImmEntries());
    SubsetUniquelyKeyed(top, db.All());
    SubsetUniquelyKeyed(Contents(s.version), db.All());
    NewerOnTop(s.written, Contents(s.version), top, s.lastSequence, user, snapshot);
    assert db.All() == Contents(s.version) + top;
    assert run[i].written + ToSet(db.mem) + ToSet(db.ImmEntries()) == s.written + top;
  }
}
