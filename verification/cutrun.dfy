/**
 The database of CompactionSafety.CutLosesDeletion is reached by a run of the engine from an empty database, and the
 next compaction of that run loses the deletion.
 */
module CutRun {
  import opened Keys
  import opened Version
  import opened Lookup
  import opened Selection
  import opened DropRule
  import opened CompactionLoop
  import opened CompactionSafety
  import opened VersionBuilder
  import opened Install
  import opened MidFlush
  import opened EngineRuns

  // ---------------------------------------------------------------------------------------------
  // Steps on databases with files at levels 1 and 2 only
  // ---------------------------------------------------------------------------------------------

  function Two(upper: seq<File>, next: seq<File>): Levels {
    [[], upper, next, [], [], [], []]
  }

  function After(v: Levels, e: Edit): Levels
    requires |v| == NUM_LEVELS
  {
    seq(NUM_LEVELS, l requires 0 <= l < NUM_LEVELS => AppliedLevel(v[l], e, l))
  }

  lemma {:induction false} AfterIsApplied(v: Levels, e: Edit)
    requires |v| == NUM_LEVELS
    ensures Applied(v, e, After(v, e))
  {
    hide AppliedLevel;
  }

  ghost predicate Follows(s: Engine, ev: Event, s': Engine) {
    ValidVersion(s.version) && Happens(s, ev, s')
  }

  /** A flush of f to a level, whose entries go up to sequence number last. */
  ghost function Flushed(s: Engine, at: nat, f: File, last: nat): Engine
    requires |s.version| == NUM_LEVELS
  {
    Engine(After(s.version, AddEdit(at, f)), f.number + 1, f.number + 1, last, s.snapshots,
           s.manifest + [AddEdit(at, f)], s.written + ToSet(f.entries), s.running)
  }

  lemma {:induction false} FlushHappens(s: Engine, at: nat, next: seq<File>, f: File, last: nat)
    requires Sound(s) && s.version == Two([], next) && NewTable(s, f) && 1 <= at <= 2 && (at == 2 ==> next == [])
    requires s.lastSequence <= last && UpTo(ToSet(f.entries), last)
    ensures var s' := Flushed(s, at, f, last);
            Follows(s, Event.Flush(at, f), s') && s'.version == if at == 1 then Two([f], next) else Two([], [f])
  {
    hide Less, Sorted, LevelInvariant, ValidFile, UniquelyKeyed, Contents, NewerEntries, AppliedLevel, Listed;
    var e := AddEdit(at, f);
    var v' := After(s.version, e);
    AfterIsApplied(s.version, e);
    NewTableIsFresh(s, f);
    FlushIsPlus(s.version, at, f, v');
    var goal := if at == 1 then Two([f], next) else Two([], [f]);
    forall l | 0 <= l < NUM_LEVELS ensures Listed(goal[l]) {
      OneListed(f);
      assert Listed(s.version[l]);
    }
    assert s.version[0] == s.version[1] == [];
    SameLevels(v', goal);
  }

  lemma {:induction false} OneListed(f: File)
    ensures Listed([f]) && Listed([])
  {
  }

  /** A compaction is picked. */
  function Picked(s: Engine): Engine {
    s.(running := Some(Running(s.version, s.nextFile, s.lastSequence)))
  }

  lemma {:induction false} PickHappens(s: Engine)
    requires Sound(s) && AllRecorded(s) && s.running == None
    ensures Follows(s, Begin, Picked(s)) && Sound(Picked(s)) && AllRecorded(Picked(s))
  {
    hide ValidVersion, Recorded, StillThere, SoundRunning, UniquelyKeyed, Contents;
    BeginIsSound(s, Picked(s));
  }

  /** The edit of a compaction with one input file at level 1 and one at level 2. */
  function PairEdit(a: File, b: File, outs: seq<File>): Edit {
    Edit([(1, a.number), (2, b.number)], seq(|outs|, i requires 0 <= i < |outs| => (2, outs[i])))
  }

  lemma {:induction false} PairEditIs(a: File, b: File, outs: seq<File>)
    requires DistinctNumbers(outs)
    ensures IsCompactionEdit(PairEdit(a, b, outs), 1, [a], [b], outs)
  {
    var e := PairEdit(a, b, outs);
    assert e.deleted[0] == (1, a.number) && e.deleted[1] == (2, b.number);
    assert a in [a] && b in [b];
    forall l, f ensures (l, f) in e.added <==> l == 2 && f in outs {
      if l == 2 && f in outs {
        var k :| 0 <= k < |outs| && outs[k] == f;
        assert e.added[k] == (l, f);
      }
    }
  }

  function Shrunk(s: Engine, a: File, b: File, smallestSnapshot: nat, outs: seq<File>, next: nat): Engine
    requires |s.version| == NUM_LEVELS
  {
    var e := PairEdit(a, b, outs);
    Engine(After(s.version, e), next, next, s.lastSequence, if s.snapshots <= smallestSnapshot then smallestSnapshot else s.snapshots,
           s.manifest + [e], s.written, None)
  }

  lemma {:induction false} FreeNumbers(s: Engine, outs: seq<File>)
    requires Sound(s) && forall o :: o in outs ==> o.number >= s.nextFile
    ensures NumbersFree(s.version, outs)
  {
  }

  lemma {:induction false} CompactHappens(s: Engine, a: File, b: File, level2: seq<File>, input: seq<Entry>, smallestSnapshot: nat,
                                          outputs: seq<seq<Entry>>, outs: seq<File>, next: nat, level2': seq<File>)
    requires Sound(s) && s.running == None && s.version == Two([a], level2) && Choice(1, [a], [a]) && NextInputs(level2, [a], [b])
    requires Sorted(input) && ToSet(input) == FileEntries([a]) + FileEntries([b]) && smallestSnapshot < MAX_SEQUENCE
    requires Cut(outputs, [], Kept(input, smallestSnapshot, BaseTest(s.version, 1), |input|)) && WrittenNew(s.nextFile, outputs, outs)
    requires s.nextFile <= next && forall o :: o in outs ==> o.number < next
    requires Listed(level2') && forall g :: g in level2' <==> (g in level2 && g != b) || g in outs
    ensures var s' := Shrunk(s, a, b, smallestSnapshot, outs, next);
            && Follows(Picked(s), Event.Compact(1, [a], [b], input, smallestSnapshot, outputs, outs, PairEdit(a, b, outs)), s')
            && s'.version == Two([], level2')
  {
    hide Less, Sorted, ValidVersion, ValidFile, UniquelyKeyed, Contents, NewerEntries, AppliedLevel, Listed, Choice, NextInputs, Kept, Cut,
      FileEntries, ValidOutputs;
    var e := PairEdit(a, b, outs);
    var v' := After(s.version, e);
    AfterIsApplied(s.version, e);
    PairEditIs(a, b, outs);
    NewOutputs(s.version, s.nextFile, 1, [a], [b], input, smallestSnapshot, outputs, outs);
    FreeNumbers(s, outs);
    CompactionIsCompacted(s.version, 1, [a], [b], outs, e, v');
    var goal := Two([], level2');
    forall l | 0 <= l < NUM_LEVELS ensures Listed(goal[l]) {
      OneListed(a);
    }
    forall l, g | 0 <= l < NUM_LEVELS ensures g in v'[l] <==> g in goal[l] {
      assert g in v'[l] <==> CompactedMember(s.version, 1, [a], [b], outs, l, g);
    }
    SameLevels(v', goal);
  }

  // ---------------------------------------------------------------------------------------------
  // The run
  // ---------------------------------------------------------------------------------------------

  const OLDEST := FileOf(3, [OLD_HIGH])
  const NEWER := FileOf(5, [PUT_LOW, DELETE_HIGH])
  const LAST := FileOf(12, [PUT_LOW, PUT_MID])

  function Start(): Engine {
    Engine(NoFiles(), 2, 2, 0, 0, [Edit([], [])], {}, None)
  }

  ghost predicate Reached(s: Engine, v: Levels, nextFile: nat, lastSequence: nat, snapshots: nat, written: set<Entry>) {
    && Sound(s) && AllRecorded(s) && s.version == v && s.nextFile == nextFile && s.lastSequence == lastSequence
    && s.snapshots == snapshots && s.written == written && s.running == None
  }

  lemma {:induction false} Flushing(s: Engine, at: nat, next: seq<File>, f: File, last: nat) returns (s': Engine)
    requires Sound(s) && AllRecorded(s) && s.running == None && s.version == Two([], next) && NewTable(s, f)
    requires 1 <= at <= 2 && (at == 2 ==> next == []) && s.lastSequence <= last && UpTo(ToSet(f.entries), last)
    ensures Follows(s, Event.Flush(at, f), s')
    ensures Reached(s', if at == 1 then Two([f], next) else Two([], [f]), f.number + 1, last, s.snapshots, s.written + ToSet(f.entries))
  {
    hide Sound, AllRecorded, NewTable, UpTo, Happens, ValidVersion;
    s' := Flushed(s, at, f, last);
    FlushHappens(s, at, next, f, last);
    StepIsSound(s, Event.Flush(at, f), s');
  }

  lemma {:induction false} ConstFiles()
    ensures OLDEST.entries == [OLD_HIGH] && NEWER.entries == [PUT_LOW, DELETE_HIGH] && LAST.entries == [PUT_LOW, PUT_MID]
    ensures ValidFile(OLDEST) && ValidFile(NEWER) && ValidFile(LAST)
    ensures ToSet([OLD_HIGH]) == {OLD_HIGH} && ToSet([PUT_LOW, DELETE_HIGH]) == {PUT_LOW, DELETE_HIGH} && ToSet([PUT_MID]) == {PUT_MID}
  {
    assert NEWER.entries[0] == PUT_LOW && NEWER.entries[1] == DELETE_HIGH;
    assert LAST.entries[0] == PUT_LOW && LAST.entries[1] == PUT_MID;
  }

  lemma {:induction false} FirstFlush() returns (s: Engine)
    ensures Follows(Start(), Event.Flush(2, OLDEST), s) && Reached(s, Two([], [OLDEST]), 4, 3, 0, {OLD_HIGH})
  {
    hide Happens, ValidVersion, ValidFile;
    ConstFiles();
    CreatedIsSound(Start());
    assert NoFiles() == Two([], []);
    s := Flushing(Start(), 2, [], OLDEST, 3);
  }

  lemma {:induction false} SecondFlush(s: Engine) returns (s': Engine)
    requires Reached(s, Two([], [OLDEST]), 4, 3, 0, {OLD_HIGH})
    ensures Follows(s, Event.Flush(1, NEWER), s')
    ensures Reached(s', Two([NEWER], [OLDEST]), 6, 8, 0, {OLD_HIGH, PUT_LOW, DELETE_HIGH})
  {
    hide Happens, ValidVersion, ValidFile, Sound, AllRecorded;
    ConstFiles();
    s' := Flushing(s, 1, [OLDEST], NEWER, 8);
    assert {OLD_HIGH} + {PUT_LOW, DELETE_HIGH} == {OLD_HIGH, PUT_LOW, DELETE_HIGH};
  }

  // The first compaction keeps both versions of the user key, in two files.

  lemma {:induction false} NothingDropped(input: seq<Entry>, smallestSnapshot: nat, base: UserKey -> bool, n: nat)
    requires n <= |input| && forall i :: 0 <= i < n ==> !Dropped(input, smallestSnapshot, base, i)
    ensures Kept(input, smallestSnapshot, base, n) == input[..n]
  {
    if n > 0 {
      NothingDropped(input, smallestSnapshot, base, n - 1);
    }
  }

  lemma {:induction false} OneByOne(f: File, g: File)
    requires ValidFile(f) && Overlaps(g, Range(Some(f.smallest.user), Some(f.largest.user)))
    ensures Choice(1, [f], [f]) && NextInputs([g], [f], [g])
  {
    hide ValidFile;
    var span := Range(Some(f.smallest.user), Some(f.largest.user));
    FileOrdered([f], 0);
    PackedOrder(f.smallest, f.largest);
    assert Slice([f], [f], 0, 1) && NothingContinues([f], [f][0].largest);
    assert f in [f] && Spans([f], span);
    assert [g][..0] == [] && Select([g], span) == [g];
  }

  lemma {:induction false} FirstInput()
    ensures var input := [PUT_LOW, DELETE_HIGH, OLD_HIGH];
            && Sorted(input) && ToSet(input) == FileEntries([NEWER]) + FileEntries([OLDEST])
            && forall base :: Kept(input, 0, base, 3) == input
  {
    var input := [PUT_LOW, DELETE_HIGH, OLD_HIGH];
    ConstFiles();
    assert NEWER in [NEWER] && OLDEST in [OLDEST];
    assert input[0] == PUT_LOW && input[1] == DELETE_HIGH && input[2] == OLD_HIGH;
    forall base ensures Kept(input, 0, base, 3) == input {
      NothingDropped(input, 0, base, 3);
      assert input[..3] == input;
    }
  }

  lemma {:induction false} CutInTwo(a: seq<Entry>, b: seq<Entry>)
    requires a != [] && b != []
    ensures Cut([a, b], [], a + b) && Cut([a], [], a)
  {
    assert [a, b][..1] == [a] && [a][..0] == [];
    assert Concat([a]) == a && Concat([a, b]) == a + b;
  }

  lemma {:induction false} FirstCompaction(s: Engine) returns (s': Engine, ev: Event)
    requires Reached(s, Two([NEWER], [OLDEST]), 6, 8, 0, {OLD_HIGH, PUT_LOW, DELETE_HIGH})
    ensures Follows(s, Begin, Picked(s)) && Follows(Picked(s), ev, s') && Roomy(Picked(s), ev)
    ensures Reached(s', Two([], [NEXT_LEFT, NEXT_RIGHT]), 9, 8, 0, {OLD_HIGH, PUT_LOW, DELETE_HIGH})
  {
    hide Happens, ValidVersion, ValidFile, Sound, AllRecorded, Kept, Cut, Choice, NextInputs, Sorted, FileEntries;
    var input, outs := [PUT_LOW, DELETE_HIGH, OLD_HIGH], [NEXT_LEFT, NEXT_RIGHT];
    var outputs := [[PUT_LOW, DELETE_HIGH], [OLD_HIGH]];
    ConstFiles();
    FirstInput();
    OneByOne(NEWER, OLDEST);
    CutInTwo([PUT_LOW, DELETE_HIGH], [OLD_HIGH]);
    assert input == [PUT_LOW, DELETE_HIGH] + [OLD_HIGH];
    assert forall g :: g in outs <==> g == NEXT_LEFT || g == NEXT_RIGHT;
    CompactHappens(s, NEWER, OLDEST, [OLDEST], input, 0, outputs, outs, 9, outs);
    ev, s' := Event.Compact(1, [NEWER], [OLDEST], input, 0, outputs, outs, PairEdit(NEWER, OLDEST, outs)), Shrunk(s, NEWER, OLDEST, 0, outs, 9);
    PickHappens(s);
    StepIsSound(Picked(s), ev, s');
  }

  lemma {:induction false} ThirdFlush(s: Engine) returns (s': Engine)
    requires Reached(s, Two([], [NEXT_LEFT, NEXT_RIGHT]), 9, 8, 0, {OLD_HIGH, PUT_LOW, DELETE_HIGH})
    ensures Follows(s, Event.Flush(1, UPPER), s')
    ensures Reached(s', CUT_DATABASE.current, 12, 10, 0, {OLD_HIGH, PUT_LOW, DELETE_HIGH, PUT_MID})
  {
    hide Happens, ValidVersion, Sound, AllRecorded;
    ConstFiles();
    s' := Flushing(s, 1, [NEXT_LEFT, NEXT_RIGHT], UPPER, 10);
    assert CUT_DATABASE.current == Two([UPPER], [NEXT_LEFT, NEXT_RIGHT]);
    assert {OLD_HIGH, PUT_LOW, DELETE_HIGH} + {PUT_MID} == {OLD_HIGH, PUT_LOW, DELETE_HIGH, PUT_MID};
  }

  // The second one drops the tombstone and leaves the older version.

  lemma {:induction false} TombstoneDropped(base: UserKey -> bool)
    requires base(2.0)
    ensures Kept([PUT_LOW, PUT_MID, DELETE_HIGH], 10, base, 3) == [PUT_LOW, PUT_MID]
  {
    var input := [PUT_LOW, PUT_MID, DELETE_HIGH];
    NothingDropped(input, 10, base, 2);
    assert input[..2] == [PUT_LOW, PUT_MID];
    assert Dropped(input, 10, base, 2);
  }

  lemma {:induction false} LosingCompaction(s: Engine) returns (s': Engine, ev: Event)
    requires Reached(s, CUT_DATABASE.current, 12, 10, 0, {OLD_HIGH, PUT_LOW, DELETE_HIGH, PUT_MID})
    ensures Follows(s, Begin, Picked(s)) && Follows(Picked(s), ev, s') && Roomy(Picked(s), ev)
    ensures Reached(s', Two([], [LAST, NEXT_RIGHT]), 13, 10, 10, {OLD_HIGH, PUT_LOW, DELETE_HIGH, PUT_MID})
  {
    hide Happens, ValidVersion, ValidFile, Sound, AllRecorded, Kept, Cut, Choice, NextInputs, Sorted, FileEntries, ValidInput;
    var input, outs := [PUT_LOW, PUT_MID, DELETE_HIGH], [LAST];
    var outputs := [[PUT_LOW, PUT_MID]];
    var level2, level2' := [NEXT_LEFT, NEXT_RIGHT], [LAST, NEXT_RIGHT];
    assert CUT_DATABASE.current == Two([UPPER], level2);
    ConstFiles();
    CutInput();
    CutChosen();
    SortedInput();
    assert BaseTest(s.version, 1)(2.0);
    TombstoneDropped(BaseTest(s.version, 1));
    CutInTwo([PUT_LOW, PUT_MID], [OLD_HIGH]);
    forall g ensures g in level2' <==> (g in level2 && g != NEXT_LEFT) || g in outs {
      assert g in level2 <==> g == NEXT_LEFT || g == NEXT_RIGHT;
      assert g in level2' <==> g == LAST || g == NEXT_RIGHT;
    }
    CompactHappens(s, UPPER, NEXT_LEFT, level2, input, 10, outputs, outs, 13, level2');
    ev, s' := Event.Compact(1, [UPPER], [NEXT_LEFT], input, 10, outputs, outs, PairEdit(UPPER, NEXT_LEFT, outs)),
              Shrunk(s, UPPER, NEXT_LEFT, 10, outs, 13);
    PickHappens(s);
    StepIsSound(Picked(s), ev, s');
  }

  lemma {:induction false} SortedInput()
    ensures Sorted([PUT_LOW, PUT_MID, DELETE_HIGH])
  {
    CutValidInput();
  }

  // ---------------------------------------------------------------------------------------------
  // What is read in the end
  // ---------------------------------------------------------------------------------------------

  lemma {:induction false} ReadsBeforeAndAfter(snapshot: nat)
    requires snapshot >= 10
    ensures View({OLD_HIGH, PUT_LOW, DELETE_HIGH, PUT_MID}, 2.0, snapshot) == NotFound
    ensures View(Contents(Two([], [LAST, NEXT_RIGHT])), 2.0, snapshot) == Found([7])
  {
    var written := {OLD_HIGH, PUT_LOW, DELETE_HIGH, PUT_MID};
    assert Newest(written, 2.0, snapshot, DELETE_HIGH);
    ViewIs(written, 2.0, snapshot, DELETE_HIGH);
    var v: Levels := Two([], [LAST, NEXT_RIGHT]);
    ConstFiles();
    assert LAST in v[2] && NEXT_RIGHT in v[2] && OLD_HIGH in NEXT_RIGHT.entries;
    assert OLD_HIGH in Contents(v);
    assert Contents(v) <= {PUT_LOW, PUT_MID, OLD_HIGH};
    assert Visible(Contents(v), 2.0, snapshot, OLD_HIGH);
    assert Newest(Contents(v), 2.0, snapshot, OLD_HIGH);
    ViewIs(Contents(v), 2.0, snapshot, OLD_HIGH);
  }

  /**
   A run from an empty database: two flushes, a compaction that keeps an old version for a snapshot and cuts
   its outputs between the two versions, and a third flush lead to CUT_DATABASE. The compaction after that
   brings the deleted value back at every snapshot from 10 on.
   */
  lemma {:induction false} RunLosesDeletion() returns (run: seq<Engine>, events: seq<Event>)
    ensures EngineRun(run, events) && |run| == 8 && run[5].version == CUT_DATABASE.current && run[7].snapshots == 10
    ensures forall snapshot: nat :: snapshot >= 10 ==>
              && View(run[7].written, 2.0, snapshot) == NotFound
              && View(Contents(run[7].version), 2.0, snapshot) == Found([7])
  {
    hide Happens, ValidVersion, Sound, AllRecorded, View;
    var s1 := FirstFlush();
    var s2 := SecondFlush(s1);
    var s3, e3 := FirstCompaction(s2);
    var s4 := ThirdFlush(s3);
    var s5, e5 := LosingCompaction(s4);
    run := [Start(), s1, s2, Picked(s2), s3, s4, Picked(s4), s5];
    events := [Event.Flush(2, OLDEST), Event.Flush(1, NEWER), Begin, e3, Event.Flush(1, UPPER), Begin, e5];
    forall snapshot: nat | snapshot >= 10
      ensures View(run[7].written, 2.0, snapshot) == NotFound && View(Contents(run[7].version), 2.0, snapshot) == Found([7])
    {
      ReadsBeforeAndAfter(snapshot);
    }
  }
}
