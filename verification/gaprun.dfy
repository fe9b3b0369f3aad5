/**
 A run that loses sight of a write: a manual compaction of two files with a gap between them, and a memtable flushed into
 the gap, at the output level, while the compaction runs.
 */
module GapRun {
  import opened Keys
  import opened Version
  import opened Lookup
  import opened Selection
  import opened DropRule
  import opened CompactionLoop
  import opened CompactionSafety
  import opened VersionBuilder
  import opened Install
  import opened MidFlush
  import opened EngineRuns
  import opened CutRun

  const OLD_FIRST := Entry(InternalKey(1.0, 1, Live), [])
  const OLD_LAST := Entry(InternalKey(3.0, 2, Live), [])
  const PUT_FIRST := Entry(InternalKey(1.0, 3, Live), [])
  const PUT_LAST := Entry(InternalKey(3.0, 4, Live), [])
  const PUT_BETWEEN := Entry(InternalKey(2.0, 5, Live), [7])

  const LOW_FIRST := FileOf(3, [OLD_FIRST])
  const LOW_LAST := FileOf(4, [OLD_LAST])
  const FIRST := FileOf(5, [PUT_FIRST])
  const LAST_ONE := FileOf(6, [PUT_LAST])
  const BETWEEN := FileOf(7, [PUT_BETWEEN])
  const OUTPUT := FileOf(8, [PUT_FIRST, PUT_LAST])

  lemma {:induction false} OneEntry(number: nat, e: Entry)
    requires e.key.sequence <= MAX_SEQUENCE
    ensures var f := FileOf(number, [e]);
            && ValidFile(f) && f.entries == [e] && f.smallest == f.largest == e.key && f.number == number
            && ToSet(f.entries) == {e} && UniquelyKeyed(ToSet(f.entries))
  {
    var f := FileOf(number, [e]);
    assert forall d :: d in f.entries <==> d == e;
    assert ToSet(f.entries) == {e};
  }

  lemma {:induction false} OutputFile()
    ensures OUTPUT.entries == [PUT_FIRST, PUT_LAST] && OUTPUT.smallest == PUT_FIRST.key && OUTPUT.largest == PUT_LAST.key && ValidFile(OUTPUT)
  {
    assert OUTPUT.entries[0] == PUT_FIRST && OUTPUT.entries[1] == PUT_LAST;
  }

  // ---------------------------------------------------------------------------------------------
  // Flushes
  // ---------------------------------------------------------------------------------------------

  ghost predicate AllListed(v: Levels) {
    forall l :: 0 <= l < |v| ==> Listed(v[l])
  }

  /** A flush of one entry that leads to the version goal. */
  lemma {:induction false} FlushTo(s: Engine, at: nat, number: nat, e: Entry, goal: Levels) returns (s': Engine)
    requires Sound(s) && AllRecorded(s) && 1 <= at < NUM_LEVELS && number == s.nextFile && e.key.sequence == s.lastSequence + 1 <= MAX_SEQUENCE
    requires NoOverlapDownTo(s.version, at, Range(Some(e.key.user), Some(e.key.user)))
    requires |goal| == NUM_LEVELS && AllListed(goal)
    requires forall l, g :: 0 <= l < NUM_LEVELS && l < |s.version| ==> (g in goal[l] <==> g in s.version[l] || (l == at && g == FileOf(number, [e])))
    ensures Follows(s, Event.Flush(at, FileOf(number, [e])), s') && Sound(s') && AllRecorded(s') && s'.version == goal
    ensures s'.nextFile == number + 1 && s'.lastSequence == e.key.sequence && s'.running == s.running
    ensures s'.snapshots == s.snapshots && s'.written == s.written + {e}
  {
    hide Less, Sorted, LevelInvariant, ValidFile, UniquelyKeyed, Contents, NewerEntries, AppliedLevel, Listed, Recorded, StillThere, SoundRunning,
      NoOverlapDownTo;
    var f := FileOf(number, [e]);
    OneEntry(number, e);
    VersionUnique(s.version);
    s' := Flushed(s, at, f, e.key.sequence);
    AfterIsApplied(s.version, AddEdit(at, f));
    NewTableIsFresh(s, f);
    FlushIsPlus(s.version, at, f, s'.version);
    SameLevels(s'.version, goal);
    StepIsSound(s, Event.Flush(at, f), s');
  }

  lemma {:induction false} TwoMember(upper: seq<File>, next: seq<File>, l: nat, g: File)
    requires l < NUM_LEVELS
    ensures g in Two(upper, next)[l] <==> (l == 1 && g in upper) || (l == 2 && g in next)
  {
  }

  lemma {:induction false} TwoListed(upper: seq<File>, next: seq<File>)
    requires Listed(upper) && Listed(next)
    ensures AllListed(Two(upper, next)) && |Two(upper, next)| == NUM_LEVELS
  {
    hide BySmallest;
    assert Listed([]);
  }

  /** A flush to level 1 or 2, stated by the two lists. */
  lemma {:induction false} FlushTwo(s: Engine, upper: seq<File>, next: seq<File>, at: nat, number: nat, e: Entry, upper': seq<File>, next': seq<File>)
    returns (s': Engine)
    requires Sound(s) && AllRecorded(s) && s.version == Two(upper, next) && 1 <= at <= 2 && number == s.nextFile
    requires e.key.sequence == s.lastSequence + 1 <= MAX_SEQUENCE
    requires forall f :: f in upper ==> f.largest.user < e.key.user || e.key.user < f.smallest.user
    requires at == 2 ==> forall f :: f in next ==> f.largest.user < e.key.user || e.key.user < f.smallest.user
    requires Listed(upper') && Listed(next')
    requires forall g :: g in upper' <==> g in upper || (at == 1 && g == FileOf(number, [e]))
    requires forall g :: g in next' <==> g in next || (at == 2 && g == FileOf(number, [e]))
    ensures Follows(s, Event.Flush(at, FileOf(number, [e])), s') && Sound(s') && AllRecorded(s') && s'.version == Two(upper', next')
    ensures s'.nextFile == number + 1 && s'.lastSequence == e.key.sequence && s'.running == s.running
    ensures s'.snapshots == s.snapshots && s'.written == s.written + {e}
  {
    hide Sound, AllRecorded, Listed, Follows;
    TwoListed(upper', next');
    forall l, g | 0 <= l < NUM_LEVELS ensures g in Two(upper', next')[l] <==> g in s.version[l] || (l == at && g == FileOf(number, [e])) {
      TwoMember(upper, next, l, g);
      TwoMember(upper', next', l, g);
    }
    forall l, f | 0 <= l <= at && l < |s.version| && f in s.version[l] ensures !Overlaps(f, Range(Some(e.key.user), Some(e.key.user))) {
      TwoMember(upper, next, l, f);
    }
    s' := FlushTo(s, at, number, e, Two(upper', next'));
  }

  function Empty(): Engine {
    Engine(NoFiles(), 3, 3, 0, 0, [Edit([], [])], {}, None)
  }

  /** Where the run stands. */
  ghost predicate Stands(s: Engine, upper: seq<File>, next: seq<File>, nextFile: nat, lastSequence: nat, written: set<Entry>) {
    && Sound(s) && AllRecorded(s) && s.version == Two(upper, next) && s.nextFile == nextFile && s.lastSequence == lastSequence
    && s.snapshots == 0 && s.written == written
  }

  lemma {:induction false} Lists()
    ensures Listed([LOW_FIRST]) && Listed([LOW_FIRST, LOW_LAST]) && Listed([FIRST]) && Listed([FIRST, LAST_ONE])
    ensures Listed([LOW_FIRST, BETWEEN, LOW_LAST]) && Listed([OUTPUT, BETWEEN]) && Listed([])
  {
    OneEntry(3, OLD_FIRST);
    OneEntry(4, OLD_LAST);
    OneEntry(5, PUT_FIRST);
    OneEntry(6, PUT_LAST);
    OneEntry(7, PUT_BETWEEN);
    OutputFile();
  }

  lemma {:induction false} FourFlushes() returns (s1: Engine, s2: Engine, s3: Engine, s4: Engine)
    ensures Follows(Empty(), Event.Flush(2, LOW_FIRST), s1) && Follows(s1, Event.Flush(2, LOW_LAST), s2)
    ensures Follows(s2, Event.Flush(1, FIRST), s3) && Follows(s3, Event.Flush(1, LAST_ONE), s4)
    ensures Stands(s4, [FIRST, LAST_ONE], [LOW_FIRST, LOW_LAST], 7, 4, {OLD_FIRST, OLD_LAST, PUT_FIRST, PUT_LAST}) && s4.running == None
  {
    hide Sound, AllRecorded, Listed, Follows, ValidFile;
    Lists();
    CreatedIsSound(Empty());
    assert NoFiles() == Two([], []);
    OneEntry(3, OLD_FIRST);
    OneEntry(4, OLD_LAST);
    OneEntry(5, PUT_FIRST);
    OneEntry(6, PUT_LAST);
    s1 := FlushTwo(Empty(), [], [], 2, 3, OLD_FIRST, [], [LOW_FIRST]);
    s2 := FlushTwo(s1, [], [LOW_FIRST], 2, 4, OLD_LAST, [], [LOW_FIRST, LOW_LAST]);
    s3 := FlushTwo(s2, [], [LOW_FIRST, LOW_LAST], 1, 5, PUT_FIRST, [FIRST], [LOW_FIRST, LOW_LAST]);
    s4 := FlushTwo(s3, [FIRST], [LOW_FIRST, LOW_LAST], 1, 6, PUT_LAST, [FIRST, LAST_ONE], [LOW_FIRST, LOW_LAST]);
  }

  /** A memtable is flushed into the gap while the compaction that was picked on s runs. */
  lemma {:induction false} FlushBetween(s: Engine) returns (s': Engine)
    requires Stands(s, [FIRST, LAST_ONE], [LOW_FIRST, LOW_LAST], 7, 4, {OLD_FIRST, OLD_LAST, PUT_FIRST, PUT_LAST})
    ensures Follows(s, Event.Flush(2, BETWEEN), s')
    ensures Stands(s', [FIRST, LAST_ONE], [LOW_FIRST, BETWEEN, LOW_LAST], 8, 5, {OLD_FIRST, OLD_LAST, PUT_FIRST, PUT_LAST, PUT_BETWEEN})
    ensures s'.running == s.running
  {
    hide Sound, AllRecorded, Listed, Follows, ValidFile;
    Lists();
    OneEntry(3, OLD_FIRST);
    OneEntry(4, OLD_LAST);
    OneEntry(5, PUT_FIRST);
    OneEntry(6, PUT_LAST);
    s' := FlushTwo(s, [FIRST, LAST_ONE], [LOW_FIRST, LOW_LAST], 2, 7, PUT_BETWEEN, [FIRST, LAST_ONE], [LOW_FIRST, BETWEEN, LOW_LAST]);
  }

  // ---------------------------------------------------------------------------------------------
  // The compaction
  // ---------------------------------------------------------------------------------------------

  const INPUTS0 := [FIRST, LAST_ONE]
  const INPUTS1 := [LOW_FIRST, LOW_LAST]
  const INPUT := [PUT_FIRST, OLD_FIRST, PUT_LAST, OLD_LAST]
  const EDIT := Edit([(1, 5), (1, 6), (2, 3), (2, 4)], [(2, OUTPUT)])

  lemma {:induction false} GapChosen()
    ensures Choice(1, INPUTS0, INPUTS0) && NextInputs(INPUTS1, INPUTS0, INPUTS1)
  {
    OneEntry(3, OLD_FIRST);
    OneEntry(4, OLD_LAST);
    OneEntry(5, PUT_FIRST);
    OneEntry(6, PUT_LAST);
    assert INPUTS0[0] == FIRST && INPUTS0[1] == LAST_ONE && INPUTS1[0] == LOW_FIRST && INPUTS1[1] == LOW_LAST;
    assert Slice(INPUTS0, INPUTS0, 0, 2) && NothingContinues(INPUTS0, INPUTS0[1].largest);
    var span := Range(Some(1.0), Some(3.0));
    assert Spans(INPUTS0, span);
    assert INPUTS1[..1] == [LOW_FIRST] && [LOW_FIRST][..0] == [];
    assert Select([LOW_FIRST], span) == [LOW_FIRST];
    assert Select(INPUTS1, span) == INPUTS1;
  }

  lemma {:induction false} GapNumbers()
    ensures Numbers(INPUTS0) == {5, 6} && Numbers(INPUTS1) == {3, 4}
  {
    assert INPUTS0[0] == FIRST && INPUTS0[1] == LAST_ONE && INPUTS1[0] == LOW_FIRST && INPUTS1[1] == LOW_LAST;
    assert FIRST in INPUTS0 && LAST_ONE in INPUTS0 && LOW_FIRST in INPUTS1 && LOW_LAST in INPUTS1;
  }

  lemma {:induction false} GapEdit()
    ensures IsCompactionEdit(EDIT, 1, INPUTS0, INPUTS1, [OUTPUT])
  {
    hide Numbers;
    GapNumbers();
    assert EDIT.added[0] == (2, OUTPUT);
    assert EDIT.deleted[0] == (1, 5) && EDIT.deleted[1] == (1, 6) && EDIT.deleted[2] == (2, 3) && EDIT.deleted[3] == (2, 4);
    assert DeletedAt(1, EDIT.deleted) == {5, 6};
    assert DeletedAt(2, EDIT.deleted) == {3, 4};
  }

  lemma {:induction false} GapSorted()
    ensures Sorted(INPUT)
  {
    assert INPUT[0] == PUT_FIRST && INPUT[1] == OLD_FIRST && INPUT[2] == PUT_LAST && INPUT[3] == OLD_LAST;
  }

  lemma {:induction false} GapInput()
    ensures ToSet(INPUT) == FileEntries(INPUTS0) + FileEntries(INPUTS1)
  {
    hide Less, ValidFile, UniquelyKeyed;
    OneEntry(3, OLD_FIRST);
    OneEntry(4, OLD_LAST);
    OneEntry(5, PUT_FIRST);
    OneEntry(6, PUT_LAST);
    assert INPUT[0] == PUT_FIRST && INPUT[1] == OLD_FIRST && INPUT[2] == PUT_LAST && INPUT[3] == OLD_LAST;
    assert forall e :: e in INPUT <==> e == PUT_FIRST || e == OLD_FIRST || e == PUT_LAST || e == OLD_LAST;
    assert FIRST in INPUTS0 && LAST_ONE in INPUTS0 && LOW_FIRST in INPUTS1 && LOW_LAST in INPUTS1;
    assert forall f :: f in INPUTS0 <==> f == FIRST || f == LAST_ONE;
    assert forall f :: f in INPUTS1 <==> f == LOW_FIRST || f == LOW_LAST;
  }

  lemma {:induction false} GapKept(base: UserKey -> bool)
    ensures Kept(INPUT, 4, base, 4) == [PUT_FIRST, PUT_LAST]
  {
    assert INPUT[0] == PUT_FIRST && INPUT[1] == OLD_FIRST && INPUT[2] == PUT_LAST && INPUT[3] == OLD_LAST;
    assert Kept(INPUT, 4, base, 0) == [];
    assert Kept(INPUT, 4, base, 1) == [PUT_FIRST];
    assert Kept(INPUT, 4, base, 2) == [PUT_FIRST];
    assert Kept(INPUT, 4, base, 3) == [PUT_FIRST, PUT_LAST];
  }

  function EndState(s: Engine): Engine
    requires |s.version| == NUM_LEVELS
  {
    Engine(After(s.version, EDIT), 9, 9, 5, 4, s.manifest + [EDIT], s.written, None)
  }

  const OUTPUTS := [[PUT_FIRST, PUT_LAST]]
  const ENDING := Event.Compact(1, INPUTS0, INPUTS1, INPUT, 4, OUTPUTS, [OUTPUT], EDIT)

  lemma {:induction false} GapEnds(s: Engine)
    requires Stands(s, INPUTS0, [LOW_FIRST, BETWEEN, LOW_LAST], 8, 5, {OLD_FIRST, OLD_LAST, PUT_FIRST, PUT_LAST, PUT_BETWEEN})
    requires s.running.Some? && s.running.value.version == Two(INPUTS0, INPUTS1) && s.running.value.nextFile == 7
    ensures Follows(s, ENDING, EndState(s)) && EndState(s).version == Two([], [OUTPUT, BETWEEN])
  {
    hide Less, Sorted, LevelInvariant, Listed, UniquelyKeyed, Contents, AppliedLevel, IsCompactionEdit, Choice, NextInputs, Kept, FileEntries, Grown,
      ValidOutputs, AllRecorded, ValidFile, CameAfter;
    var r, outs := s.running.value, [OUTPUT];
    OutputFile();
    GapChosen();
    GapEdit();
    GapSorted();
    GapInput();
    GapKept(BaseTest(r.version, 1));
    CutInTwo([PUT_FIRST, PUT_LAST], [OLD_FIRST]);
    assert r.version[1] == INPUTS0 && r.version[2] == INPUTS1;
    FreeNumbers(s, outs);
    AfterIsApplied(s.version, EDIT);
    GapEndsOn(s);
    GapVersion(r.version, s.version, After(s.version, EDIT));
  }

  lemma {:induction false} GapEndsOn(s: Engine)
    requires Stands(s, INPUTS0, [LOW_FIRST, BETWEEN, LOW_LAST], 8, 5, {OLD_FIRST, OLD_LAST, PUT_FIRST, PUT_LAST, PUT_BETWEEN})
    requires s.running.Some? && s.running.value.version == Two(INPUTS0, INPUTS1) && s.running.value.nextFile == 7
    ensures EndsOn(s.running.value.version, s.version, 1, INPUTS0, INPUTS1, [OUTPUT], EDIT, After(s.version, EDIT))
  {
    hide Less, Sorted, LevelInvariant, Listed, UniquelyKeyed, Contents, AppliedLevel, IsCompactionEdit, Choice, NextInputs, Kept, FileEntries, Grown,
      ValidOutputs, AllRecorded, ValidFile, CameAfter;
    var r, outs := s.running.value, [OUTPUT];
    OutputFile();
    GapChosen();
    GapEdit();
    GapSorted();
    GapInput();
    GapKept(BaseTest(r.version, 1));
    CutInTwo([PUT_FIRST, PUT_LAST], [OLD_FIRST]);
    assert r.version[1] == INPUTS0 && r.version[2] == INPUTS1;
    NewOutputs(r.version, 7, 1, INPUTS0, INPUTS1, INPUT, 4, OUTPUTS, outs);
    FreeNumbers(s, outs);
    AfterIsApplied(s.version, EDIT);
  }

  lemma {:induction false} GapVersion(v: Levels, w: Levels, w': Levels)
    requires v == Two(INPUTS0, INPUTS1) && w == Two(INPUTS0, [LOW_FIRST, BETWEEN, LOW_LAST])
    requires EndsOn(v, w, 1, INPUTS0, INPUTS1, [OUTPUT], EDIT, w')
    ensures w' == Two([], [OUTPUT, BETWEEN])
  {
    hide Listed, EndsOn, Compacted;
    var goal := Two([], [OUTPUT, BETWEEN]);
    Lists();
    TwoListed([], [OUTPUT, BETWEEN]);
    SizeOf(v, w, 1, INPUTS0, INPUTS1, [OUTPUT], EDIT, w');
    forall l, g | 0 <= l < NUM_LEVELS ensures Listed(w'[l]) && (g in w'[l] <==> g in goal[l]) {
      EndMembers(v, w, 1, INPUTS0, INPUTS1, [OUTPUT], EDIT, w', l);
      TwoMember(INPUTS0, INPUTS1, l, g);
      TwoMember(INPUTS0, [LOW_FIRST, BETWEEN, LOW_LAST], l, g);
      TwoMember([], [OUTPUT, BETWEEN], l, g);
    }
    forall l | 0 <= l < NUM_LEVELS ensures Listed(w'[l]) && Listed(goal[l]) {
      EndMembers(v, w, 1, INPUTS0, INPUTS1, [OUTPUT], EDIT, w', l);
    }
    SameLevels(w', goal);
  }

  // ---------------------------------------------------------------------------------------------
  // What is read in the end
  // ---------------------------------------------------------------------------------------------

  /** Level 2 answers nothing for the key written between: the search ends at the output that spans it. */
  lemma {:induction false} SearchMisses(snapshot: nat)
    requires snapshot >= 5
    ensures LevelGet([OUTPUT, BETWEEN], 2.0, snapshot) == None && LevelGet([], 2.0, snapshot) == None
  {
    OutputFile();
    OneEntry(7, PUT_BETWEEN);
    var files, key := [OUTPUT, BETWEEN], SeekKey(2.0, snapshot);
    assert files[0] == OUTPUT && files[1] == BETWEEN;
    assert !Less(BETWEEN.largest, key) && !Less(OUTPUT.largest, key);
    assert Bisect(files, key, 0, 0) == 0;
    assert Bisect(files, key, 0, 1) == 0;
    assert Bisect(files, key, 0, 2) == 0;
    var entries := OUTPUT.entries;
    assert forall e :: e in entries ==> e == PUT_FIRST || e == PUT_LAST;
    TableAnswers(entries, 2.0, snapshot);
  }

  lemma {:induction false} StillWritten(snapshot: nat)
    requires snapshot >= 5
    ensures View(Contents(Two([], [OUTPUT, BETWEEN])), 2.0, snapshot) == Found([7])
  {
    var v: Levels := Two([], [OUTPUT, BETWEEN]);
    OutputFile();
    OneEntry(7, PUT_BETWEEN);
    forall e | e in Contents(v) ensures e in {PUT_FIRST, PUT_LAST, PUT_BETWEEN} {
      var l: nat, f: File :| 0 <= l < |v| && f in v[l] && e in f.entries;
      TwoMember([], [OUTPUT, BETWEEN], l, f);
    }
    assert BETWEEN in v[2] && PUT_BETWEEN in BETWEEN.entries;
    assert Visible(Contents(v), 2.0, snapshot, PUT_BETWEEN);
    assert Newest(Contents(v), 2.0, snapshot, PUT_BETWEEN);
    ViewIs(Contents(v), 2.0, snapshot, PUT_BETWEEN);
  }

  /**
   A run from an empty database. A manual compaction takes two files of level 1 with the two files of level 2 below them;
   between them both levels have a gap. A memtable flushed while it runs goes to level 2, into the gap. The output of the
   compaction spans the gap: level 2 is not sorted any more, and no level answers a read of the key flushed, although its
   entry is there.
   */
  lemma {:induction false} RunHidesWrite() returns (run: seq<Engine>, events: seq<Event>)
    ensures AnyRun(run, events) && |run| == 8 && run[4].running == None && events[4] == Begin && events[6] == ENDING
    ensures (forall i :: 0 <= i < 7 ==> ValidVersion(run[i].version)) && !ValidVersion(run[7].version)
    ensures |run[7].version| == NUM_LEVELS && run[7].version[0] == []
    ensures forall snapshot: nat :: snapshot >= 5 ==>
              && View(Contents(run[7].version), 2.0, snapshot) == Found([7])
              && forall l :: 1 <= l < NUM_LEVELS ==> LevelGet(run[7].version[l], 2.0, snapshot) == None
  {
    hide Happens, Sound, AllRecorded, View, ValidVersion, Contents, LevelGet;
    var s1, s2, s3, s4 := FourFlushes();
    PickHappens(s4);
    var s6 := FlushBetween(Picked(s4));
    GapEnds(s6);
    var s7 := EndState(s6);
    run := [Empty(), s1, s2, s3, s4, Picked(s4), s6, s7];
    events := [Event.Flush(2, LOW_FIRST), Event.Flush(2, LOW_LAST), Event.Flush(1, FIRST), Event.Flush(1, LAST_ONE), Begin,
               Event.Flush(2, BETWEEN), ENDING];
    NotSorted();
    forall snapshot: nat | snapshot >= 5
      ensures View(Contents(run[7].version), 2.0, snapshot) == Found([7])
      ensures forall l :: 1 <= l < NUM_LEVELS ==> LevelGet(run[7].version[l], 2.0, snapshot) == None
    {
      SearchMisses(snapshot);
      StillWritten(snapshot);
    }
  }

  lemma {:induction false} NotSorted()
    ensures !ValidVersion(Two([], [OUTPUT, BETWEEN]))
  {
    hide NewerNumbers, NewerLevels, UniquelyKeyed, Contents, Listed, ValidFile;
    var v: Levels := Two([], [OUTPUT, BETWEEN]);
    OutputFile();
    OneEntry(7, PUT_BETWEEN);
    assert v[2][0] == OUTPUT && v[2][1] == BETWEEN;
    assert !Less(OUTPUT.largest, BETWEEN.smallest);
    assert !DisjointLevel(v[2]);
  }
}
