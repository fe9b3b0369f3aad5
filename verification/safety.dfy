/**
 A whole compaction against the whole database: the inputs come from SetupOtherInputs, everything
 else stays, and the question is whether any read from the smallest snapshot on can change.
 */
module CompactionSafety {
  import opened Keys
  import opened Version
  import opened Lookup
  import opened Selection
  import opened DropRule
  import opened CompactionLoop

  function Without(files: seq<File>, gone: seq<File>): (r: seq<File>)
    ensures forall f :: f in r <==> f in files && f !in gone
  {
    if files == [] then []
    else (if files[0] in gone then [] else [files[0]]) + Without(files[1..], gone)
  }

  /** The version without the inputs of a compaction of level. */
  function Remaining(v: Levels, level: nat, inputs0: seq<File>, inputs1: seq<File>): Levels
    requires level + 1 < |v|
  {
    v[level := Without(v[level], inputs0)][level + 1 := Without(v[level + 1], inputs1)]
  }

  ghost function FileEntries(files: seq<File>): set<Entry> {
    set f, e | f in files && e in f.entries :: e
  }

  /** Everything a read can reach outside of the inputs. */
  ghost function Rest(db: Database, level: nat, inputs0: seq<File>, inputs1: seq<File>): set<Entry>
    requires level + 1 < |db.current|
  {
    ToSet(db.mem) + ToSet(db.ImmEntries()) + Contents(Remaining(db.current, level, inputs0, inputs1))
  }

  /** A compaction of level as SetupOtherInputs arranges it, with its merged input. */
  ghost predicate Arranged(db: Database, level: nat, inputs0: seq<File>, inputs1: seq<File>, input: seq<Entry>) {
    && db.Valid() && level + 1 < NUM_LEVELS
    && Choice(level, db.current[level], inputs0)
    && NextInputs(db.current[level + 1], inputs0, inputs1)
    && Sorted(input) && ToSet(input) == FileEntries(inputs0) + FileEntries(inputs1)
  }

  lemma {:induction false} ChoiceSettled(v: Levels, level: nat, inputs0: seq<File>)
    requires LevelInvariant(v) && level < NUM_LEVELS && Choice(level, v[level], inputs0)
    ensures Settled(v[level], inputs0)
    ensures forall f :: f in inputs0 ==> f in v[level]
  {
    ChoiceIsSubset(level, v[level], inputs0);
    if level == 0 {
      ClosedIsSettled(v[level], inputs0);
    } else {
      var E := set f, e | f in v[level] && e in f.entries :: e;
      assert E <= Contents(v);
      SubsetUniquelyKeyed(E, Contents(v));
      SliceIsSettled(v[level], inputs0);
    }
  }

  ghost predicate SortedLevel(files: seq<File>) {
    DisjointLevel(files) && forall f :: f in files ==> ValidFile(f)
  }

  /** A file of the next level outside of the inputs shares no user key with inputs0. */
  lemma {:induction false} OutsiderSharesNothing(next: seq<File>, inputs0: seq<File>, inputs1: seq<File>, g: File, f: File, d: Entry, e: Entry)
    requires NextInputs(next, inputs0, inputs1) && g in next && g !in inputs1 && f in inputs0
    requires ValidFile(f) && ValidFile(g) && d in f.entries && e in g.entries
    ensures d.key.user != e.key.user
  {
    var span :| Spans(inputs0, span) && inputs1 == Select(next, span);
    SelectMembers(next, span);
    FileBounds(f, d);
    FileBounds(g, e);
    assert Inside(f, span);
  }

  ghost predicate AllBefore(g: File, files: seq<File>) {
    forall f :: f in files ==> Less(g.largest, f.smallest)
  }

  ghost predicate AllAfter(g: File, files: seq<File>) {
    forall f :: f in files ==> Less(f.largest, g.smallest)
  }

  /** It lies on one side of all inputs1. */
  lemma {:induction false} OutsiderOnOneSide(next: seq<File>, inputs0: seq<File>, inputs1: seq<File>, g: File)
    requires SortedLevel(next) && NextInputs(next, inputs0, inputs1)
    requires g in next && g !in inputs1
    ensures AllBefore(g, inputs1) || AllAfter(g, inputs1)
  {
    var span :| Spans(inputs0, span) && inputs1 == Select(next, span);
    SelectMembers(next, span);
    forall f | f in inputs1
      ensures if g.largest.user < span.begin.value then Less(g.largest, f.smallest) else Less(f.largest, g.smallest)
    {
      OrderInLevel(next, f, g);
    }
  }

  lemma {:induction false} OrderInLevel(files: seq<File>, f: File, g: File)
    requires SortedLevel(files) && f in files && g in files && f != g
    ensures Less(f.largest, g.smallest) || Less(g.largest, f.smallest)
    ensures f.smallest.user <= f.largest.user && g.smallest.user <= g.largest.user
  {
    var i :| 0 <= i < |files| && files[i] == f;
    var j :| 0 <= j < |files| && files[j] == g;
    FileOrdered(files, i);
    FileOrdered(files, j);
  }

  // ---------------------------------------------------------------------------------------------
  // Where an older entry of a key of the inputs can hide
  // ---------------------------------------------------------------------------------------------

  /** An outside entry older than an input entry of its user key is in some other file of the version. */
  lemma {:induction false} OutsideFile(db: Database, level: nat, inputs0: seq<File>, inputs1: seq<File>, lt: nat, ft: File, t: Entry, e: Entry)
    returns (m: nat, g: File)
    requires db.Valid() && level + 1 < NUM_LEVELS
    requires lt < NUM_LEVELS && ft in db.current[lt] && t in ft.entries
    requires e in Rest(db, level, inputs0, inputs1)
    requires e.key.user == t.key.user && e.key.sequence < t.key.sequence
    ensures m < NUM_LEVELS && g in db.current[m] && e in g.entries
    ensures m == level ==> g !in inputs0
    ensures m == level + 1 ==> g !in inputs1
  {
    assert NewerEntries(db.mem, ft.entries) && NewerEntries(db.ImmEntries(), ft.entries);
    var r := Remaining(db.current, level, inputs0, inputs1);
    assert e in Contents(r);
    m, g :| 0 <= m < |r| && g in r[m] && e in g.entries;
  }

  /** Such a file can only sit at the next level: shallower files are newer, deeper ones fail the base test. */
  lemma {:induction false} OutsideLevel(v: Levels, level: nat, inputs0: seq<File>, lt: nat, ft: File, t: Entry, m: nat, g: File, e: Entry)
    requires LevelInvariant(v) && level + 1 < NUM_LEVELS && Choice(level, v[level], inputs0)
    requires level <= lt <= level + 1 && ft in v[lt] && (lt == level ==> ft in inputs0) && t in ft.entries
    requires m < NUM_LEVELS && g in v[m] && e in g.entries
    requires m == level ==> g !in inputs0
    requires e.key.user == t.key.user && e.key.sequence < t.key.sequence
    requires BaseLevel(v, level, t.key.user)
    ensures m == level + 1
  {
    assert NewerPair(v, m, lt, g, ft);
    if m == level {
      ChoiceSettled(v, level, inputs0);
    }
    if m >= level + 2 {
      FileBounds(g, e);
    }
  }

  lemma {:induction false} InputFile(level: nat, here: seq<File>, next: seq<File>, inputs0: seq<File>, inputs1: seq<File>, t: Entry)
    returns (f: File, l: nat)
    requires Choice(level, here, inputs0) && NextInputs(next, inputs0, inputs1)
    requires t in FileEntries(inputs0) + FileEntries(inputs1)
    ensures t in f.entries
    ensures (l == level && f in inputs0 && f in here) || (l == level + 1 && f in inputs1 && f in next)
  {
    ChoiceIsSubset(level, here, inputs0);
    var span :| Spans(inputs0, span) && inputs1 == Select(next, span);
    SelectMembers(next, span);
    if t in FileEntries(inputs0) {
      f :| f in inputs0 && t in f.entries;
      l := level;
    } else {
      f :| f in inputs1 && t in f.entries;
      l := level + 1;
    }
  }

  /** k is the last key of inputs1, and a file left at the next level goes on with its user key. */
  ghost predicate CutAtNextLevel(v: Levels, level: nat, inputs1: seq<File>, user: UserKey)
    requires level + 1 < |v|
  {
    exists k :: IsLargestKey(inputs1, k) && k.user == user && !NothingContinues(v[level + 1], k)
  }

  lemma {:induction false} NextInputsAreThere(next: seq<File>, inputs0: seq<File>, inputs1: seq<File>)
    requires NextInputs(next, inputs0, inputs1)
    ensures forall f :: f in inputs1 ==> f in next
  {
    var span :| Spans(inputs0, span) && inputs1 == Select(next, span);
    SelectMembers(next, span);
  }

  /** Inputs and rest together are the whole database. */
  lemma {:induction false} InputsAndRest(db: Database, level: nat, inputs0: seq<File>, inputs1: seq<File>)
    requires level + 1 < |db.current|
    requires forall f :: f in inputs0 ==> f in db.current[level]
    requires forall f :: f in inputs1 ==> f in db.current[level + 1]
    ensures FileEntries(inputs0) + FileEntries(inputs1) + Rest(db, level, inputs0, inputs1) == db.All()
  {
    var v: Levels, r: Levels := db.current, Remaining(db.current, level, inputs0, inputs1);
    forall e | e in Contents(v)
      ensures e in FileEntries(inputs0) + FileEntries(inputs1) + Contents(r)
    {
      var m: nat, g: File :| 0 <= m < |v| && g in v[m] && e in g.entries;
      if (m == level && g in inputs0) || (m == level + 1 && g in inputs1) {
      } else {
        assert g in r[m];
      }
    }
    forall e | e in Contents(r)
      ensures e in Contents(v)
    {
      var m: nat, g: File :| 0 <= m < |r| && g in r[m] && e in g.entries;
      assert g in v[m];
    }
  }

  lemma {:induction false} ArrangedIsAll(db: Database, level: nat, inputs0: seq<File>, inputs1: seq<File>, input: seq<Entry>)
    requires Arranged(db, level, inputs0, inputs1, input)
    ensures ToSet(input) + Rest(db, level, inputs0, inputs1) == db.All()
    ensures ValidInput(input)
  {
    ChoiceIsSubset(level, db.current[level], inputs0);
    NextInputsAreThere(db.current[level + 1], inputs0, inputs1);
    InputsAndRest(db, level, inputs0, inputs1);
    SubsetUniquelyKeyed(ToSet(input), db.All());
    forall e | e in input ensures e.key.sequence <= MAX_SEQUENCE {
      assert e in ToSet(input);
      var f, l := InputFile(level, db.current[level], db.current[level + 1], inputs0, inputs1, e);
      assert f in db.current[l] && ValidFile(f);
    }
  }

  /** The outsider holding the older entry starts with the user key that inputs1 ends with. */
  lemma {:induction false} OutsiderContinues(next: seq<File>, inputs0: seq<File>, inputs1: seq<File>, ft: File, t: Entry, g: File, e: Entry,
                          k: InternalKey)
    requires SortedLevel(next) && NextInputs(next, inputs0, inputs1)
    requires ft in inputs1 && t in ft.entries && g in next && g !in inputs1 && e in g.entries
    requires e.key.user == t.key.user && e.key.sequence < t.key.sequence
    requires IsLargestKey(inputs1, k)
    ensures k.user == t.key.user && Continues(g, k)
  {
    NextInputsAreThere(next, inputs0, inputs1);
    OutsiderOnOneSide(next, inputs0, inputs1, g);
    FileBounds(ft, t);
    FileBounds(g, e);
    assert ft in inputs1;
    PackedOrder(e.key, t.key);
    assert AllAfter(g, inputs1);
    var h :| h in inputs1 && h.largest == k;
    assert AtMost(ft.largest, k);
  }

  /** Only a user key cut between two files of the next level can be uncovered. */
  lemma {:induction false} OnlyCutKeysUncovered(db: Database, level: nat, inputs0: seq<File>, inputs1: seq<File>, input: seq<Entry>,
                             smallestSnapshot: nat, user: UserKey)
    requires Arranged(db, level, inputs0, inputs1, input)
    requires Uncovers(input, Rest(db, level, inputs0, inputs1), smallestSnapshot, BaseTest(db.current, level), user)
    ensures CutAtNextLevel(db.current, level, inputs1, user)
  {
    var t, e := UncoveredPair(db, level, inputs0, inputs1, input, smallestSnapshot, user);
    OlderIsCut(db, level, inputs0, inputs1, input, t, e);
  }

  lemma {:induction false} UncoveredPair(db: Database, level: nat, inputs0: seq<File>, inputs1: seq<File>, input: seq<Entry>,
                      smallestSnapshot: nat, user: UserKey) returns (t: Entry, e: Entry)
    requires Arranged(db, level, inputs0, inputs1, input)
    requires Uncovers(input, Rest(db, level, inputs0, inputs1), smallestSnapshot, BaseTest(db.current, level), user)
    ensures t in input && e in Rest(db, level, inputs0, inputs1)
    ensures t.key.user == user == e.key.user && e.key.sequence < t.key.sequence
    ensures BaseLevel(db.current, level, user)
  {
    hide Less, Sorted, ValidFile, DisjointLevel, NewerNumbers, NewerLevels, Contents, ValidInput, Choice, NextInputs, Rest, UniquelyKeyed, Newest, Visible;
    ArrangedIsAll(db, level, inputs0, inputs1, input);
    t, e := UncoveredEntry(input, Rest(db, level, inputs0, inputs1), smallestSnapshot, BaseTest(db.current, level), user);
    assert BaseTest(db.current, level)(user);
  }

  lemma {:induction false} OlderIsCut(db: Database, level: nat, inputs0: seq<File>, inputs1: seq<File>, input: seq<Entry>, t: Entry, e: Entry)
    requires Arranged(db, level, inputs0, inputs1, input)
    requires t in input && e in Rest(db, level, inputs0, inputs1)
    requires t.key.user == e.key.user && e.key.sequence < t.key.sequence
    requires BaseLevel(db.current, level, t.key.user)
    ensures CutAtNextLevel(db.current, level, inputs1, t.key.user)
  {
    hide Less, Sorted, NewerNumbers, NewerLevels, Contents, UniquelyKeyed, Choice, NextInputs, DisjointLevel, Rest, BaseLevel;
    var v := db.current;
    var ft, lt := InputFile(level, v[level], v[level + 1], inputs0, inputs1, t);
    var m, g := OutsideFile(db, level, inputs0, inputs1, lt, ft, t, e);
    OutsideLevel(v, level, inputs0, lt, ft, t, m, g, e);
    if lt == level {
      OutsiderSharesNothing(v[level + 1], inputs0, inputs1, g, ft, t, e);
    } else {
      var k := LargestExists(inputs1);
      OutsiderContinues(v[level + 1], inputs0, inputs1, ft, t, g, e, k);
    }
  }

  lemma {:induction false} LargestExists(files: seq<File>) returns (k: InternalKey)
    requires files != []
    ensures IsLargestKey(files, k)
  {
    k := files[0].largest;
    if |files| > 1 {
      var j := LargestExists(files[1..]);
      k := if Less(k, j) then j else k;
      assert files == [files[0]] + files[1..];
    }
  }

  // ---------------------------------------------------------------------------------------------
  // Main results
  // ---------------------------------------------------------------------------------------------

  /** Every read of the database from the smallest snapshot on answers the same after the compaction. */
  ghost predicate KeepsReads(db: Database, level: nat, inputs0: seq<File>, inputs1: seq<File>, input: seq<Entry>,
                             smallestSnapshot: nat)
    requires level + 1 < |db.current|
  {
    KeepsAllReads(input, Rest(db, level, inputs0, inputs1), smallestSnapshot, BaseTest(db.current, level))
  }

  /** The user keys cut at the end of inputs1. */
  ghost function CutKeys(v: Levels, level: nat, inputs1: seq<File>): iset<UserKey>
    requires level + 1 < |v|
  {
    iset user | CutAtNextLevel(v, level, inputs1, user)
  }

  /**
   A compaction keeps every read from the smallest snapshot on exactly when no user key cut at the
   end of inputs1 has a dropped tombstone in the inputs and a live entry below it in the file left behind.
   */
  lemma {:induction false} CompactionSafeIff(db: Database, level: nat, inputs0: seq<File>, inputs1: seq<File>, input: seq<Entry>,
                          smallestSnapshot: nat)
    requires Arranged(db, level, inputs0, inputs1, input) && smallestSnapshot < MAX_SEQUENCE
    ensures KeepsReads(db, level, inputs0, inputs1, input, smallestSnapshot) <==>
            !exists user :: user in CutKeys(db.current, level, inputs1)
                && Uncovers(input, Rest(db, level, inputs0, inputs1), smallestSnapshot, BaseTest(db.current, level), user)
  {
    var rest, base := Rest(db, level, inputs0, inputs1), BaseTest(db.current, level);
    ArrangedIsAll(db, level, inputs0, inputs1, input);
    forall user | Uncovers(input, rest, smallestSnapshot, base, user)
      ensures user in CutKeys(db.current, level, inputs1)
    {
      OnlyCutKeysUncovered(db, level, inputs0, inputs1, input, smallestSnapshot, user);
    }
    KeepsReadsAmong(input, rest, smallestSnapshot, base, CutKeys(db.current, level, inputs1));
  }

  /** AddBoundaryInputs at level + 1 would have been enough. */
  lemma {:induction false} SafeWithoutCut(db: Database, level: nat, inputs0: seq<File>, inputs1: seq<File>, input: seq<Entry>,
                       smallestSnapshot: nat)
    requires Arranged(db, level, inputs0, inputs1, input) && smallestSnapshot < MAX_SEQUENCE
    requires forall k :: IsLargestKey(inputs1, k) ==> NothingContinues(db.current[level + 1], k)
    ensures KeepsReads(db, level, inputs0, inputs1, input, smallestSnapshot)
  {
    CompactionSafeIff(db, level, inputs0, inputs1, input, smallestSnapshot);
  }

  // ---------------------------------------------------------------------------------------------
  // The cut that loses a deletion
  // ---------------------------------------------------------------------------------------------

  const PUT_LOW := Entry(InternalKey(0.5, 5, Live), [])
  const PUT_MID := Entry(InternalKey(1.0, 10, Live), [])
  const DELETE_HIGH := Entry(InternalKey(2.0, 8, Deletion), [])
  const OLD_HIGH := Entry(InternalKey(2.0, 3, Live), [7])

  function FileOf(number: nat, entries: seq<Entry>): File
    requires entries != []
  {
    File(number, 1, entries[0].key, entries[|entries| - 1].key, entries)
  }

  const UPPER := FileOf(11, [PUT_MID])
  const NEXT_LEFT := FileOf(7, [PUT_LOW, DELETE_HIGH])
  const NEXT_RIGHT := FileOf(8, [OLD_HIGH])
  const CUT_DATABASE := Database([], None, [[], [UPPER], [NEXT_LEFT, NEXT_RIGHT], [], [], [], []])

  lemma {:induction false} CutEntries()
    ensures forall e :: e in UPPER.entries <==> e == PUT_MID
    ensures forall e :: e in NEXT_LEFT.entries <==> e == PUT_LOW || e == DELETE_HIGH
    ensures forall e :: e in NEXT_RIGHT.entries <==> e == OLD_HIGH
    ensures PUT_MID in UPPER.entries && PUT_LOW in NEXT_LEFT.entries && DELETE_HIGH in NEXT_LEFT.entries
    ensures OLD_HIGH in NEXT_RIGHT.entries
  {
    assert NEXT_LEFT.entries[0] == PUT_LOW && NEXT_LEFT.entries[1] == DELETE_HIGH;
  }

  lemma {:induction false} CutFiles(l: nat, f: File)
    ensures l < NUM_LEVELS && f in CUT_DATABASE.current[l] <==>
            (l == 1 && f == UPPER) || (l == 2 && (f == NEXT_LEFT || f == NEXT_RIGHT))
  {
  }

  lemma {:induction false} CutContents()
    ensures Contents(CUT_DATABASE.current) == {PUT_LOW, PUT_MID, DELETE_HIGH, OLD_HIGH}
  {
    var v := CUT_DATABASE.current;
    CutEntries();
    CutFiles(1, UPPER);
    CutFiles(2, NEXT_LEFT);
    CutFiles(2, NEXT_RIGHT);
    forall e | e in Contents(v)
      ensures e in {PUT_LOW, PUT_MID, DELETE_HIGH, OLD_HIGH}
    {
      var l: nat, f: File :| l < |v| && f in v[l] && e in f.entries;
      CutFiles(l, f);
    }
  }

  lemma {:induction false} CutPairs(l: nat, m: nat, f: File, g: File)
    ensures NewerPair(CUT_DATABASE.current, l, m, f, g)
  {
    CutFiles(l, f);
    CutFiles(m, g);
  }

  lemma {:induction false} CutLevels()
    ensures LevelInvariant(CUT_DATABASE.current)
  {
    hide ValidFile, NewerPair, Contents;
    var v := CUT_DATABASE.current;
    CutContents();
    forall l: nat, f | l < |v| && f in v[l] ensures ValidFile(f) {
      CutFiles(l, f);
      CutFilesValid();
    }
    forall l: nat, m: nat, f, g ensures NewerPair(v, l, m, f, g) { CutPairs(l, m, f, g); }
    forall l | 1 <= l < |v| ensures DisjointLevel(v[l]) {
      if l == 2 {
        assert v[l] == [NEXT_LEFT, NEXT_RIGHT];
      }
    }
  }

  lemma {:induction false} CutFilesValid()
    ensures ValidFile(UPPER) && ValidFile(NEXT_LEFT) && ValidFile(NEXT_RIGHT)
  {
    CutEntries();
  }

  lemma {:induction false} CutDatabaseValid()
    ensures CUT_DATABASE.Valid()
  {
    hide LevelInvariant;
    CutLevels();
    CutContents();
    assert CUT_DATABASE.All() == Contents(CUT_DATABASE.current);
  }

  /**
   Level 1 holds key 1.0; level 2 holds a deletion of key 2.0 at the end of one file and the deleted
   value at the start of the next. Compacting level 1 takes the first of these files only, drops the
   deletion, and the deleted value is read again.
   */
  lemma {:induction false} CutLosesDeletion(smallestSnapshot: nat)
    requires 10 <= smallestSnapshot < MAX_SEQUENCE
    ensures var input := [PUT_LOW, PUT_MID, DELETE_HIGH];
            var output := Kept(input, smallestSnapshot, BaseTest(CUT_DATABASE.current, 1), 3);
            && Arranged(CUT_DATABASE, 1, [UPPER], [NEXT_LEFT], input)
            && View(CUT_DATABASE.All(), 2.0, smallestSnapshot) == NotFound
            && View(ToSet(output) + Rest(CUT_DATABASE, 1, [UPPER], [NEXT_LEFT]), 2.0, smallestSnapshot) == Found([7])
  {
    var v := CUT_DATABASE.current;
    var input := [PUT_LOW, PUT_MID, DELETE_HIGH];
    CutArranged();
    var rest, base := Rest(CUT_DATABASE, 1, [UPPER], [NEXT_LEFT]), BaseTest(v, 1);
    ArrangedIsAll(CUT_DATABASE, 1, [UPPER], [NEXT_LEFT], input);
    CutRest();
    CutUncovers(smallestSnapshot);
    CutValidInput();
    ReadLost(input, rest, smallestSnapshot, base, 2.0);
  }

  lemma {:induction false} CutUncovers(smallestSnapshot: nat)
    requires 10 <= smallestSnapshot
    ensures Uncovers([PUT_LOW, PUT_MID, DELETE_HIGH], {OLD_HIGH}, smallestSnapshot, BaseTest(CUT_DATABASE.current, 1), 2.0)
    ensures View({OLD_HIGH}, 2.0, smallestSnapshot) == Found([7])
  {
    var input := [PUT_LOW, PUT_MID, DELETE_HIGH];
    var all := ToSet(input) + {OLD_HIGH};
    assert Newest({OLD_HIGH}, 2.0, smallestSnapshot, OLD_HIGH);
    ViewIs({OLD_HIGH}, 2.0, smallestSnapshot, OLD_HIGH);
    assert input[2] == DELETE_HIGH;
    assert Visible(all, 2.0, smallestSnapshot, DELETE_HIGH);
    assert Newest(all, 2.0, smallestSnapshot, DELETE_HIGH);
    assert BaseTest(CUT_DATABASE.current, 1)(2.0);
  }

  lemma {:induction false} CutRest()
    ensures Rest(CUT_DATABASE, 1, [UPPER], [NEXT_LEFT]) == {OLD_HIGH}
  {
    var v: Levels := CUT_DATABASE.current;
    var r: Levels := Remaining(v, 1, [UPPER], [NEXT_LEFT]);
    CutEntries();
    CutFiles(2, NEXT_RIGHT);
    assert NEXT_RIGHT in r[2];
    forall e | e in Contents(r)
      ensures e == OLD_HIGH
    {
      var l: nat, f: File :| l < |r| && f in r[l] && e in f.entries;
      assert f in v[l];
      CutFiles(l, f);
    }
  }

  lemma {:induction false} CutSelect()
    ensures Spans([UPPER], Range(Some(1.0), Some(1.0)))
    ensures Select([NEXT_LEFT, NEXT_RIGHT], Range(Some(1.0), Some(1.0))) == [NEXT_LEFT]
  {
    var span := Range(Some(1.0), Some(1.0));
    var next := [NEXT_LEFT, NEXT_RIGHT];
    assert UPPER in [UPPER];
    assert next[..1] == [NEXT_LEFT] && [NEXT_LEFT][..0] == [];
    assert Select([NEXT_LEFT], span) == [NEXT_LEFT];
  }

  lemma {:induction false} CutInput()
    ensures ToSet([PUT_LOW, PUT_MID, DELETE_HIGH]) == FileEntries([UPPER]) + FileEntries([NEXT_LEFT])
  {
    var input := [PUT_LOW, PUT_MID, DELETE_HIGH];
    CutEntries();
    assert UPPER in [UPPER] && NEXT_LEFT in [NEXT_LEFT];
    assert input[0] == PUT_LOW && input[1] == PUT_MID && input[2] == DELETE_HIGH;
  }

  lemma {:induction false} CutChosen()
    ensures Choice(1, [UPPER], [UPPER]) && NextInputs([NEXT_LEFT, NEXT_RIGHT], [UPPER], [NEXT_LEFT])
  {
    assert Slice([UPPER], [UPPER], 0, 1) && NothingContinues([UPPER], [UPPER][0].largest);
    CutSelect();
  }

  lemma {:induction false} CutArranged()
    ensures Arranged(CUT_DATABASE, 1, [UPPER], [NEXT_LEFT], [PUT_LOW, PUT_MID, DELETE_HIGH])
  {
    hide ValidInput, Less, LevelInvariant;
    CutDatabaseValid();
    CutInput();
    CutChosen();
    CutValidInput();
    assert CUT_DATABASE.current[1] == [UPPER] && CUT_DATABASE.current[2] == [NEXT_LEFT, NEXT_RIGHT];
  }

  lemma {:induction false} CutValidInput()
    ensures ValidInput([PUT_LOW, PUT_MID, DELETE_HIGH])
    ensures UniquelyKeyed(ToSet([PUT_LOW, PUT_MID, DELETE_HIGH]) + {OLD_HIGH})
  {
  }
}
