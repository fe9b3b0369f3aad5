/**
 Choosing the inputs of a compaction (Version::GetOverlappingInputs, AddBoundaryInputs,
 VersionSet::SetupOtherInputs).
 */
module Selection {
  import opened Keys
  import opened Version

  // ---------------------------------------------------------------------------------------------
  // Ranges of user keys; None is an open end
  // ---------------------------------------------------------------------------------------------

  datatype Range = Range(begin: Option<UserKey>, end: Option<UserKey>)

  predicate Overlaps(f: File, r: Range) {
    && !(r.begin.Some? && f.largest.user < r.begin.value)
    && !(r.end.Some? && f.smallest.user > r.end.value)
  }

  predicate Inside(f: File, r: Range) {
    && (r.begin.Some? ==> r.begin.value <= f.smallest.user)
    && (r.end.Some? ==> f.largest.user <= r.end.value)
  }

  predicate SubRange(r: Range, s: Range) {
    && (s.begin.Some? ==> r.begin.Some? && s.begin.value <= r.begin.value)
    && (s.end.Some? ==> r.end.Some? && r.end.value <= s.end.value)
  }

  /** Every file that meets r lies inside it. */
  ghost predicate Closed(files: seq<File>, r: Range) {
    forall f :: f in files && Overlaps(f, r) ==> Inside(f, r)
  }

  /** The files that meet r, in list order. */
  function Select(files: seq<File>, r: Range): seq<File> {
    if files == [] then []
    else
      var n := |files| - 1;
      if Overlaps(files[n], r) then Select(files[..n], r) + [files[n]] else Select(files[..n], r)
  }

  lemma {:induction false} SelectMembers(files: seq<File>, r: Range)
    ensures forall f :: f in Select(files, r) <==> f in files && Overlaps(f, r)
  {
    if files != [] {
      var n := |files| - 1;
      SelectMembers(files[..n], r);
      assert files == files[..n] + [files[n]];
    }
  }

  // ---------------------------------------------------------------------------------------------
  // GetOverlappingInputs
  // ---------------------------------------------------------------------------------------------

  function CountOutside(files: seq<File>, r: Range): nat {
    if files == [] then 0
    else
      CountOutside(files[1..], r)
      + (if r.begin.Some? && files[0].smallest.user < r.begin.value then 1 else 0)
      + (if r.end.Some? && files[0].largest.user > r.end.value then 1 else 0)
  }

  lemma {:induction false} WideningShrinksCount(files: seq<File>, f: File, r: Range, s: Range)
    requires r.begin.Some? == s.begin.Some? && r.end.Some? == s.end.Some?
    requires SubRange(r, s)
    ensures CountOutside(files, s) <= CountOutside(files, r)
    ensures f in files && r.begin.Some? && f.smallest.user < r.begin.value && s.begin.value == f.smallest.user
            ==> CountOutside(files, s) < CountOutside(files, r)
    ensures f in files && r.end.Some? && f.largest.user > r.end.value && s.end.value == f.largest.user
            ==> CountOutside(files, s) < CountOutside(files, r)
  {
    if files != [] {
      WideningShrinksCount(files[1..], f, r, s);
      assert files == [files[0]] + files[1..];
    }
  }

  /** The files that meet the least overlap-closed range around the given one. */
  ghost predicate MeetsLeastClosed(files: seq<File>, range: Range, reach: Range, inputs: seq<File>) {
    && inputs == Select(files, reach) && Closed(files, reach) && SubRange(range, reach)
    && forall s :: Closed(files, s) && SubRange(range, s) ==> SubRange(reach, s)
  }

  /**
   Collects the files of a level that meet [begin, end]. Level-0 files may overlap, so there a file
   that sticks out of the range widens it and restarts the scan. reach is the range finally used.
   */
  method GetOverlappingInputs(level: nat, files: seq<File>, range: Range)
      returns (inputs: seq<File>, ghost reach: Range)
    ensures level > 0 ==> reach == range && inputs == Select(files, range)
    ensures level == 0 ==> MeetsLeastClosed(files, range, reach, inputs)
    ensures level == 0 ==> exists least :: MeetsLeastClosed(files, range, least, inputs)
  {
    var r := range;
    inputs := [];
    var i := 0;
    while i < |files|
      invariant 0 <= i <= |files|
      invariant r.begin.Some? == range.begin.Some? && r.end.Some? == range.end.Some?
      invariant level > 0 ==> r == range
      invariant SubRange(range, r)
      invariant forall s :: Closed(files, s) && SubRange(range, s) ==> SubRange(r, s)
      invariant inputs == Select(files[..i], r)
      invariant level == 0 ==> forall k :: 0 <= k < i && Overlaps(files[k], r) ==> Inside(files[k], r)
      decreases CountOutside(files, r), |files| - i
    {
      var f := files[i];
      assert files[..i + 1][..i] == files[..i];
      i := i + 1;
      if r.begin.Some? && f.largest.user < r.begin.value {
      } else if r.end.Some? && f.smallest.user > r.end.value {
      } else {
        assert f in files && Overlaps(f, r);
        assert forall s :: SubRange(r, s) ==> Overlaps(f, s);
        inputs := inputs + [f];
        if level == 0 {
          if r.begin.Some? && f.smallest.user < r.begin.value {
            WideningShrinksCount(files, f, r, Range(Some(f.smallest.user), r.end));
            r := Range(Some(f.smallest.user), r.end);
            inputs := [];
            i := 0;
          } else if r.end.Some? && f.largest.user > r.end.value {
            WideningShrinksCount(files, f, r, Range(r.begin, Some(f.largest.user)));
            r := Range(r.begin, Some(f.largest.user));
            inputs := [];
            i := 0;
          }
        }
      }
    }
    assert files[..|files|] == files;
    reach := r;
    assert level == 0 ==> MeetsLeastClosed(files, range, reach, inputs);
  }

  // ---------------------------------------------------------------------------------------------
  // AddBoundaryInputs
  // ---------------------------------------------------------------------------------------------

  ghost predicate IsLargestKey(files: seq<File>, k: InternalKey) {
    (exists f :: f in files && f.largest == k) && forall f :: f in files ==> AtMost(f.largest, k)
  }

  method FindLargestKey(files: seq<File>) returns (k: InternalKey)
    requires files != []
    ensures IsLargestKey(files, k)
  {
    k := files[0].largest;
    for i := 1 to |files|
      invariant exists f :: f in files && f.largest == k
      invariant forall j :: 0 <= j < i ==> AtMost(files[j].largest, k)
    {
      if Less(k, files[i].largest) {
        assert files[i] in files;
        k := files[i].largest;
      }
    }
  }

  /** f starts after largest but with largest's user key. */
  predicate Continues(f: File, largest: InternalKey) {
    Less(largest, f.smallest) && f.smallest.user == largest.user
  }

  method FindSmallestBoundaryFile(levelFiles: seq<File>, largest: InternalKey) returns (b: Option<File>)
    ensures b == None ==> forall f :: f in levelFiles ==> !Continues(f, largest)
    ensures b.Some? ==> b.value in levelFiles && Continues(b.value, largest)
    ensures b.Some? ==> forall f :: f in levelFiles && Continues(f, largest) ==> AtMost(b.value.smallest, f.smallest)
  {
    b := None;
    for i := 0 to |levelFiles|
      invariant b == None ==> forall k :: 0 <= k < i ==> !Continues(levelFiles[k], largest)
      invariant b.Some? ==> b.value in levelFiles && Continues(b.value, largest)
      invariant b.Some? ==> forall k :: 0 <= k < i && Continues(levelFiles[k], largest) ==>
                                        AtMost(b.value.smallest, levelFiles[k].smallest)
    {
      var f := levelFiles[i];
      if Less(largest, f.smallest) && f.smallest.user == largest.user {
        if b == None || Less(f.smallest, b.value.smallest) {
          b := Some(f);
        }
      }
    }
  }

  function CountAfter(files: seq<File>, k: InternalKey): nat {
    if files == [] then 0 else CountAfter(files[1..], k) + (if Less(k, files[0].smallest) then 1 else 0)
  }

  lemma {:induction false} CountAfterShrinks(files: seq<File>, f: File, k: InternalKey)
    requires Less(k, f.smallest) && AtMost(f.smallest, f.largest)
    ensures CountAfter(files, f.largest) <= CountAfter(files, k)
    ensures f in files ==> CountAfter(files, f.largest) < CountAfter(files, k)
  {
    if files != [] {
      CountAfterShrinks(files[1..], f, k);
      assert files == [files[0]] + files[1..];
    }
  }

  /** f is the first file of the level to continue largest. */
  ghost predicate FirstContinuing(levelFiles: seq<File>, f: File, largest: InternalKey) {
    && f in levelFiles && Continues(f, largest)
    && forall g :: g in levelFiles && Continues(g, largest) ==> AtMost(f.smallest, g.smallest)
  }

  ghost predicate BoundaryChain(levelFiles: seq<File>, k: InternalKey, added: seq<File>) {
    added == [] ||
    (var init, last := added[..|added| - 1], added[|added| - 1];
     BoundaryChain(levelFiles, k, init) && FirstContinuing(levelFiles, last, LastLargest(k, init)))
  }

  ghost function LastLargest(k: InternalKey, added: seq<File>): InternalKey {
    if added == [] then k else added[|added| - 1].largest
  }

  ghost predicate NothingContinues(levelFiles: seq<File>, k: InternalKey) {
    forall f :: f in levelFiles ==> !Continues(f, k)
  }

  /** Appends boundary files until no file of the level continues the largest user key. */
  method AddBoundaryInputs(levelFiles: seq<File>, files: seq<File>) returns (r: seq<File>, ghost k: InternalKey)
    requires forall f :: f in levelFiles ==> AtMost(f.smallest, f.largest)
    ensures files == [] ==> r == []
    ensures files <= r
    ensures files != [] ==> IsLargestKey(files, k)
    ensures files != [] ==> BoundaryChain(levelFiles, k, r[|files|..])
    ensures files != [] ==> NothingContinues(levelFiles, LastLargest(k, r[|files|..]))
  {
    r := files;
    if files == [] {
      k := InternalKey(0.0, 0, Deletion);
      return;
    }
    var largest := FindLargestKey(files);
    k := largest;
    var searching := true;
    while searching
      invariant files <= r
      invariant BoundaryChain(levelFiles, k, r[|files|..])
      invariant largest == LastLargest(k, r[|files|..])
      invariant !searching ==> NothingContinues(levelFiles, largest)
      decreases CountAfter(levelFiles, largest), searching
    {
      var b := FindSmallestBoundaryFile(levelFiles, largest);
      if b.Some? {
        CountAfterShrinks(levelFiles, b.value, largest);
        ghost var added := r[|files|..];
        assert (added + [b.value])[..|added|] == added;
        assert (r + [b.value])[|files|..] == added + [b.value];
        r := r + [b.value];
        largest := b.value.largest;
      } else {
        searching := false;
      }
    }
  }

  // ---------------------------------------------------------------------------------------------
  // What a choice of files at one level must satisfy
  // ---------------------------------------------------------------------------------------------

  ghost predicate ClosedChoice(files: seq<File>, s: seq<File>) {
    exists r :: Closed(files, r) && s == Select(files, r)
  }

  ghost predicate Slice(files: seq<File>, s: seq<File>, lo: nat, hi: nat) {
    lo < hi <= |files| && s == files[lo..hi]
  }

  /** A run of neighbouring files after which no file goes on with the same user key. */
  ghost predicate SliceChoice(files: seq<File>, s: seq<File>) {
    exists lo: nat, hi: nat :: Slice(files, s, lo, hi) && NothingContinues(files, files[hi - 1].largest)
  }

  /** What PickCompaction and CompactRange hand over. */
  ghost predicate InitialChoice(level: nat, files: seq<File>, s: seq<File>) {
    && s != []
    && (level == 0 ==> ClosedChoice(files, s))
    && (level > 0 ==> exists lo: nat, hi: nat :: Slice(files, s, lo, hi))
  }

  ghost predicate Choice(level: nat, files: seq<File>, s: seq<File>) {
    && s != []
    && (if level == 0 then ClosedChoice(files, s) else SliceChoice(files, s))
  }

  /** The files left at the level are newer than the chosen ones on every user key they share. */
  ghost predicate Settled(files: seq<File>, s: seq<File>) {
    forall f, g :: f in files && f !in s && g in s ==> NewerEntries(f.entries, g.entries)
  }

  lemma {:induction false} ChainIsSlice(files: seq<File>, hi: nat, added: seq<File>)
    requires DisjointLevel(files) && forall f :: f in files ==> ValidFile(f)
    requires 0 < hi <= |files|
    requires BoundaryChain(files, files[hi - 1].largest, added)
    ensures hi + |added| <= |files| && added == files[hi..hi + |added|]
  {
    if added != [] {
      var n := |added| - 1;
      var init, last := added[..n], added[n];
      assert added == init + [last];
      ChainIsSlice(files, hi, init);
      ChainStep(files, hi, init, last);
    }
  }

  lemma {:induction false} ChainStep(files: seq<File>, hi: nat, init: seq<File>, last: File)
    requires DisjointLevel(files) && forall f :: f in files ==> ValidFile(f)
    requires 0 < hi && hi + |init| <= |files| && init == files[hi..hi + |init|]
    requires FirstContinuing(files, last, LastLargest(files[hi - 1].largest, init))
    ensures hi + |init| < |files| && last == files[hi + |init|]
  {
    var j :| 0 <= j < |files| && files[j] == last;
    NextInLevel(files, hi + |init|, j);
  }

  lemma {:induction false} NextInLevel(files: seq<File>, h: nat, j: nat)
    requires DisjointLevel(files) && forall f :: f in files ==> ValidFile(f)
    requires 0 < h <= |files| && j < |files|
    requires FirstContinuing(files, files[j], files[h - 1].largest)
    ensures h < |files| && files[j] == files[h]
  {
    FileOrdered(files, j);
    FileOrdered(files, h - 1);
    if j > h {
      FileOrdered(files, h);
      PackedOrder(files[h].smallest, files[j].smallest);
      assert Continues(files[h], files[h - 1].largest);
    }
  }

  lemma {:induction false} FileOrdered(files: seq<File>, i: nat)
    requires i < |files| && ValidFile(files[i])
    ensures AtMost(files[i].smallest, files[i].largest)
  {
    FileBounds(files[i], files[i].entries[0]);
  }

  lemma {:induction false} AllOrdered(files: seq<File>)
    requires forall f :: f in files ==> ValidFile(f)
    ensures forall f :: f in files ==> AtMost(f.smallest, f.largest)
  {
    forall f | f in files ensures AtMost(f.smallest, f.largest) { FileBounds(f, f.entries[0]); }
  }

  lemma {:induction false} SliceIsSettled(files: seq<File>, s: seq<File>)
    requires DisjointLevel(files) && forall f :: f in files ==> ValidFile(f)
    requires SliceChoice(files, s)
    requires UniquelyKeyed(set f, e | f in files && e in f.entries :: e)
    ensures Settled(files, s)
  {
    hide Less, ValidFile, UniquelyKeyed, NothingContinues;
    var lo: nat, hi: nat :| Slice(files, s, lo, hi) && NothingContinues(files, files[hi - 1].largest);
    forall f, g, d, e | f in files && f !in s && g in s && d in f.entries && e in g.entries && d.key.user == e.key.user
      ensures d.key.sequence > e.key.sequence
    {
      var i :| 0 <= i < |files| && files[i] == f;
      var j :| 0 <= j < |s| && s[j] == g;
      assert files[lo + j] == g;
      if i >= hi {
        LaterFileSharesNothing(files, hi, i, lo + j, d, e);
      } else {
        EarlierFileIsNewer(files, i, lo + j, d, e);
      }
    }
  }

  lemma {:induction false} EarlierFileIsNewer(files: seq<File>, i: nat, j: nat, d: Entry, e: Entry)
    requires DisjointLevel(files) && forall f :: f in files ==> ValidFile(f)
    requires UniquelyKeyed(set f, e | f in files && e in f.entries :: e)
    requires i < j < |files| && d in files[i].entries && e in files[j].entries && d.key.user == e.key.user
    ensures d.key.sequence > e.key.sequence
  {
    FileBounds(files[i], d);
    FileBounds(files[j], e);
    PackedOrder(d.key, e.key);
  }

  lemma {:induction false} LaterFileSharesNothing(files: seq<File>, hi: nat, i: nat, j: nat, d: Entry, e: Entry)
    requires DisjointLevel(files) && forall f :: f in files ==> ValidFile(f)
    requires j < hi <= i < |files| && NothingContinues(files, files[hi - 1].largest)
    requires d in files[i].entries && e in files[j].entries
    ensures e.key.user < d.key.user
  {
    FileBounds(files[i], d);
    FileBounds(files[j], e);
    FileOrdered(files, hi - 1);
    assert !Continues(files[i], files[hi - 1].largest);
  }

  lemma {:induction false} ClosedIsSettled(files: seq<File>, s: seq<File>)
    requires forall f :: f in files ==> ValidFile(f)
    requires ClosedChoice(files, s)
    ensures Settled(files, s)
  {
    var r :| Closed(files, r) && s == Select(files, r);
    SelectMembers(files, r);
    forall f, g, d, e | f in files && f !in s && g in s && d in f.entries && e in g.entries
      ensures d.key.user != e.key.user
    {
      FileBounds(f, d);
      FileBounds(g, e);
      assert Inside(g, r);
    }
  }

  /** In an overlap-closed choice every boundary file is already there. */
  lemma {:induction false} ClosedHasNoBoundary(files: seq<File>, r: Range, k: InternalKey)
    requires forall f :: f in files ==> ValidFile(f)
    requires Closed(files, r) && IsLargestKey(Select(files, r), k)
    ensures NothingContinues(files, k)
  {
    SelectMembers(files, r);
    var g :| g in Select(files, r) && g.largest == k;
    assert Inside(g, r);
    AllOrdered(files);
    forall f | f in files
      ensures !Continues(f, k)
    {
      if Continues(f, k) {
        assert Overlaps(f, r);
        assert f in Select(files, r);
        PackedOrder(f.largest, k);
      }
    }
  }

  /** The files that meet a range are neighbours. */
  ghost predicate Convex(files: seq<File>, r: Range) {
    forall i, j, k :: 0 <= i < j < k < |files| && Overlaps(files[i], r) && Overlaps(files[k], r) ==> Overlaps(files[j], r)
  }

  lemma {:induction false} DisjointIsConvex(files: seq<File>, r: Range)
    requires DisjointLevel(files) && forall f :: f in files ==> ValidFile(f)
    ensures Convex(files, r)
  {
    forall i, j, k | 0 <= i < j < k < |files| && Overlaps(files[i], r) && Overlaps(files[k], r)
      ensures Overlaps(files[j], r)
    {
      UserRangesIncrease(files, i, j);
      UserRangesIncrease(files, j, k);
    }
  }

  lemma {:induction false} ConvexInit(files: seq<File>, r: Range)
    requires Convex(files, r) && files != []
    ensures Convex(files[..|files| - 1], r)
  {
    hide Overlaps;
  }

  lemma {:induction false} NoGapBefore(files: seq<File>, r: Range, lo: nat, hi: nat)
    requires Convex(files, r) && lo < hi < |files| && Overlaps(files[lo], r) && Overlaps(files[|files| - 1], r)
    requires hi < |files| - 1 ==> !Overlaps(files[hi], r)
    ensures hi == |files| - 1
  {
    hide Overlaps;
  }

  lemma {:induction false} SelectIsSlice(files: seq<File>, r: Range) returns (lo: nat, hi: nat)
    requires Convex(files, r)
    ensures lo <= hi <= |files| && Select(files, r) == files[lo..hi]
    ensures lo < hi ==> Overlaps(files[lo], r) && Overlaps(files[hi - 1], r)
    ensures lo < hi < |files| ==> !Overlaps(files[hi], r)
  {
    hide Overlaps, Convex;
    if files == [] {
      lo, hi := 0, 0;
    } else {
      var n := |files| - 1;
      var init := files[..n];
      ConvexInit(files, r);
      lo, hi := SelectIsSlice(init, r);
      assert init[lo..hi] == files[lo..hi];
      if Overlaps(files[n], r) {
        if lo == hi {
          assert files[n..n + 1] == [files[n]];
          lo, hi := n, n + 1;
        } else {
          NoGapBefore(files, r, lo, hi);
          assert files[lo..n + 1] == files[lo..n] + [files[n]];
          hi := n + 1;
        }
      }
    }
  }

  lemma {:induction false} UserRangesIncrease(files: seq<File>, i: nat, j: nat)
    requires DisjointLevel(files) && forall f :: f in files ==> ValidFile(f)
    requires i < j < |files|
    ensures files[i].smallest.user <= files[i].largest.user <= files[j].smallest.user <= files[j].largest.user
  {
    FileOrdered(files, i);
    FileOrdered(files, j);
  }

  /** A wider range selects at least as many files, and the same ones if it selects no more. */
  lemma {:induction false} WiderSelect(files: seq<File>, r: Range, s: Range)
    requires SubRange(r, s)
    ensures |Select(files, r)| <= |Select(files, s)|
    ensures |Select(files, r)| == |Select(files, s)| ==> Select(files, r) == Select(files, s)
  {
    if files != [] {
      WiderSelect(files[..|files| - 1], r, s);
    }
  }

  // ---------------------------------------------------------------------------------------------
  // SetupOtherInputs
  // ---------------------------------------------------------------------------------------------

  /** r is the tight range of user keys around files. */
  ghost predicate Spans(files: seq<File>, r: Range) {
    && r.begin.Some? && r.end.Some?
    && (forall f :: f in files ==> Inside(f, r))
    && (exists f :: f in files && f.smallest.user == r.begin.value)
    && (exists f :: f in files && f.largest.user == r.end.value)
  }

  method GetRange(files: seq<File>) returns (smallest: InternalKey, largest: InternalKey)
    requires files != []
    ensures IsLargestKey(files, largest)
    ensures Spans(files, Range(Some(smallest.user), Some(largest.user)))
  {
    smallest, largest := files[0].smallest, files[0].largest;
    for i := 1 to |files|
      invariant exists f :: f in files && f.smallest == smallest
      invariant exists f :: f in files && f.largest == largest
      invariant forall k :: 0 <= k < i ==> AtMost(smallest, files[k].smallest) && AtMost(files[k].largest, largest)
    {
      assert files[i] in files;
      if Less(files[i].smallest, smallest) {
        smallest := files[i].smallest;
      }
      if Less(largest, files[i].largest) {
        largest := files[i].largest;
      }
    }
  }

  function TotalFileSize(files: seq<File>): nat {
    if files == [] then 0 else files[0].size + TotalFileSize(files[1..])
  }

  /** AddBoundaryInputs turns an initial choice into a choice. */
  lemma {:induction false} BoundaryCompletes(level: nat, files: seq<File>, s: seq<File>, r: seq<File>, k: InternalKey)
    requires forall f :: f in files ==> ValidFile(f)
    requires level > 0 ==> DisjointLevel(files)
    requires InitialChoice(level, files, s)
    requires s <= r && IsLargestKey(s, k) && BoundaryChain(files, k, r[|s|..])
    requires NothingContinues(files, LastLargest(k, r[|s|..]))
    ensures Choice(level, files, r)
  {
    var added := r[|s|..];
    assert r == s + added;
    if level == 0 {
      var range :| Closed(files, range) && s == Select(files, range);
      ClosedHasNoBoundary(files, range, k);
      if added != [] {
        NoChain(files, k, added);
      }
    } else {
      var lo: nat, hi: nat :| Slice(files, s, lo, hi);
      SliceLargest(files, s, lo, hi, k);
      ExtendedSlice(files, s, lo, hi, added);
    }
  }

  lemma {:induction false} ExtendedSlice(files: seq<File>, s: seq<File>, lo: nat, hi: nat, added: seq<File>)
    requires DisjointLevel(files) && forall f :: f in files ==> ValidFile(f)
    requires Slice(files, s, lo, hi) && BoundaryChain(files, files[hi - 1].largest, added)
    requires NothingContinues(files, LastLargest(files[hi - 1].largest, added))
    ensures SliceChoice(files, s + added)
  {
    ChainIsSlice(files, hi, added);
    assert added != [] ==> added[|added| - 1] == files[hi + |added| - 1];
    assert Slice(files, s + added, lo, hi + |added|);
  }

  lemma {:induction false} NoChain(files: seq<File>, k: InternalKey, added: seq<File>)
    requires NothingContinues(files, k) && BoundaryChain(files, k, added)
    ensures added == []
  {
    if added != [] {
      NoChain(files, k, added[..|added| - 1]);
    }
  }

  lemma {:induction false} SliceLargest(files: seq<File>, s: seq<File>, lo: nat, hi: nat, k: InternalKey)
    requires DisjointLevel(files) && forall f :: f in files ==> ValidFile(f)
    requires Slice(files, s, lo, hi) && IsLargestKey(s, k)
    ensures k == files[hi - 1].largest
  {
    hide ValidFile;
    var last := files[hi - 1];
    assert last == s[hi - 1 - lo];
    assert AtMost(last.largest, k);
    FileOrdered(files, hi - 1);
    var g :| g in s && g.largest == k;
    var j :| lo <= j < hi && files[j] == g;
    if j < hi - 1 {
      assert Less(k, last.smallest) && AtMost(last.smallest, last.largest);
      PackedOrder(k, last.largest);
    }
  }

  // ---------------------------------------------------------------------------------------------
  // Inputs without a gap
  // ---------------------------------------------------------------------------------------------

  ghost predicate Covered(files: seq<File>, user: UserKey) {
    exists h :: h in files && h.smallest.user <= user <= h.largest.user
  }

  /** Between the first and the last user key of the files every user key is in the range of one of them. */
  ghost predicate NoGap(files: seq<File>) {
    forall f, g, user :: f in files && g in files && f.smallest.user <= user <= g.largest.user ==> Covered(files, user)
  }

  lemma {:induction false} OneFileHasNoGap(f: File)
    ensures NoGap([f])
  {
    forall g, h, user | g in [f] && h in [f] && g.smallest.user <= user <= h.largest.user ensures Covered([f], user) {
      assert f in [f];
    }
  }

  lemma {:induction false} SameFilesNoGap(a: seq<File>, b: seq<File>)
    requires NoGap(a) && forall f :: f in a <==> f in b
    ensures NoGap(b)
  {
    forall f, g, user | f in b && g in b && f.smallest.user <= user <= g.largest.user ensures Covered(b, user) {
      assert Covered(a, user);
      var h :| h in a && h.smallest.user <= user <= h.largest.user;
      assert h in b;
    }
  }

  /** The file reaches a user key that is covered already. */
  ghost predicate Touches(files: seq<File>, f: File) {
    exists user :: f.smallest.user <= user <= f.largest.user && Covered(files, user)
  }

  lemma {:induction false} TouchingKeepsNoGap(files: seq<File>, f: File)
    requires NoGap(files) && Touches(files, f)
    ensures NoGap(files + [f])
  {
    var u :| f.smallest.user <= u <= f.largest.user && Covered(files, u);
    var h :| h in files && h.smallest.user <= u <= h.largest.user;
    var all := files + [f];
    assert f in all;
    forall a, b, user | a in all && b in all && a.smallest.user <= user <= b.largest.user ensures Covered(all, user) {
      if !(f.smallest.user <= user <= f.largest.user) {
        assert Covered(files, user);
        var g :| g in files && g.smallest.user <= user <= g.largest.user;
        assert g in all;
      }
    }
  }

  lemma {:induction false} TouchesMore(files: seq<File>, more: seq<File>, f: File)
    requires Touches(files, f)
    ensures Touches(files + more, f)
  {
    var u :| f.smallest.user <= u <= f.largest.user && Covered(files, u);
    var h :| h in files && h.smallest.user <= u <= h.largest.user;
    assert h in files + more;
    assert Covered(files + more, u);
  }

  lemma {:induction false} TouchingAllKeepNoGap(files: seq<File>, more: seq<File>)
    requires NoGap(files) && forall f :: f in more ==> Touches(files, f)
    ensures NoGap(files + more)
  {
    hide NoGap, Touches;
    if more == [] {
      assert files + more == files;
    } else {
      var init, f := more[..|more| - 1], more[|more| - 1];
      TouchingAllKeepNoGap(files, init);
      TouchesMore(files, init, f);
      TouchingKeepsNoGap(files + init, f);
      assert files + more == files + init + [f];
    }
  }

  /** Files that meet the span of files without a gap touch one of them. */
  lemma {:induction false} MeetingTouches(files: seq<File>, span: Range, f: File)
    requires NoGap(files) && Spans(files, span) && Overlaps(f, span) && f.smallest.user <= f.largest.user
    requires forall g :: g in files ==> g.smallest.user <= g.largest.user
    ensures Touches(files, f)
  {
    var a :| a in files && a.smallest.user == span.begin.value;
    var b :| b in files && b.largest.user == span.end.value;
    assert Inside(a, span) && Inside(b, span);
    var u := if f.smallest.user <= span.begin.value then span.begin.value else f.smallest.user;
    assert a.smallest.user <= u <= b.largest.user;
    assert Covered(files, u);
  }

  /** Boundary files start with the user key that the files before them end with. */
  lemma {:induction false} BoundaryKeepsNoGap(levelFiles: seq<File>, files: seq<File>, k: InternalKey, added: seq<File>, base: seq<File>)
    requires NoGap(base) && (forall f :: f in files ==> f in base) && IsLargestKey(files, k) && BoundaryChain(levelFiles, k, added)
    requires (forall f :: f in levelFiles ==> f.smallest.user <= f.largest.user) && forall f :: f in base ==> f.smallest.user <= f.largest.user
    ensures NoGap(base + added) && forall f :: f in added ==> f in levelFiles
  {
    if added == [] {
      assert base + added == base;
    } else {
      var init, last := added[..|added| - 1], added[|added| - 1];
      BoundaryKeepsNoGap(levelFiles, files, k, init, base);
      var end := LastLargest(k, init);
      assert exists g :: g in base + init && g.largest == end by {
        if init == [] {
          var g :| g in files && g.largest == k;
          assert g in base + init;
        } else {
          assert init[|init| - 1] in base + init;
        }
      }
      var g :| g in base + init && g.largest == end;
      assert Covered(base + init, end.user);
      assert last.smallest.user == end.user;
      assert Touches(base + init, last);
      TouchingKeepsNoGap(base + init, last);
      assert base + added == base + init + [last];
    }
  }

  /** The least overlap-closed range around files without a gap meets no files beyond a gap. */
  lemma {:induction false} LeastClosedNoGap(files: seq<File>, all: Range, reach: Range, selected: seq<File>, cover: seq<File>)
    requires MeetsLeastClosed(files, all, reach, selected) && NoGap(cover) && Spans(cover, all)
    requires (forall f :: f in files ==> f.smallest.user <= f.largest.user) && forall f :: f in cover ==> f.smallest.user <= f.largest.user
    ensures NoGap(cover + selected)
  {
    SelectMembers(files, reach);
    var both := cover + selected;
    forall f, g, user | f in both && g in both && f.smallest.user <= user <= g.largest.user ensures Covered(both, user) {
      if user > all.end.value {
        CoveredBeyond(files, all, reach, selected, cover, g, user);
      } else if user < all.begin.value {
        CoveredBefore(files, all, reach, selected, cover, f, user);
      } else {
        SpanCovered(cover, all, selected, user);
      }
    }
  }

  lemma {:induction false} SpanCovered(cover: seq<File>, all: Range, selected: seq<File>, user: UserKey)
    requires NoGap(cover) && Spans(cover, all) && all.begin.value <= user <= all.end.value
    ensures Covered(cover + selected, user)
  {
    var a :| a in cover && a.smallest.user == all.begin.value;
    var b :| b in cover && b.largest.user == all.end.value;
    assert Covered(cover, user);
    var h :| h in cover && h.smallest.user <= user <= h.largest.user;
    assert h in cover + selected;
  }

  /** Cut at a user key that no selected file covers, the range would still be closed. */
  lemma {:induction false} CutIsClosed(files: seq<File>, reach: Range, selected: seq<File>, user: UserKey)
    requires Closed(files, reach) && selected == Select(files, reach) && !Covered(selected, user)
    requires forall f :: f in files ==> f.smallest.user <= f.largest.user
    ensures (reach.end.Some? ==> user <= reach.end.value) ==> Closed(files, Range(reach.begin, Some(user)))
    ensures (reach.begin.Some? ==> reach.begin.value <= user) ==> Closed(files, Range(Some(user), reach.end))
  {
    SelectMembers(files, reach);
    forall h | h in files && Overlaps(h, reach) ensures h.largest.user < user || user < h.smallest.user {
      assert h in selected;
    }
  }

  lemma {:induction false} CoveredBeyond(files: seq<File>, all: Range, reach: Range, selected: seq<File>, cover: seq<File>, g: File, user: UserKey)
    requires MeetsLeastClosed(files, all, reach, selected) && Spans(cover, all) && user > all.end.value
    requires forall f :: f in files ==> f.smallest.user <= f.largest.user
    requires g in cover + selected && user <= g.largest.user
    ensures Covered(cover + selected, user)
  {
    SelectMembers(files, reach);
    assert g in selected && Inside(g, reach);
    if h :| h in selected && h.smallest.user <= user <= h.largest.user {
      assert h in cover + selected;
    } else {
      CutIsClosed(files, reach, selected, user);
    }
  }

  lemma {:induction false} CoveredBefore(files: seq<File>, all: Range, reach: Range, selected: seq<File>, cover: seq<File>, f: File, user: UserKey)
    requires MeetsLeastClosed(files, all, reach, selected) && Spans(cover, all) && user < all.begin.value
    requires forall g :: g in files ==> g.smallest.user <= g.largest.user
    requires f in cover + selected && f.smallest.user <= user
    ensures Covered(cover + selected, user)
  {
    SelectMembers(files, reach);
    assert f in selected && Inside(f, reach);
    if h :| h in selected && h.smallest.user <= user <= h.largest.user {
      assert h in cover + selected;
    } else {
      CutIsClosed(files, reach, selected, user);
    }
  }

  /** What PickCompaction takes from level 0: the files around one of them, without a gap. */
  lemma {:induction false} PickedHasNoGap(files: seq<File>, f: File, reach: Range, picked: seq<File>)
    requires f in files && forall g :: g in files ==> g.smallest.user <= g.largest.user
    requires MeetsLeastClosed(files, Range(Some(f.smallest.user), Some(f.largest.user)), reach, picked)
    ensures f in picked && NoGap(picked)
  {
    var range := Range(Some(f.smallest.user), Some(f.largest.user));
    SelectMembers(files, reach);
    OneFileHasNoGap(f);
    assert f in [f];
    LeastClosedNoGap(files, range, reach, picked, [f]);
    SameFilesNoGap([f] + picked, picked);
  }

  /** inputs1 are exactly the files of the next level that meet the span of inputs0. */
  ghost predicate NextInputs(next: seq<File>, inputs0: seq<File>, inputs1: seq<File>) {
    exists r :: Spans(inputs0, r) && inputs1 == Select(next, r)
  }

  method Parents(level: nat, next: seq<File>, inputs0: seq<File>) returns (inputs1: seq<File>, largest: InternalKey)
    requires inputs0 != []
    ensures NextInputs(next, inputs0, inputs1)
    ensures IsLargestKey(inputs0, largest)
  {
    var smallest;
    smallest, largest := GetRange(inputs0);
    ghost var reach;
    inputs1, reach := GetOverlappingInputs(level + 1, next, Range(Some(smallest.user), Some(largest.user)));
  }

  lemma {:induction false} ParentsNoGap(next: seq<File>, inputs0: seq<File>, inputs1: seq<File>)
    requires NextInputs(next, inputs0, inputs1) && NoGap(inputs0)
    requires (forall f :: f in next ==> ValidFile(f)) && forall f :: f in inputs0 ==> f.smallest.user <= f.largest.user
    ensures NoGap(inputs0 + inputs1) && forall f :: f in inputs1 ==> f.smallest.user <= f.largest.user
  {
    hide NoGap, Touches, Less, ValidFile;
    var span :| Spans(inputs0, span) && inputs1 == Select(next, span);
    SelectMembers(next, span);
    forall f | f in inputs1 ensures Touches(inputs0, f) && f.smallest.user <= f.largest.user {
      UserOrdered(f);
      MeetingTouches(inputs0, span, f);
    }
    TouchingAllKeepNoGap(inputs0, inputs1);
  }

  lemma {:induction false} UserOrdered(f: File)
    requires ValidFile(f)
    ensures f.smallest.user <= f.largest.user
  {
    FileBounds(f, f.entries[0]);
  }

  lemma {:induction false} ExpandNoGap(level: nat, files: seq<File>, inputs0: seq<File>, inputs1: seq<File>, all: Range, reach: Range,
                                       selected: seq<File>, k: InternalKey, added: seq<File>)
    requires NoGap(inputs0 + inputs1) && Spans(inputs0 + inputs1, all) && forall f :: f in inputs0 ==> f in selected
    requires (forall f :: f in files ==> f.smallest.user <= f.largest.user) && forall f :: f in inputs0 + inputs1 ==> f.smallest.user <= f.largest.user
    requires if level == 0 then MeetsLeastClosed(files, all, reach, selected) else selected == Select(files, all)
    requires IsLargestKey(selected, k) && BoundaryChain(files, k, added)
    ensures NoGap(selected + added + inputs1)
  {
    hide NoGap, Touches, Less, BoundaryChain, Spans, MeetsLeastClosed, IsLargestKey;
    var cover := inputs0 + inputs1;
    SelectMembers(files, if level == 0 then reach else all);
    if level == 0 {
      SelectedIsReached(files, all, reach, selected);
      LeastClosedNoGap(files, all, reach, selected, cover);
    } else {
      forall f | f in selected ensures Touches(cover, f) { MeetingTouches(cover, all, f); }
      TouchingAllKeepNoGap(cover, selected);
    }
    BoundaryKeepsNoGap(files, selected, k, added, cover + selected);
    SameFilesNoGap(cover + selected + added, selected + added + inputs1);
  }

  lemma {:induction false} SelectedIsReached(files: seq<File>, all: Range, reach: Range, selected: seq<File>)
    requires MeetsLeastClosed(files, all, reach, selected)
    ensures selected == Select(files, reach)
  {
  }

  /** r is s with its boundary files. */
  ghost predicate Completed(files: seq<File>, s: seq<File>, r: seq<File>) {
    && s != [] && s <= r
    && exists k :: IsLargestKey(s, k) && BoundaryChain(files, k, r[|s|..]) && NothingContinues(files, LastLargest(k, r[|s|..]))
  }

  /** What GetOverlappingInputs returns. */
  ghost predicate Overlapping(level: nat, files: seq<File>, all: Range, s: seq<File>) {
    if level == 0 then exists reach :: MeetsLeastClosed(files, all, reach, s) else s == Select(files, all)
  }

  /** The files of the level that meet the span of the files around, with their boundary files. */
  ghost predicate Expanded(level: nat, files: seq<File>, around: seq<File>, x: seq<File>) {
    exists all, s :: Spans(around, all) && Overlapping(level, files, all, s) && Completed(files, s, x)
  }

  // All this is determined by the level and the files around.

  lemma {:induction false} SpanOnce(files: seq<File>, r: Range, s: Range)
    requires Spans(files, r) && Spans(files, s)
    ensures r == s
  {
    var a :| a in files && a.smallest.user == r.begin.value;
    var b :| b in files && b.largest.user == r.end.value;
    var c :| c in files && c.smallest.user == s.begin.value;
    var d :| d in files && d.largest.user == s.end.value;
    assert Inside(a, s) && Inside(b, s) && Inside(c, r) && Inside(d, r);
  }

  lemma {:induction false} OverlappingOnce(level: nat, files: seq<File>, all: Range, s: seq<File>, t: seq<File>)
    requires Overlapping(level, files, all, s) && Overlapping(level, files, all, t)
    ensures s == t
  {
    hide Closed;
    if level == 0 {
      var a :| MeetsLeastClosed(files, all, a, s);
      var b :| MeetsLeastClosed(files, all, b, t);
      assert SubRange(a, b) && SubRange(b, a);
      assert a == b;
    }
  }

  lemma {:induction false} LargestOnce(files: seq<File>, k: InternalKey, l: InternalKey)
    requires IsLargestKey(files, k) && IsLargestKey(files, l)
    ensures k == l
  {
    PackedOrder(k, l);
  }

  lemma {:induction false} FirstOnce(files: seq<File>, f: File, g: File, k: InternalKey)
    requires DisjointLevel(files) && (forall h :: h in files ==> ValidFile(h)) && FirstContinuing(files, f, k) && FirstContinuing(files, g, k)
    ensures f == g
  {
    PackedOrder(f.smallest, g.smallest);
    var i :| 0 <= i < |files| && files[i] == f;
    var j :| 0 <= j < |files| && files[j] == g;
    FileOrdered(files, i);
    FileOrdered(files, j);
  }

  lemma {:induction false} ChainPrefix(files: seq<File>, k: InternalKey, a: seq<File>, n: nat)
    requires BoundaryChain(files, k, a) && n <= |a|
    ensures BoundaryChain(files, k, a[..n]) && (n < |a| ==> FirstContinuing(files, a[n], LastLargest(k, a[..n])))
    decreases |a|
  {
    hide FirstContinuing;
    if n < |a| {
      var init := a[..|a| - 1];
      if n < |a| - 1 {
        ChainPrefix(files, k, init, n);
        assert init[..n] == a[..n] && init[n] == a[n];
      }
    } else {
      assert a[..n] == a;
    }
  }

  lemma {:induction false} ChainsAgree(files: seq<File>, k: InternalKey, a: seq<File>, b: seq<File>, n: nat)
    requires DisjointLevel(files) && (forall f :: f in files ==> ValidFile(f)) && BoundaryChain(files, k, a) && BoundaryChain(files, k, b)
    requires n <= |a| && n <= |b|
    ensures a[..n] == b[..n]
  {
    hide FirstContinuing, DisjointLevel, ValidFile, BoundaryChain;
    if n > 0 {
      ChainsAgree(files, k, a, b, n - 1);
      ChainPrefix(files, k, a, n - 1);
      ChainPrefix(files, k, b, n - 1);
      FirstOnce(files, a[n - 1], b[n - 1], LastLargest(k, a[..n - 1]));
      assert a[..n] == a[..n - 1] + [a[n - 1]] && b[..n] == b[..n - 1] + [b[n - 1]];
    }
  }

  lemma {:induction false} ChainNoLonger(files: seq<File>, k: InternalKey, a: seq<File>, b: seq<File>)
    requires DisjointLevel(files) && (forall f :: f in files ==> ValidFile(f)) && BoundaryChain(files, k, a) && BoundaryChain(files, k, b)
    requires NothingContinues(files, LastLargest(k, a))
    ensures |b| <= |a|
  {
    hide DisjointLevel, ValidFile, BoundaryChain, Continues;
    var n := if |a| <= |b| then |a| else |b|;
    ChainsAgree(files, k, a, b, n);
    ChainPrefix(files, k, b, n);
    assert a[..|a|] == a;
  }

  lemma {:induction false} CompletedOnce(level: nat, files: seq<File>, s: seq<File>, r: seq<File>, t: seq<File>)
    requires (forall f :: f in files ==> ValidFile(f)) && (level > 0 ==> DisjointLevel(files)) && (level == 0 ==> ClosedChoice(files, s))
    requires Completed(files, s, r) && Completed(files, s, t)
    ensures r == t
  {
    hide DisjointLevel, ValidFile, BoundaryChain, Continues, IsLargestKey, ClosedChoice, NothingContinues;
    var k :| IsLargestKey(s, k) && BoundaryChain(files, k, r[|s|..]) && NothingContinues(files, LastLargest(k, r[|s|..]));
    var l :| IsLargestKey(s, l) && BoundaryChain(files, l, t[|s|..]) && NothingContinues(files, LastLargest(l, t[|s|..]));
    LargestOnce(s, k, l);
    var a, b := r[|s|..], t[|s|..];
    if level == 0 {
      ClosedNeedsNone(files, s, k, a);
      ClosedNeedsNone(files, s, k, b);
    } else {
      ChainNoLonger(files, k, a, b);
      ChainNoLonger(files, k, b, a);
      ChainsAgree(files, k, a, b, |a|);
      assert a[..|a|] == a && b[..|b|] == b;
    }
    assert r == s + a && t == s + b;
  }

  lemma {:induction false} ClosedNeedsNone(files: seq<File>, s: seq<File>, k: InternalKey, added: seq<File>)
    requires (forall f :: f in files ==> ValidFile(f)) && ClosedChoice(files, s) && IsLargestKey(s, k) && BoundaryChain(files, k, added)
    ensures added == []
  {
    hide ValidFile, IsLargestKey, Continues;
    var r :| Closed(files, r) && s == Select(files, r);
    ClosedHasNoBoundary(files, r, k);
    ChainPrefix(files, k, added, 0);
  }

  /** There is one expansion. */
  lemma {:induction false} ExpandedOnce(level: nat, files: seq<File>, around: seq<File>, x: seq<File>, y: seq<File>)
    requires (forall f :: f in files ==> ValidFile(f)) && (level > 0 ==> DisjointLevel(files))
    requires Expanded(level, files, around, x) && Expanded(level, files, around, y)
    ensures x == y
  {
    hide Spans, Overlapping, Completed, ValidFile, DisjointLevel;
    var a, s :| Spans(around, a) && Overlapping(level, files, a, s) && Completed(files, s, x);
    var b, t :| Spans(around, b) && Overlapping(level, files, b, t) && Completed(files, t, y);
    SpanOnce(around, a, b);
    OverlappingOnce(level, files, a, s, t);
    if level == 0 {
      OverlappingIsClosed(files, a, s);
    }
    CompletedOnce(level, files, s, x, y);
  }

  lemma {:induction false} OverlappingIsClosed(files: seq<File>, all: Range, s: seq<File>)
    requires Overlapping(0, files, all, s)
    ensures ClosedChoice(files, s)
  {
    var reach :| MeetsLeastClosed(files, all, reach, s);
  }

  lemma {:induction false} ParentsOnce(next: seq<File>, inputs0: seq<File>, p: seq<File>, q: seq<File>)
    requires NextInputs(next, inputs0, p) && NextInputs(next, inputs0, q)
    ensures p == q
  {
    hide Spans;
    var r :| Spans(inputs0, r) && p == Select(next, r);
    var s :| Spans(inputs0, s) && q == Select(next, s);
    SpanOnce(inputs0, r, s);
  }

  /** Growing the choice to x is worth it: more files, few enough bytes, and no more parents. */
  ghost predicate WorthGrowing(next: seq<File>, core: seq<File>, inputs1: seq<File>, x: seq<File>, expandedLimit: nat) {
    && |x| > |core| && TotalFileSize(inputs1) + TotalFileSize(x) < expandedLimit
    && exists p :: NextInputs(next, x, p) && |p| == |inputs1|
  }

  /** The choice is grown exactly when that is worth it. */
  ghost predicate GrownIfWorth(level: nat, files: seq<File>, next: seq<File>, core: seq<File>, inputs1: seq<File>, expandedLimit: nat,
                               inputs0: seq<File>)
  {
    if inputs1 == [] then inputs0 == core
    else exists x :: Expanded(level, files, core + inputs1, x)
                     && inputs0 == if WorthGrowing(next, core, inputs1, x, expandedLimit) then x else core
  }

  /** Growing level's inputs: every file of the level that meets the span of both inputs. */
  method Expand(level: nat, files: seq<File>, inputs0: seq<File>, inputs1: seq<File>) returns (expanded0: seq<File>)
    requires forall f :: f in files ==> ValidFile(f)
    requires level > 0 ==> DisjointLevel(files)
    requires Choice(level, files, inputs0) && forall f :: f in inputs1 ==> f.smallest.user <= f.largest.user
    ensures Choice(level, files, expanded0)
    ensures forall f :: f in inputs0 ==> f in expanded0
    ensures NoGap(inputs0 + inputs1) ==> NoGap(expanded0 + inputs1)
    ensures Expanded(level, files, inputs0 + inputs1, expanded0)
  {
    hide NoGap, Less, ValidFile, Choice, InitialChoice, BoundaryChain, Spans, MeetsLeastClosed, IsLargestKey, NothingContinues;
    ChoiceNotEmpty(level, files, inputs0);
    var start, limit := GetRange(inputs0 + inputs1);
    var all := Range(Some(start.user), Some(limit.user));
    ghost var reach;
    expanded0, reach := GetOverlappingInputs(level, files, all);
    ghost var selected := expanded0;
    ExpandSelects(level, files, inputs0, inputs1, all, reach, selected);
    AllOrdered(files);
    ghost var k;
    expanded0, k := AddBoundaryInputs(files, expanded0);
    BoundaryCompletes(level, files, selected, expanded0, k);
    assert expanded0 == selected + expanded0[|selected|..];
    assert Completed(files, selected, expanded0) && Overlapping(level, files, all, selected);
    if NoGap(inputs0 + inputs1) {
      AllUserOrdered(level, files, inputs0);
      ExpandNoGap(level, files, inputs0, inputs1, all, reach, selected, k, expanded0[|selected|..]);
    }
  }

  lemma {:induction false} ChoiceNotEmpty(level: nat, files: seq<File>, s: seq<File>)
    requires Choice(level, files, s)
    ensures s != []
  {
  }

  lemma {:induction false} ExpandSelects(level: nat, files: seq<File>, inputs0: seq<File>, inputs1: seq<File>, all: Range, reach: Range,
                                         selected: seq<File>)
    requires forall f :: f in files ==> ValidFile(f)
    requires level > 0 ==> DisjointLevel(files)
    requires Choice(level, files, inputs0) && Spans(inputs0 + inputs1, all)
    requires if level == 0 then MeetsLeastClosed(files, all, reach, selected) else reach == all && selected == Select(files, all)
    ensures selected != [] && InitialChoice(level, files, selected) && forall f :: f in inputs0 ==> f in selected
  {
    hide ValidFile, Less, DisjointLevel, Spans, Choice;
    GrownChoice(level, files, inputs0, inputs0 + inputs1, all, selected, reach);
  }

  lemma {:induction false} AllUserOrdered(level: nat, files: seq<File>, inputs0: seq<File>)
    requires (forall f :: f in files ==> ValidFile(f)) && Choice(level, files, inputs0)
    ensures (forall f :: f in files ==> f.smallest.user <= f.largest.user) && forall f :: f in inputs0 ==> f.smallest.user <= f.largest.user
  {
    hide ValidFile, Choice;
    ChoiceIsSubset(level, files, inputs0);
    forall f | f in files ensures f.smallest.user <= f.largest.user { UserOrdered(f); }
  }

  /** The first steps of the setup: boundary files, then the parents. */
  lemma {:induction false} SetupNoGap(v: Levels, level: nat, picked: seq<File>, k: InternalKey, core: seq<File>, inputs1: seq<File>)
    requires LevelInvariant(v) && level + 1 < NUM_LEVELS && Choice(level, v[level], core) && NextInputs(v[level + 1], core, inputs1)
    requires picked <= core && IsLargestKey(picked, k) && BoundaryChain(v[level], k, core[|picked|..])
    ensures NoGap(picked) ==> NoGap(core + inputs1)
    ensures forall f :: f in inputs1 ==> f.smallest.user <= f.largest.user
  {
    hide NoGap, Less, ValidFile, Choice, NextInputs, BoundaryChain, DisjointLevel, NewerLevels, NewerNumbers, Contents, UniquelyKeyed, IsLargestKey;
    AllUserOrdered(level, v[level], core);
    var added := core[|picked|..];
    assert core == picked + added;
    ParentsOrdered(v[level + 1], core, inputs1);
    if NoGap(picked) {
      BoundaryKeepsNoGap(v[level], picked, k, added, picked);
      ParentsNoGap(v[level + 1], core, inputs1);
    }
  }

  lemma {:induction false} ParentsOrdered(next: seq<File>, inputs0: seq<File>, inputs1: seq<File>)
    requires NextInputs(next, inputs0, inputs1) && forall f :: f in next ==> ValidFile(f)
    ensures forall f :: f in inputs1 ==> f.smallest.user <= f.largest.user
  {
    hide ValidFile;
    var span :| Spans(inputs0, span) && inputs1 == Select(next, span);
    SelectMembers(next, span);
    forall f | f in inputs1 ensures f.smallest.user <= f.largest.user { UserOrdered(f); }
  }

  /** Growing inputs0 without growing the number of parents leaves the very same parents. */
  lemma {:induction false} SameParents(next: seq<File>, core: seq<File>, grown: seq<File>, p: seq<File>, q: seq<File>)
    requires forall f :: f in core ==> f in grown
    requires NextInputs(next, core, p) && NextInputs(next, grown, q) && |p| == |q|
    ensures p == q
  {
    var r :| Spans(core, r) && p == Select(next, r);
    var s :| Spans(grown, s) && q == Select(next, s);
    WiderSelect(next, r, s);
  }

  lemma {:induction false} OnlyParents(next: seq<File>, x: seq<File>, p: seq<File>)
    requires NextInputs(next, x, p)
    ensures forall q :: NextInputs(next, x, q) ==> q == p
  {
    hide NextInputs;
    forall q | NextInputs(next, x, q) ensures q == p {
      ParentsOnce(next, x, p, q);
    }
  }

  /**
   Completes the inputs of a compaction of level into level + 1. core is the choice at level before
   it was grown; growing it must not have pulled in another file of level + 1.
   */
  method SetupOtherInputs(v: Levels, level: nat, picked: seq<File>, expandedLimit: nat)
      returns (inputs0: seq<File>, inputs1: seq<File>, grandparents: seq<File>, pointer: InternalKey, ghost core: seq<File>)
    requires LevelInvariant(v) && level + 1 < NUM_LEVELS
    requires InitialChoice(level, v[level], picked)
    ensures Completed(v[level], picked, core) && Choice(level, v[level], core)
    ensures NextInputs(v[level + 1], core, inputs1)
    ensures GrownIfWorth(level, v[level], v[level + 1], core, inputs1, expandedLimit, inputs0)
    ensures forall f :: f in core ==> f in inputs0
    ensures inputs0 != core ==> |inputs0| > |core| && TotalFileSize(inputs1) + TotalFileSize(inputs0) < expandedLimit
    ensures Choice(level, v[level], inputs0)
    ensures NextInputs(v[level + 1], inputs0, inputs1)
    ensures IsLargestKey(inputs0, pointer)
    ensures level + 2 < NUM_LEVELS ==> NextInputs(v[level + 2], inputs0 + inputs1, grandparents)
    ensures NoGap(picked) ==> NoGap(inputs0 + inputs1)
  {
    hide NoGap, Less, ValidFile, Choice, NextInputs, BoundaryChain, DisjointLevel, NewerLevels, NewerNumbers, Contents, UniquelyKeyed,
      IsLargestKey, Expanded;
    ghost var k;
    AllOrdered(v[level]);
    inputs0, k := AddBoundaryInputs(v[level], picked);
    BoundaryCompletes(level, v[level], picked, inputs0, k);
    assert Completed(v[level], picked, inputs0);
    core := inputs0;
    inputs1, pointer := Parents(level, v[level + 1], inputs0);
    SetupNoGap(v, level, picked, k, core, inputs1);
    if inputs1 != [] {
      var expanded0 := Expand(level, v[level], inputs0, inputs1);
      assert Expanded(level, v[level], core + inputs1, expanded0);
      if |expanded0| > |inputs0| && TotalFileSize(inputs1) + TotalFileSize(expanded0) < expandedLimit {
        var expanded1, limit := Parents(level, v[level + 1], expanded0);
        OnlyParents(v[level + 1], expanded0, expanded1);
        if |expanded1| == |inputs1| {
          SameParents(v[level + 1], core, expanded0, inputs1, expanded1);
          inputs0, inputs1, pointer := expanded0, expanded1, limit;
        }
      }
    }
    grandparents := [];
    if level + 2 < NUM_LEVELS {
      var last;
      grandparents, last := Parents(level + 1, v[level + 2], inputs0 + inputs1);
    }
  }

  /** The inputs of a compaction that PickCompaction starts from one file: whatever it takes, no gap is left between them. */
  method PickInputs(v: Levels, level: nat, i: nat, expandedLimit: nat)
      returns (inputs0: seq<File>, inputs1: seq<File>, ghost picked: seq<File>, ghost core: seq<File>)
    requires LevelInvariant(v) && level + 1 < NUM_LEVELS && i < |v[level]|
    ensures Choice(level, v[level], inputs0) && NextInputs(v[level + 1], inputs0, inputs1)
    ensures v[level][i] in inputs0 && NoGap(inputs0 + inputs1)
    ensures var f := v[level][i];
            if level == 0 then Overlapping(0, v[0], Range(Some(f.smallest.user), Some(f.largest.user)), picked) else picked == [f]
    ensures Completed(v[level], picked, core) && GrownIfWorth(level, v[level], v[level + 1], core, inputs1, expandedLimit, inputs0)
  {
    hide NoGap, Choice, NextInputs, MeetsLeastClosed, Less, NewerLevels, NewerNumbers, Contents, UniquelyKeyed, DisjointLevel, GrownIfWorth,
      BoundaryChain;
    var start := [v[level][i]];
    OneFileHasNoGap(v[level][i]);
    if level == 0 {
      var smallest, largest := GetRange(start);
      ghost var reach;
      start, reach := GetOverlappingInputs(0, v[0], Range(Some(smallest.user), Some(largest.user)));
      PickedAround(v, i, smallest, largest, reach, start);
    } else {
      assert Slice(v[level], start, i, i + 1);
    }
    picked := start;
    var grandparents, pointer;
    inputs0, inputs1, grandparents, pointer, core := SetupOtherInputs(v, level, start, expandedLimit);
    assert v[level][i] in picked && forall f :: f in picked ==> f in core;
  }

  lemma {:induction false} PickedAround(v: Levels, i: nat, smallest: InternalKey, largest: InternalKey, reach: Range, picked: seq<File>)
    requires LevelInvariant(v) && i < |v[0]| && Spans([v[0][i]], Range(Some(smallest.user), Some(largest.user)))
    requires MeetsLeastClosed(v[0], Range(Some(smallest.user), Some(largest.user)), reach, picked)
    ensures v[0][i] in picked && NoGap(picked) && InitialChoice(0, v[0], picked)
    ensures Overlapping(0, v[0], Range(Some(v[0][i].smallest.user), Some(v[0][i].largest.user)), picked)
  {
    hide Less, NewerLevels, NewerNumbers, Contents, UniquelyKeyed, DisjointLevel, ValidFile, Closed, NoGap;
    var f := v[0][i];
    forall g | g in v[0] ensures g.smallest.user <= g.largest.user { UserOrdered(g); }
    assert f in [f] && smallest.user == f.smallest.user && largest.user == f.largest.user;
    PickedHasNoGap(v[0], f, reach, picked);
    assert Closed(v[0], reach) && picked == Select(v[0], reach);
  }

  /** Selecting again over a range around the chosen files gives an initial choice that keeps them. */
  lemma {:induction false} GrownChoice(level: nat, files: seq<File>, core: seq<File>, around: seq<File>, all: Range,
                    selected: seq<File>, reach: Range)
    requires forall f :: f in files ==> ValidFile(f)
    requires level > 0 ==> DisjointLevel(files)
    requires Choice(level, files, core) && core <= around && Spans(around, all)
    requires selected == Select(files, reach) && SubRange(all, reach)
    requires level == 0 ==> Closed(files, reach)
    requires level > 0 ==> reach == all
    ensures InitialChoice(level, files, selected)
    ensures forall f :: f in core ==> f in selected
  {
    SelectMembers(files, reach);
    forall f | f in core
      ensures f in selected
    {
      ChoiceIsSubset(level, files, core);
      var i :| 0 <= i < |core| && core[i] == f;
      assert around[i] == f;
      FileBounds(f, f.entries[0]);
      assert Inside(f, all) && Overlaps(f, reach);
    }
    assert core[0] in selected;
    if level > 0 {
      DisjointIsConvex(files, reach);
      var lo, hi := SelectIsSlice(files, reach);
      assert Slice(files, selected, lo, hi);
    }
  }

  lemma {:induction false} ChoiceIsSubset(level: nat, files: seq<File>, s: seq<File>)
    requires Choice(level, files, s)
    ensures forall f :: f in s ==> f in files
  {
    if level == 0 {
      var r :| Closed(files, r) && s == Select(files, r);
      SelectMembers(files, r);
    }
  }
}
