/**
 The compaction loop (DBImpl::DoCompactionWork, Compaction::IsBaseLevelForKey,
 Compaction::ShouldStopBefore): which entries it drops, and when that is safe.
 */
module CompactionLoop {
  import opened Keys
  import opened Version
  import opened Selection
  import opened DropRule

  // ---------------------------------------------------------------------------------------------
  // The base-level test
  // ---------------------------------------------------------------------------------------------

  /** No file below level + 1 has user in its range, by looking at every file. */
  predicate BaseLevel(v: Levels, level: nat, user: UserKey) {
    forall l, i :: level + 2 <= l < |v| && 0 <= i < |v[l]| ==>
      !(v[l][i].smallest.user <= user <= v[l][i].largest.user)
  }

  class Compaction {
    const level: nat
    const inputVersion: Levels
    const grandparents: seq<File>
    const maxGrandparentOverlap: nat
    var levelPtrs: array<nat>
    var grandparentIndex: nat
    var seenKey: bool
    var overlappedBytes: nat
    /** The largest user key asked about so far. */
    ghost var floor: Option<UserKey>

    constructor (level: nat, v: Levels, grandparents: seq<File>, maxOverlap: nat)
      requires LevelInvariant(v) && level + 1 < NUM_LEVELS
      ensures Valid() && fresh(levelPtrs) && Unused()
      ensures this.level == level && inputVersion == v && this.grandparents == grandparents && maxGrandparentOverlap == maxOverlap
    {
      this.level, inputVersion, this.grandparents, maxGrandparentOverlap := level, v, grandparents, maxOverlap;
      levelPtrs := new nat[NUM_LEVELS](_ => 0);
      grandparentIndex, seenKey, overlappedBytes, floor := 0, false, 0, None;
    }

    /** The files a level pointer has passed all end before every key still to come. */
    ghost predicate Valid()
      reads this, levelPtrs
    {
      && LevelInvariant(inputVersion) && level + 1 < NUM_LEVELS
      && levelPtrs.Length == NUM_LEVELS
      && grandparentIndex <= |grandparents|
      && (floor == None ==> forall l :: 0 <= l < NUM_LEVELS ==> levelPtrs[l] == 0)
      && forall l :: 0 <= l < NUM_LEVELS ==> Passed(inputVersion[l], levelPtrs[l], floor)
    }

    /** No key has been asked about. */
    ghost predicate Unused()
      reads this
    {
      floor == None && grandparentIndex == 0 && !seenKey && overlappedBytes == 0
    }

    /** Answers BaseLevel while the level pointers only ever move forward. */
    method IsBaseLevelForKey(user: UserKey) returns (base: bool)
      requires Valid()
      requires floor.Some? ==> floor.value <= user
      modifies `floor, levelPtrs
      ensures Valid() && floor == Some(user)
      ensures base == BaseLevel(inputVersion, level, user)
    {
      hide Less, Sorted, ValidFile, DisjointLevel, NewerLevels, NewerNumbers, Contents, UniquelyKeyed;
      floor := Some(user);
      for lvl := level + 2 to NUM_LEVELS
        invariant Valid() && floor == Some(user)
        invariant forall l, i :: level + 2 <= l < lvl && l < NUM_LEVELS && 0 <= i < |inputVersion[l]| ==>
                    !(inputVersion[l][i].smallest.user <= user <= inputVersion[l][i].largest.user)
      {
        var files := inputVersion[lvl];
        var done := false;
        while !done && levelPtrs[lvl] < |files|
          invariant Valid() && floor == Some(user)
          invariant done ==> levelPtrs[lvl] < |files|
          invariant done ==> user < files[levelPtrs[lvl]].smallest.user && user <= files[levelPtrs[lvl]].largest.user
          decreases !done, |files| - levelPtrs[lvl]
        {
          var f := files[levelPtrs[lvl]];
          if user <= f.largest.user {
            if user >= f.smallest.user {
              base := false;
              return;
            }
            done := true;
          } else {
            levelPtrs[lvl] := levelPtrs[lvl] + 1;
          }
        }
        NothingAhead(files, levelPtrs[lvl], user);
      }
      base := true;
    }

    /** Ends the current output once it overlaps too much of the grandparent level. */
    method ShouldStopBefore(key: InternalKey) returns (stop: bool)
      requires Valid()
      modifies `grandparentIndex, `seenKey, `overlappedBytes
      ensures Valid() && seenKey && old(grandparentIndex) <= grandparentIndex
      ensures forall i :: old(grandparentIndex) <= i < grandparentIndex ==> Less(grandparents[i].largest, key)
      ensures grandparentIndex < |grandparents| ==> !Less(grandparents[grandparentIndex].largest, key)
      ensures var crossed := if old(seenKey)
                             then TotalFileSize(grandparents[old(grandparentIndex)..grandparentIndex]) else 0;
              && stop == (old(overlappedBytes) + crossed > maxGrandparentOverlap)
              && overlappedBytes == (if stop then 0 else old(overlappedBytes) + crossed)
    {
      while grandparentIndex < |grandparents| && Less(grandparents[grandparentIndex].largest, key)
        invariant Valid() && seenKey == old(seenKey)
        invariant old(grandparentIndex) <= grandparentIndex
        invariant forall i :: old(grandparentIndex) <= i < grandparentIndex ==> Less(grandparents[i].largest, key)
        invariant overlappedBytes == old(overlappedBytes)
                    + if seenKey then TotalFileSize(grandparents[old(grandparentIndex)..grandparentIndex]) else 0
      {
        if seenKey {
          overlappedBytes := overlappedBytes + grandparents[grandparentIndex].size;
        }
        TotalGrows(grandparents, old(grandparentIndex), grandparentIndex);
        grandparentIndex := grandparentIndex + 1;
      }
      seenKey := true;
      stop := overlappedBytes > maxGrandparentOverlap;
      if stop {
        overlappedBytes := 0;
      }
    }
  }

  ghost predicate Passed(files: seq<File>, ptr: nat, floor: Option<UserKey>) {
    && ptr <= |files|
    && forall i :: 0 <= i < ptr ==> floor.Some? && files[i].largest.user < floor.value
  }

  lemma {:induction false} NothingAhead(files: seq<File>, ptr: nat, user: UserKey)
    requires DisjointLevel(files) && forall f :: f in files ==> ValidFile(f)
    requires Passed(files, ptr, Some(user))
    requires ptr < |files| ==> user < files[ptr].smallest.user
    ensures forall i :: 0 <= i < |files| ==> !(files[i].smallest.user <= user <= files[i].largest.user)
  {
    forall i | ptr < i < |files|
      ensures user < files[i].smallest.user
    {
      UserRangesIncrease(files, ptr, i);
    }
  }

  lemma {:induction false} TotalGrows(files: seq<File>, lo: nat, hi: nat)
    requires lo <= hi < |files|
    ensures TotalFileSize(files[lo..hi + 1]) == TotalFileSize(files[lo..hi]) + files[hi].size
    decreases hi - lo
  {
    if lo < hi {
      TotalGrows(files, lo + 1, hi);
      assert files[lo..hi + 1][1..] == files[lo + 1..hi + 1];
      assert files[lo..hi][1..] == files[lo + 1..hi];
    }
  }

  // ---------------------------------------------------------------------------------------------
  // The drop loop
  // ---------------------------------------------------------------------------------------------

  function BaseTest(v: Levels, level: nat): UserKey -> bool {
    user => BaseLevel(v, level, user)
  }

  function Concat(outputs: seq<seq<Entry>>): seq<Entry> {
    if outputs == [] then [] else Concat(outputs[..|outputs| - 1]) + outputs[|outputs| - 1]
  }

  /** Rules (A) and (B) for the next entry. */
  method ShouldDrop(c: Compaction, key: InternalKey, lastSequenceForKey: nat, smallestSnapshot: nat) returns (drop: bool)
    requires c.Valid()
    requires c.floor.Some? ==> c.floor.value <= key.user
    modifies c`floor, c.levelPtrs
    ensures c.Valid()
    ensures c.floor.Some? ==> c.floor.value <= key.user
    ensures drop == (|| lastSequenceForKey <= smallestSnapshot
                     || (key.kind == Deletion && key.sequence <= smallestSnapshot
                         && BaseTest(c.inputVersion, c.level)(key.user)))
  {
    drop := false;
    if lastSequenceForKey <= smallestSnapshot {
      drop := true;
    } else if key.kind == Deletion && key.sequence <= smallestSnapshot {
      drop := c.IsBaseLevelForKey(key.user);
    }
  }

  // ---------------------------------------------------------------------------------------------
  // Where outputs are cut
  // ---------------------------------------------------------------------------------------------

  /** The grandparents before the first one that does not end before the key. */
  function Behind(grandparents: seq<File>, key: InternalKey): (n: nat)
    ensures n <= |grandparents|
    ensures forall i :: 0 <= i < n ==> Less(grandparents[i].largest, key)
    ensures n < |grandparents| ==> !Less(grandparents[n].largest, key)
  {
    if grandparents == [] || !Less(grandparents[0].largest, key) then 0 else 1 + Behind(grandparents[1..], key)
  }

  lemma {:induction false} BehindIs(grandparents: seq<File>, key: InternalKey, n: nat)
    requires n <= |grandparents| && forall i :: 0 <= i < n ==> Less(grandparents[i].largest, key)
    requires n < |grandparents| ==> !Less(grandparents[n].largest, key)
    ensures Behind(grandparents, key) == n
  {
  }

  /** The bytes of the grandparents that end between two keys. */
  function BytesBetween(grandparents: seq<File>, a: InternalKey, b: InternalKey): nat {
    var m, n := Behind(grandparents, a), Behind(grandparents, b);
    if m <= n then TotalFileSize(grandparents[m..n]) else 0
  }

  /** What decides about cuts: the size of a table with some entries, and the overlap with the grandparent level. */
  datatype Limits = Limits(fileSize: seq<Entry> -> nat, maxOutputFileSize: nat, grandparents: seq<File>, maxOverlap: nat)

  /** The last of the first n keys before which the overlap made a cut, or the first key. */
  function LastStop(z: Limits, input: seq<Entry>, n: nat): (k: nat)
    requires 0 < n <= |input|
    ensures k < n
    decreases n, 0
  {
    if n == 1 then 0 else if Stops(z, input, n - 1) then n - 1 else LastStop(z, input, n - 1)
  }

  /** The grandparent bytes passed since the last cut of this kind are too many. */
  predicate Stops(z: Limits, input: seq<Entry>, i: nat)
    requires i < |input|
    decreases i, 1
  {
    i > 0 && BytesBetween(z.grandparents, input[LastStop(z, input, i)].key, input[i].key) > z.maxOverlap
  }

  /** One of the keys behind a and before the n-th stops. */
  ghost predicate StopSince(z: Limits, input: seq<Entry>, a: Entry, n: nat)
    requires n <= |input|
  {
    exists j, m :: 0 <= j < m < n && input[j] == a && Stops(z, input, m)
  }

  /** One of the keys behind a and up to b stops. */
  ghost predicate StopBetween(z: Limits, input: seq<Entry>, a: Entry, b: Entry) {
    exists n :: 0 <= n < |input| && input[n] == b && StopSince(z, input, a, n + 1)
  }

  /** There is a reason to end an output with o before the n-th key: its size, or an overlap. */
  ghost predicate Ended(z: Limits, input: seq<Entry>, o: seq<Entry>, n: nat)
    requires o != [] && n <= |input|
  {
    z.fileSize(o) >= z.maxOutputFileSize || StopSince(z, input, o[|o| - 1], n)
  }

  /** No reason to cut inside: no proper prefix has reached the size, and no overlap falls in between. */
  ghost predicate Uncut(z: Limits, input: seq<Entry>, o: seq<Entry>) {
    && (forall n :: 0 < n < |o| ==> z.fileSize(o[..n]) < z.maxOutputFileSize)
    && forall n :: 0 < n < |o| ==> !StopBetween(z, input, o[n - 1], o[n])
  }

  /** A reason for a cut between two outputs. */
  ghost predicate CutBetween(z: Limits, input: seq<Entry>, o: seq<Entry>, next: seq<Entry>) {
    o != [] && next != [] && (z.fileSize(o) >= z.maxOutputFileSize || StopBetween(z, input, o[|o| - 1], next[0]))
  }

  /** Outputs are cut where there is a reason, and nowhere else. */
  ghost predicate WellCut(z: Limits, input: seq<Entry>, outputs: seq<seq<Entry>>) {
    && (forall k :: 0 <= k < |outputs| ==> outputs[k] != [] && Uncut(z, input, outputs[k]))
    && forall k :: 0 < k < |outputs| ==> CutBetween(z, input, outputs[k - 1], outputs[k])
  }

  /** The finished outputs and the one being built hold exactly the kept entries, in order. */
  ghost predicate Cut(outputs: seq<seq<Entry>>, builder: seq<Entry>, kept: seq<Entry>) {
    && Concat(outputs) + builder == kept
    && forall o :: o in outputs ==> o != []
  }

  ghost predicate Within(input: seq<Entry>, o: seq<Entry>, n: nat)
    requires n <= |input|
  {
    forall e :: e in o ==> e in input[..n]
  }

  /** The cuts made before the n-th key, and that there is no reason yet to end the output being built. */
  ghost predicate CutSoFar(z: Limits, input: seq<Entry>, outputs: seq<seq<Entry>>, builder: seq<Entry>, n: nat)
    requires n <= |input|
  {
    && WellCut(z, input, outputs)
    && (forall k :: 0 <= k < |outputs| ==> Within(input, outputs[k], n)) && Within(input, builder, n)
    && Uncut(z, input, builder)
    && (builder != [] ==> !Ended(z, input, builder, n))
    && (builder != [] && outputs != [] ==> CutBetween(z, input, outputs[|outputs| - 1], builder))
    && (builder == [] && outputs != [] ==> Ended(z, input, outputs[|outputs| - 1], n))
  }

  lemma {:induction false} StopOneMore(z: Limits, input: seq<Entry>, a: Entry, n: nat)
    requires n < |input| && a in input[..n]
    ensures StopSince(z, input, a, n + 1) <==> StopSince(z, input, a, n) || Stops(z, input, n)
  {
    hide Stops;
    var j :| 0 <= j < n && input[j] == a;
    if Stops(z, input, n) {
      assert StopSince(z, input, a, n + 1);
    }
  }

  /** The entry at the n-th key has no key behind it yet. */
  lemma {:induction false} NoStopYet(z: Limits, input: seq<Entry>, n: nat)
    requires Sorted(input) && n < |input|
    ensures !StopSince(z, input, input[n], n + 1)
  {
    hide Stops;
    forall j | 0 <= j < n ensures input[j] != input[n] {
      PackedOrder(input[j].key, input[n].key);
    }
  }

  /** A stop since a, before the n-th key, is a stop between a and that key. */
  lemma {:induction false} StopBeforeEntry(z: Limits, input: seq<Entry>, a: Entry, n: nat)
    requires Sorted(input) && n < |input|
    ensures StopBetween(z, input, a, input[n]) <==> StopSince(z, input, a, n + 1)
  {
    hide StopSince;
    forall m | 0 <= m < |input| && input[m] == input[n] ensures m == n {
      PackedOrder(input[m].key, input[n].key);
    }
  }

  function Finished(outputs: seq<seq<Entry>>, builder: seq<Entry>): seq<seq<Entry>> {
    if builder == [] then outputs else outputs + [builder]
  }

  lemma {:induction false} MoreWithin(input: seq<Entry>, o: seq<Entry>, m: nat, n: nat)
    requires m <= n <= |input| && Within(input, o, m)
    ensures Within(input, o, n)
  {
    forall e | e in o ensures e in input[..n] {
      var j :| 0 <= j < m && input[..m][j] == e;
      assert input[..n][j] == e;
    }
  }

  /** One more well-cut output. */
  lemma {:induction false} OneMoreOutput(z: Limits, input: seq<Entry>, outputs: seq<seq<Entry>>, o: seq<Entry>)
    requires WellCut(z, input, outputs) && o != [] && Uncut(z, input, o)
    requires outputs != [] ==> CutBetween(z, input, outputs[|outputs| - 1], o)
    ensures WellCut(z, input, outputs + [o])
  {
    hide Uncut, CutBetween;
    var all := outputs + [o];
    forall k | 0 < k < |all| ensures CutBetween(z, input, all[k - 1], all[k]) {
      if k < |outputs| {
        assert CutBetween(z, input, outputs[k - 1], outputs[k]);
      }
    }
  }

  /** The test before the n-th key: the output being built ends if the overlap says so. */
  lemma {:induction false} StopStep(z: Limits, input: seq<Entry>, outputs: seq<seq<Entry>>, builder: seq<Entry>, n: nat)
    requires n < |input| && CutSoFar(z, input, outputs, builder, n)
    ensures if Stops(z, input, n) then CutSoFar(z, input, Finished(outputs, builder), [], n + 1)
            else CutSoFar(z, input, outputs, builder, n + 1)
  {
    hide Stops, StopSince, Uncut, CutBetween, WellCut, Within;
    forall k | 0 <= k < |outputs| ensures Within(input, outputs[k], n + 1) { MoreWithin(input, outputs[k], n, n + 1); }
    MoreWithin(input, builder, n, n + 1);
    NothingUncut(z, input, n + 1);
    if builder != [] {
      LastWithin(input, builder, n);
      StopOneMore(z, input, builder[|builder| - 1], n);
      if Stops(z, input, n) {
        OneMoreOutput(z, input, outputs, builder);
      }
    } else if outputs != [] {
      LastNotEmpty(z, input, outputs);
      var o := outputs[|outputs| - 1];
      LastWithin(input, o, n);
      StopOneMore(z, input, o[|o| - 1], n);
    }
  }

  lemma {:induction false} NothingUncut(z: Limits, input: seq<Entry>, n: nat)
    requires n <= |input|
    ensures Uncut(z, input, []) && Within(input, [], n)
  {
  }

  lemma {:induction false} LastWithin(input: seq<Entry>, o: seq<Entry>, n: nat)
    requires n <= |input| && Within(input, o, n) && o != []
    ensures o[|o| - 1] in input[..n]
  {
  }

  lemma {:induction false} LastNotEmpty(z: Limits, input: seq<Entry>, outputs: seq<seq<Entry>>)
    requires WellCut(z, input, outputs) && outputs != []
    ensures outputs[|outputs| - 1] != []
  {
  }

  /** A kept entry goes to the output being built, which ends when it has reached its size. */
  lemma {:induction false} AddStep(z: Limits, input: seq<Entry>, outputs: seq<seq<Entry>>, builder: seq<Entry>, n: nat)
    requires Sorted(input) && n < |input| && CutSoFar(z, input, outputs, builder, n + 1)
    ensures var b := builder + [input[n]];
            if z.fileSize(b) >= z.maxOutputFileSize then CutSoFar(z, input, outputs + [b], [], n + 1)
            else CutSoFar(z, input, outputs, b, n + 1)
  {
    hide Sorted, StopSince, StopBetween, WellCut, Within, CutBetween;
    var e := input[n];
    var b := builder + [e];
    WithEntry(input, builder, n);
    NoStopYet(z, input, n);
    NothingUncut(z, input, n + 1);
    if builder != [] {
      StopBeforeEntry(z, input, builder[|builder| - 1], n);
    }
    GrowsUncut(z, input, builder, e);
    if outputs != [] {
      LastNotEmpty(z, input, outputs);
      StopBeforeEntry(z, input, outputs[|outputs| - 1][|outputs[|outputs| - 1]| - 1], n);
      BehindGrows(z, input, outputs[|outputs| - 1], builder, e);
    }
    if z.fileSize(b) >= z.maxOutputFileSize {
      OneMoreOutput(z, input, outputs, b);
    }
  }

  lemma {:induction false} WithEntry(input: seq<Entry>, builder: seq<Entry>, n: nat)
    requires n < |input| && Within(input, builder, n + 1)
    ensures Within(input, builder + [input[n]], n + 1)
  {
    assert input[..n + 1][n] == input[n];
  }

  lemma {:induction false} GrowsUncut(z: Limits, input: seq<Entry>, builder: seq<Entry>, e: Entry)
    requires Uncut(z, input, builder)
    requires builder != [] ==> z.fileSize(builder) < z.maxOutputFileSize && !StopBetween(z, input, builder[|builder| - 1], e)
    ensures Uncut(z, input, builder + [e])
  {
    hide StopBetween;
    var b := builder + [e];
    forall n | 0 < n < |b| ensures z.fileSize(b[..n]) < z.maxOutputFileSize && !StopBetween(z, input, b[n - 1], b[n]) {
      if n < |builder| {
        assert b[..n] == builder[..n] && b[n - 1] == builder[n - 1] && b[n] == builder[n];
      } else {
        assert b[..n] == builder;
      }
    }
  }

  lemma {:induction false} BehindGrows(z: Limits, input: seq<Entry>, o: seq<Entry>, builder: seq<Entry>, e: Entry)
    requires o != [] && (builder != [] ==> CutBetween(z, input, o, builder))
    requires builder == [] ==> z.fileSize(o) >= z.maxOutputFileSize || StopBetween(z, input, o[|o| - 1], e)
    ensures CutBetween(z, input, o, builder + [e])
  {
  }

  lemma {:induction false} EndStep(z: Limits, input: seq<Entry>, outputs: seq<seq<Entry>>, builder: seq<Entry>)
    requires CutSoFar(z, input, outputs, builder, |input|)
    ensures WellCut(z, input, Finished(outputs, builder))
  {
    hide Uncut, CutBetween, WellCut;
    if builder != [] {
      OneMoreOutput(z, input, outputs, builder);
    }
  }

  lemma {:induction false} ConcatFront(outputs: seq<seq<Entry>>)
    requires outputs != []
    ensures Concat(outputs) == outputs[0] + Concat(outputs[1..])
  {
    var init, last := outputs[..|outputs| - 1], outputs[|outputs| - 1];
    if |outputs| == 1 {
      assert init == [] && outputs[1..] == [];
    } else {
      ConcatFront(init);
      assert outputs[1..][..|outputs| - 2] == init[1..];
    }
  }

  /** A reason to end a is a reason not to go on. */
  lemma {:induction false} EndsNoLater(z: Limits, input: seq<Entry>, a: seq<Entry>, next: seq<Entry>, b: seq<Entry>)
    requires CutBetween(z, input, a, next) && Uncut(z, input, b) && a <= b && (|a| < |b| ==> next[0] == b[|a|])
    ensures |b| <= |a|
  {
    var n := if |a| <= |b| then |a| else |b|;
    assert b[..n] == a[..n] && a[..|a|] == a;
  }

  lemma {:induction false} FirstNoShorter(z: Limits, input: seq<Entry>, o: seq<seq<Entry>>, p: seq<seq<Entry>>)
    requires WellCut(z, input, o) && WellCut(z, input, p) && Concat(o) == Concat(p) && o != [] && p != []
    ensures |p[0]| <= |o[0]|
  {
    hide Uncut, CutBetween, StopBetween;
    ConcatFront(o);
    ConcatFront(p);
    if |o| == 1 {
      assert o[1..] == [];
    }
    if |o[0]| < |p[0]| {
      var all := Concat(o);
      assert o[0] == all[..|o[0]|] && p[0] == all[..|p[0]|];
      ConcatFront(o[1..]);
      assert o[1][0] == all[|o[0]|];
      EndsNoLater(z, input, o[0], o[1], p[0]);
    }
  }

  lemma {:induction false} RestWellCut(z: Limits, input: seq<Entry>, outputs: seq<seq<Entry>>)
    requires WellCut(z, input, outputs) && outputs != []
    ensures WellCut(z, input, outputs[1..])
  {
    hide Uncut, CutBetween;
    var rest := outputs[1..];
    forall k | 0 < k < |rest| ensures CutBetween(z, input, rest[k - 1], rest[k]) {
      assert CutBetween(z, input, outputs[k], outputs[k + 1]);
    }
  }

  /** The entries kept and the limits leave no choice where outputs are cut. */
  lemma {:induction false} CutsAreDetermined(z: Limits, input: seq<Entry>, o: seq<seq<Entry>>, p: seq<seq<Entry>>)
    requires WellCut(z, input, o) && WellCut(z, input, p) && Concat(o) == Concat(p)
    ensures o == p
  {
    hide Uncut, CutBetween;
    if o == [] || p == [] {
      assert o != [] ==> |Concat(o)| > 0 by { if o != [] { ConcatFront(o); } }
      assert p != [] ==> |Concat(p)| > 0 by { if p != [] { ConcatFront(p); } }
    } else {
      FirstNoShorter(z, input, o, p);
      FirstNoShorter(z, input, p, o);
      ConcatFront(o);
      ConcatFront(p);
      assert o[0] == Concat(o)[..|o[0]|] == p[0];
      assert Concat(o[1..]) == Concat(o)[|o[0]|..] == Concat(p[1..]);
      RestWellCut(z, input, o);
      RestWellCut(z, input, p);
      CutsAreDetermined(z, input, o[1..], p[1..]);
      assert o == [o[0]] + o[1..] && p == [p[0]] + p[1..];
    }
  }

  // ---------------------------------------------------------------------------------------------
  // The loop
  // ---------------------------------------------------------------------------------------------

  /** The grandparent bookkeeping after the first n keys. */
  ghost predicate Counted(c: Compaction, z: Limits, input: seq<Entry>, n: nat)
    requires n <= |input|
    reads c
  {
    && c.grandparents == z.grandparents && c.maxGrandparentOverlap == z.maxOverlap && c.seenKey == (n > 0)
    && c.grandparentIndex == (if n == 0 then 0 else Behind(z.grandparents, input[n - 1].key))
    && c.overlappedBytes == if n == 0 then 0 else BytesBetween(z.grandparents, input[LastStop(z, input, n)].key, input[n - 1].key)
  }

  lemma {:induction false} TotalOfParts(files: seq<File>, a: nat, b: nat, c: nat)
    requires a <= b <= c <= |files|
    ensures TotalFileSize(files[a..b]) + TotalFileSize(files[b..c]) == TotalFileSize(files[a..c])
    decreases c - b
  {
    if b == c {
      assert files[b..c] == [];
    } else {
      hide TotalFileSize;
      TotalOfParts(files, a, b, c - 1);
      TotalGrows(files, a, c - 1);
      TotalGrows(files, b, c - 1);
    }
  }

  lemma {:induction false} BehindGrowsOn(grandparents: seq<File>, input: seq<Entry>, i: nat, j: nat)
    requires Sorted(input) && i <= j < |input|
    ensures Behind(grandparents, input[i].key) <= Behind(grandparents, input[j].key)
  {
    if i < j {
      assert Less(input[i].key, input[j].key);
      forall p | 0 <= p < Behind(grandparents, input[i].key) ensures Less(grandparents[p].largest, input[j].key) {
        assert Less(grandparents[p].largest, input[i].key);
      }
    }
  }

  lemma {:induction false} BytesAdd(grandparents: seq<File>, input: seq<Entry>, i: nat, j: nat, k: nat)
    requires Sorted(input) && i <= j <= k < |input|
    ensures BytesBetween(grandparents, input[i].key, input[j].key) + BytesBetween(grandparents, input[j].key, input[k].key)
         == BytesBetween(grandparents, input[i].key, input[k].key)
  {
    hide Sorted, Behind, TotalFileSize;
    BehindGrowsOn(grandparents, input, i, j);
    BehindGrowsOn(grandparents, input, j, k);
    TotalOfParts(grandparents, Behind(grandparents, input[i].key), Behind(grandparents, input[j].key), Behind(grandparents, input[k].key));
  }

  /** ShouldStopBefore for the n-th key of the input. */
  method StopBefore(c: Compaction, ghost z: Limits, ghost input: seq<Entry>, ghost n: nat, key: InternalKey) returns (stop: bool)
    requires c.Valid() && Sorted(input) && n < |input| && key == input[n].key && Counted(c, z, input, n)
    modifies c`grandparentIndex, c`seenKey, c`overlappedBytes
    ensures c.Valid() && stop == Stops(z, input, n) && Counted(c, z, input, n + 1)
  {
    hide Sorted, Less, TotalFileSize, BytesBetween;
    ghost var index, bytes := c.grandparentIndex, c.overlappedBytes;
    stop := c.ShouldStopBefore(key);
    StopCounted(z, input, n, index, c.grandparentIndex, bytes, c.overlappedBytes, stop);
  }

  lemma {:induction false} StopCounted(z: Limits, input: seq<Entry>, n: nat, index: nat, index': nat, bytes: nat, bytes': nat, stop: bool)
    requires Sorted(input) && n < |input| && index <= index' <= |z.grandparents|
    requires index == if n == 0 then 0 else Behind(z.grandparents, input[n - 1].key)
    requires bytes == if n == 0 then 0 else BytesBetween(z.grandparents, input[LastStop(z, input, n)].key, input[n - 1].key)
    requires forall i :: index <= i < index' ==> Less(z.grandparents[i].largest, input[n].key)
    requires index' < |z.grandparents| ==> !Less(z.grandparents[index'].largest, input[n].key)
    requires var crossed := if n > 0 then TotalFileSize(z.grandparents[index..index']) else 0;
             stop == (bytes + crossed > z.maxOverlap) && bytes' == if stop then 0 else bytes + crossed
    ensures stop == Stops(z, input, n) && index' == Behind(z.grandparents, input[n].key)
    ensures bytes' == BytesBetween(z.grandparents, input[LastStop(z, input, n + 1)].key, input[n].key)
  {
    hide TotalFileSize;
    var key := input[n].key;
    forall i | 0 <= i < index' ensures Less(z.grandparents[i].largest, key) {
      if i < index {
        assert Less(z.grandparents[i].largest, input[n - 1].key) && Less(input[n - 1].key, key);
      }
    }
    BehindIs(z.grandparents, key, index');
    NoBytes(z.grandparents, key);
    if n > 0 {
      BytesAdd(z.grandparents, input, LastStop(z, input, n), n - 1, n);
    }
  }

  lemma {:induction false} NoBytes(grandparents: seq<File>, key: InternalKey)
    ensures BytesBetween(grandparents, key, key) == 0
  {
    var n := Behind(grandparents, key);
    assert grandparents[n..n] == [];
  }

  /** FinishCompactionOutputFile, if an output is open. */
  method Finish(outputs: seq<seq<Entry>>, builder: seq<Entry>, ghost kept: seq<Entry>) returns (r: seq<seq<Entry>>)
    requires Cut(outputs, builder, kept)
    ensures Cut(r, [], kept) && r == Finished(outputs, builder)
  {
    r := outputs;
    if builder != [] {
      r := outputs + [builder];
      assert r[..|outputs|] == outputs;
    }
  }

  /**
   Runs over the merged input, drops entries and cuts the rest into output files. fileSize is what
   the table builder reports for the entries added so far.
   */
  method DoCompactionWork(c: Compaction, input: seq<Entry>, smallestSnapshot: nat,
                          fileSize: seq<Entry> -> nat, maxOutputFileSize: nat) returns (outputs: seq<seq<Entry>>)
    requires c.Valid() && c.Unused()
    requires Sorted(input)
    modifies c, c.levelPtrs
    ensures c.Valid()
    ensures Cut(outputs, [], Kept(input, smallestSnapshot, BaseTest(c.inputVersion, c.level), |input|))
    ensures WellCut(Limits(fileSize, maxOutputFileSize, c.grandparents, c.maxGrandparentOverlap), input, outputs)
  {
    hide Sorted, Less, WellCut, CutSoFar, Cut, Stops, LastStop, Behind, BytesBetween, Kept;
    ghost var base := BaseTest(c.inputVersion, c.level);
    var z := Limits(fileSize, maxOutputFileSize, c.grandparents, c.maxGrandparentOverlap);
    outputs := [];
    var builder: seq<Entry> := [];
    var currentUserKey: Option<UserKey> := None;
    var lastSequenceForKey := MAX_SEQUENCE;
    LoopStarts(c, z, input, smallestSnapshot, base);
    for i := 0 to |input|
      invariant c.Valid() && c.levelPtrs == old(c.levelPtrs)
      invariant c.floor.Some? ==> i > 0 && c.floor.value <= input[i - 1].key.user
      invariant currentUserKey == if i == 0 then None else Some(input[i - 1].key.user)
      invariant i > 0 ==> lastSequenceForKey == input[i - 1].key.sequence
      invariant Cut(outputs, builder, Kept(input, smallestSnapshot, base, i))
      invariant Counted(c, z, input, i) && CutSoFar(z, input, outputs, builder, i)
    {
      var key := input[i].key;
      if i > 0 {
        InOrder(input, i);
      }
      var stop := StopBefore(c, z, input, i, key);
      StopStep(z, input, outputs, builder, i);
      if stop {
        outputs := Finish(outputs, builder, Kept(input, smallestSnapshot, base, i));
        builder := [];
      }
      if currentUserKey == None || currentUserKey.value != key.user {
        currentUserKey := Some(key.user);
        lastSequenceForKey := MAX_SEQUENCE;
      }
      assert lastSequenceForKey == LastSequence(input, i);
      var drop := ShouldDrop(c, key, lastSequenceForKey, smallestSnapshot);
      lastSequenceForKey := key.sequence;
      assert drop == Dropped(input, smallestSnapshot, base, i);
      KeptOneMore(input, smallestSnapshot, base, i);
      outputs, builder := Output(outputs, builder, drop, input[i], z, input, i, Kept(input, smallestSnapshot, base, i));
    }
    EndStep(z, input, outputs, builder);
    outputs := Finish(outputs, builder, Kept(input, smallestSnapshot, base, |input|));
  }

  lemma {:induction false} LoopStarts(c: Compaction, z: Limits, input: seq<Entry>, smallestSnapshot: nat, base: UserKey -> bool)
    requires c.Unused() && c.grandparents == z.grandparents && c.maxGrandparentOverlap == z.maxOverlap
    ensures Counted(c, z, input, 0) && CutSoFar(z, input, [], [], 0) && Cut([], [], Kept(input, smallestSnapshot, base, 0))
  {
  }

  lemma {:induction false} InOrder(input: seq<Entry>, i: nat)
    requires Sorted(input) && 0 < i < |input|
    ensures input[i - 1].key.user <= input[i].key.user
  {
    assert Less(input[i - 1].key, input[i].key);
  }

  lemma {:induction false} KeptOneMore(input: seq<Entry>, smallestSnapshot: nat, base: UserKey -> bool, i: nat)
    requires i < |input|
    ensures Kept(input, smallestSnapshot, base, i + 1)
         == Kept(input, smallestSnapshot, base, i) + if Dropped(input, smallestSnapshot, base, i) then [] else [input[i]]
  {
  }

  /** Adds a kept entry and closes the output once it is big enough. */
  method Output(outputs: seq<seq<Entry>>, builder: seq<Entry>, drop: bool, e: Entry, z: Limits, ghost input: seq<Entry>, ghost n: nat,
                ghost kept: seq<Entry>)
      returns (outputs': seq<seq<Entry>>, builder': seq<Entry>)
    requires Cut(outputs, builder, kept) && Sorted(input) && n < |input| && input[n] == e
    requires CutSoFar(z, input, outputs, builder, n + 1)
    ensures Cut(outputs', builder', kept + if drop then [] else [e])
    ensures CutSoFar(z, input, outputs', builder', n + 1)
  {
    hide Sorted, CutSoFar;
    outputs', builder' := outputs, builder;
    if !drop {
      AddStep(z, input, outputs, builder, n);
      builder' := builder + [e];
      assert Concat(outputs) + builder' == kept + [e];
      if z.fileSize(builder') >= z.maxOutputFileSize {
        outputs' := Finish(outputs, builder', kept + [e]);
        builder' := [];
      }
    } else {
      assert kept + [] == kept;
    }
  }
}
