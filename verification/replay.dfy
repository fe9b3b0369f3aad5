/**
 Replaying a manifest (VersionSet::Recover in db/version_set.cc) against the live history of a level: exactly
 when one builder over all edits leaves the list of files that one builder per edit leaves.
 */
module ManifestReplay {
  import opened Keys
  import opened Version
  import opened VersionBuilder

  // ---------------------------------------------------------------------------------------------
  // The condition, in terms of the edits
  // ---------------------------------------------------------------------------------------------

  /** What an edit adds to the level: of equivalent files in one edit, the first. */
  function AddsOf(e: Edit, level: nat): (r: seq<File>)
    ensures Listed(r)
  {
    AddedAfter([], level, e.added)
  }

  /** The numbers that an edit takes out of the level. */
  function GoneBy(e: Edit, level: nat): set<nat> {
    DeletedAt(level, e.deleted) - NumbersAt(level, e.added)
  }

  ghost predicate Adds(edits: seq<Edit>, level: nat, i: nat, f: File) {
    i < |edits| && f in AddsOf(edits[i], level)
  }

  /** Edit i adds the file, and no later edit takes its number out. */
  ghost predicate Current(edits: seq<Edit>, level: nat, i: nat, f: File) {
    Adds(edits, level, i, f) && forall j :: i < j < |edits| ==> f.number !in GoneBy(edits[j], level)
  }

  ghost predicate IsCurrent(edits: seq<Edit>, level: nat, f: File) {
    exists i: nat :: Current(edits, level, i, f)
  }

  ghost predicate NewWith(edits: seq<Edit>, level: nat, i: nat, f: File) {
    Adds(edits, level, i, f) && forall k: nat, g :: k < i && Adds(edits, level, k, g) ==> !Equivalent(f, g)
  }

  /** No earlier edit added an equivalent file. */
  ghost predicate IsFirst(edits: seq<Edit>, level: nat, f: File) {
    exists i: nat :: NewWith(edits, level, i, f)
  }

  /** No two edits hold equivalent current files. */
  ghost predicate CurrentOnce(edits: seq<Edit>, level: nat) {
    forall i: nat, k: nat, f, g :: i < k && Current(edits, level, i, f) && Current(edits, level, k, g) ==> !Equivalent(f, g)
  }

  /** Of the files whose number is in use, the current ones are exactly the ones that came first. */
  ghost predicate CurrentAreFirst(edits: seq<Edit>, level: nat) {
    && (forall f :: IsCurrent(edits, level, f) ==> IsFirst(edits, level, f))
    && (forall f, g :: IsFirst(edits, level, f) && IsCurrent(edits, level, g) && f.number == g.number ==> IsCurrent(edits, level, f))
  }

  // ---------------------------------------------------------------------------------------------
  // One more edit
  // ---------------------------------------------------------------------------------------------

  lemma {:induction false} EquivalentOrder(f: File, g: File, h: File)
    ensures Equivalent(f, f) && (Equivalent(f, g) ==> Equivalent(g, f))
    ensures Equivalent(f, g) && Equivalent(g, h) ==> Equivalent(f, h)
    ensures BySmallest(f, g) || Equivalent(f, g) || BySmallest(g, f)
    ensures Equivalent(f, g) ==> !BySmallest(f, g) && !BySmallest(g, f) && f.number == g.number
    ensures BySmallest(f, g) ==> !BySmallest(g, f)
    ensures BySmallest(f, g) && (BySmallest(g, h) || Equivalent(g, h)) ==> BySmallest(f, h)
    ensures Equivalent(f, g) && BySmallest(g, h) ==> BySmallest(f, h)
  {
  }

  /** Adding one file after another: what was there stays, and new files come in unless an equivalent one is there. */
  lemma {:induction false} AddedAfterIs(s: seq<File>, level: nat, adds: seq<(nat, File)>)
    requires Listed(s)
    ensures forall f :: f in AddedAfter(s, level, adds) <==>
                        f in s || (f in AddedAfter([], level, adds) && forall h :: h in s ==> !Equivalent(h, f))
  {
    hide BySmallest, Equivalent;
    if adds != [] {
      var init, a := adds[..|adds| - 1], adds[|adds| - 1];
      AddedAfterIs(s, level, init);
      if a.0 == level {
        var t, t0 := AddedAfter(s, level, init), AddedAfter([], level, init);
        forall h, g ensures Equivalent(h, g) && Equivalent(g, a.1) ==> Equivalent(h, a.1) { EquivalentOrder(h, g, a.1); }
        assert (forall h :: h in t ==> !Equivalent(h, a.1))
           <==> (forall h :: h in s ==> !Equivalent(h, a.1)) && forall h :: h in t0 ==> !Equivalent(h, a.1);
      }
    }
  }

  /** An edit's additions carry exactly the numbers it names. */
  lemma {:induction false} AddedNumbers(level: nat, adds: seq<(nat, File)>)
    ensures Numbers(AddedAfter([], level, adds)) == NumbersAt(level, adds)
  {
    if adds != [] {
      var init, a := adds[..|adds| - 1], adds[|adds| - 1];
      AddedNumbers(level, init);
      var t := AddedAfter([], level, init);
      assert adds == init + [a];
      assert NumbersAt(level, adds) == NumbersAt(level, init) + if a.0 == level then {a.1.number} else {};
      if a.0 == level {
        SetInsertNumbers(t, a.1);
      }
    }
  }

  lemma {:induction false} SetInsertNumbers(s: seq<File>, f: File)
    requires Listed(s)
    ensures Numbers(SetInsert(s, f)) == Numbers(s) + {f.number}
  {
    hide BySmallest;
    var r := SetInsert(s, f);
    forall n | n in Numbers(s) ensures n in Numbers(r) {
      var g :| g in s && g.number == n;
      assert g in r;
    }
    if h :| h in s && Equivalent(h, f) {
      assert h in r && h.number == f.number;
    } else {
      assert f in r;
    }
  }

  lemma {:induction false} CurrentUnfolds(init: seq<Edit>, e: Edit, level: nat, i: nat, f: File)
    ensures Current(init + [e], level, i, f) <==>
            (i < |init| && Current(init, level, i, f) && f.number !in GoneBy(e, level)) || (i == |init| && f in AddsOf(e, level))
  {
    hide AddsOf, GoneBy;
    var edits := init + [e];
    assert forall j :: 0 <= j < |init| ==> edits[j] == init[j];
    assert edits[|init|] == e;
  }

  lemma {:induction false} NewUnfolds(init: seq<Edit>, e: Edit, level: nat, i: nat, f: File)
    ensures NewWith(init + [e], level, i, f) <==>
            NewWith(init, level, i, f)
            || (i == |init| && f in AddsOf(e, level) && forall k: nat, g :: Adds(init, level, k, g) ==> !Equivalent(f, g))
  {
    hide AddsOf, Equivalent;
    var edits := init + [e];
    assert forall j :: 0 <= j < |init| ==> edits[j] == init[j];
    assert edits[|init|] == e;
    assert forall k: nat, g | k < |init| :: Adds(edits, level, k, g) <==> Adds(init, level, k, g);
  }

  /** Every file ever added has an equivalent one that came first. */
  lemma {:induction false} FirstOfItsKind(edits: seq<Edit>, level: nat, i: nat, f: File) returns (g: File)
    requires Adds(edits, level, i, f)
    ensures IsFirst(edits, level, g) && Equivalent(f, g)
    decreases i
  {
    hide Equivalent, AddsOf;
    EquivalentOrder(f, f, f);
    if k: nat, h :| k < i && Adds(edits, level, k, h) && Equivalent(f, h) {
      g := FirstOfItsKind(edits, level, k, h);
      EquivalentOrder(f, h, g);
    } else {
      g := f;
      assert NewWith(edits, level, i, f);
    }
  }

  // ---------------------------------------------------------------------------------------------
  // Both sides as sets
  // ---------------------------------------------------------------------------------------------

  lemma {:induction false} LiveIsCurrent(edits: seq<Edit>, level: nat)
    ensures forall f :: f in LiveLevel(edits, level) <==> IsCurrent(edits, level, f)
  {
    hide BySmallest, Current;
    if edits == [] {
      forall f, i: nat ensures !Current([], level, i, f) { NothingCurrent(level, i, f); }
    } else {
      var init, e := edits[..|edits| - 1], edits[|edits| - 1];
      assert edits == init + [e];
      LiveIsCurrent(init, level);
      LiveUnfolds(init, e, level);
      forall f ensures f in LiveLevel(edits, level) <==> IsCurrent(edits, level, f) {
        forall i: nat ensures Current(edits, level, i, f) <==>
          (i < |init| && Current(init, level, i, f) && f.number !in GoneBy(e, level)) || (i == |init| && f in AddsOf(e, level))
        {
          CurrentUnfolds(init, e, level, i, f);
        }
        forall i: nat | Current(init, level, i, f) ensures i < |init| { CurrentInside(init, level, i, f); }
        if f in AddsOf(e, level) {
          assert Current(edits, level, |init|, f);
        }
      }
    }
  }

  lemma {:induction false} NothingCurrent(level: nat, i: nat, f: File)
    ensures !Current([], level, i, f)
  {
  }

  lemma {:induction false} CurrentInside(edits: seq<Edit>, level: nat, i: nat, f: File)
    requires Current(edits, level, i, f)
    ensures i < |edits|
  {
  }

  /** The live level after one more edit, as a set. */
  lemma {:induction false} LiveUnfolds(init: seq<Edit>, e: Edit, level: nat)
    ensures forall f :: f in LiveLevel(init + [e], level) <==>
                        (f in LiveLevel(init, level) && f.number !in GoneBy(e, level)) || f in AddsOf(e, level)
  {
    assert (init + [e])[..|init|] == init;
    var was, now := LiveLevel(init, level), AddsOf(e, level);
    MergeMembers(was, now);
    KeepMembers(Merge(was, now), GoneBy(e, level));
    AddedNumbers(level, e.added);
    assert forall f :: f in now ==> f.number in Numbers(now);
  }

  lemma {:induction false} ReplayAddedIsFirst(edits: seq<Edit>, level: nat)
    ensures forall f :: f in ReplayAdded(edits, level) <==> IsFirst(edits, level, f)
  {
    hide BySmallest, NewWith, Equivalent, Listed;
    if edits == [] {
      forall f, i: nat ensures !NewWith([], level, i, f) { NothingNew(level, i, f); }
    } else {
      var init, e := edits[..|edits| - 1], edits[|edits| - 1];
      assert edits == init + [e];
      ReplayAddedIsFirst(init, level);
      var was := ReplayAdded(init, level);
      AddedAfterIs(was, level, e.added);
      forall f ensures f in ReplayAdded(edits, level) <==> IsFirst(edits, level, f) {
        forall i: nat ensures NewWith(edits, level, i, f) <==> NewWith(init, level, i, f) || (i == |init| && ComesNew(init, e, level, f)) {
          NewUnfolds(init, e, level, i, f);
        }
        NewAfter(init, e, level, f);
        if ComesNew(init, e, level, f) {
          assert NewWith(edits, level, |init|, f);
        }
      }
    }
  }

  lemma {:induction false} NothingNew(level: nat, i: nat, f: File)
    ensures !NewWith([], level, i, f)
  {
  }

  ghost predicate ComesNew(init: seq<Edit>, e: Edit, level: nat, f: File) {
    f in AddsOf(e, level) && forall k: nat, g :: Adds(init, level, k, g) ==> !Equivalent(f, g)
  }

  lemma {:induction false} NewAfter(init: seq<Edit>, e: Edit, level: nat, f: File)
    requires forall g :: g in ReplayAdded(init, level) <==> IsFirst(init, level, g)
    ensures ComesNew(init, e, level, f) <==>
            f in AddsOf(e, level) && forall h :: h in ReplayAdded(init, level) ==> !Equivalent(h, f)
  {
    hide Equivalent, AddsOf, ReplayAdded;
    if k: nat, g :| Adds(init, level, k, g) && Equivalent(f, g) {
      var h := FirstOfItsKind(init, level, k, g);
      EquivalentOrder(f, g, h);
      EquivalentOrder(f, h, f);
    }
    if h :| h in ReplayAdded(init, level) && Equivalent(h, f) {
      EquivalentOrder(h, f, h);
      var i: nat :| NewWith(init, level, i, h);
      assert Adds(init, level, i, h);
    }
  }

  /** A number that was ever added is deleted at the end of a replay if and only if no live file has it. */
  lemma {:induction false} DeletedAtEnd(edits: seq<Edit>, level: nat, n: nat)
    requires n in EverAdded(edits, level)
    ensures n !in ReplayDeleted(edits, level) <==> n in Numbers(LiveLevel(edits, level))
  {
    hide LiveLevel, AddsOf;
    var init, e := edits[..|edits| - 1], edits[|edits| - 1];
    assert edits == init + [e];
    LiveUnfolds(init, e, level);
    AddedNumbers(level, e.added);
    assert Numbers(AddsOf(e, level)) == NumbersAt(level, e.added) by { AddsAre(e, level); }
    LiveNumbers(init, e, level, n);
    if n !in NumbersAt(level, e.added) {
      DeletedAtEnd(init, level, n);
    }
  }

  lemma {:induction false} AddsAre(e: Edit, level: nat)
    ensures AddsOf(e, level) == AddedAfter([], level, e.added)
  {
  }

  lemma {:induction false} LiveNumbers(init: seq<Edit>, e: Edit, level: nat, n: nat)
    ensures n in Numbers(LiveLevel(init + [e], level)) <==>
            (n in Numbers(LiveLevel(init, level)) && n !in GoneBy(e, level)) || n in Numbers(AddsOf(e, level))
  {
    hide LiveLevel, AddsOf, GoneBy;
    LiveUnfolds(init, e, level);
    if n in Numbers(LiveLevel(init, level)) && n !in GoneBy(e, level) {
      var f :| f in LiveLevel(init, level) && f.number == n;
      assert f in LiveLevel(init + [e], level);
    }
    if n in Numbers(AddsOf(e, level)) {
      var f :| f in AddsOf(e, level) && f.number == n;
      assert f in LiveLevel(init + [e], level);
    }
  }

  lemma {:induction false} FirstsWereAdded(edits: seq<Edit>, level: nat, i: nat, f: File)
    requires Adds(edits, level, i, f)
    ensures f.number in EverAdded(edits, level)
  {
    var init, e := edits[..|edits| - 1], edits[|edits| - 1];
    AddedNumbers(level, e.added);
    if i == |init| {
      assert f.number in Numbers(AddsOf(e, level));
    } else {
      assert Adds(init, level, i, f);
      FirstsWereAdded(init, level, i, f);
    }
  }

  /** What a replay keeps: the first files whose number is in use. */
  lemma {:induction false} ReplayMembers(edits: seq<Edit>, level: nat)
    ensures Listed(ReplayLevel(edits, level))
    ensures forall f :: f in ReplayLevel(edits, level) <==>
                        IsFirst(edits, level, f) && exists g :: IsCurrent(edits, level, g) && g.number == f.number
  {
    hide BySmallest, IsCurrent;
    var added, deleted := ReplayAdded(edits, level), ReplayDeleted(edits, level);
    assert Merge([], added) == added by { MergeNothing(added); }
    KeepListed(added, deleted);
    KeepMembers(added, deleted);
    ReplayAddedIsFirst(edits, level);
    LiveIsCurrent(edits, level);
    forall f | IsFirst(edits, level, f)
      ensures f.number !in deleted <==> exists g :: IsCurrent(edits, level, g) && g.number == f.number
    {
      var i: nat :| NewWith(edits, level, i, f);
      FirstsWereAdded(edits, level, i, f);
      DeletedAtEnd(edits, level, f.number);
      if g :| IsCurrent(edits, level, g) && g.number == f.number {
        assert g in LiveLevel(edits, level);
      }
    }
  }

  lemma {:induction false} MergeNothing(added: seq<File>)
    ensures Merge([], added) == added
  {
    hide BySmallest;
    if added != [] {
      MergeNothing(added[1..]);
      assert UpperBound([], added[0]) == 0;
      assert added == [added[0]] + added[1..];
    }
  }

  // ---------------------------------------------------------------------------------------------
  // When the live level is a list without equivalent files
  // ---------------------------------------------------------------------------------------------

  ghost predicate InOrder(files: seq<File>) {
    forall i, j :: 0 <= i < j < |files| ==> !BySmallest(files[j], files[i])
  }

  /** How many of the files are equivalent to c. */
  function Alike(files: seq<File>, c: File): nat {
    if files == [] then 0 else Alike(files[..|files| - 1], c) + if Equivalent(files[|files| - 1], c) then 1 else 0
  }

  lemma {:induction false} AlikeJoin(a: seq<File>, b: seq<File>, c: File)
    ensures Alike(a + b, c) == Alike(a, c) + Alike(b, c)
  {
    if b == [] {
      assert a + b == a;
    } else {
      assert (a + b)[..|a + b| - 1] == a + b[..|b| - 1];
      AlikeJoin(a, b[..|b| - 1], c);
    }
  }

  lemma {:induction false} AlikeMember(files: seq<File>, c: File)
    ensures Alike(files, c) > 0 <==> exists f :: f in files && Equivalent(f, c)
  {
    if files != [] {
      AlikeMember(files[..|files| - 1], c);
      assert files == files[..|files| - 1] + [files[|files| - 1]];
    }
  }

  lemma {:induction false} AlikeOnce(files: seq<File>, c: File)
    requires Listed(files)
    ensures Alike(files, c) <= 1
  {
    hide BySmallest, Equivalent;
    if files != [] {
      var n := |files| - 1;
      AlikeOnce(files[..n], c);
      AlikeMember(files[..n], c);
      if Alike(files[..n], c) > 0 && Equivalent(files[n], c) {
        var f :| f in files[..n] && Equivalent(f, c);
        var i :| 0 <= i < n && files[i] == f;
        EquivalentOrder(files[n], c, f);
        EquivalentOrder(f, c, f);
        EquivalentOrder(f, files[n], f);
        EquivalentOrder(files[n], f, f);
        assert false;
      }
    }
  }

  /** An ordered list is strictly ordered if and only if no two of its files are equivalent. */
  lemma {:induction false} ListedIff(files: seq<File>)
    requires InOrder(files)
    ensures Listed(files) <==> forall c :: Alike(files, c) <= 1
  {
    hide BySmallest, Equivalent;
    if Listed(files) {
      forall c ensures Alike(files, c) <= 1 { AlikeOnce(files, c); }
    } else {
      var i, j :| 0 <= i < j < |files| && !BySmallest(files[i], files[j]);
      EquivalentOrder(files[i], files[j], files[i]);
      TwoAlike(files, i, j);
    }
  }

  lemma {:induction false} TwoAlike(files: seq<File>, i: nat, j: nat)
    requires i < j < |files| && Equivalent(files[i], files[j])
    ensures Alike(files, files[j]) >= 2
  {
    hide Equivalent;
    EquivalentOrder(files[j], files[j], files[j]);
    var n, c := |files| - 1, files[j];
    if j < n {
      TwoAlike(files[..n], i, j);
    } else {
      AlikeMember(files[..n], c);
      assert files[..n][i] in files[..n];
    }
  }

  lemma {:induction false} MergeAlike(base: seq<File>, added: seq<File>, c: File)
    ensures Alike(Merge(base, added), c) == Alike(base, c) + Alike(added, c)
  {
    hide Equivalent;
    if added == [] {
      assert Alike(added, c) == 0;
    } else {
      var n := UpperBound(base, added[0]);
      var rest := Merge(base[n..], added[1..]);
      MergeAlike(base[n..], added[1..], c);
      AlikeJoin(base[..n] + [added[0]], rest, c);
      AlikeJoin(base[..n], [added[0]], c);
      AlikeJoin(base[..n], base[n..], c);
      AlikeJoin([added[0]], added[1..], c);
      assert base == base[..n] + base[n..] && added == [added[0]] + added[1..];
    }
  }

  lemma {:induction false} KeepAlike(files: seq<File>, deleted: set<nat>, c: File)
    ensures Alike(Keep(files, deleted), c) == if c.number in deleted then 0 else Alike(files, c)
  {
    if files != [] {
      var n := |files| - 1;
      KeepAlike(files[..n], deleted, c);
      AlikeJoin(Keep(files[..n], deleted), if files[n].number in deleted then [] else [files[n]], c);
      assert [files[n]][..0] == [];
    }
  }

  lemma {:induction false} MergeInOrder(base: seq<File>, added: seq<File>)
    requires InOrder(base) && Listed(added)
    ensures InOrder(Merge(base, added))
  {
    hide BySmallest;
    if added != [] {
      var n, a := UpperBound(base, added[0]), added[0];
      var rest := Merge(base[n..], added[1..]);
      MergeInOrder(base[n..], added[1..]);
      MergeMembers(base[n..], added[1..]);
      forall k | 0 <= k < |rest| ensures BySmallest(a, rest[k]) {
        assert rest[k] in rest;
        BehindHead(base, added, n, rest[k]);
      }
      forall i, k | 0 <= i < n && 0 <= k < |rest| ensures !BySmallest(rest[k], base[i]) {
        EquivalentOrder(a, rest[k], base[i]);
      }
      forall k | 0 <= k < |rest| ensures !BySmallest(rest[k], a) { EquivalentOrder(a, rest[k], a); }
      JoinInOrder(base[..n], a, rest);
    }
  }

  lemma {:induction false} JoinInOrder(front: seq<File>, a: File, rest: seq<File>)
    requires InOrder(front) && InOrder(rest)
    requires forall i :: 0 <= i < |front| ==> !BySmallest(a, front[i])
    requires forall k :: 0 <= k < |rest| ==> !BySmallest(rest[k], a)
    requires forall i, k :: 0 <= i < |front| && 0 <= k < |rest| ==> !BySmallest(rest[k], front[i])
    ensures InOrder(front + [a] + rest)
  {
    hide BySmallest;
  }

  lemma {:induction false} BehindHead(base: seq<File>, added: seq<File>, n: nat, f: File)
    requires InOrder(base) && Listed(added) && added != [] && n == UpperBound(base, added[0])
    requires f in base[n..] || f in added[1..]
    ensures BySmallest(added[0], f)
  {
    hide BySmallest;
    if f in added[1..] {
      var j :| 1 <= j < |added| && added[j] == f;
    } else {
      var j :| n <= j < |base| && base[j] == f;
      EquivalentOrder(added[0], base[n], base[j]);
      EquivalentOrder(base[n], base[j], base[n]);
    }
  }

  lemma {:induction false} KeepInOrder(files: seq<File>, deleted: set<nat>)
    requires InOrder(files)
    ensures InOrder(Keep(files, deleted))
  {
    hide BySmallest;
    if files != [] {
      var init := files[..|files| - 1];
      KeepInOrder(init, deleted);
      KeepMembers(init, deleted);
      var k := Keep(init, deleted);
      forall i | 0 <= i < |k| ensures !BySmallest(files[|files| - 1], k[i]) {
        assert k[i] in k;
      }
    }
  }

  lemma {:induction false} LiveInOrder(edits: seq<Edit>, level: nat)
    ensures InOrder(LiveLevel(edits, level))
  {
    hide BySmallest;
    if edits != [] {
      var init, e := edits[..|edits| - 1], edits[|edits| - 1];
      LiveInOrder(init, level);
      MergeInOrder(LiveLevel(init, level), AddsOf(e, level));
      KeepInOrder(Merge(LiveLevel(init, level), AddsOf(e, level)), GoneBy(e, level));
    }
  }

  lemma {:induction false} LiveAlike(init: seq<Edit>, e: Edit, level: nat, c: File)
    ensures Alike(LiveLevel(init + [e], level), c)
         == (if c.number in GoneBy(e, level) then 0 else Alike(LiveLevel(init, level), c)) + Alike(AddsOf(e, level), c)
  {
    hide Equivalent;
    assert (init + [e])[..|init|] == init;
    var was, now := LiveLevel(init, level), AddsOf(e, level);
    MergeAlike(was, now, c);
    KeepAlike(Merge(was, now), GoneBy(e, level), c);
    if c.number in GoneBy(e, level) {
      AlikeMember(now, c);
      AddedNumbers(level, e.added);
      forall f | f in now ensures !Equivalent(f, c) {
        assert f.number in Numbers(now);
        EquivalentOrder(f, c, f);
      }
    }
  }

  /** Two live files of a kind come from two edits. */
  lemma {:induction false} AlikeAreCurrent(edits: seq<Edit>, level: nat, c: File) returns (i: nat, k: nat, f: File, g: File)
    requires Alike(LiveLevel(edits, level), c) >= 2
    ensures i < k && Current(edits, level, i, f) && Current(edits, level, k, g) && Equivalent(f, g) && Equivalent(f, c)
  {
    hide Equivalent, Current, AddsOf, GoneBy, LiveLevel;
    NothingLive(level, c);
    var init, e := edits[..|edits| - 1], edits[|edits| - 1];
    assert edits == init + [e];
    LiveAlike(init, e, level, c);
    AlikeOnce(AddsOf(e, level), c);
    if Alike(LiveLevel(init, level), c) >= 2 {
      i, k, f, g := AlikeAreCurrent(init, level, c);
      EquivalentOrder(f, g, c);
      EquivalentOrder(f, c, f);
      CurrentInside(init, level, k, g);
      CurrentUnfolds(init, e, level, i, f);
      CurrentUnfolds(init, e, level, k, g);
    } else {
      AlikeMember(LiveLevel(init, level), c);
      AlikeMember(AddsOf(e, level), c);
      f :| f in LiveLevel(init, level) && Equivalent(f, c);
      g :| g in AddsOf(e, level) && Equivalent(g, c);
      LiveIsCurrent(init, level);
      i :| Current(init, level, i, f);
      k := |init|;
      CurrentInside(init, level, i, f);
      EquivalentOrder(g, c, g);
      EquivalentOrder(f, c, g);
      CurrentUnfolds(init, e, level, i, f);
      CurrentUnfolds(init, e, level, k, g);
    }
  }

  lemma {:induction false} NothingLive(level: nat, c: File)
    ensures Alike(LiveLevel([], level), c) == 0
  {
  }

  /** Two current files of a kind are both in the live level. */
  lemma {:induction false} CurrentAreAlike(edits: seq<Edit>, level: nat, i: nat, k: nat, f: File, g: File)
    requires i < k && Current(edits, level, i, f) && Current(edits, level, k, g) && Equivalent(f, g)
    ensures Alike(LiveLevel(edits, level), g) >= 2
  {
    hide Equivalent, Current, AddsOf, GoneBy, LiveLevel;
    CurrentInside(edits, level, k, g);
    var init, e := edits[..|edits| - 1], edits[|edits| - 1];
    assert edits == init + [e];
    CurrentUnfolds(init, e, level, i, f);
    CurrentUnfolds(init, e, level, k, g);
    EquivalentOrder(f, g, g);
    EquivalentOrder(g, g, g);
    LiveAlike(init, e, level, g);
    if k < |init| {
      CurrentAreAlike(init, level, i, k, f, g);
    } else {
      LiveIsCurrent(init, level);
      assert f in LiveLevel(init, level);
      AlikeMember(LiveLevel(init, level), g);
      AlikeMember(AddsOf(e, level), g);
    }
  }

  lemma {:induction false} LiveListedIff(edits: seq<Edit>, level: nat)
    ensures Listed(LiveLevel(edits, level)) <==> CurrentOnce(edits, level)
  {
    hide BySmallest, Equivalent, Current, LiveLevel, InOrder, Listed;
    LiveInOrder(edits, level);
    ListedIff(LiveLevel(edits, level));
    if c :| Alike(LiveLevel(edits, level), c) >= 2 {
      var i, k, f, g := AlikeAreCurrent(edits, level, c);
    }
    if i: nat, k: nat, f, g :| i < k && Current(edits, level, i, f) && Current(edits, level, k, g) && Equivalent(f, g) {
      CurrentAreAlike(edits, level, i, k, f, g);
    }
  }

  // ---------------------------------------------------------------------------------------------
  // The result
  // ---------------------------------------------------------------------------------------------

  /**
   One builder over all edits leaves the live list of a level if and only if no two edits hold equivalent current
   files, and of the files whose number is in use the current ones are exactly the first of their kind.
   */
  lemma {:induction false} ReplayIsLiveIff(edits: seq<Edit>, level: nat)
    ensures ReplayLevel(edits, level) == LiveLevel(edits, level) <==> CurrentOnce(edits, level) && CurrentAreFirst(edits, level)
  {
    hide BySmallest, Equivalent, IsCurrent, IsFirst, LiveLevel, ReplayLevel, Listed, CurrentOnce;
    var live, replay := LiveLevel(edits, level), ReplayLevel(edits, level);
    ReplayMembers(edits, level);
    LiveIsCurrent(edits, level);
    LiveListedIff(edits, level);
    if CurrentOnce(edits, level) && CurrentAreFirst(edits, level) {
      assert FileSet(live) == FileSet(replay) by {
        forall f ensures f in live <==> f in replay { }
      }
      ListedUnique(replay, live);
    }
  }

  /** In a sequence of edits that never adds a number to the level twice, a number tells edit and file. */
  lemma {:induction false} AddedOnce(edits: seq<Edit>, level: nat, i: nat, k: nat, f: File, g: File)
    requires NeverReadded(edits, level) && i <= k && Adds(edits, level, i, f) && Adds(edits, level, k, g) && f.number == g.number
    ensures i == k && f == g
  {
    hide BySmallest;
    var init, e := edits[..|edits| - 1], edits[|edits| - 1];
    AddedNumbers(level, e.added);
    if k < |init| {
      assert Adds(init, level, i, f) && Adds(init, level, k, g);
      AddedOnce(init, level, i, k, f, g);
    } else {
      assert g.number in Numbers(AddsOf(e, level));
      if i < |init| {
        assert Adds(init, level, i, f);
        FirstsWereAdded(init, level, i, f);
        assert false;
      }
      AddedAfterMembers([], level, e.added);
      SameNumberSameFile(level, e.added, f, g);
    }
  }

  lemma {:induction false} SameNumberSameFile(level: nat, adds: seq<(nat, File)>, f: File, g: File)
    requires DistinctAt(level, adds) && (level, f) in adds && (level, g) in adds && f.number == g.number
    ensures f == g
  {
    var i :| 0 <= i < |adds| && adds[i] == (level, f);
    var j :| 0 <= j < |adds| && adds[j] == (level, g);
  }

  /** Where no number is ever added to a level twice, the condition holds. */
  lemma {:induction false} ReplayIsLive(edits: seq<Edit>, level: nat)
    requires NeverReadded(edits, level)
    ensures ReplayLevel(edits, level) == LiveLevel(edits, level)
  {
    hide BySmallest, LiveLevel, ReplayLevel, NeverReadded, Adds;
    ReplayIsLiveIff(edits, level);
    forall i: nat, k: nat, f, g | Adds(edits, level, i, f) && Adds(edits, level, k, g) && f.number == g.number ensures i == k && f == g {
      if i <= k {
        AddedOnce(edits, level, i, k, f, g);
      } else {
        AddedOnce(edits, level, k, i, g, f);
      }
    }
    forall f | IsCurrent(edits, level, f) ensures IsFirst(edits, level, f) {
      var i: nat :| Current(edits, level, i, f);
      assert NewWith(edits, level, i, f);
    }
    forall f, g | IsFirst(edits, level, f) && IsCurrent(edits, level, g) && f.number == g.number ensures IsCurrent(edits, level, f) {
      var i: nat :| NewWith(edits, level, i, f);
      var k: nat :| Current(edits, level, k, g);
    }
  }

  /** Equivalent files in two edits: the live list holds both, a replay only the first, with no deletion anywhere. */
  lemma {:induction false} EquivalentAddedTwice(f: File, g: File)
    requires Equivalent(f, g)
    ensures var edits := [Edit([], [(1, f)]), Edit([], [(1, g)])];
            ReplayLevel(edits, 1) == [f] && LiveLevel(edits, 1) == [f, g]
  {
    hide Merge, Keep, AddedAfter, AppliedLevel, LiveLevel, ReplayAdded, ReplayDeleted, Equivalent, BySmallest, NumbersAt, DeletedAt;
    var e0, e1 := Edit([], [(1, f)]), Edit([], [(1, g)]);
    NothingYet(1);
    assert [e0, e1] == [] + [e0] + [e1];
    ApplyOneAdd(f);
    Unfold([], e0, 1);
    Unfold([] + [e0], e1, 1);
    AddedAgain(f, g);
    assert ReplayDeleted([] + [e0], 1) == {};
    assert ReplayDeleted([] + [e0] + [e1], 1) == {};
    assert ReplayAdded([] + [e0] + [e1], 1) == [f];
  }

  lemma {:induction false} NothingYet(level: nat)
    ensures LiveLevel([], level) == [] && ReplayAdded([], level) == [] && ReplayDeleted([], level) == {}
  {
  }

  lemma {:induction false} AddedAgain(f: File, g: File)
    requires Equivalent(f, g)
    ensures AppliedLevel([f], Edit([], [(1, g)]), 1) == [f, g]
    ensures AddedAfter(AddedAfter([], 1, [(1, f)]), 1, [(1, g)]) == [f]
    ensures DeletedAt(1, []) - NumbersAt(1, [(1, f)]) == DeletedAt(1, []) - NumbersAt(1, [(1, g)]) == {}
    ensures {} + DeletedAt(1, []) == {} && Merge([], [f]) == [f] && Keep([f], {}) == [f]
  {
    AddOne([], f);
    AddOne([], g);
    DeleteOne(g.number);
    SmallLists(f, g);
    assert [f][1..] == [] && [f][..1] == [f] && [g][1..] == [] && [(1, g)][..0] == [];
    assert UpperBound([f], g) == 1;
    assert Merge([f], [g]) == [f, g];
    assert AddedAfter([f], 1, [(1, g)][..0]) == [f];
    assert {} - {g.number} == {};
  }
}
