/**
 Applying version edits (VersionSet::Builder, VersionSet::LogAndApply, VersionSet::Recover): one
 builder per edit while running, one builder for the whole manifest when recovering.
 */
module VersionBuilder {
  import opened Keys
  import opened Version

  /** The file part of a VersionEdit: deletions and additions, each with its level. */
  datatype Edit = Edit(deleted: seq<(nat, nat)>, added: seq<(nat, File)>) {
    ghost predicate Valid() {
      && (forall d :: d in deleted ==> d.0 < NUM_LEVELS)
      && (forall a :: a in added ==> a.0 < NUM_LEVELS)
    }
  }

  // ---------------------------------------------------------------------------------------------
  // The order of files within a level
  // ---------------------------------------------------------------------------------------------

  predicate BySmallest(f: File, g: File) {
    Less(f.smallest, g.smallest) || (f.smallest == g.smallest && f.number < g.number)
  }

  /** Neither comes first: std::set treats the two as one element. */
  predicate Equivalent(f: File, g: File) {
    f.smallest == g.smallest && f.number == g.number
  }

  ghost predicate Listed(files: seq<File>) {
    forall i, j :: 0 <= i < j < |files| ==> BySmallest(files[i], files[j])
  }

  ghost function FileSet(files: seq<File>): set<File> {
    set f | f in files
  }

  /** A listed level is determined by its set of files. */
  lemma {:induction false} ListedUnique(a: seq<File>, b: seq<File>)
    requires Listed(a) && Listed(b) && FileSet(a) == FileSet(b)
    ensures a == b
  {
    assert (a != [] ==> a[0] in FileSet(a)) && (b != [] ==> b[0] in FileSet(b));
    if a != [] && b != [] {
      assert a[0] in FileSet(b) && b[0] in FileSet(a);
      assert a[0] == b[0];
      forall f ensures f in FileSet(a[1..]) <==> f in FileSet(b[1..]) {
        assert f in FileSet(a) <==> f in FileSet(b);
        assert f in a <==> f == a[0] || f in a[1..];
        assert f in b <==> f == b[0] || f in b[1..];
      }
      ListedUnique(a[1..], b[1..]);
      assert a == [a[0]] + a[1..] && b == [b[0]] + b[1..];
    }
  }

  // ---------------------------------------------------------------------------------------------
  // added_files: a std::set ordered by BySmallest
  // ---------------------------------------------------------------------------------------------

  function SetInsert(s: seq<File>, f: File): (r: seq<File>)
    requires Listed(s)
    ensures Listed(r)
    ensures forall g :: g in r <==> g in s || (g == f && forall h :: h in s ==> !Equivalent(h, f))
  {
    if s == [] then [f]
    else if BySmallest(s[0], f) then
      var t := SetInsert(s[1..], f);
      assert s == [s[0]] + s[1..];
      assert forall k :: 0 <= k < |t| ==> t[k] in t;
      [s[0]] + t
    else if Equivalent(s[0], f) then s
    else [f] + s
  }

  /** The files added at one level, inserted one after the other. */
  function AddedAfter(s: seq<File>, level: nat, adds: seq<(nat, File)>): (r: seq<File>)
    requires Listed(s)
    ensures Listed(r)
  {
    if adds == [] then s
    else
      AddedOneMore(AddedAfter(s, level, adds[..|adds| - 1]), level, adds[|adds| - 1])
  }

  function AddedOneMore(t: seq<File>, level: nat, a: (nat, File)): seq<File>
    requires Listed(t)
  {
    if a.0 == level then SetInsert(t, a.1) else t
  }

  lemma {:induction false} NoAdds(adds: seq<(nat, File)>)
    ensures forall s: seq<File>, level: nat | Listed(s) :: AddedAfter(s, level, adds[..0]) == s
  {
    assert adds[..0] == [];
  }

  lemma {:induction false} OneMoreAdd(adds: seq<(nat, File)>, i: nat)
    requires i < |adds|
    ensures forall s: seq<File>, level: nat | Listed(s) ::
              AddedAfter(s, level, adds[..i + 1]) == AddedOneMore(AddedAfter(s, level, adds[..i]), level, adds[i])
  {
    assert adds[..i + 1][..i] == adds[..i];
  }

  function NumbersAt(level: nat, adds: seq<(nat, File)>): set<nat> {
    set a | a in adds && a.0 == level :: a.1.number
  }

  function DeletedAt(level: nat, dels: seq<(nat, nat)>): set<nat> {
    set d | d in dels && d.0 == level :: d.1
  }

  // ---------------------------------------------------------------------------------------------
  // Merging base and added files
  // ---------------------------------------------------------------------------------------------

  /** Base files up to and including the ones not after f. */
  function UpperBound(base: seq<File>, f: File): (n: nat)
    ensures n <= |base|
    ensures forall i :: 0 <= i < n ==> !BySmallest(f, base[i])
    ensures n < |base| ==> BySmallest(f, base[n])
  {
    if base == [] || BySmallest(f, base[0]) then 0 else 1 + UpperBound(base[1..], f)
  }

  function Merge(base: seq<File>, added: seq<File>): seq<File> {
    if added == [] then base
    else
      var n := UpperBound(base, added[0]);
      base[..n] + [added[0]] + Merge(base[n..], added[1..])
  }

  function Keep(files: seq<File>, deleted: set<nat>): seq<File> {
    if files == [] then []
    else Keep(files[..|files| - 1], deleted)
         + if files[|files| - 1].number in deleted then [] else [files[|files| - 1]]
  }

  lemma {:induction false} KeepAppend(a: seq<File>, b: seq<File>, deleted: set<nat>)
    ensures Keep(a + b, deleted) == Keep(a, deleted) + Keep(b, deleted)
  {
    if b == [] {
      assert a + b == a;
    } else {
      KeepAppend(a, b[..|b| - 1], deleted);
      assert (a + b)[..|a + b| - 1] == a + b[..|b| - 1];
    }
  }

  lemma {:induction false} KeepNothing(deleted: set<nat>)
    ensures Keep([], deleted) == []
  {
  }

  lemma {:induction false} KeepMembers(files: seq<File>, deleted: set<nat>)
    ensures forall f :: f in Keep(files, deleted) <==> f in files && f.number !in deleted
  {
    if files != [] {
      KeepMembers(files[..|files| - 1], deleted);
      assert files == files[..|files| - 1] + [files[|files| - 1]];
    }
  }

  lemma {:induction false} KeepListed(files: seq<File>, deleted: set<nat>)
    requires Listed(files)
    ensures Listed(Keep(files, deleted))
  {
    if files != [] {
      var init := files[..|files| - 1];
      KeepListed(init, deleted);
      KeepMembers(init, deleted);
      var k := Keep(init, deleted);
      forall i | 0 <= i < |k| ensures BySmallest(k[i], files[|files| - 1]) {
        assert k[i] in k;
      }
    }
  }

  // ---------------------------------------------------------------------------------------------
  // The builder
  // ---------------------------------------------------------------------------------------------

  class Builder {
    const base: Levels
    var deletedFiles: seq<set<nat>>
    var addedFiles: seq<seq<File>>

    constructor (base: Levels)
      requires |base| == NUM_LEVELS
      ensures Valid() && this.base == base
      ensures forall l :: 0 <= l < NUM_LEVELS ==> deletedFiles[l] == {} && addedFiles[l] == []
    {
      this.base := base;
      deletedFiles := seq(NUM_LEVELS, _ => {});
      addedFiles := seq(NUM_LEVELS, _ => []);
    }

    ghost predicate Valid()
      reads this
    {
      && |base| == |deletedFiles| == |addedFiles| == NUM_LEVELS
      && forall l :: 0 <= l < NUM_LEVELS ==> Listed(addedFiles[l])
    }

    /** Deletions first; an addition also takes its number out of the deleted ones. */
    method Apply(e: Edit)
      requires Valid() && e.Valid()
      modifies this
      ensures Valid()
      ensures forall l :: 0 <= l < NUM_LEVELS ==>
                deletedFiles[l] == old(deletedFiles[l]) + DeletedAt(l, e.deleted) - NumbersAt(l, e.added)
      ensures forall l :: 0 <= l < NUM_LEVELS ==> addedFiles[l] == AddedAfter(old(addedFiles[l]), l, e.added)
    {
      hide BySmallest, AddedAfter, DeletedAt, NumbersAt;
      ApplyDeletions(e);
      ApplyAdditions(e);
    }

    method ApplyDeletions(e: Edit)
      requires Valid() && e.Valid()
      modifies this`deletedFiles
      ensures Valid()
      ensures forall l :: 0 <= l < NUM_LEVELS ==> deletedFiles[l] == old(deletedFiles[l]) + DeletedAt(l, e.deleted)
    {
      hide BySmallest, Listed;
      for i := 0 to |e.deleted|
        invariant Valid()
        invariant forall l :: 0 <= l < NUM_LEVELS ==>
                    deletedFiles[l] == old(deletedFiles[l]) + DeletedAt(l, e.deleted[..i])
      {
        var (level, number) := e.deleted[i];
        assert e.deleted[..i + 1] == e.deleted[..i] + [e.deleted[i]];
        deletedFiles := deletedFiles[level := deletedFiles[level] + {number}];
      }
      assert e.deleted[..|e.deleted|] == e.deleted;
    }

    method ApplyAdditions(e: Edit)
      requires Valid() && e.Valid()
      modifies this
      ensures Valid()
      ensures forall l :: 0 <= l < NUM_LEVELS ==> deletedFiles[l] == old(deletedFiles[l]) - NumbersAt(l, e.added)
      ensures forall l :: 0 <= l < NUM_LEVELS ==> addedFiles[l] == AddedAfter(old(addedFiles[l]), l, e.added)
    {
      hide BySmallest, AddedAfter, SetInsert;
      NoAdds(e.added);
      for i := 0 to |e.added|
        invariant Valid()
        invariant forall l :: 0 <= l < NUM_LEVELS ==> deletedFiles[l] == old(deletedFiles[l]) - NumbersAt(l, e.added[..i])
        invariant forall l :: 0 <= l < NUM_LEVELS ==> addedFiles[l] == AddedAfter(old(addedFiles[l]), l, e.added[..i])
      {
        var (level, f) := e.added[i];
        assert e.added[..i + 1] == e.added[..i] + [e.added[i]];
        OneMoreAdd(e.added, i);
        deletedFiles := deletedFiles[level := deletedFiles[level] - {f.number}];
        addedFiles := addedFiles[level := SetInsert(addedFiles[level], f)];
      }
      assert e.added[..|e.added|] == e.added;
    }

    /** Merges base and added files of every level, leaving out the deleted ones. */
    method SaveTo() returns (v: Levels)
      requires Valid()
      ensures |v| == NUM_LEVELS
      ensures forall l :: 0 <= l < NUM_LEVELS ==> v[l] == Keep(Merge(base[l], addedFiles[l]), deletedFiles[l])
    {
      v := [];
      for level := 0 to NUM_LEVELS
        invariant |v| == level
        invariant forall l :: 0 <= l < level ==> v[l] == Keep(Merge(base[l], addedFiles[l]), deletedFiles[l])
      {
        var files := SaveLevel(level);
        v := v + [files];
      }
    }

    method SaveLevel(level: nat) returns (files: seq<File>)
      requires Valid() && level < NUM_LEVELS
      ensures files == Keep(Merge(base[level], addedFiles[level]), deletedFiles[level])
    {
      hide Keep, Listed, UpperBound, BySmallest;
      var baseFiles, added, deleted := base[level], addedFiles[level], deletedFiles[level];
      files := [];
      KeepNothing(deleted);
      var b := 0;
      ghost var done := [];
      for a := 0 to |added|
        invariant b <= |baseFiles|
        invariant files == Keep(done, deleted)
        invariant Merge(baseFiles, added) == done + Merge(baseFiles[b..], added[a..])
      {
        var bpos := b + UpperBound(baseFiles[b..], added[a]);
        MergeStep(done, baseFiles, b, bpos, added, a);
        KeepAppend(done, baseFiles[b..bpos], deleted);
        KeepAppend(done + baseFiles[b..bpos], [added[a]], deleted);
        files := AppendAll(files, baseFiles[b..bpos], deleted);
        files := MaybeAddFile(files, added[a], deleted);
        done := done + baseFiles[b..bpos] + [added[a]];
        b := bpos;
      }
      KeepAppend(done, baseFiles[b..], deleted);
      files := AppendAll(files, baseFiles[b..], deleted);
    }

    method AppendAll(files: seq<File>, more: seq<File>, deleted: set<nat>) returns (files': seq<File>)
      ensures files' == files + Keep(more, deleted)
    {
      files' := files;
      for i := 0 to |more|
        invariant files' == files + Keep(more[..i], deleted)
      {
        assert more[..i + 1] == more[..i] + [more[i]];
        KeepAppend(more[..i], [more[i]], deleted);
        files' := MaybeAddFile(files', more[i], deleted);
      }
      assert more[..|more|] == more;
    }

    method MaybeAddFile(files: seq<File>, f: File, deleted: set<nat>) returns (files': seq<File>)
      ensures files' == files + Keep([f], deleted)
    {
      assert [f][..0] == [];
      files' := if f.number in deleted then files else files + [f];
    }
  }

  lemma {:induction false} MergeStep(done: seq<File>, base: seq<File>, b: nat, bpos: nat, added: seq<File>, a: nat)
    requires b <= |base| && a < |added| && bpos == b + UpperBound(base[b..], added[a])
    ensures done + Merge(base[b..], added[a..]) == (done + base[b..bpos] + [added[a]]) + Merge(base[bpos..], added[a + 1..])
  {
    hide UpperBound;
    var n := bpos - b;
    assert added[a..][0] == added[a] && added[a..][1..] == added[a + 1..];
    assert base[b..][..n] == base[b..bpos] && base[b..][n..] == base[bpos..];
    var head, tail := base[b..bpos] + [added[a]], Merge(base[bpos..], added[a + 1..]);
    assert Merge(base[b..], added[a..]) == head + tail;
    assert done + (head + tail) == (done + base[b..bpos] + [added[a]]) + tail;
  }

  // ---------------------------------------------------------------------------------------------
  // Merge as a set
  // ---------------------------------------------------------------------------------------------

  ghost function Numbers(files: seq<File>): set<nat> {
    set f | f in files :: f.number
  }

  lemma {:induction false} MergeMembers(base: seq<File>, added: seq<File>)
    ensures forall f :: f in Merge(base, added) <==> f in base || f in added
  {
    if added != [] {
      var n := UpperBound(base, added[0]);
      MergeMembers(base[n..], added[1..]);
      assert base == base[..n] + base[n..] && added == [added[0]] + added[1..];
    }
  }

  lemma {:induction false} MergeHeadFirst(base: seq<File>, added: seq<File>, n: nat, f: File)
    requires Listed(base) && Listed(added) && added != []
    requires n == UpperBound(base, added[0])
    requires f in base[n..] || f in added[1..]
    ensures BySmallest(added[0], f)
  {
    if f in added[1..] {
      var j :| 1 <= j < |added| && added[j] == f;
    } else {
      var j :| n <= j < |base| && base[j] == f;
    }
  }

  lemma {:induction false} MergeBefore(base: seq<File>, added: seq<File>, n: nat, i: nat)
    requires added != [] && Numbers(base) !! Numbers(added)
    requires n == UpperBound(base, added[0]) && i < n
    ensures BySmallest(base[i], added[0])
  {
    assert base[i].number in Numbers(base) && added[0].number in Numbers(added);
  }

  lemma {:induction false} BySmallestTransitive(f: File, g: File, h: File)
    requires BySmallest(f, g) && BySmallest(g, h)
    ensures BySmallest(f, h)
  {
  }

  lemma {:induction false} ListedJoin(front: seq<File>, f: File, rest: seq<File>)
    requires Listed(front) && Listed(rest)
    requires forall i :: 0 <= i < |front| ==> BySmallest(front[i], f)
    requires forall k :: 0 <= k < |rest| ==> BySmallest(f, rest[k])
    ensures Listed(front + [f] + rest)
  {
    hide BySmallest;
    var all := front + [f] + rest;
    forall i, j | 0 <= i < j < |all| ensures BySmallest(all[i], all[j]) {
      if i < |front| < j {
        BySmallestTransitive(front[i], f, rest[j - |front| - 1]);
      }
    }
  }

  lemma {:induction false} MergeListed(base: seq<File>, added: seq<File>)
    requires Listed(base) && Listed(added) && Numbers(base) !! Numbers(added)
    ensures Listed(Merge(base, added))
  {
    hide BySmallest;
    if added != [] {
      var n := UpperBound(base, added[0]);
      var rest := Merge(base[n..], added[1..]);
      assert Numbers(base[n..]) <= Numbers(base) && Numbers(added[1..]) <= Numbers(added);
      MergeListed(base[n..], added[1..]);
      MergeMembers(base[n..], added[1..]);
      forall i | 0 <= i < n ensures BySmallest(base[i], added[0]) { MergeBefore(base, added, n, i); }
      forall k | 0 <= k < |rest| ensures BySmallest(added[0], rest[k]) {
        assert rest[k] in rest;
        MergeHeadFirst(base, added, n, rest[k]);
      }
      ListedJoin(base[..n], added[0], rest);
    }
  }

  // ---------------------------------------------------------------------------------------------
  // Live history and manifest replay, level by level
  // ---------------------------------------------------------------------------------------------

  /** The level after one builder per edit. */
  function LiveLevel(edits: seq<Edit>, level: nat): seq<File> {
    if edits == [] then []
    else
      var e := edits[|edits| - 1];
      AppliedLevel(LiveLevel(edits[..|edits| - 1], level), e, level)
  }

  function AppliedLevel(files: seq<File>, e: Edit, level: nat): seq<File> {
    Keep(Merge(files, AddedAfter([], level, e.added)), DeletedAt(level, e.deleted) - NumbersAt(level, e.added))
  }

  /** The state of one builder fed with all edits. */
  function ReplayAdded(edits: seq<Edit>, level: nat): (r: seq<File>)
    ensures Listed(r)
  {
    if edits == [] then []
    else AddedAfter(ReplayAdded(edits[..|edits| - 1], level), level, edits[|edits| - 1].added)
  }

  function ReplayDeleted(edits: seq<Edit>, level: nat): set<nat> {
    if edits == [] then {}
    else
      var e := edits[|edits| - 1];
      ReplayDeleted(edits[..|edits| - 1], level) + DeletedAt(level, e.deleted) - NumbersAt(level, e.added)
  }

  function ReplayLevel(edits: seq<Edit>, level: nat): seq<File> {
    Keep(Merge([], ReplayAdded(edits, level)), ReplayDeleted(edits, level))
  }

  /** VersionSet::LogAndApply's new version. */
  method ApplyEdit(v: Levels, e: Edit) returns (v': Levels)
    requires |v| == NUM_LEVELS && e.Valid()
    ensures |v'| == NUM_LEVELS
    ensures forall l :: 0 <= l < NUM_LEVELS ==> v'[l] == AppliedLevel(v[l], e, l)
  {
    var builder := new Builder(v);
    builder.Apply(e);
    assert forall l :: {} + DeletedAt(l, e.deleted) - NumbersAt(l, e.added) == DeletedAt(l, e.deleted) - NumbersAt(l, e.added);
    v' := builder.SaveTo();
  }

  /** VersionSet::Recover's version. */
  method RecoverVersion(edits: seq<Edit>) returns (v: Levels)
    requires forall e :: e in edits ==> e.Valid()
    ensures |v| == NUM_LEVELS
    ensures forall l :: 0 <= l < NUM_LEVELS ==> v[l] == ReplayLevel(edits, l)
  {
    var builder := new Builder(seq(NUM_LEVELS, _ => []));
    for i := 0 to |edits|
      invariant builder.Valid() && builder.base == seq(NUM_LEVELS, _ => []) && fresh(builder)
      invariant forall l :: 0 <= l < NUM_LEVELS ==>
                  && builder.addedFiles[l] == ReplayAdded(edits[..i], l)
                  && builder.deletedFiles[l] == ReplayDeleted(edits[..i], l)
    {
      builder.Apply(edits[i]);
      assert edits[..i + 1][..i] == edits[..i];
    }
    assert edits[..|edits|] == edits;
    v := builder.SaveTo();
  }

  /** Every number ever added to the level. */
  function EverAdded(edits: seq<Edit>, level: nat): set<nat> {
    if edits == [] then {} else EverAdded(edits[..|edits| - 1], level) + NumbersAt(level, edits[|edits| - 1].added)
  }

  ghost predicate DistinctAt(level: nat, adds: seq<(nat, File)>) {
    forall i, j :: 0 <= i < j < |adds| && adds[i].0 == level == adds[j].0 ==> adds[i].1.number != adds[j].1.number
  }

  /** No number is ever added to the level twice. */
  ghost predicate NeverReadded(edits: seq<Edit>, level: nat) {
    edits == [] ||
    (var init, e := edits[..|edits| - 1], edits[|edits| - 1];
     && NeverReadded(init, level)
     && DistinctAt(level, e.added)
     && NumbersAt(level, e.added) !! EverAdded(init, level))
  }

  lemma {:induction false} AddedAfterMembers(s: seq<File>, level: nat, adds: seq<(nat, File)>)
    requires Listed(s) && DistinctAt(level, adds) && Numbers(s) !! NumbersAt(level, adds)
    ensures forall f :: f in AddedAfter(s, level, adds) <==> f in s || (level, f) in adds
    ensures Numbers(AddedAfter(s, level, adds)) == Numbers(s) + NumbersAt(level, adds)
  {
    if adds != [] {
      var init, a := adds[..|adds| - 1], adds[|adds| - 1];
      assert adds == init + [a];
      assert NumbersAt(level, init) <= NumbersAt(level, adds);
      AddedAfterMembers(s, level, init);
      var t := AddedAfter(s, level, init);
      if a.0 == level {
        assert a.1.number in NumbersAt(level, adds);
        forall h | h in t ensures h.number != a.1.number {
          if h in s {
            assert h.number in Numbers(s);
          } else {
            assert (level, h) in init;
          }
        }
        forall f ensures f in AddedAfter(s, level, adds) <==> f in s || (level, f) in adds {
          assert f in AddedAfter(s, level, adds) <==> f in t || f == a.1;
        }
      }
      forall f ensures f in AddedAfter(s, level, adds) <==> f in s || (level, f) in adds {
      }
    }
    forall n | n in NumbersAt(level, adds) ensures n in Numbers(AddedAfter(s, level, adds)) {
      var a :| a in adds && a.0 == level && a.1.number == n;
      assert (level, a.1) in adds;
      assert a.1 in AddedAfter(s, level, adds);
    }
    forall n | n in Numbers(s) ensures n in Numbers(AddedAfter(s, level, adds)) {
      var f :| f in s && f.number == n;
      assert f in AddedAfter(s, level, adds);
    }
  }

  // ---------------------------------------------------------------------------------------------
  // Snapshots of a version, and numbers added twice
  // ---------------------------------------------------------------------------------------------

  function SnapshotAdds(v: Levels, n: nat): seq<(nat, File)>
    requires n <= |v|
  {
    if n == 0 then [] else SnapshotAdds(v, n - 1) + seq(|v[n - 1]|, i requires 0 <= i < |v[n - 1]| => (n - 1, v[n - 1][i]))
  }

  /** VersionSet::WriteSnapshot, for the files: the first record of a new manifest. */
  method WriteSnapshot(v: Levels) returns (e: Edit)
    requires |v| == NUM_LEVELS
    ensures e == Edit([], SnapshotAdds(v, NUM_LEVELS))
  {
    var added: seq<(nat, File)> := [];
    for level := 0 to NUM_LEVELS
      invariant added == SnapshotAdds(v, level)
    {
      ghost var start := added;
      for i := 0 to |v[level]|
        invariant added == start + seq(i, j requires 0 <= j < |v[level]| => (level, v[level][j]))
      {
        added := added + [(level, v[level][i])];
      }
    }
    e := Edit([], added);
  }

  ghost predicate DistinctNumbers(files: seq<File>) {
    forall i, j :: 0 <= i < j < |files| ==> files[i].number != files[j].number
  }

  lemma {:induction false} SnapshotMembers(v: Levels, n: nat, level: nat)
    requires n <= |v| && level < |v| && DistinctNumbers(v[level])
    ensures forall f :: (level, f) in SnapshotAdds(v, n) <==> level < n && f in v[level]
    ensures DistinctAt(level, SnapshotAdds(v, n))
  {
    if n > 0 {
      SnapshotMembers(v, n - 1, level);
      var init := SnapshotAdds(v, n - 1);
      var last := seq(|v[n - 1]|, i requires 0 <= i < |v[n - 1]| => (n - 1, v[n - 1][i]));
      forall f ensures (level, f) in init + last <==> level < n && f in v[level] {
        if level == n - 1 && f in v[level] {
          var i :| 0 <= i < |v[level]| && v[level][i] == f;
          assert last[i] == (level, f);
        }
      }
      forall i | 0 <= i < |init| && level == n - 1 ensures init[i].0 != level {
        assert init[i] in init;
        assert (level, init[i].1) in init ==> level < n - 1;
      }
    }
  }

  lemma {:induction false} ReplayOne(e: Edit, level: nat)
    ensures ReplayDeleted([e], level) == DeletedAt(level, e.deleted) - NumbersAt(level, e.added)
    ensures ReplayAdded([e], level) == AddedAfter([], level, e.added)
  {
    assert [e][..0] == [];
    assert ReplayAdded([e][..0], level) == [] && ReplayDeleted([e][..0], level) == {};
  }

  /** Recovery from a snapshot record alone gives back the version's lists. */
  lemma {:induction false} SnapshotRestores(v: Levels, level: nat)
    requires |v| == NUM_LEVELS && level < NUM_LEVELS
    requires Listed(v[level]) && DistinctNumbers(v[level])
    ensures ReplayLevel([Edit([], SnapshotAdds(v, NUM_LEVELS))], level) == v[level]
  {
    hide BySmallest;
    var adds := SnapshotAdds(v, NUM_LEVELS);
    var e := Edit([], adds);
    SnapshotMembers(v, NUM_LEVELS, level);
    AddedAfterMembers([], level, adds);
    ReplayOne(e, level);
    assert DeletedAt(level, []) - NumbersAt(level, adds) == {};
    var files := AddedAfter([], level, adds);
    MergeListed([], files);
    MergeMembers([], files);
    KeepListed(Merge([], files), {});
    KeepMembers(Merge([], files), {});
    forall f ensures f in files <==> f in v[level] {
      assert f in files <==> (level, f) in adds;
    }
    ListedUnique(ReplayLevel([e], level), v[level]);
  }

  lemma {:induction false} Unfold(init: seq<Edit>, e: Edit, level: nat)
    ensures LiveLevel(init + [e], level) == AppliedLevel(LiveLevel(init, level), e, level)
    ensures ReplayAdded(init + [e], level) == AddedAfter(ReplayAdded(init, level), level, e.added)
    ensures ReplayDeleted(init + [e], level)
         == ReplayDeleted(init, level) + DeletedAt(level, e.deleted) - NumbersAt(level, e.added)
  {
    assert (init + [e])[..|init|] == init;
  }

  lemma {:induction false} AddOne(s: seq<File>, f: File)
    requires |s| <= 1 && forall g :: g in s ==> BySmallest(g, f)
    ensures AddedAfter(s, 1, [(1, f)]) == s + [f]
    ensures NumbersAt(1, [(1, f)]) == {f.number}
  {
    var adds := [(1, f)];
    assert adds[..0] == [] && adds[0] == (1, f);
    assert AddedAfter(s, 1, adds[..0]) == s;
    assert AddedAfter(s, 1, adds) == SetInsert(s, f);
    if s == [] {
      assert s + [f] == [f];
    } else {
      assert s[0] in s && s[1..] == [] && s == [s[0]];
    }
  }

  lemma {:induction false} SmallLists(f: File, g: File)
    ensures Merge([], [f]) == [f] && Merge([], [f, g]) == [f, g] && Merge([f], []) == [f]
    ensures Keep([f], {}) == [f] && Keep([f], {f.number}) == [] && Keep([f, g], {}) == [f, g]
  {
    hide BySmallest;
    SmallMerges(f, g);
  }

  lemma {:induction false} SmallMerges(f: File, g: File)
    ensures Merge([], [f]) == [f] && Merge([], [f, g]) == [f, g]
  {
    hide BySmallest;
    assert [f][1..] == [] && [f, g][1..] == [g] && [g][1..] == [];
    assert Merge([], [g]) == [g];
  }

  lemma {:induction false} DeleteOne(n: nat)
    ensures DeletedAt(1, [(1, n)]) == {n} && DeletedAt(1, []) == {} && NumbersAt(1, []) == {}
  {
    assert (1, n) in [(1, n)];
  }

  function Readding(f: File, g: File): seq<Edit> {
    [Edit([], [(1, f)])] + [Edit([(1, f.number)], [])] + [Edit([], [(1, g)])]
  }

  lemma {:induction false} ApplyOneAdd(f: File)
    ensures AppliedLevel([], Edit([], [(1, f)]), 1) == [f]
  {
    AddOne([], f);
    SmallLists(f, f);
    DeleteOne(f.number);
    assert DeletedAt(1, []) - NumbersAt(1, [(1, f)]) == {};
  }

  lemma {:induction false} ApplyOneDelete(f: File)
    ensures AppliedLevel([f], Edit([(1, f.number)], []), 1) == []
  {
    SmallLists(f, f);
    DeleteOne(f.number);
    assert AddedAfter([], 1, []) == [] && {f.number} - {} == {f.number};
  }

  lemma {:induction false} ReaddingLive(f: File, g: File)
    requires f.number == g.number
    ensures LiveLevel(Readding(f, g), 1) == [g]
  {
    var e0, e1, e2 := Edit([], [(1, f)]), Edit([(1, f.number)], []), Edit([], [(1, g)]);
    ApplyOneAdd(f);
    ApplyOneDelete(f);
    ApplyOneAdd(g);
    assert [] + [e0] == [e0];
    Unfold([], e0, 1);
    Unfold([e0], e1, 1);
    Unfold([e0] + [e1], e2, 1);
  }

  lemma {:induction false} ReaddingReplayed(f: File, g: File)
    requires f.number == g.number && BySmallest(f, g)
    ensures ReplayLevel(Readding(f, g), 1) == [f, g]
  {
    var e0, e1, e2 := Edit([], [(1, f)]), Edit([(1, f.number)], []), Edit([], [(1, g)]);
    AddOne([], f);
    AddOne([f], g);
    SmallLists(f, g);
    DeleteOne(f.number);
    assert [] + [e0] == [e0];
    Unfold([], e0, 1);
    Unfold([e0], e1, 1);
    Unfold([e0] + [e1], e2, 1);
    assert ReplayAdded([e0] + [e1], 1) == [f];
    assert ReplayDeleted(Readding(f, g), 1) == {};
  }

  /**
   The condition is needed: when a number deleted from a level comes back under another smallest
   key, the replaying builder revives the old file as well.
   */
  lemma {:induction false} ReaddedNumberDiffers(f: File, g: File)
    requires f.number == g.number && BySmallest(f, g)
    ensures ReplayLevel(Readding(f, g), 1) == [f, g] && LiveLevel(Readding(f, g), 1) == [g]
  {
    ReaddingLive(f, g);
    ReaddingReplayed(f, g);
  }
}
