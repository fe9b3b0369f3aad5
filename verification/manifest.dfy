/**
 The manifest as bytes (VersionSet::Recover in db/version_set.cc): records written by VersionEdit::EncodeTo are
 decoded one after the other and fed to one builder.
 */
module Manifests {
  import opened Keys
  import opened Version
  import opened Separators
  import opened MemTables
  import Edits = VersionEdits
  import opened VersionBuilder
  import opened ManifestReplay

  /** The entries of every table file, by number. */
  type Tables = nat -> seq<Entry>

  // ---------------------------------------------------------------------------------------------
  // From a decoded edit to its file part
  // ---------------------------------------------------------------------------------------------

  /** An encoded internal key has a tag of eight bytes; the engine writes no shorter keys. */
  function KeyOf(b: Bytes): InternalKey {
    Lift(if |b| >= 8 then ParseKey(b) else RawKey(b, 0, Deletion))
  }

  function FileOf(p: Edits.Part, tables: Tables): File
    requires p.NewFile?
  {
    File(p.number, p.size, KeyOf(p.smallest), KeyOf(p.largest), tables(p.number))
  }

  function Additions(parts: seq<Edits.Part>, tables: Tables): seq<(nat, File)>
    requires forall p :: p in parts ==> p.NewFile?
  {
    seq(|parts|, i requires 0 <= i < |parts| => (parts[i].level, FileOf(parts[i], tables)))
  }

  /** b is the file part of e, with its deletions listed in any order. */
  ghost predicate Projects(e: Edits.Edit, tables: Tables, b: Edit) {
    && Edits.ValidEdit(e) && b.added == Additions(e.newFiles, tables)
    && forall level: nat, n: nat :: (level, n) in b.deleted <==> Edits.DeletedFile(level, n) in e.deletedFiles
  }

  /** Every level is one of the engine's. */
  ghost predicate Leveled(e: Edits.Edit) {
    && Edits.ValidEdit(e)
    && (forall p :: p in e.deletedFiles ==> p.level < NUM_LEVELS)
    && (forall p :: p in e.newFiles ==> p.level < NUM_LEVELS)
  }

  method Project(e: Edits.Edit, tables: Tables) returns (b: Edit)
    requires Leveled(e)
    ensures Projects(e, tables, b) && b.Valid()
  {
    var deleted: seq<(nat, nat)>, left := [], e.deletedFiles;
    while left != {}
      invariant left <= e.deletedFiles
      invariant forall level: nat, n: nat :: (level, n) in deleted <==> Edits.DeletedFile(level, n) in e.deletedFiles - left
      decreases left
    {
      var p :| p in left;
      assert p.DeletedFile?;
      deleted := deleted + [(p.level, p.number)];
      left := left - {p};
    }
    b := Edit(deleted, Additions(e.newFiles, tables));
    forall d | d in deleted ensures d.0 < NUM_LEVELS {
      assert (d.0, d.1) in deleted;
      assert Edits.DeletedFile(d.0, d.1) in e.deletedFiles - left;
    }
  }

  // ---------------------------------------------------------------------------------------------
  // Decoded records
  // ---------------------------------------------------------------------------------------------

  /** VersionEdit::DecodeFrom. */
  function Decoded(record: Bytes): Option<Edits.Edit> {
    match Edits.ReadParts(record)
    case None => None
    case Some(parts) => Some(Edits.TakeAll(Edits.NOTHING, parts))
  }

  ghost predicate LeveledPart(p: Edits.Part) {
    (p.DeletedFile? || p.NewFile?) ==> p.level < NUM_LEVELS
  }

  lemma {:induction false} FieldsAreLeveled(tag: nat, b: Bytes)
    ensures Edits.ReadFields(tag, b).Some? ==> LeveledPart(Edits.ReadFields(tag, b).value.0)
  {
  }

  lemma {:induction false} PartsAreLeveled(b: Bytes)
    ensures Edits.ReadParts(b).Some? ==> forall p :: p in Edits.ReadParts(b).value ==> LeveledPart(p)
    decreases |b|
  {
    hide Edits.ReadNumber32, Edits.ReadFields, LeveledPart;
    if b != [] {
      var tag := Edits.ReadNumber32(b);
      if tag.Some? {
        FieldsAreLeveled(tag.value.0, tag.value.1);
        var p := Edits.ReadFields(tag.value.0, tag.value.1);
        if p.Some? {
          PartsAreLeveled(p.value.1);
        }
      }
    }
  }

  lemma {:induction false} TakenAreLeveled(e: Edits.Edit, parts: seq<Edits.Part>)
    requires Leveled(e) && forall p :: p in parts ==> LeveledPart(p)
    ensures Leveled(Edits.TakeAll(e, parts))
    decreases parts
  {
    if parts != [] {
      assert parts[0] in parts && LeveledPart(parts[0]);
      TakenAreLeveled(Edits.Take(e, parts[0]), parts[1..]);
    }
  }

  lemma {:induction false} DecodedIsLeveled(record: Bytes)
    ensures Decoded(record).Some? ==> Leveled(Decoded(record).value)
  {
    hide Edits.ReadParts, Edits.TakeAll, LeveledPart;
    PartsAreLeveled(record);
    if Edits.ReadParts(record).Some? {
      TakenAreLeveled(Edits.NOTHING, Edits.ReadParts(record).value);
    }
  }

  /** edits are the file parts of the decoded records. */
  ghost predicate FileParts(records: seq<Bytes>, tables: Tables, edits: seq<Edit>) {
    && |edits| == |records|
    && forall i :: 0 <= i < |records| ==> Decoded(records[i]).Some? && Projects(Decoded(records[i]).value, tables, edits[i])
  }

  /** Decodes the records and feeds them to one builder; None for a record that cannot be decoded. */
  method RecoverManifest(records: seq<Bytes>, tables: Tables) returns (v: Option<Levels>, ghost edits: seq<Edit>)
    ensures v == None <==> exists i :: 0 <= i < |records| && Decoded(records[i]) == None
    ensures v.Some? ==> FileParts(records, tables, edits) && |v.value| == NUM_LEVELS
    ensures v.Some? ==> forall l :: 0 <= l < NUM_LEVELS ==> v.value[l] == ReplayLevel(edits, l)
  {
    hide Edits.ReadParts, Edits.TakeAll, Projects, Leveled;
    var builder := new Builder(seq(NUM_LEVELS, _ => []));
    edits := [];
    for i := 0 to |records|
      invariant builder.Valid() && builder.base == seq(NUM_LEVELS, _ => []) && fresh(builder)
      invariant FileParts(records[..i], tables, edits)
      invariant forall l :: 0 <= l < NUM_LEVELS ==>
                  && builder.addedFiles[l] == ReplayAdded(edits, l)
                  && builder.deletedFiles[l] == ReplayDeleted(edits, l)
    {
      var edit := Edits.DecodeFrom(records[i]);
      assert edit == Decoded(records[i]);
      if edit == None {
        return None, edits;
      }
      DecodedIsLeveled(records[i]);
      var b := Project(edit.value, tables);
      builder.Apply(b);
      assert (edits + [b])[..i] == edits;
      edits := edits + [b];
    }
    assert records[..|records|] == records;
    var levels := builder.SaveTo();
    return Some(levels), edits;
  }

  // ---------------------------------------------------------------------------------------------
  // Records written by the engine
  // ---------------------------------------------------------------------------------------------

  /** The record is what EncodeTo writes for the edit, in some order of its deletions. */
  ghost predicate WrittenFor(e: Edits.Edit, order: seq<Edits.Part>, record: Bytes) {
    && Edits.ValidEdit(e) && e.deletedFiles == (set p | p in order)
    && (forall p :: p in Edits.PartsOf(e, order) ==> Edits.ValidPart(p))
    && record == Edits.PartsBytes(Edits.PartsOf(e, order))
  }

  lemma {:induction false} WrittenIsDecoded(e: Edits.Edit, order: seq<Edits.Part>, record: Bytes)
    requires WrittenFor(e, order, record)
    ensures Decoded(record) == Some(e)
  {
    hide Edits.PartsOf, Edits.PartsBytes, Edits.ValidPart, Edits.ReadParts, Edits.TakeAll;
    Edits.EditRoundTrip(e, order);
  }

  /** Two file parts of one edit add the same files and delete the same numbers. */
  lemma {:induction false} SameParts(e: Edits.Edit, tables: Tables, a: Edit, b: Edit, level: nat)
    requires Projects(e, tables, a) && Projects(e, tables, b)
    ensures a.added == b.added && DeletedAt(level, a.deleted) == DeletedAt(level, b.deleted)
  {
    hide Additions, Edits.ValidEdit;
    forall n ensures n in DeletedAt(level, a.deleted) <==> n in DeletedAt(level, b.deleted) {
      assert n in DeletedAt(level, a.deleted) <==> (level, n) in a.deleted;
      assert n in DeletedAt(level, b.deleted) <==> (level, n) in b.deleted;
    }
  }

  lemma {:induction false} SameReplay(a: seq<Edit>, b: seq<Edit>, level: nat)
    requires |a| == |b|
    requires forall i :: 0 <= i < |a| ==> a[i].added == b[i].added && DeletedAt(level, a[i].deleted) == DeletedAt(level, b[i].deleted)
    ensures ReplayAdded(a, level) == ReplayAdded(b, level) && ReplayDeleted(a, level) == ReplayDeleted(b, level)
  {
    if a != [] {
      SameReplay(a[..|a| - 1], b[..|b| - 1], level);
    }
  }

  /**
   From the bytes of a manifest to the live lists: whatever records EncodeTo wrote for the edits, decoding them
   and feeding them to one builder gives the replay of these edits, and that is the live history of the level
   exactly under the condition of ReplayIsLiveIff.
   */
  lemma {:induction false} ManifestIsLive(written: seq<Edits.Edit>, orders: seq<seq<Edits.Part>>, records: seq<Bytes>,
                                          tables: Tables, live: seq<Edit>, edits: seq<Edit>, level: nat)
    requires |written| == |orders| == |records| == |live|
    requires forall i :: 0 <= i < |records| ==>
               WrittenFor(written[i], orders[i], records[i]) && Projects(written[i], tables, live[i])
    requires FileParts(records, tables, edits)
    ensures ReplayLevel(edits, level) == ReplayLevel(live, level)
    ensures ReplayLevel(edits, level) == LiveLevel(live, level) <==> CurrentOnce(live, level) && CurrentAreFirst(live, level)
  {
    hide WrittenFor, Projects, Decoded, LiveLevel, ReplayAdded, ReplayDeleted, CurrentOnce, CurrentAreFirst;
    forall i | 0 <= i < |records|
      ensures edits[i].added == live[i].added && DeletedAt(level, edits[i].deleted) == DeletedAt(level, live[i].deleted)
    {
      WrittenIsDecoded(written[i], orders[i], records[i]);
      SameParts(written[i], tables, edits[i], live[i], level);
    }
    SameReplay(edits, live, level);
    ReplayIsLiveIff(live, level);
  }
}
