/**
 DBIter (db/db_iter.cc): a cursor over the live user keys of a snapshot, moving an internal iterator
 over all entries in either direction.
 */
module DBIterator {
  import opened Keys
  import opened Version
  import opened Cursors

  // ---------------------------------------------------------------------------------------------
  // The rows a snapshot shows
  // ---------------------------------------------------------------------------------------------

  datatype Row = Row(user: UserKey, value: Bytes)

  predicate VisibleAt(entries: seq<Entry>, snapshot: nat, i: nat)
    requires i < |entries|
  {
    entries[i].key.sequence <= snapshot
  }

  /** Entry i is what a read of its user key returns: live, and no newer visible entry comes before it. */
  predicate Yields(entries: seq<Entry>, snapshot: nat, i: nat)
    requires i < |entries|
  {
    && VisibleAt(entries, snapshot, i) && entries[i].key.kind == Live
    && forall j :: 0 <= j < i && entries[j].key.user == entries[i].key.user ==> !VisibleAt(entries, snapshot, j)
  }

  /** The rows that the first n entries yield, in key order. */
  function Rows(entries: seq<Entry>, snapshot: nat, n: nat): seq<Row>
    requires n <= |entries|
  {
    if n == 0 then []
    else Rows(entries, snapshot, n - 1)
         + if Yields(entries, snapshot, n - 1) then [Row(entries[n - 1].key.user, entries[n - 1].value)] else []
  }

  function AllRows(entries: seq<Entry>, snapshot: nat): seq<Row> {
    Rows(entries, snapshot, |entries|)
  }

  ghost predicate NoneYield(entries: seq<Entry>, snapshot: nat, a: nat, b: nat)
    requires b <= |entries|
  {
    forall i :: a <= i < b ==> !Yields(entries, snapshot, i)
  }

  lemma {:induction false} RowsUnchanged(entries: seq<Entry>, snapshot: nat, a: nat, b: nat)
    requires a <= b <= |entries| && NoneYield(entries, snapshot, a, b)
    ensures Rows(entries, snapshot, a) == Rows(entries, snapshot, b)
    decreases b - a
  {
    if a < b {
      RowsUnchanged(entries, snapshot, a, b - 1);
    }
  }

  lemma {:induction false} RowsPrefix(entries: seq<Entry>, snapshot: nat, a: nat, b: nat)
    requires a <= b <= |entries|
    ensures Rows(entries, snapshot, a) <= Rows(entries, snapshot, b)
    decreases b - a
  {
    if a < b {
      RowsPrefix(entries, snapshot, a, b - 1);
    }
  }

  /** The row of a yielding entry has as its place the number of rows before the entry. */
  lemma {:induction false} RowAt(entries: seq<Entry>, snapshot: nat, i: nat)
    requires i < |entries| && Yields(entries, snapshot, i)
    ensures |Rows(entries, snapshot, i)| < |AllRows(entries, snapshot)|
    ensures AllRows(entries, snapshot)[|Rows(entries, snapshot, i)|] == Row(entries[i].key.user, entries[i].value)
    ensures |Rows(entries, snapshot, i + 1)| == |Rows(entries, snapshot, i)| + 1
  {
    RowsPrefix(entries, snapshot, i + 1, |entries|);
  }

  /** Every row comes from a yielding entry at its place. */
  lemma {:induction false} RowSource(entries: seq<Entry>, snapshot: nat, n: nat, k: nat) returns (i: nat)
    requires n <= |entries| && k < |Rows(entries, snapshot, n)|
    ensures i < n && Yields(entries, snapshot, i) && |Rows(entries, snapshot, i)| == k
    ensures Rows(entries, snapshot, n)[k] == Row(entries[i].key.user, entries[i].value)
  {
    if k < |Rows(entries, snapshot, n - 1)| {
      i := RowSource(entries, snapshot, n - 1, k);
    } else {
      i := n - 1;
    }
  }

  /** The rows are exactly the live reads of the snapshot, each user key once, in increasing order. */
  lemma {:induction false} RowsAreTheView(entries: seq<Entry>, snapshot: nat)
    requires Sorted(entries) && UniquelyKeyed(ToSet(entries))
    ensures var rows := AllRows(entries, snapshot);
            && (forall i, j :: 0 <= i < j < |rows| ==> rows[i].user < rows[j].user)
            && (forall r :: r in rows <==> View(ToSet(entries), r.user, snapshot) == Found(r.value))
  {
    var rows := AllRows(entries, snapshot);
    forall i, j | 0 <= i < j < |rows| ensures rows[i].user < rows[j].user {
      var a := RowSource(entries, snapshot, |entries|, i);
      var b := RowSource(entries, snapshot, |entries|, j);
      if b <= a {
        RowsPrefix(entries, snapshot, b, a);
      }
      assert a < b && Less(entries[a].key, entries[b].key);
      assert VisibleAt(entries, snapshot, a);
    }
    forall r | r in rows ensures View(ToSet(entries), r.user, snapshot) == Found(r.value) {
      var k :| 0 <= k < |rows| && rows[k] == r;
      var i := RowSource(entries, snapshot, |entries|, k);
      ViewIs(ToSet(entries), r.user, snapshot, entries[i]);
    }
    forall r: Row | View(ToSet(entries), r.user, snapshot) == Found(r.value) ensures r in rows {
      var e :| Newest(ToSet(entries), r.user, snapshot, e) && ReadOf(e) == Found(r.value);
      var i := NewestYields(entries, snapshot, r.user, e);
      RowAt(entries, snapshot, i);
    }
  }

  lemma {:induction false} NewestYields(entries: seq<Entry>, snapshot: nat, user: UserKey, e: Entry) returns (i: nat)
    requires Sorted(entries) && UniquelyKeyed(ToSet(entries))
    requires Newest(ToSet(entries), user, snapshot, e) && e.key.kind == Live
    ensures i < |entries| && entries[i] == e && Yields(entries, snapshot, i) && e.key.user == user
  {
    assert Visible(ToSet(entries), user, snapshot, e);
    i :| 0 <= i < |entries| && entries[i] == e;
    forall j | 0 <= j < i && entries[j].key.user == user ensures !VisibleAt(entries, snapshot, j) {
      PackedOrder(entries[j].key, e.key);
      assert entries[j] in ToSet(entries) && e in ToSet(entries);
      assert entries[j].key != e.key;
      assert !Visible(ToSet(entries), user, snapshot, entries[j]);
    }
  }

  // ---------------------------------------------------------------------------------------------
  // The iterator
  // ---------------------------------------------------------------------------------------------

  datatype Direction = Forward | Reverse

  /** Entry i is live, visible and not of a user key that is being skipped. */
  predicate Hidden(skipping: bool, skip: Option<UserKey>, user: UserKey) {
    skipping && skip.Some? && user <= skip.value
  }

  /** Entry i yields and is not hidden by the user key skipped from the start. */
  predicate Wanted(entries: seq<Entry>, snapshot: nat, skipping: bool, skip: Option<UserKey>, i: nat)
    requires i < |entries|
  {
    Yields(entries, snapshot, i) && !Hidden(skipping, skip, entries[i].key.user)
  }

  /** Entries before n that would hide an entry at or after n are covered by the skipped user key. */
  ghost predicate HidersSkipped(entries: seq<Entry>, snapshot: nat, n: nat, skipping: bool, skip: Option<UserKey>)
    requires n <= |entries|
  {
    forall j, i | 0 <= j < n <= i < |entries| && entries[j].key.user == entries[i].key.user ::
      VisibleAt(entries, snapshot, j) ==> Hidden(skipping, skip, entries[i].key.user)
  }

  /** No visible entry from n on comes before the skipped user key. */
  ghost predicate SkipsNoLater(entries: seq<Entry>, snapshot: nat, n: nat, skipping: bool, skip: Option<UserKey>)
    requires n <= |entries|
  {
    skipping ==> skip.Some? && forall i | n <= i < |entries| ::
                   VisibleAt(entries, snapshot, i) ==> skip.value <= entries[i].key.user
  }

  /** What the forward scan from start knows at pos. */
  ghost predicate Scanning(entries: seq<Entry>, snapshot: nat, skipping0: bool, skip0: Option<UserKey>,
                           start: nat, pos: nat, skipping: bool, skip: Option<UserKey>)
  {
    && start <= pos <= |entries|
    && HidersSkipped(entries, snapshot, pos, skipping, skip)
    && SkipsNoLater(entries, snapshot, pos, skipping, skip)
    && (skipping0 ==> skip0.Some? && skipping && skip0.value <= skip.value)
    && (forall i :: start <= i < pos && Yields(entries, snapshot, i) ==> Hidden(skipping0, skip0, entries[i].key.user))
    && (forall i :: pos <= i < |entries| && Wanted(entries, snapshot, skipping0, skip0, i) ==>
                      !Hidden(skipping, skip, entries[i].key.user))
  }

  lemma {:induction false} SkipDeletion(entries: seq<Entry>, snapshot: nat, skipping0: bool, skip0: Option<UserKey>,
                     start: nat, pos: nat, skipping: bool, skip: Option<UserKey>)
    requires Sorted(entries) && pos < |entries|
    requires Scanning(entries, snapshot, skipping0, skip0, start, pos, skipping, skip)
    requires VisibleAt(entries, snapshot, pos) && entries[pos].key.kind == Deletion
    ensures Scanning(entries, snapshot, skipping0, skip0, start, pos + 1, true, Some(entries[pos].key.user))
  {
    var user := entries[pos].key.user;
    forall j, i | 0 <= j < pos + 1 <= i < |entries| && entries[j].key.user == entries[i].key.user
      ensures VisibleAt(entries, snapshot, j) ==> Hidden(true, Some(user), entries[i].key.user)
    {
      if j < pos && VisibleAt(entries, snapshot, j) {
        assert Less(entries[j].key, entries[pos].key) && Less(entries[pos].key, entries[i].key);
      }
    }
    forall i | pos + 1 <= i < |entries| && Wanted(entries, snapshot, skipping0, skip0, i)
      ensures !Hidden(true, Some(user), entries[i].key.user)
    {
      assert Less(entries[pos].key, entries[i].key);
    }
    forall i | pos + 1 <= i < |entries| ensures user <= entries[i].key.user {
      assert Less(entries[pos].key, entries[i].key);
    }
  }

  lemma {:induction false} SkipEntry(entries: seq<Entry>, snapshot: nat, skipping0: bool, skip0: Option<UserKey>,
                  start: nat, pos: nat, skipping: bool, skip: Option<UserKey>)
    requires Sorted(entries) && pos < |entries|
    requires Scanning(entries, snapshot, skipping0, skip0, start, pos, skipping, skip)
    requires !VisibleAt(entries, snapshot, pos) || Hidden(skipping, skip, entries[pos].key.user)
    ensures Scanning(entries, snapshot, skipping0, skip0, start, pos + 1, skipping, skip)
  {
  }

  ghost predicate NoneVisible(entries: seq<Entry>, snapshot: nat, a: nat, b: nat)
    requires b <= |entries|
  {
    forall i :: a <= i < b ==> !VisibleAt(entries, snapshot, i)
  }

  /** Skipping the user key of a row from just behind its older versions leads to the next row. */
  lemma {:induction false} SkipFrom(entries: seq<Entry>, snapshot: nat, cur: nat, from: nat)
    requires Sorted(entries) && from <= cur < |entries| && Yields(entries, snapshot, cur)
    requires NoneVisible(entries, snapshot, from, cur)
    requires from < cur && from > 0 ==> entries[from - 1].key.user < entries[cur].key.user
    ensures HidersSkipped(entries, snapshot, from, true, Some(entries[cur].key.user))
    ensures SkipsNoLater(entries, snapshot, from, true, Some(entries[cur].key.user))
    ensures forall i :: cur < i < |entries| && Yields(entries, snapshot, i) ==>
                          !Hidden(true, Some(entries[cur].key.user), entries[i].key.user)
  {
    var user := entries[cur].key.user;
    forall j, i | 0 <= j < from <= i < |entries| && entries[j].key.user == entries[i].key.user
      ensures VisibleAt(entries, snapshot, j) ==> entries[i].key.user <= user
    {
      assert AtMost(entries[j].key, entries[from - 1].key) && AtMost(entries[from - 1].key, entries[cur].key);
    }
    forall i | from <= i < |entries| && VisibleAt(entries, snapshot, i) ensures user <= entries[i].key.user {
      assert AtMost(entries[cur].key, entries[i].key);
    }
  }

  /** What a backward scan from end knows once it has passed the entries from p on. */
  ghost predicate ScannedBack(entries: seq<Entry>, snapshot: nat, kind: Kind, cur: nat, p: nat, end: nat) {
    && p <= end <= |entries|
    && (kind == Deletion ==> NoneYield(entries, snapshot, p, end))
    && (kind == Live ==>
          && p <= cur < end && VisibleAt(entries, snapshot, cur) && entries[cur].key.kind == Live
          && NoneVisible(entries, snapshot, p, cur) && NoneYield(entries, snapshot, cur + 1, end))
  }

  lemma {:induction false} StartBack(entries: seq<Entry>, snapshot: nat, cur: nat, end: nat)
    requires end <= |entries|
    ensures ScannedBack(entries, snapshot, Deletion, cur, end, end)
  {
  }

  lemma {:induction false} PassBack(entries: seq<Entry>, snapshot: nat, kind: Kind, cur: nat, p: nat, end: nat)
    requires 0 < p && ScannedBack(entries, snapshot, kind, cur, p, end) && !VisibleAt(entries, snapshot, p - 1)
    ensures ScannedBack(entries, snapshot, kind, cur, p - 1, end)
  {
  }

  /** A visible entry takes over from the one remembered, which is an older version of its user key or none. */
  lemma {:induction false} TakeBack(entries: seq<Entry>, snapshot: nat, kind: Kind, cur: nat, p: nat, end: nat)
    requires Sorted(entries) && 0 < p && ScannedBack(entries, snapshot, kind, cur, p, end) && VisibleAt(entries, snapshot, p - 1)
    requires kind == Live ==> entries[cur].key.user <= entries[p - 1].key.user
    ensures ScannedBack(entries, snapshot, entries[p - 1].key.kind, p - 1, p - 1, end)
  {
    if kind == Live {
      assert Less(entries[p - 1].key, entries[cur].key);
      assert !Yields(entries, snapshot, cur);
    }
  }

  lemma {:induction false} NothingBack(entries: seq<Entry>, snapshot: nat, cur: nat, end: nat)
    requires ScannedBack(entries, snapshot, Deletion, cur, 0, end)
    ensures end <= |entries| && NoneYield(entries, snapshot, 0, end)
  {
  }

  lemma {:induction false} FoundBack(entries: seq<Entry>, snapshot: nat, cur: nat, p: nat, end: nat)
    requires Sorted(entries) && ScannedBack(entries, snapshot, Live, cur, p, end)
    requires p > 0 ==> entries[p - 1].key.user < entries[cur].key.user
    ensures p <= cur < end <= |entries| && Yields(entries, snapshot, cur)
    ensures NoneVisible(entries, snapshot, p, cur) && NoneYield(entries, snapshot, cur + 1, end)
  {
    forall j | 0 <= j < cur && entries[j].key.user == entries[cur].key.user ensures !VisibleAt(entries, snapshot, j) {
      if j < p {
        assert AtMost(entries[j].key, entries[p - 1].key);
      }
    }
  }

  class DBIter {
    const iter: Cursor
    const snapshot: nat
    var direction: Direction
    var valid: bool
    var savedKey: Option<UserKey>
    var savedValue: Bytes
    /** The entry that yields the current row. */
    ghost var cur: nat

    ghost predicate Before(n: nat)
      reads this, iter
    {
      && n <= |iter.entries|
      && (iter.Valid() ==> iter.pos < n && VisibleAt(iter.entries, snapshot, iter.pos))
      && NoneVisible(iter.entries, snapshot, if iter.Valid() then iter.pos + 1 else 0, n)
      && (iter.Valid() && n < |iter.entries| ==> iter.Key().user < iter.entries[n].key.user)
    }

    ghost predicate Ok()
      reads this, iter
    {
      && iter.Ok()
      && (valid ==>
            && cur < |iter.entries|
            && Yields(iter.entries, snapshot, cur)
            && (direction == Forward ==> iter.pos == cur)
            && (direction == Reverse ==>
                  && savedKey == Some(iter.entries[cur].key.user)
                  && savedValue == iter.entries[cur].value
                  && Before(cur)))
    }

    ghost function Table(): seq<Row> {
      AllRows(iter.entries, snapshot)
    }

    /** The place of the iterator in the table; the length of the table when it is not valid. */
    ghost function At(): (at: nat)
      requires Ok()
      reads this, iter
      ensures at <= |Table()|
    {
      RowsPrefix(iter.entries, snapshot, if valid then cur else 0, |iter.entries|);
      if valid then |Rows(iter.entries, snapshot, cur)| else |Table()|
    }

    constructor (iter: Cursor, snapshot: nat)
      requires iter.Ok()
      ensures Ok() && !valid && this.iter == iter && this.snapshot == snapshot
    {
      this.iter, this.snapshot := iter, snapshot;
      direction, valid, savedKey, savedValue := Forward, false, None, [];
      cur := 0;
    }

    function Key(): UserKey
      requires Ok() && valid
      reads this, iter
    {
      if direction == Forward then iter.Key().user else savedKey.value
    }

    function Value(): Bytes
      requires Ok() && valid
      reads this, iter
    {
      if direction == Forward then iter.Value() else savedValue
    }

    /** Key and value are those of the table's row. */
    lemma {:induction false} CurrentRow()
      requires Ok() && valid
      ensures At() < |Table()| && Table()[At()] == Row(Key(), Value())
    {
      RowAt(iter.entries, snapshot, cur);
    }

    /** Moves forward to the first wanted entry; savedKey is the skipped user key on entry and scratch space after. */
    method FindNextUserEntry(skipping0: bool)
      requires iter.Ok() && iter.Valid() && direction == Forward
      requires HidersSkipped(iter.entries, snapshot, iter.pos, skipping0, savedKey)
      requires SkipsNoLater(iter.entries, snapshot, iter.pos, skipping0, savedKey)
      modifies this, iter
      ensures Ok() && direction == Forward
      ensures valid ==> old(iter.pos) <= cur && Wanted(iter.entries, snapshot, skipping0, old(savedKey), cur)
      ensures forall i :: old(iter.pos) <= i < (if valid then cur else |iter.entries|) && Yields(iter.entries, snapshot, i) ==>
                            Hidden(skipping0, old(savedKey), iter.entries[i].key.user)
    {
      var skipping := skipping0;
      ghost var skip0, start := savedKey, iter.pos;
      while true
        invariant iter.Ok() && iter.Valid() && direction == Forward
        invariant Scanning(iter.entries, snapshot, skipping0, skip0, start, iter.pos, skipping, savedKey)
        decreases |iter.entries| - iter.pos
      {
        if iter.Key().sequence <= snapshot && iter.Key().kind == Deletion {
          SkipDeletion(iter.entries, snapshot, skipping0, skip0, start, iter.pos, skipping, savedKey);
          savedKey := Some(iter.Key().user);
          skipping := true;
        } else if iter.Key().sequence <= snapshot && !(skipping && iter.Key().user <= savedKey.value) {
          valid := true;
          savedKey := None;
          cur := iter.pos;
          return;
        } else {
          SkipEntry(iter.entries, snapshot, skipping0, skip0, start, iter.pos, skipping, savedKey);
        }
        iter.Next();
        if !iter.Valid() {
          break;
        }
      }
      savedKey := None;
      valid := false;
    }

    /** Moves backward over the entries up to iter.pos, to the last of them that yields. */
    method FindPrevUserEntry()
      requires iter.Ok() && direction == Reverse
      modifies this, iter
      ensures Ok()
      ensures valid ==> direction == Reverse && cur < old(if iter.Valid() then iter.pos + 1 else 0)
      ensures NoneYield(iter.entries, snapshot, if valid then cur + 1 else 0, old(if iter.Valid() then iter.pos + 1 else 0))
    {
      hide Less, Sorted, Yields, NoneYield, NoneVisible, ScannedBack;
      var kind := Deletion;
      ghost var end := if iter.Valid() then iter.pos + 1 else 0;
      if iter.Valid() {
        StartBack(iter.entries, snapshot, cur, end);
        while true
          invariant iter.Ok() && iter.Valid() && direction == Reverse
          invariant ScannedBack(iter.entries, snapshot, kind, cur, iter.pos + 1, end)
          invariant kind == Live ==>
                      cur < |iter.entries| && savedKey == Some(iter.entries[cur].key.user) && savedValue == iter.entries[cur].value
          decreases iter.pos
        {
          if iter.Key().sequence <= snapshot {
            if kind != Deletion && iter.Key().user < savedKey.value {
              break;
            }
            TakeBack(iter.entries, snapshot, kind, cur, iter.pos + 1, end);
            kind, cur := iter.Key().kind, iter.pos;
            if kind == Deletion {
              savedKey, savedValue := None, [];
            } else {
              savedKey, savedValue := Some(iter.Key().user), iter.Value();
            }
          } else {
            PassBack(iter.entries, snapshot, kind, cur, iter.pos + 1, end);
          }
          iter.Prev();
          if !iter.Valid() {
            break;
          }
        }
      } else {
        StartBack(iter.entries, snapshot, cur, 0);
      }
      if kind == Deletion {
        NothingBack(iter.entries, snapshot, cur, end);
        valid := false;
        savedKey, savedValue := None, [];
        direction := Forward;
      } else {
        FoundBack(iter.entries, snapshot, cur, if iter.Valid() then iter.pos + 1 else 0, end);
        valid := true;
      }
    }

    method SeekToFirst()
      requires Ok()
      modifies this, iter
      ensures Ok() && At() == 0
    {
      direction := Forward;
      savedValue := [];
      iter.SeekToFirst();
      if iter.Valid() {
        FindNextUserEntry(false);
        RowsUnchanged(iter.entries, snapshot, 0, if valid then cur else |iter.entries|);
      } else {
        valid := false;
      }
    }

    method SeekToLast()
      requires Ok()
      modifies this, iter
      ensures Ok() && At() == if |Table()| == 0 then 0 else |Table()| - 1
    {
      direction := Reverse;
      savedValue := [];
      iter.SeekToLast();
      FindPrevUserEntry();
      if valid {
        CurrentRow();
        RowAt(iter.entries, snapshot, cur);
      }
      RowsUnchanged(iter.entries, snapshot, if valid then cur + 1 else 0, |iter.entries|);
    }

    /** Moves to the first row at or after the target user key. */
    method Seek(target: UserKey)
      requires Ok()
      modifies this, iter
      ensures Ok()
      ensures forall k :: 0 <= k < At() ==> Table()[k].user < target
      ensures At() < |Table()| ==> target <= Table()[At()].user
    {
      direction := Forward;
      savedKey, savedValue := None, [];
      iter.Seek(SeekKey(target, snapshot));
      ghost var from := iter.pos;
      if iter.Valid() {
        FindNextUserEntry(false);
      } else {
        valid := false;
      }
      forall k | 0 <= k < At() ensures Table()[k].user < target {
        var i := RowSource(iter.entries, snapshot, if valid then cur else |iter.entries|, k);
        if valid {
          RowsPrefix(iter.entries, snapshot, cur, |iter.entries|);
        }
        assert i < from;
      }
      if valid {
        CurrentRow();
      }
    }

    method Next()
      requires Ok() && valid
      modifies this, iter
      ensures Ok() && At() == old(At()) + 1
    {
      ghost var was := cur;
      if direction == Reverse {
        direction := Forward;
        if !iter.Valid() {
          iter.SeekToFirst();
        } else {
          iter.Next();
        }
      } else {
        savedKey := Some(iter.Key().user);
      }
      SkipFrom(iter.entries, snapshot, was, iter.pos);
      FindNextUserEntry(true);
      RowAt(iter.entries, snapshot, was);
      RowsUnchanged(iter.entries, snapshot, was + 1, if valid then cur else |iter.entries|);
    }

    method Prev()
      requires Ok() && valid
      modifies this, iter
      ensures Ok() && (valid <==> old(At()) > 0)
      ensures valid ==> At() == old(At()) - 1
    {
      ghost var was := cur;
      if direction == Forward {
        savedKey := Some(iter.Key().user);
        while true
          invariant iter.Ok() && iter.Valid() && iter.pos <= was && savedKey == Some(iter.entries[was].key.user)
          invariant forall i :: iter.pos <= i < was ==> iter.entries[i].key.user == iter.entries[was].key.user
          decreases iter.pos
        {
          iter.Prev();
          if !iter.Valid() {
            valid := false;
            savedKey, savedValue := None, [];
            RowsUnchanged(iter.entries, snapshot, 0, was);
            return;
          }
          if iter.Key().user < savedKey.value {
            break;
          }
          assert AtMost(iter.Key(), iter.entries[was].key);
        }
        direction := Reverse;
      }
      FindPrevUserEntry();
      if valid {
        RowAt(iter.entries, snapshot, cur);
      }
      RowsUnchanged(iter.entries, snapshot, if valid then cur + 1 else 0, was);
    }
  }
}
