/**
 Keys and views shared by the engine modules (db/dbformat.h, db/dbformat.cc, util/comparator.cc).

 The engine only ever compares user keys through one comparator, so user keys are modelled as
 reals: any total order on countably many keys embeds in the reals, and EmbeddingPreservesOrder
 gives such an embedding for the default bytewise comparator.
 */
module Keys {
  type Byte = x: nat | x < 256
  type Bytes = seq<Byte>

  // ---------------------------------------------------------------------------------------------
  // The bytewise comparator
  // ---------------------------------------------------------------------------------------------

  /** memcmp on the common length, then the shorter string first. */
  function CompareBytes(a: Bytes, b: Bytes): int {
    if a == [] || b == [] then |a| - |b|
    else if a[0] < b[0] then -1
    else if a[0] > b[0] then 1
    else CompareBytes(a[1..], b[1..])
  }

  /** Reads a byte string as the digits of a base-257 fraction, digit 0 marking the end. */
  function Embed(a: Bytes): (r: real)
    ensures 0.0 <= r < 1.0
    ensures a != [] ==> 0.0 < r
  {
    if a == [] then 0.0 else (a[0] as real + 1.0 + Embed(a[1..])) / 257.0
  }

  lemma {:induction false} EmbeddingPreservesOrder(a: Bytes, b: Bytes)
    ensures CompareBytes(a, b) < 0 <==> Embed(a) < Embed(b)
    ensures CompareBytes(a, b) == 0 <==> Embed(a) == Embed(b)
    ensures CompareBytes(a, b) == 0 <==> a == b
  {
    if a == [] || b == [] {
    } else {
      EmbeddingPreservesOrder(a[1..], b[1..]);
      assert a == [a[0]] + a[1..] && b == [b[0]] + b[1..];
      if a[0] == b[0] {
        assert a == b <==> a[1..] == b[1..];
      }
    }
  }

  // ---------------------------------------------------------------------------------------------
  // Internal keys
  // ---------------------------------------------------------------------------------------------

  type UserKey = real
  datatype Kind = Deletion | Live

  const MAX_SEQUENCE: nat := 0xFF_FFFF_FFFF_FFFF

  datatype InternalKey = InternalKey(user: UserKey, sequence: nat, kind: Kind)
  datatype Entry = Entry(key: InternalKey, value: Bytes)

  function KindByte(k: Kind): nat {
    if k == Deletion then 0 else 1
  }

  /** The fixed64 trailer of an encoded internal key. */
  function PackSequenceAndType(sequence: nat, kind: Kind): nat {
    sequence * 256 + KindByte(kind)
  }

  /** Increasing user key, then decreasing packed sequence and type. */
  predicate Less(a: InternalKey, b: InternalKey) {
    a.user < b.user ||
    (a.user == b.user && PackSequenceAndType(a.sequence, a.kind) > PackSequenceAndType(b.sequence, b.kind))
  }

  predicate AtMost(a: InternalKey, b: InternalKey) {
    a == b || Less(a, b)
  }

  lemma {:induction false} PackedOrder(a: InternalKey, b: InternalKey)
    ensures a.user == b.user && a.sequence > b.sequence ==> Less(a, b)
    ensures a.user == b.user && Less(a, b) ==> a.sequence >= b.sequence
    ensures Less(a, b) || a == b || Less(b, a)
    ensures !(Less(a, b) && Less(b, a)) && !Less(a, a)
  {
  }

  /** The earliest internal key of a user key at a snapshot: kValueTypeForSeek is the largest type. */
  function SeekKey(user: UserKey, snapshot: nat): InternalKey {
    InternalKey(user, snapshot, Live)
  }

  predicate Sorted(s: seq<Entry>) {
    forall i, j :: 0 <= i < j < |s| ==> Less(s[i].key, s[j].key)
  }

  // ---------------------------------------------------------------------------------------------
  // The view of a snapshot: per user key, the newest entry with sequence <= snapshot
  // ---------------------------------------------------------------------------------------------

  function ToSet(s: seq<Entry>): set<Entry> {
    set e | e in s
  }

  /** Every operation got its own sequence number, so no two entries of a key share one. */
  ghost predicate UniquelyKeyed(E: set<Entry>) {
    forall e, f :: e in E && f in E && e.key.user == f.key.user && e.key.sequence == f.key.sequence ==> e == f
  }

  ghost predicate Visible(E: set<Entry>, user: UserKey, snapshot: nat, e: Entry) {
    e in E && e.key.user == user && e.key.sequence <= snapshot
  }

  ghost predicate Newest(E: set<Entry>, user: UserKey, snapshot: nat, e: Entry) {
    Visible(E, user, snapshot, e) && forall f :: Visible(E, user, snapshot, f) ==> f.key.sequence <= e.key.sequence
  }

  datatype Read = Found(value: Bytes) | NotFound

  function ReadOf(e: Entry): Read {
    if e.key.kind == Live then Found(e.value) else NotFound
  }

  /** What a read of user at snapshot must answer over a flat set of entries. */
  ghost function View(E: set<Entry>, user: UserKey, snapshot: nat): Read {
    if exists e :: Newest(E, user, snapshot, e) then
      var e :| Newest(E, user, snapshot, e);
      ReadOf(e)
    else NotFound
  }

  lemma {:induction false} NewestExists(E: set<Entry>, user: UserKey, snapshot: nat, e: Entry)
    requires Visible(E, user, snapshot, e)
    ensures exists n :: Newest(E, user, snapshot, n)
    decreases |E|
  {
    if !Newest(E, user, snapshot, e) {
      var f :| Visible(E, user, snapshot, f) && f.key.sequence > e.key.sequence;
      NewestExists(E - {e}, user, snapshot, f);
      var n :| Newest(E - {e}, user, snapshot, n);
      assert Visible(E - {e}, user, snapshot, f);
      forall g | Visible(E, user, snapshot, g)
        ensures g.key.sequence <= n.key.sequence
      {
        if g != e {
          assert Visible(E - {e}, user, snapshot, g);
        }
      }
      assert Newest(E, user, snapshot, n);
    }
  }

  lemma {:induction false} ViewIs(E: set<Entry>, user: UserKey, snapshot: nat, e: Entry)
    requires UniquelyKeyed(E)
    requires Newest(E, user, snapshot, e)
    ensures View(E, user, snapshot) == ReadOf(e)
  {
    var n :| Newest(E, user, snapshot, n) && View(E, user, snapshot) == ReadOf(n);
    assert Newest(E, user, snapshot, n);
    assert Visible(E, user, snapshot, n);
    assert Visible(E, user, snapshot, e);
  }

  lemma {:induction false} ViewIsNothing(E: set<Entry>, user: UserKey, snapshot: nat)
    requires forall e :: !Visible(E, user, snapshot, e)
    ensures View(E, user, snapshot) == NotFound
  {
  }
}
