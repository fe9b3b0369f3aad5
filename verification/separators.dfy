/**
 Internal keys over byte strings, and the shortened keys that index blocks use
 (util/comparator.cc, db/dbformat.cc).
 */
module Separators {
  import opened Keys

  // ---------------------------------------------------------------------------------------------
  // Internal keys over byte strings
  // ---------------------------------------------------------------------------------------------

  datatype RawKey = RawKey(user: Bytes, sequence: nat, kind: Kind)

  /** InternalKeyComparator::Compare under the bytewise comparator, as a strict order. */
  predicate RawLess(a: RawKey, b: RawKey) {
    var r := CompareBytes(a.user, b.user);
    r < 0 || (r == 0 && PackSequenceAndType(a.sequence, a.kind) > PackSequenceAndType(b.sequence, b.kind))
  }

  /** The internal key that a raw key stands for in the engine modules. */
  function Lift(k: RawKey): InternalKey {
    InternalKey(Embed(k.user), k.sequence, k.kind)
  }

  lemma {:induction false} LiftPreservesOrder(a: RawKey, b: RawKey)
    ensures RawLess(a, b) <==> Less(Lift(a), Lift(b))
    ensures a == b <==> Lift(a) == Lift(b)
  {
    EmbeddingPreservesOrder(a.user, b.user);
  }

  // ---------------------------------------------------------------------------------------------
  // The bytewise comparator
  // ---------------------------------------------------------------------------------------------

  /** The first difference decides. */
  lemma {:induction false} FirstDifferenceDecides(a: Bytes, b: Bytes, d: nat)
    requires d < |a| && d < |b| && a[..d] == b[..d] && a[d] != b[d]
    ensures CompareBytes(a, b) < 0 <==> a[d] < b[d]
    decreases d
  {
    if d > 0 {
      assert a[..d][0] == b[..d][0];
      assert a[1..][..d - 1] == a[..d][1..] && b[1..][..d - 1] == b[..d][1..];
      FirstDifferenceDecides(a[1..], b[1..], d - 1);
    }
  }

  /** r is start, or start cut short with its last byte raised. */
  predicate Raised(start: Bytes, r: Bytes, d: nat) {
    d < |start| && |r| == d + 1 && r[..d] == start[..d] && (r[d] as nat) == (start[d] as nat) + 1
  }

  lemma {:induction false} RaisedIsLater(start: Bytes, r: Bytes, d: nat)
    requires Raised(start, r, d)
    ensures CompareBytes(start, r) < 0
  {
    FirstDifferenceDecides(start, r, d);
  }

  lemma {:induction false} RaisedIsBefore(start: Bytes, r: Bytes, d: nat, limit: Bytes)
    requires Raised(start, r, d) && d < |limit| && start[..d] == limit[..d] && (start[d] as nat) + 1 < (limit[d] as nat)
    ensures CompareBytes(r, limit) < 0
  {
    FirstDifferenceDecides(r, limit, d);
  }

  /** Byte d is the first difference, and raising it by one stays below limit. */
  predicate CanRaise(start: Bytes, limit: Bytes, d: nat) {
    d < |start| && d < |limit| && start[..d] == limit[..d] && (start[d] as nat) + 1 < limit[d] as nat
  }

  lemma {:induction false} SamePrefix(a: Bytes, b: Bytes, n: nat)
    requires n <= |a| && n <= |b| && a[..n] == b[..n]
    ensures forall i :: 0 <= i < n ==> a[i] == b[i]
  {
    forall i | 0 <= i < n ensures a[i] == b[i] {
      assert a[..n][i] == b[..n][i];
    }
  }

  lemma {:induction false} OnlyFirstDifference(start: Bytes, limit: Bytes, d: nat, first: nat)
    requires CanRaise(start, limit, d) && first <= |start| && first <= |limit| && start[..first] == limit[..first]
    requires first < |start| && first < |limit| ==> start[first] != limit[first]
    ensures d == first
  {
    SamePrefix(start, limit, d);
    SamePrefix(start, limit, first);
  }

  /** The key is shortened wherever it can be. */
  method FindShortestSeparator(start0: Bytes, limit: Bytes) returns (start: Bytes)
    ensures |start| <= |start0|
    ensures forall d: nat :: CanRaise(start0, limit, d) ==> Raised(start0, start, d)
    ensures (forall d: nat :: !CanRaise(start0, limit, d)) ==> start == start0
    ensures start == start0 || (CompareBytes(start0, start) < 0 && CompareBytes(start, limit) < 0)
  {
    start := start0;
    var minLength := if |start| < |limit| then |start| else |limit|;
    var diffIndex := 0;
    while diffIndex < minLength && start[diffIndex] == limit[diffIndex]
      invariant diffIndex <= minLength && start[..diffIndex] == limit[..diffIndex]
    {
      diffIndex := diffIndex + 1;
    }
    forall d: nat | CanRaise(start0, limit, d) ensures d == diffIndex < minLength {
      OnlyFirstDifference(start0, limit, d, diffIndex);
    }
    if diffIndex < minLength {
      var diffByte := start[diffIndex];
      if diffByte < 0xff && diffByte + 1 < limit[diffIndex] {
        assert CanRaise(start0, limit, diffIndex);
        start := start[diffIndex := diffByte + 1][..diffIndex + 1];
        assert start[..diffIndex] == start0[..diffIndex];
        RaisedIsLater(start0, start, diffIndex);
        RaisedIsBefore(start0, start, diffIndex, limit);
      }
    }
  }

  /** The first byte that can be raised at all. */
  predicate FirstBelowMax(key: Bytes, d: nat) {
    d < |key| && key[d] != 0xff && forall i :: 0 <= i < d ==> key[i] == 0xff
  }

  method FindShortSuccessor(key0: Bytes) returns (key: Bytes)
    ensures |key| <= |key0|
    ensures key == key0 || CompareBytes(key0, key) < 0
    ensures key == key0 <==> forall i :: 0 <= i < |key0| ==> key0[i] == 0xff
    ensures forall d: nat :: FirstBelowMax(key0, d) ==> Raised(key0, key, d)
    ensures key != key0 ==> exists d: nat :: FirstBelowMax(key0, d)
  {
    key := key0;
    var i := 0;
    while i < |key|
      invariant i <= |key0| && key == key0
      invariant forall j :: 0 <= j < i ==> key0[j] == 0xff
    {
      var byte := key[i];
      if byte != 0xff {
        assert FirstBelowMax(key0, i);
        key := key[i := byte + 1][..i + 1];
        assert key[..i] == key0[..i];
        RaisedIsLater(key0, key, i);
        return;
      }
      i := i + 1;
    }
  }

  // ---------------------------------------------------------------------------------------------
  // Internal keys
  // ---------------------------------------------------------------------------------------------

  /**
   A separator of start and limit: start itself, or a key whose user key lies strictly between those of start
   and limit. In the second case no user key has entries on both sides of it.
   */
  predicate Separates(start: RawKey, sep: RawKey, limit: RawKey) {
    sep == start || (CompareBytes(start.user, sep.user) < 0 && CompareBytes(sep.user, limit.user) < 0)
  }

  /** A shorter user key with its last byte raised, in front of all its entries. */
  predicate Shortened(key: RawKey, sep: RawKey, d: nat) {
    Raised(key.user, sep.user, d) && d + 1 < |key.user| && sep.sequence == MAX_SEQUENCE && sep.kind == Live
  }

  /** The key is shortened wherever that separates it from limit and makes it shorter, and otherwise taken as it is. */
  ghost predicate ShortestSeparator(key: RawKey, limit: RawKey, sep: RawKey) {
    if exists d: nat :: CanRaise(key.user, limit.user, d) && d + 1 < |key.user|
    then exists d: nat :: CanRaise(key.user, limit.user, d) && Shortened(key, sep, d)
    else sep == key
  }

  ghost predicate ShortSuccessor(key: RawKey, sep: RawKey) {
    if exists d: nat :: FirstBelowMax(key.user, d) && d + 1 < |key.user|
    then exists d: nat :: FirstBelowMax(key.user, d) && Shortened(key, sep, d)
    else sep == key
  }

  method FindInternalSeparator(start: RawKey, limit: RawKey) returns (sep: RawKey)
    ensures Separates(start, sep, limit)
    ensures ShortestSeparator(start, limit, sep)
  {
    var tmp := FindShortestSeparator(start.user, limit.user);
    if |tmp| < |start.user| && CompareBytes(start.user, tmp) < 0 {
      return RawKey(tmp, MAX_SEQUENCE, Live);
    }
    return start;
  }

  method FindInternalSuccessor(key: RawKey) returns (sep: RawKey)
    ensures sep == key || CompareBytes(key.user, sep.user) < 0
    ensures ShortSuccessor(key, sep)
  {
    var tmp := FindShortSuccessor(key.user);
    if |tmp| < |key.user| && CompareBytes(key.user, tmp) < 0 {
      return RawKey(tmp, MAX_SEQUENCE, Live);
    }
    return key;
  }

  /** A separator is at or after start, and before limit when start is. */
  lemma {:induction false} SeparatorOrder(start: RawKey, sep: RawKey, limit: RawKey)
    requires Separates(start, sep, limit) && RawLess(start, limit)
    ensures sep == start || RawLess(start, sep)
    ensures RawLess(sep, limit)
  {
  }
}
