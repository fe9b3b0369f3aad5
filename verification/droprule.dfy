/**
 Which entries a compaction drops, and exactly when dropping them keeps every live read.
 */
module DropRule {
  import opened Keys

  /** last_sequence_for_key when entry i is handled: the sequence just before it under the same user key. */
  function LastSequence(input: seq<Entry>, i: nat): nat
    requires i < |input|
  {
    if i > 0 && input[i - 1].key.user == input[i].key.user then input[i - 1].key.sequence else MAX_SEQUENCE
  }

  /** Rule (A): hidden by a newer entry; rule (B): an obsolete deletion marker. */
  predicate Dropped(input: seq<Entry>, smallestSnapshot: nat, base: UserKey -> bool, i: nat)
    requires i < |input|
  {
    || LastSequence(input, i) <= smallestSnapshot
    || (input[i].key.kind == Deletion && input[i].key.sequence <= smallestSnapshot && base(input[i].key.user))
  }

  /** The kept ones among the first n entries. */
  function Kept(input: seq<Entry>, smallestSnapshot: nat, base: UserKey -> bool, n: nat): seq<Entry>
    requires n <= |input|
  {
    if n == 0 then []
    else
      Kept(input, smallestSnapshot, base, n - 1)
      + if Dropped(input, smallestSnapshot, base, n - 1) then [] else [input[n - 1]]
  }

  lemma {:induction false} KeptMembers(input: seq<Entry>, smallestSnapshot: nat, base: UserKey -> bool, n: nat)
    requires n <= |input|
    ensures forall e :: e in Kept(input, smallestSnapshot, base, n) <==>
                        exists i :: 0 <= i < n && input[i] == e && !Dropped(input, smallestSnapshot, base, i)
  {
    if n > 0 {
      KeptMembers(input, smallestSnapshot, base, n - 1);
    }
  }

  /** Kept entries keep their order. */
  lemma {:induction false} KeptSorted(input: seq<Entry>, smallestSnapshot: nat, base: UserKey -> bool, n: nat)
    requires n <= |input| && Sorted(input)
    ensures Sorted(Kept(input, smallestSnapshot, base, n))
  {
    if n > 0 {
      KeptSorted(input, smallestSnapshot, base, n - 1);
      KeptMembers(input, smallestSnapshot, base, n - 1);
      var init := Kept(input, smallestSnapshot, base, n - 1);
      forall k | 0 <= k < |init|
        ensures Less(init[k].key, input[n - 1].key)
      {
        assert init[k] in init;
      }
    }
  }

  // ---------------------------------------------------------------------------------------------
  // The entries of one user key
  // ---------------------------------------------------------------------------------------------

  ghost predicate ValidInput(input: seq<Entry>) {
    && Sorted(input) && UniquelyKeyed(ToSet(input))
    && forall e :: e in input ==> e.key.sequence <= MAX_SEQUENCE
  }

  /** Between an entry and a newer entry of its user key there is a predecessor at least as old as the latter. */
  lemma {:induction false} PredecessorOf(input: seq<Entry>, i: nat, j: nat)
    requires Sorted(input) && i < j < |input| && input[i].key.user == input[j].key.user
    ensures LastSequence(input, j) <= input[i].key.sequence
  {
    if i < j - 1 {
      assert Less(input[i].key, input[j - 1].key) && Less(input[j - 1].key, input[j].key);
    }
  }

  /** Entries newer than the smallest snapshot are kept. */
  lemma {:induction false} NewKept(input: seq<Entry>, smallestSnapshot: nat, base: UserKey -> bool, i: nat)
    requires ValidInput(input) && smallestSnapshot < MAX_SEQUENCE && i < |input|
    requires input[i].key.sequence > smallestSnapshot
    ensures !Dropped(input, smallestSnapshot, base, i)
  {
    if i > 0 {
      PackedOrder(input[i - 1].key, input[i].key);
    }
  }

  /** The entry the smallest snapshot sees is dropped only by rule (B); all older ones go by rule (A). */
  lemma {:induction false} NewestRule(input: seq<Entry>, smallestSnapshot: nat, base: UserKey -> bool, i: nat)
    requires ValidInput(input) && smallestSnapshot < MAX_SEQUENCE && i < |input|
    requires Newest(ToSet(input), input[i].key.user, smallestSnapshot, input[i])
    ensures Dropped(input, smallestSnapshot, base, i) <==> input[i].key.kind == Deletion && base(input[i].key.user)
    ensures forall j | 0 <= j < |input| && input[j].key.user == input[i].key.user &&
                       input[j].key.sequence < input[i].key.sequence :: Dropped(input, smallestSnapshot, base, j)
  {
    var user := input[i].key.user;
    assert Visible(ToSet(input), user, smallestSnapshot, input[i]);
    if i > 0 && input[i - 1].key.user == user {
      PackedOrder(input[i - 1].key, input[i].key);
      assert input[i - 1] in ToSet(input) && input[i] in ToSet(input) && input[i - 1] != input[i];
      assert !Visible(ToSet(input), user, smallestSnapshot, input[i - 1]);
    }
    forall j | 0 <= j < |input| && input[j].key.user == user && input[j].key.sequence < input[i].key.sequence
      ensures Dropped(input, smallestSnapshot, base, j)
    {
      PackedOrder(input[i].key, input[j].key);
      assert i < j;
      PredecessorOf(input, i, j);
    }
  }

  // ---------------------------------------------------------------------------------------------
  // Reads
  // ---------------------------------------------------------------------------------------------

  /**
   A tombstone is what the smallest snapshot sees of user, rule (B) drops it, and outside of the
   inputs a live entry of user is waiting below it.
   */
  ghost predicate Uncovers(input: seq<Entry>, rest: set<Entry>, smallestSnapshot: nat, base: UserKey -> bool, user: UserKey) {
    && base(user)
    && (exists t :: t in input && t.key.kind == Deletion && Newest(ToSet(input) + rest, user, smallestSnapshot, t))
    && View(rest, user, smallestSnapshot) != NotFound
  }

  ghost predicate SameRead(input: seq<Entry>, output: seq<Entry>, rest: set<Entry>, user: UserKey, snapshot: nat) {
    View(ToSet(input) + rest, user, snapshot) == View(ToSet(output) + rest, user, snapshot)
  }

  lemma {:induction false} SubsetUniquelyKeyed(E: set<Entry>, F: set<Entry>)
    requires UniquelyKeyed(F) && E <= F
    ensures UniquelyKeyed(E)
  {
  }

  /** Dropping keeps the read of user at every snapshot from the smallest one on, unless it uncovers. */
  lemma {:induction false} ReadKept(input: seq<Entry>, rest: set<Entry>, smallestSnapshot: nat, base: UserKey -> bool, user: UserKey, snapshot: nat)
    requires ValidInput(input) && UniquelyKeyed(ToSet(input) + rest)
    requires smallestSnapshot < MAX_SEQUENCE && smallestSnapshot <= snapshot
    requires !Uncovers(input, rest, smallestSnapshot, base, user)
    ensures SameRead(input, Kept(input, smallestSnapshot, base, |input|), rest, user, snapshot)
  {
    var output := Kept(input, smallestSnapshot, base, |input|);
    KeptMembers(input, smallestSnapshot, base, |input|);
    var before, after := ToSet(input) + rest, ToSet(output) + rest;
    assert after <= before;
    SubsetUniquelyKeyed(after, before);
    if e :| Visible(before, user, snapshot, e) {
      NewestExists(before, user, snapshot, e);
      var n :| Newest(before, user, snapshot, n);
      assert Visible(before, user, snapshot, n);
      ViewIs(before, user, snapshot, n);
      if n in after {
        forall d | Visible(after, user, snapshot, d) ensures d.key.sequence <= n.key.sequence {
          assert Visible(before, user, snapshot, d);
        }
        assert Visible(after, user, snapshot, n);
        assert Newest(after, user, snapshot, n);
        ViewIs(after, user, snapshot, n);
      } else {
        DroppedNewest(input, rest, smallestSnapshot, base, user, snapshot, n);
      }
    } else {
      ViewIsNothing(before, user, snapshot);
      forall d ensures !Visible(after, user, snapshot, d) {
        assert !Visible(before, user, snapshot, d);
      }
      ViewIsNothing(after, user, snapshot);
    }
  }

  /** If the newest entry of a read is dropped it is a tombstone, and only the rest remains to be read. */
  lemma {:induction false} DroppedNewest(input: seq<Entry>, rest: set<Entry>, smallestSnapshot: nat, base: UserKey -> bool,
                      user: UserKey, snapshot: nat, n: Entry)
    requires ValidInput(input) && UniquelyKeyed(ToSet(input) + rest)
    requires smallestSnapshot < MAX_SEQUENCE && smallestSnapshot <= snapshot
    requires Newest(ToSet(input) + rest, user, snapshot, n)
    requires n !in ToSet(Kept(input, smallestSnapshot, base, |input|)) + rest
    ensures n in input && n.key.kind == Deletion && base(user)
    ensures Newest(ToSet(input) + rest, user, smallestSnapshot, n)
    ensures View(ToSet(Kept(input, smallestSnapshot, base, |input|)) + rest, user, snapshot) == View(rest, user, smallestSnapshot)
  {
    var output := Kept(input, smallestSnapshot, base, |input|);
    var before, after := ToSet(input) + rest, ToSet(output) + rest;
    KeptMembers(input, smallestSnapshot, base, |input|);
    assert Visible(before, user, snapshot, n);
    var i :| 0 <= i < |input| && input[i] == n;
    if n.key.sequence > smallestSnapshot {
      NewKept(input, smallestSnapshot, base, i);
    }
    forall d | Visible(before, user, smallestSnapshot, d) ensures d.key.sequence <= n.key.sequence {
      assert Visible(before, user, snapshot, d);
    }
    assert Visible(before, user, smallestSnapshot, n);
    assert Newest(before, user, smallestSnapshot, n);
    forall d | Visible(ToSet(input), user, smallestSnapshot, d) ensures d.key.sequence <= n.key.sequence {
      assert Visible(before, user, smallestSnapshot, d);
    }
    assert Visible(ToSet(input), user, smallestSnapshot, n);
    NewestRule(input, smallestSnapshot, base, i);
    forall d ensures Visible(after, user, snapshot, d) <==> Visible(rest, user, smallestSnapshot, d) {
      if Visible(after, user, snapshot, d) {
        assert Visible(before, user, snapshot, d);
      }
    }
    SameVisibleSameView(after, snapshot, rest, smallestSnapshot, before, user);
  }

  lemma {:induction false} SameVisibleSameView(E: set<Entry>, s: nat, F: set<Entry>, t: nat, all: set<Entry>, user: UserKey)
    requires E <= all && F <= all && UniquelyKeyed(all)
    requires forall d :: Visible(E, user, s, d) <==> Visible(F, user, t, d)
    ensures View(E, user, s) == View(F, user, t)
  {
    SubsetUniquelyKeyed(E, all);
    SubsetUniquelyKeyed(F, all);
    if e :| Visible(E, user, s, e) {
      NewestExists(E, user, s, e);
      var n :| Newest(E, user, s, n);
      assert Visible(E, user, s, n) && Visible(F, user, t, n);
      assert Newest(F, user, t, n);
      ViewIs(E, user, s, n);
      ViewIs(F, user, t, n);
    } else {
      ViewIsNothing(E, user, s);
      ViewIsNothing(F, user, t);
    }
  }

  /** What uncovers: a tombstone of the inputs over an older entry of the rest. */
  lemma {:induction false} UncoveredEntry(input: seq<Entry>, rest: set<Entry>, smallestSnapshot: nat, base: UserKey -> bool, user: UserKey)
    returns (t: Entry, e: Entry)
    requires UniquelyKeyed(ToSet(input) + rest) && Uncovers(input, rest, smallestSnapshot, base, user)
    ensures t in input && e in rest && t.key.user == user == e.key.user && e.key.sequence < t.key.sequence
  {
    var all := ToSet(input) + rest;
    t :| t in input && t.key.kind == Deletion && Newest(all, user, smallestSnapshot, t);
    e :| Newest(rest, user, smallestSnapshot, e) && ReadOf(e) != NotFound;
    assert Visible(rest, user, smallestSnapshot, e);
    assert Visible(all, user, smallestSnapshot, e) && Visible(all, user, smallestSnapshot, t);
    assert t != e;
  }

  /** An uncovering compaction changes the read at the smallest snapshot itself. */
  lemma {:induction false} ReadLost(input: seq<Entry>, rest: set<Entry>, smallestSnapshot: nat, base: UserKey -> bool, user: UserKey)
    requires ValidInput(input) && UniquelyKeyed(ToSet(input) + rest) && smallestSnapshot < MAX_SEQUENCE
    requires Uncovers(input, rest, smallestSnapshot, base, user)
    ensures View(ToSet(input) + rest, user, smallestSnapshot) == NotFound
    ensures View(ToSet(Kept(input, smallestSnapshot, base, |input|)) + rest, user, smallestSnapshot)
         == View(rest, user, smallestSnapshot) != NotFound
  {
    var before := ToSet(input) + rest;
    var t :| t in input && t.key.kind == Deletion && Newest(before, user, smallestSnapshot, t);
    ViewIs(before, user, smallestSnapshot, t);
    var r :| Newest(rest, user, smallestSnapshot, r) && ReadOf(r) != NotFound;
    assert Visible(rest, user, smallestSnapshot, r) && Visible(before, user, smallestSnapshot, t);
    assert t !in rest;
    KeptMembers(input, smallestSnapshot, base, |input|);
    var i :| 0 <= i < |input| && input[i] == t;
    forall d | Visible(ToSet(input), user, smallestSnapshot, d) ensures d.key.sequence <= t.key.sequence {
      assert Visible(before, user, smallestSnapshot, d);
    }
    assert Visible(ToSet(input), user, smallestSnapshot, t);
    NewestRule(input, smallestSnapshot, base, i);
    DroppedNewest(input, rest, smallestSnapshot, base, user, smallestSnapshot, t);
  }

  /** Reads see the same in output as in input, at every snapshot from the smallest one on. */
  ghost predicate SameReads(input: seq<Entry>, output: seq<Entry>, rest: set<Entry>, smallestSnapshot: nat) {
    forall user, snapshot: nat :: smallestSnapshot <= snapshot ==> SameRead(input, output, rest, user, snapshot)
  }

  ghost predicate KeepsAllReads(input: seq<Entry>, rest: set<Entry>, smallestSnapshot: nat, base: UserKey -> bool) {
    SameReads(input, Kept(input, smallestSnapshot, base, |input|), rest, smallestSnapshot)
  }

  /** Exactly when a compaction keeps every read from the smallest snapshot on. */
  lemma {:induction false} CompactionKeepsReadsIff(input: seq<Entry>, rest: set<Entry>, smallestSnapshot: nat, base: UserKey -> bool)
    requires ValidInput(input) && UniquelyKeyed(ToSet(input) + rest) && smallestSnapshot < MAX_SEQUENCE
    ensures KeepsAllReads(input, rest, smallestSnapshot, base)
       <==> (forall user :: !Uncovers(input, rest, smallestSnapshot, base, user))
  {
    hide ValidInput, UniquelyKeyed, Uncovers;
    var output := Kept(input, smallestSnapshot, base, |input|);
    if user :| Uncovers(input, rest, smallestSnapshot, base, user) {
      ReadLost(input, rest, smallestSnapshot, base, user);
      assert !SameRead(input, output, rest, user, smallestSnapshot);
      assert !SameReads(input, output, rest, smallestSnapshot);
    } else {
      forall user, snapshot: nat | smallestSnapshot <= snapshot ensures SameRead(input, output, rest, user, snapshot) {
        ReadKept(input, rest, smallestSnapshot, base, user, snapshot);
      }
      assert SameReads(input, output, rest, smallestSnapshot);
    }
  }

  /** The same, when only some user keys can be uncovered at all. */
  lemma {:induction false} KeepsReadsAmong(input: seq<Entry>, rest: set<Entry>, smallestSnapshot: nat, base: UserKey -> bool, suspects: iset<UserKey>)
    requires ValidInput(input) && UniquelyKeyed(ToSet(input) + rest) && smallestSnapshot < MAX_SEQUENCE
    requires forall user :: Uncovers(input, rest, smallestSnapshot, base, user) ==> user in suspects
    ensures KeepsAllReads(input, rest, smallestSnapshot, base) <==>
            !exists user :: user in suspects && Uncovers(input, rest, smallestSnapshot, base, user)
  {
    hide KeepsAllReads;
    CompactionKeepsReadsIff(input, rest, smallestSnapshot, base);
  }
}
