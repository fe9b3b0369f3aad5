/**
 MergingIterator (table/merger.cc): one cursor over several sorted children, kept by moving the children.
 */
module Merger {
  import opened Keys
  import opened Cursors

  // ---------------------------------------------------------------------------------------------
  // The sorted union
  // ---------------------------------------------------------------------------------------------

  /** Entries with distinct keys. */
  ghost predicate DistinctKeys(a: seq<Entry>, b: seq<Entry>) {
    forall e, f :: e in a && f in b ==> e.key != f.key
  }

  function Merge(a: seq<Entry>, b: seq<Entry>): seq<Entry> {
    if a == [] then b
    else if b == [] then a
    else if Less(a[0].key, b[0].key) then [a[0]] + Merge(a[1..], b)
    else [b[0]] + Merge(a, b[1..])
  }

  lemma {:induction false} MergeMembers(a: seq<Entry>, b: seq<Entry>)
    ensures forall e :: e in Merge(a, b) <==> e in a || e in b
  {
    if a == [] || b == [] {
    } else if Less(a[0].key, b[0].key) {
      MergeMembers(a[1..], b);
      assert a == [a[0]] + a[1..];
    } else {
      MergeMembers(a, b[1..]);
      assert b == [b[0]] + b[1..];
    }
  }

  lemma {:induction false} SortedCons(e: Entry, s: seq<Entry>)
    requires Sorted(s) && forall f :: f in s ==> Less(e.key, f.key)
    ensures Sorted([e] + s)
  {
  }

  lemma {:induction false} MergeSorted(a: seq<Entry>, b: seq<Entry>)
    requires Sorted(a) && Sorted(b) && DistinctKeys(a, b)
    ensures Sorted(Merge(a, b))
  {
    if a == [] || b == [] {
    } else if Less(a[0].key, b[0].key) {
      MergeSorted(a[1..], b);
      MergeMembers(a[1..], b);
      forall f | f in Merge(a[1..], b) ensures Less(a[0].key, f.key) {
        if f in b {
          var k :| 0 <= k < |b| && b[k] == f;
          assert k == 0 || Less(b[0].key, b[k].key);
        }
      }
      SortedCons(a[0], Merge(a[1..], b));
    } else {
      MergeSorted(a, b[1..]);
      MergeMembers(a, b[1..]);
      PackedOrder(a[0].key, b[0].key);
      assert a[0] in a && b[0] in b;
      forall f | f in Merge(a, b[1..]) ensures Less(b[0].key, f.key) {
        if f in a {
          var k :| 0 <= k < |a| && a[k] == f;
          assert k == 0 || Less(a[0].key, a[k].key);
        }
      }
      SortedCons(b[0], Merge(a, b[1..]));
    }
  }

  function MergeAll(runs: seq<seq<Entry>>): seq<Entry> {
    if runs == [] then [] else Merge(runs[0], MergeAll(runs[1..]))
  }

  ghost predicate SortedRuns(runs: seq<seq<Entry>>) {
    && (forall i :: 0 <= i < |runs| ==> Sorted(runs[i]))
    && (forall i, j :: 0 <= i < j < |runs| ==> DistinctKeys(runs[i], runs[j]))
  }

  lemma {:induction false} MergeAllMembers(runs: seq<seq<Entry>>, e: Entry)
    ensures e in MergeAll(runs) <==> exists i :: 0 <= i < |runs| && e in runs[i]
  {
    if runs != [] {
      MergeMembers(runs[0], MergeAll(runs[1..]));
      MergeAllMembers(runs[1..], e);
      if i :| 0 <= i < |runs[1..]| && e in runs[1..][i] {
        assert e in runs[i + 1];
      }
      if i :| 0 <= i < |runs| && e in runs[i] {
        assert i > 0 ==> e in runs[1..][i - 1];
      }
    }
  }

  lemma {:induction false} MergeAllSorted(runs: seq<seq<Entry>>)
    requires SortedRuns(runs)
    ensures Sorted(MergeAll(runs))
  {
    if runs != [] {
      MergeAllSorted(runs[1..]);
      forall e, f | e in runs[0] && f in MergeAll(runs[1..]) ensures e.key != f.key {
        MergeAllMembers(runs[1..], f);
        var i :| 0 <= i < |runs[1..]| && f in runs[1..][i];
        assert DistinctKeys(runs[0], runs[i + 1]);
      }
      MergeSorted(runs[0], MergeAll(runs[1..]));
    }
  }

  function Runs(children: seq<Cursor>): seq<seq<Entry>> {
    seq(|children|, i requires 0 <= i < |children| => children[i].entries)
  }

  // ---------------------------------------------------------------------------------------------
  // The iterator
  // ---------------------------------------------------------------------------------------------

  datatype Direction = Forward | Reverse

  class MergingIterator {
    const children: seq<Cursor>
    var current: Cursor?
    var direction: Direction
    /** The place in the union; the length of the union when the iterator is not valid. */
    ghost var at: nat

    ghost function Union(): seq<Entry> {
      MergeAll(Runs(children))
    }

    ghost predicate Built() {
      && (forall i, j :: 0 <= i < j < |children| ==> children[i] != children[j])
      && SortedRuns(Runs(children))
    }

    /** Entry k of the child is passed just when it comes before the n-th of the union. */
    ghost predicate SplitAhead(n: nat, child: Cursor, k: nat)
      requires k < |child.entries|
      reads child
    {
      if k < child.pos then n < |Union()| ==> Less(child.entries[k].key, Union()[n].key)
      else n < |Union()| && AtMost(Union()[n].key, child.entries[k].key)
    }

    /** Entry k of the child is ahead of its position just when it is not among the first n of the union. */
    ghost predicate SplitBehind(n: nat, child: Cursor, k: nat)
      requires n <= |Union()| && k < |child.entries|
      reads child
    {
      if k < (if child.Valid() then child.pos + 1 else 0) then n > 0 && AtMost(child.entries[k].key, Union()[n - 1].key)
      else n > 0 ==> Less(Union()[n - 1].key, child.entries[k].key)
    }

    /** Every child stands at its first entry from the n-th of the union on. */
    ghost predicate AheadOf(n: nat)
      reads children
    {
      forall child, k :: child in children && 0 <= k < |child.entries| ==> SplitAhead(n, child, k)
    }

    /** Every child stands at its last entry among the first n of the union. */
    ghost predicate BehindOf(n: nat)
      requires n <= |Union()|
      reads children
    {
      forall child, k :: child in children && 0 <= k < |child.entries| ==> SplitBehind(n, child, k)
    }

    ghost predicate Ok()
      reads this, children
    {
      && Built()
      && (forall child :: child in children ==> child.Ok())
      && at <= |Union()|
      && (current == null <==> at == |Union()|)
      && (current != null ==>
            && current in children && current.Valid() && current.Key() == Union()[at].key
            && (direction == Forward ==> AheadOf(at))
            && (direction == Reverse ==> BehindOf(at + 1)))
    }

    predicate Valid()
      reads this
    {
      current != null
    }

    /** The place in the union of a child's entry. */
    lemma {:induction false} PlaceOf(child: Cursor, k: nat) returns (n: nat)
      requires child in children && k < |child.entries|
      ensures n < |Union()| && Union()[n] == child.entries[k]
    {
      var i :| 0 <= i < |children| && children[i] == child;
      assert child.entries[k] in Runs(children)[i];
      MergeAllMembers(Runs(children), child.entries[k]);
      n :| n < |Union()| && Union()[n] == child.entries[k];
    }

    /** The child that holds an entry of the union. */
    lemma {:induction false} HolderOf(n: nat) returns (i: nat, k: nat)
      requires n < |Union()|
      ensures i < |children| && k < |children[i].entries| && children[i].entries[k] == Union()[n]
    {
      MergeAllMembers(Runs(children), Union()[n]);
      i :| 0 <= i < |Runs(children)| && Union()[n] in Runs(children)[i];
      assert Runs(children)[i] == children[i].entries;
      k :| 0 <= k < |children[i].entries| && children[i].entries[k] == Union()[n];
    }

    /** Key and value are those of the union's entry. */
    lemma {:induction false} CurrentEntry()
      requires Ok() && Valid()
      ensures Union()[at] == Entry(current.Key(), current.Value())
    {
      MergeAllSorted(Runs(children));
      var m := PlaceOf(current, current.pos);
      assert m < at ==> Less(Union()[m].key, Union()[at].key);
      assert m > at ==> Less(Union()[at].key, Union()[m].key);
      PackedOrder(current.Key(), current.Key());
    }

    constructor (children: seq<Cursor>)
      requires forall i, j :: 0 <= i < j < |children| ==> children[i] != children[j]
      requires SortedRuns(Runs(children))
      requires forall child :: child in children ==> child.Ok()
      ensures Ok() && !Valid() && this.children == children
    {
      this.children := children;
      current, direction := null, Forward;
      at := |MergeAll(Runs(children))|;
    }

    ghost predicate IsSmallest(c: Cursor?, from: nat, to: nat)
      requires to <= |children|
      reads children
    {
      && (c == null ==> forall j :: from <= j < to ==> !children[j].Valid())
      && (c != null ==> c in children && c.Valid())
      && (c != null ==> forall j :: from <= j < to && children[j].Valid() ==> AtMost(c.Key(), children[j].Key()))
    }

    ghost predicate IsLargest(c: Cursor?, from: nat, to: nat)
      requires to <= |children|
      reads children
    {
      && (c == null ==> forall j :: from <= j < to ==> !children[j].Valid())
      && (c != null ==> c in children && c.Valid())
      && (c != null ==> forall j :: from <= j < to && children[j].Valid() ==> AtMost(children[j].Key(), c.Key()))
    }

    method FindSmallest()
      modifies this`current
      ensures IsSmallest(current, 0, |children|)
    {
      var smallest: Cursor? := null;
      for i := 0 to |children|
        invariant IsSmallest(smallest, 0, i)
      {
        var child := children[i];
        if child.Valid() {
          if smallest == null {
            smallest := child;
          } else {
            PackedOrder(child.Key(), smallest.Key());
            if Less(child.Key(), smallest.Key()) {
              smallest := child;
            }
          }
        }
      }
      current := smallest;
    }

    method FindLargest()
      modifies this`current
      ensures IsLargest(current, 0, |children|)
    {
      var largest: Cursor? := null;
      for i := |children| downto 0
        invariant IsLargest(largest, i, |children|)
      {
        var child := children[i];
        if child.Valid() {
          if largest == null {
            largest := child;
          } else {
            PackedOrder(child.Key(), largest.Key());
            if Less(largest.Key(), child.Key()) {
              largest := child;
            }
          }
        }
      }
      current := largest;
    }

    /** The smallest head is the next entry of the union. */
    lemma {:induction false} SmallestIsNext(n: nat)
      requires Built() && n <= |Union()| && AheadOf(n)
      requires forall child :: child in children ==> child.Ok()
      requires IsSmallest(current, 0, |children|)
      ensures current == null <==> n == |Union()|
      ensures current != null ==> current.Key() == Union()[n].key
    {
      MergeAllSorted(Runs(children));
      if current != null {
        assert SplitAhead(n, current, current.pos);
      }
      if n < |Union()| {
        var i, k := HolderOf(n);
        PackedOrder(Union()[n].key, Union()[n].key);
        assert SplitAhead(n, children[i], k);
        assert children[i] in children && children[i].Ok();
        assert children[i].pos == k || Less(children[i].Key(), children[i].entries[k].key);
        PackedOrder(Union()[n].key, children[i].Key());
        assert AtMost(current.Key(), children[i].Key());
        PackedOrder(Union()[n].key, current.Key());
      }
    }

    lemma {:induction false} LargestIsPrevious(n: nat)
      requires Built() && n <= |Union()| && BehindOf(n)
      requires forall child :: child in children ==> child.Ok()
      requires IsLargest(current, 0, |children|)
      ensures current == null <==> n == 0
      ensures current != null ==> current.Key() == Union()[n - 1].key
    {
      MergeAllSorted(Runs(children));
      if current != null {
        assert SplitBehind(n, current, current.pos);
      }
      if n > 0 {
        var i, k := HolderOf(n - 1);
        PackedOrder(Union()[n - 1].key, Union()[n - 1].key);
        assert SplitBehind(n, children[i], k);
        assert children[i] in children && children[i].Ok();
        assert children[i].pos == k || Less(children[i].entries[k].key, children[i].Key());
        PackedOrder(Union()[n - 1].key, children[i].Key());
        assert AtMost(children[i].Key(), current.Key());
        PackedOrder(Union()[n - 1].key, current.Key());
      }
    }

    method SeekToFirst()
      requires Ok()
      modifies this, children
      ensures Ok() && at == 0
    {
      for i := 0 to |children|
        invariant forall child :: child in children ==> child.Ok()
        invariant forall j :: 0 <= j < i ==> children[j].pos == 0
      {
        children[i].SeekToFirst();
      }
      MergeAllSorted(Runs(children));
      forall child, k | child in children && 0 <= k < |child.entries|
        ensures SplitAhead(0, child, k)
      {
        var m := PlaceOf(child, k);
        assert m == 0 || Less(Union()[0].key, Union()[m].key);
      }
      FindSmallest();
      SmallestIsNext(0);
      at := 0;
      direction := Forward;
    }

    method SeekToLast()
      requires Ok()
      modifies this, children
      ensures Ok() && at == if |Union()| == 0 then 0 else |Union()| - 1
    {
      hide Less, Sorted, AtMost, MergeAll, Runs, SortedRuns, SplitAhead, SplitBehind;
      for i := 0 to |children|
        invariant forall child :: child in children ==> child.Ok()
        invariant forall j :: 0 <= j < i ==> children[j].pos + 1 == |children[j].entries| || children[j].entries == []
      {
        children[i].SeekToLast();
      }
      AllBehind();
      FindLargest();
      LargestIsPrevious(|Union()|);
      at := if |Union()| == 0 then 0 else |Union()| - 1;
      direction := Reverse;
    }

    lemma {:induction false} AllBehind()
      requires Built()
      requires forall j :: 0 <= j < |children| ==> children[j].pos + 1 == |children[j].entries| || children[j].entries == []
      ensures BehindOf(|Union()|)
    {
      MergeAllSorted(Runs(children));
      var n := |Union()|;
      forall child, k | child in children && 0 <= k < |child.entries| ensures SplitBehind(n, child, k) {
        var m := PlaceOf(child, k);
        assert m == n - 1 || Less(Union()[m].key, Union()[n - 1].key);
      }
    }

    method Seek(target: InternalKey)
      requires Ok()
      modifies this, children
      ensures Ok()
      ensures forall n :: 0 <= n < at ==> Less(Union()[n].key, target)
      ensures forall n :: at <= n < |Union()| ==> AtMost(target, Union()[n].key)
    {
      for i := 0 to |children|
        invariant forall child :: child in children ==> child.Ok()
        invariant forall j, k | 0 <= j < i && 0 <= k < |children[j].entries| ::
                    if k < children[j].pos then Less(children[j].entries[k].key, target)
                    else AtMost(target, children[j].entries[k].key)
      {
        children[i].Seek(target);
      }
      MergeAllSorted(Runs(children));
      ghost var n := 0;
      while n < |Union()| && Less(Union()[n].key, target)
        invariant n <= |Union()|
        invariant forall m :: 0 <= m < n ==> Less(Union()[m].key, target)
      {
        n := n + 1;
      }
      Rest(n, target);
      FindSmallest();
      SmallestIsNext(n);
      at := n;
      direction := Forward;
    }

    lemma {:induction false} Rest(n: nat, target: InternalKey)
      requires Built() && n <= |Union()|
      requires forall m :: 0 <= m < n ==> Less(Union()[m].key, target)
      requires n < |Union()| ==> !Less(Union()[n].key, target)
      requires forall child, k | child in children && 0 <= k < |child.entries| ::
                 if k < child.pos then Less(child.entries[k].key, target) else AtMost(target, child.entries[k].key)
      ensures AheadOf(n)
      ensures forall m :: n <= m < |Union()| ==> AtMost(target, Union()[m].key)
    {
      MergeAllSorted(Runs(children));
      forall m | n <= m < |Union()| ensures AtMost(target, Union()[m].key) {
        PackedOrder(target, Union()[n].key);
        assert m == n || Less(Union()[n].key, Union()[m].key);
      }
      forall child, k | child in children && 0 <= k < |child.entries|
        ensures SplitAhead(n, child, k)
      {
        var m := PlaceOf(child, k);
        PackedOrder(Union()[m].key, target);
        assert n < |Union()| && n < m ==> Less(Union()[n].key, Union()[m].key);
        assert n < |Union()| && n > m ==> Less(Union()[m].key, Union()[n].key);
      }
    }

    /** Going forward, a child other than the current one stands past the key. */
    ghost predicate PastKey(key: InternalKey, child: Cursor, k: nat)
      requires k < |child.entries|
      reads child
    {
      if k < child.pos then AtMost(child.entries[k].key, key) else Less(key, child.entries[k].key)
    }

    /** Going backward, a child other than the current one stands before the key. */
    ghost predicate ShortOfKey(key: InternalKey, child: Cursor, k: nat)
      requires k < |child.entries|
      reads child
    {
      if k < (if child.Valid() then child.pos + 1 else 0) then Less(child.entries[k].key, key)
      else AtMost(key, child.entries[k].key)
    }

    /** No two children hold the same key. */
    lemma {:induction false} OnlyCurrent(n: nat, child: Cursor, k: nat)
      requires Built() && n < |Union()| && current != null && current in children && current.Valid()
      requires current.Key() == Union()[n].key
      requires child in children && child != current && k < |child.entries|
      ensures child.entries[k].key != Union()[n].key
    {
      var i :| 0 <= i < |children| && children[i] == child;
      var j :| 0 <= j < |children| && children[j] == current;
      assert Runs(children)[i] == child.entries && Runs(children)[j] == current.entries;
      assert child.entries[k] in Runs(children)[i] && current.entries[current.pos] in Runs(children)[j];
      assert if i < j then DistinctKeys(Runs(children)[i], Runs(children)[j])
             else DistinctKeys(Runs(children)[j], Runs(children)[i]);
    }

    method TurnForward(ghost key: InternalKey)
      requires Ok() && Valid() && direction == Reverse && key == current.Key()
      modifies this`direction, children
      ensures forall child :: child in children ==> child.Ok()
      ensures direction == Forward && current.pos == old(current.pos)
      ensures forall child, k :: child in children && child != current && 0 <= k < |child.entries| ==> PastKey(key, child, k)
    {
      for i := 0 to |children|
        invariant forall child :: child in children ==> child.Ok()
        invariant current.pos == old(current.pos)
        invariant forall j, k :: 0 <= j < i && children[j] != current && 0 <= k < |children[j].entries| ==>
                                   PastKey(key, children[j], k)
      {
        var child := children[i];
        if child != current {
          child.Seek(current.Key());
          StandsPast(child, key);
          if child.Valid() && current.Key() == child.Key() {
            child.Next();
          }
        }
      }
      direction := Forward;
    }

    lemma {:induction false} StandsPast(child: Cursor, key: InternalKey)
      requires child.Ok()
      requires forall i :: child.pos <= i < |child.entries| ==> AtMost(key, child.entries[i].key)
      ensures forall i :: child.pos < i < |child.entries| ==> Less(key, child.entries[i].key)
    {
      forall i | child.pos < i < |child.entries| ensures Less(key, child.entries[i].key) {
        assert Less(child.entries[child.pos].key, child.entries[i].key);
      }
    }

    method TurnBackward(ghost key: InternalKey)
      requires Ok() && Valid() && direction == Forward && key == current.Key()
      modifies this`direction, children
      ensures forall child :: child in children ==> child.Ok()
      ensures direction == Reverse && current.pos == old(current.pos)
      ensures forall child, k :: child in children && child != current && 0 <= k < |child.entries| ==> ShortOfKey(key, child, k)
    {
      for i := 0 to |children|
        invariant forall child :: child in children ==> child.Ok()
        invariant current.pos == old(current.pos)
        invariant forall j, k :: 0 <= j < i && children[j] != current && 0 <= k < |children[j].entries| ==>
                                   ShortOfKey(key, children[j], k)
      {
        var child := children[i];
        if child != current {
          child.Seek(current.Key());
          if child.Valid() {
            child.Prev();
          } else {
            child.SeekToLast();
          }
        }
      }
      direction := Reverse;
    }

    lemma {:induction false} OthersPast()
      requires Ok() && Valid() && direction == Forward
      ensures forall child, k :: child in children && child != current && 0 <= k < |child.entries| ==>
                                   PastKey(current.Key(), child, k)
    {
      forall child, k | child in children && child != current && 0 <= k < |child.entries|
        ensures PastKey(current.Key(), child, k)
      {
        assert SplitAhead(at, child, k);
        OnlyCurrent(at, child, k);
      }
    }

    lemma {:induction false} OthersShort()
      requires Ok() && Valid() && direction == Reverse
      ensures forall child, k :: child in children && child != current && 0 <= k < |child.entries| ==>
                                   ShortOfKey(current.Key(), child, k)
    {
      forall child, k | child in children && child != current && 0 <= k < |child.entries|
        ensures ShortOfKey(current.Key(), child, k)
      {
        assert SplitBehind(at + 1, child, k);
        OnlyCurrent(at, child, k);
      }
    }

    lemma {:induction false} PastIsAhead(n: nat)
      requires Built() && n < |Union()|
      requires forall child, k :: child in children && 0 <= k < |child.entries| ==> PastKey(Union()[n].key, child, k)
      ensures AheadOf(n + 1)
    {
      MergeAllSorted(Runs(children));
      var next := n + 1;
      forall child, k | child in children && 0 <= k < |child.entries| ensures SplitAhead(next, child, k) {
        assert PastKey(Union()[n].key, child, k);
        var m := PlaceOf(child, k);
        Places(n, m);
        if n + 1 < |Union()| {
          Places(n + 1, m);
        }
      }
    }

    lemma {:induction false} ShortIsBehind(n: nat)
      requires Built() && n < |Union()|
      requires forall child, k :: child in children && 0 <= k < |child.entries| ==> ShortOfKey(Union()[n].key, child, k)
      ensures BehindOf(n)
    {
      MergeAllSorted(Runs(children));
      forall child, k | child in children && 0 <= k < |child.entries| ensures SplitBehind(n, child, k) {
        assert ShortOfKey(Union()[n].key, child, k);
        var m := PlaceOf(child, k);
        Places(n, m);
        if n > 0 {
          Places(n - 1, m);
        }
      }
    }

    lemma {:induction false} Places(n: nat, m: nat)
      requires Sorted(Union()) && n < |Union()| && m < |Union()|
      ensures Less(Union()[n].key, Union()[m].key) <==> n < m
      ensures AtMost(Union()[n].key, Union()[m].key) <==> n <= m
      ensures AtMost(Union()[m].key, Union()[n].key) <==> m <= n
    {
      PackedOrder(Union()[n].key, Union()[m].key);
    }

    method Next()
      requires Ok() && Valid()
      modifies this, children
      ensures Ok() && at == old(at) + 1
    {
      hide Less, Sorted, AtMost, MergeAll, Runs, SortedRuns, SplitAhead, SplitBehind, PastKey;
      ghost var key := current.Key();
      if direction == Reverse {
        TurnForward(key);
      } else {
        OthersPast();
      }
      StepPast(key);
      PastIsAhead(at);
      FindSmallest();
      SmallestIsNext(at + 1);
      at := at + 1;
    }

    /** The current child joins the others past the key. */
    method StepPast(ghost key: InternalKey)
      requires forall child :: child in children ==> child.Ok()
      requires current != null && current in children && current.Valid() && current.Key() == key
      requires forall child, k :: child in children && child != current && 0 <= k < |child.entries| ==> PastKey(key, child, k)
      modifies current
      ensures forall child :: child in children ==> child.Ok()
      ensures forall child, k :: child in children && 0 <= k < |child.entries| ==> PastKey(key, child, k)
    {
      hide Less, Sorted;
      ghost var c := current;
      StandsAt(current, key);
      current.Next();
      forall child, k | child in children && 0 <= k < |child.entries| ensures PastKey(key, child, k) {
        if child == current {
          assert k < c.pos ==> k < old(c.pos) || child.entries[k].key == key;
        } else {
          assert old(PastKey(key, child, k));
        }
      }
    }

    method Prev()
      requires Ok() && Valid()
      modifies this, children
      ensures Ok() && (Valid() <==> old(at) > 0)
      ensures Valid() ==> at == old(at) - 1
    {
      hide Less, Sorted, AtMost, MergeAll, Runs, SortedRuns, SplitAhead, SplitBehind, ShortOfKey;
      ghost var key := current.Key();
      if direction == Forward {
        TurnBackward(key);
      } else {
        OthersShort();
      }
      StepShort(key);
      ShortIsBehind(at);
      FindLargest();
      LargestIsPrevious(at);
      at := if at == 0 then |Union()| else at - 1;
    }

    /** The current child joins the others before the key. */
    method StepShort(ghost key: InternalKey)
      requires forall child :: child in children ==> child.Ok()
      requires current != null && current in children && current.Valid() && current.Key() == key
      requires forall child, k :: child in children && child != current && 0 <= k < |child.entries| ==> ShortOfKey(key, child, k)
      modifies current
      ensures forall child :: child in children ==> child.Ok()
      ensures forall child, k :: child in children && 0 <= k < |child.entries| ==> ShortOfKey(key, child, k)
    {
      hide Less, Sorted;
      ghost var c := current;
      StandsAt(current, key);
      current.Prev();
      forall child, k | child in children && 0 <= k < |child.entries| ensures ShortOfKey(key, child, k) {
        if child != c {
          assert old(ShortOfKey(key, child, k));
        }
      }
    }

    lemma {:induction false} StandsAt(child: Cursor, key: InternalKey)
      requires child.Ok() && child.Valid() && child.Key() == key
      ensures forall i :: 0 <= i < child.pos ==> Less(child.entries[i].key, key)
      ensures forall i :: child.pos < i < |child.entries| ==> Less(key, child.entries[i].key)
    {
    }
  }

  // ---------------------------------------------------------------------------------------------
  // In the place of a cursor
  // ---------------------------------------------------------------------------------------------

  /** The iterator's operations. */
  datatype Move = ToFirst | ToLast | To(target: InternalKey) | Onward | Back

  /** A merging iterator and a cursor over its union, at the same place. */
  ghost predicate InStep(m: MergingIterator, c: Cursor)
    reads m, m.children, c
  {
    m.Ok() && c.Ok() && c !in m.children && c.entries == m.Union() && c.pos == m.at
  }

  /** What a caller can see of the two is the same. */
  lemma {:induction false} LooksTheSame(m: MergingIterator, c: Cursor)
    requires InStep(m, c)
    ensures m.Valid() <==> c.Valid()
    ensures m.Valid() ==> m.current.Key() == c.Key() && m.current.Value() == c.Value()
  {
    if m.Valid() {
      m.CurrentEntry();
    }
  }

  /** At most one place splits a sorted run at a target. */
  lemma {:induction false} SplitOnce(entries: seq<Entry>, target: InternalKey, a: nat, b: nat)
    requires a <= |entries| && b <= |entries|
    requires forall i :: 0 <= i < a ==> Less(entries[i].key, target)
    requires forall i :: a <= i < |entries| ==> AtMost(target, entries[i].key)
    requires forall i :: 0 <= i < b ==> Less(entries[i].key, target)
    requires forall i :: b <= i < |entries| ==> AtMost(target, entries[i].key)
    ensures a == b
  {
    if a < b {
      PackedOrder(entries[a].key, target);
    } else if b < a {
      PackedOrder(entries[b].key, target);
    }
  }

  /** Where each operation of an iterator leads. */
  ghost predicate Lands(entries: seq<Entry>, was: nat, move: Move, now: nat) {
    match move
    case ToFirst => now == 0
    case ToLast => now == if entries == [] then 0 else |entries| - 1
    case To(target) =>
      && now <= |entries|
      && (forall i :: 0 <= i < now ==> Less(entries[i].key, target))
      && (forall i :: now <= i < |entries| ==> AtMost(target, entries[i].key))
    case Onward => now == was + 1
    case Back => now == if was == 0 then |entries| else was - 1
  }

  /**
   Any operation a caller may use moves both to the same place and so leaves the two in step, so what is built on a cursor over sorted
   entries (the DB iterator) works on a merging iterator over memtables and tables as well.
   */
  method MoveBoth(m: MergingIterator, c: Cursor, move: Move)
    requires InStep(m, c)
    requires move.Onward? || move.Back? ==> m.Valid()
    modifies m, m.children, c
    ensures InStep(m, c) && Lands(c.entries, old(c.pos), move, c.pos)
  {
    hide Less, AtMost, Sorted, MergeAll;
    match move {
      case ToFirst =>
        m.SeekToFirst();
        c.SeekToFirst();
      case ToLast =>
        m.SeekToLast();
        c.SeekToLast();
      case To(target) =>
        m.Seek(target);
        c.Seek(target);
        SplitOnce(c.entries, target, m.at, c.pos);
      case Onward =>
        m.Next();
        c.Next();
      case Back =>
        m.Prev();
        c.Prev();
    }
  }
}
