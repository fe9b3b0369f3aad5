/**
 The sharded LRU cache's shard (util/cache.cc): a chained hash table that resizes, and the bookkeeping of
 references, lists and charges. Handles are numbered; the circular lists are written out in order, oldest first.
 */
module Cache {
  import opened Keys
  import opened Version

  // ---------------------------------------------------------------------------------------------
  // The hash table
  // ---------------------------------------------------------------------------------------------

  /** What the table compares, and the handle found by it. */
  datatype Item = Item(key: Bytes, hash: nat, id: nat)

  predicate SameTag(a: Item, b: Item) {
    a.key == b.key && a.hash == b.hash
  }

  ghost predicate DistinctTags(chain: seq<Item>) {
    forall i, j :: 0 <= i < j < |chain| ==> !SameTag(chain[i], chain[j])
  }

  /** hash & (length - 1); lengths are powers of two. */
  function Slot(hash: nat, length: nat): (b: nat)
    requires length > 0
    ensures b < length
  {
    hash % length
  }

  /** Every item is in the bucket of its hash, once. */
  ghost predicate Bucketed(buckets: seq<seq<Item>>, items: set<Item>) {
    && buckets != []
    && (forall b, it :: 0 <= b < |buckets| && it in buckets[b] ==> it in items && Slot(it.hash, |buckets|) == b)
    && (forall it :: it in items ==> InBucket(buckets, it))
    && (forall b :: 0 <= b < |buckets| ==> DistinctTags(buckets[b]))
  }

  ghost predicate InBucket(buckets: seq<seq<Item>>, it: Item)
    requires buckets != []
  {
    it in buckets[Slot(it.hash, |buckets|)]
  }

  /** The items of a bucket are those of the table that hash to it. */
  lemma {:induction false} BucketHolds(buckets: seq<seq<Item>>, items: set<Item>, b: nat, it: Item)
    requires Bucketed(buckets, items) && b < |buckets|
    ensures it in buckets[b] <==> it in items && Slot(it.hash, |buckets|) == b
  {
    hide Slot;
    if it in items {
      assert InBucket(buckets, it);
    }
  }

  lemma {:induction false} Replaced(buckets: seq<seq<Item>>, items: set<Item>, b: nat, k: nat, h: Item)
    requires Bucketed(buckets, items) && b < |buckets| && k < |buckets[b]| && SameTag(buckets[b][k], h) && h !in items
    ensures Bucketed(buckets[b := buckets[b][k := h]], items - {buckets[b][k]} + {h})
    ensures |items - {buckets[b][k]} + {h}| == |items| && buckets[b][k] in items
  {
    hide Slot;
    var chain, was := buckets[b][k := h], buckets[b][k];
    assert DistinctTags(buckets[b]);
    assert was in buckets[b];
    forall it ensures it in chain <==> it == h || (it in buckets[b] && it != was) {
      ReplacedMembers(buckets[b], k, h, it);
      BucketHolds(buckets, items, b, it);
    }
    forall it ensures it in items - {was} + {h} <==> if Slot(it.hash, |buckets|) == b then it in chain else it in items {
      BucketHolds(buckets, items, b, it);
    }
  }

  lemma {:induction false} ReplacedMembers(chain: seq<Item>, k: nat, h: Item, it: Item)
    requires k < |chain| && DistinctTags(chain)
    ensures it in chain[k := h] <==> it == h || (it in chain && it != chain[k])
  {
    if it in chain && it != chain[k] {
      var i :| 0 <= i < |chain| && chain[i] == it;
      assert chain[k := h][i] == it;
    }
    if it in chain[k := h] && it != h {
      var i :| 0 <= i < |chain| && chain[k := h][i] == it;
      assert i != k && chain[i] == it;
      assert if i < k then !SameTag(chain[i], chain[k]) else !SameTag(chain[k], chain[i]);
    }
    assert chain[k := h][k] == h;
  }

  lemma {:induction false} Appended(buckets: seq<seq<Item>>, items: set<Item>, b: nat, h: Item)
    requires Bucketed(buckets, items) && b < |buckets| && Slot(h.hash, |buckets|) == b
    requires forall it :: it in items ==> !SameTag(it, h)
    ensures Bucketed(buckets[b := buckets[b] + [h]], items + {h}) && |items + {h}| == |items| + 1
  {
    hide Slot;
    assert DistinctTags(buckets[b]);
    assert !SameTag(h, h) ==> false;
    forall it ensures it in items + {h} <==> if Slot(it.hash, |buckets|) == b then it in buckets[b] + [h] else it in items {
      BucketHolds(buckets, items, b, it);
    }
  }

  lemma {:induction false} Prepended(buckets: seq<seq<Item>>, items: set<Item>, b: nat, h: Item)
    requires Bucketed(buckets, items) && b < |buckets| && Slot(h.hash, |buckets|) == b
    requires forall it :: it in items ==> !SameTag(it, h)
    ensures Bucketed(buckets[b := [h] + buckets[b]], items + {h})
  {
    hide Slot;
    assert DistinctTags(buckets[b]);
    forall it | it in buckets[b] ensures !SameTag(h, it) {
      assert !SameTag(it, h);
    }
    forall it ensures it in items + {h} <==> if Slot(it.hash, |buckets|) == b then it in [h] + buckets[b] else it in items {
      BucketHolds(buckets, items, b, it);
    }
  }

  lemma {:induction false} Removed(buckets: seq<seq<Item>>, items: set<Item>, b: nat, k: nat)
    requires Bucketed(buckets, items) && b < |buckets| && k < |buckets[b]|
    ensures Bucketed(buckets[b := buckets[b][..k] + buckets[b][k + 1..]], items - {buckets[b][k]})
    ensures buckets[b][k] in items && |items - {buckets[b][k]}| == |items| - 1
  {
    hide Slot;
    var chain, was := buckets[b], buckets[b][k];
    var less := chain[..k] + chain[k + 1..];
    assert DistinctTags(chain);
    assert was in chain;
    forall it ensures it in less <==> it in chain && it != was {
      BucketHolds(buckets, items, b, it);
    }
    forall it ensures it in items - {was} <==> if Slot(it.hash, |buckets|) == b then it in less else it in items {
      BucketHolds(buckets, items, b, it);
    }
  }

  /** 4 times a power of two. */
  predicate Doubled(n: nat) {
    n == 4 || (n > 4 && n % 2 == 0 && Doubled(n / 2))
  }

  /** The least number of buckets, doubling from 4 on, with room for the items. */
  predicate LeastRoom(n: nat, items: nat) {
    Doubled(n) && items <= n && (n == 4 || n / 2 < items)
  }

  class HandleTable {
    var list: seq<seq<Item>>
    var elems: nat
    ghost var items: set<Item>

    ghost predicate Ok()
      reads this
    {
      Bucketed(list, items) && elems == |items| && Doubled(|list|)
    }

    constructor ()
      ensures Ok() && items == {} && |list| == 4
    {
      assert Doubled(4);
      list := seq(4, i => []);
      elems := 0;
      items := {};
    }

    /** FindPointer: the place in the bucket, its end when the tag is not there. */
    method FindPointer(key: Bytes, hash: nat) returns (b: nat, k: nat)
      requires Ok()
      ensures b == Slot(hash, |list|) && b < |list| && k <= |list[b]|
      ensures k < |list[b]| ==> list[b][k].key == key && list[b][k].hash == hash && list[b][k] in items
      ensures k == |list[b]| ==> forall it :: it in items ==> !(it.key == key && it.hash == hash)
    {
      b := Slot(hash, |list|);
      k := 0;
      while k < |list[b]| && (list[b][k].hash != hash || list[b][k].key != key)
        invariant k <= |list[b]| && forall j :: 0 <= j < k ==> !(list[b][j].key == key && list[b][j].hash == hash)
      {
        k := k + 1;
      }
      if k == |list[b]| {
        forall it | it in items ensures !(it.key == key && it.hash == hash) {
          assert InBucket(list, it);
        }
      }
    }

    method Lookup(key: Bytes, hash: nat) returns (r: Option<nat>)
      requires Ok()
      ensures r == None ==> forall it :: it in items ==> !(it.key == key && it.hash == hash)
      ensures r.Some? ==> Item(key, hash, r.value) in items
    {
      var b, k := FindPointer(key, hash);
      if k < |list[b]| {
        r := Some(list[b][k].id);
      } else {
        r := None;
      }
    }

    method Insert(h: Item) returns (old_: Option<nat>)
      requires Ok() && h !in items
      modifies this
      ensures Ok()
      ensures old_ == None ==> items == old(items) + {h} && forall it :: it in old(items) ==> !SameTag(it, h)
      ensures old_.Some? ==> Item(h.key, h.hash, old_.value) in old(items) && items == old(items) - {Item(h.key, h.hash, old_.value)} + {h}
      // The table grows when there are more items than buckets, to the least power of two that has room.
      ensures if old_ == None && |items| > |old(list)| then LeastRoom(|list|, |items|) else |list| == |old(list)|
    {
      var b, k := FindPointer(h.key, h.hash);
      if k < |list[b]| {
        old_ := Some(list[b][k].id);
        Replaced(list, items, b, k, h);
        items := items - {list[b][k]} + {h};
        list := list[b := list[b][k := h]];
      } else {
        old_ := None;
        Appended(list, items, b, h);
        items := items + {h};
        list := list[b := list[b] + [h]];
        elems := elems + 1;
        if elems > |list| {
          Resize();
        }
      }
    }

    method Remove(key: Bytes, hash: nat) returns (r: Option<nat>)
      requires Ok()
      modifies this
      ensures Ok()
      ensures r == None ==> items == old(items) && forall it :: it in items ==> !(it.key == key && it.hash == hash)
      ensures r.Some? ==> Item(key, hash, r.value) in old(items) && items == old(items) - {Item(key, hash, r.value)}
      ensures |list| == |old(list)|
    {
      var b, k := FindPointer(key, hash);
      if k < |list[b]| {
        r := Some(list[b][k].id);
        Removed(list, items, b, k);
        items := items - {list[b][k]};
        list := list[b := list[b][..k] + list[b][k + 1..]];
        elems := elems - 1;
      } else {
        r := None;
      }
    }

    /** Moves every item to the front of its bucket in a table of at least as many buckets as items. */
    method Resize()
      requires Ok()
      modifies this`list
      ensures Ok() && items == old(items) && LeastRoom(|list|, elems)
    {
      hide Slot, Bucketed;
      var newLength := 4;
      while newLength < elems
        invariant Doubled(newLength) && (newLength == 4 || newLength / 2 < elems)
      {
        newLength := newLength * 2;
      }
      var newList: seq<seq<Item>> := seq(newLength, i => []);
      ghost var moved: set<Item> := {};
      NoItems(newList);
      NotEmpty(list, items);
      for i := 0 to |list|
        invariant list == old(list) && |newList| == newLength && Bucketed(newList, moved)
        invariant forall it :: it in moved <==> it in items && Slot(it.hash, |list|) < i
      {
        newList, moved := MoveBucket(list[i], newList, moved, i);
      }
      assert moved == items;
      list := newList;
    }

    method MoveBucket(chain: seq<Item>, newList0: seq<seq<Item>>, ghost moved0: set<Item>, i: nat)
        returns (newList: seq<seq<Item>>, ghost moved: set<Item>)
      requires Ok() && i < |list| && chain == list[i] && newList0 != [] && Bucketed(newList0, moved0)
      requires forall it :: it in moved0 <==> it in items && Slot(it.hash, |list|) < i
      ensures |newList| == |newList0| && Bucketed(newList, moved)
      ensures forall it :: it in moved <==> it in items && Slot(it.hash, |list|) < i + 1
    {
      hide Slot, Bucketed;
      newList, moved := newList0, moved0;
      for k := 0 to |chain|
        invariant |newList| == |newList0| && Bucketed(newList, moved)
        invariant forall it :: it in moved <==> it in moved0 || it in chain[..k]
      {
        var h := chain[k];
        forall it | it in moved ensures !SameTag(it, h) {
          StillToMove(k, i, it);
        }
        Prepended(newList, moved, Slot(h.hash, |newList|), h);
        moved := moved + {h};
        newList := newList[Slot(h.hash, |newList|) := [h] + newList[Slot(h.hash, |newList|)]];
        assert chain[..k + 1] == chain[..k] + [h];
      }
      assert chain[..|chain|] == chain;
      forall it ensures it in moved <==> it in items && Slot(it.hash, |list|) < i + 1 {
        BucketHolds(list, items, i, it);
      }
    }

    lemma {:induction false} StillToMove(k: nat, i: nat, it: Item)
      requires Ok() && i < |list| && k < |list[i]|
      requires (it in items && Slot(it.hash, |list|) < i) || it in list[i][..k]
      ensures !SameTag(it, list[i][k])
    {
      hide Slot;
      var h := list[i][k];
      assert DistinctTags(list[i]);
      BucketHolds(list, items, i, h);
    }
  }

  lemma {:induction false} NoItems(buckets: seq<seq<Item>>)
    requires buckets != [] && forall b :: 0 <= b < |buckets| ==> buckets[b] == []
    ensures Bucketed(buckets, {})
  {
  }

  lemma {:induction false} NotEmpty(buckets: seq<seq<Item>>, items: set<Item>)
    requires Bucketed(buckets, items)
    ensures buckets != []
  {
  }

  // ---------------------------------------------------------------------------------------------
  // The cache
  // ---------------------------------------------------------------------------------------------

  /** A cached entry; refs counts the handles given out and, while it is in the cache, the cache itself. */
  datatype Handle = Handle(key: Bytes, hash: nat, value: Bytes, charge: nat, inCache: bool, refs: nat)

  type Handles = map<nat, Handle>

  function ItemOf(handles: Handles, id: nat): Item
    requires id in handles
  {
    Item(handles[id].key, handles[id].hash, id)
  }

  ghost predicate NoDuplicates(s: seq<nat>) {
    forall i, j :: 0 <= i < j < |s| ==> s[i] != s[j]
  }

  /** The lru list is the entries that only the cache refers to. */
  ghost predicate LruIs(handles: Handles, lru: seq<nat>) {
    NoDuplicates(lru) && forall id :: id in lru <==> id in handles && handles[id].inCache && handles[id].refs == 1
  }

  /** The in-use list is the entries in the cache that clients refer to. */
  ghost predicate InUseIs(handles: Handles, inUse: seq<nat>) {
    NoDuplicates(inUse) && forall id :: id in inUse <==> id in handles && handles[id].inCache && handles[id].refs >= 2
  }

  /** The charges of the listed entries. */
  function Charges(handles: Handles, ids: seq<nat>): nat
    requires forall id :: id in ids ==> id in handles
  {
    if ids == [] then 0 else handles[ids[0]].charge + Charges(handles, ids[1..])
  }

  /** The hash table holds the entries in the cache, all but the one given. */
  ghost predicate TableIs(handles: Handles, items: set<Item>, but: Option<nat>) {
    && (forall it :: it in items ==> it.id in handles && handles[it.id].inCache && it == ItemOf(handles, it.id) && but != Some(it.id))
    && (forall id :: id in handles && handles[id].inCache && but != Some(id) ==> ItemOf(handles, id) in items)
  }

  /** A client holds given[id] handles of an entry; an entry is freed when nobody refers to it. */
  ghost predicate RefsAre(handles: Handles, given: map<nat, nat>) {
    && given.Keys == handles.Keys
    && forall id :: id in handles ==>
                      handles[id].refs > 0 && handles[id].refs == given[id] + if handles[id].inCache then 1 else 0
  }

  /** Every entry ever made is alive, or its deleter has run once. */
  ghost predicate DeletedOnce(handles: Handles, deleted: seq<nat>, made: nat) {
    && NoDuplicates(deleted)
    && (forall id :: id in handles ==> id < made && id !in deleted)
    && (forall id :: 0 <= id < made ==> id in handles || id in deleted)
    && (forall id :: id in deleted ==> id < made)
  }

  function Without(s: seq<nat>, id: nat): seq<nat> {
    if s == [] then [] else if s[0] == id then s[1..] else [s[0]] + Without(s[1..], id)
  }

  lemma {:induction false} WithoutMembers(s: seq<nat>, id: nat)
    requires NoDuplicates(s)
    ensures NoDuplicates(Without(s, id)) && forall x :: x in Without(s, id) <==> x in s && x != id
  {
    if s != [] {
      assert s == [s[0]] + s[1..];
      WithoutMembers(s[1..], id);
      assert s[0] !in s[1..];
      var less := Without(s[1..], id);
      forall i, j | 0 <= i < j < |less| + 1 ensures ([s[0]] + less)[i] != ([s[0]] + less)[j] {
        assert less[j - 1] in less;
      }
    }
  }

  lemma {:induction false} ChargesAppend(handles: Handles, s: seq<nat>, id: nat)
    requires (forall x :: x in s ==> x in handles) && id in handles
    ensures Charges(handles, s + [id]) == Charges(handles, s) + handles[id].charge
  {
    if s == [] {
      assert s + [id] == [id];
    } else {
      assert (s + [id])[1..] == s[1..] + [id];
      ChargesAppend(handles, s[1..], id);
    }
  }

  lemma {:induction false} ChargesWithout(handles: Handles, s: seq<nat>, id: nat)
    requires (forall x :: x in s ==> x in handles) && NoDuplicates(s) && id in s
    ensures forall x :: x in Without(s, id) ==> x in s
    ensures Charges(handles, Without(s, id)) + handles[id].charge == Charges(handles, s)
  {
    WithoutMembers(s, id);
    assert s == [s[0]] + s[1..];
    if s[0] != id {
      ChargesWithout(handles, s[1..], id);
      assert Without(s, id)[1..] == Without(s[1..], id);
    }
  }

  /** Charges do not depend on anything but the charges. */
  lemma {:induction false} ChargesSame(handles: Handles, handles': Handles, s: seq<nat>)
    requires forall x :: x in s ==> x in handles && x in handles' && handles[x].charge == handles'[x].charge
    ensures Charges(handles, s) == Charges(handles', s)
  {
    if s != [] {
      ChargesSame(handles, handles', s[1..]);
    }
  }

  /** Everything the cache keeps, and what the clients hold. */
  datatype State = State(handles: Handles, lru: seq<nat>, inUse: seq<nat>, usage: nat, deleted: seq<nat>, made: nat)

  ghost predicate Consistent(s: State, items: set<Item>, but: Option<nat>, given: map<nat, nat>) {
    && Listed(s.handles, s.lru, s.inUse, s.usage)
    && TableIs(s.handles, items, but)
    && RefsAre(s.handles, given)
    && DeletedOnce(s.handles, s.deleted, s.made)
  }

  /** Takes an entry off whichever list it is on. */
  function Unlisted(s: State, id: nat): State {
    s.(lru := Without(s.lru, id), inUse := Without(s.inUse, id))
  }

  /** Ref. */
  function Referenced(s: State, id: nat): State
    requires id in s.handles
  {
    var h := s.handles[id];
    var t := if h.refs == 1 && h.inCache then var u := Unlisted(s, id); u.(inUse := u.inUse + [id]) else s;
    t.(handles := t.handles[id := h.(refs := h.refs + 1)])
  }

  /** Unref. */
  function Unreferenced(s: State, id: nat): State
    requires id in s.handles && s.handles[id].refs > 0
  {
    var h := s.handles[id];
    if h.refs == 1 then s.(handles := s.handles - {id}, deleted := s.deleted + [id])
    else
      var t := if h.inCache && h.refs == 2 then var u := Unlisted(s, id); u.(lru := u.lru + [id]) else s;
      t.(handles := t.handles[id := h.(refs := h.refs - 1)])
  }

  /** The usage is never less than the charge taken off it, as EraseKeeps shows. */
  function Uncharged(usage: nat, charge: nat): nat {
    if usage >= charge then usage - charge else 0
  }

  /** FinishErase. */
  function Erased(s: State, id: nat): State
    requires id in s.handles && s.handles[id].refs > 0
  {
    var u := Unlisted(s, id);
    Unreferenced(u.(handles := u.handles[id := u.handles[id].(inCache := false)], usage := Uncharged(u.usage, u.handles[id].charge)), id)
  }

  lemma {:induction false} NotListed(s: seq<nat>, id: nat)
    requires id !in s
    ensures Without(s, id) == s
  {
    if s != [] {
      NotListed(s[1..], id);
    }
  }

  /** The lists and the usage. */
  ghost predicate Listed(handles: Handles, lru: seq<nat>, inUse: seq<nat>, usage: nat) {
    LruIs(handles, lru) && InUseIs(handles, inUse) && usage == Charges(handles, lru) + Charges(handles, inUse)
  }

  /** The number of references changes, but not who is on which list. */
  lemma {:induction false} ListsStay(handles: Handles, lru: seq<nat>, inUse: seq<nat>, usage: nat, id: nat, h: Handle)
    requires Listed(handles, lru, inUse, usage) && id in handles
    requires h == handles[id].(refs := h.refs) && (h.inCache ==> handles[id].refs >= 2 && h.refs >= 2)
    ensures Listed(handles[id := h], lru, inUse, usage)
  {
    ChargesSame(handles, handles[id := h], lru);
    ChargesSame(handles, handles[id := h], inUse);
  }

  /** From the lru list to the in-use list. */
  lemma {:induction false} MovesToUse(handles: Handles, lru: seq<nat>, inUse: seq<nat>, usage: nat, id: nat, h: Handle)
    requires Listed(handles, lru, inUse, usage) && id in handles && handles[id].inCache && handles[id].refs == 1
    requires h == handles[id].(refs := 2)
    ensures Listed(handles[id := h], Without(lru, id), Without(inUse, id) + [id], usage)
  {
    WithoutMembers(lru, id);
    NotListed(inUse, id);
    ChargesWithout(handles, lru, id);
    ChargesAppend(handles, inUse, id);
    ChargesSame(handles, handles[id := h], Without(lru, id));
    ChargesSame(handles, handles[id := h], inUse + [id]);
  }

  /** From the in-use list to the lru list. */
  lemma {:induction false} MovesToLru(handles: Handles, lru: seq<nat>, inUse: seq<nat>, usage: nat, id: nat, h: Handle)
    requires Listed(handles, lru, inUse, usage) && id in handles && handles[id].inCache && handles[id].refs == 2
    requires h == handles[id].(refs := 1)
    ensures Listed(handles[id := h], Without(lru, id) + [id], Without(inUse, id), usage)
  {
    WithoutMembers(inUse, id);
    NotListed(lru, id);
    ChargesWithout(handles, inUse, id);
    ChargesAppend(handles, lru, id);
    ChargesSame(handles, handles[id := h], Without(inUse, id));
    ChargesSame(handles, handles[id := h], lru + [id]);
  }

  /** Out of the cache and off its list. */
  lemma {:induction false} LeavesLists(handles: Handles, lru: seq<nat>, inUse: seq<nat>, usage: nat, id: nat, h: Handle)
    requires Listed(handles, lru, inUse, usage) && id in handles && handles[id].inCache && handles[id].refs >= 1
    requires h == handles[id].(refs := h.refs, inCache := false)
    ensures usage >= h.charge && Listed(handles[id := h], Without(lru, id), Without(inUse, id), usage - h.charge)
  {
    hide Without;
    WithoutMembers(lru, id);
    WithoutMembers(inUse, id);
    if handles[id].refs == 1 {
      NotListed(inUse, id);
      ChargesWithout(handles, lru, id);
    } else {
      NotListed(lru, id);
      ChargesWithout(handles, inUse, id);
    }
    ChargesSame(handles, handles[id := h], Without(lru, id));
    ChargesSame(handles, handles[id := h], Without(inUse, id));
  }

  /** An entry outside the cache is freed. */
  lemma {:induction false} ListsForget(handles: Handles, lru: seq<nat>, inUse: seq<nat>, usage: nat, id: nat)
    requires Listed(handles, lru, inUse, usage) && id in handles && !handles[id].inCache
    ensures Listed(handles - {id}, lru, inUse, usage)
  {
    ChargesSame(handles, handles - {id}, lru);
    ChargesSame(handles, handles - {id}, inUse);
  }

  /** A new entry, already referred to by a client and by the cache. */
  lemma {:induction false} JoinsLists(handles: Handles, lru: seq<nat>, inUse: seq<nat>, usage: nat, id: nat, h: Handle)
    requires Listed(handles, lru, inUse, usage) && id !in handles && h.inCache && h.refs == 2
    ensures Listed(handles[id := h], lru, inUse + [id], usage + h.charge)
  {
    ChargesSame(handles, handles[id := h], lru);
    ChargesSame(handles, handles[id := h], inUse);
    ChargesAppend(handles[id := h], inUse, id);
  }

  /** A new entry that is not cached. */
  lemma {:induction false} ListsIgnore(handles: Handles, lru: seq<nat>, inUse: seq<nat>, usage: nat, id: nat, h: Handle)
    requires Listed(handles, lru, inUse, usage) && id !in handles && !h.inCache
    ensures Listed(handles[id := h], lru, inUse, usage)
  {
    ChargesSame(handles, handles[id := h], lru);
    ChargesSame(handles, handles[id := h], inUse);
  }

  /** The table, the references and the deletions. */
  ghost predicate Accounted(handles: Handles, items: set<Item>, but: Option<nat>, given: map<nat, nat>, deleted: seq<nat>, made: nat) {
    TableIs(handles, items, but) && RefsAre(handles, given) && DeletedOnce(handles, deleted, made)
  }

  lemma {:induction false} OneRefChanges(handles: Handles, items: set<Item>, but: Option<nat>, given: map<nat, nat>,
                                         deleted: seq<nat>, made: nat, id: nat, h: Handle, n: nat)
    requires Accounted(handles, items, but, given, deleted, made) && id in handles
    requires h == handles[id].(refs := h.refs) && h.refs > 0 && h.refs == n + if h.inCache then 1 else 0
    ensures Accounted(handles[id := h], items, but, given[id := n], deleted, made)
  {
  }

  lemma {:induction false} OneIsFreed(handles: Handles, items: set<Item>, given: map<nat, nat>, deleted: seq<nat>, made: nat, id: nat)
    requires Accounted(handles, items, None, given, deleted, made) && id in handles && !handles[id].inCache
    ensures Accounted(handles - {id}, items, None, given - {id}, deleted + [id], made)
  {
  }

  lemma {:induction false} WithoutLast(s: seq<nat>, id: nat)
    requires id !in s
    ensures Without(s + [id], id) == s
  {
    if s == [] {
      assert s + [id] == [id];
    } else {
      assert (s + [id])[1..] == s[1..] + [id];
      WithoutLast(s[1..], id);
      assert [s[0]] + s[1..] == s;
    }
  }

  lemma {:induction false} MovedToEnd(s: seq<nat>, id: nat)
    requires NoDuplicates(s)
    ensures Without(Without(s, id) + [id], id) == Without(s, id) == Without(Without(s, id), id)
    ensures id !in Without(s, id)
  {
    WithoutMembers(s, id);
    WithoutLast(Without(s, id), id);
    NotListed(Without(s, id), id);
  }

  /** The other entries keep their places on the lists, and nothing is charged, made or deleted. */
  ghost predicate OthersInOrder(s: State, t: State, id: nat) {
    && Without(t.lru, id) == Without(s.lru, id) && Without(t.inUse, id) == Without(s.inUse, id)
    && t.usage == s.usage && t.made == s.made
  }

  /** A reference more: a cached entry is in use afterwards. */
  lemma {:induction false} ReferencedIs(s: State, id: nat)
    requires Listed(s.handles, s.lru, s.inUse, s.usage) && id in s.handles && (s.handles[id].inCache ==> s.handles[id].refs >= 1)
    ensures var t := Referenced(s, id);
            && t.handles == s.handles[id := s.handles[id].(refs := s.handles[id].refs + 1)] && t.deleted == s.deleted
            && OthersInOrder(s, t, id) && Listed(t.handles, t.lru, t.inUse, t.usage)
            && (s.handles[id].inCache ==> id in t.inUse && id !in t.lru)
  {
    hide Charges;
    var h := s.handles[id].(refs := s.handles[id].refs + 1);
    if s.handles[id].inCache && s.handles[id].refs == 1 {
      MovesToUse(s.handles, s.lru, s.inUse, s.usage, id, h);
    } else {
      ListsStay(s.handles, s.lru, s.inUse, s.usage, id, h);
    }
    MovedToEnd(s.lru, id);
    MovedToEnd(s.inUse, id);
  }

  /** A reference less: the entry is deleted with its last one, and joins the lru list as its newest when only the cache is left. */
  lemma {:induction false} UnreferencedIs(s: State, id: nat)
    requires Listed(s.handles, s.lru, s.inUse, s.usage) && id in s.handles && s.handles[id].refs > 0
    requires s.handles[id].inCache ==> s.handles[id].refs >= 2
    ensures var t := Unreferenced(s, id);
            && OthersInOrder(s, t, id) && Listed(t.handles, t.lru, t.inUse, t.usage)
            && t.handles == (if s.handles[id].refs == 1 then s.handles - {id}
                             else s.handles[id := s.handles[id].(refs := s.handles[id].refs - 1)])
            && t.deleted == s.deleted + (if s.handles[id].refs == 1 then [id] else [])
            && (s.handles[id].inCache && s.handles[id].refs == 2 ==> t.lru == s.lru + [id] && id !in t.inUse)
            && (s.handles[id].inCache && s.handles[id].refs > 2 ==> id in t.inUse && id !in t.lru)
  {
    hide Charges;
    var h := s.handles[id].(refs := s.handles[id].refs - 1);
    if s.handles[id].refs == 1 {
      ListsForget(s.handles, s.lru, s.inUse, s.usage, id);
    } else if s.handles[id].inCache && s.handles[id].refs == 2 {
      MovesToLru(s.handles, s.lru, s.inUse, s.usage, id, h);
      NotListed(s.lru, id);
    } else {
      ListsStay(s.handles, s.lru, s.inUse, s.usage, id, h);
    }
    MovedToEnd(s.lru, id);
    MovedToEnd(s.inUse, id);
  }

  lemma {:induction false} FoundIsCached(s: State, items: set<Item>, given: map<nat, nat>, it: Item)
    requires Consistent(s, items, None, given) && it in items
    ensures it.id in s.handles && s.handles[it.id].inCache && s.handles[it.id].refs >= 1 && it.id in given
    ensures Listed(s.handles, s.lru, s.inUse, s.usage)
  {
    hide Listed, DeletedOnce;
  }

  lemma {:induction false} ReferenceKeeps(s: State, items: set<Item>, given: map<nat, nat>, id: nat)
    requires Consistent(s, items, None, given) && id in s.handles && s.handles[id].inCache
    ensures id in given && Consistent(Referenced(s, id), items, None, given[id := given[id] + 1])
  {
    hide Listed, Without, TableIs, DeletedOnce;
    var h := s.handles[id].(refs := s.handles[id].refs + 1);
    OneRefChanges(s.handles, items, None, given, s.deleted, s.made, id, h, given[id] + 1);
    if s.handles[id].refs == 1 {
      MovesToUse(s.handles, s.lru, s.inUse, s.usage, id, h);
    } else {
      ListsStay(s.handles, s.lru, s.inUse, s.usage, id, h);
    }
  }

  /** A client gives a handle back. */
  lemma {:induction false} ReleaseKeeps(s: State, items: set<Item>, given: map<nat, nat>, id: nat)
    requires Consistent(s, items, None, given) && id in s.handles && id in given && given[id] > 0
    ensures s.handles[id].refs > 0
    ensures var t := Unreferenced(s, id);
            Consistent(t, items, None, if id in t.handles then given[id := given[id] - 1] else given - {id})
  {
    hide Listed, Without, TableIs, DeletedOnce;
    var h := s.handles[id].(refs := s.handles[id].refs - 1);
    if s.handles[id].refs == 1 {
      ListsForget(s.handles, s.lru, s.inUse, s.usage, id);
      OneIsFreed(s.handles, items, given, s.deleted, s.made, id);
    } else {
      OneRefChanges(s.handles, items, None, given, s.deleted, s.made, id, h, given[id] - 1);
      if s.handles[id].inCache && s.handles[id].refs == 2 {
        MovesToLru(s.handles, s.lru, s.inUse, s.usage, id, h);
      } else {
        ListsStay(s.handles, s.lru, s.inUse, s.usage, id, h);
      }
    }
  }

  /** An entry that the hash table no longer holds leaves the cache. */
  lemma {:induction false} EraseKeeps(s: State, items: set<Item>, given: map<nat, nat>, id: nat)
    requires Consistent(s, items, Some(id), given) && id in s.handles && s.handles[id].inCache
    ensures s.handles[id].refs > 0 && s.usage >= s.handles[id].charge
    ensures var t := Erased(s, id);
            Consistent(t, items, None, if id in t.handles then given else given - {id})
  {
    hide Listed, Without, TableIs, DeletedOnce;
    var h := s.handles[id].(inCache := false);
    LeavesLists(s.handles, s.lru, s.inUse, s.usage, id, h);
    var handles := s.handles[id := h];
    var lru, inUse, usage := Without(s.lru, id), Without(s.inUse, id), s.usage - h.charge;
    if h.refs == 1 {
      ListsForget(handles, lru, inUse, usage, id);
      assert handles - {id} == s.handles - {id};
      ErasedAndFreed(s.handles, items, given, s.deleted, s.made, id);
    } else {
      ListsStay(handles, lru, inUse, usage, id, h.(refs := h.refs - 1));
      assert handles[id := h.(refs := h.refs - 1)] == s.handles[id := h.(refs := h.refs - 1)];
      ErasedAndKept(s.handles, items, given, s.deleted, s.made, id);
    }
  }

  lemma {:induction false} ErasedAndFreed(handles: Handles, items: set<Item>, given: map<nat, nat>, deleted: seq<nat>, made: nat, id: nat)
    requires Accounted(handles, items, Some(id), given, deleted, made) && id in handles
    ensures Accounted(handles - {id}, items, None, given - {id}, deleted + [id], made)
  {
  }

  lemma {:induction false} ErasedAndKept(handles: Handles, items: set<Item>, given: map<nat, nat>, deleted: seq<nat>, made: nat, id: nat)
    requires Accounted(handles, items, Some(id), given, deleted, made) && id in handles
    requires handles[id].inCache && handles[id].refs > 1
    ensures Accounted(handles[id := handles[id].(inCache := false, refs := handles[id].refs - 1)], items, None, given, deleted, made)
  {
    var h := handles[id].(inCache := false, refs := handles[id].refs - 1);
    assert forall k :: k in handles[id := h] <==> k in handles;
  }

  /** The table takes an entry's item for a new one; an older entry of the same tag is then on the way out. */
  lemma {:induction false} InsertKeeps(s: State, items: set<Item>, given: map<nat, nat>, h: Handle, old_: Option<nat>, items': set<Item>)
    requires Consistent(s, items, None, given) && h.inCache && h.refs == 2
    requires old_ == None ==> items' == items + {Item(h.key, h.hash, s.made)}
    requires old_.Some? ==>
               && Item(h.key, h.hash, old_.value) in items
               && items' == items - {Item(h.key, h.hash, old_.value)} + {Item(h.key, h.hash, s.made)}
    ensures var t := s.(handles := s.handles[s.made := h], inUse := s.inUse + [s.made], usage := s.usage + h.charge, made := s.made + 1);
            Consistent(t, items', old_, given[s.made := 1])
    ensures old_.Some? ==> old_.value in s.handles && old_.value != s.made && s.handles[old_.value].inCache && s.handles[old_.value].refs > 0
  {
    hide Listed;
    JoinsLists(s.handles, s.lru, s.inUse, s.usage, s.made, h);
  }

  lemma {:induction false} InsertUncachedKeeps(s: State, items: set<Item>, given: map<nat, nat>, h: Handle)
    requires Consistent(s, items, None, given) && !h.inCache && h.refs == 1
    ensures var t := s.(handles := s.handles[s.made := h], made := s.made + 1);
            Consistent(t, items, None, given[s.made := 1])
  {
    hide Listed;
    ListsIgnore(s.handles, s.lru, s.inUse, s.usage, s.made, h);
  }

  /** An item taken out of the table leaves its entry on the way out. */
  lemma {:induction false} RemovalKeeps(s: State, items: set<Item>, given: map<nat, nat>, it: Item)
    requires Consistent(s, items, None, given) && it in items
    ensures it.id in s.handles && s.handles[it.id].inCache && s.handles[it.id].refs > 0
    ensures Consistent(s, items - {it}, Some(it.id), given)
  {
    hide Listed, DeletedOnce;
  }

  lemma {:induction false} OnLru(handles: Handles, lru: seq<nat>, inUse: seq<nat>, usage: nat)
    requires Listed(handles, lru, inUse, usage) && lru != []
    ensures lru[0] in handles && handles[lru[0]].inCache && handles[lru[0]].refs == 1
  {
    assert lru[0] in lru;
  }

  lemma {:induction false} LruAfterErase(s: State, id: nat)
    requires id in s.handles && s.handles[id].refs > 0
    ensures Erased(s, id).lru == Without(s.lru, id)
  {
  }

  /** Evicting the oldest entry takes it off the front of the list and frees it. */
  lemma {:induction false} OldestIsFreed(s: State)
    requires Listed(s.handles, s.lru, s.inUse, s.usage) && s.lru != []
    ensures var id := s.lru[0];
            && id in s.handles && s.handles[id].inCache && s.handles[id].refs == 1 && s.usage >= s.handles[id].charge
            && Erased(s, id) == s.(handles := s.handles - {id}, lru := s.lru[1..], usage := s.usage - s.handles[id].charge,
                                   deleted := s.deleted + [id])
  {
    OnLru(s.handles, s.lru, s.inUse, s.usage);
    var id := s.lru[0];
    NotListed(s.inUse, id);
    assert s.handles[id := s.handles[id].(inCache := false)] - {id} == s.handles - {id};
    assert s.lru == [id] + s.lru[1..];
  }

  /** The entries of lru that are gone are its first ones, and the last of them had to go. */
  ghost predicate EvictedFrom(lru: seq<nat>, handles: Handles, s: State, capacity: nat) {
    exists n: nat :: n <= |lru| && Evicted(lru, handles, s, n) && (n > 0 ==> s.usage + ChargeOf(handles, lru[n - 1]) > capacity)
  }

  ghost predicate Evicted(lru: seq<nat>, handles: Handles, s: State, n: nat) {
    n <= |lru| && s.lru == lru[n..] && forall i :: 0 <= i < n ==> lru[i] !in s.handles
  }

  function ChargeOf(handles: Handles, id: nat): nat {
    if id in handles then handles[id].charge else 0
  }

  lemma {:induction false} NewItem(s: State, items: set<Item>, given: map<nat, nat>, it: Item)
    requires Consistent(s, items, None, given) && it.id == s.made
    ensures it !in items && s.made !in s.handles
  {
  }

  lemma {:induction false} LruIsMade(s: State, items: set<Item>, given: map<nat, nat>)
    requires Consistent(s, items, None, given)
    ensures s.made !in s.handles && forall x :: x in s.lru ==> x in s.handles
    ensures forall id :: forall x :: x in Without(s.lru, id) ==> x in s.lru && x != id
  {
    forall id ensures forall x :: x in Without(s.lru, id) ==> x in s.lru && x != id {
      WithoutMembers(s.lru, id);
    }
  }

  /** Erasing one entry leaves the others alone. */
  lemma {:induction false} OthersStay(s: State, id: nat, other: nat)
    requires id in s.handles && s.handles[id].refs > 0 && other in s.handles && other != id
    ensures other in Erased(s, id).handles && Erased(s, id).handles[other] == s.handles[other]
  {
  }

  /** The entry of the same key that an insertion makes way for. */
  ghost predicate MadeWayFor(items: set<Item>, key: Bytes, hash: nat, replaced: Option<nat>) {
    match replaced
    case None => forall it :: it in items ==> !(it.key == key && it.hash == hash)
    case Some(id) => Item(key, hash, id) in items
  }

  lemma {:induction false} WayIsMade(items: set<Item>, it: Item, replaced: Option<nat>)
    requires replaced == None ==> forall other :: other in items ==> !SameTag(other, it)
    requires replaced.Some? ==> Item(it.key, it.hash, replaced.value) in items
    ensures MadeWayFor(items, it.key, it.hash, replaced)
  {
  }

  class LRUCache {
    var capacity: nat
    const table: HandleTable
    var s: State
    /** The handles that clients hold. */
    ghost var given: map<nat, nat>

    ghost predicate Ok()
      reads this, table
    {
      table.Ok() && Consistent(s, table.items, None, given)
    }

    constructor ()
      ensures Ok() && capacity == 0 && s.handles == map[] && fresh(table)
    {
      table := new HandleTable();
      capacity := 0;
      s := State(map[], [], [], 0, [], 0);
      given := map[];
    }

    method SetCapacity(capacity: nat)
      modifies this`capacity
      ensures this.capacity == capacity
    {
      this.capacity := capacity;
    }

    /** LRU_Remove. */
    method Unlist(id: nat)
      modifies this`s
      ensures s == Unlisted(old(s), id)
    {
      s := s.(lru := Without(s.lru, id), inUse := Without(s.inUse, id));
    }

    method Ref(id: nat)
      requires Listed(s.handles, s.lru, s.inUse, s.usage) && id in s.handles && (s.handles[id].inCache ==> s.handles[id].refs >= 1)
      modifies this`s
      ensures s == Referenced(old(s), id)
      ensures s.handles == old(s.handles)[id := old(s.handles)[id].(refs := old(s.handles)[id].refs + 1)] && s.deleted == old(s.deleted)
      ensures Listed(s.handles, s.lru, s.inUse, s.usage) && OthersInOrder(old(s), s, id)
      ensures old(s.handles)[id].inCache ==> id in s.inUse && id !in s.lru
    {
      hide Listed, Without, OthersInOrder;
      ReferencedIs(s, id);
      var h := s.handles[id];
      if h.refs == 1 && h.inCache {
        Unlist(id);
        s := s.(inUse := s.inUse + [id]);
      }
      s := s.(handles := s.handles[id := h.(refs := h.refs + 1)]);
    }

    method Unref(id: nat)
      requires Listed(s.handles, s.lru, s.inUse, s.usage) && id in s.handles && s.handles[id].refs > 0
      requires s.handles[id].inCache ==> s.handles[id].refs >= 2
      modifies this`s
      ensures s == Unreferenced(old(s), id)
      ensures s.handles == if old(s.handles)[id].refs == 1 then old(s.handles) - {id}
                           else old(s.handles)[id := old(s.handles)[id].(refs := old(s.handles)[id].refs - 1)]
      ensures s.deleted == old(s.deleted) + if old(s.handles)[id].refs == 1 then [id] else []
      ensures Listed(s.handles, s.lru, s.inUse, s.usage) && OthersInOrder(old(s), s, id)
      ensures old(s.handles)[id].inCache && old(s.handles)[id].refs == 2 ==> s.lru == old(s.lru) + [id] && id !in s.inUse
      ensures old(s.handles)[id].inCache && old(s.handles)[id].refs > 2 ==> id in s.inUse && id !in s.lru
    {
      hide Listed, Without, OthersInOrder;
      UnreferencedIs(s, id);
      var h := s.handles[id];
      var refs := h.refs - 1;
      if refs == 0 {
        s := s.(handles := s.handles - {id}, deleted := s.deleted + [id]);
      } else {
        if h.inCache && refs == 1 {
          Unlist(id);
          s := s.(lru := s.lru + [id]);
        }
        s := s.(handles := s.handles[id := h.(refs := refs)]);
      }
    }

    method FinishErase(id: nat)
      requires table.Ok() && Consistent(s, table.items, Some(id), given)
      requires id in s.handles && s.handles[id].inCache && s.handles[id].refs > 0
      modifies this`s, this`given
      ensures Ok() && s == Erased(old(s), id) && table.items == old(table.items)
      ensures given == if id in s.handles then old(given) else old(given) - {id}
    {
      hide Listed, TableIs, DeletedOnce, Without;
      EraseKeeps(s, table.items, given, id);
      LeavesLists(s.handles, s.lru, s.inUse, s.usage, id, s.handles[id].(inCache := false));
      Unlist(id);
      s := s.(handles := s.handles[id := s.handles[id].(inCache := false)], usage := Uncharged(s.usage, s.handles[id].charge));
      Unref(id);
      given := if id in s.handles then given else given - {id};
    }

    method Lookup(key: Bytes, hash: nat) returns (r: Option<nat>)
      requires Ok()
      modifies this`s, this`given
      ensures Ok() && table.items == old(table.items)
      ensures match r
              case Some(id) =>
                && Item(key, hash, id) in table.items && id in old(s.handles) && old(s.handles)[id].inCache
                && s == Referenced(old(s), id)
              case None => s == old(s) && forall it :: it in table.items ==> !(it.key == key && it.hash == hash)
    {
      hide Consistent, Without, OthersInOrder, Referenced, SameTag, Bucketed;
      r := table.Lookup(key, hash);
      if r.Some? {
        FoundIsCached(s, table.items, given, Item(key, hash, r.value));
        ReferenceKeeps(s, table.items, given, r.value);
        given := given[r.value := given[r.value] + 1];
        Ref(r.value);
      }
    }

    method Release(id: nat)
      requires Ok() && id in s.handles && id in given && given[id] > 0
      modifies this`s, this`given
      ensures Ok() && table.items == old(table.items)
      ensures old(s.handles)[id].refs > 0 && s == Unreferenced(old(s), id)
      ensures id in s.handles <==> old(given)[id] > 1 || old(s.handles)[id].inCache
      ensures given == if id in s.handles then old(given)[id := old(given)[id] - 1] else old(given) - {id}
    {
      hide Listed, TableIs, DeletedOnce, Without;
      ReleaseKeeps(s, table.items, given, id);
      ghost var g := given;
      Unref(id);
      given := if id in s.handles then g[id := g[id] - 1] else g - {id};
    }

    method Erase(key: Bytes, hash: nat)
      requires Ok()
      modifies this`s, this`given, table
      ensures Ok() && table.items == set it | it in old(table.items) && !(it.key == key && it.hash == hash)
      ensures table.items == old(table.items) ==> s == old(s)
      ensures forall it | it in old(table.items) && it.key == key && it.hash == hash ::
                it.id in old(s.handles) && old(s.handles)[it.id].refs > 0 && s == Erased(old(s), it.id)
    {
      hide Consistent, Erased;
      var r := table.Remove(key, hash);
      if r.Some? {
        RemovalKeeps(s, old(table.items), given, Item(key, hash, r.value));
        FinishErase(r.value);
      }
    }

    /** Drops the oldest entry that no client refers to. */
    method EvictOldest()
      requires Ok() && s.lru != []
      modifies this`s, this`given, table
      ensures Ok() && var id := old(s.lru)[0];
              && id in old(s.handles) && old(s.usage) >= old(s.handles)[id].charge
              && s == old(s).(handles := old(s.handles) - {id}, lru := old(s.lru)[1..], usage := old(s.usage) - old(s.handles)[id].charge,
                              deleted := old(s.deleted) + [id])
              && table.items == old(table.items) - {ItemOf(old(s.handles), id)}
      ensures forall x :: x in old(s.handles) && (old(s.handles)[x].refs > 1 || !old(s.handles)[x].inCache) ==>
                            && x in s.handles && s.handles[x] == old(s.handles)[x]
                            && (x in old(given) ==> x in given && given[x] == old(given)[x])
    {
      hide Listed, RefsAre, DeletedOnce;
      ghost var items := table.items;
      var id := s.lru[0];
      OnLru(s.handles, s.lru, s.inUse, s.usage);
      assert ItemOf(s.handles, id) in items;
      var r := table.Remove(s.handles[id].key, s.handles[id].hash);
      assert r.Some?;
      RemovalKeeps(s, items, given, ItemOf(s.handles, id));
      OldestIsFreed(s);
      ghost var was := s;
      FinishErase(id);
      forall x | x in was.handles && x != id ensures x in s.handles && s.handles[x] == was.handles[x] {
        OthersStay(was, id, x);
      }
    }

    method Prune()
      requires Ok()
      modifies this`s, this`given, table
      ensures Ok() && s.lru == [] && s.inUse == old(s.inUse)
      ensures forall x | x in old(s.handles) :: if x in old(s.lru) then x !in s.handles else x in s.handles && s.handles[x] == old(s.handles)[x]
    {
      hide Consistent;
      ghost var n := 0;
      while s.lru != []
        invariant Ok() && n <= |old(s.lru)| && s.lru == old(s.lru)[n..] && s.inUse == old(s.inUse)
        invariant forall x | x in old(s.handles) ::
                    if x in old(s.lru)[..n] then x !in s.handles else x in s.handles && s.handles[x] == old(s.handles)[x]
        decreases |s.lru|
      {
        assert old(s.lru)[..n + 1] == old(s.lru)[..n] + [s.lru[0]];
        EvictOldest();
        n := n + 1;
      }
      assert old(s.lru)[..n] == old(s.lru);
    }

    /** The cached half of Insert; an entry of the same tag makes way. */
    method InsertCached(h: Handle) returns (replaced: Option<nat>)
      requires Ok() && h.inCache && h.refs == 2
      modifies this`s, this`given, table
      ensures Ok() && var id := old(s.made); id in s.handles && s.handles[id] == h && id in given && given[id] == 1
      ensures MadeWayFor(old(table.items), h.key, h.hash, replaced)
      ensures s.lru == if replaced.Some? then Without(old(s.lru), replaced.value) else old(s.lru)
      ensures forall x | x in old(s.handles) && replaced != Some(x) :: x in s.handles && s.handles[x] == old(s.handles)[x]
    {
      hide Consistent, Erased, Bucketed, Without, MadeWayFor, Doubled;
      replaced := Enter(h);
      if replaced.Some? {
        FinishReplaced(replaced.value);
      }
    }

    /** The new entry goes into the table and onto the list of entries in use. */
    method Enter(h: Handle) returns (replaced: Option<nat>)
      requires Ok() && h.inCache && h.refs == 2
      modifies this`s, this`given, table
      ensures table.Ok() && Consistent(s, table.items, replaced, given)
      ensures MadeWayFor(old(table.items), h.key, h.hash, replaced)
      ensures replaced.Some? ==>
                replaced.value in s.handles && replaced.value != old(s.made) && s.handles[replaced.value].inCache && s.handles[replaced.value].refs > 0
      ensures s == old(s).(handles := old(s.handles)[old(s.made) := h], inUse := old(s.inUse) + [old(s.made)], usage := old(s.usage) + h.charge,
                           made := old(s.made) + 1)
      ensures given == old(given)[old(s.made) := 1] && old(s.made) !in old(s.handles)
    {
      hide Consistent, Erased, Bucketed, Doubled, LeastRoom, Without, MadeWayFor, SameTag;
      var id := s.made;
      NewItem(s, table.items, given, Item(h.key, h.hash, id));
      replaced := table.Insert(Item(h.key, h.hash, id));
      WayIsMade(old(table.items), Item(h.key, h.hash, id), replaced);
      InsertKeeps(s, old(table.items), given, h, replaced, table.items);
      s, given := s.(handles := s.handles[id := h], inUse := s.inUse + [id], usage := s.usage + h.charge, made := id + 1), given[id := 1];
    }

    /** FinishErase of an entry that another takes the place of; all others stay as they are. */
    method FinishReplaced(gone: nat)
      requires table.Ok() && Consistent(s, table.items, Some(gone), given)
      requires gone in s.handles && s.handles[gone].inCache && s.handles[gone].refs > 0
      modifies this`s, this`given
      ensures Ok() && table.items == old(table.items) && s.lru == Without(old(s.lru), gone)
      ensures forall x | x in old(s.handles) && x != gone :: x in s.handles && s.handles[x] == old(s.handles)[x]
      ensures forall x | x in old(given) && x != gone :: x in given && given[x] == old(given)[x]
    {
      hide Consistent, Erased, Bucketed, Without;
      ghost var was := s;
      FinishErase(gone);
      forall x | x in was.handles && x != gone ensures x in s.handles && s.handles[x] == was.handles[x] {
        OthersStay(was, gone, x);
      }
      LruAfterErase(was, gone);
    }

    /** The last loop of Insert: evicts until the charges fit, or nothing is left to evict. */
    method Shrink()
      requires Ok()
      modifies this`s, this`given, table
      ensures Ok() && (s.usage <= capacity || s.lru == [])
      ensures EvictedFrom(old(s.lru), old(s.handles), s, capacity)
      ensures forall x | x in old(s.handles) && (old(s.handles)[x].refs > 1 || !old(s.handles)[x].inCache) ::
                && x in s.handles && s.handles[x] == old(s.handles)[x]
                && (x in old(given) ==> x in given && given[x] == old(given)[x])
    {
      hide Consistent;
      ghost var n := 0;
      while s.usage > capacity && s.lru != []
        invariant Ok() && capacity == old(capacity)
        invariant Evicted(old(s.lru), old(s.handles), s, n) && (forall x :: x in s.handles ==> x in old(s.handles) && s.handles[x] == old(s.handles)[x])
        invariant n > 0 ==> s.usage + ChargeOf(old(s.handles), old(s.lru)[n - 1]) > capacity
        invariant forall x | x in old(s.handles) && (old(s.handles)[x].refs > 1 || !old(s.handles)[x].inCache) ::
                    && x in s.handles && s.handles[x] == old(s.handles)[x]
                    && (x in old(given) ==> x in given && given[x] == old(given)[x])
        decreases |s.lru|
      {
        EvictOldest();
        n := n + 1;
      }
    }

    /** Entries on the lru list that were there before have kept their charges. */
    lemma {:induction false} SameEvictions(lru: seq<nat>, was: Handles, mid: Handles)
      requires EvictedFrom(lru, mid, s, capacity)
      requires forall x | x in lru :: x in was && x in mid && was[x] == mid[x]
      ensures EvictedFrom(lru, was, s, capacity)
    {
      var n: nat :| n <= |lru| && Evicted(lru, mid, s, n) && (n > 0 ==> s.usage + ChargeOf(mid, lru[n - 1]) > capacity);
      assert Evicted(lru, was, s, n);
      assert n > 0 ==> lru[n - 1] in lru;
    }

    method Insert(key: Bytes, hash: nat, value: Bytes, charge: nat) returns (id: nat, ghost replaced: Option<nat>)
      requires Ok()
      modifies this`s, this`given, table
      ensures Ok() && id == old(s.made)
      ensures id in s.handles && id in given && given[id] == 1
      ensures s.handles[id] == Handle(key, hash, value, charge, capacity > 0, if capacity > 0 then 2 else 1)
      ensures s.usage <= capacity || s.lru == []
      ensures if capacity > 0 then MadeWayFor(old(table.items), key, hash, replaced) else replaced == None
      ensures EvictedFrom(if replaced.Some? then Without(old(s.lru), replaced.value) else old(s.lru), old(s.handles), s, capacity)
      ensures forall x | x in old(s.handles) && (old(s.handles)[x].refs > 1 || !old(s.handles)[x].inCache) && replaced != Some(x) ::
                x in s.handles && s.handles[x] == old(s.handles)[x]
    {
      hide Consistent, Erased, EvictedFrom, MadeWayFor;
      id, replaced := s.made, None;
      ghost var was, lru := s.handles, s.lru;
      LruIsMade(s, table.items, given);
      if capacity > 0 {
        replaced := InsertCached(Handle(key, hash, value, charge, true, 2));
      } else {
        var h := Handle(key, hash, value, charge, false, 1);
        InsertUncachedKeeps(s, table.items, given, h);
        s := s.(handles := s.handles[id := h], made := s.made + 1);
        given := given[id := 1];
      }
      ghost var mid := s.handles;
      Shrink();
      SameEvictions(if replaced.Some? then Without(lru, replaced.value) else lru, was, mid);
    }
  }
}
