/**
 The memtable's skip list (db/skiplist.h). Nodes live in an arena and refer to each other by their place in it;
 the head is the first. Readers run while a node is being linked in, so the invariant holds after every store.
 */
module SkipLists {
  import opened Keys
  import opened Version

  const MAX_HEIGHT: nat := 12
  const HEAD: nat := 0

  /** A key is a buffer; rank is its place in the order of the comparator. */
  datatype Key = Key(rank: real, buffer: Bytes)

  /** next[i] is the link at level i; a node takes part in as many levels as it has links. */
  datatype Node = Node(key: Key, next: seq<Option<nat>>)

  /** One level of the list, without the head. */
  type Chain = seq<nat>

  /** The node k steps from the head. */
  function NodeAt(chain: Chain, k: nat): nat
    requires k <= |chain|
  {
    if k == 0 then HEAD else chain[k - 1]
  }

  /** Where the link of that node must lead. */
  function LinkAt(chain: Chain, k: nat): Option<nat>
    requires k <= |chain|
  {
    if k < |chain| then Some(chain[k]) else None
  }

  /** The links at a level spell out the chain, whose keys increase. */
  ghost predicate Linked(arena: seq<Node>, level: nat, chain: Chain) {
    && arena != []
    && (forall k :: 0 <= k < |chain| ==> HEAD < chain[k] < |arena|)
    && (forall k :: 0 <= k <= |chain| ==> LinkOk(arena, level, chain, k))
    && (forall j, k :: 0 <= j < k < |chain| ==> Before(arena, chain[j], chain[k]))
  }

  ghost predicate Before(arena: seq<Node>, a: nat, b: nat) {
    a < |arena| && b < |arena| && arena[a].key.rank < arena[b].key.rank
  }

  ghost predicate LinkOk(arena: seq<Node>, level: nat, chain: Chain, k: nat)
    requires k <= |chain|
  {
    var n := NodeAt(chain, k);
    n < |arena| && level < |arena[n].next| && arena[n].next[level] == LinkAt(chain, k)
  }

  /** Every level is linked and holds only nodes of the level below. */
  ghost predicate Valid(arena: seq<Node>, chains: seq<Chain>) {
    && |chains| == MAX_HEIGHT
    && (forall l :: 0 <= l < MAX_HEIGHT ==> Linked(arena, l, chains[l]))
    && (forall l :: 0 < l < MAX_HEIGHT ==> HoldsOnlyBelow(chains, l))
  }

  ghost predicate HoldsOnlyBelow(chains: seq<Chain>, l: nat)
    requires 0 < l < |chains|
  {
    forall n :: n in chains[l] ==> n in chains[l - 1]
  }

  /** The first k nodes of the chain come before the key, the others do not. */
  ghost predicate SplitsAt(arena: seq<Node>, chain: Chain, k: nat, key: real)
    requires k <= |chain| && forall i :: 0 <= i < |chain| ==> chain[i] < |arena|
  {
    && (forall i :: 0 <= i < k ==> arena[chain[i]].key.rank < key)
    && (forall i :: k <= i < |chain| ==> key <= arena[chain[i]].key.rank)
  }

  class SkipList {
    var arena: seq<Node>
    var maxHeight: nat
    ghost var chains: seq<Chain>

    ghost predicate Ok()
      reads this
    {
      && Valid(arena, chains) && 1 <= maxHeight <= MAX_HEIGHT
      && forall l :: maxHeight <= l < MAX_HEIGHT ==> chains[l] == []
    }

    constructor ()
      ensures Ok() && chains[0] == []
    {
      arena := [Node(Key(0.0, []), seq(MAX_HEIGHT, i => None))];
      maxHeight := 1;
      chains := seq(MAX_HEIGHT, i => []);
    }

    /** The place in the chain below of the node at place k. */
    lemma {:induction false} PlaceBelow(level: nat, k: nat) returns (j: nat)
      requires Ok() && 0 < level < MAX_HEIGHT && k <= |chains[level]|
      ensures j <= |chains[level - 1]| && NodeAt(chains[level - 1], j) == NodeAt(chains[level], k)
      ensures k == 0 ==> j == 0
    {
      if k == 0 {
        j := 0;
      } else {
        assert HoldsOnlyBelow(chains, level) && chains[level][k - 1] in chains[level];
        var i :| 0 <= i < |chains[level - 1]| && chains[level - 1][i] == chains[level][k - 1];
        j := i + 1;
      }
    }

    /** prev holds at a level the node at place k, behind which the key belongs. */
    ghost predicate PrevAt(level: nat, n: nat, k: nat, key: real)
      requires Ok() && level < MAX_HEIGHT
      reads this
    {
      k <= |chains[level]| && n == NodeAt(chains[level], k) && SplitsAt(arena, chains[level], k, key)
    }

    /** The earliest node at or after the key, None when there is none. */
    ghost predicate IsFirstFrom(key: real, r: Option<nat>)
      requires Ok()
      reads this
    {
      exists k :: 0 <= k <= |chains[0]| && SplitsAt(arena, chains[0], k, key) && r == LinkAt(chains[0], k)
    }

    /**
     The earliest node at or after the key. A reader may see any height up to the largest, an old one or one
     that is not linked yet, so the search may start from any.
     */
    method FindGreaterOrEqual(key: real, height: nat) returns (r: Option<nat>, prev: seq<nat>, ghost ks: seq<nat>)
      requires Ok() && 1 <= height <= MAX_HEIGHT
      ensures |prev| == |ks| == height && forall l :: 0 <= l < height ==> PrevAt(l, prev[l], ks[l], key)
      ensures ks[0] <= |chains[0]| && SplitsAt(arena, chains[0], ks[0], key) && r == LinkAt(chains[0], ks[0])
      ensures IsFirstFrom(key, r)
    {
      var x, level := HEAD, height - 1;
      prev, ks := seq(height, i => HEAD), seq(height, i => 0);
      ghost var k: nat := 0;
      while true
        invariant level < height && k <= |chains[level]| && x == NodeAt(chains[level], k) && |prev| == |ks| == height
        invariant k > 0 ==> arena[x].key.rank < key
        invariant forall l :: level < l < height ==> PrevAt(l, prev[l], ks[l], key)
        decreases level, |chains[level]| - k
      {
        assert Linked(arena, level, chains[level]);
        assert LinkOk(arena, level, chains[level], k);
        var next := arena[x].next[level];
        if next.Some? && arena[next.value].key.rank < key {
          x := next.value;
          k := k + 1;
        } else {
          prev, ks := prev[level := x], ks[level := k];
          if level == 0 {
            r := next;
            return;
          }
          k := PlaceBelow(level, k);
          level := level - 1;
        }
      }
    }

    /** The latest node before the key, or the head. */
    method FindLessThan(key: real, height: nat) returns (x: nat)
      requires Ok() && 1 <= height <= MAX_HEIGHT
      ensures exists k :: 0 <= k <= |chains[0]| && x == NodeAt(chains[0], k) && SplitsAt(arena, chains[0], k, key)
    {
      x := HEAD;
      var level := height - 1;
      ghost var k: nat := 0;
      while true
        invariant level < height && k <= |chains[level]| && x == NodeAt(chains[level], k)
        invariant k > 0 ==> arena[x].key.rank < key
        decreases level, |chains[level]| - k
      {
        assert Linked(arena, level, chains[level]);
        assert LinkOk(arena, level, chains[level], k);
        var next := arena[x].next[level];
        if next == None || arena[next.value].key.rank >= key {
          if level == 0 {
            return;
          }
          k := PlaceBelow(level, k);
          level := level - 1;
        } else {
          x := next.value;
          k := k + 1;
        }
      }
    }

    /** The last node, or the head. */
    method FindLast(height: nat) returns (x: nat)
      requires Ok() && 1 <= height <= MAX_HEIGHT
      ensures x == NodeAt(chains[0], |chains[0]|)
    {
      x := HEAD;
      var level := height - 1;
      ghost var k: nat := 0;
      while true
        invariant level < height && k <= |chains[level]| && x == NodeAt(chains[level], k)
        decreases level, |chains[level]| - k
      {
        assert Linked(arena, level, chains[level]);
        assert LinkOk(arena, level, chains[level], k);
        var next := arena[x].next[level];
        if next == None {
          if level == 0 {
            return;
          }
          k := PlaceBelow(level, k);
          level := level - 1;
        } else {
          x := next.value;
          k := k + 1;
        }
      }
    }

    /** SetNext on a node that is not linked at the level yet; no search can see it. */
    method StoreUnseen(x: nat, level: nat, value: Option<nat>)
      requires Ok() && HEAD < x < |arena| && level < |arena[x].next| && level < MAX_HEIGHT && x !in chains[level]
      modifies this`arena
      ensures Ok() && arena == old(arena)[x := old(arena)[x].(next := old(arena)[x].next[level := value])]
    {
      ghost var was := arena;
      arena := arena[x := arena[x].(next := arena[x].next[level := value])];
      forall l | 0 <= l < MAX_HEIGHT ensures Linked(arena, l, chains[l]) {
        UnseenKeeps(was, arena, x, level, l, chains[l]);
      }
    }

    /** SetNext on a linked node: the store that publishes x at the level. */
    method Publish(p: nat, x: nat, level: nat, ghost k: nat)
      requires Ok() && level < MAX_HEIGHT && k <= |chains[level]| && p == NodeAt(chains[level], k)
      requires HEAD < x < |arena| && level < |arena[x].next| && arena[x].next[level] == LinkAt(chains[level], k)
      requires SplitsAt(arena, chains[level], k, arena[x].key.rank) && (k < |chains[level]| ==> arena[chains[level][k]].key.rank != arena[x].key.rank)
      requires (level > 0 ==> x in chains[level - 1]) && level < maxHeight
      requires p < |arena| && level < |arena[p].next|
      modifies this`arena, this`chains
      ensures Ok()
      ensures arena == old(arena)[p := old(arena)[p].(next := old(arena)[p].next[level := Some(x)])]
      ensures chains == old(chains)[level := old(chains)[level][..k] + [x] + old(chains)[level][k..]]
    {
      ghost var was, cs := arena, chains;
      assert LinkOk(arena, level, chains[level], k);
      arena := arena[p := arena[p].(next := arena[p].next[level := Some(x)])];
      chains := chains[level := chains[level][..k] + [x] + chains[level][k..]];
      forall l | 0 <= l < MAX_HEIGHT ensures Linked(arena, l, chains[l]) {
        if l == level {
          PublishLinks(was, arena, p, x, level, cs[level], k);
        } else {
          UnseenKeeps(was, arena, p, level, l, cs[l]);
        }
      }
      forall l | 0 < l < MAX_HEIGHT ensures HoldsOnlyBelow(chains, l) {
        assert HoldsOnlyBelow(cs, l);
        InsertedMembers(cs[level], k, x);
      }
    }

    /** One level of Insert: the new node's link first, then the store that publishes it. */
    method LinkIn(p: nat, x: nat, level: nat, ghost k: nat)
      requires Ok() && level < MAX_HEIGHT && k <= |chains[level]| && p == NodeAt(chains[level], k)
      requires HEAD < x < |arena| && level < |arena[x].next| && x !in chains[level]
      requires SplitsAt(arena, chains[level], k, arena[x].key.rank) && (k < |chains[level]| ==> arena[chains[level][k]].key.rank != arena[x].key.rank)
      requires (level > 0 ==> x in chains[level - 1]) && level < maxHeight
      modifies this`arena, this`chains
      ensures Ok() && |arena| == |old(arena)|
      ensures forall n :: 0 <= n < |arena| ==> arena[n].key == old(arena)[n].key && |arena[n].next| == |old(arena)[n].next|
      ensures chains == old(chains)[level := old(chains)[level][..k] + [x] + old(chains)[level][k..]]
    {
      assert Linked(arena, level, chains[level]);
      assert LinkOk(arena, level, chains[level], k);
      StoreUnseen(x, level, arena[p].next[level]);
      Publish(p, x, level, k);
    }

    /**
     The key must be new. The height is the outcome of RandomHeight. The list is valid after every store, so
     every search in between finds its way; at the end the key is in its place among the others.
     */
    method Insert(key: Key, height: nat) returns (ghost k: nat)
      requires Ok() && 1 <= height <= MAX_HEIGHT
      requires forall n :: n in chains[0] ==> n < |arena| && arena[n].key.rank != key.rank
      modifies this
      ensures Ok()
      ensures InsertedAt(old(Keys()), k, key, Keys())
      // The node takes part in the lowest height levels and in no other.
      ensures forall l: nat :: l < MAX_HEIGHT ==> JoinsLevel(old(arena), old(chains), l, key, height, arena, chains)
      ensures maxHeight == if old(maxHeight) < height then height else old(maxHeight)
    {
      hide Valid, Linked, LinkOk, SplitsAt, HoldsOnlyBelow, KeysOf, JoinsLevel;
      ghost var was, cs, keys := arena, chains, Keys();
      InBounds();
      var r, prev, ks := FindGreaterOrEqual(key.rank, maxHeight);
      if height > maxHeight {
        prev := prev + seq(height - maxHeight, i => HEAD);
        ks := ks + seq(height - maxHeight, i => 0);
        forall l | maxHeight <= l < height ensures SplitsAt(was, cs[l], 0, key.rank) {
          NothingSplits(was, cs[l], key.rank);
        }
        maxHeight := height;
      }
      assert forall l :: 0 <= l < height ==> ks[l] <= |cs[l]| && prev[l] == NodeAt(cs[l], ks[l]) && SplitsAt(was, cs[l], ks[l], key.rank);
      var x := NewNode(key, height);
      LinkAll(x, prev, height, was, cs, ks);
      k := ks[0];
      InsertedKeys(was, arena, cs[0], k, x);
      AllJoin(was, cs, ks, key, height, x, arena, chains);
      assert keys == KeysOf(was, cs[0]);
    }

    /** Links the node in at one level after another, from the lowest up. */
    method LinkAll(x: nat, prev: seq<nat>, height: nat, ghost was: seq<Node>, ghost cs: seq<Chain>, ghost ks: seq<nat>)
      requires Ok() && 1 <= height <= maxHeight && |prev| >= height && |ks| >= height && cs == chains
      requires HEAD < x < |arena| && |arena[x].next| == height && SameKeys(was, arena)
      requires forall l :: 0 <= l < MAX_HEIGHT ==> x !in cs[l]
      requires forall l, k :: 0 <= l < MAX_HEIGHT && 0 <= k < |cs[l]| ==> cs[l][k] < |was|
      requires forall l :: 0 <= l < height ==>
                 ks[l] <= |cs[l]| && prev[l] == NodeAt(cs[l], ks[l]) && SplitsAt(was, cs[l], ks[l], arena[x].key.rank)
      requires forall n :: n in cs[0] ==> n < |arena| && arena[n].key.rank != arena[x].key.rank
      modifies this`arena, this`chains
      ensures Ok() && x < |arena| && arena[x].key == old(arena[x].key) && SameKeys(was, arena)
      ensures |chains| == MAX_HEIGHT
      ensures forall l :: 0 <= l < MAX_HEIGHT ==> chains[l] == if l < height then cs[l][..ks[l]] + [x] + cs[l][ks[l]..] else cs[l]
    {
      hide Valid, Linked, LinkOk, SplitsAt, HoldsOnlyBelow;
      InBounds();
      ghost var key := arena[x].key;
      for level := 0 to height
        invariant Ok() && |chains| == |cs|
        invariant x < |arena| && arena[x].key == key && |arena[x].next| == height
        invariant SameKeys(old(arena), arena) && SameKeys(was, arena)
        invariant forall l :: level <= l < MAX_HEIGHT ==> chains[l] == cs[l]
        invariant level > 0 ==> x in chains[level - 1]
        invariant forall l :: 0 <= l < level ==> chains[l] == cs[l][..ks[l]] + [x] + cs[l][ks[l]..]
      {
        SplitsSame(was, arena, cs[level], ks[level], key.rank);
        if ks[level] < |cs[level]| {
          InLowest(cs, level, cs[level][ks[level]]);
        }
        LinkIn(prev[level], x, level, ks[level]);
        InsertedMembers(cs[level], ks[level], x);
      }
    }

    lemma {:induction false} InBounds()
      requires Ok()
      ensures |chains| == MAX_HEIGHT && |arena| > 0
      ensures forall l, k :: 0 <= l < MAX_HEIGHT && 0 <= k < |chains[l]| ==> chains[l][k] < |arena|
      ensures forall l :: 0 < l < MAX_HEIGHT ==> HoldsOnlyBelow(chains, l)
    {
      assert Linked(arena, 0, chains[0]);
      forall l, k | 0 <= l < MAX_HEIGHT && 0 <= k < |chains[l]| ensures chains[l][k] < |arena| {
        assert Linked(arena, l, chains[l]);
      }
    }

    method NewNode(key: Key, height: nat) returns (x: nat)
      requires Ok()
      modifies this`arena
      ensures Ok() && x == |old(arena)| && arena == old(arena) + [Node(key, seq(height, i => None))]
      ensures forall l :: 0 <= l < MAX_HEIGHT ==> x !in chains[l]
    {
      x := |arena|;
      ghost var was := arena;
      forall l | 0 <= l < MAX_HEIGHT ensures Linked(was + [Node(key, seq(height, i => None))], l, chains[l]) {
        NodeAdded(was, Node(key, seq(height, i => None)), l, chains[l]);
      }
      arena := arena + [Node(key, seq(height, i => None))];
    }

    lemma {:induction false} KeysIncrease()
      requires Ok()
      ensures forall i, j :: 0 <= i < j < |Keys()| ==> Keys()[i].rank < Keys()[j].rank
    {
      assert Linked(arena, 0, chains[0]);
      forall i, j | 0 <= i < j < |Keys()| ensures Keys()[i].rank < Keys()[j].rank {
        assert Before(arena, chains[0][i], chains[0][j]);
      }
    }

    /** The keys in order. */
    ghost function Keys(): seq<Key>
      requires Ok()
      reads this
    {
      KeysOf(arena, chains[0])
    }
  }

  /** At a level below height the key is added at its place among those there; above it nothing changes. */
  ghost predicate JoinsLevel(was: seq<Node>, cs: seq<Chain>, l: nat, key: Key, height: nat, arena: seq<Node>, chains: seq<Chain>)
    requires l < |cs| == |chains|
  {
    && (forall i :: 0 <= i < |cs[l]| ==> cs[l][i] < |was|) && (forall i :: 0 <= i < |chains[l]| ==> chains[l][i] < |arena|)
    && if l < height then exists k :: InsertedAt(KeysOf(was, cs[l]), k, key, KeysOf(arena, chains[l])) else chains[l] == cs[l]
  }

  lemma {:induction false} AllJoin(was: seq<Node>, cs: seq<Chain>, ks: seq<nat>, key: Key, height: nat, x: nat, arena: seq<Node>, chains: seq<Chain>)
    requires |cs| == |chains| == MAX_HEIGHT && height <= MAX_HEIGHT && height <= |ks|
    requires SameKeys(was, arena) && x < |arena| && arena[x].key == key
    requires forall l, k :: 0 <= l < MAX_HEIGHT && 0 <= k < |cs[l]| ==> cs[l][k] < |was|
    requires forall l :: 0 <= l < height ==> ks[l] <= |cs[l]|
    requires forall l :: 0 <= l < MAX_HEIGHT ==> chains[l] == if l < height then cs[l][..ks[l]] + [x] + cs[l][ks[l]..] else cs[l]
    ensures forall l: nat :: l < MAX_HEIGHT ==> JoinsLevel(was, cs, l, key, height, arena, chains)
  {
    hide KeysOf;
    forall l: nat | l < MAX_HEIGHT ensures JoinsLevel(was, cs, l, key, height, arena, chains) {
      if l < height {
        var chain := cs[l];
        InsertedKeys(was, arena, chain, ks[l], x);
        assert chains[l] == chain[..ks[l]] + [x] + chain[ks[l]..];
        assert forall i :: 0 <= i < |chains[l]| ==> chains[l][i] in chains[l];
        assert InsertedAt(KeysOf(was, chain), ks[l], key, KeysOf(arena, chains[l]));
      }
    }
  }

  ghost predicate InsertedAt(keys: seq<Key>, k: nat, key: Key, more: seq<Key>) {
    k <= |keys| && more == keys[..k] + [key] + keys[k..]
  }

  /** The nodes of one arena keep their keys in the other. */
  ghost predicate SameKeys(was: seq<Node>, arena: seq<Node>) {
    |was| <= |arena| && forall n :: 0 <= n < |was| ==> arena[n].key == was[n].key
  }

  ghost function KeysOf(arena: seq<Node>, chain: Chain): (keys: seq<Key>)
    requires forall k :: 0 <= k < |chain| ==> chain[k] < |arena|
    ensures |keys| == |chain|
  {
    seq(|chain|, i requires 0 <= i < |chain| => arena[chain[i]].key)
  }

  lemma {:induction false} NodeAdded(was: seq<Node>, node: Node, l: nat, chain: Chain)
    requires Linked(was, l, chain)
    ensures Linked(was + [node], l, chain)
  {
    forall k | 0 <= k <= |chain| ensures LinkOk(was + [node], l, chain, k) {
      assert LinkOk(was, l, chain, k);
    }
    forall j, k | 0 <= j < k < |chain| ensures Before(was + [node], chain[j], chain[k]) {
      assert Before(was, chain[j], chain[k]);
    }
  }

  /** Higher levels hold no other nodes than the lowest. */
  lemma {:induction false} InLowest(chains: seq<Chain>, level: nat, n: nat)
    requires level < |chains| && n in chains[level]
    requires forall l :: 0 < l < |chains| ==> HoldsOnlyBelow(chains, l)
    ensures n in chains[0]
    decreases level
  {
    if level > 0 {
      assert HoldsOnlyBelow(chains, level);
      InLowest(chains, level - 1, n);
    }
  }

  lemma {:induction false} SplitsSame(was: seq<Node>, arena: seq<Node>, chain: Chain, k: nat, key: real)
    requires SameKeys(was, arena) && k <= |chain| && (forall i :: 0 <= i < |chain| ==> chain[i] < |was|)
    requires SplitsAt(was, chain, k, key)
    ensures SplitsAt(arena, chain, k, key)
  {
  }

  lemma {:induction false} NothingSplits(arena: seq<Node>, chain: Chain, key: real)
    requires chain == []
    ensures SplitsAt(arena, chain, 0, key)
  {
  }

  lemma {:induction false} InsertedKeys(was: seq<Node>, arena: seq<Node>, chain: Chain, k: nat, x: nat)
    requires SameKeys(was, arena) && k <= |chain| && x < |arena| && forall i :: 0 <= i < |chain| ==> chain[i] < |was|
    ensures forall n :: n in chain[..k] + [x] + chain[k..] ==> n < |arena|
    ensures KeysOf(arena, chain[..k] + [x] + chain[k..])
         == KeysOf(was, chain)[..k] + [arena[x].key] + KeysOf(was, chain)[k..]
  {
    assert forall i :: 0 <= i < |chain| ==> arena[chain[i]].key == was[chain[i]].key;
  }

  lemma {:induction false} InsertedMembers(chain: Chain, k: nat, x: nat)
    requires k <= |chain|
    ensures forall n :: n in chain[..k] + [x] + chain[k..] <==> n == x || n in chain
  {
    assert chain == chain[..k] + chain[k..];
  }

  /** A store at another level, or on a node that is not linked at this one, keeps the level. */
  lemma {:induction false} UnseenKeeps(was: seq<Node>, arena: seq<Node>, x: nat, level: nat, l: nat, chain: Chain)
    requires Linked(was, l, chain) && x < |was| && |arena| == |was| && level < |was[x].next|
    requires arena[x].key == was[x].key && |arena[x].next| == |was[x].next|
    requires forall i :: 0 <= i < |was[x].next| && i != level ==> arena[x].next[i] == was[x].next[i]
    requires forall n :: 0 <= n < |was| && n != x ==> arena[n] == was[n]
    requires l == level ==> x != HEAD && x !in chain
    ensures Linked(arena, l, chain)
  {
    forall k | 0 <= k <= |chain| ensures LinkOk(arena, l, chain, k) {
      assert LinkOk(was, l, chain, k);
    }
    forall j, k | 0 <= j < k < |chain| ensures Before(arena, chain[j], chain[k]) {
      assert Before(was, chain[j], chain[k]);
    }
  }

  lemma {:induction false} PublishLinks(was: seq<Node>, arena: seq<Node>, p: nat, x: nat, level: nat, chain: Chain, k: nat)
    requires Linked(was, level, chain) && k <= |chain| && p == NodeAt(chain, k)
    requires HEAD < x < |was| && level < |was[x].next| && was[x].next[level] == LinkAt(chain, k)
    requires SplitsAt(was, chain, k, was[x].key.rank) && (k < |chain| ==> was[chain[k]].key.rank != was[x].key.rank)
    requires p < |was| && level < |was[p].next|
    requires arena == was[p := was[p].(next := was[p].next[level := Some(x)])]
    ensures Linked(arena, level, chain[..k] + [x] + chain[k..])
  {
    var longer := chain[..k] + [x] + chain[k..];
    forall i | 0 <= i <= |longer| ensures LinkOk(arena, level, longer, i) {
      assert LinkOk(was, level, chain, if i <= k then i else i - 1);
      PlacesDiffer(was, level, chain, k, if i <= k then i else i - 1);
    }
    forall i, j | 0 <= i < j < |longer| ensures Before(arena, longer[i], longer[j]) {
      if i != k && j != k {
        assert Before(was, chain[if i < k then i else i - 1], chain[if j < k then j else j - 1]);
      } else if k < |chain| && j > k + 1 {
        assert Before(was, chain[k], chain[j - 1]);
      }
    }
  }

  /** Different places of a chain are different nodes. */
  lemma {:induction false} PlacesDiffer(arena: seq<Node>, level: nat, chain: Chain, j: nat, k: nat)
    requires Linked(arena, level, chain) && j <= |chain| && k <= |chain|
    ensures NodeAt(chain, j) == NodeAt(chain, k) ==> j == k
  {
    if 0 < j < k {
      assert Before(arena, chain[j - 1], chain[k - 1]);
    } else if 0 < k < j {
      assert Before(arena, chain[k - 1], chain[j - 1]);
    }
  }
}