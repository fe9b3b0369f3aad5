/**
 Blocks (table/block_builder.cc, table/block.cc): prefix-compressed entries with restart points, byte for
 byte, and the iterator that reads them in both directions.
 */
module Blocks {
  import opened Keys
  import opened Version
  import opened Coding

  datatype Pair = Pair(key: Bytes, value: Bytes)

  const LIMIT: nat := 0x1_0000_0000

  /** Truncation to 32 bits. */
  function U32(x: nat): (r: nat)
    ensures r < LIMIT && (x < LIMIT ==> r == x)
  {
    if x < LIMIT then x else x % LIMIT
  }

  // ---------------------------------------------------------------------------------------------
  // The bytes of a block
  // ---------------------------------------------------------------------------------------------

  /** The three lengths in front of an entry. */
  function EntryHeader(shared: nat, p: Pair): Bytes
    requires shared <= |p.key|
  {
    Varint(shared) + Varint(|p.key| - shared) + Varint(|p.value|)
  }

  function EntryBytes(shared: nat, p: Pair): (r: Bytes)
    requires shared <= |p.key|
    ensures |r| >= 3
  {
    EntryHeader(shared, p) + p.key[shared..] + p.value
  }

  /** Where the entries of a block start, how much each shares with the one before, and the restart points. */
  datatype Layout = Layout(entries: seq<Pair>, starts: seq<nat>, shared: seq<nat>, restartAt: seq<nat>)

  /** Entry i of the layout shares a prefix with the entry before it; the first shares nothing. */
  ghost predicate SharesPrefix(l: Layout, i: nat)
    requires i < |l.entries| == |l.shared|
  {
    && l.shared[i] <= |l.entries[i].key|
    && (i == 0 ==> l.shared[i] == 0)
    && (i > 0 ==> l.shared[i] <= |l.entries[i - 1].key| && l.entries[i].key[..l.shared[i]] == l.entries[i - 1].key[..l.shared[i]])
  }

  /** Entry i of the layout lies in the buffer where the layout says. */
  ghost predicate EntryLies(buffer: Bytes, l: Layout, i: nat)
    requires i < |l.entries| == |l.shared| && |l.starts| == |l.entries| + 1
  {
    && SharesPrefix(l, i)
    && l.starts[i] + |EntryBytes(l.shared[i], l.entries[i])| == l.starts[i + 1] <= |buffer|
    && buffer[l.starts[i]..l.starts[i + 1]] == EntryBytes(l.shared[i], l.entries[i])
  }

  ghost predicate Laid(buffer: Bytes, l: Layout) {
    && |l.shared| == |l.entries| && |l.starts| == |l.entries| + 1
    && l.starts[0] == 0 && l.starts[|l.entries|] == |buffer|
    && (forall i :: 0 <= i < |l.entries| ==> EntryLies(buffer, l, i))
  }

  /** The restart points are starts of entries that share nothing, the first entry among them. */
  ghost predicate RestartsAt(l: Layout, restarts: seq<nat>)
    requires |l.shared| == |l.entries| && |l.starts| == |l.entries| + 1
  {
    && |restarts| == |l.restartAt| > 0 && l.restartAt[0] == 0
    && (forall j :: 0 <= j < |restarts| ==>
          && l.restartAt[j] <= |l.entries| && restarts[j] == l.starts[l.restartAt[j]]
          && (l.restartAt[j] < |l.entries| ==> l.shared[l.restartAt[j]] == 0))
    && (|l.entries| > 0 ==> forall j :: 0 <= j < |restarts| ==> l.restartAt[j] < |l.entries|)
    && (|l.entries| == 0 ==> |restarts| == 1)
    && (forall j, k :: 0 <= j < k < |restarts| ==> l.restartAt[j] < l.restartAt[k])
  }

  function Fixed32Array(a: seq<nat>): (r: Bytes)
    ensures |r| == 4 * |a|
  {
    if a == [] then [] else Fixed32Array(a[..|a| - 1]) + EncodeFixed32(U32(a[|a| - 1]))
  }

  /** A finished block: the entries, the restart points and their number. */
  ghost predicate IsBlock(data: Bytes, l: Layout, restarts: seq<nat>) {
    && |data| < LIMIT
    && exists buffer :: Laid(buffer, l) && RestartsAt(l, restarts)
         && data == buffer + Fixed32Array(restarts) + EncodeFixed32(U32(|restarts|))
  }

  // ---------------------------------------------------------------------------------------------
  // The builder
  // ---------------------------------------------------------------------------------------------

  lemma {:induction false} LaidGrows(buffer: Bytes, l: Layout, more: Bytes, shared: nat, p: Pair, m: Layout)
    requires Laid(buffer, l) && shared <= |p.key| && more == buffer + EntryBytes(shared, p)
    requires m.entries == l.entries + [p] && m.shared == l.shared + [shared] && m.starts == l.starts + [|more|]
    requires SharesPrefix(m, |l.entries|)
    ensures Laid(more, m)
  {
    forall i | 0 <= i < |m.entries| ensures EntryLies(more, m, i) {
      if i < |l.entries| {
        assert EntryLies(buffer, l, i);
        assert more[l.starts[i]..l.starts[i + 1]] == buffer[l.starts[i]..l.starts[i + 1]];
      }
    }
  }

  /** m is l with one more entry. */
  ghost predicate OneMore(l: Layout, m: Layout, end: nat) {
    && |l.shared| == |l.entries| && |l.starts| == |l.entries| + 1
    && |m.entries| == |l.entries| + 1 && m.entries[..|l.entries|] == l.entries
    && |m.shared| == |l.shared| + 1 && m.shared[..|l.shared|] == l.shared
    && m.starts == l.starts + [end]
  }

  lemma {:induction false} RestartsKept(l: Layout, restarts: seq<nat>, m: Layout, end: nat)
    requires OneMore(l, m, end) && RestartsAt(l, restarts) && m.restartAt == l.restartAt
    requires l.entries == [] ==> m.shared[0] == 0
    ensures RestartsAt(m, restarts)
  {
  }

  lemma {:induction false} RestartsAdded(l: Layout, restarts: seq<nat>, m: Layout, end: nat)
    requires OneMore(l, m, end) && RestartsAt(l, restarts) && l.entries != []
    requires m.restartAt == l.restartAt + [|l.entries|] && m.shared[|l.entries|] == 0
    ensures RestartsAt(m, restarts + [l.starts[|l.entries|]])
  {
  }

  lemma {:induction false} Added(buffer: Bytes, l: Layout, restarts: seq<nat>, shared: nat, p: Pair, more: Bytes, m: Layout, restarts2: seq<nat>)
    requires Laid(buffer, l) && RestartsAt(l, restarts)
    requires shared <= |p.key| && more == buffer + EntryBytes(shared, p)
    requires m.entries == l.entries + [p] && m.shared == l.shared + [shared] && m.starts == l.starts + [|more|]
    requires SharesPrefix(m, |l.entries|)
    requires
      || (m.restartAt == l.restartAt && restarts2 == restarts)
      || (l.entries != [] && shared == 0 && m.restartAt == l.restartAt + [|l.entries|] && restarts2 == restarts + [|buffer|])
    ensures Laid(more, m) && RestartsAt(m, restarts2)
  {
    LaidGrows(buffer, l, more, shared, p, m);
    if m.restartAt == l.restartAt {
      RestartsKept(l, restarts, m, |more|);
    } else {
      RestartsAdded(l, restarts, m, |more|);
    }
  }

  /** Restart points come every interval entries; counter is the distance to the last one. */
  ghost predicate Spaced(at: seq<nat>, n: nat, counter: nat, interval: nat) {
    && at != [] && n == at[|at| - 1] + counter
    && forall j :: 0 < j < |at| ==> at[j] == at[j - 1] + interval
  }

  lemma {:induction false} SpacedOn(at: seq<nat>, n: nat, counter: nat, interval: nat)
    requires Spaced(at, n, counter, interval)
    ensures Spaced(at, n + 1, counter + 1, interval)
    ensures counter == interval ==> Spaced(at + [n], n + 1, 1, interval)
  {
  }

  /** What two keys have in common in front, and no less. */
  predicate LongestShared(a: Bytes, b: Bytes, n: nat) {
    n <= |a| && n <= |b| && a[..n] == b[..n] && (n < |a| && n < |b| ==> a[n] != b[n])
  }

  /** An entry at a restart point shares nothing, any other all it can. */
  predicate Compressed(l: Layout, i: nat)
    requires i < |l.entries| == |l.shared|
  {
    if i in l.restartAt then l.shared[i] == 0 else i > 0 && LongestShared(l.entries[i - 1].key, l.entries[i].key, l.shared[i])
  }

  lemma {:induction false} CompressedMore(l: Layout, m: Layout)
    requires |l.shared| == |l.entries| && |m.shared| == |m.entries| == |l.entries| + 1
    requires m.entries[..|l.entries|] == l.entries && m.shared[..|l.shared|] == l.shared
    requires m.restartAt == l.restartAt || m.restartAt == l.restartAt + [|l.entries|]
    requires forall i :: 0 <= i < |l.entries| ==> Compressed(l, i)
    requires Compressed(m, |l.entries|)
    ensures forall i :: 0 <= i < |m.entries| ==> Compressed(m, i)
  {
    hide LongestShared;
    forall i | 0 <= i < |l.entries| ensures Compressed(m, i) {
      assert Compressed(l, i);
    }
  }

  lemma {:induction false} RestartsBelow(at: seq<nat>, n: nat, counter: nat, interval: nat)
    requires Spaced(at, n, counter, interval)
    ensures n in at <==> counter == 0
  {
    forall i | 0 <= i < |at| ensures at[i] <= at[|at| - 1] {
      SpacedUp(at, i, n, counter, interval);
    }
  }

  /** Sharing with the last entry off a restart point, and nothing at one, is what compression asks for. */
  lemma {:induction false} Compresses(l: Layout, restarts: seq<nat>, counter: nat, interval: nat, shared: nat, m: Layout)
    requires |l.shared| == |l.entries| && |l.starts| == |l.entries| + 1 && |m.entries| == |m.shared| == |l.entries| + 1
    requires RestartsAt(l, restarts) && Spaced(l.restartAt, |l.entries|, counter, interval)
    requires m.entries[..|l.entries|] == l.entries && m.shared[|l.entries|] == shared
    requires
      || (m.restartAt == l.restartAt + [|l.entries|] && shared == 0)
      || (m.restartAt == l.restartAt
          && LongestShared(if l.entries == [] then [] else l.entries[|l.entries| - 1].key, m.entries[|l.entries|].key, shared))
    ensures Compressed(m, |l.entries|)
  {
    RestartsBelow(l.restartAt, |l.entries|, counter, interval);
    if l.entries == [] {
      assert l.restartAt[0] == 0;
    } else {
      assert m.entries[|l.entries| - 1] == l.entries[|l.entries| - 1];
    }
  }

  /** What an added entry does to the buffer, the restart points and the layout. */
  lemma {:induction false} Grown(buffer: Bytes, l: Layout, restarts: seq<nat>, counter: nat, interval: nat, shared: nat, p: Pair, more: Bytes,
                                 m: Layout, restarts2: seq<nat>)
    requires |l.shared| == |l.entries| && |l.starts| == |l.entries| + 1 && 1 <= interval && counter <= interval
    requires Laid(buffer, l) && RestartsAt(l, restarts) && Spaced(l.restartAt, |l.entries|, counter, interval)
    requires forall i :: 0 <= i < |l.entries| ==> Compressed(l, i)
    requires shared <= |p.key| && more == buffer + EntryBytes(shared, p)
    requires m.entries == l.entries + [p] && m.shared == l.shared + [shared] && m.starts == l.starts + [|more|]
    requires
      || (counter < interval && m.restartAt == l.restartAt && restarts2 == restarts
          && LongestShared(if l.entries == [] then [] else l.entries[|l.entries| - 1].key, p.key, shared))
      || (counter == interval && m.restartAt == l.restartAt + [|l.entries|] && restarts2 == restarts + [|buffer|] && shared == 0)
    ensures Laid(more, m) && RestartsAt(m, restarts2)
    ensures forall i :: 0 <= i < |m.entries| ==> Compressed(m, i)
  {
    hide Laid, RestartsAt, EntryBytes, Compressed;
    Compresses(l, restarts, counter, interval, shared, m);
    CompressedMore(l, m);
    if l.entries == [] && counter == interval {
      FirstRestart(l, restarts, counter, interval);
    }
    Added(buffer, l, restarts, shared, p, more, m, restarts2);
  }

  lemma {:induction false} FirstRestart(l: Layout, restarts: seq<nat>, counter: nat, interval: nat)
    requires |l.shared| == |l.entries| && |l.starts| == |l.entries| + 1
    requires RestartsAt(l, restarts) && Spaced(l.restartAt, 0, counter, interval)
    ensures counter == 0
  {
  }

  lemma {:induction false} SpacedUp(at: seq<nat>, i: nat, n: nat, counter: nat, interval: nat)
    requires Spaced(at, n, counter, interval) && i < |at|
    ensures at[i] <= at[|at| - 1]
    decreases |at| - i
  {
    if i + 1 < |at| {
      SpacedUp(at, i + 1, n, counter, interval);
    }
  }

  class BlockBuilder {
    const interval: nat
    var buffer: Bytes
    var restarts: seq<nat>
    var counter: nat
    var lastKey: Bytes
    var finished: bool
    ghost var layout: Layout

    ghost predicate Ok()
      reads this
    {
      && interval >= 1 && counter <= interval
      && |layout.shared| == |layout.entries| && |layout.starts| == |layout.entries| + 1
      && Laid(buffer, layout) && RestartsAt(layout, restarts)
      && lastKey == (if layout.entries == [] then [] else layout.entries[|layout.entries| - 1].key)
      && Spaced(layout.restartAt, |layout.entries|, counter, interval)
      && forall i :: 0 <= i < |layout.entries| ==> Compressed(layout, i)
    }

    constructor (interval: nat)
      requires interval >= 1
      ensures Ok() && !finished && layout.entries == []
    {
      this.interval := interval;
      buffer, restarts, counter, lastKey, finished := [], [0], 0, [], false;
      layout := Layout([], [0], [], [0]);
    }

    method Add(key: Bytes, value: Bytes)
      requires Ok() && !finished
      modifies this
      ensures Ok() && !finished
      ensures layout.entries == old(layout.entries) + [Pair(key, value)]
    {
      hide Laid, RestartsAt, EntryBytes, Spaced, Compressed, LongestShared;
      var shared: nat := 0;
      SpacedOn(layout.restartAt, |layout.entries|, counter, interval);
      ghost var l, was, n := layout, buffer, |layout.entries|;
      if counter < interval {
        shared := SharedWithLast(key);
      } else {
        restarts := restarts + [|buffer|];
        counter := 0;
        layout := layout.(restartAt := layout.restartAt + [n]);
      }
      AppendEntry(shared, key, value);
      layout := Layout(l.entries + [Pair(key, value)], l.starts + [|buffer|], l.shared + [shared], layout.restartAt);
      Grown(was, l, old(restarts), old(counter), interval, shared, Pair(key, value), buffer, layout, restarts);
      counter := counter + 1;
    }

    /** Appends the lengths, the rest of the key and the value; the last key becomes this one. */
    method AppendEntry(shared: nat, key: Bytes, value: Bytes)
      requires shared <= |lastKey| && shared <= |key| && lastKey[..shared] == key[..shared]
      modifies this`buffer, this`lastKey
      ensures buffer == old(buffer) + EntryBytes(shared, Pair(key, value)) && lastKey == key
    {
      hide Varint;
      var nonShared := |key| - shared;
      ghost var was := buffer;
      buffer := buffer + Varint(shared) + Varint(nonShared) + Varint(|value|);
      buffer := buffer + key[shared..];
      buffer := buffer + value;
      assert buffer == was + EntryBytes(shared, Pair(key, value));
      lastKey := lastKey[..shared];
      lastKey := lastKey + key[shared..];
      assert lastKey == key;
    }

    /** How much of the key to share with the last one. */
    method SharedWithLast(key: Bytes) returns (shared: nat)
      ensures LongestShared(lastKey, key, shared)
    {
      shared := 0;
      var minLength := if |lastKey| < |key| then |lastKey| else |key|;
      while shared < minLength && lastKey[shared] == key[shared]
        invariant shared <= minLength && lastKey[..shared] == key[..shared]
      {
        shared := shared + 1;
      }
    }

    method Finish() returns (contents: Bytes)
      requires Ok() && !finished
      modifies this
      ensures finished && layout == old(layout) && restarts == old(restarts)
      ensures |contents| < LIMIT ==> IsBlock(contents, layout, restarts)
    {
      ghost var data := buffer;
      var i := 0;
      while i < |restarts|
        invariant i <= |restarts| && buffer == data + Fixed32Array(restarts[..i])
        invariant layout == old(layout) && restarts == old(restarts)
      {
        buffer := buffer + EncodeFixed32(U32(restarts[i]));
        assert restarts[..i + 1][..i] == restarts[..i];
        i := i + 1;
      }
      assert restarts[..i] == restarts;
      buffer := buffer + EncodeFixed32(U32(|restarts|));
      finished := true;
      contents := buffer;
    }
  }

  // ---------------------------------------------------------------------------------------------
  // Reading
  // ---------------------------------------------------------------------------------------------

  lemma {:induction false} ArrayAt(a: seq<nat>, j: nat, rest: Bytes)
    requires j < |a|
    ensures DecodeFixed32((Fixed32Array(a) + rest)[4 * j..]) == U32(a[j])
  {
    var last := |a| - 1;
    var tail := EncodeFixed32(U32(a[last])) + rest;
    assert Fixed32Array(a) + rest == Fixed32Array(a[..last]) + tail;
    if j == last {
      assert (Fixed32Array(a) + rest)[4 * j..] == tail;
      Fixed32RoundTrip(U32(a[last]), rest);
    } else {
      ArrayAt(a[..last], j, tail);
    }
  }

  function NumRestarts(data: Bytes): nat
    requires |data| >= 4
  {
    DecodeFixed32(data[|data| - 4..])
  }

  function RestartPoint(data: Bytes, offset: nat, j: nat): nat
    requires offset + 4 * j + 4 <= |data|
  {
    DecodeFixed32(data[offset + 4 * j..])
  }

  lemma {:induction false} RestartInside(buffer: Bytes, l: Layout, restarts: seq<nat>, j: nat)
    requires Laid(buffer, l) && RestartsAt(l, restarts) && j < |restarts|
    ensures restarts[j] <= |buffer|
  {
    hide EntryLies;
    StartsInside(buffer, l, l.restartAt[j]);
  }

  lemma {:induction false} DropTwo(a: Bytes, b: Bytes, c: Bytes, k: nat)
    requires k <= |b|
    ensures (a + b + c)[|a| + k..] == (b + c)[k..]
    ensures (a + b + c)[|a| + |b|..] == c
  {
  }

  lemma {:induction false} PointOf(buffer: Bytes, points: Bytes, tail: Bytes, data: Bytes, p: nat)
    requires data == buffer + points + tail && p + 4 <= |points|
    ensures DecodeFixed32(data[|buffer| + p..]) == DecodeFixed32((points + tail)[p..])
  {
    hide DecodeFixed32;
    DropTwo(buffer, points, tail, p);
  }

  lemma {:induction false} LastFour(front: Bytes, v: nat, data: Bytes)
    requires v < LIMIT && data == front + EncodeFixed32(v)
    ensures |data| >= 4 && NumRestarts(data) == v
  {
    hide EncodeFixed32, DecodeFixed32;
    Fixed32RoundTrip(v, []);
    assert EncodeFixed32(v) + [] == EncodeFixed32(v);
    assert data[|data| - 4..] == EncodeFixed32(v);
  }

  lemma {:induction false} TailOf(buffer: Bytes, points: Bytes, n: nat, data: Bytes)
    requires n < LIMIT && data == buffer + points + EncodeFixed32(n)
    ensures |data| >= 4 && NumRestarts(data) == n && |buffer| + |points| + 4 == |data|
  {
    hide EncodeFixed32, NumRestarts;
    LastFour(buffer + points, n, data);
  }

  /** The bytes of a finished block, taken apart again. */
  lemma {:induction false} BlockParts(data: Bytes, l: Layout, restarts: seq<nat>) returns (offset: nat)
    requires IsBlock(data, l, restarts)
    ensures |data| >= 4 && NumRestarts(data) == |restarts| && offset + 4 * |restarts| + 4 == |data| < LIMIT
    ensures Laid(data[..offset], l) && RestartsAt(l, restarts)
    ensures forall j :: 0 <= j < |restarts| ==> RestartPoint(data, offset, j) == restarts[j]
  {
    hide EntryLies, RestartsAt, Fixed32Array, EncodeFixed32, DecodeFixed32, NumRestarts, U32;
    var buffer :| Laid(buffer, l) && RestartsAt(l, restarts)
      && data == buffer + Fixed32Array(restarts) + EncodeFixed32(U32(|restarts|));
    offset := |buffer|;
    assert data[..offset] == buffer;
    TailOf(buffer, Fixed32Array(restarts), U32(|restarts|), data);
    forall j | 0 <= j < |restarts| ensures RestartPoint(data, offset, j) == restarts[j] {
      RestartInside(buffer, l, restarts, j);
      PointOf(buffer, Fixed32Array(restarts), EncodeFixed32(U32(|restarts|)), data, 4 * j);
      ArrayAt(restarts, j, EncodeFixed32(U32(|restarts|)));
    }
  }

  lemma {:induction false} StartsInside(buffer: Bytes, l: Layout, i: nat)
    requires Laid(buffer, l) && i <= |l.entries|
    ensures l.starts[i] <= |buffer|
  {
    if i < |l.entries| {
      assert EntryLies(buffer, l, i);
    }
  }

  /** The lengths of an entry and where its key begins. */
  datatype Decoded = Decoded(shared: nat, nonShared: nat, valueLength: nat, keyPos: nat)

  function VarintAt(data: Bytes, p: nat, limit: nat): Option<(nat, nat)>
    requires p <= limit <= |data|
  {
    match ReadVarint(data[p..limit], 5)
    case None => None
    case Some((v, n)) => Some((U32(v), n))
  }

  /** On any bytes: an entry that is accepted lies before the limit, unless its lengths add up beyond 32 bits. */
  function DecodeEntry(data: Bytes, p: nat, limit: nat): (d: Option<Decoded>)
    requires p <= limit <= |data|
    ensures d.Some? ==> p + 3 <= d.value.keyPos <= limit
    ensures d.Some? && d.value.nonShared + d.value.valueLength < LIMIT ==>
              d.value.keyPos + d.value.nonShared + d.value.valueLength <= limit
  {
    if limit - p < 3 then None
    else
      var d :=
        if data[p] < 128 && data[p + 1] < 128 && data[p + 2] < 128 then
          Some(Decoded(data[p], data[p + 1], data[p + 2], p + 3))
        else
          match VarintAt(data, p, limit)
          case None => None
          case Some((shared, n)) =>
            match VarintAt(data, p + n, limit)
            case None => None
            case Some((nonShared, m)) =>
              match VarintAt(data, p + n + m, limit)
              case None => None
              case Some((valueLength, k)) => Some(Decoded(shared, nonShared, valueLength, p + n + m + k));
      if d.Some? && limit - d.value.keyPos < U32(d.value.nonShared + d.value.valueLength) then None else d
  }

  lemma {:induction false} ReadsVarint(data: Bytes, p: nat, limit: nat, v: nat, q: nat)
    requires p + |Varint(v)| == q <= limit <= |data| && v < LIMIT
    requires data[p..q] == Varint(v)
    ensures VarintAt(data, p, limit) == Some((v, |Varint(v)|))
    ensures v < 128 <==> data[p] < 128
    ensures v < 128 ==> data[p] == v && q == p + 1
  {
    assert data[p..limit] == Varint(v) + data[q..limit];
    assert Pow128(5) == 128 * 128 * 128 * 128 * 128;
    VarintRoundTrip(v, 5, data[q..limit]);
    assert data[p] == data[p..q][0];
  }

  lemma {:induction false} Sublist(data: Bytes, p: nat, q: nat, a: nat, b: nat, part: Bytes)
    requires p <= q <= |data| && data[p..q] == part && a <= b <= |part|
    ensures data[p + a..p + b] == part[a..b]
  {
    forall i | a <= i < b ensures data[p + i] == part[i] {
      assert data[p..q][i] == part[i];
    }
  }

  lemma {:induction false} DecodesLengths(data: Bytes, p: nat, limit: nat, s: nat, n: nat, v: nat, keyPos: nat)
    requires s < LIMIT && n + v < LIMIT && keyPos + n + v <= limit <= |data|
    requires keyPos == p + |Varint(s)| + |Varint(n)| + |Varint(v)|
    requires data[p..p + |Varint(s)|] == Varint(s)
    requires data[p + |Varint(s)|..p + |Varint(s)| + |Varint(n)|] == Varint(n)
    requires data[p + |Varint(s)| + |Varint(n)|..keyPos] == Varint(v)
    ensures DecodeEntry(data, p, limit) == Some(Decoded(s, n, v, keyPos))
  {
    hide Varint, VarintAt, ReadVarint;
    var q, r := p + |Varint(s)|, p + |Varint(s)| + |Varint(n)|;
    ReadsVarint(data, p, limit, s, q);
    ReadsVarint(data, q, limit, n, r);
    ReadsVarint(data, r, limit, v, keyPos);
    assert U32(n + v) == n + v;
  }

  lemma {:induction false} EntryParts(shared: nat, e: Pair)
    requires shared <= |e.key|
    ensures var all := EntryBytes(shared, e);
            var i := |Varint(shared)|;
            var j := i + |Varint(|e.key| - shared)|;
            var k := j + |Varint(|e.value|)|;
            && k == |EntryHeader(shared, e)| && |all| == k + |e.key| - shared + |e.value|
            && all[0..i] == Varint(shared) && all[i..j] == Varint(|e.key| - shared) && all[j..k] == Varint(|e.value|)
            && all[k..k + |e.key| - shared] == e.key[shared..] && all[k + |e.key| - shared..|all|] == e.value
  {
    hide Varint;
  }

  /** An entry is decoded back, whether its lengths take one byte each or more. */
  lemma {:induction false} DecodesEntry(data: Bytes, p: nat, limit: nat, shared: nat, e: Pair)
    requires shared <= |e.key| && limit <= |data| < LIMIT && shared < LIMIT
    requires p + |EntryBytes(shared, e)| <= limit && data[p..p + |EntryBytes(shared, e)|] == EntryBytes(shared, e)
    ensures var keyPos := p + |EntryHeader(shared, e)|;
            && keyPos + |e.key| - shared + |e.value| == p + |EntryBytes(shared, e)|
            && DecodeEntry(data, p, limit) == Some(Decoded(shared, |e.key| - shared, |e.value|, keyPos))
            && data[keyPos..keyPos + |e.key| - shared] == e.key[shared..]
            && data[keyPos + |e.key| - shared..p + |EntryBytes(shared, e)|] == e.value
  {
    hide Varint, EntryBytes, EntryHeader, DecodeEntry;
    var all := EntryBytes(shared, e);
    var q := p + |all|;
    EntryParts(shared, e);
    var i := |Varint(shared)|;
    var j := i + |Varint(|e.key| - shared)|;
    var k := j + |Varint(|e.value|)|;
    Sublist(data, p, q, 0, i, all);
    Sublist(data, p, q, i, j, all);
    Sublist(data, p, q, j, k, all);
    Sublist(data, p, q, k, k + |e.key| - shared, all);
    Sublist(data, p, q, k + |e.key| - shared, |all|, all);
    DecodesLengths(data, p, limit, shared, |e.key| - shared, |e.value|, p + k);
  }

  // ---------------------------------------------------------------------------------------------
  // The iterator
  // ---------------------------------------------------------------------------------------------

  /** Keys grow in the comparator's order, given by a place on the real line. */
  ghost predicate Increasing(order: Bytes -> real, entries: seq<Pair>) {
    forall i, j :: 0 <= i < j < |entries| ==> order(entries[i].key) < order(entries[j].key)
  }

  lemma {:induction false} StartsIncrease(buffer: Bytes, l: Layout, i: nat, j: nat)
    requires Laid(buffer, l) && i < j <= |l.entries|
    ensures l.starts[i] < l.starts[j]
    decreases j
  {
    hide EntryBytes;
    assert EntryLies(buffer, l, j - 1);
    if i < j - 1 {
      StartsIncrease(buffer, l, i, j - 1);
    }
  }

  /** What DecodeEntry finds at entry i, and what key and value come of it. */
  lemma {:induction false} ReadsEntry(data: Bytes, limit: nat, l: Layout, i: nat, d: Option<Decoded>)
    requires limit <= |data| < LIMIT && Laid(data[..limit], l) && i < |l.entries| && l.starts[i] <= limit
    requires d == DecodeEntry(data, l.starts[i], limit)
    ensures d.Some? && d.value.shared == l.shared[i] <= |l.entries[i].key|
    ensures l.starts[i] < l.starts[i + 1] == d.value.keyPos + d.value.nonShared + d.value.valueLength <= limit
    ensures data[d.value.keyPos..d.value.keyPos + d.value.nonShared] == l.entries[i].key[l.shared[i]..]
    ensures data[d.value.keyPos + d.value.nonShared..l.starts[i + 1]] == l.entries[i].value
  {
    hide EntryBytes, DecodeEntry;
    assert EntryLies(data[..limit], l, i);
    var all := EntryBytes(l.shared[i], l.entries[i]);
    forall k | 0 <= k < |all| ensures data[l.starts[i] + k] == all[k] {
      assert data[..limit][l.starts[i]..l.starts[i + 1]][k] == all[k];
    }
    assert data[l.starts[i]..l.starts[i] + |all|] == all;
    KeyFits(data[..limit], l, i);
    DecodesEntry(data, l.starts[i], limit, l.shared[i], l.entries[i]);
  }

  /** A key is no longer than all the key bytes stored up to it. */
  lemma {:induction false} KeyFits(buffer: Bytes, l: Layout, i: nat)
    requires Laid(buffer, l) && i < |l.entries|
    ensures l.shared[i] <= |l.entries[i].key| <= l.starts[i + 1] <= |buffer|
  {
    hide EntryHeader;
    assert EntryLies(buffer, l, i);
    if i > 0 {
      KeyFits(buffer, l, i - 1);
    }
  }

  class Iter {
    const data: Bytes
    const order: Bytes -> real
    const restarts: nat
    const numRestarts: nat
    ghost const layout: Layout
    ghost const points: seq<nat>
    var current: nat
    var restartIndex: nat
    var key: Bytes
    var valuePos: nat
    var valueLength: nat
    /** The entry the iterator is on; the number of entries when it is not valid. */
    ghost var at: nat

    ghost predicate OnBlock() {
      && restarts + 4 * numRestarts + 4 <= |data| < LIMIT
      && |layout.shared| == |layout.entries| && |layout.starts| == |layout.entries| + 1
      && Laid(data[..restarts], layout) && RestartsAt(layout, points) && |points| == numRestarts
      && (forall j :: 0 <= j < numRestarts ==> RestartPoint(data, restarts, j) == points[j])
      && Increasing(order, layout.entries)
    }

    ghost predicate On(i: nat)
      requires OnBlock() && i < |layout.entries|
      reads this
    {
      && current == layout.starts[i] && key == layout.entries[i].key
      && valuePos + valueLength == layout.starts[i + 1] <= |data| && data[valuePos..valuePos + valueLength] == layout.entries[i].value
      && restartIndex < numRestarts && points[restartIndex] <= current
      && (restartIndex + 1 < numRestarts ==> current <= points[restartIndex + 1])
    }

    ghost predicate Ok()
      reads this
    {
      && OnBlock() && at <= |layout.entries|
      && (at < |layout.entries| ==> On(at) && current < restarts)
      && (at == |layout.entries| ==> current == restarts)
    }

    /** The next entry to parse is the i-th. */
    ghost predicate Ready(i: nat)
      requires OnBlock()
      reads this
    {
      && i <= |layout.entries| && valuePos + valueLength == layout.starts[i]
      && (i < |layout.entries| ==> layout.shared[i] <= |key| && layout.shared[i] <= |layout.entries[i].key|
                                   && key[..layout.shared[i]] == layout.entries[i].key[..layout.shared[i]])
      && restartIndex < numRestarts && points[restartIndex] <= layout.starts[i]
    }

    constructor (data: Bytes, order: Bytes -> real, ghost layout: Layout, ghost points: seq<nat>)
      requires IsBlock(data, layout, points) && Increasing(order, layout.entries)
      ensures Ok() && !Valid() && this.layout == layout && this.order == order
    {
      ghost var offset := BlockParts(data, layout, points);
      this.data, this.order, this.layout, this.points := data, order, layout, points;
      numRestarts := NumRestarts(data);
      restarts := |data| - 4 * (NumRestarts(data) + 1);
      current := |data| - 4 * (NumRestarts(data) + 1);
      restartIndex := NumRestarts(data);
      key, valuePos, valueLength := [], 0, 0;
      at := |layout.entries|;
    }

    predicate Valid()
      reads this
    {
      current < restarts
    }

    function Value(): Bytes
      requires Ok() && Valid()
      reads this
    {
      data[valuePos..valuePos + valueLength]
    }

    /** Key and value are those of the entry. */
    lemma {:induction false} CurrentEntry()
      requires Ok()
      ensures Valid() <==> at < |layout.entries|
      ensures Valid() ==> layout.entries[at] == Pair(key, Value())
    {
    }

    method SeekToRestartPoint(index: nat)
      requires OnBlock() && index < numRestarts
      modifies this
      ensures restartIndex == index && Ready(layout.restartAt[index])
    {
      key := [];
      restartIndex := index;
      var offset := RestartPoint(data, restarts, index);
      valuePos, valueLength := offset, 0;
      assert offset == points[index];
    }

    lemma {:induction false} NextIsReady()
      requires Ok() && at < |layout.entries|
      ensures Ready(at + 1)
    {
      hide EntryBytes;
      assert EntryLies(data[..restarts], layout, at);
      if at + 1 < |layout.entries| {
        assert EntryLies(data[..restarts], layout, at + 1);
      }
    }

    method ParseNextKey(ghost i: nat) returns (found: bool)
      requires OnBlock() && Ready(i)
      modifies this
      ensures Ok() && at == i && (found <==> i < |layout.entries|)
    {
      hide Increasing, RestartPoint, EntryLies, EntryBytes, DecodeEntry, Laid, RestartsAt;
      current := valuePos + valueLength;
      at := i;
      if current >= restarts {
        AtEnd(i);
        current, restartIndex := restarts, numRestarts;
        return false;
      }
      NotAtEnd(i);
      var d := DecodeEntry(data, current, restarts);
      ReadsEntry(data, restarts, layout, i, d);
      key := key[..d.value.shared] + data[d.value.keyPos..d.value.keyPos + d.value.nonShared];
      valuePos, valueLength := d.value.keyPos + d.value.nonShared, d.value.valueLength;
      while restartIndex + 1 < numRestarts && RestartPoint(data, restarts, restartIndex + 1) < current
        invariant restartIndex < numRestarts && points[restartIndex] <= current
        modifies this`restartIndex
        decreases numRestarts - restartIndex
      {
        restartIndex := restartIndex + 1;
      }
      return true;
    }

    lemma {:induction false} AtEnd(i: nat)
      requires OnBlock() && i <= |layout.entries| && layout.starts[i] >= restarts
      ensures i == |layout.entries|
    {
      if i < |layout.entries| {
        StartsIncrease(data[..restarts], layout, i, |layout.entries|);
      }
    }

    lemma {:induction false} NotAtEnd(i: nat)
      requires OnBlock() && i <= |layout.entries| && layout.starts[i] < restarts
      ensures i < |layout.entries|
    {
    }

    method SeekToFirst()
      requires Ok()
      modifies this
      ensures Ok() && at == 0
    {
      SeekToRestartPoint(0);
      var _ := ParseNextKey(0);
    }

    method Next()
      requires Ok() && Valid()
      modifies this
      ensures Ok() && at == old(at) + 1
    {
      NextIsReady();
      var _ := ParseNextKey(at + 1);
    }

    /** The entry at a restart point comes first of those from it on. */
    lemma {:induction false} RestartOrder(j: nat, i: nat)
      requires OnBlock() && j < numRestarts && layout.restartAt[j] <= i < |layout.entries|
      ensures points[j] <= layout.starts[i] <= restarts
    {
      hide EntryLies, Increasing;
      StartsInside(data[..restarts], layout, i);
      if layout.restartAt[j] < i {
        StartsIncrease(data[..restarts], layout, layout.restartAt[j], i);
      }
    }

    lemma {:induction false} StartsOrder(a: nat, b: nat)
      requires OnBlock() && a <= |layout.entries| && b <= |layout.entries| && layout.starts[a] < layout.starts[b]
      ensures a < b
    {
      hide EntryLies, Increasing;
      if b < a {
        StartsIncrease(data[..restarts], layout, b, a);
      }
    }

    /** Parses on, up to the entry that ends at the given place. */
    method SkipTo(ghost i: nat, limit: nat)
      requires OnBlock() && at < |layout.entries| && i < |layout.entries| && limit == layout.starts[i + 1]
      requires at <= i && Ok()
      modifies this
      ensures Ok() && at == i
    {
      hide EntryLies, EntryBytes, Increasing, RestartPoint, RestartsAt;
      while valuePos + valueLength < limit
        invariant Ok() && at <= i
        decreases |layout.entries| - at
      {
        NextIsReady();
        var _ := ParseNextKey(at + 1);
      }
      if at < i {
        StartsIncrease(data[..restarts], layout, at + 1, i + 1);
      }
    }

    method SeekToLast()
      requires Ok()
      modifies this
      ensures Ok() && at == if |layout.entries| == 0 then 0 else |layout.entries| - 1
    {
      SeekToRestartPoint(numRestarts - 1);
      ghost var start := layout.restartAt[numRestarts - 1];
      var found := ParseNextKey(start);
      if found {
        SkipTo(|layout.entries| - 1, restarts);
      }
    }

    method Prev()
      requires Ok() && Valid()
      modifies this
      ensures Ok() && at == if old(at) == 0 then |layout.entries| else old(at) - 1
    {
      hide EntryLies, EntryBytes, DecodeEntry, Increasing;
      var original := current;
      while RestartPoint(data, restarts, restartIndex) >= original
        invariant OnBlock() && restartIndex < numRestarts && original == layout.starts[old(at)]
        invariant points[restartIndex] <= original
        modifies this
        decreases restartIndex
      {
        if restartIndex == 0 {
          if old(at) > 0 {
            StartsIncrease(data[..restarts], layout, 0, old(at));
          }
          current, restartIndex, at := restarts, numRestarts, |layout.entries|;
          return;
        }
        restartIndex := restartIndex - 1;
        StartsIncrease(data[..restarts], layout, layout.restartAt[restartIndex], layout.restartAt[restartIndex + 1]);
      }
      ghost var start := layout.restartAt[restartIndex];
      StartsOrder(start, old(at));
      SeekToRestartPoint(restartIndex);
      var _ := ParseNextKey(start);
      SkipTo(old(at) - 1, original);
    }

    /** The key at a restart point, as the binary search reads it. */
    method RestartKey(j: nat) returns (k: Bytes)
      requires OnBlock() && j < numRestarts && layout.restartAt[j] < |layout.entries|
      ensures k == layout.entries[layout.restartAt[j]].key
    {
      hide Increasing, RestartPoint, EntryLies, EntryBytes, DecodeEntry;
      ghost var i := layout.restartAt[j];
      var offset := RestartPoint(data, restarts, j);
      RestartOrder(j, i);
      var d := DecodeEntry(data, offset, restarts);
      ReadsEntry(data, restarts, layout, i, d);
      k := data[d.value.keyPos..d.value.keyPos + d.value.nonShared];
    }

    /** The entry at a restart point comes before the target. */
    ghost predicate RestartBefore(j: nat, target: Bytes)
      requires OnBlock() && 0 < j < numRestarts
    {
      layout.restartAt[j] < |layout.entries| && order(layout.entries[layout.restartAt[j]].key) < order(target)
    }

    /** The last restart point whose key comes before the target, or the first one. */
    method FindRestart(target: Bytes) returns (left: nat)
      requires OnBlock()
      ensures left < numRestarts
      ensures forall i :: 0 <= i < layout.restartAt[left] ==> order(layout.entries[i].key) < order(target)
      ensures left > 0 ==> RestartBefore(left, target)
      ensures left + 1 < numRestarts ==> !RestartBefore(left + 1, target)
    {
      left := 0;
      var right := numRestarts - 1;
      while left < right
        invariant left <= right < numRestarts
        invariant left > 0 ==> RestartBefore(left, target)
        invariant right + 1 < numRestarts ==> !RestartBefore(right + 1, target)
        invariant forall i :: 0 <= i < layout.restartAt[left] ==> order(layout.entries[i].key) < order(target)
      {
        var mid := (left + right + 1) / 2;
        var midKey := RestartKey(mid);
        if order(midKey) < order(target) {
          left := mid;
        } else {
          right := mid - 1;
        }
      }
    }

    method Seek(target: Bytes)
      requires Ok()
      modifies this
      ensures Ok()
      ensures forall i :: 0 <= i < at ==> order(layout.entries[i].key) < order(target)
      ensures forall i :: at <= i < |layout.entries| ==> order(target) <= order(layout.entries[i].key)
    {
      hide RestartPoint, EntryLies, EntryBytes, DecodeEntry;
      var left := FindRestart(target);
      SeekToRestartPoint(left);
      ghost var i := layout.restartAt[left];
      while true
        invariant OnBlock() && Ready(i)
        invariant forall j :: 0 <= j < i ==> order(layout.entries[j].key) < order(target)
        decreases |layout.entries| - i
      {
        var found := ParseNextKey(i);
        if !found {
          return;
        }
        if order(key) >= order(target) {
          return;
        }
        NextIsReady();
        i := i + 1;
      }
    }
  }
}
