/**
 Filters (util/bloom.cc, table/filter_block.cc, InternalFilterPolicy in db/dbformat.cc): a Bloom filter that
 never hides a key it was built from, and the filter block that keeps one filter for every 2 KB of file offsets.
 The hash function (util/hash.cc) is a parameter.
 */
module Filters {
  import opened Keys
  import opened Version
  import opened Coding
  import opened Crc32c
  import opened Blocks

  type Hash = Bytes -> nat

  // ---------------------------------------------------------------------------------------------
  // Bits of a byte string
  // ---------------------------------------------------------------------------------------------

  function GetBit(a: Bytes, pos: nat): bool
    requires pos < 8 * |a|
  {
    ToBits(8, a[pos / 8])[pos % 8]
  }

  lemma {:induction false} OctetRoundTrip(b: Bits)
    requires |b| == 8
    ensures FromBits(b) < 256 && ToBits(8, FromBits(b)) == b
  {
    BitsRoundTrip(b);
    assert Pow2(8) == 256;
  }

  /** array[pos / 8] |= 1 << (pos % 8). */
  function SetBit(a: Bytes, pos: nat): (r: Bytes)
    requires pos < 8 * |a|
    ensures |r| == |a|
  {
    var bits := ToBits(8, a[pos / 8])[pos % 8 := true];
    OctetRoundTrip(bits);
    a[pos / 8 := FromBits(bits)]
  }

  lemma {:induction false} SetBitSets(a: Bytes, pos: nat, q: nat)
    requires pos < 8 * |a| && q < 8 * |a|
    ensures GetBit(SetBit(a, pos), q) <==> q == pos || GetBit(a, q)
  {
    var bits := ToBits(8, a[pos / 8])[pos % 8 := true];
    OctetRoundTrip(bits);
    if q / 8 == pos / 8 {
      assert q % 8 == pos % 8 <==> q == pos;
    }
  }

  // ---------------------------------------------------------------------------------------------
  // Bloom filters
  // ---------------------------------------------------------------------------------------------

  /** Rotates right by 17 bits. */
  function Delta(h: nat): nat
    requires h < TWO32
  {
    h / TWO17 + h % TWO17 * TWO15
  }

  function Probe(h: nat, j: nat): (r: nat)
    requires h < TWO32
    ensures r < TWO32
  {
    if j == 0 then h else (Probe(h, j - 1) + Delta(h)) % TWO32
  }

  lemma {:induction false} WholeWords(a: nat, q: nat)
    ensures (TWO32 * q + a) % TWO32 == a % TWO32
  {
  }

  lemma {:induction false} NextProbe(h: nat, j: nat, delta: nat)
    requires j > 0
    ensures ((h + (j - 1) * delta) % TWO32 + delta) % TWO32 == (h + j * delta) % TWO32
  {
    var x := h + (j - 1) * delta;
    WholeWords(x % TWO32 + delta, x / TWO32);
    assert j * delta == (j - 1) * delta + delta;
  }

  /** Double hashing: the probes are evenly spaced, in 32 bits. */
  lemma {:induction false} ProbeIs(h: nat, j: nat)
    requires h < TWO32
    ensures Probe(h, j) == (h + j * Delta(h)) % TWO32
  {
    hide Delta;
    if j > 0 {
      ProbeIs(h, j - 1);
      NextProbe(h, j, Delta(h));
    }
  }

  /** Every probe of the key finds its bit set. */
  ghost predicate Probed(hash: Hash, bits: Bytes, k: nat, key: Bytes)
    requires |bits| > 0
  {
    forall j :: 0 <= j < k ==> GetBit(bits, Probe(hash(key) % TWO32, j) % (8 * |bits|))
  }

  /** Bit q is one of the key's probes. */
  ghost predicate SetBy(hash: Hash, bits: nat, k: nat, key: Bytes, q: nat)
    requires bits > 0
  {
    exists j :: 0 <= j < k && q == Probe(hash(key) % TWO32, j) % bits
  }

  ghost predicate SetBySome(hash: Hash, bits: nat, k: nat, keys: seq<Bytes>, q: nat)
    requires bits > 0
  {
    exists key :: key in keys && SetBy(hash, bits, k, key, q)
  }

  /** The bits that are set are the probes of the keys, and no others. */
  ghost predicate Marked(hash: Hash, filter: Bytes, k: nat, keys: seq<Bytes>)
    requires |filter| > 0
  {
    forall q: nat :: q < 8 * |filter| ==> (GetBit(filter, q) <==> SetBySome(hash, 8 * |filter|, k, keys, q))
  }

  lemma {:induction false} MarkedProbes(hash: Hash, filter: Bytes, k: nat, keys: seq<Bytes>, key: Bytes)
    requires |filter| > 0 && Marked(hash, filter, k, keys) && key in keys
    ensures Probed(hash, filter, k, key)
  {
    hide GetBit, Probe;
    forall j | 0 <= j < k ensures GetBit(filter, Probe(hash(key) % TWO32, j) % (8 * |filter|)) {
      assert SetBy(hash, 8 * |filter|, k, key, Probe(hash(key) % TWO32, j) % (8 * |filter|));
    }
  }

  /** A filter ends with its probe count; more than 30 is reserved for other encodings and matches everything. */
  ghost predicate Matches(hash: Hash, filter: Bytes, key: Bytes) {
    |filter| >= 2 && (filter[|filter| - 1] > 30 || Probed(hash, filter[..|filter| - 1], filter[|filter| - 1], key))
  }

  /** At least 64 bits, in whole bytes. */
  function FilterBytes(n: nat, bitsPerKey: nat): (bytes: nat)
    ensures 8 * bytes - 8 < (if n * bitsPerKey < 64 then 64 else n * bitsPerKey) <= 8 * bytes
  {
    ((if n * bitsPerKey < 64 then 64 else n * bitsPerKey) + 7) / 8
  }

  lemma {:induction false} NoBits(i: nat)
    requires i < 8
    ensures !ToBits(8, 0)[i]
  {
  }

  lemma {:induction false} NothingMarked(hash: Hash, filter: Bytes, k: nat)
    requires |filter| > 0 && forall i :: 0 <= i < |filter| ==> filter[i] == 0
    ensures Marked(hash, filter, k, [])
  {
    forall q: nat | q < 8 * |filter| ensures !GetBit(filter, q) {
      NoBits(q % 8);
    }
  }

  lemma {:induction false} NoProbes(hash: Hash, bits: nat, key: Bytes)
    requires bits > 0
    ensures forall q: nat :: !SetBy(hash, bits, 0, key, q)
  {
  }

  lemma {:induction false} SetByMore(hash: Hash, bits: nat, j: nat, key: Bytes, q: nat)
    requires bits > 0
    ensures SetBy(hash, bits, j + 1, key, q) <==> SetBy(hash, bits, j, key, q) || q == Probe(hash(key) % TWO32, j) % bits
  {
    hide Probe;
  }

  lemma {:induction false} MarkedMore(hash: Hash, was: Bytes, k: nat, keys: seq<Bytes>, key: Bytes, filter: Bytes)
    requires |filter| == |was| > 0 && Marked(hash, was, k, keys)
    requires forall q: nat :: q < 8 * |filter| ==> (GetBit(filter, q) <==> GetBit(was, q) || SetBy(hash, 8 * |filter|, k, key, q))
    ensures Marked(hash, filter, k, keys + [key])
  {
    hide GetBit, SetBy;
    forall q: nat | q < 8 * |filter| ensures GetBit(filter, q) <==> SetBySome(hash, 8 * |filter|, k, keys + [key], q) {
      assert key in keys + [key];
    }
  }

  class BloomFilterPolicy {
    const hash: Hash
    const bitsPerKey: nat
    /** The number of probes, 0.69 times the bits per key, between 1 and 30. */
    const k: nat

    constructor (hash: Hash, bitsPerKey: nat, k: nat)
      requires 1 <= k <= 30
      ensures this.hash == hash && this.bitsPerKey == bitsPerKey && this.k == k
    {
      this.hash, this.bitsPerKey, this.k := hash, bitsPerKey, k;
    }

    /** The filter that is appended to dst. */
    method CreateFilter(keys: seq<Bytes>, dst: Bytes) returns (r: Bytes)
      requires k <= 30
      ensures dst < r && r[|r| - 1] == k
      ensures |r| == |dst| + FilterBytes(|keys|, bitsPerKey) + 1
      ensures Marked(hash, r[|dst|..|r| - 1], k, keys)
    {
      hide GetBit, SetBy;
      var bits := |keys| * bitsPerKey;
      if bits < 64 {
        bits := 64;
      }
      var bytes := (bits + 7) / 8;
      bits := bytes * 8;
      var filter: Bytes := seq(bytes, i => 0);
      NothingMarked(hash, filter, k);
      for i := 0 to |keys|
        invariant |filter| == bytes
        invariant Marked(hash, filter, k, keys[..i])
      {
        ghost var was := filter;
        filter := AddProbes(filter, keys[i]);
        assert keys[..i + 1] == keys[..i] + [keys[i]];
        MarkedMore(hash, was, k, keys[..i], keys[i], filter);
      }
      assert keys[..|keys|] == keys;
      r := dst + filter + [k];
      assert r[|dst|..|r| - 1] == filter;
    }

    /** The inner loop: double hashing sets one bit a probe. */
    method AddProbes(filter: Bytes, key: Bytes) returns (r: Bytes)
      requires |filter| > 0
      ensures |r| == |filter|
      ensures forall q: nat :: q < 8 * |filter| ==> (GetBit(r, q) <==> GetBit(filter, q) || SetBy(hash, 8 * |filter|, k, key, q))
    {
      hide GetBit, SetBit, Delta, SetBy;
      NoProbes(hash, 8 * |filter|, key);
      r := filter;
      var bits := 8 * |filter|;
      var h := hash(key) % TWO32;
      var delta := Delta(h);
      ghost var h0 := h;
      for j := 0 to k
        invariant |r| == |filter| && h == Probe(h0, j)
        invariant forall q: nat :: q < bits ==> (GetBit(r, q) <==> GetBit(filter, q) || SetBy(hash, bits, j, key, q))
      {
        ghost var was := r;
        var bitpos := h % bits;
        r := SetBit(r, bitpos);
        forall q: nat | q < bits ensures GetBit(r, q) <==> GetBit(filter, q) || SetBy(hash, bits, j + 1, key, q) {
          SetBitSets(was, bitpos, q);
          SetByMore(hash, bits, j, key, q);
        }
        h := (h + delta) % TWO32;
      }
    }

    method KeyMayMatch(key: Bytes, filter: Bytes) returns (may: bool)
      ensures may <==> Matches(hash, filter, key)
    {
      var len := |filter|;
      if len < 2 {
        return false;
      }
      var probes: nat := filter[len - 1];
      if probes > 30 {
        return true;
      }
      may := AllSet(filter[..len - 1], key, probes);
    }

    /** The probing loop, which stops at the first bit that is not set. */
    method AllSet(words: Bytes, key: Bytes, probes: nat) returns (all: bool)
      requires |words| > 0
      ensures all <==> Probed(hash, words, probes, key)
    {
      hide GetBit, Delta;
      var bits := |words| * 8;
      var h := hash(key) % TWO32;
      var delta := Delta(h);
      ghost var h0 := h;
      for j := 0 to probes
        invariant h == Probe(h0, j) && Probed(hash, words, j, key)
      {
        var bitpos := h % bits;
        if !GetBit(words, bitpos) {
          return false;
        }
        h := (h + delta) % TWO32;
      }
      return true;
    }
  }

  // ---------------------------------------------------------------------------------------------
  // The filter block
  // ---------------------------------------------------------------------------------------------

  const FILTER_BASE_LG: Byte := 11
  const FILTER_BASE: nat := 2048

  /** The filter that a data block at a file offset belongs to. */
  function Group(blockOffset: nat): nat {
    blockOffset / FILTER_BASE
  }

  /** The filter made from the keys: empty without keys, else exactly their probes. */
  ghost predicate Covers(hash: Hash, filter: Bytes, keys: seq<Bytes>) {
    if keys == [] then filter == []
    else |filter| >= 2 && filter[|filter| - 1] <= 30 && Marked(hash, filter[..|filter| - 1], filter[|filter| - 1], keys)
  }

  /** Filter i lies in the block between its offset and the next one. */
  ghost predicate FilterLies(hash: Hash, result: Bytes, offsets: seq<nat>, groups: seq<seq<Bytes>>, i: nat)
    requires i < |offsets| == |groups|
  {
    var end := if i + 1 < |offsets| then offsets[i + 1] else |result|;
    offsets[i] <= end <= |result| && Covers(hash, result[offsets[i]..end], groups[i])
  }

  ghost predicate FiltersLie(hash: Hash, result: Bytes, offsets: seq<nat>, groups: seq<seq<Bytes>>) {
    |offsets| == |groups| && forall i :: 0 <= i < |offsets| ==> FilterLies(hash, result, offsets, groups, i)
  }

  lemma {:induction false} FiltersGrow(hash: Hash, result: Bytes, offsets: seq<nat>, groups: seq<seq<Bytes>>, filter: Bytes, keys: seq<Bytes>)
    requires FiltersLie(hash, result, offsets, groups) && Covers(hash, filter, keys)
    ensures FiltersLie(hash, result + filter, offsets + [|result|], groups + [keys])
  {
    hide Covers;
    forall i | 0 <= i < |offsets| + 1 ensures FilterLies(hash, result + filter, offsets + [|result|], groups + [keys], i) {
      if i < |offsets| {
        assert FilterLies(hash, result, offsets, groups, i);
        var end := if i + 1 < |offsets| then offsets[i + 1] else |result|;
        assert (result + filter)[offsets[i]..end] == result[offsets[i]..end];
      } else {
        assert (result + filter)[|result|..|result + filter|] == filter;
      }
    }
  }

  /** Appends empty groups up to a number of them. */
  function Padded(groups: seq<seq<Bytes>>, n: nat): (r: seq<seq<Bytes>>)
    ensures |r| == if |groups| < n then n else |groups|
    ensures groups <= r && forall i :: |groups| <= i < |r| ==> r[i] == []
  {
    groups + seq(if |groups| < n then n - |groups| else 0, i => [])
  }

  class FilterBlockBuilder {
    const policy: BloomFilterPolicy
    /** The keys of the filter to come, flattened, and where each begins. */
    var keys: Bytes
    var start: seq<nat>
    var result: Bytes
    var filterOffsets: seq<nat>
    ghost var groups: seq<seq<Bytes>>
    ghost var pending: seq<Bytes>

    ghost predicate Ok()
      reads this
    {
      && policy.k <= 30
      && Flattened(keys, start, pending)
      && |filterOffsets| == |groups| && FiltersLie(policy.hash, result, filterOffsets, groups)
    }

    /** The keys of every filter so far, the one to come included. */
    ghost function Groups(): seq<seq<Bytes>>
      reads this
    {
      groups + [pending]
    }

    constructor (policy: BloomFilterPolicy)
      requires policy.k <= 30
      ensures Ok() && this.policy == policy && Groups() == [[]] && filterOffsets == []
    {
      this.policy := policy;
      keys, start, result, filterOffsets := [], [], [], [];
      groups, pending := [], [];
    }

    method AddKey(key: Bytes)
      requires Ok()
      modifies this
      ensures Ok() && filterOffsets == old(filterOffsets)
      ensures groups == old(groups) && pending == old(pending) + [key]
    {
      FlattenedMore(keys, start, pending, key);
      start := start + [|keys|];
      keys := keys + key;
      pending := pending + [key];
    }

    /** Called with the file offset of the data block whose keys come next. */
    method StartBlock(blockOffset: nat)
      requires Ok() && Group(blockOffset) >= |filterOffsets|
      modifies this
      ensures Ok() && |filterOffsets| == Group(blockOffset)
      ensures Groups() == Padded(old(Groups()), Group(blockOffset) + 1)
    {
      var filterIndex := Group(blockOffset);
      while filterIndex > |filterOffsets|
        invariant Ok() && |filterOffsets| <= filterIndex
        invariant Groups() == Padded(old(Groups()), |filterOffsets| + 1)
        decreases filterIndex - |filterOffsets|
      {
        GenerateFilter();
      }
    }

    method GenerateFilter()
      requires Ok()
      modifies this
      ensures Ok() && |filterOffsets| == |old(filterOffsets)| + 1
      ensures groups == old(Groups()) && pending == []
    {
      hide FiltersLie, Covers;
      var numKeys := |start|;
      if numKeys == 0 {
        NoKeysCovered(policy.hash);
        FiltersGrow(policy.hash, result, filterOffsets, groups, [], []);
        assert result + [] == result;
        filterOffsets := filterOffsets + [|result|];
        groups := groups + [[]];
        return;
      }
      var tmpKeys := Unflatten();
      var filter := policy.CreateFilter(tmpKeys, result);
      CreatedCovers(policy.hash, policy.k, result, filter, pending);
      FiltersGrow(policy.hash, result, filterOffsets, groups, filter[|result|..], pending);
      assert result + filter[|result|..] == filter;
      filterOffsets := filterOffsets + [|result|];
      result := filter;
      groups, pending := groups + [pending], [];
      keys, start := [], [];
    }

    /** The list of keys from the flattened key structure. */
    method Unflatten() returns (tmpKeys: seq<Bytes>)
      requires Flattened(keys, start, pending)
      ensures tmpKeys == pending
    {
      tmpKeys := [];
      for i := 0 to |start|
        invariant tmpKeys == pending[..i]
      {
        assert KeyLies(keys, start, pending, i);
        var end := if i + 1 < |start| then start[i + 1] else |keys|;
        tmpKeys := tmpKeys + [keys[start[i]..end]];
      }
    }

    method Finish() returns (contents: Bytes)
      requires Ok()
      modifies this
      ensures IsFilterBlock(policy.hash, contents, filterOffsets, groups)
      ensures groups == old(if start == [] then groups else Groups())
    {
      hide FiltersLie, EncodeFixed32, Fixed32Array, IsFilterBlock, U32;
      if start != [] {
        GenerateFilter();
      }
      ghost var front := result;
      var arrayOffset := |result|;
      WriteOffsets();
      result := result + EncodeFixed32(U32(arrayOffset));
      result := result + [FILTER_BASE_LG];
      contents := result;
      Assembled(policy.hash, front, filterOffsets, groups, contents);
    }

    method WriteOffsets()
      modifies this`result
      ensures result == old(result) + Fixed32Array(filterOffsets)
    {
      hide EncodeFixed32, Fixed32Array, U32;
      assert filterOffsets[..0] == [];
      for i := 0 to |filterOffsets|
        invariant result == old(result) + Fixed32Array(filterOffsets[..i])
      {
        ArrayOfMore(filterOffsets, i);
        result := result + EncodeFixed32(U32(filterOffsets[i]));
      }
      assert filterOffsets[..|filterOffsets|] == filterOffsets;
    }
  }

  lemma {:induction false} Assembled(hash: Hash, result: Bytes, offsets: seq<nat>, groups: seq<seq<Bytes>>, contents: Bytes)
    requires FiltersLie(hash, result, offsets, groups)
    requires contents == result + Fixed32Array(offsets) + EncodeFixed32(U32(|result|)) + [FILTER_BASE_LG]
    ensures IsFilterBlock(hash, contents, offsets, groups)
  {
    hide FiltersLie, Fixed32Array, EncodeFixed32;
  }

  lemma {:induction false} ArrayOfMore(a: seq<nat>, i: nat)
    requires i < |a|
    ensures Fixed32Array(a[..i + 1]) == Fixed32Array(a[..i]) + EncodeFixed32(U32(a[i]))
  {
    hide EncodeFixed32;
    assert a[..i + 1][..i] == a[..i];
  }

  ghost predicate KeyLies(keys: Bytes, start: seq<nat>, pending: seq<Bytes>, i: nat)
    requires i < |start| == |pending|
  {
    var end := if i + 1 < |start| then start[i + 1] else |keys|;
    start[i] <= end <= |keys| && keys[start[i]..end] == pending[i]
  }

  /** The pending keys lie one after another. */
  ghost predicate Flattened(keys: Bytes, start: seq<nat>, pending: seq<Bytes>) {
    |start| == |pending| && forall i :: 0 <= i < |start| ==> KeyLies(keys, start, pending, i)
  }

  lemma {:induction false} FlattenedMore(keys: Bytes, start: seq<nat>, pending: seq<Bytes>, key: Bytes)
    requires Flattened(keys, start, pending)
    ensures Flattened(keys + key, start + [|keys|], pending + [key])
  {
    forall i | 0 <= i < |start| + 1 ensures KeyLies(keys + key, start + [|keys|], pending + [key], i) {
      if i < |start| {
        assert KeyLies(keys, start, pending, i);
        var end := if i + 1 < |start| then start[i + 1] else |keys|;
        assert (keys + key)[start[i]..end] == keys[start[i]..end];
      } else {
        assert (keys + key)[|keys|..|keys + key|] == key;
      }
    }
  }

  lemma {:induction false} NoKeysCovered(hash: Hash)
    ensures Covers(hash, [], [])
  {
  }

  lemma {:induction false} CreatedCovers(hash: Hash, k: nat, dst: Bytes, r: Bytes, keys: seq<Bytes>)
    requires dst < r && |r| >= |dst| + 2 && r[|r| - 1] == k <= 30 && keys != []
    requires Marked(hash, r[|dst|..|r| - 1], k, keys)
    ensures Covers(hash, r[|dst|..], keys)
  {
    hide Marked;
    var filter := r[|dst|..];
    assert filter[..|filter| - 1] == r[|dst|..|r| - 1];
  }

  /** A finished filter block: the filters, their offsets, where the offsets begin and the base. */
  ghost predicate IsFilterBlock(hash: Hash, contents: Bytes, offsets: seq<nat>, groups: seq<seq<Bytes>>) {
    exists result :: FiltersLie(hash, result, offsets, groups)
      && contents == result + Fixed32Array(offsets) + EncodeFixed32(U32(|result|)) + [FILTER_BASE_LG]
  }

  // ---------------------------------------------------------------------------------------------
  // Reading a filter block
  // ---------------------------------------------------------------------------------------------

  /** The words after the filters: offset i, or where the offsets begin. */
  lemma {:induction false} FilterWords(hash: Hash, contents: Bytes, offsets: seq<nat>, groups: seq<seq<Bytes>>) returns (size: nat)
    requires IsFilterBlock(hash, contents, offsets, groups) && |contents| < LIMIT
    ensures size + 4 * |offsets| + 5 == |contents| && contents[|contents| - 1] == FILTER_BASE_LG
    ensures FiltersLie(hash, contents[..size], offsets, groups)
    ensures DecodeFixed32(contents[|contents| - 5..]) == size
    ensures forall i :: 0 <= i < |offsets| ==> DecodeFixed32(contents[size + 4 * i..]) == offsets[i]
  {
    hide FiltersLie, Fixed32Array, EncodeFixed32, DecodeFixed32, U32;
    var result :| FiltersLie(hash, result, offsets, groups)
      && contents == result + Fixed32Array(offsets) + EncodeFixed32(U32(|result|)) + [FILTER_BASE_LG];
    size := |result|;
    var points, tail := Fixed32Array(offsets), EncodeFixed32(U32(size)) + [FILTER_BASE_LG];
    assert contents == result + points + tail;
    assert contents[..size] == result;
    DropTwo(result, points, tail, 0);
    assert contents[|contents| - 5..] == tail;
    Fixed32RoundTrip(size, [FILTER_BASE_LG]);
    forall i | 0 <= i < |offsets| ensures DecodeFixed32(contents[size + 4 * i..]) == offsets[i] {
      PointOf(result, points, tail, contents, 4 * i);
      ArrayAt(offsets, i, tail);
      OffsetFits(hash, result, offsets, groups, i);
    }
  }

  lemma {:induction false} OffsetFits(hash: Hash, result: Bytes, offsets: seq<nat>, groups: seq<seq<Bytes>>, i: nat)
    requires FiltersLie(hash, result, offsets, groups) && i < |offsets|
    ensures offsets[i] <= |result|
  {
    hide Covers;
    assert FilterLies(hash, result, offsets, groups, i);
  }

  /** Which bytes of the block to ask: none because the block does not say, none at all, or a filter. */
  datatype Choice = Unknown | Nothing | Ask(filter: Bytes)

  /** block_offset >> base_lg. */
  function FilterIndex(blockOffset: nat, baseLg: nat): nat {
    if baseLg == 0 then blockOffset else FilterIndex(blockOffset / 2, baseLg - 1)
  }

  lemma {:induction false} HalfOf(x: nat, q: nat, p: nat, r: nat)
    requires x == q * (2 * p) + r && r < 2 * p
    ensures x / 2 == q * p + r / 2 && r / 2 < p
  {
    assert q * (2 * p) == 2 * (q * p);
  }

  lemma {:induction false} ShiftDivides(x: nat, n: nat, q: nat, r: nat)
    requires x == q * Pow2(n) + r && r < Pow2(n)
    ensures FilterIndex(x, n) == q
  {
    if n > 0 {
      HalfOf(x, q, Pow2(n - 1), r);
      ShiftDivides(x / 2, n - 1, q, r / 2);
    }
  }

  lemma {:induction false} FilterIndexIsQuotient(x: nat)
    ensures FilterIndex(x, 11) == Group(x)
  {
    assert Pow2(4) == 16;
    assert Pow2(8) == 256;
    assert Pow2(11) == FILTER_BASE;
    ShiftDivides(x, 11, x / FILTER_BASE, x % FILTER_BASE);
  }

  function Choose(data: Bytes, offset: nat, num: nat, index: nat): Choice
    requires offset + 4 * num + 4 <= |data| || num == 0
  {
    if index >= num then Unknown
    else
      var start, limit := DecodeFixed32(data[offset + index * 4..]), DecodeFixed32(data[offset + index * 4 + 4..]);
      if start <= limit && limit <= offset then Ask(data[start..limit])
      else if start == limit then Nothing
      else Unknown
  }

  lemma {:induction false} ChoiceIs(data: Bytes, offset: nat, num: nat, index: nat, start: nat, limit: nat)
    requires offset + 4 * num + 4 <= |data| && index < num && start <= limit <= offset
    requires DecodeFixed32(data[offset + 4 * index..]) == start && DecodeFixed32(data[offset + 4 * (index + 1)..]) == limit
    ensures Choose(data, offset, num, index) == Ask(data[start..limit])
  {
    hide DecodeFixed32;
    assert offset + 4 * (index + 1) == offset + index * 4 + 4;
  }

  /** In a finished filter block, the filter asked covers the keys of its 2 KB. */
  lemma {:induction false} ChoosesFilter(hash: Hash, contents: Bytes, offsets: seq<nat>, groups: seq<seq<Bytes>>, index: nat)
    requires IsFilterBlock(hash, contents, offsets, groups) && |contents| < LIMIT && index < |groups|
    ensures |contents| >= 5 && contents[|contents| - 1] == FILTER_BASE_LG
    ensures var offset := DecodeFixed32(contents[|contents| - 5..]);
            && offset + 5 <= |contents| && (|contents| - 5 - offset) / 4 == |groups|
            && var c := Choose(contents, offset, |groups|, index); c.Ask? && Covers(hash, c.filter, groups[index])
  {
    hide Covers, DecodeFixed32, IsFilterBlock, Choose;
    var size := FilterWords(hash, contents, offsets, groups);
    assert FilterLies(hash, contents[..size], offsets, groups, index);
    var end := if index + 1 < |offsets| then offsets[index + 1] else size;
    assert index + 1 == |offsets| ==> size + 4 * (index + 1) == |contents| - 5;
    ChoiceIs(contents, size, |offsets|, index, offsets[index], end);
    assert contents[..size][offsets[index]..end] == contents[offsets[index]..end];
  }

  /** Every probe of the key is a probe of one of the keys. */
  ghost predicate AllProbesTaken(hash: Hash, bits: nat, k: nat, keys: seq<Bytes>, key: Bytes)
    requires bits > 0
  {
    forall j :: 0 <= j < k ==> SetBySome(hash, bits, k, keys, Probe(hash(key) % TWO32, j) % bits)
  }

  /** A filter lets a key pass exactly when the keys it was made from took all its probes. */
  lemma {:induction false} MatchesIff(hash: Hash, filter: Bytes, keys: seq<Bytes>, key: Bytes)
    requires Covers(hash, filter, keys)
    ensures Matches(hash, filter, key)
       <==> |filter| >= 2 && AllProbesTaken(hash, 8 * (|filter| - 1), filter[|filter| - 1], keys, key)
    ensures key in keys ==> Matches(hash, filter, key)
  {
    hide GetBit, Probe, SetBySome;
    if keys != [] {
      var words, k := filter[..|filter| - 1], filter[|filter| - 1];
      if key in keys {
        MarkedProbes(hash, words, k, keys, key);
      }
    }
  }

  class FilterBlockReader {
    const policy: BloomFilterPolicy
    const data: Bytes
    const offset: nat
    const num: nat
    const baseLg: nat

    predicate InBounds() {
      offset + 4 * num + 4 <= |data| || num == 0
    }

    constructor (policy: BloomFilterPolicy, contents: Bytes)
      ensures this.policy == policy && InBounds()
      ensures |contents| >= 5 && DecodeFixed32(contents[|contents| - 5..]) <= |contents| - 5 ==>
                && data == contents && offset == DecodeFixed32(contents[|contents| - 5..])
                && num == (|contents| - 5 - offset) / 4 && baseLg == contents[|contents| - 1]
    {
      this.policy := policy;
      var n := |contents|;
      data, offset, num, baseLg := [], 0, 0, 0;
      if n >= 5 {
        baseLg := contents[n - 1];
        var lastWord := DecodeFixed32(contents[n - 5..]);
        if lastWord <= n - 5 {
          data := contents;
          offset := lastWord;
          num := (n - 5 - lastWord) / 4;
        }
      }
    }

    method KeyMayMatch(blockOffset: nat, key: Bytes) returns (may: bool)
      requires InBounds()
      ensures match Choose(data, offset, num, FilterIndex(blockOffset, baseLg))
              case Unknown => may
              case Nothing => !may
              case Ask(filter) => may <==> Matches(policy.hash, filter, key)
    {
      hide DecodeFixed32, FilterIndex, Probed;
      var index := FilterIndex(blockOffset, baseLg);
      if index < num {
        var start := DecodeFixed32(data[offset + index * 4..]);
        var limit := DecodeFixed32(data[offset + index * 4 + 4..]);
        if start <= limit && limit <= offset {
          may := policy.KeyMayMatch(key, data[start..limit]);
          return;
        } else if start == limit {
          return false;
        }
      }
      return true;
    }
  }

  /** The reader is on a finished filter block. */
  ghost predicate Reads(reader: FilterBlockReader, offsets: seq<nat>, groups: seq<seq<Bytes>>) {
    && IsFilterBlock(reader.policy.hash, reader.data, offsets, groups) && 5 <= |reader.data| < LIMIT
    && reader.offset == DecodeFixed32(reader.data[|reader.data| - 5..])
    && reader.num == |groups| && reader.baseLg == FILTER_BASE_LG && reader.InBounds()
  }

  method OpenFilter(policy: BloomFilterPolicy, contents: Bytes, ghost offsets: seq<nat>, ghost groups: seq<seq<Bytes>>)
      returns (reader: FilterBlockReader)
    requires IsFilterBlock(policy.hash, contents, offsets, groups) && |contents| < LIMIT
    ensures Reads(reader, offsets, groups) && reader.policy == policy
  {
    hide IsFilterBlock, DecodeFixed32;
    BlockEnds(policy.hash, contents, offsets, groups);
    reader := new FilterBlockReader(policy, contents);
  }

  lemma {:induction false} BlockEnds(hash: Hash, contents: Bytes, offsets: seq<nat>, groups: seq<seq<Bytes>>)
    requires IsFilterBlock(hash, contents, offsets, groups) && |contents| < LIMIT
    ensures |contents| >= 5 && contents[|contents| - 1] == FILTER_BASE_LG
    ensures var offset := DecodeFixed32(contents[|contents| - 5..]);
            offset + 5 <= |contents| && (|contents| - 5 - offset) / 4 == |groups|
  {
    hide DecodeFixed32, IsFilterBlock;
    var size := FilterWords(hash, contents, offsets, groups);
    SameNumber(hash, contents[..size], offsets, groups);
  }

  lemma {:induction false} SameNumber(hash: Hash, result: Bytes, offsets: seq<nat>, groups: seq<seq<Bytes>>)
    requires FiltersLie(hash, result, offsets, groups)
    ensures |offsets| == |groups|
  {
  }

  /** A lookup at an offset asks the filter made from the keys of the blocks that begin in the same 2 KB. */
  lemma {:induction false} AsksItsGroup(reader: FilterBlockReader, offsets: seq<nat>, groups: seq<seq<Bytes>>, blockOffset: nat)
    requires Reads(reader, offsets, groups) && Group(blockOffset) < |groups|
    ensures var c := Choose(reader.data, reader.offset, reader.num, FilterIndex(blockOffset, reader.baseLg));
            c.Ask? && Covers(reader.policy.hash, c.filter, groups[Group(blockOffset)])
  {
    hide IsFilterBlock, DecodeFixed32, Choose, Covers;
    ChoosesFilter(reader.policy.hash, reader.data, offsets, groups, Group(blockOffset));
    FilterIndexIsQuotient(blockOffset);
  }

  /** No added key is ever hidden, and any other key is unless the added keys of the same 2 KB took all its probes. */
  lemma {:induction false} NeverHidden(reader: FilterBlockReader, offsets: seq<nat>, groups: seq<seq<Bytes>>, blockOffset: nat, key: Bytes)
    requires Reads(reader, offsets, groups) && Group(blockOffset) < |groups|
    ensures var c := Choose(reader.data, reader.offset, reader.num, FilterIndex(blockOffset, reader.baseLg));
            && c.Ask?
            && (key in groups[Group(blockOffset)] ==> Matches(reader.policy.hash, c.filter, key))
            && (Matches(reader.policy.hash, c.filter, key) <==>
                 && |c.filter| >= 2
                 && AllProbesTaken(reader.policy.hash, 8 * (|c.filter| - 1), c.filter[|c.filter| - 1], groups[Group(blockOffset)], key))
  {
    hide IsFilterBlock, DecodeFixed32, Choose, Covers, Matches, AllProbesTaken;
    AsksItsGroup(reader, offsets, groups, blockOffset);
    var c := Choose(reader.data, reader.offset, reader.num, FilterIndex(blockOffset, reader.baseLg));
    MatchesIff(reader.policy.hash, c.filter, groups[Group(blockOffset)], key);
  }
}
