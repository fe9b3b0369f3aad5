/** Write batches (db/write_batch.cc): the buffer that is written to the log and applied to the memtable. */
module WriteBatches {
  import opened Keys
  import opened Version
  import opened Coding

  datatype Operation = Put(key: Bytes, value: Bytes) | Delete(key: Bytes)

  const HEADER: nat := 12
  const LIMIT: nat := 0x1_0000_0000

  // ---------------------------------------------------------------------------------------------
  // The bytes
  // ---------------------------------------------------------------------------------------------

  function OperationBytes(op: Operation): (r: Bytes)
    ensures |r| >= 2
  {
    match op
    case Put(key, value) => [1] + LengthPrefixed(key) + LengthPrefixed(value)
    case Delete(key) => [0] + LengthPrefixed(key)
  }

  /** The first n operations one after another. */
  function BodyBytes(ops: seq<Operation>): Bytes {
    if ops == [] then [] else BodyBytes(ops[..|ops| - 1]) + OperationBytes(ops[|ops| - 1])
  }

  /** The bytes of keys and values fit 32-bit lengths. */
  predicate Fits(op: Operation) {
    |op.key| < LIMIT && (op.Put? ==> |op.value| < LIMIT)
  }

  lemma {:induction false} BodyOfMore(ops: seq<Operation>, op: Operation)
    ensures BodyBytes(ops + [op]) == BodyBytes(ops) + OperationBytes(op)
  {
    hide OperationBytes;
    assert (ops + [op])[..|ops|] == ops;
  }

  lemma {:induction false} OneMoreJoins(a: seq<Operation>, b: seq<Operation>, op: Operation)
    requires BodyBytes(a + b) == BodyBytes(a) + BodyBytes(b)
    ensures BodyBytes(a + (b + [op])) == BodyBytes(a) + BodyBytes(b + [op])
  {
    hide BodyBytes, OperationBytes;
    BodyOfMore(a + b, op);
    BodyOfMore(b, op);
    assert a + (b + [op]) == (a + b) + [op];
  }

  lemma {:induction false} BodiesJoin(a: seq<Operation>, b: seq<Operation>)
    ensures BodyBytes(a + b) == BodyBytes(a) + BodyBytes(b)
  {
    hide OperationBytes;
    if b == [] {
      assert a + b == a;
    } else {
      var n := |b| - 1;
      BodiesJoin(a, b[..n]);
      OneMoreJoins(a, b[..n], b[n]);
      assert b[..n] + [b[n]] == b;
    }
  }

  // ---------------------------------------------------------------------------------------------
  // Reading
  // ---------------------------------------------------------------------------------------------

  /** GetLengthPrefixedSlice: the string and what follows it. */
  function ReadString(b: Bytes): (r: Option<(Bytes, Bytes)>)
    ensures r.Some? ==> |r.value.0| + |r.value.1| < |b|
  {
    match ReadVarint(b, 5)
    case None => None
    case Some((v, n)) =>
      var size := if v < LIMIT then v else v % LIMIT;
      if |b| - n < size then None else Some((b[n..n + size], b[n + size..]))
  }

  lemma {:induction false} StringRoundTrip(s: Bytes, rest: Bytes)
    requires |s| < LIMIT
    ensures ReadString(LengthPrefixed(s) + rest) == Some((s, rest))
  {
    hide Varint, ReadVarint;
    var b := LengthPrefixed(s) + rest;
    var n := |Varint(|s|)|;
    assert b == Varint(|s|) + (s + rest);
    assert Pow128(5) == 0x8_0000_0000;
    VarintRoundTrip(|s|, 5, s + rest);
    assert b[n..n + |s|] == s && b[n + |s|..] == rest;
  }

  /** One operation off the front, as in the loop of Iterate. */
  function ReadOperation(b: Bytes): (r: Option<(Operation, Bytes)>)
    requires b != []
    ensures r.Some? ==> |r.value.1| < |b|
  {
    if b[0] == 1 then
      match ReadString(b[1..])
      case None => None
      case Some((key, rest)) =>
        match ReadString(rest)
        case None => None
        case Some((value, rest)) => Some((Put(key, value), rest))
    else if b[0] == 0 then
      match ReadString(b[1..])
      case None => None
      case Some((key, rest)) => Some((Delete(key), rest))
    else None
  }

  lemma {:induction false} OperationRoundTrip(op: Operation, rest: Bytes)
    requires Fits(op)
    ensures ReadOperation(OperationBytes(op) + rest) == Some((op, rest))
  {
    hide LengthPrefixed, ReadString;
    var b := OperationBytes(op) + rest;
    match op
    case Put(key, value) =>
      assert b[1..] == LengthPrefixed(key) + (LengthPrefixed(value) + rest);
      StringRoundTrip(key, LengthPrefixed(value) + rest);
      StringRoundTrip(value, rest);
    case Delete(key) =>
      assert b[1..] == LengthPrefixed(key) + rest;
      StringRoundTrip(key, rest);
  }

  /** What the handler is given, from the bytes after the header; None is corruption. */
  function ReadBody(b: Bytes): Option<seq<Operation>>
    decreases |b|
  {
    if b == [] then Some([])
    else
      match ReadOperation(b)
      case None => None
      case Some((op, rest)) =>
        match ReadBody(rest)
        case None => None
        case Some(ops) => Some([op] + ops)
  }

  lemma {:induction false} BodyRoundTrip(ops: seq<Operation>, rest: Bytes, more: seq<Operation>)
    requires (forall op :: op in ops ==> Fits(op)) && ReadBody(rest) == Some(more)
    ensures ReadBody(BodyBytes(ops) + rest) == Some(ops + more)
    decreases |ops|
  {
    hide OperationBytes, ReadOperation;
    if ops == [] {
      assert BodyBytes(ops) + rest == rest && ops + more == more;
    } else {
      var n := |ops| - 1;
      var b := OperationBytes(ops[n]) + rest;
      OperationRoundTrip(ops[n], rest);
      BodyRoundTrip(ops[..n], b, [ops[n]] + more);
      assert BodyBytes(ops) + rest == BodyBytes(ops[..n]) + b;
      assert ops[..n] + ([ops[n]] + more) == ops + more;
    }
  }

  lemma {:induction false} BodyFails(ops: seq<Operation>, rest: Bytes)
    requires (forall op :: op in ops ==> Fits(op)) && ReadBody(rest) == None
    ensures ReadBody(BodyBytes(ops) + rest) == None
    decreases |ops|
  {
    hide OperationBytes, ReadOperation;
    if ops == [] {
      assert BodyBytes(ops) + rest == rest;
    } else {
      var n := |ops| - 1;
      var b := OperationBytes(ops[n]) + rest;
      OperationRoundTrip(ops[n], rest);
      BodyFails(ops[..n], b);
      assert BodyBytes(ops) + rest == BodyBytes(ops[..n]) + b;
    }
  }

  /** Behind any operations, a byte that is no tag makes the whole batch unreadable. */
  lemma {:induction false} UnknownTagFails(ops: seq<Operation>, tag: Byte, rest: Bytes)
    requires (forall op :: op in ops ==> Fits(op)) && tag != 0 && tag != 1
    ensures ReadBody(BodyBytes(ops) + ([tag] + rest)) == None
  {
    hide OperationBytes;
    BodyFails(ops, [tag] + rest);
  }

  // ---------------------------------------------------------------------------------------------
  // The batch
  // ---------------------------------------------------------------------------------------------

  lemma {:induction false} ThreeParts(rep: Bytes, a: Bytes, b: Bytes, c: Bytes)
    requires rep == a + b + c && |a| == 8 && |b| == 4
    ensures rep[..8] == a && rep[8..12] == b && rep[12..] == c && rep == a + (b + c) && rep[8..] == b + c
  {
  }

  class WriteBatch {
    var rep: Bytes
    ghost var ops: seq<Operation>
    ghost var sequence: nat

    ghost predicate Ok()
      reads this
    {
      && sequence < TWO64 && |ops| < LIMIT && (forall op :: op in ops ==> Fits(op))
      && rep == EncodeFixed64(sequence) + EncodeFixed32(|ops|) + BodyBytes(ops)
    }

    constructor ()
      ensures Ok() && ops == [] && sequence == 0
    {
      rep := seq(HEADER, i => 0);
      ops, sequence := [], 0;
      new;
      assert rep == EncodeFixed64(0) + EncodeFixed32(0) + [];
    }

    /** The parts of the buffer. */
    lemma {:induction false} Parts()
      requires Ok()
      ensures |rep| >= HEADER && rep[..8] == EncodeFixed64(sequence) && rep[8..12] == EncodeFixed32(|ops|) && rep[12..] == BodyBytes(ops)
      ensures DecodeFixed64(rep) == sequence && DecodeFixed32(rep[8..]) == |ops|
    {
      hide EncodeFixed64, EncodeFixed32, DecodeFixed64, DecodeFixed32, BodyBytes;
      var front, count, body := EncodeFixed64(sequence), EncodeFixed32(|ops|), BodyBytes(ops);
      ThreeParts(rep, front, count, body);
      Fixed64RoundTrip(sequence, count + body);
      Fixed32RoundTrip(|ops|, body);
    }

    method Count() returns (n: nat)
      requires Ok()
      ensures n == |ops|
    {
      Parts();
      n := DecodeFixed32(rep[8..]);
    }

    method Sequence() returns (s: nat)
      requires Ok()
      ensures s == sequence
    {
      Parts();
      s := DecodeFixed64(rep);
    }

    method SetSequence(s: nat)
      requires Ok() && s < TWO64
      modifies this
      ensures Ok() && sequence == s && ops == old(ops)
    {
      hide EncodeFixed64, EncodeFixed32, DecodeFixed64, DecodeFixed32, BodyBytes;
      Parts();
      rep := EncodeFixed64(s) + rep[8..];
      sequence := s;
      assert rep == EncodeFixed64(s) + EncodeFixed32(|ops|) + BodyBytes(ops);
    }

    /** Put and Delete: the count goes up and the operation goes to the end. */
    method Add(op: Operation)
      requires Ok() && Fits(op) && |ops| + 1 < LIMIT
      modifies this
      ensures Ok() && ops == old(ops) + [op] && sequence == old(sequence)
    {
      hide EncodeFixed64, EncodeFixed32, DecodeFixed64, DecodeFixed32, OperationBytes;
      Parts();
      var n := Count();
      rep := rep[..8] + EncodeFixed32(n + 1) + rep[12..];
      rep := rep + OperationBytes(op);
      ops := ops + [op];
      assert BodyBytes(ops) == BodyBytes(old(ops)) + OperationBytes(op);
      assert rep == EncodeFixed64(sequence) + EncodeFixed32(n + 1) + BodyBytes(ops);
    }

    /** The source may be the batch itself. */
    method Append(source: WriteBatch)
      requires Ok() && source.Ok() && |ops| + |source.ops| < LIMIT
      modifies this
      ensures Ok() && ops == old(ops) + old(source.ops) && sequence == old(sequence)
    {
      hide EncodeFixed64, EncodeFixed32, DecodeFixed64, DecodeFixed32, BodyBytes;
      Parts();
      source.Parts();
      var n := Count();
      var m := source.Count();
      ghost var more := source.ops;
      rep := rep[..8] + EncodeFixed32(n + m) + rep[12..];
      assert source.rep[HEADER..] == BodyBytes(more);
      rep := rep + source.rep[HEADER..];
      BodiesJoin(ops, more);
      ops := ops + more;
      assert rep == EncodeFixed64(sequence) + EncodeFixed32(n + m) + BodyBytes(ops);
    }
  }

  /** Iterate, on any buffer: the operations, or None for the source's corruption errors. */
  method Iterate(rep: Bytes) returns (r: Option<seq<Operation>>)
    ensures |rep| < HEADER ==> r == None
    ensures |rep| >= HEADER ==>
              match ReadBody(rep[HEADER..])
              case None => r == None
              case Some(ops) => r == if |ops| == DecodeFixed32(rep[8..]) then Some(ops) else None
  {
    hide ReadOperation, DecodeFixed32;
    if |rep| < HEADER {
      return None;
    }
    var input, ops: seq<Operation> := rep[HEADER..], [];
    assert match ReadBody(input) case None => true case Some(more) => [] + more == more;
    while input != []
      invariant ReadBody(rep[HEADER..]) == match ReadBody(input) case None => None case Some(more) => Some(ops + more)
      decreases |input|
    {
      ghost var rest := ReadBody(input);
      var step := ReadOperation(input);
      if step == None {
        return None;
      }
      var (op, next) := step.value;
      assert match ReadBody(next) case None => true case Some(more) => ops + ([op] + more) == ops + [op] + more;
      ops := ops + [op];
      input := next;
    }
    assert ops + [] == ops;
    if |ops| != DecodeFixed32(rep[8..]) {
      return None;
    }
    return Some(ops);
  }

  /** Every batch iterates over exactly the operations put into it, in order. */
  method IterateBatch(b: WriteBatch) returns (ops: seq<Operation>)
    requires b.Ok()
    ensures ops == b.ops
  {
    b.Parts();
    BodyRoundTrip(b.ops, [], []);
    assert BodyBytes(b.ops) + [] == BodyBytes(b.ops) && b.ops + [] == b.ops;
    var r := Iterate(b.rep);
    ops := r.value;
  }

  /** What a memtable is given: sequence numbers count up from the batch's own. */
  function Inserted(sequence: nat, ops: seq<Operation>): (r: seq<(nat, Operation)>)
    ensures |r| == |ops| && forall i :: 0 <= i < |ops| ==> r[i] == (sequence + i, ops[i])
  {
    seq(|ops|, i requires 0 <= i < |ops| => (sequence + i, ops[i]))
  }

  /** MemTableInserter: each operation takes the next sequence number. */
  method InsertOperations(first: nat, ops: seq<Operation>) returns (added: seq<(nat, Operation)>)
    ensures added == Inserted(first, ops)
  {
    var sequence := first;
    added := [];
    for i := 0 to |ops|
      invariant sequence == first + i && |added| == i
      invariant forall j :: 0 <= j < i ==> added[j] == (first + j, ops[j])
    {
      added := added + [(sequence, ops[i])];
      sequence := sequence + 1;
    }
  }

  method InsertInto(b: WriteBatch) returns (added: seq<(nat, Operation)>)
    requires b.Ok()
    ensures added == Inserted(b.sequence, b.ops)
  {
    var sequence := b.Sequence();
    var ops := IterateBatch(b);
    added := InsertOperations(sequence, ops);
  }
}
